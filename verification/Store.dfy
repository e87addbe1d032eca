/**
 * `store.rs`: the app's own small files, each replaced by writing a temporary file and renaming it into
 * place, and the sweep of temporary files when a store opens.
 */
module Store {
  import opened Sets
  import opened Options
  import opened Strings
  import opened FileSystem
  import opened Octets
  import opened Names
  import Hex

  // ---------------------------------------------------------------- names

  const MAX_STORE_NAME: nat := 64
  const TMP_RANDOM_BYTES: nat := 8

  predicate StoreChar(c: char) {
    'a' <= c <= 'z' || '0' <= c <= '9' || c == '.' || c == '_' || c == '-'
  }

  predicate AllStoreChars(s: Str) {
    s.Nil? || (StoreChar(s.last) && AllStoreChars(s.init))
  }

  /** `check_name`: one plain lowercase component without a leading dot. */
  predicate CheckName(s: Str) {
    s.Snoc? && Bytes(s) <= MAX_STORE_NAME && Head(s) != '.' && AllStoreChars(s)
  }

  const DOT: Str := Snoc(Nil, '.')

  function WithTmp(s: Str): Str {
    Snoc(Snoc(Snoc(Snoc(s, '.'), 't'), 'm'), 'p')
  }

  /** `.{name}.{hex}.tmp` */
  function TemporaryName(name: Str, random: seq<Byte>): Str {
    Cat(DOT, WithTmp(Cat(Snoc(name, '.'), Hex.Encoded(random))))
  }

  /** `strip_prefix` of one character. */
  function StripFirst(s: Str, c: char): Option<Str> {
    if s.Nil? then None
    else if s.init.Nil? then (if s.last == c then Some(Nil) else None)
    else
      var rest := StripFirst(s.init, c);
      if rest.None? then None else Some(Snoc(rest.value, s.last))
  }

  /** `strip_suffix(".tmp")`. */
  function StripTmp(s: Str): Option<Str> {
    if s.Snoc? && s.last == 'p' && s.init.Snoc? && s.init.last == 'm' && s.init.init.Snoc? && s.init.init.last == 't'
       && s.init.init.init.Snoc? && s.init.init.init.last == '.'
    then Some(s.init.init.init.init)
    else None
  }

  predicate LowerHex(s: Str) {
    s.Nil? || (('0' <= s.last <= '9' || 'a' <= s.last <= 'f') && LowerHex(s.init))
  }

  /** `is_temporary`, step by step. */
  predicate IsTemporary(s: Str) {
    var rest := StripFirst(s, '.');
    && rest.Some?
    && var mid := StripTmp(rest.value);
    && mid.Some? && Has(mid.value, '.')
    && var random := AfterDot(mid.value);
    && Bytes(random) == 2 * TMP_RANDOM_BYTES && LowerHex(random) && CheckName(BeforeDot(mid.value))
  }

  lemma {:induction false} StripFirstCat(t: Str, c: char)
    ensures StripFirst(Cat(Snoc(Nil, c), t), c) == Some(t)
  {
    if t.Snoc? {
      StripFirstCat(t.init, c);
      assert Cat(Snoc(Nil, c), t.init).Snoc?;
    }
  }

  lemma {:induction false} StripFirstSplits(s: Str, c: char)
    requires StripFirst(s, c).Some?
    ensures s == Cat(Snoc(Nil, c), StripFirst(s, c).value)
  {
    if s.init.Snoc? {
      StripFirstSplits(s.init, c);
    }
  }

  lemma {:induction false} LowerHexIs(s: Str)
    requires LowerHex(s)
    ensures Hex.AllHex(s) && Hex.Lower(s) == s && !Has(s, '.') && Bytes(s) == Len(s)
  {
    if s.Snoc? {
      LowerHexIs(s.init);
    }
  }

  lemma {:induction false} EncodedIsLowerHex(random: seq<Byte>)
    ensures LowerHex(Hex.Encoded(random)) && Bytes(Hex.Encoded(random)) == 2 * |random|
  {
    if random != [] {
      var init, b := random[..|random| - 1], random[|random| - 1];
      EncodedIsLowerHex(init);
      var s := Hex.Encoded(random);
      assert LowerHex(s.init);
      assert Bytes(s.init) == 2 * |init| + 1;
    }
  }

  /** What a name spells, whenever it is a temporary file's. */
  lemma {:induction false} TemporaryDecodes(name: Str, random: seq<Byte>)
    requires |random| == TMP_RANDOM_BYTES
    ensures var s := TemporaryName(name, random);
      && StripFirst(s, '.').Some? && StripTmp(StripFirst(s, '.').value).Some?
      && var mid := StripTmp(StripFirst(s, '.').value).value;
      Has(mid, '.') && BeforeDot(mid) == name && AfterDot(mid) == Hex.Encoded(random)
  {
    EncodedIsLowerHex(random);
    LowerHexIs(Hex.Encoded(random));
    var mid := Cat(Snoc(name, '.'), Hex.Encoded(random));
    StripFirstCat(WithTmp(mid), '.');
    DotSplitUnique(name, Hex.Encoded(random));
  }

  lemma {:induction false} TemporaryIsTemporary(name: Str, random: seq<Byte>)
    requires CheckName(name) && |random| == TMP_RANDOM_BYTES
    ensures IsTemporary(TemporaryName(name, random))
  {
    TemporaryDecodes(name, random);
    EncodedIsLowerHex(random);
  }

  lemma {:induction false} HexSpells(hex: Str) returns (random: seq<Byte>)
    requires LowerHex(hex) && Bytes(hex) % 2 == 0
    ensures 2 * |random| == Bytes(hex) && Hex.Encoded(random) == hex
  {
    LowerHexIs(hex);
    Hex.DecodesIff(hex);
    Hex.EncodeDecode(hex);
    random := Hex.Decoded(hex).value;
  }

  lemma {:induction false} TemporaryParts(s: Str) returns (name: Str, random: seq<Byte>)
    requires IsTemporary(s)
    ensures CheckName(name) && |random| == TMP_RANDOM_BYTES && s == TemporaryName(name, random)
  {
    var rest := StripFirst(s, '.').value;
    var mid := StripTmp(rest).value;
    name := BeforeDot(mid);
    random := HexSpells(AfterDot(mid));
    StripFirstSplits(s, '.');
    SplitAtDot(mid);
    assert rest == WithTmp(mid);
  }

  /** `is_temporary` accepts exactly the names `write` gives its temporary files. */
  lemma {:induction false} IsTemporaryIff(s: Str)
    ensures IsTemporary(s) <==>
            exists name: Str, random: seq<Byte> :: CheckName(name) && |random| == TMP_RANDOM_BYTES && s == TemporaryName(name, random)
  {
    if IsTemporary(s) {
      var name, random := TemporaryParts(s);
    } else {
      forall name: Str, random: seq<Byte> | CheckName(name) && |random| == TMP_RANDOM_BYTES
        ensures s != TemporaryName(name, random)
      {
        TemporaryIsTemporary(name, random);
      }
    }
  }

  /** A temporary file's name says what it is for: no two files or random numbers share one. */
  lemma {:induction false} TemporaryNameInjective(a: Str, r: seq<Byte>, b: Str, q: seq<Byte>)
    requires |r| == TMP_RANDOM_BYTES && |q| == TMP_RANDOM_BYTES && TemporaryName(a, r) == TemporaryName(b, q)
    ensures a == b && r == q
  {
    TemporaryDecodes(a, r);
    TemporaryDecodes(b, q);
    Hex.DecodeEncode(r);
    Hex.DecodeEncode(q);
  }

  lemma {:induction false} StripFirstStarts(s: Str, c: char)
    requires StripFirst(s, c).Some?
    ensures Head(s) == c
  {
    if s.init.Snoc? {
      StripFirstStarts(s.init, c);
    }
  }

  /** No store file has a temporary file's name. */
  lemma {:induction false} StoreNamesAreNotTemporary(s: Str)
    requires CheckName(s)
    ensures !IsTemporary(s)
  {
    if StripFirst(s, '.').Some? {
      StripFirstStarts(s, '.');
    }
  }

  // ---------------------------------------------------------------- writing

  /** The store directory: what each name leads to. */
  type Files = map<Str, Node>

  datatype WriteError = BadName | BadDirectory | Io

  /** How each system call of one write goes; `writes` are the sizes the kernel takes the bytes in. */
  datatype Luck = Luck(dirOk: bool, created: bool, writes: seq<nat>, synced: bool, renamed: bool, dirSynced: bool, unlinked: bool)

  /** Whether writes of these sizes get all of `n` bytes out; a write of nothing is an error. */
  predicate Covers(n: nat, writes: seq<nat>) {
    n == 0 || (writes != [] && writes[0] > 0 && Covers(if writes[0] >= n then 0 else n - writes[0], writes[1..]))
  }

  /** Whether a write gets as far as its rename. */
  predicate GetsToRename(files: Files, name: Str, tmp: Str, bytes: seq<Byte>, luck: Luck) {
    && CheckName(name) && luck.dirOk && tmp !in files && luck.created
    && Covers(|bytes|, luck.writes) && luck.synced && luck.renamed
  }

  /** What a kill may find: `name` whole, old or new, and nothing else changed but the temporary file. */
  ghost predicate OldOrNew(was: Files, now: Files, name: Str, tmp: Str, bytes: seq<Byte>) {
    && (tmp in now ==> if tmp in was then now[tmp] == was[tmp] else now[tmp].kind == Regular)
    && (forall n :: n != name && n != tmp ==> (n in now <==> n in was) && (n in was ==> now[n] == was[n]))
    && (Same(was, now, name) || (name in now && now[name] == Node(Regular, bytes)))
  }

  ghost predicate Same(was: Files, now: Files, name: Str) {
    (name in now <==> name in was) && (name in was ==> now[name] == was[name])
  }

  /** Every state from number `from` on is one a kill may find. */
  ghost predicate Atomic(was: Files, history: seq<Files>, from: nat, name: Str, tmp: Str, bytes: seq<Byte>) {
    forall i :: from <= i < |history| ==> OldOrNew(was, history[i], name, tmp, bytes)
  }

  lemma {:induction false} OneMore(was: Files, history: seq<Files>, from: nat, now: Files, name: Str, tmp: Str, bytes: seq<Byte>)
    requires Atomic(was, history, from, name, tmp, bytes) && OldOrNew(was, now, name, tmp, bytes)
    ensures Atomic(was, history + [now], from, name, tmp, bytes)
  {
  }

  lemma {:induction false} WithTemporary(was: Files, name: Str, tmp: Str, part: Node, bytes: seq<Byte>)
    requires tmp != name && tmp !in was && part.kind == Regular
    ensures OldOrNew(was, was[tmp := part], name, tmp, bytes)
    ensures Same(was, was[tmp := part], name)
  {
  }

  /** One more write to the temporary file. */
  lemma {:induction false} WrittenOn(was: Files, history: seq<Files>, from: nat, name: Str, tmp: Str, before: Node, part: Node, bytes: seq<Byte>)
    requires tmp != name && tmp !in was && part.kind == Regular && Atomic(was, history, from, name, tmp, bytes)
    ensures was[tmp := before][tmp := part] == was[tmp := part]
    ensures Atomic(was, history + [was[tmp := part]], from, name, tmp, bytes)
  {
    WithTemporary(was, name, tmp, part, bytes);
    OneMore(was, history, from, was[tmp := part], name, tmp, bytes);
  }

  lemma {:induction false} RenamedOver(was: Files, name: Str, tmp: Str, bytes: seq<Byte>)
    requires tmp != name && tmp !in was
    ensures (was[tmp := Node(Regular, bytes)] - {tmp})[name := Node(Regular, bytes)] == was[name := Node(Regular, bytes)]
    ensures OldOrNew(was, was[name := Node(Regular, bytes)], name, tmp, bytes)
  {
  }

  lemma {:induction false} WithoutTemporary(was: Files, now: Files, name: Str, tmp: Str, bytes: seq<Byte>)
    requires tmp != name && OldOrNew(was, now, name, tmp, bytes)
    ensures OldOrNew(was, now - {tmp}, name, tmp, bytes)
    ensures Same(was, now, name) ==> Same(was, now - {tmp}, name)
    ensures tmp !in was && now == was[name := Node(Regular, bytes)] ==> now - {tmp} == now
  {
  }

  class Store {
    var files: Files
    /** The directory after each of our steps. */
    ghost var history: seq<Files>

    constructor (files: Files)
      ensures this.files == files && history == []
    {
      this.files := files;
      history := [];
    }

    /** `write_all` to the temporary file, in as many pieces as the kernel likes. */
    method WriteAll(ghost was: Files, tmp: Str, ghost name: Str, bytes: seq<Byte>, luck: Luck, ghost from: nat) returns (ok: bool)
      requires tmp != name && tmp !in was && files == was[tmp := Node(Regular, [])] && Atomic(was, history, from, name, tmp, bytes)
      modifies this
      ensures old(history) <= history && Atomic(was, history, from, name, tmp, bytes)
      ensures OldOrNew(was, files, name, tmp, bytes) && Same(was, files, name)
      ensures ok ==> files == was[tmp := Node(Regular, bytes)]
      ensures ok <==> Covers(|bytes|, luck.writes)
    {
      var done, turn := 0, 0;
      assert luck.writes[0..] == luck.writes;
      while done < |bytes|
        invariant 0 <= done <= |bytes| && files == was[tmp := Node(Regular, bytes[..done])]
        invariant turn <= |luck.writes| && (Covers(|bytes|, luck.writes) <==> Covers(|bytes| - done, luck.writes[turn..]))
        invariant old(history) <= history && Atomic(was, history, from, name, tmp, bytes)
      {
        if turn >= |luck.writes| || luck.writes[turn] == 0 {
          WithTemporary(was, name, tmp, Node(Regular, bytes[..done]), bytes);
          return false;
        }
        assert luck.writes[turn..][1..] == luck.writes[turn + 1..];
        var next := if done + luck.writes[turn] <= |bytes| then done + luck.writes[turn] else |bytes|;
        WrittenOn(was, history, from, name, tmp, Node(Regular, bytes[..done]), Node(Regular, bytes[..next]), bytes);
        done, turn := next, turn + 1;
        files := files[tmp := Node(Regular, bytes[..done])];
        history := history + [files];
      }
      assert bytes[..done] == bytes;
      WithTemporary(was, name, tmp, Node(Regular, bytes), bytes);
      return true;
    }

    /** Writes `bytes` to the new file `tmp`, makes it durable, and renames it over `name`. */
    method Replace(tmp: Str, name: Str, bytes: seq<Byte>, luck: Luck) returns (ok: bool, ghost over: bool)
      requires tmp != name
      modifies this
      ensures old(history) <= history && Atomic(old(files), history, |old(history)|, name, tmp, bytes)
      ensures OldOrNew(old(files), files, name, tmp, bytes)
      ensures over ==> files == old(files)[name := Node(Regular, bytes)] && tmp !in old(files)
      ensures !over ==> Same(old(files), files, name) && !ok
      ensures ok <==> over && luck.dirSynced
      ensures CheckName(name) && luck.dirOk ==> (over <==> GetsToRename(old(files), name, tmp, bytes, luck))
    {
      if tmp in files || !luck.created {
        return false, false;
      }
      ghost var was := files;
      files := files[tmp := Node(Regular, [])];
      WithTemporary(was, name, tmp, Node(Regular, []), bytes);
      OneMore(was, history, |old(history)|, files, name, tmp, bytes);
      history := history + [files];
      var written := WriteAll(was, tmp, name, bytes, luck, |old(history)|);
      if !written {
        return false, false;
      }
      WithTemporary(was, name, tmp, Node(Regular, bytes), bytes);
      if !luck.synced || !luck.renamed {
        return false, false;
      }
      RenamedOver(was, name, tmp, bytes);
      files := (files - {tmp})[name := files[tmp]];
      OneMore(was, history, |old(history)|, files, name, tmp, bytes);
      history := history + [files];
      return luck.dirSynced, true;
    }

    /**
     * Replaces `name` with `bytes`. At every kill point the name holds the whole old or the whole new
     * content, and no other store file has changed. A failure leaves the old content, except one that
     * comes after the rename, from the directory's own fsync: then the new content is in place.
     */
    method Write(name: Str, bytes: seq<Byte>, random: seq<Byte>, luck: Luck)
      returns (r: Option<WriteError>, ghost over: bool)
      requires |random| == TMP_RANDOM_BYTES
      modifies this
      ensures !CheckName(name) ==> r == Some(BadName) && files == old(files) && history == old(history)
      ensures old(history) <= history && Atomic(old(files), history, |old(history)|, name, TemporaryName(name, random), bytes)
      ensures OldOrNew(old(files), files, name, TemporaryName(name, random), bytes)
      ensures over <==> GetsToRename(old(files), name, TemporaryName(name, random), bytes, luck)
      ensures r == None <==> over && luck.dirSynced
      ensures CheckName(name) ==> (r == Some(BadDirectory) <==> !luck.dirOk) && (r == Some(Io) <==> luck.dirOk && !(over && luck.dirSynced))
      ensures over ==> files == old(files)[name := Node(Regular, bytes)]
      ensures !over ==> Same(old(files), files, name)
      ensures r == Some(Io) && luck.unlinked ==> TemporaryName(name, random) !in files
    {
      over := false;
      if !CheckName(name) {
        return Some(BadName), over;
      }
      if !luck.dirOk {
        return Some(BadDirectory), over;
      }
      var tmp := TemporaryName(name, random);
      TemporaryIsTemporary(name, random);
      StoreNamesAreNotTemporary(name);
      var ok;
      ok, over := Replace(tmp, name, bytes, luck);
      if !ok {
        if luck.unlinked {
          WithoutTemporary(old(files), files, name, tmp, bytes);
          files := files - {tmp};
          OneMore(old(files), history, |old(history)|, files, name, tmp, bytes);
          history := history + [files];
        }
        return Some(Io), over;
      }
      return None, over;
    }
  }

  /** Such a failure: everything goes well but the directory's own fsync, and a failed write has replaced the file. */
  method FailedWriteReplaces(files: Files, name: Str, bytes: seq<Byte>, random: seq<Byte>) returns (store: Store, r: Option<WriteError>)
    requires CheckName(name) && |random| == TMP_RANDOM_BYTES && TemporaryName(name, random) !in files
    ensures fresh(store) && r == Some(Io) && store.files == files[name := Node(Regular, bytes)]
  {
    store := new Store(files);
    var luck := Luck(true, true, [|bytes|], true, true, false, true);
    assert Covers(|bytes|, luck.writes);
    ghost var over;
    r, over := store.Write(name, bytes, random, luck);
  }

  // ---------------------------------------------------------------- the sweep when a store opens

  const MAX_TMP_SWEEP: nat := 10_000

  /** A regular file that is named as temporary files are. */
  predicate Leftover(files: Files, n: Str) {
    n in files && files[n].kind == Regular && IsTemporary(n)
  }

  function Swept(files: Files): Files {
    map n | n in files && !Leftover(files, n) :: files[n]
  }

  /** Only leftovers are gone, and none of those listed so far is left. */
  ghost predicate SweptSoFar(files: Files, r: Files, listing: seq<Str>, i: nat) {
    && i <= |listing| && r.Keys <= files.Keys
    && (forall n :: n in files && n !in r ==> Leftover(files, n))
    && (forall n :: n in r ==> r[n] == files[n])
    && (forall j :: 0 <= j < i && listing[j] in r ==> !Leftover(files, listing[j]))
  }

  lemma {:induction false} SweptAll(files: Files, r: Files, listing: seq<Str>)
    requires SweptSoFar(files, r, listing, |listing|) && forall n :: n in files ==> n in listing
    ensures r == Swept(files)
  {
    forall n | n in files ensures n in r <==> !Leftover(files, n) {
      var j :| 0 <= j < |listing| && listing[j] == n;
    }
  }

  lemma {:induction false} SweptOne(files: Files, r: Files, listing: seq<Str>, i: nat)
    requires SweptSoFar(files, r, listing, i) && i < |listing|
    ensures SweptSoFar(files, if Leftover(files, listing[i]) then r - {listing[i]} else r, listing, i + 1)
  {
  }

  /** What reading the directory yields, in some order: its entries, and the two that every directory has. */
  ghost predicate Lists(files: Files, listing: seq<Str>) {
    && (forall i, j :: 0 <= i < j < |listing| ==> listing[i] != listing[j])
    && (forall n :: n in listing <==> n in files || n == DOT || n == DOTS)
    && DOT !in files && DOTS !in files
  }

  const DOTS: Str := Snoc(DOT, '.')

  lemma {:induction false} ListingLength(files: Files, listing: seq<Str>)
    requires Lists(files, listing)
    ensures |listing| == |files| + 2
  {
    NoRepetitions(listing);
    assert (set n | n in listing) == files.Keys + {DOT, DOTS};
  }

  /** Goes through the directory, up to a cap that `.` and `..` count towards, and unlinks temporary files. */
  method SweepTemporaries(files: Files, listing: seq<Str>) returns (r: Files)
    requires Lists(files, listing)
    ensures |files| + 2 <= MAX_TMP_SWEEP ==> r == Swept(files)
    ensures SweptSoFar(files, r, listing, 0)
  {
    r := files;
    var i := 0;
    while i < |listing| && i < MAX_TMP_SWEEP
      invariant 0 <= i <= |listing| && SweptSoFar(files, r, listing, i)
    {
      var n := listing[i];
      SweptOne(files, r, listing, i);
      if Leftover(files, n) {
        r := r - {n};
      }
      i := i + 1;
    }
    ListingLength(files, listing);
    if |listing| <= MAX_TMP_SWEEP {
      SweptAll(files, r, listing);
    }
  }

  /**
   * A write killed after any of its steps, and the store opened again: the name holds the whole old or the
   * whole new content, every other store file is as it was, and of the temporary file nothing is left, unless
   * something that is not a regular file had its name before.
   */
  lemma {:induction false} KilledThenSwept(was: Files, history: seq<Files>, from: nat, i: nat, name: Str, random: seq<Byte>, bytes: seq<Byte>)
    requires CheckName(name) && |random| == TMP_RANDOM_BYTES
    requires Atomic(was, history, from, name, TemporaryName(name, random), bytes) && from <= i < |history|
    ensures var r, tmp := Swept(history[i]), TemporaryName(name, random);
      && (tmp in r ==> tmp in was && was[tmp].kind != Regular && r[tmp] == was[tmp])
      && (Same(was, r, name) || (name in r && r[name] == Node(Regular, bytes)))
      && (forall n :: CheckName(n) && n != name ==> Same(was, r, n))
  {
    var now, tmp := history[i], TemporaryName(name, random);
    assert OldOrNew(was, now, name, tmp, bytes);
    TemporaryIsTemporary(name, random);
    StoreNamesAreNotTemporary(name);
    forall n | CheckName(n) && n != name ensures Same(was, Swept(now), n) {
      StoreNamesAreNotTemporary(n);
    }
  }
}
