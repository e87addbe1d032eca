/**
 * Whole receives: `Inbox::begin`, any number of writes, and a commit or a drop. What a kill leaves at any
 * point, what an ended receive leaves, what the next `Inbox::open` makes of it, and which name is taken.
 */
module InboxRuns {
  import opened Limits
  import opened Options
  import opened Sets
  import opened Strings
  import opened FileSystem
  import opened Octets
  import opened Numbering
  import opened Inbox
  import Hex

  /** Starts receiving `name`, which the sender declared to be `size` bytes with the given digest. */
  method Begin(disk: Disk, dir: Dir, name: Str, size: nat, expected: Option<Digest>, sha: seq<Byte> -> Digest)
    returns (r: Option<Incoming>, e: InboxError)
    requires disk.Valid() && dir != Target && disk.Unused()
    modifies disk
    ensures disk.Valid() && OnlyParts(disk.ours, dir) && !disk.unseen
    ensures size > MAX_FILE_BYTES ==> r == None && e == TooLarge && disk.Unused()
    ensures e == TooLarge || e == Io
    ensures r == None ==> disk.world != Hostile ==> disk.ours.held.Keys == disk.left.Keys
    ensures r.Some? ==>
              var f := r.value;
              && fresh(f) && f.disk == disk && f.name == name && f.declared == size && f.expected == expected && f.sha == sha
              && f.Valid() && f.Staged() && f.hashed == [] && f.copied == None && !f.failed && !f.done && f.staging.dir == dir
              && disk.left == map[]
    ensures Idle(disk.world, disk.moves, 0)
    ensures disk.Scripted() && size <= MAX_FILE_BYTES && Key(dir, PartName(disk.plan.random)) !in disk.start.entries ==>
              var k := Key(dir, PartName(disk.plan.random));
              if FstatOfNew in disk.plan.bad then r == None && k in disk.left else r.Some? && r.value.staging == k
  {
    r, e := None, Io;
    if size > MAX_FILE_BYTES {
      return None, TooLarge;
    }
    var dirsOk := disk.Lucky(AnyOther);
    if !dirsOk {
      return;
    }
    ghost var o := disk.ours;
    var created, k, ino := CreatePart(disk, dir, dir, false);
    if created != Done {
      return;
    }
    var got := disk.Size(ino, FstatOfNew);
    if got == None {
      // Nothing guards the new file yet: it stays.
      disk.Leave(k, FstatFailed);
      return;
    }
    var f := new Incoming(disk, k, ino, name, size, expected, sha);
    assert disk.ours.held.Keys == {k} + {} + disk.left.Keys;
    r := Some(f);
  }

  /** The chunks, one after the other. */
  function Flatten(chunks: seq<seq<Byte>>): seq<Byte> {
    if chunks == [] then [] else Flatten(chunks[..|chunks| - 1]) + chunks[|chunks| - 1]
  }

  /** The payload is all there, and is what the sender said it would be. */
  predicate AsDeclared(payload: seq<Byte>, size: nat, expected: Option<Digest>, sha: seq<Byte> -> Digest) {
    |payload| == size && (expected.Some? ==> sha(payload) == expected.value)
  }

  lemma {:induction false} FlattenGrows(chunks: seq<seq<Byte>>, i: nat)
    requires i <= |chunks|
    ensures |Flatten(chunks[..i])| <= |Flatten(chunks)|
  {
    if i < |chunks| {
      FlattenGrows(chunks[..|chunks| - 1], i);
      assert chunks[..|chunks| - 1][..i] == chunks[..i];
    } else {
      assert chunks[..i] == chunks;
    }
  }

  lemma {:induction false} FlattenStep(chunks: seq<seq<Byte>>, i: nat)
    requires i < |chunks|
    ensures Flatten(chunks[..i + 1]) == Flatten(chunks[..i]) + chunks[i]
    ensures |Flatten(chunks[..i])| + |chunks[i]| <= |Flatten(chunks)|
  {
    assert chunks[..i + 1][..i] == chunks[..i];
    FlattenGrows(chunks, i + 1);
  }

  /** Writes chunk after chunk; the writer may go on after an error or not, and may stop at any point. */
  method WriteChunks(file: Incoming, chunks: seq<seq<Byte>>) returns (all: bool)
    requires file.Valid() && file.Staged() && OnlyParts(file.disk.ours, file.staging.dir) && file.copied == None
    requires file.hashed == [] && !file.failed && Idle(file.disk.world, file.disk.moves, 0)
    modifies file`written, file`hashed, file`failed, file.disk`fs, file.disk`ours, file.disk`moves
    ensures file.Valid() && file.Staged() && OnlyParts(file.disk.ours, file.staging.dir)
    ensures all && !file.failed ==> file.hashed == Flatten(chunks)
    ensures Idle(file.disk.world, file.disk.moves, 0)
    ensures file.disk.Scripted() ==> all && (|Flatten(chunks)| <= file.declared ==> !file.failed)
  {
    var i := 0;
    while i < |chunks|
      invariant 0 <= i <= |chunks|
      invariant file.Valid() && file.Staged() && OnlyParts(file.disk.ours, file.staging.dir)
      invariant !file.failed ==> file.hashed == Flatten(chunks[..i])
      invariant Idle(file.disk.world, file.disk.moves, 0)
      invariant file.disk.Scripted() && |Flatten(chunks)| <= file.declared ==> !file.failed
    {
      var goOn := file.disk.Lucky(AnyOther);
      if !goOn {
        return false;
      }
      ghost var mid := file.disk.moves;
      FlattenStep(chunks, i);
      var err := file.Write(chunks[i]);
      Onward(file.disk.world, 0, mid, file.disk.moves, []);
      i := i + 1;
    }
    assert chunks[..i] == chunks;
    return true;
  }

  /**
   * Of the first `n` names for `name`, all but those skipped were taken when the receive began; and for a name to be
   * skipped, there must have been a staging file whose random name the copy's could be.
   */
  ghost predicate TakenOrSkipped(disk: Disk, dir: Dir, name: Str, n: nat, skipped: set<nat>) {
    && (forall j :: j in skipped ==> 0 <= j < n)
    && (disk.world == Quiet && skipped != {} ==> dir == Partial || SomePart(disk.start))
    && (disk.world == Quiet ==>
          forall j :: 0 <= j < n && j !in skipped ==> Key(Target, Numbered(name, j)) in disk.start.entries)
  }

  /** The name drawn for the copy is that of the staging file, or of one that was there. */
  predicate Collides(start: FS, dir: Dir, random: seq<Byte>, again: seq<Byte>) {
    var copy := Key(Partial, PartName(again));
    copy == Key(dir, PartName(random)) || copy in start.entries
  }

  /** The first `n` names for `name` were taken when the receive began. */
  ghost predicate AllTaken(start: FS, name: Str, n: nat) {
    forall j :: 0 <= j < n ==> Key(Target, Numbered(name, j)) in start.entries
  }

  /** The error for `got` bytes that are not what was declared, when nothing else goes wrong. */
  function Refusal(got: nat, size: nat): InboxError {
    if got > size then Io else if got < size then Truncated(got, size) else DigestMismatch
  }

  /** What a script makes of a whole receive of `got` bytes. */
  ghost predicate Scripted(disk: Disk, dir: Dir, name: Str, size: nat, got: nat, asDeclared: bool, r: Committed, n: nat, skipped: set<nat>)
    reads disk
  {
    disk.Scripted() && size <= MAX_FILE_BYTES && Key(dir, PartName(disk.plan.random)) !in disk.start.entries ==>
      var part, bad := PartName(disk.plan.random), disk.plan.bad;
      (skipped != {} ==> !disk.plan.links && Collides(disk.start, dir, disk.plan.random, disk.plan.again)) &&
      if FstatOfNew in bad then r.Err? && Key(dir, part) in disk.left
      else if !asDeclared then r == Err(Refusal(got, size)) && (AnyUnlink in bad ==> Key(dir, part) in disk.left)
      else if disk.plan.links then
        if AllTaken(disk.start, name, MAX_NAME_ATTEMPTS) then r == Err(NoFreeName)
        else if StatOfPlaced in bad then
          r == Err(Io) && disk.unseen && if AnyUnlink in bad then disk.LeftInTarget() else disk.left == map[]
        else r.Ok? && (AnyUnlink in bad ==> Key(dir, part) in disk.left)
      else if Collides(disk.start, dir, disk.plan.random, disk.plan.again) then
        r == Err(NoFreeName) && forall j :: 0 <= j < MAX_NAME_ATTEMPTS ==> j in skipped
      else
        {SyncOfCopy, StatOfCopy} <= bad ==> r.Err? && Key(Partial, PartName(disk.plan.again)) in disk.left
  }

  /** What becomes of a whole receive by a script by which nothing fails and no copy's name is taken. */
  ghost predicate EndsWell(disk: Disk, dir: Dir, name: Str, size: nat, asDeclared: bool, r: Committed, n: nat)
    reads disk
  {
    && disk.Scripted() && disk.plan.bad == {} && size <= MAX_FILE_BYTES && Key(dir, PartName(disk.plan.random)) !in disk.start.entries
    && (disk.plan.links || !Collides(disk.start, dir, disk.plan.random, disk.plan.again)) ==>
      && disk.left == map[]
      && (asDeclared ==> if AllTaken(disk.start, name, MAX_NAME_ATTEMPTS) then r == Err(NoFreeName)
                         else r.Ok? && n < MAX_NAME_ATTEMPTS && AllTaken(disk.start, name, n))
  }

  /** How a receive into `file` ends. */
  ghost predicate Ended(file: Incoming, payload: seq<Byte>, r: Committed, n: nat, skipped: set<nat>)
    reads file.disk
  {
    var disk := file.disk;
    && PartsAndNames(disk.ours, file.staging.dir) && Safe(disk.world, disk.moves, 0, payload)
    && (Idle(disk.world, disk.moves, 0) <==> disk.world == Hostile || !(r.Ok? || disk.unseen))
    && (r.Ok? || disk.unseen ==> AsDeclared(payload, file.declared, file.expected, file.sha))
    && (r.Err? && disk.world != Hostile ==> disk.ours.held.Keys == disk.left.Keys)
    && (r.Ok? ==> r.saved == Saved(Numbered(file.name, n), file.declared))
    && (r.Ok? && disk.world != Hostile ==>
          var o, t := disk.ours, Key(Target, r.saved.name);
          && t in o.held && o.held[t] in o.data && o.data[o.held[t]] == payload
          && o.held.Keys == {t} + disk.left.Keys && t !in disk.left)
    && n <= MAX_NAME_ATTEMPTS && TakenOrSkipped(disk, file.staging.dir, file.name, n, skipped)
    && (r.Ok? && disk.world == Quiet ==> Key(Target, r.saved.name) !in disk.start.entries)
    && (r == Err(NoFreeName) ==> n == MAX_NAME_ATTEMPTS)
  }

  /** What the script of the disk makes of a commit of `got` bytes in `file`, once what was staged is dropped. */
  ghost predicate FileScripted(file: Incoming, got: nat, asDeclared: bool, r: Committed, n: nat, skipped: set<nat>)
    reads file.disk
  {
    var disk := file.disk;
    disk.Scripted() ==>
      (skipped != {} ==> !disk.plan.links && file.Doomed()) &&
      if !asDeclared then r == Err(Refusal(got, file.declared)) && (AnyUnlink in disk.plan.bad ==> file.staging in disk.left)
      else if disk.plan.links then
        if n == MAX_NAME_ATTEMPTS then r == Err(NoFreeName)
        else if !file.Free(Numbered(file.name, n)) then false
        else if StatOfPlaced in disk.plan.bad then
          r == Err(Io) && disk.unseen && if AnyUnlink in disk.plan.bad then disk.LeftInTarget() else disk.left == map[]
        else r.Ok? && (AnyUnlink in disk.plan.bad ==> file.staging in disk.left)
      else if file.Doomed() then r == Err(NoFreeName) && file.AllSkipped(MAX_NAME_ATTEMPTS, skipped)
      else {SyncOfCopy, StatOfCopy} <= disk.plan.bad ==> r.Err? && file.ScriptedCopy() in disk.left
  }

  ghost predicate FileEndsWell(file: Incoming, asDeclared: bool, r: Committed, n: nat)
    reads file.disk
  {
    file.Smooth() ==>
      file.disk.left == map[] && (asDeclared ==> if n == MAX_NAME_ATTEMPTS then r == Err(NoFreeName) else r.Ok?)
  }

  /** Commits what was written, which is the payload if nothing failed. */
  method Conclude(file: Incoming, ghost payload: seq<Byte>) returns (r: Committed, ghost n: nat, ghost skipped: set<nat>)
    requires file.Valid() && file.Staged() && OnlyParts(file.disk.ours, file.staging.dir) && file.copied == None
    requires (!file.failed ==> file.hashed == payload) && !file.done && Idle(file.disk.world, file.disk.moves, 0)
    requires file.disk.left == map[] && !file.disk.unseen
    modifies file, file.disk
    ensures file.disk.Valid() && Ended(file, payload, r, n, skipped)
    ensures file.hashed == old(file.hashed) && file.failed == old(file.failed)
    ensures file.written == old(file.written) && file.Foretold(r, n, skipped) && file.EndsWell(r, n)
    ensures file.disk.Scripted() && r.Err? && AnyUnlink in file.disk.plan.bad ==> file.staging in file.disk.left
    ensures file.disk.Scripted() && skipped != {} ==> !file.disk.plan.links && file.Doomed()
  {
    ghost var disk := file.disk;
    ghost var mid := disk.moves;
    r, n, skipped := file.Commit();
    Onward(disk.world, 0, mid, disk.moves, payload);
    Onward(disk.world, 0, mid, mid, payload);
    Onward(disk.world, |mid|, mid, disk.moves, payload);
    Onward(disk.world, 0, disk.moves, disk.moves, payload);
    assert file.TakenBefore(n, skipped);
  }

  lemma {:induction false} AsForetold(file: Incoming, got: nat, asDeclared: bool, r: Committed, n: nat, skipped: set<nat>)
    requires file.Foretold(r, n, skipped)
    requires file.disk.Scripted() && asDeclared ==> !file.failed && file.Whole()
    requires file.disk.Scripted() && !asDeclared ==> (file.failed <==> got > file.declared) && (!file.failed ==> file.written == got && !file.Whole())
    requires file.disk.Scripted() && r.Err? && AnyUnlink in file.disk.plan.bad ==> file.staging in file.disk.left
    requires file.disk.Scripted() && skipped != {} ==> !file.disk.plan.links && file.Doomed()
    ensures FileScripted(file, got, asDeclared, r, n, skipped)
  {
  }

  /** The rest of a receive, once it has begun. */
  method Finish(file: Incoming, chunks: seq<seq<Byte>>) returns (r: Committed, ghost n: nat, ghost skipped: set<nat>)
    requires file.Valid() && file.Staged() && OnlyParts(file.disk.ours, file.staging.dir) && file.copied == None
    requires file.hashed == [] && !file.failed && !file.done && Idle(file.disk.world, file.disk.moves, 0)
    requires file.disk.left == map[] && !file.disk.unseen
    modifies file, file.disk
    ensures file.disk.Valid() && Ended(file, Flatten(chunks), r, n, skipped)
    ensures FileScripted(file, |Flatten(chunks)|, AsDeclared(Flatten(chunks), file.declared, file.expected, file.sha), r, n, skipped)
    ensures FileEndsWell(file, AsDeclared(Flatten(chunks), file.declared, file.expected, file.sha), r, n)
  {
    ghost var disk, payload := file.disk, Flatten(chunks);
    var all := WriteChunks(file, chunks);
    var goOn := file.disk.Lucky(AnyOther);
    ghost var mid := disk.moves;
    if !goOn || !all {
      file.DropUnplaced();
      Onward(disk.world, 0, mid, disk.moves, payload);
      return Err(Cancelled), 0, {};
    }
    r, n, skipped := Conclude(file, payload);
    AsForetold(file, |payload|, AsDeclared(payload, file.declared, file.expected, file.sha), r, n, skipped);
  }

  /** What holds of a file staged where the script says holds of the receive. */
  lemma {:induction false} OfTheWhole(file: Incoming, dir: Dir, got: nat, asDeclared: bool, r: Committed, n: nat, skipped: set<nat>)
    requires FileScripted(file, got, asDeclared, r, n, skipped) && FileEndsWell(file, asDeclared, r, n)
    requires TakenOrSkipped(file.disk, dir, file.name, n, skipped) && n <= MAX_NAME_ATTEMPTS
    requires file.disk.world == Quiet && r.Ok? ==> r.saved.name == Numbered(file.name, n) && file.Free(r.saved.name)
    requires file.disk.Scripted() && Key(dir, PartName(file.disk.plan.random)) !in file.disk.start.entries ==>
               FstatOfNew !in file.disk.plan.bad && file.staging == Key(dir, PartName(file.disk.plan.random))
    ensures Scripted(file.disk, dir, file.name, file.declared, got, asDeclared, r, n, skipped)
    ensures EndsWell(file.disk, dir, file.name, file.declared, asDeclared, r, n)
  {
  }

  /**
   * A whole receive. At every kill point of every such run, all that was in the target directory is still
   * there as it was, and anything new in it is the whole concatenation of the chunks, of the declared size
   * and digest. When it ends, all that is left of it, beside the file if it was placed, is what could not be
   * cleaned up; and nothing was ever seen under a real name unless the file was placed, or was taken back
   * because it could not be looked at.
   */
  method Receive(disk: Disk, dir: Dir, name: Str, size: nat, expected: Option<Digest>, sha: seq<Byte> -> Digest, chunks: seq<seq<Byte>>)
    returns (r: Committed, ghost n: nat, ghost skipped: set<nat>)
    requires disk.Valid() && dir != Target && disk.Unused()
    modifies disk
    ensures disk.Valid() && PartsAndNames(disk.ours, dir)
    ensures Safe(disk.world, disk.moves, 0, Flatten(chunks))
    ensures Idle(disk.world, disk.moves, 0) <==> disk.world == Hostile || !(r.Ok? || disk.unseen)
    ensures r.Ok? || disk.unseen ==> AsDeclared(Flatten(chunks), size, expected, sha)
    ensures r.Err? && disk.world != Hostile ==> disk.ours.held.Keys == disk.left.Keys
    ensures r.Ok? ==> r.saved == Saved(Numbered(name, n), size)
    ensures r.Ok? && disk.world != Hostile ==>
              var o, t := disk.ours, Key(Target, r.saved.name);
              && t in o.held && o.held[t] in o.data && o.data[o.held[t]] == Flatten(chunks)
              && o.held.Keys == {t} + disk.left.Keys && t !in disk.left
    ensures n <= MAX_NAME_ATTEMPTS && TakenOrSkipped(disk, dir, name, n, skipped)
    ensures r.Ok? && disk.world == Quiet ==> Key(Target, r.saved.name) !in disk.start.entries
    ensures r == Err(NoFreeName) ==> n == MAX_NAME_ATTEMPTS
    ensures Scripted(disk, dir, name, size, |Flatten(chunks)|, AsDeclared(Flatten(chunks), size, expected, sha), r, n, skipped)
    ensures EndsWell(disk, dir, name, size, AsDeclared(Flatten(chunks), size, expected, sha), r, n)
  {
    n, skipped := 0, {};
    var f, e := Begin(disk, dir, name, size, expected, sha);
    if f == None {
      Onward(disk.world, 0, disk.moves, disk.moves, Flatten(chunks));
      return Err(e), n, skipped;
    }
    r, n, skipped := Finish(f.value, chunks);
    OfTheWhole(f.value, dir, |Flatten(chunks)|, AsDeclared(Flatten(chunks), size, expected, sha), r, n, skipped);
  }

  // ---------------------------------------------------------------- with nobody else about

  /** Crash safety, from where the receive began to any kill point of it. */
  lemma {:induction false} KilledReceive(disk: Disk, payload: seq<Byte>, i: nat)
    requires disk.Valid() && disk.world == Quiet && Safe(disk.world, disk.moves, 0, payload) && i < |disk.moves|
    ensures UntouchedOrWhole(disk.start, disk.moves[i].after, payload)
  {
    disk.OpenBooks();
    KillPoint(disk.world, disk.start, disk.moves, disk.fs, payload, i);
  }

  /** The disk is as it was found, but for `k`s in `more`. */
  ghost predicate AsFoundBut(start: FS, f: FS, more: set<Key>) {
    && f.entries.Keys == start.entries.Keys + more && start.entries.Keys !! more
    && (forall k :: k in start.entries && k in f.entries ==> f.entries[k] == start.entries[k])
    && (forall i :: i in start.nodes ==> i in f.nodes && f.nodes[i] == start.nodes[i])
  }

  /** Our entries, and nothing but them, are new. */
  lemma {:induction false} OnlyOursIsNew(disk: Disk)
    requires disk.Valid() && disk.world == Quiet
    ensures AsFoundBut(disk.start, disk.fs, disk.ours.held.Keys)
  {
    disk.OpenBooks();
    OursBesideOthers(disk.start, disk.fs, disk.ours);
  }

  lemma {:induction false} AsFoundIff(start: FS, f: FS, more: set<Key>)
    requires AsFoundBut(start, f, more)
    ensures f.entries == start.entries <==> more == {}
  {
    if more != {} {
      var k :| k in more;
      assert k in f.entries && k !in start.entries;
    }
  }

  /**
   * A receive that ended without a file leaves every directory as it was found, but for the entries whose
   * clean-up failed: it leaves no trace exactly when no clean-up failed.
   */
  lemma {:induction false} FailedReceiveLeaves(disk: Disk)
    requires disk.Valid() && disk.world == Quiet && disk.ours.held.Keys == disk.left.Keys
    ensures AsFoundBut(disk.start, disk.fs, disk.left.Keys)
    ensures disk.fs.entries == disk.start.entries <==> disk.left == map[]
  {
    OnlyOursIsNew(disk);
    AsFoundIff(disk.start, disk.fs, disk.left.Keys);
  }

  /** A receive that ended with a file leaves, beside that, the file. */
  lemma {:induction false} DoneReceiveLeaves(disk: Disk, t: Key, payload: seq<Byte>)
    requires disk.Valid() && disk.world == Quiet && disk.ours.held.Keys == {t} + disk.left.Keys && t !in disk.left
    requires disk.ours.held[t] in disk.ours.data && disk.ours.data[disk.ours.held[t]] == payload
    ensures AsFoundBut(disk.start, disk.fs, {t} + disk.left.Keys)
    ensures disk.fs.entries.Keys == disk.start.entries.Keys + {t} <==> disk.left == map[]
    ensures disk.fs.entries[t] in disk.fs.nodes && disk.fs.nodes[disk.fs.entries[t]] == Node(Regular, payload)
  {
    OnlyOursIsNew(disk);
    disk.OpenBooks();
    if disk.left != map[] {
      var k :| k in disk.left;
      assert k in disk.fs.entries && k !in disk.start.entries && k != t;
    }
  }

  // ---------------------------------------------------------------- when nothing goes wrong

  /**
   * Whatever is on the disk to begin with, and with links or without: when no call fails and no random name is
   * taken, a payload that is as declared is saved, whole, under the first of its names that is free, and nothing
   * else changes; there is no free name if and only if all thousand are taken, and then nothing changes.
   */
  method GoesWell(start: FS, links: bool, random: seq<Byte>, again: seq<Byte>, dir: Dir, name: Str, size: nat,
                  expected: Option<Digest>, sha: seq<Byte> -> Digest, chunks: seq<seq<Byte>>)
    returns (disk: Disk, r: Committed, ghost n: nat)
    requires WellFormed(start) && |random| == 16 && |again| == 16 && dir != Target && Key(dir, PartName(random)) !in start.entries
    requires links || !Collides(start, dir, random, again)
    requires size <= MAX_FILE_BYTES && AsDeclared(Flatten(chunks), size, expected, sha)
    ensures fresh(disk) && disk.Valid() && disk.start == start
    ensures AllTaken(start, name, MAX_NAME_ATTEMPTS) ==> r == Err(NoFreeName) && disk.fs.entries == start.entries
    ensures !AllTaken(start, name, MAX_NAME_ATTEMPTS) ==>
              var t := Key(Target, Numbered(name, n));
              && n < MAX_NAME_ATTEMPTS && AllTaken(start, name, n) && t !in start.entries
              && r == Ok(Saved(Numbered(name, n), size)) && AsFoundBut(start, disk.fs, {t})
              && disk.fs.entries[t] in disk.fs.nodes && disk.fs.nodes[disk.fs.entries[t]] == Node(Regular, Flatten(chunks))
  {
    disk := new Disk(Quiet, Script({}, links, random, again), start);
    ghost var skipped;
    r, n, skipped := Receive(disk, dir, name, size, expected, sha, chunks);
    if r.Ok? {
      SavedAndNothingElse(disk, Key(Target, r.saved.name), Flatten(chunks));
    } else {
      FailedReceiveLeaves(disk);
    }
  }

  lemma {:induction false} SavedAndNothingElse(disk: Disk, t: Key, payload: seq<Byte>)
    requires disk.Valid() && disk.world == Quiet && disk.ours.held.Keys == {t} + disk.left.Keys && disk.left == map[]
    requires disk.ours.held[t] in disk.ours.data && disk.ours.data[disk.ours.held[t]] == payload
    ensures AsFoundBut(disk.start, disk.fs, {t})
    ensures disk.fs.entries[t] in disk.fs.nodes && disk.fs.nodes[disk.fs.entries[t]] == Node(Regular, payload)
  {
    DoneReceiveLeaves(disk, t, payload);
    assert {t} + disk.left.Keys == {t};
  }

  /** A payload that is not as declared is refused, for the right reason, and nothing changes. */
  method IsRefused(start: FS, links: bool, random: seq<Byte>, again: seq<Byte>, dir: Dir, name: Str, size: nat,
                   expected: Option<Digest>, sha: seq<Byte> -> Digest, chunks: seq<seq<Byte>>)
    returns (disk: Disk, r: Committed)
    requires WellFormed(start) && |random| == 16 && |again| == 16 && dir != Target && Key(dir, PartName(random)) !in start.entries
    requires links || !Collides(start, dir, random, again)
    requires size <= MAX_FILE_BYTES && !AsDeclared(Flatten(chunks), size, expected, sha)
    ensures fresh(disk) && disk.Valid() && disk.start == start
    ensures r == Err(Refusal(|Flatten(chunks)|, size)) && disk.fs.entries == start.entries
  {
    disk := new Disk(Quiet, Script({}, links, random, again), start);
    ghost var n, skipped;
    r, n, skipped := Receive(disk, dir, name, size, expected, sha, chunks);
    FailedReceiveLeaves(disk);
  }

  // ---------------------------------------------------------------- what can go wrong, going wrong

  const EMPTY: FS := FS(map[], map[], 0)

  lemma {:induction false} NoneTaken(name: Str)
    ensures !AllTaken(EMPTY, name, MAX_NAME_ATTEMPTS)
  {
    assert Key(Target, Numbered(name, 0)) !in EMPTY.entries;
  }

  /** The fstat of the new staging file fails: nothing guards it yet, and it stays. */
  method FstatFailureLeavesTheFile(random: seq<Byte>, dir: Dir, name: Str, size: nat, expected: Option<Digest>,
                                   sha: seq<Byte> -> Digest, chunks: seq<seq<Byte>>)
    returns (disk: Disk, r: Committed)
    requires |random| == 16 && dir != Target && size <= MAX_FILE_BYTES
    ensures fresh(disk) && disk.Valid() && disk.start == EMPTY && r.Err? && Key(dir, PartName(random)) in disk.fs.entries
  {
    disk := new Disk(Quiet, Script({FstatOfNew}, true, random, random), EMPTY);
    ghost var n, skipped;
    r, n, skipped := Receive(disk, dir, name, size, expected, sha, chunks);
    FailedReceiveLeaves(disk);
  }

  /** The unlinks fail: the staging file stays, whether the file was placed or not. */
  method UnlinkFailureLeavesTheStagingFile(random: seq<Byte>, dir: Dir, name: Str, size: nat, expected: Option<Digest>,
                                           sha: seq<Byte> -> Digest, chunks: seq<seq<Byte>>)
    returns (disk: Disk, r: Committed)
    requires |random| == 16 && dir != Target && size <= MAX_FILE_BYTES
    ensures fresh(disk) && disk.Valid() && disk.start == EMPTY && Key(dir, PartName(random)) in disk.fs.entries
    ensures r.Ok? <==> AsDeclared(Flatten(chunks), size, expected, sha)
  {
    NoneTaken(name);
    disk := new Disk(Quiet, Script({AnyUnlink}, true, random, random), EMPTY);
    ghost var n, skipped;
    r, n, skipped := Receive(disk, dir, name, size, expected, sha, chunks);
    if r.Ok? {
      DoneReceiveLeaves(disk, Key(Target, r.saved.name), Flatten(chunks));
    } else {
      FailedReceiveLeaves(disk);
    }
  }

  /** The copy cannot be made durable, and its guard cannot look at it: the copy stays. */
  method StatFailureLeavesTheCopy(random: seq<Byte>, name: Str, size: nat, expected: Option<Digest>,
                                  sha: seq<Byte> -> Digest, chunks: seq<seq<Byte>>)
    returns (disk: Disk, r: Committed)
    requires |random| == 16 && size <= MAX_FILE_BYTES && AsDeclared(Flatten(chunks), size, expected, sha)
    ensures fresh(disk) && disk.Valid() && disk.start == EMPTY && r.Err? && Key(Partial, PartName(random)) in disk.fs.entries
  {
    disk := new Disk(Quiet, Script({SyncOfCopy, StatOfCopy}, false, random, random), EMPTY);
    ghost var n, skipped;
    r, n, skipped := Receive(disk, Elsewhere, name, size, expected, sha, chunks);
    FailedReceiveLeaves(disk);
  }

  /** At some point of the run there was a whole file under a new real name. */
  ghost predicate Shown(moves: seq<Move>, payload: seq<Byte>) {
    exists i, k :: 0 <= i < |moves| && ShownBy(moves[i], k, payload)
  }

  ghost predicate ShownBy(m: Move, k: Key, payload: seq<Byte>) {
    && k.dir == Target && k in m.after.entries && k !in m.before.entries
    && m.after.entries[k] in m.after.nodes && m.after.nodes[m.after.entries[k]] == Node(Regular, payload)
  }

  lemma {:induction false} NotIdleMeansShown(w: World, moves: seq<Move>, payload: seq<Byte>)
    requires w != Hostile && Safe(w, moves, 0, payload) && !Idle(w, moves, 0)
    ensures Shown(moves, payload)
  {
    var i :| 0 <= i < |moves| && !(Mannerly(moves[i]) && IdleMove(moves[i]));
    assert SafeMove(moves[i], payload);
    var k :| k in moves[i].after.entries && k.dir == Target && k !in moves[i].before.entries;
    assert ShownBy(moves[i], k, payload);
  }

  lemma {:induction false} ShownAndTakenBack(disk: Disk, payload: seq<Byte>)
    requires disk.Valid() && disk.world == Quiet && disk.ours.held.Keys == disk.left.Keys && disk.left == map[]
    requires Safe(disk.world, disk.moves, 0, payload) && !Idle(disk.world, disk.moves, 0)
    ensures Shown(disk.moves, payload) && disk.fs.entries == disk.start.entries
  {
    NotIdleMeansShown(disk.world, disk.moves, payload);
    FailedReceiveLeaves(disk);
  }

  /** A file just placed cannot be looked at: a whole file, already under its real name, is taken back. */
  method StatFailureTakesTheFileBack(random: seq<Byte>, dir: Dir, name: Str, size: nat, expected: Option<Digest>,
                                     sha: seq<Byte> -> Digest, chunks: seq<seq<Byte>>)
    returns (disk: Disk, r: Committed)
    requires |random| == 16 && dir != Target && size <= MAX_FILE_BYTES && AsDeclared(Flatten(chunks), size, expected, sha)
    ensures fresh(disk) && disk.Valid() && disk.start == EMPTY && r == Err(Io)
    ensures Shown(disk.moves, Flatten(chunks)) && disk.fs.entries == disk.start.entries
  {
    NoneTaken(name);
    disk := new Disk(Quiet, Script({StatOfPlaced}, true, random, random), EMPTY);
    ghost var n, skipped;
    r, n, skipped := Receive(disk, dir, name, size, expected, sha, chunks);
    ShownAndTakenBack(disk, Flatten(chunks));
  }

  /** And if it cannot be taken back either, it stays, although the receive failed. */
  method FailedReceiveLeavesItsFile(random: seq<Byte>, dir: Dir, name: Str, size: nat, expected: Option<Digest>,
                                    sha: seq<Byte> -> Digest, chunks: seq<seq<Byte>>)
    returns (disk: Disk, r: Committed)
    requires |random| == 16 && dir != Target && size <= MAX_FILE_BYTES && AsDeclared(Flatten(chunks), size, expected, sha)
    ensures fresh(disk) && disk.Valid() && disk.start == EMPTY && r == Err(Io)
    ensures exists k :: k in disk.fs.entries && k.dir == Target
  {
    NoneTaken(name);
    disk := new Disk(Quiet, Script({StatOfPlaced, AnyUnlink}, true, random, random), EMPTY);
    ghost var n, skipped;
    r, n, skipped := Receive(disk, dir, name, size, expected, sha, chunks);
    FailedReceiveLeaves(disk);
  }

  /**
   * Whatever is on the disk to begin with, and whatever is drawn: where there are no links, a receive skips names if
   * and only if the copy's random name is one that is taken; and then it skips all thousand, the free ones too.
   */
  method SkipsIff(start: FS, random: seq<Byte>, again: seq<Byte>, dir: Dir, name: Str, size: nat, expected: Option<Digest>,
                  sha: seq<Byte> -> Digest, chunks: seq<seq<Byte>>)
    returns (disk: Disk, r: Committed, ghost n: nat, ghost skipped: set<nat>)
    requires WellFormed(start) && |random| == 16 && |again| == 16 && dir != Target && Key(dir, PartName(random)) !in start.entries
    requires size <= MAX_FILE_BYTES && AsDeclared(Flatten(chunks), size, expected, sha)
    ensures fresh(disk) && disk.Valid() && disk.world == Quiet && disk.start == start
    ensures skipped != {} <==> Collides(start, dir, random, again)
    ensures skipped != {} ==> r == Err(NoFreeName) && n == MAX_NAME_ATTEMPTS && forall j :: 0 <= j < n ==> j in skipped
  {
    disk := new Disk(Quiet, Script({}, false, random, again), start);
    r, n, skipped := Receive(disk, dir, name, size, expected, sha, chunks);
    if Collides(start, dir, random, again) {
      assert 0 in skipped;
    }
  }

  /** A draw that collides exists if and only if the file is staged in `.partial`, or that holds a staging file. */
  lemma {:induction false} CollisionIff(start: FS, dir: Dir, random: seq<Byte>)
    requires |random| == 16 && dir != Target
    ensures (exists again :: |again| == 16 && Collides(start, dir, random, again)) <==> dir == Partial || SomePart(start)
  {
    if dir == Partial {
      assert Collides(start, dir, random, random);
    } else if SomePart(start) {
      var k :| k in start.entries && k.dir == Partial && IsPart(k);
      var again: seq<Byte> :| |again| == 16 && k.name == PartName(again);
      assert k == Key(Partial, PartName(again));
      assert Collides(start, dir, random, again);
    }
    if again :| |again| == 16 && Collides(start, dir, random, again) {
      assert dir != Partial ==> IsPart(Key(Partial, PartName(again)));
    }
  }

  // ---------------------------------------------------------------- names

  /** The numbered names tried after the plain one. */
  function Candidates(name: Str, n: nat): set<Key> {
    set j | 1 <= j < n :: Key(Target, Numbered(name, j))
  }

  lemma {:induction false} LastIsNew(name: Str, n: nat)
    ensures Key(Target, Numbered(name, n)) !in Candidates(name, n)
  {
    forall j | 1 <= j < n ensures Numbered(name, j) != Numbered(name, n) {
      if Numbered(name, j) == Numbered(name, n) {
        NumberedDistinct(name, j, n);
      }
    }
  }

  lemma {:induction false} CandidatesDistinct(name: Str, n: nat)
    requires n >= 1
    ensures |Candidates(name, n)| == n - 1
  {
    if n == 1 {
      assert Candidates(name, n) == {};
    } else {
      CandidatesDistinct(name, n - 1);
      LastIsNew(name, n - 1);
      assert Candidates(name, n) == Candidates(name, n - 1) + {Key(Target, Numbered(name, n - 1))};
    }
  }

  /**
   * The name given is the first free one, and "no free file name" is true, in every run, if no draw can collide or all
   * thousand names are taken. Otherwise, where there are no links, there is a run in which it is not: `SkipsIff`.
   */
  lemma {:induction false} FirstFree(disk: Disk, dir: Dir, name: Str, n: nat, skipped: set<nat>)
    requires disk.world == Quiet && TakenOrSkipped(disk, dir, name, n, skipped) && n <= MAX_NAME_ATTEMPTS
    requires (dir != Partial && !SomePart(disk.start)) || AllTaken(disk.start, name, MAX_NAME_ATTEMPTS)
    ensures AllTaken(disk.start, name, n)
  {
  }

  /** "No free file name" is only said when 999 different names were taken. */
  lemma {:induction false} NoFreeNameMeans(start: FS, name: Str)
    requires AllTaken(start, name, MAX_NAME_ATTEMPTS)
    ensures Candidates(name, MAX_NAME_ATTEMPTS) <= start.entries.Keys
    ensures |Candidates(name, MAX_NAME_ATTEMPTS)| == MAX_NAME_ATTEMPTS - 1
  {
    CandidatesDistinct(name, MAX_NAME_ATTEMPTS);
  }

  // ---------------------------------------------------------------- the sweep when an inbox opens

  const MAX_STALE_SWEEP: nat := 10_000

  predicate EndsWith(s: Str, t: Str) {
    t.Nil? || (s.Snoc? && s.last == t.last && EndsWith(s.init, t.init))
  }

  lemma {:induction false} CatEndsWith(a: Str, t: Str)
    ensures EndsWith(Cat(a, t), t)
  {
    if t.Snoc? {
      CatEndsWith(a, t.init);
    }
  }

  /** A regular `*.part` file in `dir`. */
  predicate Stale(f: FS, dir: Dir, k: Key) {
    && k in f.entries && k.dir == dir && EndsWith(k.name, Of(PART_SUFFIX))
    && f.entries[k] in f.nodes && f.nodes[f.entries[k]].kind == Regular
  }

  function Swept(f: FS, dir: Dir): FS {
    f.(entries := map k | k in f.entries && !Stale(f, dir, k) :: f.entries[k])
  }

  const DOT: Str := Snoc(Nil, '.')
  const DOTS: Str := Snoc(DOT, '.')

  function NamesIn(f: FS, dir: Dir): set<Str> {
    set k | k in f.entries && k.dir == dir :: k.name
  }

  /** A directory's entries, each once, in any order, with `.` and `..` among them. */
  ghost predicate Lists(f: FS, dir: Dir, listing: seq<Str>) {
    && (forall i, j :: 0 <= i < j < |listing| ==> listing[i] != listing[j])
    && (forall n :: n in listing <==> n in NamesIn(f, dir) || n == DOT || n == DOTS)
    && DOT !in NamesIn(f, dir) && DOTS !in NamesIn(f, dir)
  }

  lemma {:induction false} ListingLength(f: FS, dir: Dir, listing: seq<Str>)
    requires Lists(f, dir, listing)
    ensures |listing| == |NamesIn(f, dir)| + 2
  {
    NoRepetitions(listing);
    assert (set n | n in listing) == NamesIn(f, dir) + {DOT, DOTS};
  }

  /** The first `i` of the listing have been looked at: only stale entries are gone, and of those looked at all. */
  ghost predicate SweptSoFar(f: FS, g: FS, dir: Dir, listing: seq<Str>, i: nat) {
    && i <= |listing| && g.nodes == f.nodes && g.next == f.next && g.entries.Keys <= f.entries.Keys
    && (forall k :: k in f.entries && k !in g.entries ==> Stale(f, dir, k))
    && (forall k :: k in g.entries ==> g.entries[k] == f.entries[k])
    && (forall j :: 0 <= j < i ==> Key(dir, listing[j]) !in g.entries || !Stale(f, dir, Key(dir, listing[j])))
  }

  lemma {:induction false} SweptAll(f: FS, g: FS, dir: Dir, listing: seq<Str>)
    requires Lists(f, dir, listing) && SweptSoFar(f, g, dir, listing, |listing|)
    ensures g == Swept(f, dir)
  {
    forall k | k in f.entries ensures k in g.entries <==> !Stale(f, dir, k) {
      if k.dir == dir {
        assert k == Key(dir, k.name) && k.name in NamesIn(f, dir);
        var j :| 0 <= j < |listing| && listing[j] == k.name;
      }
    }
    assert g.entries == Swept(f, dir).entries;
  }

  /** Goes through a directory's entries, up to a cap that `.` and `..` count towards, and unlinks the stale ones. */
  method SweepStale(f: FS, dir: Dir, listing: seq<Str>) returns (g: FS)
    requires WellFormed(f) && Lists(f, dir, listing)
    ensures |NamesIn(f, dir)| + 2 <= MAX_STALE_SWEEP ==> g == Swept(f, dir)
    ensures SweptSoFar(f, g, dir, listing, 0)
  {
    g := f;
    var i := 0;
    while i < |listing| && i < MAX_STALE_SWEEP
      invariant 0 <= i <= |listing| && SweptSoFar(f, g, dir, listing, i)
    {
      var k := Key(dir, listing[i]);
      if EndsWith(k.name, Of(PART_SUFFIX)) && k in g.entries && g.nodes[g.entries[k]].kind == Regular {
        g := Unlinked(g, k);
      }
      i := i + 1;
    }
    ListingLength(f, dir, listing);
    if |listing| <= MAX_STALE_SWEEP {
      SweptAll(f, g, dir, listing);
    }
  }

  /** A directory that one sweep goes through to its end. */
  predicate Fits(f: FS, dir: Dir) {
    |NamesIn(f, dir)| + 2 <= MAX_STALE_SWEEP
  }

  /** What opening makes of a disk: only stale entries of the two directories go, and all of them where they fit a sweep. */
  ghost predicate Reopened(f: FS, dir: Dir, g: FS) {
    && g.nodes == f.nodes && g.entries.Keys <= f.entries.Keys
    && (forall k :: k in f.entries ==> (k in g.entries && g.entries[k] == f.entries[k]) || Stale(f, dir, k) || Stale(f, Partial, k))
    && (Fits(f, dir) ==> forall k :: k in g.entries ==> !Stale(f, dir, k))
    && (Fits(f, Partial) ==> forall k :: k in g.entries ==> !Stale(f, Partial, k))
  }

  /** A sweep of one directory is nothing to another. */
  lemma {:induction false} OtherUnswept(f: FS, g: FS, dir: Dir, listing: seq<Str>, other: Dir, names: seq<Str>)
    requires SweptSoFar(f, g, dir, listing, 0) && other != dir && Lists(f, other, names)
    ensures Lists(g, other, names) && NamesIn(g, other) == NamesIn(f, other)
    ensures forall k :: Stale(g, other, k) <==> Stale(f, other, k)
  {
    assert forall k :: k in f.entries && k.dir == other ==> k in g.entries;
    assert forall n :: n in NamesIn(f, other) <==> Key(other, n) in f.entries;
    assert forall n :: n in NamesIn(g, other) <==> Key(other, n) in g.entries;
    assert NamesIn(g, other) == NamesIn(f, other);
  }

  /** `Inbox::open`: the staging directory is swept, and the target's `.partial` if that is another one. */
  method Reopen(f: FS, dir: Dir, staged: seq<Str>, copies: seq<Str>) returns (g: FS)
    requires WellFormed(f) && Lists(f, dir, staged) && Lists(f, Partial, copies)
    ensures Reopened(f, dir, g)
  {
    g := SweepStale(f, dir, staged);
    if dir != Partial {
      OtherUnswept(f, g, dir, staged, Partial, copies);
      g := SweepStale(g, Partial, copies);
    }
  }

  /** What a receiver has staged is stale to the next one. */
  lemma {:induction false} StagedIsStale(m: Move, k: Key)
    requires InOrder(m) && k in m.ours.keys && IsPart(k) && k in m.after.entries
    ensures Stale(m.after, k.dir, k)
  {
    var random: seq<Byte> :| |random| == 16 && k.name == PartName(random);
    var suffix := Of(PART_SUFFIX);
    CatEndsWith(Hex.Encoded(random), suffix);
    assert k.name == Cat(Hex.Encoded(random), suffix);
    var i := m.ours.held[k];
    assert m.after.entries[k] == i && i in m.after.nodes;
    assert m.after.nodes[i] == Node(Regular, m.ours.data[i]);
  }

  /**
   * After a kill at any point, the next open removes nothing but regular `*.part` files, so that every file under a
   * real name stays; and it removes whatever the receive had staged in a directory that fits a sweep.
   */
  lemma {:induction false} KilledThenReopened(disk: Disk, i: nat, dir: Dir, g: FS)
    requires disk.Valid() && disk.world != Hostile && i < |disk.moves| && PartsAndNames(disk.ours, dir) && dir != Target
    requires Reopened(disk.moves[i].after, dir, g)
    ensures var f := disk.moves[i].after;
      && (Fits(f, dir) && Fits(f, Partial) ==> forall k :: k in g.entries && k in disk.moves[i].ours.keys ==> k.dir == Target)
      && (forall k :: k in f.entries ==> (k in g.entries && g.entries[k] == f.entries[k]) || Stale(f, dir, k) || Stale(f, Partial, k))
      && (forall k :: k in f.entries && k.dir == Target ==> k in g.entries && g.entries[k] == f.entries[k])
      && g.nodes == f.nodes
  {
    disk.BooksAtKill(i);
    var m := disk.moves[i];
    forall k | k in g.entries && k in m.ours.keys && k.dir != Target
      ensures !(Fits(m.after, dir) && Fits(m.after, Partial))
    {
      StagedIsStale(m, k);
    }
  }
}
