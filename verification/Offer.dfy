/** `offer.rs`: an incoming offer, checked before anyone looks at it. */
module Offers {
  import opened Limits
  import opened Options
  import opened Chars
  import opened Strings
  import opened Text
  import opened Messages
  import opened Names
  import opened Octets
  import Hex

  /** One file as the peer described it: its size is any integer. */
  datatype RawFile = RawFile(name: string, size: int, sha256: Option<string>)

  datatype RawOffer = RawOffer(sender: string, model: Option<string>, files: seq<RawFile>, text: Option<string>, pin: Option<string>)

  datatype OfferFile = OfferFile(name: string, size: nat, sha256: Option<seq<Byte>>)

  datatype Offer = Offer(sender: string, model: Option<string>, files: seq<OfferFile>, total: nat, text: Option<string>, pin: Option<string>)

  datatype OfferError =
    | Empty
    | TooManyFiles(n: nat)
    | NegativeSize(i: nat)
    | FileTooLarge(i: nat)
    | OfferTooLarge
    | TextTooLarge
    | BadDigest(i: nat)
    | BadPin

  datatype Result = Ok(offer: Offer) | Err(e: OfferError)

  const UNKNOWN_SENDER: string := "Unknown device"

  // ---------------------------------------------------------------- the rules

  function Sum(files: seq<RawFile>): int {
    if files == [] then 0 else Sum(files[..|files| - 1]) + files[|files| - 1].size
  }

  /** The digest a file declares, trimmed; an empty one is none. */
  function Declared(f: RawFile): Option<Str> {
    if f.sha256.Some? && Trim(Of(f.sha256.value)).Snoc? then Some(Trim(Of(f.sha256.value))) else None
  }

  /** The digest is the text given, without the white space around it; nothing, or white space only, is none. */
  lemma {:induction false} DeclaredMeans(f: RawFile, hex: Str)
    ensures Declared(f) == None <==> f.sha256 == None || AllWhite(Of(f.sha256.value))
    ensures Declared(f) == Some(hex) <==> f.sha256.Some? && Strips(Of(f.sha256.value), hex)
  {
    if f.sha256.Some? {
      TrimMeans(Of(f.sha256.value), hex);
    }
  }

  predicate DigestOk(f: RawFile) {
    Declared(f).Some? ==> Hex.AllHex(Declared(f).value) && Len(Declared(f).value) == 64
  }

  predicate FileOk(f: RawFile) {
    0 <= f.size <= MAX_FILE_BYTES && DigestOk(f)
  }

  predicate PinOk(pin: Option<string>) {
    pin.Some? ==> 1 <= |pin.value| <= MAX_PIN_CHARS && forall i :: 0 <= i < |pin.value| ==> '0' <= pin.value[i] <= '9'
  }

  /** What is left to show of the message. */
  function Shown(cls: Policy, text: Option<string>): Str {
    if text.Some? then Messaged(cls, Of(text.value)) else Nil
  }

  /** The rules an offer must meet, in no particular order. */
  predicate Acceptable(cls: Policy, raw: RawOffer) {
    && |raw.files| <= MAX_FILES_PER_OFFER
    && (forall i :: 0 <= i < |raw.files| ==> FileOk(raw.files[i]))
    && Sum(raw.files) <= MAX_OFFER_BYTES
    && (raw.text.Some? ==> Bytes(Of(raw.text.value)) <= MAX_MESSAGE_BYTES)
    && PinOk(raw.pin)
    && (raw.files != [] || Shown(cls, raw.text).Snoc?)
  }

  // ---------------------------------------------------------------- sums

  lemma {:induction false} SumPrefix(files: seq<RawFile>, k: nat)
    requires k <= |files| && forall i :: 0 <= i < |files| ==> files[i].size >= 0
    ensures 0 <= Sum(files[..k]) <= Sum(files)
  {
    if k < |files| {
      SumPrefix(files[..|files| - 1], k);
      assert files[..|files| - 1][..k] == files[..k];
    } else {
      assert files[..k] == files;
      if k > 0 {
        SumPrefix(files[..k - 1], k - 1);
        assert files[..k - 1][..k - 1] == files[..k - 1];
      }
    }
  }

  lemma {:induction false} SumWithout(files: seq<RawFile>, k: nat)
    requires k < |files|
    ensures Sum(files) == Sum(files[..k] + files[k + 1..]) + files[k].size
  {
    var n := |files| - 1;
    if k == n {
      assert files[..k] + files[k + 1..] == files[..n];
    } else {
      SumWithout(files[..n], k);
      var rest := files[..k] + files[k + 1..];
      assert rest[..|rest| - 1] == files[..n][..k] + files[..n][k + 1..];
      assert rest[|rest| - 1] == files[n];
    }
  }

  lemma {:induction false} WithoutOne(files: seq<RawFile>, k: nat)
    requires k < |files|
    ensures multiset(files[..k] + files[k + 1..]) == multiset(files) - multiset{files[k]}
  {
    assert files == files[..k] + [files[k]] + files[k + 1..];
  }

  lemma {:induction false} SumPermuted(a: seq<RawFile>, b: seq<RawFile>)
    requires multiset(a) == multiset(b)
    ensures Sum(a) == Sum(b) && |a| == |b|
    decreases |a|
  {
    if a == [] {
      assert |multiset(b)| == 0;
    } else {
      var n := |a| - 1;
      assert a[n] in multiset(b);
      var k :| 0 <= k < |b| && b[k] == a[n];
      WithoutOne(a, n);
      WithoutOne(b, k);
      assert a[..n] + a[n + 1..] == a[..n];
      SumWithout(b, k);
      SumPermuted(a[..n], b[..k] + b[k + 1..]);
    }
  }

  /** Acceptance does not depend on the order of the files, although the running total is checked file by file. */
  lemma {:induction false} AcceptanceIgnoresOrder(cls: Policy, a: RawOffer, b: RawOffer)
    requires multiset(a.files) == multiset(b.files) && b == a.(files := b.files)
    ensures Acceptable(cls, a) <==> Acceptable(cls, b)
  {
    SumPermuted(a.files, b.files);
    AllOkPermuted(a.files, b.files);
    AllOkPermuted(b.files, a.files);
  }

  lemma {:induction false} AllOkPermuted(a: seq<RawFile>, b: seq<RawFile>)
    requires multiset(a) == multiset(b)
    ensures (forall i :: 0 <= i < |a| ==> FileOk(a[i])) ==> forall i :: 0 <= i < |b| ==> FileOk(b[i])
  {
    forall i | 0 <= i < |b| ensures exists j :: 0 <= j < |a| && a[j] == b[i] {
      assert b[i] in multiset(a);
    }
  }

  // ---------------------------------------------------------------- what an offer shows

  /** A printable character, or a single space after one. */
  predicate PlainAt(s: string, i: nat)
    requires i < |s|
  {
    Graphic(s[i]) || (s[i] == ' ' && i > 0 && s[i - 1] != ' ')
  }

  lemma {:induction false} PlainTextTidy(cls: Policy, s: string, n: nat)
    requires n <= |s| && forall i :: 0 <= i < n ==> PlainAt(s, i)
    ensures Tidy(cls, Upto(s, n)) && (n > 0 ==> Upto(s, n).last == s[n - 1])
    ensures Len(Upto(s, n)) == n
  {
    if n > 0 {
      PlainTextTidy(cls, s, n - 1);
      var c := s[n - 1];
      assert PlainAt(s, n - 1);
      assert MayFollow(cls, Upto(s, n - 1), c);
    }
  }

  lemma {:induction false} UnknownSenderShown(cls: Policy)
    ensures Displayable(cls, Of(UNKNOWN_SENDER), MAX_ALIAS_CHARS) && Of(UNKNOWN_SENDER).Snoc?
  {
    PlainTextTidy(cls, UNKNOWN_SENDER, |UNKNOWN_SENDER|);
  }

  /** A file of the offer is the file the peer described, under a safe name, with its digest read. */
  ghost predicate Checked(cls: Policy, f: RawFile, g: OfferFile) {
    && Of(g.name) == Sanitized(cls, Of(f.name)) && SafeName(cls, Of(g.name))
    && g.size == f.size
    && g.sha256 == (if Declared(f).Some? then Hex.Decoded32(Declared(f).value) else None)
    && (Declared(f).Some? <==> g.sha256.Some?)
  }

  /** Everything in an accepted offer: the files in their order, their exact sum, and text that is safe to show. */
  ghost predicate Faithful(cls: Policy, raw: RawOffer, o: Offer) {
    && |o.files| == |raw.files| && (forall i :: 0 <= i < |o.files| ==> Checked(cls, raw.files[i], o.files[i]))
    && o.total == Sum(raw.files) && o.pin == raw.pin
    && Of(o.sender) == (var shown := Displayed(cls, Of(raw.sender), MAX_ALIAS_CHARS); if shown.Nil? then Of(UNKNOWN_SENDER) else shown)
    && Displayable(cls, Of(o.sender), MAX_ALIAS_CHARS) && o.sender != []
    && (o.model.Some? ==> raw.model.Some? && Of(o.model.value) == Displayed(cls, Of(raw.model.value), MAX_MODEL_CHARS)
                          && Displayable(cls, Of(o.model.value), MAX_MODEL_CHARS) && o.model.value != [])
    && (o.model == None <==> raw.model == None || Displayed(cls, Of(raw.model.value), MAX_MODEL_CHARS).Nil?)
    && (o.text.Some? ==> Of(o.text.value) == Shown(cls, raw.text) && MessageForm(cls, Of(o.text.value)) && o.text.value != [])
    && (o.text == None <==> Shown(cls, raw.text).Nil?)
  }

  predicate TextFits(text: Option<string>) {
    text.Some? ==> Bytes(Of(text.value)) <= MAX_MESSAGE_BYTES
  }

  /** What a refusal says is so, and it is the first rule that is broken. */
  ghost predicate Explains(cls: Policy, raw: RawOffer, e: OfferError) {
    if raw.files == [] && (raw.text == None || raw.text.value == []) then e == Empty
    else if |raw.files| > MAX_FILES_PER_OFFER then e == TooManyFiles(|raw.files|)
    else if !TextFits(raw.text) then e == TextTooLarge
    else if !((forall i :: 0 <= i < |raw.files| ==> FileOk(raw.files[i])) && Sum(raw.files) <= MAX_OFFER_BYTES) then FilesExplain(raw.files, e)
    else if !PinOk(raw.pin) then e == BadPin
    else e == Empty && raw.files == [] && Shown(cls, raw.text).Nil?
  }

  /** The first file that breaks a rule, and the first that it breaks. */
  ghost predicate FilesExplain(files: seq<RawFile>, e: OfferError) {
    exists i :: 0 <= i < |files| && FilesOkBefore(files, i) && FileExplains(files[i], i, Sum(files[..i]), e)
  }

  /** The first rule that file number `i`, after files of `total` bytes, breaks. */
  predicate FileExplains(f: RawFile, i: nat, total: int, e: OfferError) {
    if f.size < 0 then e == NegativeSize(i)
    else if f.size > MAX_FILE_BYTES then e == FileTooLarge(i)
    else if total + f.size > MAX_OFFER_BYTES then e == OfferTooLarge
    else !DigestOk(f) && e == BadDigest(i)
  }

  ghost predicate FilesOkBefore(files: seq<RawFile>, i: nat) {
    i <= |files| && (forall j :: 0 <= j < i ==> FileOk(files[j])) && Sum(files[..i]) <= MAX_OFFER_BYTES
  }

  // ---------------------------------------------------------------- the method

  /** One file: its size, then the running total, then its digest. */
  method CheckFile(cls: Policy, f: RawFile, i: nat, total: nat) returns (e: Option<OfferError>, g: OfferFile)
    requires total <= MAX_OFFER_BYTES
    ensures e == None <==> FileOk(f) && total + f.size <= MAX_OFFER_BYTES
    ensures e == None ==> Checked(cls, f, g)
    ensures e.Some? ==> FileExplains(f, i, total, e.value)
  {
    g := OfferFile([], 0, None);
    if f.size < 0 {
      return Some(NegativeSize(i)), g;
    }
    if f.size > MAX_U64 || f.size > MAX_FILE_BYTES {
      return Some(FileTooLarge(i)), g;
    }
    // The sum of two such numbers is far below the largest `u64`.
    assert total + f.size <= MAX_U64;
    if total + f.size > MAX_OFFER_BYTES {
      return Some(OfferTooLarge), g;
    }
    var digest: Option<seq<Byte>> := None;
    if Declared(f).Some? {
      var hex := Declared(f).value;
      OfAsString(hex);
      digest := Hex.Decode32(AsString(hex));
      Hex.Decode32Iff(hex);
      if digest == None {
        return Some(BadDigest(i)), g;
      }
    }
    var name := Sanitize(cls, f.name);
    SanitizedIsSafe(cls, Of(f.name));
    return None, OfferFile(name, f.size, digest);
  }

  ghost predicate AllChecked(cls: Policy, raw: seq<RawFile>, files: seq<OfferFile>) {
    |files| <= |raw| && forall j :: 0 <= j < |files| ==> FileOk(raw[j]) && Checked(cls, raw[j], files[j])
  }

  lemma {:induction false} OneChecked(cls: Policy, raw: seq<RawFile>, files: seq<OfferFile>, g: OfferFile)
    requires AllChecked(cls, raw, files) && |files| < |raw| && FileOk(raw[|files|]) && Checked(cls, raw[|files|], g)
    ensures AllChecked(cls, raw, files + [g])
  {
    var more := files + [g];
    forall j | 0 <= j < |more| ensures FileOk(raw[j]) && Checked(cls, raw[j], more[j]) {
      assert j < |files| ==> more[j] == files[j];
    }
  }

  /** A file that breaks a rule, or the total, breaks it for the whole offer. */
  lemma {:induction false} OneBadFile(raw: seq<RawFile>, i: nat)
    requires i < |raw| && !(FileOk(raw[i]) && Sum(raw[..i]) + raw[i].size <= MAX_OFFER_BYTES)
    ensures !((forall j :: 0 <= j < |raw| ==> FileOk(raw[j])) && Sum(raw) <= MAX_OFFER_BYTES)
  {
    if forall j :: 0 <= j < |raw| ==> FileOk(raw[j]) {
      SumPrefix(raw, i + 1);
      assert raw[..i + 1][..i] == raw[..i];
    }
  }

  /** The loop over the files. */
  method CheckFiles(cls: Policy, raw: seq<RawFile>) returns (e: Option<OfferError>, files: seq<OfferFile>, total: nat)
    ensures e == None <==> (forall i :: 0 <= i < |raw| ==> FileOk(raw[i])) && Sum(raw) <= MAX_OFFER_BYTES
    ensures e == None ==> total == Sum(raw) && |files| == |raw| && AllChecked(cls, raw, files)
    ensures e.Some? ==> FilesExplain(raw, e.value)
  {
    total, files := 0, [];
    for i := 0 to |raw|
      invariant total <= MAX_OFFER_BYTES && total == Sum(raw[..i]) && |files| == i && AllChecked(cls, raw, files)
    {
      var bad, g := CheckFile(cls, raw[i], i, total);
      if bad.Some? {
        OneBadFile(raw, i);
        assert FilesOkBefore(raw, i);
        return bad, files, total;
      }
      assert raw[..i + 1][..i] == raw[..i];
      OneChecked(cls, raw, files, g);
      total := total + raw[i].size;
      files := files + [g];
    }
    assert raw[..|raw|] == raw;
    e := None;
  }

  /** An offer is accepted exactly when it meets the rules, and what is accepted is what was offered, made safe. */
  method Validate(cls: Policy, raw: RawOffer) returns (r: Result)
    ensures r.Ok? <==> Acceptable(cls, raw)
    ensures r.Ok? ==> Faithful(cls, raw, r.offer)
    ensures r.Err? ==> Explains(cls, raw, r.e)
  {
    if raw.files == [] && (raw.text == None || raw.text.value == []) {
      NothingSaid(cls);
      return Err(Empty);
    }
    if |raw.files| > MAX_FILES_PER_OFFER {
      return Err(TooManyFiles(|raw.files|));
    }
    if raw.text.Some? && Bytes(Of(raw.text.value)) > MAX_MESSAGE_BYTES {
      return Err(TextTooLarge);
    }
    var bad, files, total := CheckFiles(cls, raw.files);
    if bad.Some? {
      return Err(bad.value);
    }
    if !PinOk(raw.pin) {
      return Err(BadPin);
    }
    var sender := ShownSender(cls, raw.sender);
    var model := ShownModel(cls, raw.model);
    var text := ShownText(cls, raw.text);
    if files == [] && text == None {
      return Err(Empty);
    }
    return Ok(Offer(sender, model, files, total, text, raw.pin));
  }

  lemma {:induction false} NothingSaid(cls: Policy)
    ensures Messaged(cls, Nil) == Nil
  {
    assert TrimEnd(Nil, Spaces) == Nil && Fit(Nil, MAX_MESSAGE_BYTES) == Nil;
  }

  lemma {:induction false} NonEmpty(s: string)
    ensures s == [] <==> Of(s).Nil?
  {
  }

  method ShownSender(cls: Policy, raw: string) returns (r: string)
    ensures var shown := Displayed(cls, Of(raw), MAX_ALIAS_CHARS);
      Of(r) == if shown.Nil? then Of(UNKNOWN_SENDER) else shown
    ensures Displayable(cls, Of(r), MAX_ALIAS_CHARS) && r != []
  {
    r := Display(cls, raw, MAX_ALIAS_CHARS);
    DisplayedIsDisplayable(cls, Of(raw), MAX_ALIAS_CHARS);
    NonEmpty(r);
    if r == [] {
      r := UNKNOWN_SENDER;
      UnknownSenderShown(cls);
    }
  }

  method ShownModel(cls: Policy, raw: Option<string>) returns (r: Option<string>)
    ensures r.Some? ==> raw.Some? && Of(r.value) == Displayed(cls, Of(raw.value), MAX_MODEL_CHARS)
                        && Displayable(cls, Of(r.value), MAX_MODEL_CHARS) && r.value != []
    ensures r == None <==> raw == None || Displayed(cls, Of(raw.value), MAX_MODEL_CHARS).Nil?
  {
    if raw == None {
      return None;
    }
    var shown := Display(cls, raw.value, MAX_MODEL_CHARS);
    DisplayedIsDisplayable(cls, Of(raw.value), MAX_MODEL_CHARS);
    NonEmpty(shown);
    return if shown == [] then None else Some(shown);
  }

  method ShownText(cls: Policy, raw: Option<string>) returns (r: Option<string>)
    ensures r.Some? ==> Of(r.value) == Shown(cls, raw) && MessageForm(cls, Of(r.value)) && r.value != []
    ensures r == None <==> Shown(cls, raw).Nil?
  {
    if raw == None {
      return None;
    }
    var shown := Message(cls, raw.value);
    MessagedHasForm(cls, Of(raw.value));
    NonEmpty(shown);
    return if shown == [] then None else Some(shown);
  }
}
