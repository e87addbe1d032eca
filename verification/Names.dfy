/**
 * `name.rs`: a peer-supplied file name made into one safe path component, and the numbered spellings
 * tried when a name is taken.
 */
module Names {
  import opened Limits
  import opened Chars
  import opened Strings
  import opened Text
  import opened Options

  predicate Separator(c: char) {
    c == '/' || c == '\\'
  }

  /** What follows the final separator. */
  function LastSegment(s: Str): Str {
    if s.Nil? || Separator(s.last) then Nil else Snoc(LastSegment(s.init), s.last)
  }

  // ---------------------------------------------------------------- the passes of a name

  /** Drops everything before the first base character that is not a dot: no hidden names. */
  function DropLead(cls: Policy, s: Str): Str {
    match s
    case Nil => Nil
    case Snoc(init, c) =>
      var d := DropLead(cls, init);
      if d.Nil? && !(cls(c) == Keep && c != '.') then Nil else Snoc(d, c)
  }

  /** How many marks end `s`. */
  function MarkRun(cls: Policy, s: Str): nat {
    if s.Snoc? && cls(s.last) == Combining then MarkRun(cls, s.init) + 1 else 0
  }

  /** Puts a mark on the last character that is not a space. */
  function Hang(s: Str, mark: char): Str {
    if s.Snoc? && s.last == ' ' then Snoc(Hang(s.init, mark), ' ') else Snoc(s, mark)
  }

  /** Moves each mark onto the character before it, unless that is a dot or carries three already. */
  function HangMarks(cls: Policy, s: Str): Str {
    match s
    case Nil => Nil
    case Snoc(init, c) =>
      var h := HangMarks(cls, init);
      var b := TrimEnd(h, Spaces);
      if cls(c) != Combining then Snoc(h, c)
      else if b.Snoc? && b.last != '.' && MarkRun(cls, b) < MAX_COMBINING_RUN then Hang(h, c)
      else h
  }

  /** The whole of `s` as one clean name, of whatever length. */
  function Clean(cls: Policy, s: Str): Str {
    TrimEnd(Squeeze(HangMarks(cls, DropLead(cls, Visible(cls, s)))), Spaces)
  }

  const SCAN_BYTES: nat := 4 * MAX_NAME_BYTES

  /** How far a name is read: up to where what is kept outgrows `SCAN_BYTES`. */
  function ReadPart(cls: Policy, s: Str): Str {
    match s
    case Nil => Nil
    case Snoc(init, _) =>
      var r := ReadPart(cls, init);
      if r != init || Bytes(Clean(cls, r)) > SCAN_BYTES then r else s
  }

  // ---------------------------------------------------------------- extensions and length

  predicate Has(s: Str, c: char) {
    s.Snoc? && (s.last == c || Has(s.init, c))
  }

  /** Before the last dot. */
  function BeforeDot(s: Str): Str {
    if s.Nil? then Nil else if s.last == '.' then s.init else BeforeDot(s.init)
  }

  /** After the last dot. */
  function AfterDot(s: Str): Str {
    if s.Nil? || s.last == '.' then Nil else Snoc(AfterDot(s.init), s.last)
  }

  /** Whether the part after the last dot counts as an extension. */
  predicate HasExtension(s: Str) {
    && Has(s, '.') && BeforeDot(s).Snoc?
    && AfterDot(s).Snoc? && Bytes(AfterDot(s)) <= MAX_EXTENSION_BYTES && !Has(AfterDot(s), ' ')
  }

  function Stem(s: Str): Str {
    if HasExtension(s) then BeforeDot(s) else s
  }

  function Extension(s: Str): Option<Str> {
    if HasExtension(s) then Some(AfterDot(s)) else None
  }

  /** A stem with its extension put back. */
  function WithExtension(stem: Str, ext: Option<Str>): Str {
    match ext
    case None => stem
    case Some(e) => Cat(Snoc(stem, '.'), e)
  }

  /** Bytes an extension takes, its dot included. */
  function ExtensionBytes(ext: Option<Str>): nat {
    match ext
    case None => 0
    case Some(e) => Bytes(e) + 1
  }

  function KeepOnly(cls: Policy, s: Str): Str {
    match s
    case Nil => Nil
    case Snoc(init, c) => if cls(c) == Keep then Snoc(KeepOnly(cls, init), c) else KeepOnly(cls, init)
  }

  function SanitizedExtension(cls: Policy, ext: Str): Str {
    Fit(First(KeepOnly(cls, ext), MAX_EXTENSION_BYTES), MAX_EXTENSION_BYTES)
  }

  /** The extension put back on a name whose reading was cut short, its dot included. */
  function Reattached(cls: Policy, cleaned: Str, last: Str): Str {
    if HasExtension(last) && SanitizedExtension(cls, AfterDot(last)).Snoc?
    then Cat(Snoc(cleaned, '.'), SanitizedExtension(cls, AfterDot(last)))
    else cleaned
  }

  /** What the scan hands on. */
  function Scanned(cls: Policy, last: Str): Str {
    var part := ReadPart(cls, last);
    if part == last then Clean(cls, last) else Reattached(cls, Clean(cls, part), last)
  }

  function Shorten(name: Str): Str {
    if Bytes(name) <= MAX_NAME_BYTES then name
    else if !HasExtension(name) then Fit(name, MAX_NAME_BYTES)
    else
      var e := AfterDot(name);
      var stem := TrimEnd(Fit(BeforeDot(name), MAX_NAME_BYTES - (Bytes(e) + 1)), DotsAndSpaces);
      if stem.Nil? then Fit(name, MAX_NAME_BYTES) else Cat(Snoc(stem, '.'), e)
  }

  const FALLBACK_NAME: string := "received-file"

  /** Trims, shortens, and falls back on a fixed name when nothing is left. */
  function Finish(cleaned: Str): Str {
    var trimmed := TrimEnd(TrimStart(cleaned, DotsAndSpaces), DotsAndSpaces);
    var shortened := TrimEnd(Shorten(trimmed), DotsAndSpaces);
    if shortened.Nil? then Of(FALLBACK_NAME) else shortened
  }

  /** The name a raw name is sanitised to. */
  function Sanitized(cls: Policy, raw: Str): Str {
    Finish(Scanned(cls, LastSegment(raw)))
  }

  // ---------------------------------------------------------------- the normal form

  predicate MayFollowInName(cls: Policy, p: Str, c: char) {
    match cls(c)
    case Keep => !Separator(c) && (p.Nil? ==> c != '.')
    case Combining => p.Snoc? && p.last != '.' && p.last != ' ' && MarkRun(cls, p) < MAX_COMBINING_RUN
    case Space => c == ' ' && p.Snoc? && p.last != ' '
    case Newline => false
    case Drop => false
  }

  predicate Tame(cls: Policy, s: Str) {
    s.Nil? || (Tame(cls, s.init) && MayFollowInName(cls, s.init, s.last))
  }

  /** S1: one safe path component. */
  predicate SafeName(cls: Policy, s: Str) {
    s.Snoc? && Tame(cls, s) && !Trims(DotsAndSpaces, s.last) && Bytes(s) <= MAX_NAME_BYTES
  }

  lemma {:induction false} TamePrefix(cls: Policy, p: Str, s: Str)
    requires Prefix(p, s) && Tame(cls, s)
    ensures Tame(cls, p)
  {
    if p != s {
      TamePrefix(cls, p, s.init);
    }
  }

  // ---------------------------------------------------------------- the one-pass automaton

  predicate NoSeparator(s: Str) {
    s.Nil? || (!Separator(s.last) && NoSeparator(s.init))
  }

  /** The automaton's registers after reading `s`. What is cleaned so far is already in normal form. */
  ghost predicate Cleaning(cls: Policy, s: Str, cleaned: Str, pendingSpace: bool, combining: nat) {
    var h := HangMarks(cls, DropLead(cls, Visible(cls, s)));
    var b := TrimEnd(h, Spaces);
    && Squeeze(h) == Spaced(cleaned, pendingSpace)
    && TrimEnd(Squeeze(h), Spaces) == cleaned
    && (DropLead(cls, Visible(cls, s)).Nil? <==> cleaned.Nil?)
    && (h.Nil? <==> cleaned.Nil?)
    && (b.Nil? <==> cleaned.Nil?)
    && (b.Snoc? ==> b.last == cleaned.last && MarkRun(cls, b) == combining)
    && MarkRun(cls, cleaned) == combining
    && Tame(cls, cleaned)
    && (cleaned.Snoc? ==> cleaned.last != ' ')
  }

  lemma {:induction false} HangLemma(cls: Policy, h: Str, c: char)
    requires c != ' ' && TrimEnd(h, Spaces).Snoc?
    ensures Squeeze(Hang(h, c)) == Hang(Squeeze(h), c)
    ensures TrimEnd(Hang(h, c), Spaces) == Snoc(TrimEnd(h, Spaces), c)
    ensures Squeeze(h).Snoc? && Hang(h, c).Snoc?
    ensures h.last == ' ' <==> Squeeze(h).last == ' '
  {
    if h.last == ' ' {
      HangLemma(cls, h.init, c);
    }
  }

  /** What reading `c` does to the registers. */
  lemma {:induction false} CleanNext(cls: Policy, s: Str, c: char, cleaned: Str, pendingSpace: bool, combining: nat)
    requires Cleaning(cls, s, cleaned, pendingSpace, combining) && !Separator(c)
    ensures match cls(c)
      case Drop => Cleaning(cls, Snoc(s, c), cleaned, pendingSpace, combining)
      case Space => Cleaning(cls, Snoc(s, c), cleaned, true, combining)
      case Newline => Cleaning(cls, Snoc(s, c), cleaned, true, combining)
      case Combining =>
        if cleaned.Snoc? && cleaned.last != '.' && combining < MAX_COMBINING_RUN
        then Cleaning(cls, Snoc(s, c), Snoc(cleaned, c), pendingSpace, combining + 1)
        else Cleaning(cls, Snoc(s, c), cleaned, pendingSpace, combining)
      case Keep =>
        if cleaned.Nil? && c == '.' then Cleaning(cls, Snoc(s, c), cleaned, pendingSpace, combining)
        else Cleaning(cls, Snoc(s, c), Snoc(Spaced(cleaned, pendingSpace), c), false, 0)
  {
    var h := HangMarks(cls, DropLead(cls, Visible(cls, s)));
    assert Tame(cls, Spaced(cleaned, pendingSpace));
    if cls(c) == Combining && cleaned.Snoc? {
      HangLemma(cls, h, c);
      assert Hang(cleaned, c) == Snoc(cleaned, c);
      assert Hang(Spaced(cleaned, pendingSpace), c) == Spaced(Snoc(cleaned, c), pendingSpace);
      assert TrimEnd(Snoc(cleaned, c), Spaces) == Snoc(cleaned, c);
    }
  }

  lemma {:induction false} StaysCut(cls: Policy, s: string, i: nat, n: nat)
    requires i <= n <= |s| && ReadPart(cls, Upto(s, i)) == Upto(s, i)
    requires Bytes(Clean(cls, Upto(s, i))) > SCAN_BYTES
    ensures ReadPart(cls, Upto(s, n)) == Upto(s, i)
  {
    if i < n {
      StaysCut(cls, s, i, n - 1);
    }
  }

  /** The last item of `rsplit` on the separators. */
  method LastOf(raw: string) returns (last: string)
    ensures Of(last) == LastSegment(Of(raw))
    ensures forall i :: 0 <= i < |last| ==> !Separator(last[i])
  {
    var k := |raw|;
    while k > 0 && !Separator(raw[k - 1])
      invariant 0 <= k <= |raw|
      invariant forall i :: k <= i < |raw| ==> !Separator(raw[i])
    {
      k := k - 1;
    }
    last := raw[k..];
    LastSegmentIs(raw, k, |raw|);
  }

  lemma {:induction false} LastSegmentIs(raw: string, k: nat, n: nat)
    requires k <= n <= |raw| && (k == 0 || Separator(raw[k - 1]))
    requires forall i :: k <= i < n ==> !Separator(raw[i])
    ensures LastSegment(Upto(raw, n)) == Upto(raw[k..], n - k)
  {
    if k < n {
      LastSegmentIs(raw, k, n - 1);
    }
  }

  /** The loop of `sanitize`: reads until the name is read or what is kept has outgrown the scan limit. */
  method Scan(cls: Policy, last: string) returns (cleaned: Str, cut: bool)
    requires forall i :: 0 <= i < |last| ==> !Separator(last[i])
    ensures cleaned == Clean(cls, ReadPart(cls, Of(last)))
    ensures cut <==> ReadPart(cls, Of(last)) != Of(last)
  {
    cleaned := Nil;
    cut := false;
    var pendingSpace := false;
    var combining := 0;
    for i := 0 to |last|
      invariant !cut && ReadPart(cls, Upto(last, i)) == Upto(last, i)
      invariant cleaned == Clean(cls, Upto(last, i))
      invariant Cleaning(cls, Upto(last, i), cleaned, pendingSpace, combining)
    {
      if Bytes(cleaned) > SCAN_BYTES {
        StaysCut(cls, last, i, |last|);
        UptoLen(last, i);
        UptoLen(last, |last|);
        cut := true;
        return;
      }
      var c := last[i];
      CleanNext(cls, Upto(last, i), c, cleaned, pendingSpace, combining);
      match cls(c) {
        case Drop =>
        case Space => pendingSpace := true;
        case Newline => pendingSpace := true;
        case Combining =>
          var onDot := cleaned.Snoc? && cleaned.last == '.';
          if cleaned.Snoc? && !onDot && combining < MAX_COMBINING_RUN {
            combining := combining + 1;
            cleaned := Snoc(cleaned, c);
          }
        case Keep =>
          if !(c == '.' && cleaned.Nil?) {
            if pendingSpace && cleaned.Snoc? {
              cleaned := Snoc(cleaned, ' ');
            }
            pendingSpace := false;
            combining := 0;
            cleaned := Snoc(cleaned, c);
          }
      }
    }
  }

  /** The one-pass `sanitize` computes the composition of the passes. */
  method Sanitize(cls: Policy, raw: string) returns (name: string)
    ensures Of(name) == Sanitized(cls, Of(raw))
  {
    var last := LastOf(raw);
    var cleaned, cut := Scan(cls, last);
    if cut {
      cleaned := Reattached(cls, cleaned, Of(last));
    }
    var finished := Finish(cleaned);
    OfAsString(finished);
    name := AsString(finished);
  }

  // ---------------------------------------------------------------- every result is safe

  /** The passes turn any name into one the automaton could be holding, so into the normal form. */
  lemma {:induction false} CleanTame(cls: Policy, s: Str) returns (pendingSpace: bool, combining: nat)
    requires NoSeparator(s)
    ensures Cleaning(cls, s, Clean(cls, s), pendingSpace, combining)
  {
    if s.Nil? {
      pendingSpace, combining := false, 0;
    } else {
      pendingSpace, combining := CleanTame(cls, s.init);
      var cleaned := Clean(cls, s.init);
      CleanNext(cls, s.init, s.last, cleaned, pendingSpace, combining);
      if cls(s.last) == Space || cls(s.last) == Newline {
        pendingSpace := true;
      } else if cls(s.last) == Combining && cleaned.Snoc? && cleaned.last != '.' && combining < MAX_COMBINING_RUN {
        combining := combining + 1;
      } else if cls(s.last) == Keep && !(cleaned.Nil? && s.last == '.') {
        pendingSpace, combining := false, 0;
      }
    }
  }

  lemma {:induction false} LastSegmentPlain(s: Str)
    ensures NoSeparator(LastSegment(s))
  {
    if s.Snoc? && !Separator(s.last) {
      LastSegmentPlain(s.init);
    }
  }

  lemma {:induction false} NoSeparatorPrefix(p: Str, s: Str)
    requires Prefix(p, s) && NoSeparator(s)
    ensures NoSeparator(p)
  {
    if p != s {
      NoSeparatorPrefix(p, s.init);
    }
  }

  lemma {:induction false} ReadPartPrefix(cls: Policy, s: Str)
    ensures Prefix(ReadPart(cls, s), s)
    ensures ReadPart(cls, s) != s ==> Bytes(Clean(cls, ReadPart(cls, s))) > SCAN_BYTES
  {
    if s.Snoc? {
      ReadPartPrefix(cls, s.init);
    }
  }

  /** Ordinary characters: kept, and neither separators nor dots. */
  predicate Ordinary(cls: Policy, s: Str) {
    s.Nil? || (cls(s.last) == Keep && !Separator(s.last) && s.last != '.' && Ordinary(cls, s.init))
  }

  lemma {:induction false} TameOrdinary(cls: Policy, x: Str, e: Str)
    requires Tame(cls, x) && Ordinary(cls, e)
    ensures Tame(cls, Cat(x, e))
  {
    if e.Snoc? {
      TameOrdinary(cls, x, e.init);
    }
  }

  lemma {:induction false} OrdinaryPrefix(cls: Policy, p: Str, s: Str)
    requires Prefix(p, s) && Ordinary(cls, s)
    ensures Ordinary(cls, p)
  {
    if p != s {
      OrdinaryPrefix(cls, p, s.init);
    }
  }

  lemma {:induction false} KeptExtensionOrdinary(cls: Policy, s: Str)
    requires NoSeparator(s)
    ensures Ordinary(cls, KeepOnly(cls, AfterDot(s)))
  {
    if s.Snoc? && s.last != '.' {
      KeptExtensionOrdinary(cls, s.init);
    }
  }

  lemma {:induction false} SanitizedExtensionOrdinary(cls: Policy, s: Str)
    requires NoSeparator(s)
    ensures Ordinary(cls, SanitizedExtension(cls, AfterDot(s)))
  {
    var k := KeepOnly(cls, AfterDot(s));
    KeptExtensionOrdinary(cls, s);
    FirstPrefix(k, MAX_EXTENSION_BYTES);
    FitPrefix(First(k, MAX_EXTENSION_BYTES), MAX_EXTENSION_BYTES);
    PrefixTrans(SanitizedExtension(cls, AfterDot(s)), First(k, MAX_EXTENSION_BYTES), k);
    OrdinaryPrefix(cls, SanitizedExtension(cls, AfterDot(s)), k);
  }

  lemma {:induction false} TameStart(cls: Policy, s: Str)
    requires Tame(cls, s)
    ensures TrimStart(s, DotsAndSpaces) == s
    ensures NoSeparator(s)
  {
    if s.Snoc? {
      TameStart(cls, s.init);
    }
  }

  lemma {:induction false} SplitAtDot(s: Str)
    requires Has(s, '.')
    ensures s == Cat(Snoc(BeforeDot(s), '.'), AfterDot(s))
    ensures Prefix(BeforeDot(s), s) && !Has(AfterDot(s), '.')
  {
    if s.last != '.' {
      SplitAtDot(s.init);
    }
  }

  lemma {:induction false} MarkRunAfterDot(cls: Policy, x: Str, y: Str, e: Str)
    ensures MarkRun(cls, Cat(Snoc(x, '.'), e)) == MarkRun(cls, Cat(Snoc(y, '.'), e))
  {
    if e.Snoc? {
      MarkRunAfterDot(cls, x, y, e.init);
    }
  }

  /** What may follow a dot does not depend on what is before it: an extension moves from stem to stem. */
  lemma {:induction false} Graft(cls: Policy, x: Str, y: Str, e: Str)
    requires Tame(cls, Cat(Snoc(x, '.'), e)) && Tame(cls, y) && y.Snoc?
    ensures Tame(cls, Cat(Snoc(y, '.'), e))
  {
    if e.Snoc? {
      Graft(cls, x, y, e.init);
      MarkRunAfterDot(cls, x, y, e.init);
    }
  }

  lemma {:induction false} CatLast(a: Str, e: Str)
    requires e.Snoc?
    ensures Cat(a, e).Snoc? && Cat(a, e).last == e.last
  {
  }

  /** Cutting a tame name at some length, then trimming it, leaves something: its first character. */
  lemma {:induction false} CutTame(cls: Policy, s: Str, max: nat)
    requires s.Snoc? && Tame(cls, s) && max >= 4
    ensures var r := TrimEnd(Fit(s, max), DotsAndSpaces);
      r.Snoc? && Tame(cls, r) && Bytes(r) <= max && Prefix(r, s)
  {
    var f := Fit(s, max);
    FitPrefix(s, max);
    TrimEndPrefix(f, DotsAndSpaces);
    PrefixShorter(TrimEnd(f, DotsAndSpaces), f);
    PrefixTrans(TrimEnd(f, DotsAndSpaces), f, s);
    TamePrefix(cls, TrimEnd(f, DotsAndSpaces), s);
    TamePrefix(cls, f, s);
    FitSnoc(s, max);
    TrimTame(cls, f);
  }

  lemma {:induction false} FitSnoc(s: Str, max: nat)
    requires s.Snoc? && max >= 4
    ensures Fit(s, max).Snoc?
  {
    if s.init.Snoc? && Bytes(s) > max {
      FitSnoc(s.init, max);
    }
  }

  lemma {:induction false} TrimTame(cls: Policy, s: Str)
    requires s.Snoc? && Tame(cls, s)
    ensures TrimEnd(s, DotsAndSpaces).Snoc?
  {
    if s.init.Snoc? {
      TrimTame(cls, s.init);
    }
  }

  /** A shorter stem under the same extension. */
  lemma {:induction false} ShortStemSafe(cls: Policy, s: Str, stem: Str)
    requires s.Snoc? && Tame(cls, s) && !Trims(DotsAndSpaces, s.last) && HasExtension(s)
    requires stem.Snoc? && Tame(cls, stem) && Bytes(stem) + Bytes(AfterDot(s)) + 1 <= MAX_NAME_BYTES
    ensures var r := Cat(Snoc(stem, '.'), AfterDot(s));
      SafeName(cls, r) && TrimEnd(r, DotsAndSpaces) == r
  {
    var e := AfterDot(s);
    SplitAtDot(s);
    Graft(cls, BeforeDot(s), stem, e);
    CatLast(Snoc(stem, '.'), e);
    CatLast(Snoc(BeforeDot(s), '.'), e);
    CatLen(Snoc(stem, '.'), e);
  }

  lemma {:induction false} ShortenSafe(cls: Policy, s: Str)
    requires s.Snoc? && Tame(cls, s) && !Trims(DotsAndSpaces, s.last)
    ensures SafeName(cls, TrimEnd(Shorten(s), DotsAndSpaces))
  {
    if Bytes(s) > MAX_NAME_BYTES {
      CutTame(cls, s, MAX_NAME_BYTES);
      if HasExtension(s) {
        var room := MAX_NAME_BYTES - (Bytes(AfterDot(s)) + 1);
        SplitAtDot(s);
        TamePrefix(cls, BeforeDot(s), s);
        CutTame(cls, BeforeDot(s), room);
        ShortStemSafe(cls, s, TrimEnd(Fit(BeforeDot(s), room), DotsAndSpaces));
      }
    }
  }

  lemma {:induction false} OrdinaryUpto(cls: Policy, s: string, n: nat)
    requires n <= |s| && forall i :: 0 <= i < n ==> Graphic(s[i]) && !Separator(s[i]) && s[i] != '.'
    ensures Ordinary(cls, Upto(s, n)) && Bytes(Upto(s, n)) == n
  {
    if n > 0 {
      OrdinaryUpto(cls, s, n - 1);
    }
  }

  lemma {:induction false} FallbackSafe(cls: Policy)
    ensures SafeName(cls, Of(FALLBACK_NAME))
  {
    OrdinaryUpto(cls, FALLBACK_NAME, |FALLBACK_NAME|);
    TameOrdinary(cls, Nil, Of(FALLBACK_NAME));
    CatNil(Of(FALLBACK_NAME));
  }

  lemma {:induction false} FinishSafe(cls: Policy, cleaned: Str)
    requires Tame(cls, cleaned)
    ensures SafeName(cls, Finish(cleaned))
    ensures Finish(cleaned) == if cleaned.Nil? then Of(FALLBACK_NAME)
                               else TrimEnd(Shorten(TrimEnd(cleaned, DotsAndSpaces)), DotsAndSpaces)
  {
    TameStart(cls, cleaned);
    FallbackSafe(cls);
    if cleaned.Snoc? {
      var trimmed := TrimEnd(cleaned, DotsAndSpaces);
      TrimTame(cls, cleaned);
      TrimEndPrefix(cleaned, DotsAndSpaces);
      TamePrefix(cls, trimmed, cleaned);
      ShortenSafe(cls, trimmed);
    }
  }

  /** What the scan hands on is tame, the extension put back on a name that was cut short included. */
  lemma {:induction false} ScannedTame(cls: Policy, last: Str)
    requires NoSeparator(last)
    ensures Tame(cls, Scanned(cls, last))
  {
    var part := ReadPart(cls, last);
    ReadPartPrefix(cls, last);
    NoSeparatorPrefix(part, last);
    var pendingSpace, combining := CleanTame(cls, part);
    if part != last {
      SanitizedExtensionOrdinary(cls, last);
        TameOrdinary(cls, Snoc(Clean(cls, part), '.'), SanitizedExtension(cls, AfterDot(last)));
    }
  }

  // ---------------------------------------------------------------- what `sanitize` promises

  /** Whatever the peer sent, the result is one safe path component. */
  lemma {:induction false} SanitizedIsSafe(cls: Policy, raw: Str)
    ensures SafeName(cls, Sanitized(cls, raw))
  {
    LastSegmentPlain(raw);
    ScannedTame(cls, LastSegment(raw));
    FinishSafe(cls, Scanned(cls, LastSegment(raw)));
  }

  /** Every pass leaves a tame name as it is. */
  lemma {:induction false} TameFixed(cls: Policy, s: Str)
    requires Tame(cls, s)
    ensures LastSegment(s) == s && Visible(cls, s) == s && DropLead(cls, s) == s
    ensures HangMarks(cls, s) == s && Squeeze(s) == s
  {
    if s.Snoc? {
      TameFixed(cls, s.init);
    }
  }

  lemma {:induction false} TameReadWhole(cls: Policy, s: Str)
    requires Tame(cls, s) && Bytes(s) <= SCAN_BYTES
    ensures ReadPart(cls, s) == s
  {
    if s.Snoc? {
      TameReadWhole(cls, s.init);
      TameFixed(cls, s.init);
      TrimEndPrefix(s.init, Spaces);
      PrefixShorter(TrimEnd(s.init, Spaces), s.init);
    }
  }

  /** `is_safe`: a name sanitises to itself exactly when it is one safe path component. */
  lemma {:induction false} IsSafeIffSafe(cls: Policy, s: Str)
    ensures Sanitized(cls, s) == s <==> SafeName(cls, s)
  {
    SanitizedIsSafe(cls, s);
    if SafeName(cls, s) {
      TameFixed(cls, s);
      TameReadWhole(cls, s);
      TameStart(cls, s);
    }
  }

  lemma {:induction false} SanitizeIdempotent(cls: Policy, raw: Str)
    ensures Sanitized(cls, Sanitized(cls, raw)) == Sanitized(cls, raw)
  {
    SanitizedIsSafe(cls, raw);
    IsSafeIffSafe(cls, Sanitized(cls, raw));
  }

  /** A character that can start a name. */
  predicate Usable(cls: Policy, s: Str) {
    s.Snoc? && ((cls(s.last) == Keep && s.last != '.') || Usable(cls, s.init))
  }

  lemma {:induction false} UsableSurvives(cls: Policy, s: Str)
    ensures DropLead(cls, Visible(cls, s)).Snoc? <==> Usable(cls, s)
  {
    if s.Snoc? {
      UsableSurvives(cls, s.init);
    }
  }

  /** A name is cleaned to nothing, and so becomes the fallback, only when nothing in it can start a name. */
  lemma {:induction false} FallbackIff(cls: Policy, raw: Str)
    ensures Usable(cls, LastSegment(raw)) <==> Scanned(cls, LastSegment(raw)).Snoc?
    ensures !Usable(cls, LastSegment(raw)) ==> Sanitized(cls, raw) == Of(FALLBACK_NAME)
  {
    var last := LastSegment(raw);
    LastSegmentPlain(raw);
    ScannedTame(cls, last);
    FinishSafe(cls, Scanned(cls, last));
    ReadPartPrefix(cls, last);
    var pendingSpace, combining := CleanTame(cls, last);
    UsableSurvives(cls, last);
    if ReadPart(cls, last) != last {
      UsableSurvives(cls, ReadPart(cls, last));
      NoSeparatorPrefix(ReadPart(cls, last), last);
      var _, _ := CleanTame(cls, ReadPart(cls, last));
      UsablePrefix(cls, ReadPart(cls, last), last);
    }
  }

  lemma {:induction false} UsablePrefix(cls: Policy, p: Str, s: Str)
    requires Prefix(p, s) && Usable(cls, p)
    ensures Usable(cls, s)
  {
    if p != s {
      UsablePrefix(cls, p, s.init);
    }
  }

  /** A name whose clean form fits is only trimmed. */
  lemma {:induction false} ShortNamesSurvive(cls: Policy, raw: Str)
    requires Usable(cls, LastSegment(raw))
    requires Bytes(Scanned(cls, LastSegment(raw))) <= MAX_NAME_BYTES
    ensures ReadPart(cls, LastSegment(raw)) == LastSegment(raw)
    ensures Sanitized(cls, raw) == TrimEnd(Clean(cls, LastSegment(raw)), DotsAndSpaces)
  {
    var last := LastSegment(raw);
    LastSegmentPlain(raw);
    ScannedTame(cls, last);
    FallbackIff(cls, raw);
    ReadPartPrefix(cls, last);
    CatLen(Snoc(Clean(cls, ReadPart(cls, last)), '.'), SanitizedExtension(cls, AfterDot(last)));
    FinishSafe(cls, Scanned(cls, last));
    TrimEndPrefix(Clean(cls, last), DotsAndSpaces);
    PrefixShorter(TrimEnd(Clean(cls, last), DotsAndSpaces), Clean(cls, last));
  }

  // ---------------------------------------------------------------- what is kept of a name

  /** The last segment is all that follows the last separator. */
  lemma {:induction false} LastSegmentMeans(s: Str) returns (p: Str)
    ensures s == Cat(p, LastSegment(s)) && NoSeparator(LastSegment(s)) && (p.Snoc? ==> Separator(p.last))
  {
    p := s;
    if s.Snoc? && !Separator(s.last) {
      p := LastSegmentMeans(s.init);
    }
  }

  /** The last base character is a dot. */
  predicate OnDot(cls: Policy, s: Str) {
    s.Snoc? && if cls(s.last) == Keep then s.last == '.' else OnDot(cls, s.init)
  }

  /** A name keeps each base character but leading dots, and the first three marks after one that is not a dot. */
  predicate KeptInName(cls: Policy, before: Str, c: char) {
    match cls(c)
    case Keep => c != '.' || Usable(cls, before)
    case Combining => Usable(cls, before) && !OnDot(cls, before) && MarksAtEnd(cls, before) < MAX_COMBINING_RUN
    case _ => false
  }

  /** After the last base character of `s` comes a space or a line break. */
  predicate BlankSinceBase(cls: Policy, s: Str) {
    s.Snoc? && cls(s.last) != Keep && (IsBlank(cls, s.last) || BlankSinceBase(cls, s.init))
  }

  /** The characters kept, each base that has a space or a line break between it and the base before it after one space. */
  function WovenName(cls: Policy, s: Str): Str {
    match s
    case Nil => Nil
    case Snoc(init, c) =>
      var w := WovenName(cls, init);
      if !KeptInName(cls, init, c) then w
      else if cls(c) == Keep && w.Snoc? && BlankSinceBase(cls, init) then Snoc(Snoc(w, ' '), c)
      else Snoc(w, c)
  }

  /** What is woven is what the automaton holds. */
  lemma {:induction false} WovenCleaning(cls: Policy, s: Str) returns (pendingSpace: bool, combining: nat)
    requires NoSeparator(s)
    ensures var w := WovenName(cls, s);
      && Cleaning(cls, s, w, pendingSpace, combining)
      && (w.Snoc? <==> Usable(cls, s))
      && (w.Snoc? ==> (pendingSpace <==> BlankSinceBase(cls, s)) && (w.last == '.' <==> OnDot(cls, s)))
      && (w.Snoc? && !OnDot(cls, s) ==>
            combining == if MarksAtEnd(cls, s) < MAX_COMBINING_RUN then MarksAtEnd(cls, s) else MAX_COMBINING_RUN)
  {
    pendingSpace, combining := false, 0;
    if s.Snoc? {
      var w, c := WovenName(cls, s.init), s.last;
      pendingSpace, combining := WovenCleaning(cls, s.init);
      CleanNext(cls, s.init, c, w, pendingSpace, combining);
      if IsBlank(cls, c) {
        pendingSpace := true;
      } else if KeptInName(cls, s.init, c) {
        pendingSpace, combining := if cls(c) == Keep then false else pendingSpace, if cls(c) == Keep then 0 else combining + 1;
      }
    }
  }

  /** The clean form of a name is just that: nothing else is lost, moved or added. */
  lemma {:induction false} CleanIsWoven(cls: Policy, s: Str)
    requires NoSeparator(s)
    ensures Clean(cls, s) == WovenName(cls, s)
  {
    var pendingSpace, combining := WovenCleaning(cls, s);
  }

  lemma {:induction false} WovenGrows(cls: Policy, p: Str, s: Str)
    requires Prefix(p, s)
    ensures Prefix(WovenName(cls, p), WovenName(cls, s))
  {
    if p != s {
      WovenGrows(cls, p, s.init);
      PrefixTrans(WovenName(cls, p), WovenName(cls, s.init), WovenName(cls, s));
    }
  }

  /** How far a name is read: not past the first place where what is kept outgrows the scan limit, and no less far. */
  lemma {:induction false} ReadPartMeans(cls: Policy, s: Str, p: Str)
    requires NoSeparator(s) && Prefix(p, s)
    ensures Prefix(ReadPart(cls, s), s)
    ensures p != s && Bytes(Clean(cls, p)) > SCAN_BYTES ==> Prefix(ReadPart(cls, s), p)
    ensures ReadPart(cls, s) != s ==> Bytes(Clean(cls, ReadPart(cls, s))) > SCAN_BYTES
  {
    ReadPartPrefix(cls, s);
    if p != s {
      ReadPartMeans(cls, s.init, p);
      PrefixShorter(p, s.init);
      if Prefix(ReadPart(cls, s.init), p) {
        PrefixShorter(ReadPart(cls, s.init), p);
      }
    }
  }

  // ---------------------------------------------------------------- how much is kept of a long name

  lemma {:induction false} TrimEndGrows(p: Str, s: Str, k: Trimming)
    requires Prefix(p, s)
    ensures Prefix(TrimEnd(p, k), TrimEnd(s, k))
  {
    if p != s {
      TrimEndGrows(p, s.init, k);
      if !Trims(k, s.last) {
        TrimEndPrefix(p, k);
        PrefixTrans(TrimEnd(p, k), p, s);
      }
    }
  }

  /** `stem` is a trimmed beginning of `whole` within `room`, and nothing longer would do: all that fits, once trimmed, is in it. */
  ghost predicate LongestStem(stem: Str, whole: Str, room: nat) {
    && Prefix(stem, whole) && Bytes(stem) <= room && (stem.Snoc? ==> !Trims(DotsAndSpaces, stem.last))
    && forall p :: Prefix(p, whole) && Bytes(p) <= room ==> Prefix(TrimEnd(p, DotsAndSpaces), stem)
  }

  lemma {:induction false} CutIsLongest(whole: Str, room: nat)
    ensures LongestStem(TrimEnd(Fit(whole, room), DotsAndSpaces), whole, room)
  {
    var f := Fit(whole, room);
    FitPrefix(whole, room);
    TrimEndPrefix(f, DotsAndSpaces);
    PrefixShorter(TrimEnd(f, DotsAndSpaces), f);
    PrefixTrans(TrimEnd(f, DotsAndSpaces), f, whole);
    forall p | Prefix(p, whole) && Bytes(p) <= room ensures Prefix(TrimEnd(p, DotsAndSpaces), TrimEnd(f, DotsAndSpaces)) {
      FitLongest(p, whole, room);
      TrimEndGrows(p, f, DotsAndSpaces);
    }
  }

  /** There is one such stem only. */
  lemma {:induction false} LongestIsUnique(a: Str, b: Str, whole: Str, room: nat)
    requires LongestStem(a, whole, room) && LongestStem(b, whole, room)
    ensures a == b
  {
    assert TrimEnd(a, DotsAndSpaces) == a && TrimEnd(b, DotsAndSpaces) == b;
    PrefixShorter(a, b);
    PrefixShorter(b, a);
  }

  /** A name cut to the cap: with an extension, the longest stem that leaves room for it; without, the longest beginning. */
  ghost predicate CutTo(r: Str, s: Str) {
    if Bytes(s) <= MAX_NAME_BYTES then r == s
    else if HasExtension(s) then
      exists stem :: LongestStem(stem, BeforeDot(s), MAX_NAME_BYTES - (Bytes(AfterDot(s)) + 1)) && r == Cat(Snoc(stem, '.'), AfterDot(s))
    else LongestStem(r, s, MAX_NAME_BYTES)
  }

  lemma {:induction false} ShortenCutsStem(cls: Policy, s: Str, stem: Str, room: nat)
    requires s.Snoc? && Tame(cls, s) && !Trims(DotsAndSpaces, s.last) && Bytes(s) > MAX_NAME_BYTES && HasExtension(s)
    requires room == MAX_NAME_BYTES - (Bytes(AfterDot(s)) + 1) && stem == TrimEnd(Fit(BeforeDot(s), room), DotsAndSpaces)
    ensures TrimEnd(Shorten(s), DotsAndSpaces) == Cat(Snoc(stem, '.'), AfterDot(s))
  {
    SplitAtDot(s);
    TamePrefix(cls, BeforeDot(s), s);
    CutTame(cls, BeforeDot(s), room);
    CatLast(Snoc(stem, '.'), AfterDot(s));
    CatLast(Snoc(BeforeDot(s), '.'), AfterDot(s));
  }

  lemma {:induction false} ShortenCuts(cls: Policy, s: Str)
    requires s.Snoc? && Tame(cls, s) && !Trims(DotsAndSpaces, s.last)
    ensures CutTo(TrimEnd(Shorten(s), DotsAndSpaces), s)
  {
    if Bytes(s) > MAX_NAME_BYTES {
      if HasExtension(s) {
        var room := MAX_NAME_BYTES - (Bytes(AfterDot(s)) + 1);
        CutIsLongest(BeforeDot(s), room);
        ShortenCutsStem(cls, s, TrimEnd(Fit(BeforeDot(s), room), DotsAndSpaces), room);
      } else {
        CutIsLongest(s, MAX_NAME_BYTES);
      }
    }
  }

  /** What is handed on of a name is cut to the cap, and no further. */
  lemma {:induction false} SanitizeCuts(cls: Policy, raw: Str)
    requires Usable(cls, LastSegment(raw))
    ensures CutTo(Sanitized(cls, raw), TrimEnd(Scanned(cls, LastSegment(raw)), DotsAndSpaces))
  {
    var cleaned := Scanned(cls, LastSegment(raw));
    LastSegmentPlain(raw);
    ScannedTame(cls, LastSegment(raw));
    FallbackIff(cls, raw);
    FinishSafe(cls, cleaned);
    TrimTame(cls, cleaned);
    TrimEndPrefix(cleaned, DotsAndSpaces);
    TamePrefix(cls, TrimEnd(cleaned, DotsAndSpaces), cleaned);
    ShortenCuts(cls, TrimEnd(cleaned, DotsAndSpaces));
  }

  /** A name read whole: the characters kept, trimmed, and cut to the cap. */
  lemma {:induction false} SanitizedIsWoven(cls: Policy, raw: Str)
    requires Usable(cls, LastSegment(raw)) && ReadPart(cls, LastSegment(raw)) == LastSegment(raw)
    ensures CutTo(Sanitized(cls, raw), TrimEnd(WovenName(cls, LastSegment(raw)), DotsAndSpaces))
  {
    LastSegmentPlain(raw);
    CleanIsWoven(cls, LastSegment(raw));
    SanitizeCuts(cls, raw);
  }

  /**
   * A name too long to be read whole that has an extension: the longest stem of the characters kept of all of it, and
   * the extension.
   */
  lemma {:induction false} LongSanitizedIsWoven(cls: Policy, raw: Str, e: Str)
    requires ReadPart(cls, LastSegment(raw)) != LastSegment(raw) && HasExtension(LastSegment(raw))
    requires e == SanitizedExtension(cls, AfterDot(LastSegment(raw))) && e.Snoc?
    ensures exists stem :: LongestStem(stem, WovenName(cls, LastSegment(raw)), MAX_NAME_BYTES - (Bytes(e) + 1))
              && Sanitized(cls, raw) == Cat(Snoc(stem, '.'), e)
  {
    var last := LastSegment(raw);
    var part := ReadPart(cls, last);
    var cleaned, full := Clean(cls, part), WovenName(cls, last);
    var room := MAX_NAME_BYTES - (Bytes(e) + 1);
    LastSegmentPlain(raw);
    ReadPartPrefix(cls, last);
    NoSeparatorPrefix(part, last);
    CleanIsWoven(cls, part);
    WovenGrows(cls, part, last);
    CutEarly(cleaned, full, room);
    CutIsLongest(full, room);
    UsableIfLong(cls, part, last);
    SanitizeCuts(cls, raw);
    SanitizedExtensionOrdinary(cls, last);
    OrdinaryNoDotNoSpace(cls, e);
    DotSplitUnique(cleaned, e);
    CatLen(Snoc(cleaned, '.'), e);
    CatLast(Snoc(cleaned, '.'), e);
    assert Has(e, e.last);
    assert TrimEnd(Scanned(cls, last), DotsAndSpaces) == Scanned(cls, last);
    var stem :| LongestStem(stem, cleaned, room) && Sanitized(cls, raw) == Cat(Snoc(stem, '.'), e);
    CutIsLongest(cleaned, room);
    LongestIsUnique(stem, TrimEnd(Fit(cleaned, room), DotsAndSpaces), cleaned, room);
  }

  lemma {:induction false} UsableIfLong(cls: Policy, part: Str, last: Str)
    requires NoSeparator(part) && Prefix(part, last) && Clean(cls, part).Snoc?
    ensures Usable(cls, last)
  {
    var pendingSpace, combining := WovenCleaning(cls, part);
    UsablePrefix(cls, part, last);
  }

  /** What of an extension is a filter: it keeps every base character, in its place, and no other. */
  lemma {:induction false} KeepOnlyMeans(cls: Policy, a: Str, b: Str)
    ensures KeepOnly(cls, Cat(a, b)) == Cat(KeepOnly(cls, a), KeepOnly(cls, b))
    ensures (forall c :: Has(b, c) ==> cls(c) == Keep) ==> KeepOnly(cls, b) == b
    ensures (forall c :: Has(b, c) ==> cls(c) != Keep) ==> KeepOnly(cls, b) == Nil
  {
    if b.Snoc? {
      KeepOnlyMeans(cls, a, b.init);
      assert Has(b, b.last);
      assert forall c :: Has(b.init, c) ==> Has(b, c);
    }
  }

  /** The extension put back on a long name: the longest beginning of what is kept of it that is within the limit. */
  lemma {:induction false} SanitizedExtensionMeans(cls: Policy, ext: Str, p: Str)
    requires Prefix(p, KeepOnly(cls, ext))
    ensures var e := SanitizedExtension(cls, ext);
      && Prefix(e, KeepOnly(cls, ext)) && Bytes(e) <= MAX_EXTENSION_BYTES
      && (Bytes(p) <= MAX_EXTENSION_BYTES ==> Prefix(p, e))
  {
    var k := KeepOnly(cls, ext);
    var f := First(k, MAX_EXTENSION_BYTES);
    FirstPrefix(k, MAX_EXTENSION_BYTES);
    FitPrefix(f, MAX_EXTENSION_BYTES);
    PrefixTrans(SanitizedExtension(cls, ext), f, k);
    if Bytes(p) <= MAX_EXTENSION_BYTES {
      ShortPrefix(p, k, MAX_EXTENSION_BYTES);
      FitLongest(p, f, MAX_EXTENSION_BYTES);
    }
  }

  lemma {:induction false} ShortPrefix(p: Str, s: Str, n: nat)
    requires Prefix(p, s) && Len(p) <= n
    ensures Prefix(p, First(s, n))
  {
    if p != s && Len(s) > n {
      ShortPrefix(p, s.init, n);
    }
  }

  lemma {:induction false} DotSplitUnique(stem: Str, e: Str)
    requires !Has(e, '.')
    ensures var x := Cat(Snoc(stem, '.'), e);
      Has(x, '.') && BeforeDot(x) == stem && AfterDot(x) == e
  {
    if e.Snoc? {
      DotSplitUnique(stem, e.init);
    }
  }

  /** Shortening keeps the extension. */
  lemma {:induction false} ShortenKeepsExtension(cls: Policy, s: Str)
    requires s.Snoc? && Tame(cls, s) && !Trims(DotsAndSpaces, s.last) && HasExtension(s)
    ensures Extension(TrimEnd(Shorten(s), DotsAndSpaces)) == Extension(s)
  {
    var e := AfterDot(s);
    SplitAtDot(s);
    TamePrefix(cls, BeforeDot(s), s);
    CutTame(cls, BeforeDot(s), MAX_NAME_BYTES - (Bytes(e) + 1));
    var stem := TrimEnd(Fit(BeforeDot(s), MAX_NAME_BYTES - (Bytes(e) + 1)), DotsAndSpaces);
    DotSplitUnique(stem, e);
    CatLast(Snoc(stem, '.'), e);
    CatLast(Snoc(BeforeDot(s), '.'), e);
  }

  lemma {:induction false} OrdinaryNoDotNoSpace(cls: Policy, e: Str)
    requires Ordinary(cls, e)
    ensures !Has(e, '.') && !Has(e, ' ')
  {
    if e.Snoc? {
      OrdinaryNoDotNoSpace(cls, e.init);
    }
  }

  lemma {:induction false} FinishKeepsExtension(cls: Policy, y: Str)
    requires Tame(cls, y)
    ensures var x := TrimEnd(y, DotsAndSpaces);
      HasExtension(x) ==> Extension(Finish(y)) == Extension(x)
  {
    var x := TrimEnd(y, DotsAndSpaces);
    FinishSafe(cls, y);
    if HasExtension(x) {
      TrimEndPrefix(y, DotsAndSpaces);
      TamePrefix(cls, x, y);
      ShortenKeepsExtension(cls, x);
    }
  }

  /** A name read whole keeps the extension its clean form has. */
  lemma {:induction false} SanitizeKeepsExtension(cls: Policy, raw: Str)
    requires ReadPart(cls, LastSegment(raw)) == LastSegment(raw)
    requires HasExtension(TrimEnd(Clean(cls, LastSegment(raw)), DotsAndSpaces))
    ensures Extension(Sanitized(cls, raw)) == Extension(TrimEnd(Clean(cls, LastSegment(raw)), DotsAndSpaces))
  {
    LastSegmentPlain(raw);
    ScannedTame(cls, LastSegment(raw));
    FinishKeepsExtension(cls, Scanned(cls, LastSegment(raw)));
  }

  /** A name too long to be read whole loses its middle, not its extension. */
  lemma {:induction false} LongNamesKeepTheirExtension(cls: Policy, raw: Str, e: Str)
    requires ReadPart(cls, LastSegment(raw)) != LastSegment(raw) && HasExtension(LastSegment(raw))
    requires e == SanitizedExtension(cls, AfterDot(LastSegment(raw))) && e.Snoc?
    ensures Extension(Sanitized(cls, raw)) == Some(e)
  {
    var last := LastSegment(raw);
    var cleaned := Clean(cls, ReadPart(cls, last));
    LastSegmentPlain(raw);
    ScannedTame(cls, last);
    ReadPartPrefix(cls, last);
    SanitizedExtensionOrdinary(cls, last);
    OrdinaryNoDotNoSpace(cls, e);
    DotSplitUnique(cleaned, e);
    CatLast(Snoc(cleaned, '.'), e);
    assert Has(e, e.last);
    FinishKeepsExtension(cls, Cat(Snoc(cleaned, '.'), e));
  }

  // ---------------------------------------------------------------- the normal form in plain terms

  lemma {:induction false} TameUpto(cls: Policy, s: string, i: nat, n: nat)
    requires i <= n <= |s| && Tame(cls, Upto(s, n))
    ensures Tame(cls, Upto(s, i))
  {
    if i < n {
      TameUpto(cls, s, i, n - 1);
    }
  }

  predicate OnlyMarks(cls: Policy, s: string) {
    forall k :: 0 <= k < |s| ==> cls(s[k]) == Combining
  }

  lemma {:induction false} MarkRunBounds(cls: Policy, s: string, i: nat, n: nat)
    requires i <= n <= |s| && Tame(cls, Upto(s, n)) && forall k :: i <= k < n ==> cls(s[k]) == Combining
    ensures n - i <= MarkRun(cls, Upto(s, n)) <= MAX_COMBINING_RUN
  {
    if i < n {
      MarkRunBounds(cls, s, i, n - 1);
    } else {
      TameMarkRun(cls, Upto(s, n));
    }
  }

  lemma {:induction false} TameMarkRun(cls: Policy, s: Str)
    requires Tame(cls, s)
    ensures MarkRun(cls, s) <= MAX_COMBINING_RUN
  {
    if s.Snoc? {
      TameMarkRun(cls, s.init);
    }
  }

  /** S1, as a file system or a reader sees it. */
  lemma {:induction false} SafeMeans(cls: Policy, s: string)
    requires SafeName(cls, Of(s))
    ensures s != [] && s[0] != '.' && s[0] != ' ' && s[|s| - 1] != '.' && s[|s| - 1] != ' '
    ensures forall i :: 0 <= i < |s| ==> !Separator(s[i]) && !Forbidden(cls, s[i])
    ensures forall i :: 0 <= i < |s| && cls(s[i]) == Combining ==> i > 0 && s[i - 1] != '.' && s[i - 1] != ' '
    ensures forall i, j :: 0 <= i <= j <= |s| && OnlyMarks(cls, s[i..j]) ==> j - i <= MAX_COMBINING_RUN
  {
    assert Upto(s, 0).Nil?;
    forall i | 0 <= i < |s|
      ensures !Separator(s[i]) && !Forbidden(cls, s[i]) && (i == 0 ==> s[i] != '.' && s[i] != ' ')
    {
      TameUpto(cls, s, i + 1, |s|);
    }
    forall i | 0 <= i < |s| && cls(s[i]) == Combining
      ensures i > 0 && s[i - 1] != '.' && s[i - 1] != ' '
    {
      TameUpto(cls, s, i + 1, |s|);
      assert i > 0 ==> Upto(s, i).last == s[i - 1];
    }
    forall i, j | 0 <= i <= j <= |s| && OnlyMarks(cls, s[i..j])
      ensures j - i <= MAX_COMBINING_RUN
    {
      assert forall k :: i <= k < j ==> s[i..j][k - i] == s[k];
      TameUpto(cls, s, j, |s|);
      MarkRunBounds(cls, s, i, j);
    }
  }
}
