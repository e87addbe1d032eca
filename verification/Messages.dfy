/**
 * The other sanitiser of `text.rs`: `message`, for multi-line text. Its one pass folds `\r\n`, drops
 * what is dropped, limits marks, aligns spaces, limits blank lines and stops at a byte count; here it
 * is proved equal to those passes applied one after the other.
 */
module Messages {
  import opened Limits
  import opened Chars
  import opened Strings
  import opened Text

  // ---------------------------------------------------------------- the passes

  predicate AfterCr(s: Str) {
    s.Snoc? && s.last == '\r'
  }

  /** One `\n` per line break (`\r\n` being one), one `' '` per space, and nothing that is dropped. */
  function Plain(cls: Policy, s: Str): Str {
    match s
    case Nil => Nil
    case Snoc(init, c) =>
      if c == '\n' && AfterCr(init) then Plain(cls, init)
      else
        match cls(c)
        case Drop => Plain(cls, init)
        case Space => Snoc(Plain(cls, init), ' ')
        case Newline => Snoc(Plain(cls, init), '\n')
        case Keep => Snoc(Plain(cls, init), c)
        case Combining => Snoc(Plain(cls, init), c)
  }

  /** The current line has a base character. */
  predicate OpenLine(cls: Policy, s: Str) {
    s.Snoc? && (cls(s.last) == Keep || (s.last != '\n' && OpenLine(cls, s.init)))
  }

  /** Drops each mark without a base on its own line, and each beyond the third on one base. */
  function LimitLineMarks(cls: Policy, s: Str): Str {
    match s
    case Nil => Nil
    case Snoc(init, c) =>
      var t := LimitLineMarks(cls, init);
      if cls(c) == Combining && !(OpenLine(cls, t) && MarksAtEnd(cls, t) < MAX_COMBINING_RUN) then t
      else Snoc(t, c)
  }

  /** No space at either edge of a line, and never two in a row. */
  function Align(s: Str): Str {
    match s
    case Nil => Nil
    case Snoc(init, c) =>
      var a := Align(init);
      if c == '\n' then Snoc(TrimEnd(a, Spaces), '\n')
      else if c == ' ' && (a.Nil? || a.last == ' ' || a.last == '\n') then a
      else Snoc(a, c)
  }

  function NewlinesAtEnd(s: Str): nat {
    if s.Snoc? && s.last == '\n' then NewlinesAtEnd(s.init) + 1 else 0
  }

  /** No line break at the start, and never more than three in a row: two empty lines at most. */
  function Gaps(s: Str): Str {
    match s
    case Nil => Nil
    case Snoc(init, c) =>
      var g := Gaps(init);
      if c == '\n' && (g.Nil? || NewlinesAtEnd(g) >= 3) then g else Snoc(g, c)
  }

  /** The whole message, of whatever length. */
  function Body(cls: Policy, s: Str): Str {
    Gaps(TrimEnd(Align(LimitLineMarks(cls, Plain(cls, s))), Spaces))
  }

  function Messaged(cls: Policy, raw: Str): Str {
    TrimEnd(Fit(Body(cls, raw), MAX_MESSAGE_BYTES), WhiteSpace)
  }

  // ---------------------------------------------------------------- the normal form

  predicate MayFollowInMessage(cls: Policy, p: Str, c: char) {
    match cls(c)
    case Keep => true
    case Combining => OpenLine(cls, p) && MarksAtEnd(cls, p) < MAX_COMBINING_RUN
    case Space => c == ' ' && p.Snoc? && p.last != ' ' && p.last != '\n'
    case Newline => c == '\n' && p.Snoc? && p.last != ' ' && NewlinesAtEnd(p) < 3
    case Drop => false
  }

  predicate Neat(cls: Policy, s: Str) {
    s.Nil? || (Neat(cls, s.init) && MayFollowInMessage(cls, s.init, s.last))
  }

  predicate MessageForm(cls: Policy, s: Str) {
    Neat(cls, s) && (s.Snoc? ==> s.last != ' ' && s.last != '\n') && Bytes(s) <= MAX_MESSAGE_BYTES
  }

  // ---------------------------------------------------------------- the one-pass automaton

  /** The automaton's registers. */
  datatype Scan = Scan(out: Str, pendingSpace: bool, combining: nat, newlines: nat)

  /** The registers after reading `s`. What is out so far is already in normal form. */
  ghost predicate Tracking(cls: Policy, s: Str, st: Scan) {
    var t := LimitLineMarks(cls, Plain(cls, s));
    var a := Align(t);
    var a0 := TrimEnd(a, Spaces);
    && a == (if st.pendingSpace && st.out.Snoc? && st.newlines == 0 then Snoc(a0, ' ') else a0)
    && Gaps(a0) == st.out
    && (a0.Nil? || a0.last == '\n' <==> st.out.Nil? || st.newlines > 0)
    && st.newlines == NewlinesAtEnd(st.out)
    && Neat(cls, st.out)
    && (st.out.Snoc? ==> st.out.last != ' ')
    && (OpenLine(cls, t) <==> st.out.Snoc? && st.newlines == 0)
    && (OpenLine(cls, st.out) <==> st.out.Snoc? && st.newlines == 0)
    && (OpenLine(cls, t) ==> st.combining == MarksAtEnd(cls, t) && st.combining == MarksAtEnd(cls, st.out))
  }

  /** The space that is written before a shown character, if one is owed. */
  function SpacedInLine(out: Str, pendingSpace: bool): Str {
    if pendingSpace && out.Snoc? && out.last != '\n' then Snoc(out, ' ') else out
  }

  /** What reading `c`, right after a carriage return or not, does to the registers while there is room. */
  function Next(cls: Policy, afterCr: bool, st: Scan, c: char): Scan {
    if afterCr && c == '\n' then st
    else
      match cls(c)
      case Drop => st
      case Space => st.(pendingSpace := true)
      case Newline =>
        if st.out.Nil? || st.newlines >= 3 then st.(pendingSpace := false)
        else Scan(Snoc(st.out, '\n'), false, 0, st.newlines + 1)
      case Combining =>
        if st.out.Nil? || st.combining >= MAX_COMBINING_RUN || st.newlines > 0 then st
        else Scan(Snoc(SpacedInLine(st.out, st.pendingSpace), c), false, st.combining + 1, 0)
      case Keep => Scan(Snoc(SpacedInLine(st.out, st.pendingSpace), c), false, 0, 0)
  }

  lemma {:induction false} TrackSpace(cls: Policy, s: Str, c: char, st: Scan)
    requires Tracking(cls, s, st) && cls(c) == Space
    ensures Tracking(cls, Snoc(s, c), st.(pendingSpace := true))
  {
    var a := Align(LimitLineMarks(cls, Plain(cls, s)));
    assert TrimEnd(Snoc(a, ' '), Spaces) == TrimEnd(a, Spaces);
  }

  lemma {:induction false} TrackNewline(cls: Policy, s: Str, c: char, st: Scan)
    requires Tracking(cls, s, st) && cls(c) == Newline && !(c == '\n' && AfterCr(s))
    ensures Tracking(cls, Snoc(s, c), Next(cls, AfterCr(s), st, c))
  {
    var a0 := TrimEnd(Align(LimitLineMarks(cls, Plain(cls, s))), Spaces);
    assert TrimEnd(Snoc(a0, '\n'), Spaces) == Snoc(a0, '\n');
  }

  lemma {:induction false} TrackShown(cls: Policy, s: Str, c: char, st: Scan)
    requires Tracking(cls, s, st) && (cls(c) == Keep || cls(c) == Combining)
    requires Next(cls, AfterCr(s), st, c) != st
    ensures Tracking(cls, Snoc(s, c), Next(cls, AfterCr(s), st, c))
  {
    var t := LimitLineMarks(cls, Plain(cls, s));
    var a := Align(t);
    assert TrimEnd(Snoc(a, c), Spaces) == Snoc(a, c);
    assert Gaps(a) == SpacedInLine(st.out, st.pendingSpace);
    SpacedNeat(cls, st.out, st.pendingSpace, c);
  }

  /** Writing the owed space and a shown character keeps the normal form. */
  lemma {:induction false} SpacedNeat(cls: Policy, out: Str, pendingSpace: bool, c: char)
    requires Neat(cls, out) && (out.Snoc? ==> out.last != ' ')
    requires cls(c) == Keep || (cls(c) == Combining && OpenLine(cls, out) && MarksAtEnd(cls, out) < MAX_COMBINING_RUN)
    ensures var x := Snoc(SpacedInLine(out, pendingSpace), c);
      && Neat(cls, x) && OpenLine(cls, x)
      && MarksAtEnd(cls, x) == if cls(c) == Keep then 0 else MarksAtEnd(cls, out) + 1
  {
    var spaced := SpacedInLine(out, pendingSpace);
    assert Neat(cls, spaced);
    assert OpenLine(cls, out) ==> OpenLine(cls, spaced);
    assert MarksAtEnd(cls, spaced) == MarksAtEnd(cls, out);
  }

  /** One more character read: the registers still say what the passes give. */
  lemma {:induction false} TrackNext(cls: Policy, s: Str, c: char, st: Scan)
    requires Tracking(cls, s, st)
    ensures Tracking(cls, Snoc(s, c), Next(cls, AfterCr(s), st, c))
    ensures Body(cls, Snoc(s, c)) == Next(cls, AfterCr(s), st, c).out
  {
    if c == '\n' && AfterCr(s) {
    } else if cls(c) == Space {
      TrackSpace(cls, s, c, st);
    } else if cls(c) == Newline {
      TrackNewline(cls, s, c, st);
    } else if Next(cls, AfterCr(s), st, c) != st {
      TrackShown(cls, s, c, st);
    }
  }

  // ---------------------------------------------------------------- the byte cap

  lemma {:induction false} GapsGrows(p: Str, s: Str)
    requires Prefix(p, s)
    ensures Prefix(Gaps(p), Gaps(s))
  {
    if p != s {
      GapsGrows(p, s.init);
    }
  }

  lemma {:induction false} BodyGrows(cls: Policy, s: string, i: nat, n: nat)
    requires i <= n <= |s|
    ensures Prefix(Body(cls, Upto(s, i)), Body(cls, Upto(s, n)))
  {
    if i < n {
      BodyGrows(cls, s, i, n - 1);
      var a := Align(LimitLineMarks(cls, Plain(cls, Upto(s, n - 1))));
      var a' := Align(LimitLineMarks(cls, Plain(cls, Upto(s, n))));
      TrimEndPrefix(a, Spaces);
      assert Prefix(TrimEnd(a, Spaces), TrimEnd(a', Spaces));
      GapsGrows(TrimEnd(a, Spaces), TrimEnd(a', Spaces));
      PrefixTrans(Body(cls, Upto(s, i)), Body(cls, Upto(s, n - 1)), Body(cls, Upto(s, n)));
    }
  }

  /** Once a character does not fit, nothing that follows changes what does. */
  lemma {:induction false} FullIsFinal(cls: Policy, raw: string, i: nat, out: Str)
    requires i <= |raw|
    requires Bytes(Body(cls, Upto(raw, i))) > MAX_MESSAGE_BYTES && Fit(Body(cls, Upto(raw, i)), MAX_MESSAGE_BYTES) == out
    ensures Fit(Body(cls, Of(raw)), MAX_MESSAGE_BYTES) == out
  {
    BodyGrows(cls, raw, i, |raw|);
    CutEarly(Body(cls, Upto(raw, i)), Body(cls, Of(raw)), MAX_MESSAGE_BYTES);
  }

  /** Appends the space that is owed, if any, and `piece`, as far as they fit. */
  method Push(out: Str, piece: char, pendingSpace: bool) returns (full: bool, r: Str)
    requires Bytes(out) <= MAX_MESSAGE_BYTES && (piece == '\n' ==> !pendingSpace)
    ensures r == Fit(Snoc(SpacedInLine(out, pendingSpace), piece), MAX_MESSAGE_BYTES)
    ensures full <==> Bytes(Snoc(SpacedInLine(out, pendingSpace), piece)) > MAX_MESSAGE_BYTES
  {
    assert Fit(out, MAX_MESSAGE_BYTES) == out;
    r := out;
    if piece != '\n' && pendingSpace && out.Snoc? && out.last != '\n' {
      if Bytes(out) + 1 > MAX_MESSAGE_BYTES {
        assert Fit(Snoc(out, ' '), MAX_MESSAGE_BYTES) == out;
        return true, out;
      }
      r := Snoc(out, ' ');
    }
    if Bytes(r) + Width(piece) > MAX_MESSAGE_BYTES {
      return true, r;
    }
    return false, Snoc(r, piece);
  }

  /** Rust's `trim_end`, then `truncate` to what is left. */
  method TrimWhite(s: Str) returns (r: Str)
    ensures r == TrimEnd(s, WhiteSpace)
  {
    r := s;
    while r.Snoc? && White(r.last)
      invariant TrimEnd(r, WhiteSpace) == TrimEnd(s, WhiteSpace)
      decreases r
    {
      r := r.init;
    }
  }

  /** One round of the loop: reads `c`, and says when the text is full. */
  method Read(cls: Policy, afterCr: bool, st: Scan, c: char) returns (st': Scan, full: bool)
    requires Bytes(st.out) <= MAX_MESSAGE_BYTES
    ensures full <==> Bytes(Next(cls, afterCr, st, c).out) > MAX_MESSAGE_BYTES
    ensures !full ==> st' == Next(cls, afterCr, st, c)
    ensures full ==> st'.out == Fit(Next(cls, afterCr, st, c).out, MAX_MESSAGE_BYTES)
  {
    var Scan(out, pendingSpace, combining, newlines) := st;
    var piece := c;
    if afterCr && c == '\n' {
      return st, false;
    }
    match cls(c) {
      case Drop =>
        return st, false;
      case Space =>
        return st.(pendingSpace := true), false;
      case Newline =>
        pendingSpace := false;
        if out.Nil? || newlines >= 3 {
          return st.(pendingSpace := false), false;
        }
        newlines, combining, piece := newlines + 1, 0, '\n';
      case Combining =>
        if out.Nil? || combining >= MAX_COMBINING_RUN || newlines > 0 {
          return st, false;
        }
        combining, newlines := combining + 1, 0;
      case Keep =>
        combining, newlines := 0, 0;
    }
    full, out := Push(out, piece, pendingSpace);
    st' := Scan(out, false, combining, newlines);
  }

  /** How the loop stands after `i` characters: on its way, or full for good. */
  ghost predicate Scanning(cls: Policy, raw: string, i: nat, st: Scan, full: bool)
    requires i <= |raw|
  {
    && Bytes(st.out) <= MAX_MESSAGE_BYTES
    && (if full then Fit(Body(cls, Of(raw)), MAX_MESSAGE_BYTES) == st.out
        else Tracking(cls, Upto(raw, i), st) && Body(cls, Upto(raw, i)) == st.out)
  }

  lemma {:induction false} RoundKeeps(cls: Policy, raw: string, i: nat, st: Scan, st': Scan, full: bool)
    requires i < |raw| && Scanning(cls, raw, i, st, false)
    requires var next := Next(cls, AfterCr(Upto(raw, i)), st, raw[i]);
      && (full <==> Bytes(next.out) > MAX_MESSAGE_BYTES)
      && (if full then st'.out == Fit(next.out, MAX_MESSAGE_BYTES) else st' == next)
    ensures Scanning(cls, raw, i + 1, st', full)
  {
    assert Upto(raw, i + 1) == Snoc(Upto(raw, i), raw[i]);
    TrackNext(cls, Upto(raw, i), raw[i], st);
    if full {
      FullIsFinal(cls, raw, i + 1, st'.out);
    }
  }

  /** The one-pass `message`, with its early exits, computes the composition of the passes. */
  method Message(cls: Policy, raw: string) returns (r: string)
    ensures Of(r) == Messaged(cls, Of(raw))
  {
    var st := Scan(Nil, false, 0, 0);
    var prevCr, full := false, false;
    var i := 0;
    while i < |raw| && !full
      invariant 0 <= i <= |raw|
      invariant prevCr <==> AfterCr(Upto(raw, i))
      invariant Scanning(cls, raw, i, st, full)
      decreases |raw| - i
    {
      ghost var before := st;
      st, full := Read(cls, prevCr, st, raw[i]);
      RoundKeeps(cls, raw, i, before, st, full);
      prevCr := raw[i] == '\r';
      i := i + 1;
    }
    var out := TrimWhite(st.out);
    OfAsString(out);
    r := AsString(out);
  }

  // ---------------------------------------------------------------- what `message` promises

  /** The passes turn any text into one the automaton could be holding, so into the normal form. */
  lemma {:induction false} BodyNeat(cls: Policy, s: Str) returns (st: Scan)
    ensures Tracking(cls, s, st) && st.out == Body(cls, s)
  {
    if s.Nil? {
      st := Scan(Nil, false, 0, 0);
    } else {
      st := BodyNeat(cls, s.init);
      TrackNext(cls, s.init, s.last, st);
      st := Next(cls, AfterCr(s.init), st, s.last);
    }
  }

  lemma {:induction false} NeatPrefix(cls: Policy, p: Str, s: Str)
    requires Prefix(p, s) && Neat(cls, s)
    ensures Neat(cls, p)
  {
    if p != s {
      NeatPrefix(cls, p, s.init);
    }
  }

  /** Every result of `message` is in normal form, even when the cap cuts after a space or inside a gap. */
  lemma {:induction false} MessagedHasForm(cls: Policy, raw: Str)
    ensures MessageForm(cls, Messaged(cls, raw))
  {
    var st := BodyNeat(cls, raw);
    var fit := Fit(Body(cls, raw), MAX_MESSAGE_BYTES);
    FitPrefix(Body(cls, raw), MAX_MESSAGE_BYTES);
    TrimEndPrefix(fit, WhiteSpace);
    PrefixShorter(Messaged(cls, raw), fit);
    PrefixTrans(Messaged(cls, raw), fit, Body(cls, raw));
    NeatPrefix(cls, Messaged(cls, raw), Body(cls, raw));
  }

  /** Every pass leaves a text in normal form as it is. */
  lemma {:induction false} NeatFixed(cls: Policy, s: Str)
    requires Neat(cls, s)
    ensures Plain(cls, s) == s && LimitLineMarks(cls, s) == s && Align(s) == s && Gaps(s) == s
    ensures !AfterCr(s)
  {
    if s.Snoc? {
      NeatFixed(cls, s.init);
    }
  }

  /** A text in normal form is passed on as it is, and no other text is. */
  lemma {:induction false} MessageFixesNormalForm(cls: Policy, s: Str)
    ensures MessageForm(cls, s) <==> Messaged(cls, s) == s
  {
    MessagedHasForm(cls, s);
    if MessageForm(cls, s) {
      NeatFixed(cls, s);
      assert s.Snoc? ==> !White(s.last);
    }
  }

  lemma {:induction false} MessageIdempotent(cls: Policy, raw: Str)
    ensures Messaged(cls, Messaged(cls, raw)) == Messaged(cls, raw)
  {
    MessagedHasForm(cls, raw);
    MessageFixesNormalForm(cls, Messaged(cls, raw));
  }

  // ---------------------------------------------------------------- the normal form in plain terms

  predicate OnlyBreaks(s: string) {
    forall k :: 0 <= k < |s| ==> s[k] == '\n'
  }

  lemma {:induction false} NeatUpto(cls: Policy, s: string, i: nat, n: nat)
    requires i <= n <= |s| && Neat(cls, Upto(s, n))
    ensures Neat(cls, Upto(s, i))
  {
    if i < n {
      NeatUpto(cls, s, i, n - 1);
    }
  }

  lemma {:induction false} BreakRun(cls: Policy, s: string, i: nat, n: nat)
    requires i <= n <= |s| && Neat(cls, Upto(s, n)) && forall k :: i <= k < n ==> s[k] == '\n'
    ensures n - i <= NewlinesAtEnd(Upto(s, n)) <= 3
  {
    if i < n {
      BreakRun(cls, s, i, n - 1);
    } else {
      NeatNewlines(cls, Upto(s, n));
    }
  }

  lemma {:induction false} NeatNewlines(cls: Policy, s: Str)
    requires Neat(cls, s)
    ensures NewlinesAtEnd(s) <= 3
  {
    if s.Snoc? {
      NeatNewlines(cls, s.init);
    }
  }

  lemma {:induction false} MarksInMessage(cls: Policy, s: string, i: nat, n: nat)
    requires i <= n <= |s| && Neat(cls, Upto(s, n)) && forall k :: i <= k < n ==> cls(s[k]) != Keep
    ensures MarkCount(cls, s[i..n]) <= MarksAtEnd(cls, Upto(s, n)) <= MAX_COMBINING_RUN
  {
    if i < n {
      MarksInMessage(cls, s, i, n - 1);
      assert s[i..n][..n - 1 - i] == s[i..n - 1];
    } else {
      NeatMarks(cls, Upto(s, n));
    }
  }

  lemma {:induction false} NeatMarks(cls: Policy, s: Str)
    requires Neat(cls, s)
    ensures MarksAtEnd(cls, s) <= MAX_COMBINING_RUN
  {
    if s.Snoc? {
      NeatMarks(cls, s.init);
    }
  }

  /** What a reader of a message can rely on. */
  lemma {:induction false} NeatMeans(cls: Policy, s: string)
    requires Neat(cls, Of(s))
    ensures forall i :: 0 <= i < |s| ==> !ForbiddenInMessage(cls, s[i])
    ensures s != [] ==> cls(s[0]) == Keep
    ensures forall i :: 0 <= i < |s| - 1 && s[i] == ' ' ==> s[i + 1] != ' ' && s[i + 1] != '\n'
    ensures forall i :: 0 <= i < |s| - 1 && s[i] == '\n' ==> s[i + 1] == '\n' || cls(s[i + 1]) == Keep
    ensures forall i, j :: 0 <= i <= j <= |s| && OnlyBreaks(s[i..j]) ==> j - i <= 3
    ensures forall i, j :: 0 <= i <= j <= |s| && (forall k :: i <= k < j ==> cls(s[k]) != Keep) ==>
                             MarkCount(cls, s[i..j]) <= MAX_COMBINING_RUN
  {
    forall i, j | 0 <= i <= j <= |s| && (forall k :: i <= k < j ==> cls(s[k]) != Keep)
      ensures MarkCount(cls, s[i..j]) <= MAX_COMBINING_RUN
    {
      NeatUpto(cls, s, j, |s|);
      MarksInMessage(cls, s, i, j);
    }
    forall i | 0 <= i < |s|
      ensures !ForbiddenInMessage(cls, s[i])
      ensures i == 0 ==> cls(s[i]) == Keep
      ensures i < |s| - 1 && s[i] == ' ' ==> s[i + 1] != ' ' && s[i + 1] != '\n'
      ensures i < |s| - 1 && s[i] == '\n' ==> s[i + 1] == '\n' || cls(s[i + 1]) == Keep
    {
      NeatUpto(cls, s, i + 1, |s|);
      assert Upto(s, 0).Nil?;
      if i < |s| - 1 {
        NeatUpto(cls, s, i + 2, |s|);
      }
    }
    forall i, j | 0 <= i <= j <= |s| && OnlyBreaks(s[i..j])
      ensures j - i <= 3
    {
      assert forall k :: i <= k < j ==> s[i..j][k - i] == s[k];
      NeatUpto(cls, s, j, |s|);
      BreakRun(cls, s, i, j);
    }
  }

  // ---------------------------------------------------------------- what is kept of a message

  /** There is a base character since the last line break. */
  predicate BaseOnLine(cls: Policy, s: Str) {
    s.Snoc? && (cls(s.last) == Keep || (cls(s.last) != Newline && BaseOnLine(cls, s.init)))
  }

  /** A message keeps each base character, and the first three marks after one on its own line. */
  predicate KeptInMessage(cls: Policy, before: Str, c: char) {
    cls(c) == Keep || (cls(c) == Combining && BaseOnLine(cls, before) && MarksAtEnd(cls, before) < MAX_COMBINING_RUN)
  }

  /** A line break, `\r\n` being one. */
  predicate Breaks(cls: Policy, before: Str, c: char) {
    cls(c) == Newline && !(c == '\n' && AfterCr(before))
  }

  /** How many line breaks follow the last character of `s` that is kept. */
  function BreaksSince(cls: Policy, s: Str): nat {
    if s.Nil? || KeptInMessage(cls, s.init, s.last) then 0
    else BreaksSince(cls, s.init) + if Breaks(cls, s.init, s.last) then 1 else 0
  }

  /** After the last character of `s` that is kept comes a space. */
  predicate SpaceSince(cls: Policy, s: Str) {
    s.Snoc? && !KeptInMessage(cls, s.init, s.last) && (cls(s.last) == Space || SpaceSince(cls, s.init))
  }

  function Newlines(n: nat): Str {
    if n == 0 then Nil else Snoc(Newlines(n - 1), '\n')
  }

  function AtMostThree(n: nat): nat {
    if n < 3 then n else 3
  }

  /** What comes between the last character of `s` that is kept and the next: its line breaks, three at most, else a space if it has one. */
  function Joint(cls: Policy, s: Str): Str {
    if BreaksSince(cls, s) > 0 then Newlines(AtMostThree(BreaksSince(cls, s)))
    else if SpaceSince(cls, s) then Snoc(Nil, ' ')
    else Nil
  }

  /** The characters kept, with what comes between them. */
  function WovenMessage(cls: Policy, s: Str): Str {
    match s
    case Nil => Nil
    case Snoc(init, c) =>
      var w := WovenMessage(cls, init);
      if !KeptInMessage(cls, init, c) then w
      else Snoc(if w.Nil? then w else Cat(w, Joint(cls, init)), c)
  }

  /** The registers after the whole of `s`, with all the room there is. */
  function Registers(cls: Policy, s: Str): Scan {
    match s
    case Nil => Scan(Nil, false, 0, 0)
    case Snoc(init, c) => Next(cls, AfterCr(init), Registers(cls, init), c)
  }

  lemma {:induction false} RegistersTrack(cls: Policy, s: Str)
    ensures Tracking(cls, s, Registers(cls, s)) && Body(cls, s) == Registers(cls, s).out
  {
    if s.Snoc? {
      RegistersTrack(cls, s.init);
      TrackNext(cls, s.init, s.last, Registers(cls, s.init));
    }
  }

  /** What the registers hold, in terms of the text that was read. */
  ghost predicate Holds(cls: Policy, s: Str, st: Scan) {
    var w := WovenMessage(cls, s);
    && st.newlines == (if w.Nil? then 0 else AtMostThree(BreaksSince(cls, s)))
    && st.out == Cat(w, Newlines(st.newlines))
    && (w.Snoc? ==> w.last != '\n' && w.last != ' ' && !White(w.last))
    && (BaseOnLine(cls, s) <==> w.Snoc? && BreaksSince(cls, s) == 0)
    && (BaseOnLine(cls, s) ==> st.combining == AtMostThree(MarksAtEnd(cls, s)) && (st.pendingSpace <==> SpaceSince(cls, s)))
  }

  lemma {:induction false} HoldsNext(cls: Policy, s: Str, c: char, st: Scan)
    requires Holds(cls, s, st) && (AfterCr(s) ==> !BaseOnLine(cls, s))
    ensures Holds(cls, Snoc(s, c), Next(cls, AfterCr(s), st, c))
  {
    var w := WovenMessage(cls, s);
    assert Newlines(1) == Snoc(Newlines(0), '\n');
    if st.newlines > 0 {
      assert st.out.last == '\n';
    }
  }

  lemma {:induction false} RegistersHold(cls: Policy, s: Str)
    ensures Holds(cls, s, Registers(cls, s))
  {
    if s.Snoc? {
      RegistersHold(cls, s.init);
      HoldsNext(cls, s.init, s.last, Registers(cls, s.init));
    }
  }

  lemma {:induction false} TrailingBreaks(w: Str, n: nat, max: nat)
    requires w.Snoc? ==> !White(w.last)
    ensures Prefix(w, Cat(w, Newlines(n)))
    ensures Bytes(w) <= max ==> TrimEnd(Fit(Cat(w, Newlines(n)), max), WhiteSpace) == w
  {
    if n > 0 {
      TrailingBreaks(w, n - 1, max);
      if Bytes(Cat(w, Newlines(n))) <= max {
        TrailingBreaksTrim(w, n);
      }
    }
  }

  lemma {:induction false} TrailingBreaksTrim(w: Str, n: nat)
    requires w.Snoc? ==> !White(w.last)
    ensures TrimEnd(Cat(w, Newlines(n)), WhiteSpace) == w
  {
    if n > 0 {
      TrailingBreaksTrim(w, n - 1);
    }
  }

  /**
   * A message is the characters kept of the text, with what comes between them, cut to the byte count and trimmed:
   * nothing else is lost, moved or added.
   */
  lemma {:induction false} MessageIsWoven(cls: Policy, raw: Str)
    ensures Messaged(cls, raw) == TrimEnd(Fit(WovenMessage(cls, raw), MAX_MESSAGE_BYTES), WhiteSpace)
    ensures Bytes(WovenMessage(cls, raw)) <= MAX_MESSAGE_BYTES ==> Messaged(cls, raw) == WovenMessage(cls, raw)
  {
    var w, st := WovenMessage(cls, raw), Registers(cls, raw);
    RegistersTrack(cls, raw);
    RegistersHold(cls, raw);
    TrailingBreaks(w, st.newlines, MAX_MESSAGE_BYTES);
    if Bytes(w) <= MAX_MESSAGE_BYTES {
      TrailingBreaksTrim(w, 0);
    } else {
      CutEarly(w, st.out, MAX_MESSAGE_BYTES);
    }
  }

  /**
   * In plain terms: between two neighbours of those kept there are line breaks exactly when the text has one there,
   * and there is a space after the first of them exactly when the text has one.
   */
  lemma {:induction false} JointMeans(cls: Policy, s: string, i: nat, j: nat)
    requires i < j <= |s| && KeptInMessage(cls, Upto(s, i), s[i])
    requires forall k :: i < k < j ==> !KeptInMessage(cls, Upto(s, k), s[k])
    ensures BreaksSince(cls, Upto(s, j)) > 0 <==> exists k :: i < k < j && cls(s[k]) == Newline
    ensures SpaceSince(cls, Upto(s, j)) <==> exists k :: i < k < j && cls(s[k]) == Space
  {
    assert Upto(s, j) == Snoc(Upto(s, j - 1), s[j - 1]);
    if i < j - 1 {
      JointMeans(cls, s, i, j - 1);
      assert !KeptInMessage(cls, Upto(s, j - 1), s[j - 1]);
      if s[j - 1] == '\n' && AfterCr(Upto(s, j - 1)) {
        assert s[j - 2] == '\r';
      }
    }
  }
}
