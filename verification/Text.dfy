/**
 * `text.rs`, one line of display text. `display` is a one-pass automaton with a length cap. It is
 * proved equal to a composition of simple passes over the whole text, and what the module promises
 * (idempotence, what the result can contain) is proved of that composition.
 */
module Text {
  import opened Limits
  import opened Chars
  import opened Strings

  // ---------------------------------------------------------------- the passes of a line

  /** Drops what is dropped, and turns every space and line break into an ordinary space. */
  function Visible(cls: Policy, s: Str): Str {
    match s
    case Nil => Nil
    case Snoc(init, c) =>
      match cls(c)
      case Drop => Visible(cls, init)
      case Space => Snoc(Visible(cls, init), ' ')
      case Newline => Snoc(Visible(cls, init), ' ')
      case Keep => Snoc(Visible(cls, init), c)
      case Combining => Snoc(Visible(cls, init), c)
  }

  predicate HasBase(cls: Policy, s: Str) {
    s.Snoc? && (cls(s.last) == Keep || HasBase(cls, s.init))
  }

  /** How many marks follow the last base character. */
  function MarksAtEnd(cls: Policy, s: Str): nat {
    if s.Nil? || cls(s.last) == Keep then 0
    else MarksAtEnd(cls, s.init) + if cls(s.last) == Combining then 1 else 0
  }

  /** Drops each mark without a base, and each beyond the third on one base. */
  function LimitMarks(cls: Policy, s: Str): Str {
    match s
    case Nil => Nil
    case Snoc(init, c) =>
      var t := LimitMarks(cls, init);
      if cls(c) == Combining && (!HasBase(cls, t) || MarksAtEnd(cls, t) >= MAX_COMBINING_RUN) then t
      else Snoc(t, c)
  }

  /** No space at the start, and never two in a row. */
  function Squeeze(s: Str): Str {
    match s
    case Nil => Nil
    case Snoc(init, c) =>
      var q := Squeeze(init);
      if c == ' ' && (q.Nil? || q.last == ' ') then q else Snoc(q, c)
  }

  /** The whole of `s` as one clean line, of whatever length. */
  function Line(cls: Policy, s: Str): Str {
    TrimEnd(Squeeze(LimitMarks(cls, Visible(cls, s))), Spaces)
  }

  /** A line cut to `max` characters, the ellipsis that says so included. */
  function Cap(x: Str, max: nat): Str
    requires max > 0
  {
    if Len(x) <= max then x else Snoc(TrimEnd(First(x, max - 1), Spaces), ELLIPSIS)
  }

  function Displayed(cls: Policy, raw: Str, max: nat): Str {
    if max == 0 then Nil else Cap(Line(cls, raw), max)
  }

  // ---------------------------------------------------------------- the one-pass automaton

  lemma {:induction false} LineGrows(cls: Policy, s: string, i: nat, n: nat)
    requires i <= n <= |s|
    ensures Prefix(Line(cls, Upto(s, i)), Line(cls, Upto(s, n)))
  {
    if i < n {
      LineGrows(cls, s, i, n - 1);
      var q := Squeeze(LimitMarks(cls, Visible(cls, Upto(s, n - 1))));
      var q' := Squeeze(LimitMarks(cls, Visible(cls, Upto(s, n))));
      assert q' == q || (q'.Snoc? && q'.init == q);
      if q' != q && q'.last != ' ' {
        TrimEndPrefix(q, Spaces);
      }
      PrefixTrans(Line(cls, Upto(s, i)), Line(cls, Upto(s, n - 1)), Line(cls, Upto(s, n)));
    }
  }

  /** The automaton's registers after reading `s`: what is shown, a space owed, and the marks on the last base. */
  ghost predicate Tracks(cls: Policy, s: Str, out: Str, pendingSpace: bool, combining: nat) {
    var t := LimitMarks(cls, Visible(cls, s));
    && (out.Snoc? ==> out.last != ' ')
    && Squeeze(t) == Spaced(out, pendingSpace)
    && (HasBase(cls, t) <==> out.Snoc?)
    && combining == MarksAtEnd(cls, t)
    && Line(cls, s) == out
  }

  /** The space that is written before a shown character, if one is owed. */
  function Spaced(out: Str, pendingSpace: bool): Str {
    if pendingSpace && out.Snoc? then Snoc(out, ' ') else out
  }

  /** Once the line has outgrown the cap, nothing that follows changes the result. */
  lemma {:induction false} CutIsFinal(cls: Policy, raw: string, i: nat, out: Str, max: nat)
    requires i <= |raw| && 0 < max && max - 1 <= Len(out) <= max < Len(Line(cls, Upto(raw, i)))
    requires Prefix(out, Line(cls, Upto(raw, i)))
    ensures Displayed(cls, Of(raw), max) == Snoc(TrimEnd(First(out, max - 1), Spaces), ELLIPSIS)
  {
    LineGrows(cls, raw, i, |raw|);
    PrefixShorter(Line(cls, Upto(raw, i)), Line(cls, Of(raw)));
    CutEarly(Line(cls, Upto(raw, i)), Line(cls, Of(raw)), max - 1);
    CutEarly(out, Line(cls, Upto(raw, i)), max - 1);
  }

  /** More to show than fits: makes room for the ellipsis and appends it. */
  method Elide(shown: Str, maxChars: nat) returns (out: Str)
    requires 0 < maxChars <= Len(shown) + 1
    ensures out == Snoc(TrimEnd(First(shown, maxChars - 1), Spaces), ELLIPSIS)
  {
    out := shown;
    while Len(out) >= maxChars
      invariant maxChars - 1 <= Len(out) && First(out, maxChars - 1) == First(shown, maxChars - 1)
      decreases Len(out)
    {
      out := out.init;
    }
    while out.Snoc? && out.last == ' '
      invariant TrimEnd(out, Spaces) == TrimEnd(First(shown, maxChars - 1), Spaces)
      decreases Len(out)
    {
      out := out.init;
    }
    out := Snoc(out, ELLIPSIS);
  }

  /** The one-pass `display`, with its early exit, computes the composition of the passes. */
  method Display(cls: Policy, raw: string, maxChars: nat) returns (r: string)
    ensures Of(r) == Displayed(cls, Of(raw), maxChars)
  {
    var out := Nil;
    if maxChars == 0 {
      return [];
    }
    var chars: nat := 0;
    var pendingSpace := false;
    var combining := 0;
    for i := 0 to |raw|
      invariant chars == Len(out) <= maxChars
      invariant Tracks(cls, Upto(raw, i), out, pendingSpace, combining)
    {
      var c := raw[i];
      assert Upto(raw, i + 1) == Snoc(Upto(raw, i), c);
      match cls(c) {
        case Drop => continue;
        case Space =>
          pendingSpace := true;
          continue;
        case Newline =>
          pendingSpace := true;
          continue;
        case Combining =>
          if out.Nil? || combining >= MAX_COMBINING_RUN {
            continue;
          }
          combining := combining + 1;
        case Keep =>
          combining := 0;
      }
      var needed := if pendingSpace && out.Snoc? then 2 else 1;
      if chars + needed > maxChars {
        CutIsFinal(cls, raw, i + 1, out, maxChars);
        out := Elide(out, maxChars);
        OfAsString(out);
        return AsString(out);
      }
      if pendingSpace && out.Snoc? {
        out := Snoc(out, ' ');
        chars := chars + 1;
      }
      pendingSpace := false;
      out := Snoc(out, c);
      chars := chars + 1;
    }
    OfAsString(out);
    return AsString(out);
  }

  // ---------------------------------------------------------------- the normal form of a line

  /** Whether `c` may come after `p` in a clean line. */
  predicate MayFollow(cls: Policy, p: Str, c: char) {
    match cls(c)
    case Keep => true
    case Combining => p.Snoc? && MarksAtEnd(cls, p) < MAX_COMBINING_RUN
    case Space => c == ' ' && p.Snoc? && p.last != ' '
    case Newline => false
    case Drop => false
  }

  predicate Tidy(cls: Policy, s: Str) {
    s.Nil? || (Tidy(cls, s.init) && MayFollow(cls, s.init, s.last))
  }

  /** The normal form of `display`. */
  predicate Displayable(cls: Policy, s: Str, max: nat) {
    Tidy(cls, s) && (s.Snoc? ==> s.last != ' ') && Len(s) <= max
  }

  lemma {:induction false} TidyPrefix(cls: Policy, p: Str, s: Str)
    requires Prefix(p, s) && Tidy(cls, s)
    ensures Tidy(cls, p)
  {
    if p != s {
      TidyPrefix(cls, p, s.init);
    }
  }

  /** Every pass leaves a clean line as it is. */
  lemma {:induction false} TidyFixed(cls: Policy, s: Str)
    requires Tidy(cls, s)
    ensures Visible(cls, s) == s && LimitMarks(cls, s) == s && Squeeze(s) == s
    ensures s.Snoc? ==> HasBase(cls, s)
  {
    if s.Snoc? {
      TidyFixed(cls, s.init);
    }
  }

  /** Whatever comes in, the passes leave a clean line. */
  lemma {:induction false} PassesTidy(cls: Policy, s: Str)
    ensures var t := LimitMarks(cls, Visible(cls, s));
      && Tidy(cls, Squeeze(t))
      && MarksAtEnd(cls, Squeeze(t)) == MarksAtEnd(cls, t)
      && (HasBase(cls, t) <==> Squeeze(t).Snoc?)
  {
    if s.Snoc? {
      PassesTidy(cls, s.init);
    }
  }

  /** A clean line ends with one space at most. */
  lemma {:induction false} TidyTrim(cls: Policy, s: Str)
    requires Tidy(cls, s)
    ensures TrimEnd(s, Spaces) == if s.Snoc? && s.last == ' ' then s.init else s
    ensures s.Snoc? ==> TrimEnd(s, Spaces).Snoc?
  {
    if s.Snoc? && s.last == ' ' {
      assert s.init.Snoc? && s.init.last != ' ';
    }
  }

  lemma {:induction false} LineTidy(cls: Policy, s: Str)
    ensures Tidy(cls, Line(cls, s))
  {
    var q := Squeeze(LimitMarks(cls, Visible(cls, s)));
    PassesTidy(cls, s);
    TrimEndPrefix(q, Spaces);
    TidyPrefix(cls, Line(cls, s), q);
  }

  // ---------------------------------------------------------------- what `display` promises

  /** Every result of `display` is in normal form, the cap included, even when the cap cuts after a space. */
  lemma {:induction false} DisplayedIsDisplayable(cls: Policy, raw: Str, max: nat)
    ensures Displayable(cls, Displayed(cls, raw, max), max)
  {
    var x := Line(cls, raw);
    LineTidy(cls, raw);
    if 0 < max < Len(x) {
      var cut := First(x, max - 1);
      FirstPrefix(x, max - 1);
      TrimEndPrefix(cut, Spaces);
      PrefixTrans(TrimEnd(cut, Spaces), cut, x);
      TidyPrefix(cls, TrimEnd(cut, Spaces), x);
      PrefixShorter(TrimEnd(cut, Spaces), cut);
    }
  }

  /** A text already in normal form is shown as it is, and no other text is. */
  lemma {:induction false} DisplayFixesNormalForm(cls: Policy, s: Str, max: nat)
    ensures Displayable(cls, s, max) <==> Displayed(cls, s, max) == s
  {
    DisplayedIsDisplayable(cls, s, max);
    if Displayable(cls, s, max) {
      TidyFixed(cls, s);
    }
  }

  lemma {:induction false} DisplayIdempotent(cls: Policy, raw: Str, max: nat)
    ensures Displayed(cls, Displayed(cls, raw, max), max) == Displayed(cls, raw, max)
  {
    DisplayedIsDisplayable(cls, raw, max);
    DisplayFixesNormalForm(cls, Displayed(cls, raw, max), max);
  }

  lemma {:induction false} BaseSurvives(cls: Policy, s: Str)
    ensures HasBase(cls, LimitMarks(cls, Visible(cls, s))) <==> HasBase(cls, s)
  {
    if s.Snoc? {
      BaseSurvives(cls, s.init);
    }
  }

  /** Nothing is shown only when there is nothing to show. */
  lemma {:induction false} DisplayEmptyIff(cls: Policy, raw: Str, max: nat)
    ensures Displayed(cls, raw, max).Nil? <==> max == 0 || !HasBase(cls, raw)
  {
    PassesTidy(cls, raw);
    BaseSurvives(cls, raw);
    TidyTrim(cls, Squeeze(LimitMarks(cls, Visible(cls, raw))));
  }

  /** The cap is the only thing `display` cuts at: a line that fits is shown whole, and a longer one fills the cap. */
  lemma {:induction false} DisplayCutsOnlyAtTheCap(cls: Policy, raw: Str, max: nat)
    requires max > 0
    ensures var x, r := Line(cls, raw), Displayed(cls, raw, max);
      && (Len(x) <= max ==> r == x)
      && (Len(x) > max ==> r.Snoc? && r.last == ELLIPSIS && Prefix(r.init, x) && max - 1 <= Len(r) <= max)
  {
    var x := Line(cls, raw);
    if Len(x) > max {
      var cut := First(x, max - 1);
      LineTidy(cls, raw);
      FirstPrefix(x, max - 1);
      TidyPrefix(cls, cut, x);
      TrimEndPrefix(cut, Spaces);
      PrefixTrans(TrimEnd(cut, Spaces), cut, x);
      TidyTrim(cls, cut);
    }
  }

  // ---------------------------------------------------------------- what is kept of a text

  /** A line keeps each base character, and the first three marks after one. */
  predicate KeptInLine(cls: Policy, before: Str, c: char) {
    cls(c) == Keep || (cls(c) == Combining && HasBase(cls, before) && MarksAtEnd(cls, before) < MAX_COMBINING_RUN)
  }

  predicate IsBlank(cls: Policy, c: char) {
    cls(c) == Space || cls(c) == Newline
  }

  /** After the last character of `s` that is kept comes a space or a line break. */
  predicate BlankSince(cls: Policy, s: Str) {
    s.Snoc? && !KeptInLine(cls, s.init, s.last) && (IsBlank(cls, s.last) || BlankSince(cls, s.init))
  }

  /** The characters kept, with one space between two neighbours that have a space or a line break between them. */
  function WovenLine(cls: Policy, s: Str): Str {
    match s
    case Nil => Nil
    case Snoc(init, c) =>
      var w := WovenLine(cls, init);
      if !KeptInLine(cls, init, c) then w
      else if w.Snoc? && BlankSince(cls, init) then Snoc(Snoc(w, ' '), c)
      else Snoc(w, c)
  }

  /** A line is just that: nothing else is lost, moved or added. */
  lemma {:induction false} LineIsWoven(cls: Policy, s: Str)
    ensures Line(cls, s) == WovenLine(cls, s)
  {
    WovenPasses(cls, s);
    var w := WovenLine(cls, s);
    assert TrimEnd(w, Spaces) == w;
  }

  lemma {:induction false} WovenPasses(cls: Policy, s: Str)
    ensures var t, w := LimitMarks(cls, Visible(cls, s)), WovenLine(cls, s);
      && Squeeze(t) == Spaced(w, BlankSince(cls, s))
      && (w.Snoc? ==> w.last != ' ')
      && (HasBase(cls, t) <==> w.Snoc?) && (HasBase(cls, s) <==> w.Snoc?)
      && (w.Snoc? ==> MarksAtEnd(cls, t) == if MarksAtEnd(cls, s) < MAX_COMBINING_RUN then MarksAtEnd(cls, s) else MAX_COMBINING_RUN)
  {
    if s.Snoc? {
      WovenPasses(cls, s.init);
    }
  }

  /** In plain terms: between two neighbours of those kept there is a blank exactly when the text has one between them. */
  lemma {:induction false} BlankSinceMeans(cls: Policy, s: string, i: nat, j: nat)
    requires i < j <= |s| && KeptInLine(cls, Upto(s, i), s[i])
    requires forall k :: i < k < j ==> !KeptInLine(cls, Upto(s, k), s[k])
    ensures BlankSince(cls, Upto(s, j)) <==> exists k :: i < k < j && IsBlank(cls, s[k])
  {
    assert Upto(s, j) == Snoc(Upto(s, j - 1), s[j - 1]);
    if i < j - 1 {
      BlankSinceMeans(cls, s, i, j - 1);
      assert !KeptInLine(cls, Upto(s, j - 1), s[j - 1]);
    }
  }

  /** In plain terms: a mark is kept exactly when some base comes before it, and after the last base fewer than three marks. */
  lemma {:induction false} KeptInLineMeans(cls: Policy, s: string, i: nat)
    requires i < |s| && cls(s[i]) == Combining
    ensures KeptInLine(cls, Upto(s, i), s[i]) <==>
            exists p :: 0 <= p < i && LastBaseAt(cls, s, p, i) && MarkCount(cls, s[p + 1..i]) < MAX_COMBINING_RUN
  {
    if HasBase(cls, Upto(s, i)) {
      var p := LastBase(cls, s, i);
      forall q | 0 <= q < i && LastBaseAt(cls, s, q, i) ensures q == p {
        OneLastBase(cls, s, p, q, i);
      }
    } else {
      NoBase(cls, s, i);
    }
  }

  /** The last base among the first `i` characters is at `p`. */
  predicate LastBaseAt(cls: Policy, s: string, p: nat, i: nat)
    requires p < i <= |s|
  {
    cls(s[p]) == Keep && forall k :: p < k < i ==> cls(s[k]) != Keep
  }

  lemma {:induction false} OneLastBase(cls: Policy, s: string, p: nat, q: nat, i: nat)
    requires p < i <= |s| && q < i && LastBaseAt(cls, s, p, i) && LastBaseAt(cls, s, q, i)
    ensures p == q
  {
  }

  lemma {:induction false} LastBase(cls: Policy, s: string, i: nat) returns (p: nat)
    requires i <= |s| && HasBase(cls, Upto(s, i))
    ensures p < i && LastBaseAt(cls, s, p, i) && MarkCount(cls, s[p + 1..i]) == MarksAtEnd(cls, Upto(s, i))
  {
    if cls(s[i - 1]) == Keep {
      p := i - 1;
    } else {
      p := LastBase(cls, s, i - 1);
      assert s[p + 1..i][..i - 1 - (p + 1)] == s[p + 1..i - 1];
    }
  }

  lemma {:induction false} NoBase(cls: Policy, s: string, i: nat)
    requires i <= |s| && !HasBase(cls, Upto(s, i))
    ensures forall p :: 0 <= p < i ==> cls(s[p]) != Keep
  {
    if i > 0 {
      NoBase(cls, s, i - 1);
    }
  }

  // ---------------------------------------------------------------- the normal form in plain terms

  lemma {:induction false} TidyUpto(cls: Policy, s: string, i: nat, n: nat)
    requires i <= n <= |s| && Tidy(cls, Upto(s, n))
    ensures Tidy(cls, Upto(s, i))
  {
    if i < n {
      TidyUpto(cls, s, i, n - 1);
    }
  }

  /** How many marks a text has. */
  function MarkCount(cls: Policy, s: string): nat {
    if s == [] then 0 else MarkCount(cls, s[..|s| - 1]) + if cls(s[|s| - 1]) == Combining then 1 else 0
  }

  lemma {:induction false} MarksBetweenBases(cls: Policy, s: string, i: nat, n: nat)
    requires i <= n <= |s| && Tidy(cls, Upto(s, n)) && forall k :: i <= k < n ==> cls(s[k]) != Keep
    ensures MarkCount(cls, s[i..n]) <= MarksAtEnd(cls, Upto(s, n)) <= MAX_COMBINING_RUN
  {
    if i < n {
      MarksBetweenBases(cls, s, i, n - 1);
      assert s[i..n][..n - 1 - i] == s[i..n - 1];
    } else {
      TidyMarks(cls, Upto(s, n));
    }
  }

  lemma {:induction false} TidyMarks(cls: Policy, s: Str)
    requires Tidy(cls, s)
    ensures MarksAtEnd(cls, s) <= MAX_COMBINING_RUN
  {
    if s.Snoc? {
      TidyMarks(cls, s.init);
    }
  }

  /** What a reader of the screen can rely on. */
  lemma {:induction false} TidyMeans(cls: Policy, s: string)
    requires Tidy(cls, Of(s))
    ensures forall i :: 0 <= i < |s| ==> !Forbidden(cls, s[i])
    ensures s != [] ==> cls(s[0]) == Keep
    ensures forall i :: 0 <= i < |s| - 1 ==> s[i] != ' ' || s[i + 1] != ' '
    ensures forall i, j :: 0 <= i <= j <= |s| && (forall k :: i <= k < j ==> cls(s[k]) != Keep) ==>
                             MarkCount(cls, s[i..j]) <= MAX_COMBINING_RUN
  {
    forall i | 0 <= i < |s|
      ensures !Forbidden(cls, s[i])
      ensures i == 0 ==> cls(s[i]) == Keep
      ensures i < |s| - 1 ==> s[i] != ' ' || s[i + 1] != ' '
    {
      TidyUpto(cls, s, i + 1, |s|);
      assert Upto(s, 0).Nil?;
      if i < |s| - 1 {
        TidyUpto(cls, s, i + 2, |s|);
      }
    }
    forall i, j | 0 <= i <= j <= |s| && (forall k :: i <= k < j ==> cls(s[k]) != Keep)
      ensures MarkCount(cls, s[i..j]) <= MAX_COMBINING_RUN
    {
      TidyUpto(cls, s, j, |s|);
      MarksBetweenBases(cls, s, i, j);
    }
  }
}
