/**
 * Strings as the sanitisers use them: pushed to, popped from, trimmed, truncated and searched at the
 * end. A `Str` is therefore built from the end; `Of` and `AsString` carry a Dafny string across and back.
 */
module Strings {
  import opened Chars

  datatype Str = Nil | Snoc(init: Str, last: char)

  // ---------------------------------------------------------------- to and from Dafny strings

  /** The first `n` characters of `s`, which is what a loop over `s` has read after `n` rounds. */
  function Upto(s: string, n: nat): Str
    requires n <= |s|
  {
    if n == 0 then Nil else Snoc(Upto(s, n - 1), s[n - 1])
  }

  function Of(s: string): Str {
    Upto(s, |s|)
  }

  function AsString(s: Str): (r: string)
    ensures |r| == Len(s)
  {
    match s
    case Nil => []
    case Snoc(init, c) => AsString(init) + [c]
  }

  lemma {:induction false} UptoPrefix(s: string, t: string, n: nat)
    requires n <= |s| <= |t| && forall i :: 0 <= i < n ==> s[i] == t[i]
    ensures Upto(s, n) == Upto(t, n)
  {
    if n > 0 {
      UptoPrefix(s, t, n - 1);
    }
  }

  lemma {:induction false} OfAsString(s: Str)
    ensures Of(AsString(s)) == s
  {
    if s.Snoc? {
      OfAsString(s.init);
      UptoPrefix(AsString(s.init), AsString(s), Len(s.init));
    }
  }

  // ---------------------------------------------------------------- lengths and prefixes

  function Len(s: Str): nat {
    match s
    case Nil => 0
    case Snoc(init, _) => Len(init) + 1
  }

  lemma {:induction false} UptoLen(s: string, n: nat)
    requires n <= |s|
    ensures Len(Upto(s, n)) == n
  {
    if n > 0 {
      UptoLen(s, n - 1);
    }
  }

  /** The first character. */
  function Head(s: Str): char
    requires s.Snoc?
  {
    if s.init.Nil? then s.last else Head(s.init)
  }

  /** The length in UTF-8, which is what Rust's `len` counts. */
  function Bytes(s: Str): (n: nat)
    ensures Len(s) <= n <= 4 * Len(s)
  {
    match s
    case Nil => 0
    case Snoc(init, c) => Bytes(init) + Width(c)
  }

  predicate Prefix(p: Str, s: Str) {
    p == s || (s.Snoc? && Prefix(p, s.init))
  }

  lemma {:induction false} PrefixTrans(p: Str, q: Str, s: Str)
    requires Prefix(p, q) && Prefix(q, s)
    ensures Prefix(p, s)
  {
    if q != s {
      PrefixTrans(p, q, s.init);
    }
  }

  lemma {:induction false} PrefixShorter(p: Str, s: Str)
    requires Prefix(p, s)
    ensures Len(p) <= Len(s) && Bytes(p) <= Bytes(s)
    ensures Len(p) == Len(s) ==> p == s
  {
    if p != s {
      PrefixShorter(p, s.init);
    }
  }

  /** The longest prefix of at most `max` bytes. */
  function Fit(s: Str, max: nat): (r: Str)
    ensures Bytes(r) <= max
  {
    if Bytes(s) <= max then s else Fit(s.init, max)
  }

  /** The first `n` characters. */
  function First(s: Str, n: nat): (r: Str)
    ensures Len(r) == if n <= Len(s) then n else Len(s)
  {
    if Len(s) <= n then s else First(s.init, n)
  }

  /** `Fit` is the longest: any prefix that fits is a prefix of it. */
  lemma {:induction false} FitLongest(p: Str, s: Str, max: nat)
    requires Prefix(p, s)
    ensures Prefix(Fit(s, max), s)
    ensures Bytes(p) <= max <==> Prefix(p, Fit(s, max))
  {
    PrefixShorter(p, s);
    FitPrefix(s, max);
    if Prefix(p, Fit(s, max)) {
      PrefixShorter(p, Fit(s, max));
    } else if p != s {
      FitLongest(p, s.init, max);
    }
  }

  lemma {:induction false} FitPrefix(s: Str, max: nat)
    ensures Prefix(Fit(s, max), s)
  {
    if Bytes(s) > max {
      FitPrefix(s.init, max);
    }
  }

  lemma {:induction false} FirstPrefix(s: Str, n: nat)
    ensures Prefix(First(s, n), s)
  {
    if Len(s) > n {
      FirstPrefix(s.init, n);
    }
  }

  /** What is cut from an extension of `p` is what is cut from `p`, once `p` is too long. */
  lemma {:induction false} CutEarly(p: Str, s: Str, n: nat)
    requires Prefix(p, s)
    ensures n <= Len(p) ==> First(s, n) == First(p, n)
    ensures n < Bytes(p) ==> Fit(s, n) == Fit(p, n)
  {
    PrefixShorter(p, s);
    if p != s {
      CutEarly(p, s.init, n);
      PrefixShorter(p, s.init);
    }
  }

  // ---------------------------------------------------------------- trimming and joining

  /** What a trim removes. */
  datatype Trimming = Spaces | DotsAndSpaces | WhiteSpace

  predicate Trims(k: Trimming, c: char) {
    match k
    case Spaces => c == ' '
    case DotsAndSpaces => c == '.' || c == ' '
    case WhiteSpace => White(c)
  }

  /** Rust's `trim_end_matches`, and `trim_end` for white space. */
  function TrimEnd(s: Str, k: Trimming): (r: Str)
    ensures r.Snoc? ==> !Trims(k, r.last)
  {
    if s.Snoc? && Trims(k, s.last) then TrimEnd(s.init, k) else s
  }

  lemma {:induction false} TrimEndPrefix(s: Str, k: Trimming)
    ensures Prefix(TrimEnd(s, k), s)
  {
    if s.Snoc? && Trims(k, s.last) {
      TrimEndPrefix(s.init, k);
    }
  }

  /** Rust's `trim_start_matches`. */
  function TrimStart(s: Str, k: Trimming): Str {
    match s
    case Nil => Nil
    case Snoc(init, c) =>
      var t := TrimStart(init, k);
      if t.Nil? && Trims(k, c) then Nil else Snoc(t, c)
  }

  /** Rust's `trim`. */
  function Trim(s: Str): Str {
    TrimEnd(TrimStart(s, WhiteSpace), WhiteSpace)
  }

  function Cat(a: Str, b: Str): Str {
    match b
    case Nil => a
    case Snoc(init, c) => Snoc(Cat(a, init), c)
  }

  lemma {:induction false} CatLen(a: Str, b: Str)
    ensures Len(Cat(a, b)) == Len(a) + Len(b) && Bytes(Cat(a, b)) == Bytes(a) + Bytes(b)
  {
    if b.Snoc? {
      CatLen(a, b.init);
    }
  }

  // ---------------------------------------------------------------- what a trim takes away

  predicate AllWhite(s: Str) {
    s.Nil? || (White(s.last) && AllWhite(s.init))
  }

  /** A string with no white space at either end. */
  predicate Trimmed(s: Str) {
    s.Snoc? && !White(s.last) && !White(Head(s))
  }

  /** `s` is `x` with white space around it, and `x` has none at its ends. */
  ghost predicate Strips(s: Str, x: Str) {
    Trimmed(x) && exists a, b :: AllWhite(a) && AllWhite(b) && s == Cat(Cat(a, x), b)
  }

  lemma {:induction false} TrimStartWhite(a: Str, x: Str)
    requires AllWhite(a)
    ensures TrimStart(Cat(a, x), WhiteSpace) == TrimStart(x, WhiteSpace)
  {
    if x.Snoc? {
      TrimStartWhite(a, x.init);
    } else if a.Snoc? {
      TrimStartWhite(a.init, Nil);
    }
  }

  lemma {:induction false} TrimStartSolid(x: Str)
    requires x.Snoc? && !White(Head(x))
    ensures TrimStart(x, WhiteSpace) == x
  {
    if x.init.Snoc? {
      TrimStartSolid(x.init);
    }
  }

  lemma {:induction false} TrimEndWhite(x: Str, b: Str)
    requires AllWhite(b)
    ensures TrimEnd(Cat(x, b), WhiteSpace) == TrimEnd(x, WhiteSpace)
  {
    if b.Snoc? {
      TrimEndWhite(x, b.init);
    }
  }

  lemma {:induction false} CatAssoc(a: Str, b: Str, c: Str)
    ensures Cat(Cat(a, b), c) == Cat(a, Cat(b, c))
  {
    if c.Snoc? {
      CatAssoc(a, b, c.init);
    }
  }

  lemma {:induction false} CatHead(x: Str, b: Str)
    requires x.Snoc?
    ensures Cat(x, b).Snoc? && Head(Cat(x, b)) == Head(x)
  {
    if b.Snoc? {
      CatHead(x, b.init);
    }
  }

  /** What a trim at the start takes away is white. */
  lemma {:induction false} TrimStartSplits(s: Str) returns (a: Str)
    ensures AllWhite(a) && s == Cat(a, TrimStart(s, WhiteSpace))
    ensures TrimStart(s, WhiteSpace).Snoc? ==> !White(Head(TrimStart(s, WhiteSpace)))
  {
    a := Nil;
    if s.Snoc? {
      a := TrimStartSplits(s.init);
      if TrimStart(s, WhiteSpace).Nil? {
        a := s;
      }
    }
  }

  lemma {:induction false} TrimEndSplits(s: Str) returns (b: Str)
    ensures AllWhite(b) && s == Cat(TrimEnd(s, WhiteSpace), b)
  {
    b := Nil;
    if s.Snoc? && White(s.last) {
      b := TrimEndSplits(s.init);
      b := Snoc(b, s.last);
    }
  }

  /** A trim takes away the white space at both ends, and nothing else. */
  lemma {:induction false} TrimMeans(s: Str, x: Str)
    ensures Trim(s).Nil? <==> AllWhite(s)
    ensures x.Snoc? && Trim(s) == x <==> Strips(s, x)
  {
    var a := TrimStartSplits(s);
    var t := TrimStart(s, WhiteSpace);
    var b := TrimEndSplits(t);
    CatAssoc(a, Trim(s), b);
    if Trim(s).Snoc? {
      CatHead(Trim(s), b);
      SolidIsNotWhite(a, Trim(s), b);
      assert Strips(s, Trim(s));
    } else {
      CatNil(b);
      AllWhiteCat(a, b);
    }
    if Strips(s, x) {
      var p, q :| AllWhite(p) && AllWhite(q) && s == Cat(Cat(p, x), q);
      CatAssoc(p, x, q);
      TrimStartWhite(p, Cat(x, q));
      CatHead(x, q);
      TrimStartSolid(Cat(x, q));
      TrimEndWhite(x, q);
    }
  }

  lemma {:induction false} CatNil(s: Str)
    ensures Cat(Nil, s) == s
  {
    if s.Snoc? {
      CatNil(s.init);
    }
  }

  lemma {:induction false} AllWhiteCat(a: Str, b: Str)
    ensures AllWhite(Cat(a, b)) <==> AllWhite(a) && AllWhite(b)
  {
    if b.Snoc? {
      AllWhiteCat(a, b.init);
    }
  }

  lemma {:induction false} SolidIsNotWhite(a: Str, x: Str, b: Str)
    requires x.Snoc? && !White(x.last)
    ensures !AllWhite(Cat(Cat(a, x), b))
  {
    AllWhiteCat(Cat(a, x), b);
    AllWhiteCat(a, x);
  }

  // ---------------------------------------------------------------- truncation at a byte count

  /** Where byte offset `end` falls between two characters of `s`: what comes before it. */
  datatype Cut = Inside | At(before: Str)

  function CutAt(s: Str, end: nat): Cut {
    if Bytes(s) == end then At(s)
    else if Bytes(s) < end then Inside
    else CutAt(s.init, end)
  }

  lemma {:induction false} CutAtFit(s: Str, end: nat)
    requires end <= Bytes(s)
    ensures CutAt(s, end).At? ==> CutAt(s, end).before == Fit(s, end)
    ensures CutAt(s, end).Inside? ==> end > 0 && Fit(s, end) == Fit(s, end - 1)
  {
    if Bytes(s) > end && Bytes(s.init) >= end {
      CutAtFit(s.init, end);
    }
  }

  /** Stepping back from `max` to a character boundary yields the longest prefix that fits. */
  method TruncateBytes(s: Str, max: nat) returns (r: Str)
    ensures r == Fit(s, max)
  {
    if Bytes(s) <= max {
      return s;
    }
    var end: nat := max;
    while end > 0 && CutAt(s, end).Inside?
      invariant end <= max && Fit(s, end) == Fit(s, max)
    {
      CutAtFit(s, end);
      end := end - 1;
    }
    CutAtFit(s, end);
    r := CutAt(s, end).before;
  }
}
