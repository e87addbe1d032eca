/**
 * `SafeName::numbered`: the spellings tried when a name is taken. Every one of them is safe again, no
 * two of them are the same, and exactly when the first of them is the plain name itself is settled.
 */
module Numbering {
  import opened Limits
  import opened Chars
  import opened Strings
  import opened Options
  import opened Names

  /** `n` in decimal. */
  function Decimal(n: nat): Str {
    var digit := ('0' as int + n % 10) as char;
    if n < 10 then Snoc(Nil, digit) else Snoc(Decimal(n / 10), digit)
  }

  /** A stem followed by ` (n)`. */
  function Suffixed(stem: Str, n: nat): Str {
    Snoc(Cat(Snoc(Snoc(stem, ' '), '('), Decimal(n)), ')')
  }

  function SuffixBytes(n: nat): nat {
    3 + Bytes(Decimal(n))
  }

  /** What is left for the stem beside the suffix and the extension; nothing, rather than less than nothing. */
  function Room(ext: Option<Str>, n: nat): nat {
    var afterSuffix := if SuffixBytes(n) <= MAX_NAME_BYTES then MAX_NAME_BYTES - SuffixBytes(n) else 0;
    if ExtensionBytes(ext) <= afterSuffix then afterSuffix - ExtensionBytes(ext) else 0
  }

  function ShortStem(s: Str, n: nat): Str {
    TrimEnd(Fit(Stem(s), Room(Extension(s), n)), DotsAndSpaces)
  }

  /** The `n`th spelling of `s`. */
  function Numbered(s: Str, n: nat): Str {
    if n == 0 then s
    else
      var stem := ShortStem(s, n);
      WithExtension(Suffixed(if stem.Nil? then Of(FALLBACK_NAME) else stem, n), Extension(s))
  }

  // ---------------------------------------------------------------- decimals

  predicate Digit(c: char) {
    '0' <= c <= '9'
  }

  predicate Digits(s: Str) {
    s.Nil? || (Digit(s.last) && Digits(s.init))
  }

  lemma {:induction false} DecimalDigits(n: nat)
    ensures Digits(Decimal(n)) && Decimal(n).Snoc? && Bytes(Decimal(n)) == Len(Decimal(n))
  {
    if n >= 10 {
      DecimalDigits(n / 10);
    }
  }

  lemma {:induction false} DecimalLength(n: nat, k: nat, bound: nat)
    requires 1 <= k && n < bound && bound == Power10(k)
    ensures Len(Decimal(n)) <= k
  {
    if n >= 10 {
      DecimalLength(n / 10, k - 1, bound / 10);
    }
  }

  function Power10(k: nat): (r: nat)
    ensures r >= 1
  {
    if k == 0 then 1 else 10 * Power10(k - 1)
  }

  /** The number a string of digits spells. */
  function Reads(s: Str): int {
    if s.Nil? then 0 else 10 * Reads(s.init) + (s.last as int - '0' as int)
  }

  /** Decimals read back as the number they were written for. */
  lemma {:induction false} DecimalReads(n: nat)
    ensures Reads(Decimal(n)) == n
  {
    if n >= 10 {
      DecimalReads(n / 10);
    } else {
      assert Reads(Nil) == 0;
    }
  }

  /** A run of digits after something that is not a digit can be read off the end. */
  lemma {:induction false} DigitsAtEnd(a: Str, d: Str, b: Str, e: Str)
    requires Digits(d) && Digits(e) && Cat(a, d) == Cat(b, e)
    requires a.Snoc? && b.Snoc? && !Digit(a.last) && !Digit(b.last)
    ensures a == b && d == e
  {
    if d.Snoc? && e.Snoc? {
      DigitsAtEnd(a, d.init, b, e.init);
    }
  }

  lemma {:induction false} SuffixedInjective(a: Str, m: nat, b: Str, n: nat)
    requires Suffixed(a, m) == Suffixed(b, n)
    ensures a == b && m == n
  {
    DecimalDigits(m);
    DecimalDigits(n);
    DigitsAtEnd(Snoc(Snoc(a, ' '), '('), Decimal(m), Snoc(Snoc(b, ' '), '('), Decimal(n));
    DecimalReads(m);
    DecimalReads(n);
  }

  lemma {:induction false} SuffixedBytes(stem: Str, n: nat)
    ensures Bytes(Suffixed(stem, n)) == Bytes(stem) + SuffixBytes(n)
  {
    CatLen(Snoc(Snoc(stem, ' '), '('), Decimal(n));
  }

  // ---------------------------------------------------------------- numbered names are safe

  lemma {:induction false} DigitsOrdinary(cls: Policy, d: Str)
    requires Digits(d)
    ensures Ordinary(cls, d)
  {
    if d.Snoc? {
      DigitsOrdinary(cls, d.init);
      assert Graphic(d.last);
    }
  }

  lemma {:induction false} SuffixedTame(cls: Policy, stem: Str, n: nat)
    requires Tame(cls, stem) && stem.Snoc? && stem.last != ' '
    ensures Tame(cls, Suffixed(stem, n))
  {
    assert Graphic('(') && Graphic(')');
    var open := Snoc(Snoc(stem, ' '), '(');
    assert Tame(cls, Snoc(stem, ' '));
    DecimalDigits(n);
    DigitsOrdinary(cls, Decimal(n));
    TameOrdinary(cls, open, Decimal(n));
  }

  /** The longest suffix leaves room for a stem. */
  lemma {:induction false} RoomEnough(s: Str, n: nat)
    requires n <= MAX_U32
    ensures Room(Extension(s), n) == MAX_NAME_BYTES - SuffixBytes(n) - ExtensionBytes(Extension(s))
    ensures Room(Extension(s), n) >= 170
  {
    assert Power10(5) == 100_000;
    assert Power10(10) == 10_000_000_000;
    DecimalLength(n, 10, Power10(10));
    DecimalDigits(n);
  }

  lemma {:induction false} StemTame(cls: Policy, s: Str)
    requires SafeName(cls, s)
    ensures Tame(cls, Stem(s)) && Stem(s).Snoc?
    ensures s == WithExtension(Stem(s), Extension(s))
    ensures Bytes(s) == Bytes(Stem(s)) + ExtensionBytes(Extension(s))
  {
    if HasExtension(s) {
      SplitAtDot(s);
      TamePrefix(cls, BeforeDot(s), s);
      CatLen(Snoc(BeforeDot(s), '.'), AfterDot(s));
    }
  }

  lemma {:induction false} ShortStemTame(cls: Policy, s: Str, n: nat)
    requires SafeName(cls, s) && n <= MAX_U32
    ensures var stem := ShortStem(s, n);
      && stem.Snoc? && Tame(cls, stem) && Prefix(stem, Stem(s))
      && Bytes(stem) <= Room(Extension(s), n) && !Trims(DotsAndSpaces, stem.last)
  {
    StemTame(cls, s);
    RoomEnough(s, n);
    CutTame(cls, Stem(s), Room(Extension(s), n));
  }

  /** Every numbered spelling of a safe name is safe, for every number. */
  lemma {:induction false} NumberedIsSafe(cls: Policy, s: Str, n: nat)
    requires SafeName(cls, s) && n <= MAX_U32
    ensures SafeName(cls, Numbered(s, n))
  {
    if n > 0 {
      var stem := ShortStem(s, n);
      ShortStemTame(cls, s, n);
      RoomEnough(s, n);
      SuffixedTame(cls, stem, n);
      SuffixedBytes(stem, n);
      if HasExtension(s) {
        SplitAtDot(s);
        CatLen(Snoc(Suffixed(stem, n), '.'), AfterDot(s));
        CatLast(Snoc(Suffixed(stem, n), '.'), AfterDot(s));
        CatLast(Snoc(BeforeDot(s), '.'), AfterDot(s));
        Graft(cls, BeforeDot(s), Suffixed(stem, n), AfterDot(s));
      }
    }
  }

  lemma {:induction false} CatReads(a: Str, b: Str)
    ensures AsString(Cat(a, b)) == AsString(a) + AsString(b)
  {
    if b.Snoc? {
      CatReads(a, b.init);
    }
  }

  lemma {:induction false} SuffixedReads(stem: Str, n: nat)
    ensures AsString(Suffixed(stem, n)) == AsString(stem) + " (" + AsString(Decimal(n)) + ")"
  {
    var open := Snoc(Snoc(stem, ' '), '(');
    CatReads(open, Decimal(n));
    assert AsString(open) == AsString(stem) + " (";
  }

  lemma {:induction false} StemFits(s: Str, n: nat)
    requires Bytes(s) + SuffixBytes(n) <= MAX_NAME_BYTES
    ensures ShortStem(s, n) == TrimEnd(Stem(s), DotsAndSpaces)
  {
    if HasExtension(s) {
      SplitAtDot(s);
      CatLen(Snoc(BeforeDot(s), '.'), AfterDot(s));
    }
  }

  /** The stem without the dots and spaces at its end, or the fallback if it is nothing else. */
  function TrimmedStem(s: Str): Str {
    var stem := TrimEnd(Stem(s), DotsAndSpaces);
    if stem.Nil? then Of(FALLBACK_NAME) else stem
  }

  /** Where there is room for it, the `n`th spelling reads `stem (n).ext`, the stem trimmed at its end. */
  lemma {:induction false} NumberedReads(s: Str, n: nat)
    requires 1 <= n && Bytes(s) + SuffixBytes(n) <= MAX_NAME_BYTES
    ensures AsString(Numbered(s, n)) ==
            (AsString(TrimmedStem(s)) + " (" + AsString(Decimal(n)) + ")") + if HasExtension(s) then "." + AsString(AfterDot(s)) else ""
    ensures Stem(s).Snoc? && !Trims(DotsAndSpaces, Stem(s).last) ==> TrimmedStem(s) == Stem(s)
  {
    var stem := TrimmedStem(s);
    StemFits(s, n);
    SuffixedReads(stem, n);
    if HasExtension(s) {
      CatReads(Snoc(Suffixed(stem, n), '.'), AfterDot(s));
    }
  }

  /** Every spelling keeps as much of the stem as its suffix and the extension leave room for. */
  lemma {:induction false} NumberedCuts(cls: Policy, s: Str, n: nat)
    requires SafeName(cls, s) && 1 <= n <= MAX_U32
    ensures SuffixBytes(n) + ExtensionBytes(Extension(s)) <= MAX_NAME_BYTES
    ensures exists stem :: LongestStem(stem, Stem(s), MAX_NAME_BYTES - SuffixBytes(n) - ExtensionBytes(Extension(s))) && stem.Snoc?
              && Numbered(s, n) == WithExtension(Suffixed(stem, n), Extension(s))
  {
    var stem := ShortStem(s, n);
    RoomEnough(s, n);
    ShortStemTame(cls, s, n);
    CutIsLongest(Stem(s), Room(Extension(s), n));
    assert LongestStem(stem, Stem(s), MAX_NAME_BYTES - SuffixBytes(n) - ExtensionBytes(Extension(s)));
  }

  // ---------------------------------------------------------------- numbered names are distinct

  lemma {:induction false} CatCancel(a: Str, b: Str, e: Str)
    requires Cat(a, e) == Cat(b, e)
    ensures a == b
  {
    if e.Snoc? {
      CatCancel(a, b, e.init);
    }
  }

  lemma {:induction false} WithExtensionCancel(a: Str, b: Str, ext: Option<Str>)
    requires WithExtension(a, ext) == WithExtension(b, ext)
    ensures a == b
  {
    if ext.Some? {
      CatCancel(Snoc(a, '.'), Snoc(b, '.'), ext.value);
    }
  }

  /** Two numbers give two names. */
  lemma {:induction false} NumberedDistinct(s: Str, m: nat, n: nat)
    requires 1 <= m && 1 <= n && Numbered(s, m) == Numbered(s, n)
    ensures m == n
  {
    var a, b := ShortStem(s, m), ShortStem(s, n);
    var a', b' := if a.Nil? then Of(FALLBACK_NAME) else a, if b.Nil? then Of(FALLBACK_NAME) else b;
    WithExtensionCancel(Suffixed(a', m), Suffixed(b', n), Extension(s));
    SuffixedInjective(a', m, b', n);
  }

  /** A stem that was numbered `n` before. */
  ghost predicate AlreadyNumbered(stem: Str, y: Str, n: nat) {
    stem == Suffixed(y, n) && y.Snoc? && y.last != '.'
  }

  lemma {:induction false} SuffixedOpens(y: Str, n: nat)
    ensures Prefix(Snoc(Snoc(y, ' '), '('), Suffixed(y, n))
  {
    CatPrefix(Snoc(Snoc(y, ' '), '('), Decimal(n));
  }

  lemma {:induction false} CatPrefix(a: Str, b: Str)
    ensures Prefix(a, Cat(a, b))
  {
    if b.Snoc? {
      CatPrefix(a, b.init);
    }
  }

  lemma {:induction false} TrimKeeps(p: Str, s: Str, k: Trimming)
    requires Prefix(p, s) && p.Snoc? && !Trims(k, p.last)
    ensures Prefix(p, TrimEnd(s, k))
  {
    if s.Snoc? && Trims(k, s.last) {
      TrimKeeps(p, s.init, k);
    }
  }

  lemma {:induction false} FitExact(p: Str, s: Str, max: nat)
    requires Prefix(p, s) && Bytes(p) <= max
    ensures Bytes(p) == max ==> Fit(s, max) == p
  {
    PrefixShorter(p, s);
    if p != s {
      FitExact(p, s.init, max);
      PrefixShorter(p, s.init);
    }
  }

  /**
   * A numbered spelling is the plain name again exactly when the plain name already ends in that
   * number and is within one byte of the cap, so that shortening takes off what numbering puts on.
   */
  lemma {:induction false} NumberedIsPlainIff(cls: Policy, s: Str, n: nat)
    requires SafeName(cls, s) && 1 <= n <= MAX_U32
    ensures Numbered(s, n) == s <==>
            (exists y :: AlreadyNumbered(Stem(s), y, n)) && Bytes(s) >= MAX_NAME_BYTES - 1
  {
    StemTame(cls, s);
    ShortStemTame(cls, s, n);
    RoomEnough(s, n);
    var y := ShortStem(s, n);
    var room := Room(Extension(s), n);
    if Numbered(s, n) == s {
      WithExtensionCancel(Suffixed(y, n), Stem(s), Extension(s));
      assert AlreadyNumbered(Stem(s), y, n);
      SuffixedBytes(y, n);
      SuffixedOpens(y, n);
      if Bytes(y) + 2 <= room {
        FitLongest(Snoc(Snoc(y, ' '), '('), Stem(s), room);
        TrimKeeps(Snoc(Snoc(y, ' '), '('), Fit(Stem(s), room), DotsAndSpaces);
        PrefixShorter(Snoc(Snoc(y, ' '), '('), y);
      }
    }
    if y: Str :| AlreadyNumbered(Stem(s), y, n) {
      if Bytes(s) >= MAX_NAME_BYTES - 1 {
        NumberedAtTheCap(cls, s, y, n);
      }
    }
  }

  lemma {:induction false} NumberedAtTheCap(cls: Policy, s: Str, y: Str, n: nat)
    requires SafeName(cls, s) && 1 <= n <= MAX_U32
    requires AlreadyNumbered(Stem(s), y, n) && Bytes(s) >= MAX_NAME_BYTES - 1
    ensures Numbered(s, n) == s
  {
    StemTame(cls, s);
    RoomEnough(s, n);
    SuffixedBytes(y, n);
    SuffixedOpens(y, n);
    var room := Room(Extension(s), n);
    var open := Snoc(Snoc(y, ' '), '(');
    PrefixTrans(open.init, open, Stem(s));
    PrefixTrans(y, open.init, Stem(s));
    TamePrefix(cls, open.init, Stem(s));
    FitExact(if Bytes(s) == MAX_NAME_BYTES then y else open.init, Stem(s), room);
    assert TrimEnd(y, DotsAndSpaces) == y;
  }

  /** So that can happen: a name at the cap that ends in ` (1)` is its own first spelling. */
  lemma {:induction false} NumberedCanBePlain(cls: Policy)
    ensures exists s :: SafeName(cls, s) && Numbered(s, 1) == s
  {
    var y := Repeat('x', MAX_NAME_BYTES - 4);
    var s := Suffixed(y, 1);
    RepeatOrdinary(cls, 'x', MAX_NAME_BYTES - 4);
    TameOrdinary(cls, Nil, y);
    CatNil(y);
    SuffixedTame(cls, y, 1);
    SuffixedBytes(y, 1);
    assert Decimal(1) == Snoc(Nil, '1');
    assert SafeName(cls, s);
    var open := Snoc(Snoc(y, ' '), '(');
    assert Cat(open, Nil) == open && Cat(open, Snoc(Nil, '1')) == Snoc(open, '1');
    assert s == Snoc(Snoc(open, '1'), ')');
    assert !Has(open.init, '.') && !Has(open, '.');
    assert !Has(s, '.');
    NumberedAtTheCap(cls, s, y, 1);
  }

  function Repeat(c: char, n: nat): (r: Str)
    ensures r.Nil? <==> n == 0
    ensures n > 0 ==> r.last == c
  {
    if n == 0 then Nil else Snoc(Repeat(c, n - 1), c)
  }

  lemma {:induction false} RepeatOrdinary(cls: Policy, c: char, n: nat)
    requires Graphic(c) && !Separator(c) && c != '.'
    ensures Ordinary(cls, Repeat(c, n)) && Bytes(Repeat(c, n)) == n && !Has(Repeat(c, n), '.')
  {
    if n > 0 {
      RepeatOrdinary(cls, c, n - 1);
    }
  }

  // ---------------------------------------------------------------- the staging directory's name

  const STAGING_DIR: string := ".partial"

  lemma {:induction false} TameHead(cls: Policy, s: Str)
    requires Tame(cls, s) && s.Snoc?
    ensures Head(s) != '.'
  {
    if s.init.Snoc? {
      TameHead(cls, s.init);
    }
  }

  lemma {:induction false} HeadOf(s: string, n: nat)
    requires 0 < n <= |s|
    ensures Head(Upto(s, n)) == s[0]
  {
    if n > 1 {
      HeadOf(s, n - 1);
    }
  }

  /** No received file can take the staging directory's name. */
  lemma {:induction false} NumberedIsNotStaging(cls: Policy, s: Str, n: nat)
    requires SafeName(cls, s) && n <= MAX_U32
    ensures Numbered(s, n) != Of(STAGING_DIR)
  {
    NumberedIsSafe(cls, s, n);
    TameHead(cls, Numbered(s, n));
    HeadOf(STAGING_DIR, |STAGING_DIR|);
  }
}
