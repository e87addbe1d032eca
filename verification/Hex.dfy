/** `hex.rs`: lowercase hex on the way out, either case and nothing else on the way in. */
module Hex {
  import opened Options
  import opened Strings
  import opened Octets

  function Digit(d: nat): char
    requires d < 16
  {
    if d < 10 then ('0' as int + d) as char else ('a' as int + d - 10) as char
  }

  function Nibble(c: char): Option<nat> {
    if '0' <= c <= '9' then Some(c as int - '0' as int)
    else if 'a' <= c <= 'f' then Some(c as int - 'a' as int + 10)
    else if 'A' <= c <= 'F' then Some(c as int - 'A' as int + 10)
    else None
  }

  /** Two digits a byte, the high one first. */
  function Encoded(bytes: seq<Byte>): Str {
    if bytes == [] then Nil
    else
      var b := bytes[|bytes| - 1];
      Snoc(Snoc(Encoded(bytes[..|bytes| - 1]), Digit(b / 16)), Digit(b % 16))
  }

  /** The bytes that `s` spells, if it spells any. */
  function Decoded(s: Str): Option<seq<Byte>> {
    if s.Nil? then Some([])
    else if s.init.Nil? then None
    else
      var rest, hi, lo := Decoded(s.init.init), Nibble(s.init.last), Nibble(s.last);
      if rest.None? || hi.None? || lo.None? then None
      else
        NibbleBound(s.init.last);
        NibbleBound(s.last);
        Some(rest.value + [hi.value * 16 + lo.value])
  }

  lemma NibbleBound(c: char)
    ensures Nibble(c).Some? ==> Nibble(c).value < 16
  {
  }

  /** Exactly 32 bytes, from exactly 64 bytes of text. */
  function Decoded32(s: Str): Option<seq<Byte>> {
    if Bytes(s) != 64 then None else Decoded(s)
  }

  predicate AllHex(s: Str) {
    s.Nil? || (Nibble(s.last).Some? && AllHex(s.init))
  }

  /** Hex digits in lower case. */
  function Lower(s: Str): Str {
    match s
    case Nil => Nil
    case Snoc(init, c) => Snoc(Lower(init), if 'A' <= c <= 'F' then (c as int + 32) as char else c)
  }

  // ---------------------------------------------------------------- the loops

  method Encode(bytes: seq<Byte>) returns (out: Str)
    ensures out == Encoded(bytes)
  {
    out := Nil;
    for i := 0 to |bytes|
      invariant out == Encoded(bytes[..i])
    {
      assert bytes[..i + 1][..i] == bytes[..i];
      out := Snoc(Snoc(out, Digit(bytes[i] / 16)), Digit(bytes[i] % 16));
    }
    assert bytes[..|bytes|] == bytes;
  }

  method Decode32(s: string) returns (out: Option<seq<Byte>>)
    ensures out == Decoded32(Of(s))
  {
    if Bytes(Of(s)) != 64 {
      return None;
    }
    var bytes: seq<Byte> := [];
    var i := 0;
    while i + 1 < |s|
      invariant 0 <= i <= |s| && i == 2 * |bytes|
      invariant Decoded(Upto(s, i)) == Some(bytes)
    {
      assert Upto(s, i + 2) == Snoc(Snoc(Upto(s, i), s[i]), s[i + 1]);
      var hi, lo := Nibble(s[i]), Nibble(s[i + 1]);
      if hi.None? || lo.None? {
        StaysUnreadable(s, i + 2, |s|);
        return None;
      }
      NibbleBound(s[i]);
      NibbleBound(s[i + 1]);
      bytes := bytes + [hi.value * 16 + lo.value];
      i := i + 2;
    }
    if i == |s| {
      return Some(bytes);
    }
    // An odd number of characters that are not all one byte long.
    assert Upto(s, |s|) == Snoc(Upto(s, i), s[i]);
    OddIsUnreadable(Upto(s, |s|));
    UptoLen(s, |s|);
    return None;
  }

  lemma {:induction false} OddIsUnreadable(s: Str)
    ensures Decoded(s).Some? ==> Len(s) == 2 * |Decoded(s).value|
  {
    if s.Snoc? && s.init.Snoc? {
      OddIsUnreadable(s.init.init);
    }
  }

  lemma {:induction false} StaysUnreadable(s: string, i: nat, n: nat)
    requires i <= n <= |s| && i % 2 == 0 && Decoded(Upto(s, i)).None?
    ensures Decoded(Upto(s, n)).None?
  {
    if i == n {
    } else if (n - i) % 2 == 1 {
      UptoLen(s, n);
      OddIsUnreadable(Upto(s, n));
    } else {
      StaysUnreadable(s, i, n - 2);
      assert Upto(s, n) == Snoc(Snoc(Upto(s, n - 2), s[n - 2]), s[n - 1]);
    }
  }

  // ---------------------------------------------------------------- what hex promises

  lemma {:induction false} DecodeEncode(bytes: seq<Byte>)
    ensures Decoded(Encoded(bytes)) == Some(bytes)
    ensures AllHex(Encoded(bytes)) && Lower(Encoded(bytes)) == Encoded(bytes)
    ensures Bytes(Encoded(bytes)) == 2 * |bytes|
  {
    if bytes != [] {
      var init, b := bytes[..|bytes| - 1], bytes[|bytes| - 1];
      DecodeEncode(init);
      NibbleDigit(b / 16);
      NibbleDigit(b % 16);
      PairDecodes(Encoded(init), init, b);
      assert init + [b] == bytes;
    }
  }

  /** Two more digits spell one more byte. */
  lemma {:induction false} PairDecodes(s: Str, bytes: seq<Byte>, b: Byte)
    requires Decoded(s) == Some(bytes) && AllHex(s) && Lower(s) == s && Bytes(s) == 2 * |bytes|
    ensures var t := Snoc(Snoc(s, Digit(b / 16)), Digit(b % 16));
      Decoded(t) == Some(bytes + [b]) && AllHex(t) && Lower(t) == t && Bytes(t) == 2 * |bytes| + 2
  {
    var t := Snoc(Snoc(s, Digit(b / 16)), Digit(b % 16));
    NibbleDigit(b / 16);
    NibbleDigit(b % 16);
    assert AllHex(t.init) && Lower(t.init) == t.init && Bytes(t.init) == 2 * |bytes| + 1;
    assert b / 16 * 16 + b % 16 == b;
  }

  lemma NibbleDigit(d: nat)
    requires d < 16
    ensures Nibble(Digit(d)) == Some(d) && !('A' <= Digit(d) <= 'F') && Digit(d) as int < 0x80
  {
  }

  lemma {:induction false} DecodesIff(s: Str)
    ensures Decoded(s).Some? <==> AllHex(s) && Len(s) % 2 == 0
    ensures Decoded(s).Some? ==> 2 * |Decoded(s).value| == Len(s)
  {
    if s.Snoc? && s.init.Snoc? {
      DecodesIff(s.init.init);
      assert AllHex(s.init) <==> Nibble(s.init.last).Some? && AllHex(s.init.init);
      assert Len(s) == Len(s.init.init) + 2;
    }
  }

  lemma {:induction false} EncodeDecode(s: Str)
    requires Decoded(s).Some?
    ensures Encoded(Decoded(s).value) == Lower(s)
  {
    if s.Snoc? {
      var rest, all := Decoded(s.init.init).value, Decoded(s).value;
      EncodeDecode(s.init.init);
      DigitNibble(s.init.last);
      DigitNibble(s.last);
      assert all[..|all| - 1] == rest;
      assert Lower(s.init) == Snoc(Lower(s.init.init), Digit(Nibble(s.init.last).value));
    }
  }

  lemma DigitNibble(c: char)
    requires Nibble(c).Some?
    ensures Nibble(c).value < 16 && Digit(Nibble(c).value) == if 'A' <= c <= 'F' then (c as int + 32) as char else c
  {
  }

  lemma {:induction false} AllHexBytes(s: Str)
    requires AllHex(s)
    ensures Bytes(s) == Len(s)
  {
    if s.Snoc? {
      AllHexBytes(s.init);
    }
  }

  /** `decode_32` accepts exactly 64 hex digits, in either case, and `encode` spells them back in lower case. */
  lemma {:induction false} Decode32Iff(s: Str)
    ensures Decoded32(s).Some? <==> AllHex(s) && Len(s) == 64
    ensures Decoded32(s).Some? ==> |Decoded32(s).value| == 32 && Encoded(Decoded32(s).value) == Lower(s)
  {
    DecodesIff(s);
    if AllHex(s) {
      AllHexBytes(s);
    }
    if Decoded32(s).Some? {
      EncodeDecode(s);
    }
  }
}
