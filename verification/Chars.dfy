/**
 * The character policy of `text.rs`: what happens to one Unicode scalar value on its way to the
 * screen or to a file name. A Dafny `char` is a Unicode scalar value, as a Rust `char` is.
 */
module Chars {

  datatype Class = Keep | Space | Newline | Combining | Drop

  // ---------------------------------------------------------------- the table of combining marks

  /** Inclusive ranges, each non-empty, in ascending order and without overlap. */
  predicate Ascending(t: seq<(int, int)>) {
    && (forall i :: 0 <= i < |t| ==> t[i].0 <= t[i].1)
    && (forall i, j :: 0 <= i < j < |t| ==> t[i].1 < t[j].0)
  }

  predicate Listed(t: seq<(int, int)>, u: int) {
    exists i :: 0 <= i < |t| && t[i].0 <= u <= t[i].1
  }

  /** What the sanitisers need of the table: it is sorted, it starts above Latin-1, and the ellipsis is no mark. */
  predicate UsableTable(t: seq<(int, int)>) {
    Ascending(t) && (forall i :: 0 <= i < |t| ==> 0x300 <= t[i].0) && !Listed(t, 0x2026)
  }

  type MarkTable = t: seq<(int, int)> | UsableTable(t) witness [(0x300, 0x36F)]

  /** The binary search of `is_mark` finds exactly the code points inside some range of the table. */
  method IsMark(t: MarkTable, u: int) returns (found: bool)
    ensures found <==> Listed(t, u)
  {
    var lo, hi := 0, |t|;
    while lo < hi
      invariant 0 <= lo <= hi <= |t|
      invariant forall i :: 0 <= i < lo ==> t[i].1 < u
      invariant forall i :: hi <= i < |t| ==> u < t[i].0
    {
      var mid := lo + (hi - lo) / 2;
      if t[mid].1 < u {
        lo := mid + 1;
      } else if t[mid].0 > u {
        hi := mid;
      } else {
        return true;
      }
    }
    return false;
  }

  // ---------------------------------------------------------------- classification

  predicate LineBreak(u: int) {
    u == 0x0A || u == 0x0D || u == 0x2028 || u == 0x2029 || u == 0x85
  }

  predicate Control(u: int) {
    0 <= u <= 0x1F || 0x7F <= u <= 0x9F
  }

  /** Every Unicode space separator, and the blank braille pattern. */
  predicate Blank(u: int) {
    || u == 0x20 || u == 0xA0 || u == 0x1680 || 0x2000 <= u <= 0x200A
    || u == 0x202F || u == 0x205F || u == 0x3000 || u == 0x2800
  }

  /** Bidirectional controls: embeddings, overrides, isolates, marks. */
  predicate Bidi(u: int) {
    u == 0x061C || u == 0x200E || u == 0x200F || 0x202A <= u <= 0x202E || 0x2066 <= u <= 0x2069
  }

  /** Format characters and default-ignorable code points. */
  predicate Invisible(u: int) {
    || u == 0xAD || u == 0x034F || 0x0600 <= u <= 0x0605 || u == 0x06DD || u == 0x070F
    || 0x0890 <= u <= 0x0891 || u == 0x08E2 || u == 0x115F || u == 0x1160 || u == 0x17B4
    || u == 0x17B5 || 0x180B <= u <= 0x180F || 0x200B <= u <= 0x200D || 0x2060 <= u <= 0x2065
    || 0x206A <= u <= 0x206F || u == 0x3164 || 0xFE00 <= u <= 0xFE0F || u == 0xFEFF
    || u == 0xFFA0 || 0xFFF0 <= u <= 0xFFFB || u == 0x110BD || u == 0x110CD
    || 0x13430 <= u <= 0x1343F || 0x1BCA0 <= u <= 0x1BCA3 || 0x1D173 <= u <= 0x1D17A
    || 0xE0000 <= u <= 0xE0FFF
  }

  /** Private use areas and noncharacters. */
  predicate Unassigned(u: int) {
    || 0xE000 <= u <= 0xF8FF || 0xF0000 <= u <= 0x10FFFF || 0xFDD0 <= u <= 0xFDEF
    || u % 0x10000 >= 0xFFFE
  }

  function Classify(t: MarkTable, c: char): Class {
    var u := c as int;
    if LineBreak(u) then Newline
    else if u == 0x09 then Space
    else if Control(u) then Drop
    else if Blank(u) then Space
    else if Bidi(u) || Invisible(u) || Unassigned(u) then Drop
    else if Listed(t, u) then Combining
    else Keep
  }

  /** Unicode's White_Space property, which `str::trim` and `str::trim_end` go by. */
  predicate White(c: char) {
    var u := c as int;
    || 0x09 <= u <= 0x0D || u == 0x20 || u == 0x85 || u == 0xA0 || u == 0x1680
    || 0x2000 <= u <= 0x200A || u == 0x2028 || u == 0x2029 || u == 0x202F || u == 0x205F
    || u == 0x3000
  }

  /** Printable ASCII, the space excepted. */
  predicate Graphic(c: char) {
    '!' <= c <= '~'
  }

  const ELLIPSIS: char := '\U{2026}'

  /**
   * All that the sanitisers rely on about a classification. Everything in `Text` and `Names` is
   * proved for every such policy; `ClassifyIsAPolicy` shows that the program's own is one.
   */
  ghost predicate Sound(cls: char -> Class) {
    && cls(' ') == Space
    && cls('\n') == Newline
    && cls('\r') == Newline
    && cls(ELLIPSIS) == Keep
    && cls('.') == Keep && cls('/') == Keep && cls('\\') == Keep
    && (forall c: char {:trigger Graphic(c)} :: Graphic(c) ==> cls(c) == Keep)
    && (forall c: char {:trigger White(c)} :: White(c) ==> cls(c) != Keep && cls(c) != Combining)
  }

  type Policy = cls: char -> Class | Sound(cls)
    ghost witness (c => if c == '\n' || c == '\r' then Newline else if White(c) then Space else Keep)

  /** The classification of `text.rs` is a policy, whichever usable mark table it is built on. */
  lemma ClassifyIsAPolicy(t: MarkTable)
    ensures Sound(c => Classify(t, c))
  {
    var cls := c => Classify(t, c);
    forall c: char | Graphic(c) ensures cls(c) == Keep {
      GraphicKept(t, c);
    }
    forall c: char | White(c) ensures cls(c) != Keep && cls(c) != Combining {
    }
    assert Graphic('.') && Graphic('/') && Graphic('\\');
    assert forall c: char :: cls(c) == Classify(t, c);
  }

  lemma GraphicKept(t: MarkTable, c: char)
    requires Graphic(c) || c == ELLIPSIS
    ensures Classify(t, c) == Keep
  {
  }

  /** Never let through in a name or a line of display text. */
  predicate Forbidden(cls: char -> Class, c: char) {
    cls(c) == Drop || cls(c) == Newline || (c != ' ' && cls(c) == Space)
  }

  /** Never let through in a message. */
  predicate ForbiddenInMessage(cls: char -> Class, c: char) {
    match cls(c)
    case Drop => true
    case Newline => c != '\n'
    case Space => c != ' '
    case Keep => false
    case Combining => false
  }

  /** The length of a character in UTF-8. */
  function Width(c: char): (w: nat)
    ensures 1 <= w <= 4
  {
    var u := c as int;
    if u < 0x80 then 1 else if u < 0x800 then 2 else if u < 0x10000 then 3 else 4
  }
}
