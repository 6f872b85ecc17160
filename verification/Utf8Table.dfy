/** UTF-8 bit by bit (the table in section 3 of RFC 3629), and what the decoder does where it is violated. */
module Utf8Table {
  import opened Division
  import opened Utf8

  predicate Follows(b: Byte) { 0x80 <= b < 0xC0 }

  /** A Unicode scalar value: no surrogate. */
  predicate Character(cp: nat) { cp < 0xD800 || 0xE000 <= cp < 0x110000 }

  /** What a byte holds besides its marking bits. */
  function Bits(b: Byte, marking: nat): int {
    var n: int := b;
    n - marking
  }

  /** One to four bytes spell the code point, in the fewest bytes that hold it. */
  predicate Spells(b: seq<Byte>, cp: nat) {
    || (|b| == 1 && cp < 0x80 && b[0] == cp)
    || (|b| == 2 && cp >= 0x80 && 0xC0 <= b[0] < 0xE0 && Follows(b[1]) && cp == Bits(b[0], 0xC0) * 0x40 + Bits(b[1], 0x80))
    || (|b| == 3 && cp >= 0x800 && 0xE0 <= b[0] < 0xF0 && Follows(b[1]) && Follows(b[2])
        && cp == Bits(b[0], 0xE0) * 0x1000 + Bits(b[1], 0x80) * 0x40 + Bits(b[2], 0x80))
    || (|b| == 4 && cp >= 0x10000 && 0xF0 <= b[0] < 0xF8 && Follows(b[1]) && Follows(b[2]) && Follows(b[3])
        && cp == Bits(b[0], 0xF0) * 0x40000 + Bits(b[1], 0x80) * 0x1000 + Bits(b[2], 0x80) * 0x40 + Bits(b[3], 0x80))
  }

  lemma ContinuationIs(b: Byte)
    ensures Continuation(b) <==> Follows(b)
    ensures Follows(b) ==> b % 0x40 == b - 0x80
  {
    DivMod(b, 0x40, b / 0x40, b % 0x40);
  }

  /** The encoder writes what spells the character. */
  lemma EncodedSpells(cp: nat, more: seq<nat>)
    requires Character(cp) && Scalars(more)
    ensures exists b :: Spells(b, cp) && BytesOf([cp] + more) == b + BytesOf(more)
  {
    assert ([cp] + more)[1..] == more;
    BytesSpell(cp);
  }

  lemma BytesSpell(cp: nat)
    requires Character(cp)
    ensures Spells(Bytes(cp), cp)
  {
    var x := cp / 0x40;
    var y := x / 0x40;
    if cp >= 0x800 { DivMod(cp, 0x1000, y, x % 0x40 * 0x40 + cp % 0x40); }
    if cp >= 0x10000 { DivMod(cp, 0x40000, y / 0x40, y % 0x40 * 0x1000 + x % 0x40 * 0x40 + cp % 0x40); }
  }

  /** Bytes that spell a character are read as that character. */
  lemma DecodedSpelled(b: seq<Byte>, cp: nat, more: seq<Byte>)
    requires Character(cp) && Spells(b, cp)
    ensures Points(b + more) == [cp] + Points(more)
  {
    var t := b + more;
    PointSpelled(t, |b|, cp);
    assert t[..|b|] == b && t[|b|..] == more;
    hide ReadPoint, Spells;
  }

  lemma PointSpelled(t: seq<Byte>, n: nat, cp: nat)
    requires n <= |t| && Character(cp) && Spells(t[..n], cp)
    ensures n > 0 && ReadPoint(t) == cp && Announced(t[0]) == n
  {
    if n == 2 {
      DivMod(t[0], 0x20, 6, t[0] - 0xC0);
      ContinuationIs(t[1]);
    } else if n == 3 {
      DivMod(t[0], 0x10, 14, t[0] - 0xE0);
      ContinuationIs(t[1]);
      ContinuationIs(t[2]);
    } else if n == 4 {
      DivMod(t[0], 0x10, 15, t[0] - 0xF0);
      ContinuationIs(t[1]);
      ContinuationIs(t[2]);
      ContinuationIs(t[3]);
    }
  }

  /** Where no character is spelled, one byte is read as U+FFFD. */
  lemma DecodedMalformed(t: seq<Byte>)
    requires t != [] && forall n, cp :: 0 <= n <= |t| && Character(cp) ==> !Spells(t[..n], cp)
    ensures Points(t) == [0xFFFD] + Points(t[1..])
  {
    SpelledPoint(t);
  }

  lemma SpelledPoint(t: seq<Byte>)
    requires t != []
    ensures ReadPoint(t) >= 0 ==> Announced(t[0]) <= |t| && Character(ReadPoint(t)) && Spells(t[..Announced(t[0])], ReadPoint(t))
  {
    var n := Announced(t[0]);
    if n > |t| {
    } else if n == 2 {
      DivMod(t[0], 0x20, 6, t[0] - 0xC0);
      ContinuationIs(t[1]);
    } else if n == 3 {
      DivMod(t[0], 0x10, 14, t[0] - 0xE0);
      ContinuationIs(t[1]);
      ContinuationIs(t[2]);
    } else if n == 4 {
      DivMod(t[0], 0x10, 15, t[0] - 0xF0);
      ContinuationIs(t[1]);
      ContinuationIs(t[2]);
      ContinuationIs(t[3]);
    }
  }

  /** A character is one unit, or a surrogate pair that holds its place behind 0x10000 in ten bits each. */
  lemma UnitsPair(cp: nat, high: nat, low: nat)
    requires cp < 0x110000
    ensures cp < 0x10000 ==> UnitsOf([cp]) == [cp]
    ensures high < 0x400 && low < 0x400 && cp == 0x10000 + high * 0x400 + low ==> UnitsOf([cp]) == [0xD800 + high, 0xDC00 + low]
  {
    assert [cp][1..] == [];
    assert Units(cp) + [] == Units(cp);
    if high < 0x400 && low < 0x400 && cp == 0x10000 + high * 0x400 + low { DivMod(cp - 0x10000, 0x400, high, low); }
  }
}
