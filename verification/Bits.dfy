/** Bitmap arithmetic of the hash trie. A 32-bit word is the natural number its bits spell
    (the sign JavaScript attaches to bit 31 changes no bit), and the bitwise operators are
    defined digit by digit. */
module Bits {

  const WORD := 0x1_0000_0000

  function And(x: nat, y: nat): nat {
    if x == 0 || y == 0 then 0 else 2 * And(x / 2, y / 2) + (if x % 2 == 1 && y % 2 == 1 then 1 else 0)
  }

  function Or(x: nat, y: nat): nat {
    if x == 0 then y else if y == 0 then x else 2 * Or(x / 2, y / 2) + (if x % 2 == 1 || y % 2 == 1 then 1 else 0)
  }

  function Xor(x: nat, y: nat): nat {
    if x == 0 then y else if y == 0 then x else 2 * Xor(x / 2, y / 2) + (if x % 2 == y % 2 then 0 else 1)
  }

  /** 1 << i */
  function Bit(i: nat): (r: nat)
    ensures r > 0
  {
    if i == 0 then 1 else 2 * Bit(i - 1)
  }

  /** Bit `i` of `b`. */
  predicate Has(b: nat, i: nat) {
    if i == 0 then b % 2 == 1 else Has(b / 2, i - 1)
  }

  /** Reference count: the set bits among the lowest `n`. */
  function Rank(b: nat, n: nat): (r: nat)
    ensures r <= n
  {
    if n == 0 then 0 else b % 2 + Rank(b / 2, n - 1)
  }

  /** Reference count of all set bits. */
  function Count(b: nat): nat {
    if b == 0 then 0 else b % 2 + Count(b / 2)
  }

  /** The parallel population count `se`: sums of bit pairs, of nibbles, of bytes, then of the four bytes. */
  function PopCount(b: nat): nat {
    FoldBytes(Bytes(Nibbles(Pairs(b))))
  }

  function Pairs(b: nat): nat {
    HalfAnd(b, 0x5555_5555);
    b - And(b / 2, 0x5555_5555)
  }

  function Nibbles(p: nat): nat {
    And(p, 0x3333_3333) + And(p / 4, 0x3333_3333)
  }

  function Bytes(n: nat): nat {
    And(n + n / 16, 0x0f0f_0f0f)
  }

  function FoldBytes(x: nat): nat {
    var halves := x + x / 0x100;
    And(halves + halves / 0x1_0000, 127)
  }

  /** Where the child of slot `i` sits in the packed child array: popcount(bitmap & (bit - 1)). */
  function Index(b: nat, i: nat): nat
  {
    PopCount(And(b, Bit(i) - 1))
  }

  lemma {:induction false} AndAtMost(x: nat, y: nat)
    ensures And(x, y) <= x
  {
    if x != 0 && y != 0 {
      AndAtMost(x / 2, y / 2);
    }
  }

  lemma HalfAnd(x: nat, y: nat)
    ensures And(x / 2, y) <= x
  {
    AndAtMost(x / 2, y);
  }

  // ----- single bits

  lemma {:induction false} NoBits(i: nat)
    ensures !Has(0, i)
  {
    if i > 0 { NoBits(i - 1); }
  }

  /** The source tests `0 != (b & bit)`; the definition of Has walks down to the bit. */
  lemma {:induction false} HasIsMask(b: nat, i: nat)
    ensures Has(b, i) <==> And(b, Bit(i)) != 0
  {
    if b == 0 {
      NoBits(i);
    } else if i > 0 {
      HasIsMask(b / 2, i - 1);
    }
  }

  lemma {:induction false} HasOr(b: nat, i: nat, j: nat)
    ensures Has(Or(b, Bit(i)), j) <==> i == j || Has(b, j)
  {
    if b == 0 {
      NoBits(j);
      HasBit(i, j);
    } else if i > 0 && j > 0 {
      HasOr(b / 2, i - 1, j - 1);
    } else if j > 0 {
      assert Or(b, 1) / 2 == b / 2;
    }
  }

  lemma {:induction false} HasBit(i: nat, j: nat)
    ensures Has(Bit(i), j) <==> i == j
  {
    if i > 0 && j > 0 {
      HasBit(i - 1, j - 1);
    } else if j > 0 {
      NoBits(j - 1);
    }
  }

  lemma {:induction false} HasXor(b: nat, i: nat, j: nat)
    requires Has(b, i)
    ensures Has(Xor(b, Bit(i)), j) <==> i != j && Has(b, j)
  {
    if b == 0 {
      NoBits(i);
    } else if i > 0 && j > 0 {
      HasXor(b / 2, i - 1, j - 1);
    } else if j > 0 {
      assert Xor(b, 1) / 2 == b / 2;
    }
  }

  /** Above bit 0 the operators leave the lowest digit alone. */
  lemma HighBit(b: nat, i: nat)
    requires b != 0 && i > 0
    ensures Or(b, Bit(i)) == 2 * Or(b / 2, Bit(i - 1)) + b % 2
    ensures Xor(b, Bit(i)) == 2 * Xor(b / 2, Bit(i - 1)) + b % 2
  {
    assert Bit(i) / 2 == Bit(i - 1) && Bit(i) % 2 == 0;
  }

  lemma LowBit(b: nat)
    ensures Or(b, 1) == b + 1 - b % 2 && Xor(b, 1) == b + 1 - 2 * (b % 2)
  {
  }

  lemma {:induction false} BitMonotone(i: nat, n: nat)
    requires i < n
    ensures 2 * Bit(i) <= Bit(n)
  {
    if i > 0 { BitMonotone(i - 1, n - 1); } else if n > 1 { BitMonotone(i, n - 1); }
  }

  lemma {:induction false} WordBounds(b: nat, i: nat, n: nat)
    requires b < Bit(n) && i < n
    ensures Or(b, Bit(i)) < Bit(n)
    ensures Xor(b, Bit(i)) < Bit(n)
  {
    assert Bit(n) == 2 * Bit(n - 1);
    if b == 0 {
      BitMonotone(i, n);
    } else if i > 0 {
      HighBit(b, i);
      hide Or, Xor, Bit;
      WordBounds(b / 2, i - 1, n - 1);
    } else {
      LowBit(b);
    }
  }

  // ----- ranks

  lemma {:induction false} RankStep(b: nat, n: nat)
    ensures Rank(b, n + 1) == Rank(b, n) + if Has(b, n) then 1 else 0
  {
    if n > 0 { RankStep(b / 2, n - 1); }
  }

  lemma {:induction false} CountMasked(b: nat, i: nat)
    ensures Count(And(b, Bit(i) - 1)) == Rank(b, i)
  {
    hide And;
    AndZero(b);
    AndZero(Bit(i) - 1);
    if b == 0 {
      RankZero(i);
    } else if i > 0 {
      AndDigit(b / 2, b % 2, Bit(i - 1) - 1);
      CountMasked(b / 2, i - 1);
    }
  }

  lemma {:induction false} RankZero(n: nat)
    ensures Rank(0, n) == 0
  {
    if n > 0 { RankZero(n - 1); }
  }

  lemma {:induction false} CountIsRank(b: nat, n: nat)
    requires b < Bit(n)
    ensures Count(b) == Rank(b, n)
  {
    if b == 0 {
      RankZero(n);
    } else {
      CountIsRank(b / 2, n - 1);
    }
  }

  // ----- the parallel count, one stage at a time: each stage keeps the digit sum in a larger base

  function Fives(k: nat): nat { if k == 0 then 0 else 4 * Fives(k - 1) + 1 }

  function Threes(k: nat): nat { if k == 0 then 0 else 16 * Threes(k - 1) + 3 }

  function Fifteens(k: nat): nat { if k == 0 then 0 else 256 * Fifteens(k - 1) + 15 }

  function Sum4(x: nat, k: nat): nat { if k == 0 then 0 else x % 4 + Sum4(x / 4, k - 1) }

  function Sum16(x: nat, k: nat): nat { if k == 0 then 0 else x % 16 + Sum16(x / 16, k - 1) }

  function Sum256(x: nat, k: nat): nat { if k == 0 then 0 else x % 256 + Sum256(x / 256, k - 1) }

  /** Every base-16 digit is at most 6. */
  predicate SmallNibbles(x: nat, k: nat) {
    if k == 0 then x == 0 else x % 16 <= 6 && SmallNibbles(x / 16, k - 1)
  }

  lemma BitUp(n: nat)
    ensures Bit(n + 2) == 4 * Bit(n)
    ensures Bit(n + 4) == 16 * Bit(n)
    ensures Bit(n + 8) == 256 * Bit(n)
  {
    assert Bit(n + 4) == 4 * Bit(n + 2);
    assert Bit(n + 6) == 4 * Bit(n + 4);
    assert Bit(n + 8) == 4 * Bit(n + 6);
  }

  // Words are taken apart as base * high + low, so that the proofs need no division.

  lemma AndDigit(h: nat, r: nat, y: nat)
    requires r < 2
    ensures And(2 * h + r, 2 * y) == 2 * And(h, y)
    ensures And(2 * h + r, 2 * y + 1) == 2 * And(h, y) + r
  {
    assert (2 * h + r) / 2 == h;
    assert (2 * y + 1) / 2 == y;
  }

  lemma AndQuad(h: nat, s: nat, r: nat, y: nat)
    requires s < 2 && r < 2
    ensures And(4 * h + 2 * s + r, 4 * y) == 4 * And(h, y)
    ensures And(4 * h + 2 * s + r, 4 * y + 1) == 4 * And(h, y) + r
    ensures And(4 * h + 2 * s + r, 4 * y + 3) == 4 * And(h, y) + 2 * s + r
  {
    hide And;
    AndDigit(2 * h + s, r, 2 * y);
    AndDigit(2 * h + s, r, 2 * y + 1);
    AndDigit(h, s, y);
  }

  lemma AndNibble(h: nat, s: nat, r: nat, y: nat)
    requires s < 4 && r < 4
    ensures And(16 * h + 4 * s + r, 16 * y) == 16 * And(h, y)
    ensures And(16 * h + 4 * s + r, 16 * y + 3) == 16 * And(h, y) + r
    ensures And(16 * h + 4 * s + r, 16 * y + 15) == 16 * And(h, y) + 4 * s + r
  {
    hide And;
    AndQuad(4 * h + s, r / 2, r % 2, 4 * y);
    AndQuad(4 * h + s, r / 2, r % 2, 4 * y + 3);
    AndQuad(h, s / 2, s % 2, y);
  }

  lemma AndByte(h: nat, s: nat, r: nat, y: nat)
    requires s < 16 && r < 16
    ensures And(256 * h + 16 * s + r, 256 * y + 15) == 256 * And(h, y) + r
  {
    hide And;
    AndNibble(16 * h + s, r / 4, r % 4, 16 * y);
    AndNibble(h, s / 4, s % 4, y);
  }

  lemma {:induction false} AndLow(h: nat, r: nat, n: nat)
    requires r < Bit(n)
    ensures And(Bit(n) * h + r, Bit(n) - 1) == r
  {
    hide And;
    if n > 0 {
      var x := Bit(n - 1) * h + r / 2;
      assert Bit(n) * h + r == 2 * x + r % 2 by { assert Bit(n) * h == 2 * (Bit(n - 1) * h); }
      AndDigit(x, r % 2, Bit(n - 1) - 1);
      AndLow(h, r / 2, n - 1);
    } else {
      AndZero(h);
    }
  }

  lemma Peel4(h: nat, r: nat, k: nat)
    requires k > 0 && r < 4
    ensures Sum4(4 * h + r, k) == r + Sum4(h, k - 1)
  {
  }

  lemma Peel16(h: nat, r: nat, k: nat)
    requires k > 0 && r < 16
    ensures Sum16(16 * h + r, k) == r + Sum16(h, k - 1)
    ensures r <= 6 && SmallNibbles(h, k - 1) ==> SmallNibbles(16 * h + r, k)
  {
  }

  lemma Peel256(h: nat, r: nat, k: nat)
    requires k > 0 && r < 256
    ensures Sum256(256 * h + r, k) == r + Sum256(h, k - 1)
  {
  }

  lemma AndZero(x: nat)
    ensures And(x, 0) == And(0, x) == 0
  {
  }

  lemma RankPair(h: nat, s: nat, r: nat, n: nat)
    requires s < 2 && r < 2
    ensures Rank(4 * h + 2 * s + r, n + 2) == r + s + Rank(h, n)
  {
    var b := 4 * h + 2 * s + r;
    assert b / 2 == 2 * h + s && b % 2 == r;
    assert Rank(b, n + 2) == r + Rank(b / 2, n + 1);
    assert Rank(2 * h + s, n + 1) == s + Rank(h, n);
  }

  lemma Halved(b: nat) returns (q: nat, r: nat)
    ensures b == 2 * q + r && r < 2 && b / 2 == q
  {
    q, r := b / 2, b % 2;
  }

  lemma Quartered(p: nat) returns (q: nat, r: nat)
    ensures p == 4 * q + r && r < 4 && p / 4 == q
  {
    q, r := p / 4, p % 4;
  }

  /** `q` is the word shifted right by one. */
  lemma {:induction false} PairsStage(b: nat, q: nat, r: nat, k: nat)
    requires b == 2 * q + r && r < 2 && b < Bit(2 * k)
    ensures And(q, Fives(k)) <= b && b - And(q, Fives(k)) < Bit(2 * k)
    ensures Sum4(b - And(q, Fives(k)), k) == Rank(b, 2 * k)
  {
    hide And, Rank, Sum4, Bit, Fives;
    if k > 0 {
      var h, s := Halved(q);
      var g, u := Halved(h);
      LowerPairs(b, h, 2 * s + r, k);
      PairsStage(h, g, u, k - 1);
      PairsStep(q, g, u, s, k);
      PairsUp(b - And(q, Fives(k)), h - And(g, Fives(k - 1)), b, h, s, r, k);
    } else {
      NoPairs(b, q);
    }
  }

  lemma NoPairs(b: nat, q: nat)
    requires b < Bit(0)
    ensures b == 0 == And(q, Fives(0)) && 0 < Bit(0) && Sum4(0, 0) == 0 == Rank(0, 0)
  {
    AndZero(q);
  }

  lemma LowerPairs(b: nat, h: nat, low: nat, k: nat)
    requires k > 0 && b == 4 * h + low && b < Bit(2 * k)
    ensures h < Bit(2 * (k - 1))
  {
    BitUp(2 * (k - 1));
    hide Bit;
    assert Bit(2 * k) == 4 * Bit(2 * (k - 1));
  }

  lemma PairsStep(q: nat, g: nat, u: nat, s: nat, k: nat)
    requires k > 0 && q == 4 * g + 2 * u + s && u < 2 && s < 2
    ensures And(q, Fives(k)) == 4 * And(g, Fives(k - 1)) + s
  {
    hide And;
    AndQuad(g, u, s, Fives(k - 1));
  }

  lemma PairsUp(n: int, m: nat, b: nat, h: nat, s: nat, r: nat, k: nat)
    requires k > 0 && b == 4 * h + 2 * s + r && r < 2 && s < 2 && n == 4 * m + (s + r)
    requires m < Bit(2 * (k - 1)) && Sum4(m, k - 1) == Rank(h, 2 * (k - 1))
    ensures 0 <= n < Bit(2 * k) && Sum4(n, k) == Rank(b, 2 * k)
  {
    BitUp(2 * (k - 1));
    hide Rank, Sum4, Bit;
    Peel4(m, s + r, k);
    RankPair(h, s, r, 2 * (k - 1));
    assert Bit(2 * k) == 4 * Bit(2 * (k - 1));
  }

  /** `q` is the word shifted right by two. */
  lemma {:induction false} NibblesStage(p: nat, q: nat, r: nat, k: nat)
    requires p == 4 * q + r && r < 4 && p < Bit(4 * k)
    ensures var n := And(p, Threes(k)) + And(q, Threes(k));
            n < Bit(4 * k) && SmallNibbles(n, k) && Sum16(n, k) == Sum4(p, 2 * k)
  {
    hide And, Sum4, Sum16, Bit, Threes, SmallNibbles;
    if k > 0 {
      var h, s := Quartered(q);
      var g, u := Quartered(h);
      LowerNibbles(p, h, 4 * s + r, k);
      NibblesStage(h, g, u, k - 1);
      NibblesStep(p, q, r, h, s, g, u, k);
      NibblesUp(And(p, Threes(k)) + And(q, Threes(k)), And(h, Threes(k - 1)) + And(g, Threes(k - 1)), p, q, r, h, s, k);
    } else {
      NoNibbles(p, q);
    }
  }

  lemma NoNibbles(p: nat, q: nat)
    requires p < Bit(0)
    ensures And(p, Threes(0)) + And(q, Threes(0)) == 0 && 0 < Bit(0) && SmallNibbles(0, 0) && Sum16(0, 0) == 0 == Sum4(p, 0)
  {
    AndZero(p);
    AndZero(q);
  }

  lemma LowerNibbles(p: nat, h: nat, low: nat, k: nat)
    requires k > 0 && p == 16 * h + low && p < Bit(4 * k)
    ensures h < Bit(4 * (k - 1))
  {
    BitUp(4 * (k - 1));
    hide Bit;
    assert Bit(4 * k) == 16 * Bit(4 * (k - 1));
  }

  lemma NibblesStep(p: nat, q: nat, r: nat, h: nat, s: nat, g: nat, u: nat, k: nat)
    requires k > 0 && p == 4 * q + r && q == 4 * h + s && h == 4 * g + u && r < 4 && s < 4 && u < 4
    ensures And(p, Threes(k)) + And(q, Threes(k)) == 16 * (And(h, Threes(k - 1)) + And(g, Threes(k - 1))) + (s + r)
  {
    hide And;
    AndNibble(h, s, r, Threes(k - 1));
    AndNibble(g, u, s, Threes(k - 1));
  }

  lemma NibblesUp(n: nat, m: nat, p: nat, q: nat, r: nat, h: nat, s: nat, k: nat)
    requires k > 0 && p == 4 * q + r && q == 4 * h + s && r < 4 && s < 4 && n == 16 * m + (s + r)
    requires m < Bit(4 * (k - 1)) && SmallNibbles(m, k - 1) && Sum16(m, k - 1) == Sum4(h, 2 * (k - 1))
    ensures n < Bit(4 * k) && SmallNibbles(n, k) && Sum16(n, k) == Sum4(p, 2 * k)
  {
    BitUp(4 * (k - 1));
    hide Sum4, Sum16, Bit, SmallNibbles;
    Peel16(m, s + r, k);
    Peel4(q, r, 2 * k);
    Peel4(h, s, 2 * k - 1);
    assert Bit(4 * k) == 16 * Bit(4 * (k - 1));
  }

  /** Adding neighbouring nibbles cannot carry when all of them are at most 6. */
  lemma BytesStep(h: nat, s: nat, r: nat, y: nat)
    requires s <= 6 && r <= 6 && h % 16 <= 6
    ensures var n := 256 * h + 16 * s + r;
            And(n + n / 16, 256 * y + 15) == 256 * And(h + h / 16, y) + (s + r)
  {
    hide And;
    var n := 256 * h + 16 * s + r;
    assert n / 16 == 16 * h + s;
    assert n + n / 16 == 256 * (h + h / 16) + 16 * (h % 16 + s) + (s + r);
    AndByte(h + h / 16, h % 16 + s, s + r, y);
  }

  lemma {:induction false} BytesStage(n: nat, k: nat)
    requires n < Bit(8 * k) && SmallNibbles(n, 2 * k)
    ensures And(n + n / 16, Fifteens(k)) < Bit(8 * k)
    ensures Sum256(And(n + n / 16, Fifteens(k)), k) == Sum16(n, 2 * k)
  {
    hide And;
    if k > 0 {
      BitUp(8 * (k - 1));
      var m, r := n / 16, n % 16;
      var h, s := m / 16, m % 16;
      assert n == 256 * h + 16 * s + r;
      LowNibbles(n, m, h, k);
      BytesStage(h, k - 1);
      BytesStep(h, s, r, Fifteens(k - 1));
      Peel256(And(h + h / 16, Fifteens(k - 1)), s + r, k);
    } else {
      AndZero(n + n / 16);
    }
  }

  lemma LowNibbles(n: nat, m: nat, h: nat, k: nat)
    requires k > 0 && SmallNibbles(n, 2 * k) && m == n / 16 && h == m / 16
    ensures SmallNibbles(h, 2 * (k - 1)) && n % 16 <= 6 && m % 16 <= 6 && h % 16 <= 6
    ensures Sum16(n, 2 * k) == n % 16 + m % 16 + Sum16(h, 2 * (k - 1))
  {
    assert SmallNibbles(m, 2 * k - 1);
    assert Sum16(m, 2 * k - 1) == m % 16 + Sum16(h, 2 * k - 2);
  }

  lemma PairsKeep(b: nat, k: nat)
    requires b < Bit(2 * k) && Fives(k) == 0x5555_5555
    ensures Pairs(b) < Bit(2 * k) && Sum4(Pairs(b), k) == Rank(b, 2 * k)
  {
    var q, r := Halved(b);
    PairsStage(b, q, r, k);
  }

  lemma NibblesKeep(p: nat, k: nat)
    requires p < Bit(4 * k) && Threes(k) == 0x3333_3333
    ensures Nibbles(p) < Bit(4 * k) && SmallNibbles(Nibbles(p), k) && Sum16(Nibbles(p), k) == Sum4(p, 2 * k)
  {
    var q, r := Quartered(p);
    NibblesStage(p, q, r, k);
  }

  lemma BytesKeep(n: nat, k: nat)
    requires n < Bit(8 * k) && SmallNibbles(n, 2 * k) && Fifteens(k) == 0x0f0f_0f0f
    ensures Bytes(n) < Bit(8 * k) && Sum256(Bytes(n), k) == Sum16(n, 2 * k)
  {
    BytesStage(n, k);
  }

  lemma PopCountCounts(b: nat)
    requires b < WORD
    ensures PopCount(b) == Count(b)
  {
    Words();
    PairsKeep(b, 16);
    NibblesKeep(Pairs(b), 8);
    BytesKeep(Nibbles(Pairs(b)), 4);
    CountIsRank(b, 32);
    SumBytes(Bytes(Nibbles(Pairs(b))));
  }

  lemma SumBytes(x: nat)
    requires x < WORD && Sum256(x, 4) <= 32
    ensures FoldBytes(x) == Sum256(x, 4)
  {
    var b0, y := x % 256, x / 256;
    var b1, z := y % 256, y / 256;
    var b2, b3 := z % 256, z / 256;
    assert x == b0 + 0x100 * b1 + 0x1_0000 * b2 + 0x100_0000 * b3;
    assert Sum256(x, 4) == b0 + Sum256(y, 3);
    assert Sum256(y, 3) == b1 + Sum256(z, 2);
    assert Sum256(z, 2) == b2 + Sum256(b3, 1);
    FourBytes(b0, b1, b2, b3);
  }

  lemma Words()
    ensures Bit(32) == WORD
    ensures Fives(16) == 0x5555_5555 && Threes(8) == 0x3333_3333 && Fifteens(4) == 0x0f0f_0f0f
  {
    BitUp(0);
    BitUp(8);
    BitUp(16);
    BitUp(24);
    assert Fives(4) == 0x55;
    assert Fives(8) == 0x5555;
    assert Fives(12) == 0x55_5555;
    assert Threes(4) == 0x3333;
    assert Fifteens(2) == 0x0f0f;
  }

  /** The last two additions sum the four bytes, whose total is at most 32 and so survives the mask. */
  lemma FourBytes(b0: nat, b1: nat, b2: nat, b3: nat)
    requires b0 + b1 + b2 + b3 <= 32
    ensures FoldBytes(b0 + 0x100 * b1 + 0x1_0000 * b2 + 0x100_0000 * b3) == b0 + b1 + b2 + b3
  {
    hide And;
    var x := b0 + 0x100 * b1 + 0x1_0000 * b2 + 0x100_0000 * b3;
    var halves := x + x / 0x100;
    assert x / 0x100 == b1 + 0x100 * b2 + 0x1_0000 * b3;
    assert halves / 0x1_0000 == (b2 + b3) + 0x100 * b3;
    var all := halves + halves / 0x1_0000;
    var h := 2 * (b1 + b2 + b3) + 0x200 * (b2 + b3) + 0x2_0000 * b3;
    assert all == 128 * h + (b0 + b1 + b2 + b3);
    assert Bit(7) == 128;
    AndLow(h, b0 + b1 + b2 + b3, 7);
  }

  /** The position trick: the popcount of the bits below `bit` is the number of occupied slots below it. */
  lemma IndexIsRank(b: nat, i: nat)
    requires b < WORD
    ensures Index(b, i) == Rank(b, i)
  {
    hide PopCount;
    hide And;
    AndAtMost(b, Bit(i) - 1);
    PopCountCounts(And(b, Bit(i) - 1));
    CountMasked(b, i);
  }
}
