/** Signed integers of any width in bytes, in either byte order. */
module IntegerBytes {
  import opened Division
  import opened Utf8

  function Pow(k: nat): nat {
    if k == 0 then 1 else 0x100 * Pow(k - 1)
  }

  lemma {:induction false} PowPositive(k: nat)
    ensures Pow(k) > 0 && (k > 0 ==> Pow(k) % 2 == 0)
  {
    if k > 0 {
      PowPositive(k - 1);
      DivMod(Pow(k), 2, 0x80 * Pow(k - 1), 0);
    }
  }

  /** The k-th base-256 digit of `v` in two's complement, the lowest being the 0-th. */
  function Digit(v: int, k: nat): (b: Byte) {
    PowPositive(k);
    v / Pow(k) % 0x100
  }

  /** The value of the first `n` digits. */
  function Sum(digit: nat -> Byte, n: nat): nat {
    if n == 0 then 0 else Sum(digit, n - 1) + digit(n - 1) * Pow(n - 1)
  }

  lemma Scale(a: int, b: int, c: int)
    ensures a * (b * c) == (a * b) * c && a * (b + c) == a * b + a * c && (a + b) * c == a * c + b * c
  {
  }

  /** What lies below the k+1-st digit is the k-th digit and what lies below that. */
  lemma BelowNext(v: int, k: nat)
    ensures Pow(k) > 0 && Pow(k + 1) > 0
    ensures v % Pow(k + 1) == Digit(v, k) * Pow(k) + v % Pow(k)
  {
    PowPositive(k);
    PowPositive(k + 1);
    var p := Pow(k);
    var q, r := v / p, v % p;
    var h, d := q / 0x100, q % 0x100;
    Scale(h, 0x100, p);
    Scale(h * 0x100, d, p);
    AtMost(d, p, r);
    DivMod(v, 0x100 * p, h, d * p + r);
  }

  lemma AtMost(d: nat, p: nat, r: nat)
    requires d < 0x100 && r < p
    ensures d * p + r < 0x100 * p
  {
    assert d * p <= 0xFF * p;
  }

  /** The digits of a number add up to it, modulo the width. */
  lemma {:induction false} SumDigits(v: int, digit: nat -> Byte, n: nat)
    requires forall k :: 0 <= k < n ==> digit(k) == Digit(v, k)
    ensures Pow(n) > 0 && Sum(digit, n) == v % Pow(n)
  {
    PowPositive(n);
    if n > 0 {
      SumDigits(v, digit, n - 1);
      BelowNext(v, n - 1);
    }
  }

  // ----- truncating and flooring division

  /** Division as JavaScript's `t / u >> 0` does it. */
  function Truncated(t: int, u: nat): int
    requires u > 0
  {
    if t >= 0 then t / u else -(-t / u)
  }

  /** The borrow turns truncation into the floor. */
  lemma FloorFromTruncated(t: int, u: nat)
    requires u > 0
    ensures t / u == Truncated(t, u) - if t < 0 && t % u != 0 then 1 else 0
  {
    if t < 0 {
      var q, r := -t / u, -t % u;
      if r == 0 {
        Scale(-1, q, u);
        DivMod(t, u, -q, 0);
      } else {
        Scale(-q, -1, u);
        assert (-q + -1) * u == -q * u + -1 * u;
        Negate(q, u);
        DivMod(t, u, -q - 1, u - r);
      }
    }
  }

  lemma Negate(q: int, u: int)
    ensures -q * u == -(q * u)
  {
  }

  // ----- the loops

  predicate InRange(v: int, n: nat)
    requires n > 0
  {
    -(0x80 * Pow(n - 1)) <= v < 0x80 * Pow(n - 1)
  }

  /** The position of the k-th digit in a number of `n` bytes. */
  function At(little: bool, n: nat, k: nat): nat
    requires k < n
  {
    if little then k else n - 1 - k
  }

  /** writeIntLE and writeIntBE: false, with nothing written, when value or offset is out of range. */
  method WriteInt(a: array<Byte>, v: int, at: nat, n: nat, little: bool) returns (ok: bool)
    requires n > 0
    modifies a
    ensures ok <==> InRange(v, n) && at + n <= a.Length
    ensures !ok ==> a[..] == old(a[..])
    ensures ok ==> forall k :: 0 <= k < n ==> a[at + At(little, n, k)] == Digit(v, k)
    ensures ok ==> forall i :: 0 <= i < a.Length && !(at <= i < at + n) ==> a[i] == old(a[i])
  {
    if !InRange(v, n) || at + n > a.Length { return false; }
    ok := true;
    hide Digit;
    var u, borrow, o := 1, 0, 1;
    a[at + At(little, n, 0)] := v % 0x100;
    FirstDigit(v);
    while o < n
      invariant 1 <= o <= n && u == Pow(o - 1) > 0
      invariant borrow == if v < 0 && v % u != 0 then 1 else 0
      invariant forall k :: 0 <= k < o ==> a[at + At(little, n, k)] == Digit(v, k)
      invariant forall i :: 0 <= i < a.Length && !(at <= i < at + n) ==> a[i] == old(a[i])
    {
      BorrowStep(v, o);
      u := u * 0x100;
      if v < 0 && borrow == 0 && a[at + At(little, n, o - 1)] != 0 { borrow := 1; }
      FloorFromTruncated(v, u);
      NextDigit(v, o);
      a[at + At(little, n, o)] := (Truncated(v, u) - borrow) % 0x100;
      o := o + 1;
    }
  }

  lemma FirstDigit(v: int)
    ensures Digit(v, 0) == v % 0x100 && v % 1 == 0 && Pow(0) == 1
  {
  }

  lemma NextDigit(v: int, k: nat)
    ensures Pow(k) > 0 && Digit(v, k) == v / Pow(k) % 0x100
  {
    PowPositive(k);
  }

  /** Something lies below the o-th digit exactly when something lies below the one before it, or that one is not 0. */
  lemma BorrowStep(v: int, o: nat)
    requires o > 0
    ensures Pow(o - 1) > 0 && Pow(o) == Pow(o - 1) * 0x100 > 0
    ensures v % Pow(o) != 0 <==> v % Pow(o - 1) != 0 || Digit(v, o - 1) != 0
  {
    BelowNext(v, o - 1);
    hide Digit;
    var d, p := Digit(v, o - 1), Pow(o - 1);
    if d == 0 {
      assert d * p == 0;
    } else {
      assert d * p >= p by { Division.AtLeast(d, p); }
    }
  }

  /** readIntLE and readIntBE. */
  method ReadInt(a: array<Byte>, at: nat, n: nat, little: bool) returns (r: int)
    requires n > 0 && at + n <= a.Length
    ensures r == Signed(Sum(Bytes(a[at..at + n], little), n), n)
  {
    ghost var digit := Bytes(a[at..at + n], little);
    var i: nat, o: nat := 1, 1;
    r := a[at + At(little, n, 0)];
    assert digit(0) == a[at + At(little, n, 0)];
    while o < n
      invariant 1 <= o <= n && i == Pow(o - 1) && r == Sum(digit, o)
    {
      i := i * 0x100;
      assert digit(o) == a[at + At(little, n, o)];
      r := r + a[at + At(little, n, o)] * i;
      o := o + 1;
    }
    i := i * 0x80;
    if r >= i { r := r - Pow(n); }
  }

  /** The digits a stretch of bytes spells. */
  function Bytes(s: seq<Byte>, little: bool): nat -> Byte {
    (k: nat) => if k < |s| then s[At(little, |s|, k)] else 0
  }

  function Signed(sum: nat, n: nat): int
    requires n > 0
  {
    if sum >= 0x80 * Pow(n - 1) then sum - Pow(n) else sum
  }

  // ----- the byte order

  lemma {:induction false} SumShifted(d: nat -> Byte, e: nat -> Byte, n: nat)
    requires n > 0 && forall k :: 0 <= k < n - 1 ==> e(k) == d(k + 1)
    ensures Sum(d, n) == d(0) + 0x100 * Sum(e, n - 1)
  {
    if n > 1 {
      SumShifted(d, e, n - 1);
      var p := Pow(n - 2);
      assert Sum(e, n - 1) == Sum(e, n - 2) + e(n - 2) * p && Pow(n - 1) == 0x100 * p;
      Shift(d(n - 1), p);
    } else {
      assert Pow(0) == 1;
    }
  }

  lemma Shift(b: int, p: int)
    ensures b * (0x100 * p) == 0x100 * (b * p)
  {
  }

  /** Little-endian, the first byte counts ones and the others count on from it. */
  lemma LittleEndian(s: seq<Byte>)
    requires s != []
    ensures Sum(Bytes(s, true), |s|) == s[0] + 0x100 * Sum(Bytes(s[1..], true), |s| - 1)
  {
    hide Sum, Pow;
    var rest := s[1..];
    forall k | 0 <= k < |s| - 1 ensures Bytes(rest, true)(k) == Bytes(s, true)(k + 1) {
      assert rest[k] == s[k + 1];
    }
    SumShifted(Bytes(s, true), Bytes(rest, true), |s|);
  }

  /** Big-endian, the last byte does. */
  lemma BigEndian(s: seq<Byte>)
    requires s != []
    ensures Sum(Bytes(s, false), |s|) == s[|s| - 1] + 0x100 * Sum(Bytes(s[..|s| - 1], false), |s| - 1)
  {
    hide Sum, Pow;
    var front := s[..|s| - 1];
    forall k | 0 <= k < |s| - 1 ensures Bytes(front, false)(k) == Bytes(s, false)(k + 1) {
      assert front[|s| - 2 - k] == s[|s| - 2 - k];
    }
    SumShifted(Bytes(s, false), Bytes(front, false), |s|);
  }

  /** What was written, as a number in its byte order: the value modulo the width. */
  lemma WrittenValue(v: int, s: seq<Byte>, little: bool)
    requires forall k :: 0 <= k < |s| ==> s[At(little, |s|, k)] == Digit(v, k)
    ensures Pow(|s|) > 0 && Sum(Bytes(s, little), |s|) == v % Pow(|s|)
  {
    hide Digit;
    SumDigits(v, Bytes(s, little), |s|);
  }

  /** What was written is read back, for every value in range. */
  lemma RoundTrip(v: int, s: seq<Byte>, little: bool)
    requires |s| > 0 && InRange(v, |s|) && forall k :: 0 <= k < |s| ==> s[At(little, |s|, k)] == Digit(v, k)
    ensures Signed(Sum(Bytes(s, little), |s|), |s|) == v
  {
    var n := |s|;
    hide Digit;
    SumDigits(v, Bytes(s, little), n);
    if v >= 0 {
      DivMod(v, Pow(n), 0, v);
    } else {
      DivMod(v, Pow(n), -1, v + Pow(n));
    }
  }

  lemma {:induction false} SumBelow(digit: nat -> Byte, n: nat)
    ensures Pow(n) > 0 && Sum(digit, n) < Pow(n)
  {
    PowPositive(n);
    if n > 0 {
      SumBelow(digit, n - 1);
      AtMost(digit(n - 1), Pow(n - 1), Sum(digit, n - 1));
    }
  }

  /** Whatever bytes are read, the number can be written back, and is in those bytes: the range is exactly what they hold. */
  lemma ReadBack(s: seq<Byte>, little: bool)
    requires s != []
    ensures var v := Signed(Sum(Bytes(s, little), |s|), |s|);
            InRange(v, |s|) && Pow(|s|) > 0 && v % Pow(|s|) == Sum(Bytes(s, little), |s|)
  {
    var n, sum := |s|, Sum(Bytes(s, little), |s|);
    SumBelow(Bytes(s, little), n);
    assert Pow(n) == 0x100 * Pow(n - 1);
    hide Sum, Bytes;
    DivMod(Signed(sum, n), Pow(n), if sum >= 0x80 * Pow(n - 1) then -1 else 0, sum);
  }
}
