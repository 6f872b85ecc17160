/** Quotient and remainder by their defining equation. */
module Division {
  /** The equation determines quotient and remainder. */
  lemma DivMod(x: int, d: nat, q: int, r: nat)
    requires d > 0 && x == q * d + r && r < d
    ensures x / d == q && x % d == r
  {
    var e := x / d - q;
    assert x == x / d * d + x % d;
    assert e * d == r - x % d by { Distribute(x / d, q, d); }
    if e >= 1 { AtLeast(e, d); }
    if e <= -1 { AtLeast(-e, d); }
  }

  lemma Distribute(a: int, b: int, d: int)
    ensures (a - b) * d == a * d - b * d
  {
  }

  lemma AtLeast(e: int, d: nat)
    requires e >= 1
    ensures e * d >= d
  {
  }
}
