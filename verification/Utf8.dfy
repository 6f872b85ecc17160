/** UTF-8 (section 3 of RFC 3629) and UTF-16 as the buffer module converts them. */
module Utf8 {
  import opened Division

  type Byte = b: nat | b < 256
  type Unit = u: nat | u < 0x10000

  const REPLACEMENT: nat := 0xFFFD

  predicate Lead(u: nat) { 0xD800 <= u < 0xDC00 }

  predicate Trail(u: nat) { 0xDC00 <= u < 0xE000 }

  predicate Surrogate(u: nat) { Lead(u) || Trail(u) }

  /** A Unicode scalar value. */
  predicate Scalar(cp: nat) { cp < 0x110000 && !Surrogate(cp) }

  predicate Scalars(cps: seq<nat>) { forall i :: 0 <= i < |cps| ==> Scalar(cps[i]) }

  // ----- one code point

  function Units(cp: nat): (s: seq<Unit>)
    requires cp < 0x110000
  {
    if cp < 0x10000 then [cp] else [(cp - 0x10000) / 0x400 + 0xD800, (cp - 0x10000) % 0x400 + 0xDC00]
  }

  function Bytes(cp: nat): (s: seq<Byte>)
    requires cp < 0x110000
    ensures 1 <= |s| <= 4
  {
    if cp < 0x80 then [cp]
    else if cp < 0x800 then [cp / 0x40 + 0xC0, cp % 0x40 + 0x80]
    else if cp < 0x10000 then [cp / 0x1000 + 0xE0, cp / 0x40 % 0x40 + 0x80, cp % 0x40 + 0x80]
    else [cp / 0x40000 + 0xF0, cp / 0x1000 % 0x40 + 0x80, cp / 0x40 % 0x40 + 0x80, cp % 0x40 + 0x80]
  }

  /** The length a first byte announces. */
  function Announced(b: Byte): nat {
    if b > 239 then 4 else if b > 223 then 3 else if b > 191 then 2 else 1
  }

  predicate Continuation(b: Byte) { b / 0x40 == 2 }

  function Join2(a: nat, b: nat): nat { a % 0x20 * 0x40 + b % 0x40 }

  function Join3(a: nat, b: nat, c: nat): nat { a % 0x10 * 0x1000 + b % 0x40 * 0x40 + c % 0x40 }

  function Join4(a: nat, b: nat, c: nat, d: nat): nat { a % 0x10 * 0x40000 + b % 0x40 * 0x1000 + c % 0x40 * 0x40 + d % 0x40 }

  /** What the decoder reads at the start of `t`, unless it is malformed. */
  function ReadPoint(t: seq<Byte>): (cp: int)
    requires t != []
    ensures cp == -1 || (cp >= 0 && Scalar(cp) && Announced(t[0]) <= |t|)
  {
    var c := t[0];
    if Announced(c) > |t| then -1
    else if Announced(c) == 1 then (if c < 0x80 then c else -1)
    else if Announced(c) == 2 then
      var cp := Join2(c, t[1]);
      if Continuation(t[1]) && cp > 0x7F then cp else -1
    else if Announced(c) == 3 then
      var cp := Join3(c, t[1], t[2]);
      if Continuation(t[1]) && Continuation(t[2]) && cp > 0x7FF && (cp < 0xD800 || cp > 0xDFFF) then cp else -1
    else
      var cp := Join4(c, t[1], t[2], t[3]);
      if Continuation(t[1]) && Continuation(t[2]) && Continuation(t[3]) && cp > 0xFFFF && cp < 0x110000 then cp else -1
  }

  // ----- sequences

  function UnitsOf(cps: seq<nat>): seq<Unit>
    requires forall i :: 0 <= i < |cps| ==> cps[i] < 0x110000
  {
    if cps == [] then [] else Units(cps[0]) + UnitsOf(cps[1..])
  }

  function BytesOf(cps: seq<nat>): seq<Byte>
    requires forall i :: 0 <= i < |cps| ==> cps[i] < 0x110000
  {
    if cps == [] then [] else Bytes(cps[0]) + BytesOf(cps[1..])
  }

  /** The code points the decoder makes of any bytes. */
  function Points(t: seq<Byte>): (cps: seq<nat>)
    ensures Scalars(cps)
    decreases |t|
  {
    if t == [] then []
    else
      var cp := ReadPoint(t);
      if cp < 0 then [REPLACEMENT] + Points(t[1..]) else [cp] + Points(t[Announced(t[0])..])
  }

  /** No surrogate stands alone. */
  predicate Paired(s: seq<Unit>)
    decreases |s|
  {
    s == [] || (if Lead(s[0]) then |s| > 1 && Trail(s[1]) && Paired(s[2..]) else !Trail(s[0]) && Paired(s[1..]))
  }

  // ----- properties of the decoder

  lemma UnitsPaired(cp: nat, rest: seq<Unit>)
    requires Scalar(cp) && Paired(rest)
    ensures Paired(Units(cp) + rest)
  {
    var s := Units(cp) + rest;
    if cp < 0x10000 {
      assert s[1..] == rest;
    } else {
      assert s[2..] == rest;
    }
  }

  /** Scalar values never produce a lone surrogate. */
  lemma {:induction false} PairedUnits(cps: seq<nat>)
    requires Scalars(cps)
    ensures Paired(UnitsOf(cps))
  {
    if cps != [] {
      PairedUnits(cps[1..]);
      UnitsPaired(cps[0], UnitsOf(cps[1..]));
    }
  }

  /** Whatever the bytes, the decoded text has no lone surrogate. */
  lemma DecodedPaired(t: seq<Byte>)
    ensures Paired(UnitsOf(Points(t)))
  {
    PairedUnits(Points(t));
  }

  lemma BytesAnnounce(cp: nat)
    requires Scalar(cp)
    ensures Announced(Bytes(cp)[0]) == |Bytes(cp)|
    ensures forall i :: 0 < i < |Bytes(cp)| ==> Continuation(Bytes(cp)[i])
  {
  }

  lemma JoinSplit2(cp: nat)
    requires 0x80 <= cp < 0x800
    ensures Join2(cp / 0x40 + 0xC0, cp % 0x40 + 0x80) == cp
  {
    DivMod(cp / 0x40 + 0xC0, 0x20, 6, cp / 0x40);
    DivMod(cp % 0x40 + 0x80, 0x40, 2, cp % 0x40);
  }

  lemma JoinSplit3(cp: nat)
    requires 0x800 <= cp < 0x10000
    ensures Join3(cp / 0x1000 + 0xE0, cp / 0x40 % 0x40 + 0x80, cp % 0x40 + 0x80) == cp
  {
    var x := cp / 0x40;
    DivMod(cp, 0x1000, x / 0x40, x % 0x40 * 0x40 + cp % 0x40);
    DivMod(x / 0x40 + 0xE0, 0x10, 14, x / 0x40);
    DivMod(x % 0x40 + 0x80, 0x40, 2, x % 0x40);
    DivMod(cp % 0x40 + 0x80, 0x40, 2, cp % 0x40);
  }

  lemma JoinSplit4(cp: nat)
    requires 0x10000 <= cp < 0x110000
    ensures Join4(cp / 0x40000 + 0xF0, cp / 0x1000 % 0x40 + 0x80, cp / 0x40 % 0x40 + 0x80, cp % 0x40 + 0x80) == cp
  {
    var x := cp / 0x40;
    var y := x / 0x40;
    DivMod(cp, 0x1000, y, x % 0x40 * 0x40 + cp % 0x40);
    DivMod(cp, 0x40000, y / 0x40, y % 0x40 * 0x1000 + x % 0x40 * 0x40 + cp % 0x40);
    DivMod(y / 0x40 + 0xF0, 0x10, 15, y / 0x40);
    DivMod(y % 0x40 + 0x80, 0x40, 2, y % 0x40);
    DivMod(x % 0x40 + 0x80, 0x40, 2, x % 0x40);
    DivMod(cp % 0x40 + 0x80, 0x40, 2, cp % 0x40);
  }

  lemma ReadBytes(cp: nat, rest: seq<Byte>)
    requires Scalar(cp)
    ensures ReadPoint(Bytes(cp) + rest) == cp
  {
    var t := Bytes(cp) + rest;
    BytesAnnounce(cp);
    assert t[0] == Bytes(cp)[0] && forall i :: 0 < i < |Bytes(cp)| ==> t[i] == Bytes(cp)[i] && Continuation(t[i]);
    if cp < 0x80 {
    } else if cp < 0x800 {
      JoinSplit2(cp);
    } else if cp < 0x10000 {
      JoinSplit3(cp);
    } else {
      JoinSplit4(cp);
    }
  }

  /** Decoding what was encoded gives the same code points. */
  lemma {:induction false} DecodeEncode(cps: seq<nat>)
    requires Scalars(cps)
    ensures Points(BytesOf(cps)) == cps
  {
    if cps != [] {
      var t := BytesOf(cps);
      ReadBytes(cps[0], BytesOf(cps[1..]));
      BytesAnnounce(cps[0]);
      assert t[Announced(t[0])..] == BytesOf(cps[1..]);
      DecodeEncode(cps[1..]);
    }
  }
}
