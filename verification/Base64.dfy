/** base64 (section 4 of RFC 4648): the blocked converter of the buffer module and the rolling one of the YAML binary type. */
module Base64 {
  import opened Options
  import opened Division
  import opened Utf8

  // ----- the alphabet

  function Char(v: nat): (c: char)
    requires v < 64
    ensures c != '=' && c != '\n' && c != '\r'
  {
    if v < 26 then 'A' + v as char
    else if v < 52 then 'a' + (v - 26) as char
    else if v < 62 then '0' + (v - 52) as char
    else if v == 62 then '+' else '/'
  }

  /** What the reverse table holds for a character; one outside the alphabet counts as 0. */
  function Value(c: char): (v: nat)
    ensures v < 64
  {
    if 'A' <= c <= 'Z' then (c - 'A') as nat
    else if 'a' <= c <= 'z' then (c - 'a') as nat + 26
    else if '0' <= c <= '9' then (c - '0') as nat + 52
    else if c == '+' || c == '-' then 62
    else if c == '/' || c == '_' then 63
    else 0
  }

  lemma ValueChar(v: nat)
    requires v < 64
    ensures Value(Char(v)) == v
  {
  }

  // ----- the reference encoding

  function Quad(n: nat): string
    requires n < 0x1000000
  {
    [Char(n / 0x40000), Char(n / 0x1000 % 64), Char(n / 64 % 64), Char(n % 64)]
  }

  function Triple(a: nat, b: nat, c: nat): nat { a * 0x10000 + b * 0x100 + c }

  /** Three bytes at a time, and the rest padded. */
  function Encoded(t: seq<Byte>): string {
    if |t| == 0 then ""
    else if |t| == 1 then [Char(t[0] / 4), Char(t[0] % 4 * 16), '=', '=']
    else if |t| == 2 then [Char(t[0] / 4), Char(t[0] % 4 * 16 + t[1] / 16), Char(t[1] % 16 * 4), '=']
    else Quad(Triple(t[0], t[1], t[2])) + Encoded(t[3..])
  }

  lemma {:induction false} EncodedConcat(a: seq<Byte>, b: seq<Byte>)
    requires |a| % 3 == 0
    ensures Encoded(a + b) == Encoded(a) + Encoded(b)
    decreases |a|
  {
    if a == [] {
      assert a + b == b;
    } else {
      assert (a + b)[3..] == a[3..] + b;
      EncodedConcat(a[3..], b);
    }
  }

  // ----- fromByteArray

  /** The block t[from..to] of whole triples. */
  method EncodeChunk(t: seq<Byte>, from: nat, to: nat) returns (o: string)
    requires from <= to <= |t| && (to - from) % 3 == 0
    ensures o == Encoded(t[from..to])
  {
    hide Quad, Encoded;
    o := "";
    var s := from;
    EncodedNone(t[from..from]);
    while s < to
      invariant from <= s <= to && (s - from) % 3 == 0
      invariant o == Encoded(t[from..s])
    {
      assert t[from..s] + t[s..s + 3] == t[from..s + 3];
      EncodedConcat(t[from..s], t[s..s + 3]);
      EncodedTriple(t[s..s + 3]);
      o := o + Quad(Triple(t[s], t[s + 1], t[s + 2]));
      s := s + 3;
    }
  }

  lemma EncodedNone(t: seq<Byte>)
    requires t == []
    ensures Encoded(t) == ""
  {
  }

  lemma EncodedTriple(t: seq<Byte>)
    requires |t| == 3
    ensures Encoded(t) == Quad(Triple(t[0], t[1], t[2]))
  {
    EncodedNone(t[3..]);
  }

  /** Blocks of 16383 bytes, and a padded rest of one or two. */
  method FromByteArray(t: seq<Byte>) returns (o: string)
    ensures o == Encoded(t)
  {
    hide Encoded, Char;
    var rest := |t| % 3;
    var whole := |t| - rest;
    o := "";
    var u := 0;
    EncodedNone(t[..0]);
    while u < whole
      invariant u <= whole && u % 3 == 0 && o == Encoded(t[..u])
      decreases whole - u
    {
      var end := if u + 16383 > whole then whole else u + 16383;
      var chunk := EncodeChunk(t, u, end);
      assert t[..u] + t[u..end] == t[..end];
      EncodedConcat(t[..u], t[u..end]);
      o := o + chunk;
      u := end;
    }
    assert t[..whole] + t[whole..] == t;
    EncodedConcat(t[..whole], t[whole..]);
    EncodedTail(t[whole..]);
    if rest == 1 {
      o := o + [Char(t[whole] / 4), Char(t[whole] % 4 * 16), '=', '='];
    } else if rest == 2 {
      o := o + [Char(t[whole] / 4), Char(t[whole] % 4 * 16 + t[whole + 1] / 16), Char(t[whole + 1] % 16 * 4), '='];
    }
  }

  lemma EncodedTail(t: seq<Byte>)
    requires |t| < 3
    ensures |t| == 0 ==> Encoded(t) == ""
    ensures |t| == 1 ==> Encoded(t) == [Char(t[0] / 4), Char(t[0] % 4 * 16), '=', '=']
    ensures |t| == 2 ==> Encoded(t) == [Char(t[0] / 4), Char(t[0] % 4 * 16 + t[1] / 16), Char(t[1] % 16 * 4), '=']
  {
  }

  // ----- toByteArray

  /** The position of the first '=', or the length. */
  function PadAt(s: string): (n: nat)
    ensures n <= |s| && (n < |s| ==> s[n] == '=') && forall i :: 0 <= i < n ==> s[i] != '='
  {
    if s == "" || s[0] == '=' then 0
    else
      var n := PadAt(s[1..]);
      assert forall i :: 0 < i < n + 1 ==> s[i] == s[1..][i - 1];
      n + 1
  }

  function QuadValue(s: string): nat
    requires |s| >= 4
  {
    Value(s[0]) * 0x40000 + Value(s[1]) * 0x1000 + Value(s[2]) * 64 + Value(s[3])
  }

  function Bytes3(v: nat): seq<Byte>
    requires v < 0x1000000
  {
    [v / 0x10000, v / 0x100 % 0x100, v % 0x100]
  }

  lemma QuadFits(s: string)
    requires |s| >= 4
    ensures QuadValue(s) < 0x1000000
  {
  }

  function Body(s: string, n: nat): (t: seq<Byte>)
    requires 4 * n <= |s|
    ensures |t| == 3 * n
  {
    if n == 0 then [] else
      QuadFits(s);
      Bytes3(QuadValue(s)) + Body(s[4..], n - 1)
  }

  /** What the text before the padding at `n` decodes to, unless its length is impossible. Padding that starts where a
      quad starts costs that quad and leaves two zero bytes. */
  function Decoded(s: string): Option<seq<Byte>> {
    var n := PadAt(s);
    if |s| % 4 != 0 || (n == 0 && s != "") then None
    else if n == |s| then Some(Body(s, n / 4))
    else if n % 4 == 0 then Some(Body(s, n / 4 - 1) + [0, 0])
    else if n % 4 == 1 then Some(Body(s, n / 4))
    else if n % 4 == 2 then Some(Body(s, n / 4) + [Tail1(Value(s[n - 2]), Value(s[n - 1]))])
    else
      var v := Tail2(Value(s[n - 3]), Value(s[n - 2]), Value(s[n - 1]));
      Some(Body(s, n / 4) + [v / 0x100 % 0x100, v % 0x100])
  }

  lemma {:induction false} BodyStep(s: string, n: nat)
    requires 4 * n + 4 <= |s|
    ensures QuadValue(s[4 * n..]) < 0x1000000
    ensures Body(s, n + 1) == Body(s, n) + Bytes3(QuadValue(s[4 * n..]))
  {
    QuadFits(s[4 * n..]);
    if n == 0 {
      assert s[0..] == s;
    } else {
      assert s[4..][4 * (n - 1)..] == s[4 * n..];
      BodyStep(s[4..], n - 1);
    }
  }

  /** Whole quads, as long as one starts before `f`. */
  method DecodeQuads(s: string, f: int) returns (o: seq<Byte>, l: nat)
    requires f > 0 ==> (f + 3) / 4 * 4 <= |s|
    ensures l == (if f > 0 then (f + 3) / 4 * 4 else 0) && o == Body(s, l / 4)
  {
    hide QuadValue, Body;
    o, l := [], 0;
    BodyNone(s);
    while l < f
      invariant l % 4 == 0 && (l == 0 || l < f + 4) && (f <= 0 ==> l == 0) && l <= |s| && o == Body(s, l / 4)
    {
      BodyStep(s, l / 4);
      var e := QuadValue(s[l..]);
      o := o + [e / 0x10000, e / 0x100 % 0x100, e % 0x100];
      l := l + 4;
    }
  }

  lemma BodyNone(s: string)
    ensures Body(s, 0) == []
  {
  }

  method ToByteArray(s: string) returns (r: Option<seq<Byte>>)
    ensures r == Decoded(s)
  {
    hide Value, Body, PadAt, Tail1, Tail2;
    if |s| % 4 != 0 { return None; }
    var n := PadAt(s);
    var pad: int := if n == |s| then 0 else 4 - n % 4;
    var size: int := 3 * (n + pad) / 4 - pad;
    SizeIs(n, pad, |s|);
    if size < 0 { return None; }
    var o: seq<Byte>;
    var l: nat;
    o, l := DecodeQuads(s, if pad > 0 then n as int - 4 else n);
    if pad == 2 {
      o := o + [Tail1(Value(s[l]), Value(s[l + 1]))];
    } else if pad == 1 {
      var e := Tail2(Value(s[l]), Value(s[l + 1]), Value(s[l + 2]));
      o := o + [e / 0x100 % 0x100, e % 0x100];
    } else if pad == 4 {
      // the array was made two zero bytes longer than the quads fill
      assert size == |o| + 2;
      o := o + [0, 0];
    }
    r := Some(o);
  }

  /** The size of the array, and where the last quad starts. */
  lemma SizeIs(n: nat, pad: int, length: nat)
    requires n <= length && length % 4 == 0 && pad == if n == length then 0 else 4 - n % 4
    ensures 3 * (n + pad) / 4 - pad == 3 * (n / 4) + (if pad == 0 then 0 else 3 - pad)
    ensures pad == 0 ==> (n + 3) / 4 == n / 4 && n % 4 == 0
    ensures pad > 0 && n > 4 ==> (n - 4 + 3) / 4 == (if pad == 4 then n / 4 - 1 else n / 4) && (n - 4 + 3) / 4 * 4 <= length
    ensures pad > 0 && n <= 4 ==> n / 4 == if n == 4 then 1 else 0
  {
    var q, m := n / 4, n % 4;
    if pad == 0 {
      DivMod(3 * n, 4, 3 * q, 0);
      DivMod(n + 3, 4, q, 3);
    } else {
      DivMod(3 * (n + pad), 4, 3 * (q + 1), 0);
      if n > 4 {
        if m == 0 { DivMod(n - 1, 4, q - 1, 3); } else { DivMod(n - 1, 4, q, m - 1); }
      }
    }
  }

  // ----- the round trip

  lemma Bytes3Quad(a: nat, b: nat, c: nat, rest: string)
    requires a < 256 && b < 256 && c < 256
    ensures QuadValue(Quad(Triple(a, b, c)) + rest) == Triple(a, b, c) && Bytes3(Triple(a, b, c)) == [a, b, c]
  {
    var n := Triple(a, b, c);
    ValueChar(n / 0x40000);
    ValueChar(n / 0x1000 % 64);
    ValueChar(n / 64 % 64);
    ValueChar(n % 64);
    hide Value, Char;
    QuadParts(n);
    TripleParts(a, b, c);
  }

  lemma QuadParts(n: nat)
    ensures n == n / 0x40000 * 0x40000 + n / 0x1000 % 64 * 0x1000 + n / 64 % 64 * 64 + n % 64
  {
    var x := n / 64;
    DivMod(n, 0x1000, x / 64, x % 64 * 64 + n % 64);
    DivMod(n, 0x40000, x / 64 / 64, x / 64 % 64 * 0x1000 + x % 64 * 64 + n % 64);
  }

  lemma TripleParts(a: nat, b: nat, c: nat)
    requires a < 256 && b < 256 && c < 256
    ensures var n := Triple(a, b, c); n / 0x10000 == a && n / 0x100 % 0x100 == b && n % 0x100 == c
  {
    var n := Triple(a, b, c);
    DivMod(n, 0x10000, a, b * 0x100 + c);
    DivMod(n, 0x100, a * 0x100 + b, c);
    DivMod(a * 0x100 + b, 0x100, a, b);
  }

  function Tail1(x: nat, y: nat): (v: nat)
    ensures v < 0x100
  {
    (x * 4 + y / 16) % 0x100
  }

  function Tail2(x: nat, y: nat, z: nat): nat { x * 0x400 + y * 16 + z / 4 }

  lemma Tail1Decodes(a: nat)
    requires a < 256
    ensures Tail1(Value(Char(a / 4)), Value(Char(a % 4 * 16))) == a
  {
    ValueChar(a / 4);
    ValueChar(a % 4 * 16);
    hide Value, Char;
    DivMod(a % 4 * 16, 16, a % 4, 0);
    DivMod(a, 0x100, 0, a);
  }

  lemma Tail2Decodes(a: nat, b: nat)
    requires a < 256 && b < 256
    ensures var v := Tail2(Value(Char(a / 4)), Value(Char(a % 4 * 16 + b / 16)), Value(Char(b % 16 * 4)));
            v / 0x100 % 0x100 == a && v % 0x100 == b
  {
    ValueChar(a / 4);
    ValueChar(a % 4 * 16 + b / 16);
    ValueChar(b % 16 * 4);
    hide Value, Char;
    DivMod(b % 16 * 4, 4, b % 16, 0);
    DivMod(a * 0x100 + b, 0x100, a, b);
    DivMod(a, 0x100, 0, a);
  }

  /** Where the padding of an encoding starts, and what its whole quads hold. */
  ghost predicate Shaped(t: seq<Byte>, e: string) {
    var q, tail := |t| / 3, |t| % 3;
    && |e| == 4 * q + (if tail == 0 then 0 else 4)
    && PadAt(e) == 4 * q + (if tail == 0 then 0 else tail + 1)
    && Body(e, q) == t[..3 * q]
    && e[4 * q..] == Encoded(t[3 * q..])
  }

  lemma {:induction false} EncodedShape(t: seq<Byte>)
    ensures Shaped(t, Encoded(t))
  {
    if |t| < 3 {
      EncodedTail(t);
      PadOfTail(t);
      BodyNone(Encoded(t));
      assert t[0..] == t && Encoded(t)[0..] == Encoded(t) && t[..0] == [];
    } else {
      EncodedShape(t[3..]);
      QuadPlain(Triple(t[0], t[1], t[2]));
      Bytes3Quad(t[0], t[1], t[2], Encoded(t[3..]));
      ShapeStep(t, Quad(Triple(t[0], t[1], t[2])), Encoded(t[3..]));
    }
  }

  lemma PadIs(s: string, n: nat)
    requires n <= |s| && (n < |s| ==> s[n] == '=') && forall i :: 0 <= i < n ==> s[i] != '='
    ensures PadAt(s) == n
  {
  }

  lemma PadOfTail(t: seq<Byte>)
    requires |t| < 3
    ensures PadAt(Encoded(t)) == if |t| == 0 then 0 else |t| + 1
  {
    EncodedTail(t);
    hide Encoded, Char;
    PadIs(Encoded(t), if |t| == 0 then 0 else |t| + 1);
  }

  lemma ShapeStep(t: seq<Byte>, quad: string, rest: string)
    requires |t| >= 3 && Shaped(t[3..], rest) && |quad| == 4 && forall i :: 0 <= i < 4 ==> quad[i] != '='
    requires QuadValue(quad + rest) < 0x1000000 && Bytes3(QuadValue(quad + rest)) == t[..3]
    ensures Shaped(t, quad + rest)
  {
    hide QuadValue, Bytes3, Encoded, Body, PadAt;
    PadAfter(quad, rest);
    StepBody(t, quad, rest);
    StepRest(t, quad, rest);
  }

  lemma StepBody(t: seq<Byte>, quad: string, rest: string)
    requires |t| >= 3 && |quad| == 4 && 4 * (|t| / 3 - 1) <= |rest| && Body(rest, |t| / 3 - 1) == t[3..][..3 * (|t| / 3 - 1)]
    requires QuadValue(quad + rest) < 0x1000000 && Bytes3(QuadValue(quad + rest)) == t[..3]
    ensures Body(quad + rest, |t| / 3) == t[..3 * (|t| / 3)]
  {
    hide QuadValue, Bytes3, Body;
    var q := |t| / 3;
    BodyFront(quad + rest, q);
    assert (quad + rest)[4..] == rest;
    assert t[..3 * q] == t[..3] + t[3..][..3 * (q - 1)];
  }

  lemma StepRest(t: seq<Byte>, quad: string, rest: string)
    requires |t| >= 3 && |quad| == 4 && 4 * (|t| / 3 - 1) <= |rest| && rest[4 * (|t| / 3 - 1)..] == Encoded(t[3..][3 * (|t| / 3 - 1)..])
    ensures (quad + rest)[4 * (|t| / 3)..] == Encoded(t[3 * (|t| / 3)..])
  {
    hide Encoded;
    var q := |t| / 3;
    assert t[3..][3 * (q - 1)..] == t[3 * q..];
    assert (quad + rest)[4 * q..] == rest[4 * (q - 1)..];
  }

  lemma BodyFront(s: string, n: nat)
    requires 0 < 4 * n <= |s|
    ensures QuadValue(s) < 0x1000000 && Body(s, n) == Bytes3(QuadValue(s)) + Body(s[4..], n - 1)
  {
    QuadFits(s);
  }

  lemma QuadPlain(n: nat)
    requires n < 0x1000000
    ensures |Quad(n)| == 4 && forall i :: 0 <= i < 4 ==> Quad(n)[i] != '='
  {
  }

  lemma {:induction false} PadAfter(a: string, b: string)
    requires forall i :: 0 <= i < |a| ==> a[i] != '='
    ensures PadAt(a + b) == |a| + PadAt(b)
  {
    if a == "" {
      assert a + b == b;
    } else {
      assert (a + b)[1..] == a[1..] + b;
      PadAfter(a[1..], b);
    }
  }

  /** Decoding what was encoded gives back every byte sequence. */
  lemma RoundTrip(t: seq<Byte>)
    ensures Decoded(Encoded(t)) == Some(t)
  {
    hide Encoded, Body, Value, Tail1, Tail2, PadAt;
    EncodedShape(t);
    var q := |t| / 3;
    assert t == t[..3 * q] + t[3 * q..];
    var e, n := Encoded(t), PadAt(Encoded(t));
    assert n / 4 == q;
    if |t| % 3 == 0 {
      assert t[..3 * q] == t;
      assert Decoded(e) == Some(Body(e, q));
    } else if |t| % 3 == 1 {
      Tail1Back(t[3 * q..], e, 4 * q);
    } else {
      Tail2Back(t[3 * q..], e, 4 * q);
    }
  }

  /** The characters before the padding give the tail back. */
  lemma Tail1Back(tail: seq<Byte>, e: string, at: nat)
    requires |tail| == 1 && at + 4 == |e| && e[at..] == Encoded(tail)
    ensures [Tail1(Value(e[at]), Value(e[at + 1]))] == tail
  {
    EncodedTail(tail);
    Tail1Decodes(tail[0]);
    hide Value, Char, Encoded, Tail1;
    assert e[at] == e[at..][0] && e[at + 1] == e[at..][1];
  }

  lemma Tail2Back(tail: seq<Byte>, e: string, at: nat)
    requires |tail| == 2 && at + 4 == |e| && e[at..] == Encoded(tail)
    ensures var v := Tail2(Value(e[at]), Value(e[at + 1]), Value(e[at + 2])); [v / 0x100 % 0x100, v % 0x100] == tail
  {
    EncodedTail(tail);
    Tail2Decodes(tail[0], tail[1]);
    hide Value, Char, Encoded, Tail2;
    assert e[at] == e[at..][0] && e[at + 1] == e[at..][1] && e[at + 2] == e[at..][2];
  }
}
