/** The YAML binary type: base64 with a rolling accumulator of 32 bits. */
module YamlBinary {
  import opened Options
  import opened Utf8
  import opened Base64
  import opened Division

  /** The low bytes of the accumulator are the bytes taken last. */
  ghost predicate Holds(i: nat, t: seq<Byte>) {
    && (|t| >= 1 ==> i % 0x100 == t[|t| - 1])
    && (|t| >= 2 ==> i / 0x100 % 0x100 == t[|t| - 2])
    && (|t| >= 3 ==> i / 0x10000 % 0x100 == t[|t| - 3])
  }

  function Shift8(i: nat, b: nat): nat {
    i * 0x100 % 0x1_0000_0000 + b
  }

  lemma ShiftHolds(i: nat, t: seq<Byte>, b: Byte)
    requires Holds(i, t)
    ensures Holds(Shift8(i, b), t + [b])
  {
    ShiftDigits(i, b);
    hide Shift8;
  }

  lemma ShiftDigits(i: nat, b: nat)
    requires b < 0x100
    ensures var n := Shift8(i, b);
            n % 0x100 == b && n / 0x100 % 0x100 == i % 0x100 && n / 0x10000 % 0x100 == i / 0x100 % 0x100
  {
    var q, low := i / 0x1000000, i % 0x1000000;
    var m, k := low / 0x100, low % 0x100;
    var u, v := m / 0x100, m % 0x100;
    DivMod(i * 0x100, 0x1_0000_0000, q, low * 0x100);
    var n := low * 0x100 + b;
    DivMod(n, 0x100, low, b);
    DivMod(n, 0x10000, m, k * 0x100 + b);
    DivMod(i, 0x100, q * 0x10000 + m, k);
    DivMod(q * 0x10000 + m, 0x100, q * 0x100 + u, v);
  }

  /** The low 24 bits of the accumulator are the last triple. */
  lemma HoldsTriple(i: nat, t: seq<Byte>)
    requires Holds(i, t) && |t| >= 3
    ensures i % 0x1000000 == Triple(t[|t| - 3], t[|t| - 2], t[|t| - 1])
  {
    var x := i / 0x100;
    var y := x / 0x100;
    var b, c: nat := x % 0x100, i % 0x100;
    DivMod(i, 0x10000, y, b * 0x100 + c);
    DivMod(i, 0x1000000, y / 0x100, y % 0x100 * 0x10000 + b * 0x100 + c);
  }

  /** The text written for `t`: the encoding, but for no bytes at all a quad of zeros. */
  function Represented(t: seq<Byte>): string {
    if t == [] then Quad(0) else Encoded(t)
  }

  /** represent. */
  method Represent(t: seq<Byte>) returns (r: string)
    ensures r == Represented(t)
  {
    hide Encoded, Quad, Char, Shift8, Holds, Triple;
    r := "";
    var i := 0;
    ghost var done := 0;
    HoldsNothing(t[..0]);
    EncodedNone(t[..0]);
    for e := 0 to |t|
      invariant Holds(i, t[..e]) && (e == 0 ==> i == 0)
      invariant Emitted(done, e, 3) && r == Encoded(t[..done])
    {
      if e % 3 == 0 && e > 0 {
        EmittedFull(done, e, 3);
        HoldsTriple(i, t[..e]);
        TripleOut(t, e);
        r := r + Quad(i % 0x1000000);
        done := e;
      }
      ShiftHolds(i, t[..e], t[e]);
      assert t[..e] + [t[e]] == t[..e + 1];
      i := Shift8(i, t[e]);
    }
    assert t[..|t|] == t;
    var tail := Rest(i, t, done);
    r := r + tail;
  }

  /** The groups of `n` before `done` are out; the one that reaches `e` is not. */
  ghost predicate Emitted(done: nat, e: nat, n: nat)
    requires n > 0
  {
    done % n == 0 && done <= e <= done + n && (e > 0 ==> done < e)
  }

  lemma EmittedFull(done: nat, e: nat, n: nat)
    requires (n == 3 || n == 4) && Emitted(done, e, n) && e > 0 && e % n == 0
    ensures done == e - n
  {
  }

  /** What is still to come when every byte has been taken. */
  method Rest(i: nat, t: seq<Byte>, ghost done: nat) returns (r: string)
    requires Holds(i, t) && (t == [] ==> i == 0) && Emitted(done, |t|, 3)
    ensures t == [] ==> r == Quad(0)
    ensures t != [] ==> Encoded(t) == Encoded(t[..done]) + r
    ensures t == [] ==> Encoded(t[..done]) == ""
  {
    EncodedNone([]);
    hide Encoded, Quad, Char, Holds, Triple;
    if |t| % 3 == 0 {
      if t != [] {
        EmittedFull(done, |t|, 3);
        HoldsTriple(i, t);
        TripleOut(t, |t|);
        assert t[..|t|] == t;
      }
      return Quad(i % 0x1000000);
    }
    r := PartialTriple(i, t, done);
  }

  method PartialTriple(i: nat, t: seq<Byte>, ghost done: nat) returns (r: string)
    requires Holds(i, t) && |t| % 3 != 0 && Emitted(done, |t|, 3)
    ensures Encoded(t) == Encoded(t[..done]) + r
  {
    hide Encoded, Char, Holds;
    assert t[..done] + t[done..] == t;
    EncodedConcat(t[..done], t[done..]);
    EncodedTail(t[done..]);
    TailOut(i, t);
    r := if |t| % 3 == 2 then [Char(i / 0x400 % 64), Char(i / 16 % 64), Char(i * 4 % 64), '=']
         else [Char(i / 4 % 64), Char(i * 16 % 64), '=', '='];
  }

  lemma HoldsNothing(t: seq<Byte>)
    requires t == []
    ensures Holds(0, t)
  {
  }

  lemma TripleOut(t: seq<Byte>, e: nat)
    requires 3 <= e <= |t| && e % 3 == 0
    ensures Encoded(t[..e]) == Encoded(t[..e - 3]) + Quad(Triple(t[e - 3], t[e - 2], t[e - 1]))
  {
    hide Encoded, Quad, Triple;
    assert t[..e - 3] + t[e - 3..e] == t[..e];
    EncodedConcat(t[..e - 3], t[e - 3..e]);
    EncodedTriple(t[e - 3..e]);
  }

  /** The bits of the last one or two bytes. */
  lemma TailOut(i: nat, t: seq<Byte>)
    requires Holds(i, t) && |t| % 3 > 0
    ensures |t| % 3 == 1 ==> i / 4 % 64 == t[|t| - 1] / 4 && i * 16 % 64 == t[|t| - 1] % 4 * 16
    ensures |t| % 3 == 2 ==>
              var a, b := t[|t| - 2], t[|t| - 1];
              i / 0x400 % 64 == a / 4 && i / 16 % 64 == a % 4 * 16 + b / 16 && i * 4 % 64 == b % 16 * 4
  {
    var q: nat := i / 0x100;
    var p: nat, a: nat, b: nat := q / 0x100, q % 0x100, i % 0x100;
    LowBits(q, b);
    WordBits(p, a, b);
  }

  lemma LowBits(q: nat, b: nat)
    requires b < 0x100
    ensures var i := q * 0x100 + b; i * 16 % 64 == b % 4 * 16 && i * 4 % 64 == b % 16 * 4 && i / 4 % 64 == b / 4
  {
    var i := q * 0x100 + b;
    DivMod(i * 16, 64, q * 64 + b / 4, b % 4 * 16);
    DivMod(i * 4, 64, q * 16 + b / 16, b % 16 * 4);
    DivMod(i, 4, q * 64 + b / 4, b % 4);
    DivMod(q * 64 + b / 4, 64, q, b / 4);
  }

  lemma WordBits(p: nat, a: nat, b: nat)
    requires a < 0x100 && b < 0x100
    ensures var i := (p * 0x100 + a) * 0x100 + b; i / 0x400 % 64 == a / 4 && i / 16 % 64 == a % 4 * 16 + b / 16
  {
    var i := (p * 0x100 + a) * 0x100 + b;
    DivMod(i, 0x400, p * 64 + a / 4, a % 4 * 0x100 + b);
    DivMod(p * 64 + a / 4, 64, p, a / 4);
    DivMod(i, 16, (p * 0x100 + a) * 16 + b / 16, b % 16);
    DivMod((p * 0x100 + a) * 16 + b / 16, 64, p * 64 + a / 4, a % 4 * 16 + b / 16);
  }

  /** The two encoders agree exactly on nonempty input: no bytes at all come out as "AAAA", three zero bytes. */
  lemma EmptyDiffers(t: seq<Byte>)
    ensures Represented(t) == Encoded(t) <==> t != []
  {
    if t == [] {
      EncodedNone(t);
      hide Encoded, Char;
      assert |Quad(0)| == 4;
    }
  }

  // ----- construct

  /** Line breaks and padding dropped. */
  function Stripped(s: string): (r: string)
    ensures |r| <= |s|
  {
    if s == "" then ""
    else if s[0] == '\r' || s[0] == '\n' || s[0] == '=' then Stripped(s[1..])
    else [s[0]] + Stripped(s[1..])
  }

  /** The bytes in a sequence of 6-bit values: three for every four, and what whole bytes the rest holds. */
  function Unpacked(s: string): seq<Byte> {
    if |s| < 2 then []
    else if |s| == 2 then [Tail1(Value(s[0]), Value(s[1]))]
    else if |s| == 3 then
      var v := Tail2(Value(s[0]), Value(s[1]), Value(s[2]));
      [v / 0x100 % 0x100, v % 0x100]
    else
      QuadFits(s);
      Bytes3(QuadValue(s)) + Unpacked(s[4..])
  }

  function Shift6(a: nat, v: nat): nat {
    a * 64 % 0x1_0000_0000 + v
  }

  /** The low bits of the accumulator are the values of the characters taken last. */
  ghost predicate Gathers(a: nat, s: string) {
    && (|s| >= 1 ==> a % 64 == Value(s[|s| - 1]))
    && (|s| >= 2 ==> a / 64 % 64 == Value(s[|s| - 2]))
    && (|s| >= 3 ==> a / 0x1000 % 64 == Value(s[|s| - 3]))
    && (|s| >= 4 ==> a / 0x40000 % 64 == Value(s[|s| - 4]))
  }

  lemma ShiftGathers(a: nat, s: string, c: char)
    requires Gathers(a, s)
    ensures Gathers(Shift6(a, Value(c)), s + [c])
  {
    ShiftSextets(a, Value(c));
    hide Shift6, Value;
  }

  lemma ShiftSextets(a: nat, v: nat)
    requires v < 64
    ensures var n := Shift6(a, v);
            && n % 64 == v && n / 64 % 64 == a % 64
            && n / 0x1000 % 64 == a / 64 % 64 && n / 0x40000 % 64 == a / 0x1000 % 64
  {
    var q, low := a / 0x4000000, a % 0x4000000;
    var m, k := low / 64, low % 64;
    var u, w := m / 64, m % 64;
    var x, y := u / 64, u % 64;
    DivMod(a * 64, 0x1_0000_0000, q, low * 64);
    var n := low * 64 + v;
    DivMod(n, 64, low, v);
    DivMod(a, 64, q * 0x100000 + m, k);
    DivMod(n, 0x1000, m, k * 64 + v);
    DivMod(q * 0x100000 + m, 64, q * 0x4000 + u, w);
    DivMod(n, 0x40000, u, w * 0x1000 + k * 64 + v);
    DivMod(a, 0x1000, q * 0x4000 + u, w * 64 + k);
    DivMod(q * 0x4000 + u, 64, q * 0x100 + x, y);
  }

  /** A number by its digits in base 64. */
  lemma Digits(a: nat)
    ensures a == a / 0x1000 * 0x1000 + (a / 64 % 64 * 64 + a % 64)
    ensures a == a / 0x40000 * 0x40000 + (a / 0x1000 % 64 * 0x1000 + a / 64 % 64 * 64 + a % 64)
    ensures a == a / 0x1000000 * 0x1000000 + (a / 0x40000 % 64 * 0x40000 + a / 0x1000 % 64 * 0x1000 + a / 64 % 64 * 64 + a % 64)
  {
    var x := a / 64;
    var y := x / 64;
    var z := y / 64;
    DivMod(a, 0x1000, y, x % 64 * 64 + a % 64);
    DivMod(a, 0x40000, z, y % 64 * 0x1000 + x % 64 * 64 + a % 64);
    DivMod(a, 0x1000000, z / 64, z % 64 * 0x40000 + y % 64 * 0x1000 + x % 64 * 64 + a % 64);
  }

  lemma LowBytes(h: nat, v: nat)
    requires v < 0x1000000
    ensures var a := h * 0x1000000 + v;
            a / 0x10000 % 0x100 == v / 0x10000 && a / 0x100 % 0x100 == v / 0x100 % 0x100 && a % 0x100 == v % 0x100
  {
    var a, m := h * 0x1000000 + v, v / 0x100;
    DivMod(a, 0x100, h * 0x10000 + m, v % 0x100);
    DivMod(h * 0x10000 + m, 0x100, h * 0x100 + m / 0x100, m % 0x100);
    DivMod(v, 0x10000, m / 0x100, m % 0x100 * 0x100 + v % 0x100);
    DivMod(a, 0x10000, h * 0x100 + m / 0x100, m % 0x100 * 0x100 + v % 0x100);
    DivMod(h * 0x100 + m / 0x100, 0x100, h, m / 0x100);
  }

  /** Four characters make three bytes. */
  lemma GathersQuad(a: nat, s: string)
    requires Gathers(a, s) && |s| >= 4
    ensures QuadValue(s[|s| - 4..]) < 0x1000000
    ensures Bytes3(QuadValue(s[|s| - 4..])) == [a / 0x10000 % 0x100, a / 0x100 % 0x100, a % 0x100]
  {
    hide Value;
    var t := s[|s| - 4..];
    QuadFits(t);
    Digits(a);
    LowBytes(a / 0x1000000, QuadValue(t));
  }

  lemma TwoBytes(h: nat, x: nat, y: nat, z: nat)
    requires x < 64 && y < 64 && z < 64
    ensures var a, v := h * 0x40000 + (x * 0x1000 + y * 64 + z), Tail2(x, y, z);
            a / 0x400 % 0x100 == v / 0x100 % 0x100 && a / 4 % 0x100 == v % 0x100
  {
    var a, v := h * 0x40000 + (x * 0x1000 + y * 64 + z), x * 0x400 + y * 16 + z / 4;
    var u, w := v / 0x100, v % 0x100;
    DivMod(a, 4, h * 0x10000 + v, z % 4);
    DivMod(h * 0x10000 + v, 0x100, h * 0x100 + u, w);
    DivMod(a, 0x400, h * 0x100 + u, w * 4 + z % 4);
    DivMod(h * 0x100 + u, 0x100, h, u);
    DivMod(u, 0x100, 0, u);
  }

  lemma OneByte(h: nat, x: nat, y: nat)
    requires x < 64 && y < 64
    ensures (h * 0x1000 + (x * 64 + y)) / 16 % 0x100 == Tail1(x, y)
  {
    var w := x * 4 + y / 16;
    DivMod(h * 0x1000 + (x * 64 + y), 16, h * 0x100 + w, y % 16);
    DivMod(h * 0x100 + w, 0x100, h, w);
    DivMod(w, 0x100, 0, w);
  }

  /** Three characters make two bytes, two make one. */
  lemma GathersTail(a: nat, s: string)
    requires Gathers(a, s) && |s| % 4 >= 2
    ensures |s| % 4 == 3 ==>
              var v := Tail2(Value(s[|s| - 3]), Value(s[|s| - 2]), Value(s[|s| - 1]));
              v / 0x100 % 0x100 == a / 0x400 % 0x100 && v % 0x100 == a / 4 % 0x100
    ensures |s| % 4 == 2 ==> Tail1(Value(s[|s| - 2]), Value(s[|s| - 1])) == a / 16 % 0x100
  {
    hide Value, Tail1, Tail2;
    Digits(a);
    OneByte(a / 0x1000, a / 64 % 64, a % 64);
    TwoBytes(a / 0x40000, a / 0x1000 % 64, a / 64 % 64, a % 64);
  }

  lemma {:induction false} UnpackedConcat(a: string, b: string)
    requires |a| % 4 == 0
    ensures Unpacked(a + b) == Unpacked(a) + Unpacked(b)
    decreases |a|
  {
    hide QuadValue, Bytes3, Tail1, Tail2, Value, Unpacked;
    if a == "" {
      UnpackedRest(a);
      assert a + b == b;
    } else {
      UnpackedQuad(a);
      UnpackedQuad(a + b);
      assert (a + b)[4..] == a[4..] + b;
      QuadPrefix(a, b);
      UnpackedConcat(a[4..], b);
    }
  }

  lemma QuadPrefix(a: string, b: string)
    requires |a| >= 4
    ensures QuadValue(a + b) == QuadValue(a)
  {
  }

  lemma UnpackedQuad(s: string)
    requires |s| >= 4
    ensures QuadValue(s) < 0x1000000 && Unpacked(s) == Bytes3(QuadValue(s)) + Unpacked(s[4..])
  {
    QuadFits(s);
  }

  lemma QuadIn(s: string, e: nat)
    requires 4 <= e <= |s| && e % 4 == 0
    ensures QuadValue(s[e - 4..e]) < 0x1000000
    ensures Unpacked(s[..e]) == Unpacked(s[..e - 4]) + Bytes3(QuadValue(s[e - 4..e]))
  {
    hide QuadValue, Bytes3;
    assert s[..e - 4] + s[e - 4..e] == s[..e];
    UnpackedConcat(s[..e - 4], s[e - 4..e]);
    UnpackedQuad(s[e - 4..e]);
  }

  predicate InAlphabet(c: char) {
    'A' <= c <= 'Z' || 'a' <= c <= 'z' || '0' <= c <= '9' || c == '+' || c == '/'
  }

  /** What `resolve` accepts: no foreign character, and a multiple of four besides the line breaks. */
  predicate Resolves(s: string) {
    (forall i :: 0 <= i < |s| ==> InAlphabet(s[i]) || s[i] == '=' || s[i] == '\n' || s[i] == '\r') && Counted(s) % 4 == 0
  }

  function Counted(s: string): nat {
    if s == "" then 0 else Counted(s[..|s| - 1]) + if s[|s| - 1] == '\n' || s[|s| - 1] == '\r' then 0 else 1
  }

  method Resolve(s: string) returns (ok: bool)
    ensures ok == Resolves(s)
  {
    hide InAlphabet;
    var bits := 0;
    for n := 0 to |s|
      invariant bits == 6 * Counted(s[..n])
      invariant forall i :: 0 <= i < n ==> InAlphabet(s[i]) || s[i] == '=' || s[i] == '\n' || s[i] == '\r'
    {
      assert s[..n + 1][..n] == s[..n];
      if s[n] == '\n' || s[n] == '\r' { continue; }
      if !InAlphabet(s[n]) && s[n] != '=' { return false; }
      bits := bits + 6;
    }
    assert s[..|s|] == s;
    ok := bits % 8 == 0;
    hide Counted;
    SixInEight(Counted(s));
  }

  lemma SixInEight(n: nat)
    ensures 6 * n % 8 == 0 <==> n % 4 == 0
  {
    var q, r := n / 4, n % 4;
    DivMod(6 * n, 8, 3 * q + 6 * r / 8, 6 * r % 8);
  }

  /** The bytes read from a text: nothing but breaks and padding is read as three zeros. */
  function Constructed(s: string): seq<Byte> {
    if Stripped(s) == "" then [0, 0, 0] else Unpacked(Stripped(s))
  }

  /** construct, on what `resolve` has accepted. */
  method Construct(s: string) returns (c: seq<Byte>)
    requires Resolves(s)
    ensures c == Constructed(s)
  {
    hide Resolves, Stripped, Unpacked, Gathers, Shift6, Value, QuadValue, Bytes3;
    var i := Stripped(s);
    var a := 0;
    ghost var done := 0;
    c := [];
    GathersNothing(i[..0]);
    for e := 0 to |i|
      invariant Gathers(a, i[..e]) && (e == 0 ==> a == 0)
      invariant Emitted(done, e, 4) && c == Unpacked(i[..done])
    {
      if e % 4 == 0 && e > 0 {
        EmittedFull(done, e, 4);
        GathersQuad(a, i[..e]);
        assert i[..e][e - 4..] == i[e - 4..e];
        QuadIn(i, e);
        c := c + [a / 0x10000 % 0x100, a / 0x100 % 0x100, a % 0x100];
        done := e;
      }
      ShiftGathers(a, i[..e], i[e]);
      assert i[..e] + [i[e]] == i[..e + 1];
      a := Shift6(a, Value(i[e]));
    }
    assert i[..|i|] == i;
    var tail := LastBytes(a, i, done);
    c := c + tail;
  }

  method LastBytes(a: nat, i: string, ghost done: nat) returns (c: seq<Byte>)
    requires Gathers(a, i) && (i == "" ==> a == 0) && Emitted(done, |i|, 4)
    ensures i == "" ==> c == [0, 0, 0] && Unpacked(i[..done]) == []
    ensures i != "" ==> Unpacked(i) == Unpacked(i[..done]) + c
  {
    hide Gathers, Value, QuadValue, Bytes3, Tail1, Tail2;
    if |i| % 4 == 0 {
      if i != "" {
        EmittedFull(done, |i|, 4);
        GathersQuad(a, i);
        assert i[..|i|] == i && i[|i| - 4..|i|] == i[|i| - 4..];
        QuadIn(i, |i|);
      }
      return [a / 0x10000 % 0x100, a / 0x100 % 0x100, a % 0x100];
    }
    c := PartialBytes(a, i, done);
  }

  method PartialBytes(a: nat, i: string, ghost done: nat) returns (c: seq<Byte>)
    requires Gathers(a, i) && |i| % 4 != 0 && Emitted(done, |i|, 4)
    ensures Unpacked(i) == Unpacked(i[..done]) + c
  {
    hide Gathers, Value, QuadValue, Bytes3, Tail1, Tail2, Unpacked;
    assert i[..done] + i[done..] == i;
    UnpackedConcat(i[..done], i[done..]);
    UnpackedRest(i[done..]);
    if |i| % 4 == 3 {
      GathersTail(a, i);
      c := [a / 0x400 % 0x100, a / 4 % 0x100];
    } else if |i| % 4 == 2 {
      GathersTail(a, i);
      c := [a / 16 % 0x100];
    } else {
      c := [];
    }
  }

  lemma UnpackedRest(s: string)
    requires |s| < 4
    ensures |s| < 2 ==> Unpacked(s) == []
    ensures |s| == 2 ==> Unpacked(s) == [Tail1(Value(s[0]), Value(s[1]))]
    ensures |s| == 3 ==>
              var v := Tail2(Value(s[0]), Value(s[1]), Value(s[2])); Unpacked(s) == [v / 0x100 % 0x100, v % 0x100]
  {
  }

  lemma GathersNothing(s: string)
    requires s == ""
    ensures Gathers(0, s) && Unpacked(s) == []
  {
  }

  // ----- the round trip

  lemma {:induction false} StrippedConcat(a: string, b: string)
    requires forall i :: 0 <= i < |a| ==> a[i] != '=' && a[i] != '\n' && a[i] != '\r'
    ensures Stripped(a + b) == a + Stripped(b)
  {
    if a == "" {
      assert a + b == b;
    } else {
      assert (a + b)[1..] == a[1..] + b;
      StrippedConcat(a[1..], b);
    }
  }

  lemma StrippedTail(t: seq<Byte>)
    requires |t| < 3
    ensures Stripped(Encoded(t)) == Encoded(t)[..if |t| == 0 then 0 else |t| + 1]
  {
    hide Encoded, Char, Stripped;
    EncodedTail(t);
    var e := Encoded(t);
    if |t| == 0 {
      PaddingGone(e);
    } else if |t| == 1 {
      assert e == [e[0], e[1]] + "==";
      StrippedConcat([e[0], e[1]], "==");
      PaddingGone("==");
    } else {
      assert e == [e[0], e[1], e[2]] + "=";
      StrippedConcat([e[0], e[1], e[2]], "=");
      PaddingGone("=");
    }
  }

  lemma {:induction false} PaddingGone(s: string)
    requires forall i :: 0 <= i < |s| ==> s[i] == '='
    ensures Stripped(s) == ""
  {
    if s != "" { PaddingGone(s[1..]); }
  }

  /** The decoder inverts the reference encoding, which is what the encoder produces for nonempty input. */
  lemma {:induction false} BinaryRoundTrip(t: seq<Byte>)
    ensures Unpacked(Stripped(Encoded(t))) == t
    decreases |t|, 1
  {
    hide QuadValue, Bytes3, Tail1, Tail2, Value;
    if |t| < 3 {
      StrippedTail(t);
      EncodedTail(t);
      if |t| == 1 { Tail1Back(t, Encoded(t), 0); }
      if |t| == 2 { Tail2Back(t, Encoded(t), 0); }
      assert Encoded(t)[0..] == Encoded(t);
    } else {
      var quad, rest := Quad(Triple(t[0], t[1], t[2])), Encoded(t[3..]);
      QuadPlain(Triple(t[0], t[1], t[2]));
      StrippedPlain(quad, rest, t);
    }
  }

  lemma StrippedPlain(quad: string, rest: string, t: seq<Byte>)
    requires |t| >= 3 && quad == Quad(Triple(t[0], t[1], t[2])) && rest == Encoded(t[3..]) && |quad| == 4
    ensures Unpacked(Stripped(Encoded(t))) == t
    decreases |t|, 0
  {
    assert Triple(t[0], t[1], t[2]) < 0x1000000;
    hide QuadValue, Bytes3, Quad, Stripped, Unpacked, Triple;
    QuadFree(Triple(t[0], t[1], t[2]));
    BinaryRoundTrip(t[3..]);
    StrippedConcat(quad, rest);
    FrontBytes(t, Stripped(rest));
    UnpackedFront(quad, Stripped(rest), t);
  }

  lemma FrontBytes(t: seq<Byte>, rest: string)
    requires |t| >= 3
    ensures var s := Quad(Triple(t[0], t[1], t[2])) + rest;
            |s| >= 4 && QuadValue(s) < 0x1000000 && Bytes3(QuadValue(s)) == t[..3]
  {
    Bytes3Quad(t[0], t[1], t[2], rest);
    hide QuadValue, Bytes3, Char;
    assert t[..3] == [t[0], t[1], t[2]];
  }

  lemma UnpackedFront(quad: string, rest: string, t: seq<Byte>)
    requires |t| >= 3 && |quad| == 4 && Unpacked(rest) == t[3..]
    requires QuadValue(quad + rest) < 0x1000000 && Bytes3(QuadValue(quad + rest)) == t[..3]
    ensures Unpacked(quad + rest) == t
  {
    hide QuadValue, Bytes3;
    UnpackedQuad(quad + rest);
    assert (quad + rest)[4..] == rest;
    assert t == t[..3] + t[3..];
  }

  lemma QuadFree(n: nat)
    requires n < 0x1000000
    ensures forall i :: 0 <= i < 4 ==> Quad(n)[i] != '=' && Quad(n)[i] != '\n' && Quad(n)[i] != '\r'
  {
  }

  // ----- resolve accepts what represent writes

  /** Made of characters of the alphabet and padding, four by four. */
  predicate Written(s: string) {
    |s| % 4 == 0 && forall i :: 0 <= i < |s| ==> InAlphabet(s[i]) || s[i] == '='
  }

  lemma CharIn(v: nat)
    requires v < 64
    ensures InAlphabet(Char(v))
  {
  }

  lemma QuadWritten(n: nat)
    requires n < 0x1000000
    ensures Written(Quad(n)) && |Quad(n)| == 4
  {
    CharIn(n / 0x40000);
    CharIn(n / 0x1000 % 64);
    CharIn(n / 64 % 64);
    CharIn(n % 64);
    hide Char, InAlphabet;
  }

  lemma WrittenConcat(a: string, b: string)
    requires Written(a) && Written(b)
    ensures Written(a + b)
  {
  }

  lemma EncodedFront(t: seq<Byte>)
    requires |t| >= 3
    ensures Triple(t[0], t[1], t[2]) < 0x1000000 && Encoded(t) == Quad(Triple(t[0], t[1], t[2])) + Encoded(t[3..])
  {
    hide Quad;
  }

  lemma TailWritten(t: seq<Byte>)
    requires |t| < 3
    ensures Written(Encoded(t))
  {
    if |t| == 1 {
      CharIn(t[0] / 4);
      CharIn(t[0] % 4 * 16);
    } else if |t| == 2 {
      CharIn(t[0] / 4);
      CharIn(t[0] % 4 * 16 + t[1] / 16);
      CharIn(t[1] % 16 * 4);
    }
    EncodedTail(t);
    hide Char, InAlphabet, Encoded;
  }

  lemma {:induction false} EncodedWritten(t: seq<Byte>)
    ensures Written(Encoded(t))
  {
    if |t| < 3 {
      TailWritten(t);
    } else {
      EncodedFront(t);
      hide Encoded, Quad, Written;
      QuadWritten(Triple(t[0], t[1], t[2]));
      EncodedWritten(t[3..]);
      WrittenConcat(Quad(Triple(t[0], t[1], t[2])), Encoded(t[3..]));
    }
  }

  lemma {:induction false} CountedAll(s: string)
    requires forall i :: 0 <= i < |s| ==> s[i] != '\n' && s[i] != '\r'
    ensures Counted(s) == |s|
  {
    if s != "" { CountedAll(s[..|s| - 1]); }
  }

  lemma WrittenResolves(s: string)
    requires Written(s)
    ensures Resolves(s)
  {
    CountedAll(s);
  }

  /** What is written is accepted, and read back as the bytes written exactly if there were any: no bytes come back as
      three zeros. */
  lemma ResolvedBack(t: seq<Byte>)
    ensures Resolves(Represented(t))
    ensures Constructed(Represented(t)) == if t == [] then [0, 0, 0] else t
  {
    var u: seq<Byte> := if t == [] then [0, 0, 0] else t;
    ZerosEncoded();
    EncodedWritten(u);
    WrittenResolves(Encoded(u));
    BinaryRoundTrip(u);
    hide Encoded, Stripped, Resolves;
    UnpackedRest("");
  }

  lemma ZerosEncoded()
    ensures Encoded([0, 0, 0]) == Quad(0)
  {
    EncodedTriple([0, 0, 0]);
    assert Triple(0, 0, 0) == 0;
  }
}
