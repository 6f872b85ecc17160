/** base64 against its alphabet, written out (table 1 of RFC 4648): which letter stands for which bits. */
module Base64Alphabet {
  import opened Options
  import opened Division
  import opened Utf8
  import opened Base64
  import opened YamlBinary

  const UPPER := "ABCDEFGHIJKLMNOPQRSTUVWXYZ"
  const LOWER := "abcdefghijklmnopqrstuvwxyz"
  const ALPHABET := UPPER + LOWER + "0123456789+/"

  function ByteAt(t: seq<Byte>, i: nat): Byte {
    if i < |t| then t[i] else 0
  }

  /** The number that the bits 6k..6k + 6 of the bytes spell, the highest bit of each byte first; past the end are zeros. */
  function Sextet(t: seq<Byte>, k: nat): nat {
    var i := k / 4 * 3;
    if k % 4 == 0 then ByteAt(t, i) / 4
    else if k % 4 == 1 then ByteAt(t, i) % 4 * 16 + ByteAt(t, i + 1) / 16
    else if k % 4 == 2 then ByteAt(t, i + 1) % 16 * 4 + ByteAt(t, i + 2) / 64
    else ByteAt(t, i + 2) % 64
  }

  lemma LaterSextet(t: seq<Byte>, k: nat)
    requires |t| >= 3
    ensures Sextet(t, k + 4) == Sextet(t[3..], k)
  {
  }

  /** How many letters `n` bytes take: as many as there are stretches of six bits, the last one filled up with zeros. */
  function Letters(n: nat): nat { (8 * n + 5) / 6 }

  /** `e` spells the bytes letter by letter and is padded to whole quads. */
  ghost predicate Spells(t: seq<Byte>, e: string) {
    && |e| == 4 * ((|t| + 2) / 3) && Letters(|t|) <= |e|
    && (forall k :: 0 <= k < Letters(|t|) ==> Sextet(t, k) < 64 && e[k] == ALPHABET[Sextet(t, k)])
    && forall k :: Letters(|t|) <= k < |e| ==> e[k] == '='
  }

  lemma UpperIs(v: nat)
    requires v < 26
    ensures UPPER[v] == 'A' + v as char
  {
  }

  lemma LowerIs(v: nat)
    requires v < 26
    ensures LOWER[v] == 'a' + v as char
  {
  }

  lemma RestIs(v: nat)
    requires v < 12
    ensures "0123456789+/"[v] == if v < 10 then '0' + v as char else if v == 10 then '+' else '/'
  {
  }

  lemma CharIs(v: nat)
    requires v < 64
    ensures Char(v) == ALPHABET[v]
  {
    var upper, lower, rest := UPPER, LOWER, "0123456789+/";
    assert |upper| == 26 && |lower| == 26 && |rest| == 12;
    if v < 26 {
      UpperIs(v);
    } else if v < 52 {
      LowerIs(v - 26);
    } else {
      RestIs(v - 52);
    }
    Joined(upper, lower, rest, v);
  }

  lemma Joined(upper: string, lower: string, rest: string, v: nat)
    requires |upper| == 26 && |lower| == 26 && |rest| == 12 && v < 64
    ensures (upper + lower + rest)[v] == if v < 26 then upper[v] else if v < 52 then lower[v - 26] else rest[v - 52]
  {
  }

  // ----- encoding

  lemma TripleLetters(a: nat, b: nat, c: nat)
    requires a < 256 && b < 256 && c < 256
    ensures Triple(a, b, c) < 0x1000000
    ensures Quad(Triple(a, b, c)) == [ALPHABET[a / 4], ALPHABET[a % 4 * 16 + b / 16], ALPHABET[b % 16 * 4 + c / 64], ALPHABET[c % 64]]
  {
    QuadLetters(Triple(a, b, c));
    hide Quad;
    TripleSextets(a, b, c);
  }

  lemma TripleSextets(a: nat, b: nat, c: nat)
    requires a < 256 && b < 256 && c < 256
    ensures var n := Triple(a, b, c);
            && n / 0x40000 == a / 4 && n / 0x1000 % 64 == a % 4 * 16 + b / 16
            && n / 64 % 64 == b % 16 * 4 + c / 64 && n % 64 == c % 64
  {
    TripleDigits(a / 4, a % 4, b / 16, b % 16, c / 64, c % 64);
  }

  lemma TripleDigits(a: nat, b: nat, c: nat, d: nat, e: nat, f: nat)
    requires a < 64 && b < 4 && c < 16 && d < 16 && e < 4 && f < 64
    ensures var n := (a * 4 + b) * 0x10000 + (c * 16 + d) * 0x100 + (e * 64 + f);
            n / 0x40000 == a && n / 0x1000 % 64 == b * 16 + c && n / 64 % 64 == d * 4 + e && n % 64 == f
  {
    var n := (a * 4 + b) * 0x10000 + (c * 16 + d) * 0x100 + (e * 64 + f);
    var x, y := b * 16 + c, d * 4 + e;
    DivMod(n, 0x40000, a, x * 0x1000 + y * 64 + f);
    DivMod(n, 0x1000, a * 64 + x, y * 64 + f);
    DivMod(a * 64 + x, 64, a, x);
    DivMod(n, 64, (a * 64 + x) * 64 + y, f);
    DivMod((a * 64 + x) * 64 + y, 64, a * 64 + x, y);
  }

  lemma QuadLetters(n: nat)
    requires n < 0x1000000
    ensures Quad(n) == [ALPHABET[n / 0x40000], ALPHABET[n / 0x1000 % 64], ALPHABET[n / 64 % 64], ALPHABET[n % 64]]
  {
    CharIs(n / 0x40000);
    CharIs(n / 0x1000 % 64);
    CharIs(n / 64 % 64);
    CharIs(n % 64);
    hide Char;
  }

  lemma FirstSextets(t: seq<Byte>)
    ensures var a, b, c := ByteAt(t, 0), ByteAt(t, 1), ByteAt(t, 2);
            && Sextet(t, 0) == a / 4 && Sextet(t, 1) == a % 4 * 16 + b / 16
            && Sextet(t, 2) == b % 16 * 4 + c / 64 && Sextet(t, 3) == c % 64
  {
    hide ByteAt;
  }

  lemma FirstLetters(t: seq<Byte>)
    requires |t| >= 3
    ensures Triple(t[0], t[1], t[2]) < 0x1000000
    ensures var e := Quad(Triple(t[0], t[1], t[2])); forall k :: 0 <= k < 4 ==> Sextet(t, k) < 64 && e[k] == ALPHABET[Sextet(t, k)]
  {
    TripleLetters(t[0], t[1], t[2]);
    FirstSextets(t);
    hide Quad, Triple, Sextet;
    var a, b, c := t[0], t[1], t[2];
    FourLetters(t, Quad(Triple(a, b, c)), a / 4, a % 4 * 16 + b / 16, b % 16 * 4 + c / 64, c % 64);
  }

  lemma FourLetters(t: seq<Byte>, e: string, w: nat, x: nat, y: nat, z: nat)
    requires w < 64 && x < 64 && y < 64 && z < 64 && e == [ALPHABET[w], ALPHABET[x], ALPHABET[y], ALPHABET[z]]
    requires Sextet(t, 0) == w && Sextet(t, 1) == x && Sextet(t, 2) == y && Sextet(t, 3) == z
    ensures forall k :: 0 <= k < 4 ==> Sextet(t, k) < 64 && e[k] == ALPHABET[Sextet(t, k)]
  {
    hide Sextet;
  }

  lemma OneLeft(t: seq<Byte>, e: string, w: nat, x: nat)
    requires |t| == 1 && w < 64 && x < 64 && e == [ALPHABET[w], ALPHABET[x], '=', '=']
    requires Sextet(t, 0) == w && Sextet(t, 1) == x
    ensures Spells(t, e)
  {
    hide Sextet;
  }

  lemma TwoLeft(t: seq<Byte>, e: string, w: nat, x: nat, y: nat)
    requires |t| == 2 && w < 64 && x < 64 && y < 64 && e == [ALPHABET[w], ALPHABET[x], ALPHABET[y], '=']
    requires Sextet(t, 0) == w && Sextet(t, 1) == x && Sextet(t, 2) == y
    ensures Spells(t, e)
  {
    hide Sextet;
  }

  lemma TailLetters(t: seq<Byte>)
    requires |t| < 3
    ensures Spells(t, Encoded(t))
  {
    EncodedTail(t);
    FirstSextets(t);
    hide Char, Encoded, Spells, Sextet;
    if |t| == 0 {
      NoneLeft(t, Encoded(t));
    } else {
      CharIs(t[0] / 4);
      if |t| == 1 {
        CharIs(t[0] % 4 * 16);
        OneLeft(t, Encoded(t), t[0] / 4, t[0] % 4 * 16);
      } else {
        CharIs(t[0] % 4 * 16 + t[1] / 16);
        CharIs(t[1] % 16 * 4);
        TwoLeft(t, Encoded(t), t[0] / 4, t[0] % 4 * 16 + t[1] / 16, t[1] % 16 * 4);
      }
    }
  }

  lemma NoneLeft(t: seq<Byte>, e: string)
    requires t == [] && e == ""
    ensures Spells(t, e)
  {
  }

  lemma SpellsOn(t: seq<Byte>, quad: string, rest: string)
    requires |t| >= 3 && Spells(t[3..], rest) && |quad| == 4
    requires forall k :: 0 <= k < 4 ==> Sextet(t, k) < 64 && quad[k] == ALPHABET[Sextet(t, k)]
    ensures Spells(t, quad + rest)
  {
    var e := quad + rest;
    assert Letters(|t|) == 4 + Letters(|t[3..]|) by { DivMod(8 * |t| + 5, 6, 4 + Letters(|t[3..]|), (8 * |t[3..]| + 5) % 6); }
    forall k | 0 <= k < Letters(|t|) ensures Sextet(t, k) < 64 && e[k] == ALPHABET[Sextet(t, k)] {
      if k >= 4 { LaterSextet(t, k - 4); }
    }
  }

  /** Every character before the padding is the letter at the number its six bits spell, and the padding fills the quad. */
  lemma {:induction false} EncodedLetters(t: seq<Byte>)
    ensures Spells(t, Encoded(t))
  {
    if |t| < 3 {
      TailLetters(t);
    } else {
      EncodedFront(t);
      FirstLetters(t);
      EncodedLetters(t[3..]);
      hide Encoded, Quad, Spells, Triple;
      SpellsOn(t, Quad(Triple(t[0], t[1], t[2])), Encoded(t[3..]));
    }
  }

  /** The YAML type writes the same letters, and "AAAA" for no bytes. */
  lemma RepresentedLetters(t: seq<Byte>)
    ensures if t == [] then Represented(t) == "AAAA" else Spells(t, Represented(t))
  {
    EncodedLetters(t);
    CharIs(0);
    hide Char, Encoded, Spells;
    var upper := UPPER;
    assert ALPHABET[0] == upper[0];
  }

  // ----- decoding

  /** The number a character stands for: its place in the alphabet, 62 and 63 for '-' and '_', and 0 for a foreign one. */
  ghost predicate StandsFor(c: char, v: nat) {
    && v < 64
    && (c == ALPHABET[v] || (c == '-' && v == 62) || (c == '_' && v == 63)
        || (c != '-' && c != '_' && v == 0 && forall i :: 0 <= i < 64 ==> c != ALPHABET[i]))
  }

  ghost predicate StandFor(s: string, p: seq<nat>) {
    |p| == |s| && forall k :: 0 <= k < |s| ==> StandsFor(s[k], p[k])
  }

  lemma ValueIs(c: char, v: nat)
    requires StandsFor(c, v)
    ensures Value(c) == v
  {
    CharIs(v);
    ValueChar(v);
    ValueFrom(c);
    hide Char, Value;
    if c == '-' || c == '_' { Safe(); }
  }

  lemma Safe()
    ensures Value('-') == 62 && Value('_') == 63 && forall i :: 0 <= i < 64 ==> ALPHABET[i] != '-' && ALPHABET[i] != '_'
  {
    forall i | 0 <= i < 64 ensures ALPHABET[i] != '-' && ALPHABET[i] != '_' { CharIs(i); }
  }

  lemma ValueFrom(c: char)
    ensures Value(c) == 0 || c == '-' || c == '_' || c == ALPHABET[Value(c)]
  {
    if Value(c) != 0 && c != '-' && c != '_' {
      CharIs(Value(c));
      assert c == Char(Value(c));
    }
  }

  /** The bytes are the whole ones in the bits of the numbers. */
  ghost predicate Packs(p: seq<nat>, b: seq<Byte>) {
    && |b| == |p| * 6 / 8
    && forall k :: 0 <= k < |p| && 6 * k < 8 * |b| ==>
                     Sextet(b, k) == Fitting(p, k, |b|)
  }

  /** What of the k-th number fits into `n` bytes: all of it, or its first two or four bits. */
  function Fitting(p: seq<nat>, k: nat, n: nat): nat
    requires k < |p|
  {
    if 6 * k + 6 <= 8 * n then p[k] else if |p| % 4 == 2 then p[k] / 16 * 16 else p[k] / 4 * 4
  }

  lemma QuadPacks(w: nat, x: nat, y: nat, z: nat)
    requires w < 64 && x < 64 && y < 64 && z < 64
    ensures var v := w * 0x40000 + x * 0x1000 + y * 64 + z;
            v < 0x1000000 && Packs([w, x, y, z], Bytes3(v))
  {
    var v := w * 0x40000 + x * 0x1000 + y * 64 + z;
    var a, b, c := w * 4 + x / 16, x % 16 * 16 + y / 4, y % 4 * 64 + z;
    DivMod(v, 0x10000, a, b * 0x100 + c);
    DivMod(v, 0x100, a * 0x100 + b, c);
    DivMod(a * 0x100 + b, 0x100, a, b);
    DivMod(a, 4, w, x / 16);
    DivMod(b, 16, x % 16, y / 4);
    DivMod(c, 64, y % 4, z);
    assert Bytes3(v) == [a, b, c];
  }

  lemma TailPacks(p: seq<nat>)
    requires |p| < 4 && forall k :: 0 <= k < |p| ==> p[k] < 64
    ensures |p| < 2 ==> Packs(p, [])
    ensures |p| == 2 ==> Packs(p, [Tail1(p[0], p[1])])
    ensures |p| == 3 ==> var v := Tail2(p[0], p[1], p[2]); Packs(p, [v / 0x100 % 0x100, v % 0x100])
  {
    if |p| >= 2 {
      var a := p[0] * 4 + p[1] / 16;
      DivMod(a, 0x100, 0, a);
      DivMod(a, 4, p[0], p[1] / 16);
      if |p| == 3 {
        var b := p[1] % 16 * 16 + p[2] / 4;
        DivMod(Tail2(p[0], p[1], p[2]), 0x100, a, b);
        DivMod(b, 16, p[1] % 16, p[2] / 4);
      }
    }
  }

  lemma PacksOn(p: seq<nat>, three: seq<Byte>, b: seq<Byte>)
    requires |p| >= 4 && |three| == 3 && Packs(p[..4], three) && Packs(p[4..], b)
    ensures Packs(p, three + b)
  {
    var all := three + b;
    assert |p| * 6 / 8 == 3 + (|p| - 4) * 6 / 8 by { DivMod(|p| * 6, 8, 3 + (|p| - 4) * 6 / 8, (|p| - 4) * 6 % 8); }
    assert all[3..] == b;
    forall k: nat ensures Sextet(all, k + 4) == Sextet(b, k) { LaterSextet(all, k); }
    forall k: nat | k < 4 ensures Sextet(all, k) == Sextet(three, k) { EarlySextet(three, b, k); }
    hide Sextet, Fitting;
    forall k | 0 <= k < |p| && 6 * k < 8 * |all| ensures Sextet(all, k) == Fitting(p, k, |all|) {
      if k >= 4 {
        assert Sextet(b, k - 4) == Fitting(p[4..], k - 4, |b|);
        FittingLater(p, k - 4, |b|);
      } else {
        assert Sextet(three, k) == Fitting(p[..4], k, 3);
        FittingFirst(p, k, |b|);
      }
    }
  }

  lemma FittingLater(p: seq<nat>, k: nat, n: nat)
    requires k + 4 < |p|
    ensures Fitting(p, k + 4, n + 3) == Fitting(p[4..], k, n)
  {
    assert p[4..][k] == p[k + 4];
  }

  lemma FittingFirst(p: seq<nat>, k: nat, n: nat)
    requires k < 4 <= |p|
    ensures Fitting(p, k, n + 3) == Fitting(p[..4], k, 3)
  {
    assert p[..4][k] == p[k];
  }

  lemma EarlySextet(three: seq<Byte>, b: seq<Byte>, k: nat)
    requires |three| == 3 && k < 4
    ensures Sextet(three + b, k) == Sextet(three, k)
  {
  }

  /** The bytes read from a text hold the numbers of its letters. */
  lemma {:induction false} UnpackedLetters(s: string, p: seq<nat>)
    requires StandFor(s, p)
    ensures Packs(p, Unpacked(s))
  {
    forall k | 0 <= k < |s| ensures Value(s[k]) == p[k] && p[k] < 64 { ValueIs(s[k], p[k]); }
    hide Value, Tail1, Tail2;
    if |s| < 4 {
      UnpackedRest(s);
      TailPacks(p);
    } else {
      UnpackedQuad(s);
      QuadPacks(p[0], p[1], p[2], p[3]);
      assert p[..4] == [p[0], p[1], p[2], p[3]];
      UnpackedLetters(s[4..], p[4..]);
      hide Packs, Bytes3;
      PacksOn(p, Bytes3(QuadValue(s)), Unpacked(s[4..]));
    }
  }

  lemma {:induction false} BodyThen(s: string, q: nat, n: nat)
    requires 4 * q <= n <= |s|
    ensures Unpacked(s[..n]) == Body(s, q) + Unpacked(s[4 * q..n])
    decreases q
  {
    hide QuadValue, Bytes3, Unpacked, Body;
    if q == 0 {
      BodyNone(s);
      assert s[..n] == s[0..n];
    } else {
      BodyThen(s[4..], q - 1, n - 4);
      BodyFront(s, q);
      UnpackedQuad(s[..n]);
      assert s[..n] == s[..4] + s[4..n] && s == s[..4] + s[4..];
      QuadPrefix(s[..4], s[4..n]);
      QuadPrefix(s[..4], s[4..]);
      assert s[..n][4..] == s[4..][..n - 4] && s[4..][4 * (q - 1)..n - 4] == s[4 * q..n];
    }
  }

  /** The length is impossible, or nothing stands before the padding. */
  predicate Undecodable(s: string, n: nat) { |s| % 4 != 0 || (n == 0 && s != "") }

  /** What the two decoders make of a text with its first '=' at `n` is the same, unless the padding starts where a quad
      starts: that costs the buffer's decoder the quad before it, and leaves two zero bytes. */
  lemma DecodedUnpacked(s: string, n: nat)
    requires n <= |s| && (n < |s| ==> s[n] == '=') && forall i :: 0 <= i < n ==> s[i] != '='
    ensures Decoded(s) == if Undecodable(s, n) then None
                          else if n < |s| && n % 4 == 0 then Some(Unpacked(s[..n - 4]) + [0, 0]) else Some(Unpacked(s[..n]))
  {
    PadIs(s, n);
    if !Undecodable(s, n) && (n == |s| || n % 4 != 0) { WholeUnpacked(s, n); }
    hide PadAt, Unpacked, Value, Tail1, Tail2, Body;
    if !Undecodable(s, n) && n < |s| && n % 4 == 0 {
      BodyThen(s, n / 4 - 1, n - 4);
      UnpackedRest(s[n - 4..n - 4]);
      assert Body(s, n / 4 - 1) + [] == Body(s, n / 4 - 1);
    }
  }

  lemma WholeUnpacked(s: string, n: nat)
    requires n <= |s| && PadAt(s) == n && !Undecodable(s, n) && (n == |s| || n % 4 != 0)
    ensures Decoded(s) == Some(Unpacked(s[..n]))
  {
    hide PadAt, Unpacked, Value, Tail1, Tail2, Body;
    var q := n / 4;
    var rest := s[4 * q..n];
    BodyThen(s, q, n);
    UnpackedRest(rest);
    assert Body(s, q) + [] == Body(s, q);
    if n % 4 == 2 { assert rest[0] == s[n - 2] && rest[1] == s[n - 1]; }
    if n % 4 == 3 { assert rest[0] == s[n - 3] && rest[1] == s[n - 2] && rest[2] == s[n - 1]; }
  }

  /** toByteArray by the alphabet: the bytes hold the numbers of the letters before the padding. */
  lemma DecodedLetters(s: string, n: nat, p: seq<nat>)
    requires n <= |s| && (n < |s| ==> s[n] == '=') && (forall i :: 0 <= i < n ==> s[i] != '=') && StandFor(s[..n], p)
    ensures Undecodable(s, n) <==> Decoded(s) == None
    ensures !Undecodable(s, n) && (n == |s| || n % 4 != 0) ==> Packs(p, Decoded(s).value)
    ensures !Undecodable(s, n) && n < |s| && n % 4 == 0 ==>
              exists b :: Decoded(s) == Some(b + [0, 0]) && Packs(p[..n - 4], b)
  {
    DecodedUnpacked(s, n);
    hide Unpacked, Decoded, Packs;
    UnpackedLetters(s[..n], p);
    if !Undecodable(s, n) && n < |s| && n % 4 == 0 {
      assert s[..n][..n - 4] == s[..n - 4];
      UnpackedLetters(s[..n - 4], p[..n - 4]);
    }
  }

  /** construct by the alphabet, without breaks and padding, which ConstructedSkips takes out. */
  lemma ConstructedLetters(s: string, p: seq<nat>)
    requires StandFor(s, p) && forall i :: 0 <= i < |s| ==> s[i] != '=' && s[i] != '\n' && s[i] != '\r'
    ensures if s == "" then Constructed(s) == [0, 0, 0] else Packs(p, Constructed(s))
  {
    StrippedConcat(s, "");
    assert s + "" == s && Stripped("") == "";
    UnpackedLetters(s, p);
    hide Packs, Unpacked, Stripped;
  }

  lemma {:induction false} ConstructedSkips(a: string, c: char, b: string)
    requires c == '=' || c == '\n' || c == '\r'
    ensures Stripped(a + [c] + b) == Stripped(a + b) && Constructed(a + [c] + b) == Constructed(a + b)
  {
    if a == "" {
      assert a + [c] + b == [c] + b && a + b == b && ([c] + b)[1..] == b;
    } else {
      assert (a + [c] + b)[1..] == a[1..] + [c] + b && (a + b)[1..] == a[1..] + b;
      ConstructedSkips(a[1..], c, b);
    }
    hide Unpacked;
  }

  // ----- resolve

  /** `resolve` knows the same alphabet. */
  lemma AlphabetIs(c: char)
    ensures InAlphabet(c) <==> exists v :: 0 <= v < 64 && c == ALPHABET[v]
  {
    if InAlphabet(c) {
      CharIs(Value(c));
      assert c == Char(Value(c));
    }
    forall v | 0 <= v < 64 && c == ALPHABET[v] ensures InAlphabet(c) { CharIs(v); }
  }

  /** It accepts the letters, '=' and line breaks, where line breaks do not count towards the multiple of four. */
  lemma ResolvesIs(s: string)
    ensures Resolves(s) <==>
            && (forall i :: 0 <= i < |s| ==> (exists v :: 0 <= v < 64 && s[i] == ALPHABET[v]) || s[i] in "=\n\r")
            && |Unbroken(s)| % 4 == 0
  {
    UnbrokenCounted(s);
    hide Counted, InAlphabet;
    forall i | 0 <= i < |s| ensures InAlphabet(s[i]) <==> exists v :: 0 <= v < 64 && s[i] == ALPHABET[v] { AlphabetIs(s[i]); }
  }

  /** The text without its line breaks. */
  function Unbroken(s: string): string {
    if s == "" then "" else Unbroken(s[..|s| - 1]) + if s[|s| - 1] in "\n\r" then "" else [s[|s| - 1]]
  }

  lemma {:induction false} UnbrokenCounted(s: string)
    ensures |Unbroken(s)| == Counted(s)
  {
    if s != "" { UnbrokenCounted(s[..|s| - 1]); }
  }
}
