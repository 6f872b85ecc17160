/** Escapes in double-quoted YAML scalars (section 5.7 of YAML 1.2): every one the loader knows, and what it stands for. */
module YamlEscapes {
  import opened Division
  import opened Utf8
  import opened YamlScalars
  import opened YamlFolding

  /** The letter of each named escape and the character it stands for; the dumper uses the first fifteen. */
  const ESCAPES: seq<(Unit, Unit)> :=
    [(48, 0x00), (97, 0x07), (98, 0x08), (116, 0x09), (110, 0x0A), (118, 0x0B), (102, 0x0C), (114, 0x0D), (101, 0x1B),
     (34, 0x22), (92, 0x5C), (78, 0x85), (95, 0xA0), (76, 0x2028), (80, 0x2029), (9, 0x09), (32, 0x20), (47, 0x2F)]

  lemma NamedIs(i: nat)
    requires i < |ESCAPES|
    ensures Named(ESCAPES[i].0) == ESCAPES[i].1 && !Break(ESCAPES[i].0)
  {
  }

  lemma NamedFrom(c: Unit)
    requires Named(c) >= 0
    ensures exists i :: 0 <= i < |ESCAPES| && ESCAPES[i].0 == c
  {
    var e := ESCAPES;
    assert e[0].0 == 48 && e[1].0 == 97 && e[2].0 == 98 && e[3].0 == 116 && e[4].0 == 110 && e[5].0 == 118 && e[6].0 == 102;
    assert e[7].0 == 114 && e[8].0 == 101 && e[9].0 == 34 && e[10].0 == 92 && e[11].0 == 78 && e[12].0 == 95;
    assert e[13].0 == 76 && e[14].0 == 80 && e[15].0 == 9 && e[16].0 == 32 && e[17].0 == 47;
  }

  lemma PlainEnd(b: seq<Unit>, rest: seq<Unit>)
    requires Plain(true, b)
    ensures ReadDouble(b + ([34] + rest), false) == Text(b, rest)
  {
    hide Plain, ReadDouble;
    PlainText(true, b, [34] + rest, false);
    ReadQuote(rest);
    Dispatch(b + ([34] + rest), false);
    Dispatch([34] + rest, false);
  }

  /** A named escape is read as its character. */
  lemma NamedRead(i: nat, b: seq<Unit>, rest: seq<Unit>)
    requires i < |ESCAPES| && Plain(true, b)
    ensures ReadDouble([92, ESCAPES[i].0] + b + [34] + rest, false) == Text([ESCAPES[i].1] + b, rest)
  {
    var c := ESCAPES[i].0;
    NamedIs(i);
    PlainEnd(b, rest);
    hide Plain, ReadDouble, Named;
    var u := [92, c] + b + [34] + rest;
    assert u[2..] == b + ([34] + rest);
    EscapeStep(u, false);
  }

  /** Besides the named escapes, the three for codes and escaped breaks there is none. */
  lemma NoOther(c: Unit, u: seq<Unit>)
    requires (forall i :: 0 <= i < |ESCAPES| ==> ESCAPES[i].0 != c) && c !in [120, 117, 85, 10, 13]
    ensures ReadDouble([92, c] + u, false) == ReadDouble([92], false) == Error
  {
    if Named(c) >= 0 { NamedFrom(c); }
    hide ReadDouble, Named;
    var all := [92, c] + u;
    assert [120, 117, 85, 10, 13][0] == 120 && [120, 117, 85, 10, 13][1] == 117 && [120, 117, 85, 10, 13][2] == 85;
    assert [120, 117, 85, 10, 13][3] == 10 && [120, 117, 85, 10, 13][4] == 13;
    EscapeStep(all, false);
    EscapeStep([92], false);
  }

  // ----- codes

  /** The character of a hexadecimal digit, in either case. */
  ghost predicate Digit(c: Unit, d: nat) {
    d < 16 && (c == "0123456789ABCDEF"[d] as nat || c == "0123456789abcdef"[d] as nat)
  }

  lemma DigitIs(c: Unit, d: nat)
    ensures Digit(c, d) <==> FromHex(c) == d
  {
  }

  /** The number that digits spell. */
  function Number(digits: seq<nat>): nat {
    if digits == [] then 0 else 16 * Number(digits[..|digits| - 1]) + digits[|digits| - 1]
  }

  /** Digit by digit, the value of the character codes. */
  ghost predicate Digits16(u: seq<Unit>, digits: seq<nat>) {
    |u| == |digits| && forall i :: 0 <= i < |u| ==> Digit(u[i], digits[i])
  }

  lemma {:induction false} NumberFits(digits: seq<nat>)
    requires forall i :: 0 <= i < |digits| ==> digits[i] < 16
    ensures Number(digits) < Pow16(|digits|)
  {
    if digits != [] { NumberFits(digits[..|digits| - 1]); }
  }

  lemma {:induction false} NumberRead(u: seq<Unit>, digits: seq<nat>)
    requires Digits16(u, digits) && Number(digits) < 0x8000_0000
    ensures ReadHex(u, |u|, 0) == (Number(digits) as int, true)
  {
    if u != [] {
      hide ReadHex, Digit, Wrap;
      var k := |u| - 1;
      NumberRead(u[..k], digits[..k]);
      LastDigit(u, u[k], digits[k], Number(digits[..k]));
      WrapSmall(Number(digits[..k]) * 16);
    }
  }

  /** The last digit joins the number that the others spell. */
  lemma LastDigit(u: seq<Unit>, c: Unit, d: nat, n: int)
    requires u != [] && u[|u| - 1] == c && Digit(c, d) && ReadHex(u[..|u| - 1], |u| - 1, 0) == (n, true)
    ensures ReadHex(u, |u|, 0) == (Wrap(n * 16) + d, true)
  {
    DigitIs(c, d);
    hide ReadHex, FromHex, Wrap, Digit;
    assert u[..|u| - 1] + [c] == u;
    DigitMore(u[..|u| - 1], c, n);
  }

  lemma DigitMore(front: seq<Unit>, c: Unit, n: int)
    requires ReadHex(front, |front|, 0) == (n, true) && FromHex(c) >= 0
    ensures ReadHex(front + [c], |front| + 1, 0) == (Wrap(n * 16) + FromHex(c), true)
  {
    ReadHexConcat(front, [c], 1, 0);
    OneDigit(c, n);
  }

  lemma ManyPowers()
    ensures Pow16(2) == 0x100 && Pow16(4) == 0x10000 && Pow16(7) == 0x1000_0000 && Pow16(8) == 0x1_0000_0000
  {
    assert Pow16(4) == 0x10000;
    assert Pow16(7) == 16 * (16 * (16 * Pow16(4)));
    assert Pow16(8) == 16 * Pow16(7);
  }

  lemma EightDigits(u: seq<Unit>, digits: seq<nat>)
    requires Digits16(u, digits) && |u| == 8
    ensures |digits| == 8 && Digits16(u[..7], digits[..7]) && Digit(u[7], digits[7]) && digits[7] < 16
    ensures Number(digits) == 16 * Number(digits[..7]) + digits[7] && Number(digits[..7]) < 0x1000_0000
  {
    NumberFits(digits[..7]);
    ManyPowers();
  }

  /** Eight digits may pass 2^31: the value wraps, and all of it but its low half is lost. */
  lemma WrappedRead(u: seq<Unit>, digits: seq<nat>)
    requires Digits16(u, digits) && |u| == 8 && Number(digits) >= 0x8000_0000
    ensures ReadHex(u, 8, 0) == (Number(digits) - 0x1_0000_0000, true)
    ensures Number(digits) < 0x1_0000_0000
  {
    hide *;
    EightDigits(u, digits);
    NumberRead(u[..7], digits[..7]);
    var n, d := Number(digits[..7]), digits[7];
    LastDigit(u, u[7], d, n);
    WrapsOver(n, d);
  }

  lemma WrapsOver(n: nat, d: nat)
    requires d < 16 && n < 0x1000_0000 && 16 * n + d >= 0x8000_0000
    ensures Wrap(n * 16) + d == 16 * n + d - 0x1_0000_0000
  {
    DivMod(n * 16 + 0x8000_0000, 0x1_0000_0000, 1, n * 16 - 0x8000_0000);
  }

  /** A code as UTF-16: below 0x10000 itself, a surrogate pair from there, and its low half from 2^31. */
  function Spelled(v: nat): seq<Unit> {
    if v >= 0x8000_0000 || v < 0x10000 then [v % 0x10000]
    else [((v - 0x10000) / 0x400 + 0xD800) % 0x10000, (v - 0x10000) % 0x400 + 0xDC00]
  }

  /** The letters for codes of two, four and eight digits. */
  const LENGTHS: map<Unit, nat> := map[120 := 2, 117 := 4, 85 := 8]

  lemma LengthIs(letter: Unit)
    requires letter in LENGTHS
    ensures HexLength(letter) == LENGTHS[letter] && LENGTHS[letter] > 0 && Named(letter) < 0 && !Break(letter)
  {
  }

  lemma SpelledIs(v: nat)
    requires v < 0x1_0000_0000
    ensures CodeUnits(if v >= 0x8000_0000 then v - 0x1_0000_0000 else v) == Spelled(v)
  {
    if v >= 0x8000_0000 {
      DivMod(v - 0x1_0000_0000, 0x10000, v / 0x10000 - 0x10000, v % 0x10000);
    }
  }

  /** A code is read as its character, whatever case its digits have. */
  lemma CodeRead(letter: Unit, u: seq<Unit>, digits: seq<nat>, b: seq<Unit>, rest: seq<Unit>)
    requires letter in LENGTHS && |u| == LENGTHS[letter] && Digits16(u, digits) && Plain(true, b)
    ensures ReadDouble([92, letter] + u + b + [34] + rest, false) == Text(Spelled(Number(digits)) + b, rest)
  {
    LengthIs(letter);
    PlainEnd(b, rest);
    DigitsRead(u, digits);
    hide Plain, ReadDouble, Named, ReadHex, CodeUnits, Spelled, Number, Digits16, HexLength;
    assert [92, letter] + u + b + [34] + rest == [92, letter] + (u + (b + ([34] + rest)));
    CodeStep(letter, u, b + ([34] + rest));
  }

  lemma CodeStep(letter: Unit, u: seq<Unit>, end: seq<Unit>)
    requires HexLength(letter) == |u| > 0 && Named(letter) < 0 && !Break(letter) && ReadHex(u, |u|, 0).1
    ensures ReadDouble([92, letter] + (u + end), false) == After(CodeUnits(ReadHex(u, |u|, 0).0), ReadDouble(end, false))
  {
    hide ReadDouble, Named, ReadHex, CodeUnits, HexLength;
    var all := [92, letter] + (u + end);
    assert all[2..2 + |u|] == u && all[2 + |u|..] == end;
    EscapeStep(all, false);
  }

  lemma DigitsRead(u: seq<Unit>, digits: seq<nat>)
    requires Digits16(u, digits) && |u| in [2, 4, 8]
    ensures ReadHex(u, |u|, 0).1 && CodeUnits(ReadHex(u, |u|, 0).0) == Spelled(Number(digits))
  {
    NumberFits(digits);
    ManyPowers();
    hide Number, ReadHex, CodeUnits, Spelled, Pow16;
    SpelledIs(Number(digits));
    if Number(digits) >= 0x8000_0000 { WrappedRead(u, digits); } else { NumberRead(u, digits); }
  }

  lemma {:induction false} BadDigit(u: seq<Unit>, k: nat, v: int)
    requires k < |u| && forall d :: !Digit(u[k], d)
    ensures !ReadHex(u, |u|, v).1
  {
    if k == 0 {
      if FromHex(u[0]) >= 0 { DigitIs(u[0], FromHex(u[0])); }
    } else {
      BadDigit(u[1..], k - 1, Wrap(v * 16) + FromHex(u[0]));
    }
  }

  /** A code that is too short, or has something else among its digits, is an error. */
  lemma CodeError(letter: Unit, u: seq<Unit>, k: nat)
    requires letter in LENGTHS && k < LENGTHS[letter] && (k < |u| ==> forall d :: !Digit(u[k], d))
    ensures ReadDouble([92, letter] + u, false) == Error
  {
    LengthIs(letter);
    hide ReadDouble, Named, ReadHex, HexLength;
    var n, all := LENGTHS[letter], [92, letter] + u;
    EscapeStep(all, false);
    if |u| >= n {
      assert all[2..2 + n] == u[..n];
      BadDigit(u[..n], k, 0);
    }
  }

  // ----- what the dumper writes

  const HEX := "0123456789ABCDEF"

  lemma HexIs(d: nat)
    requires d < 16
    ensures Hex(d) == HEX[d] as nat
  {
    var hex := HEX;
  }

  /** A byte in hexadecimal, with capitals. */
  function Pair(v: nat): seq<Unit> {
    [HEX[v / 16 % 16] as nat, HEX[v % 16] as nat]
  }

  lemma PairIs(v: nat)
    ensures Digits(v, 2) == Pair(v)
  {
    HexIs(v % 16);
    HexIs(v / 16 % 16);
    hide Hex;
    assert Digits(v / 16, 1) == [Hex(v / 16 % 16)];
  }

  lemma DigitsSplit(v: nat, n: nat)
    ensures Digits(v, n + 2) == Digits(v / 256, n) + Pair(v)
  {
    DivMod(v, 256, v / 16 / 16, v / 16 % 16 * 16 + v % 16);
    HexIs(v % 16);
    HexIs(v / 16 % 16);
    hide Hex;
    assert Digits(v / 16, n + 1) == Digits(v / 256, n) + [Hex(v / 16 % 16)];
  }

  lemma EscapeIs(i: nat)
    requires i < 15
    ensures NamedEscape(ESCAPES[i].1) == ESCAPES[i].0 as int && !Surrogate(ESCAPES[i].1)
  {
  }

  lemma EscapeFrom(c: Unit)
    requires NamedEscape(c) >= 0
    ensures exists i :: 0 <= i < 15 && ESCAPES[i].1 == c
  {
    var e := ESCAPES;
    assert e[0].1 == 0 && e[1].1 == 7 && e[2].1 == 8 && e[3].1 == 9 && e[4].1 == 10 && e[5].1 == 11 && e[6].1 == 12;
    assert e[7].1 == 13 && e[8].1 == 27 && e[9].1 == 34 && e[10].1 == 92 && e[11].1 == 0x85 && e[12].1 == 0xA0;
    assert e[13].1 == 0x2028 && e[14].1 == 0x2029;
  }

  /** The unit is a character of its own: not the first half of a surrogate pair. */
  predicate Alone(c: Unit, more: seq<Unit>) {
    !(0xD800 <= c < 0xDC00 && more != [] && 0xDC00 <= more[0] < 0xE000)
  }

  lemma DumpAlone(c: Unit, more: seq<Unit>)
    requires Alone(c, more)
    ensures Dumped([c] + more) == Escape(c) + Dumped(more)
  {
    hide Escape;
    var t := [c] + more;
    assert t[1..] == more && (|t| > 1 ==> t[1] == more[0]);
  }

  /** A character with a letter is written as its escape. */
  lemma DumpNamed(i: nat, more: seq<Unit>)
    requires i < 15
    ensures Dumped([ESCAPES[i].1] + more) == [92, ESCAPES[i].0] + Dumped(more)
  {
    EscapeIs(i);
    hide NamedEscape;
    DumpAlone(ESCAPES[i].1, more);
  }

  /** Written as it is. */
  predicate Shown(c: Unit) {
    && (32 <= c <= 126 || 161 <= c <= 0xD7FF || 0xE000 <= c <= 0xFFFD)
    && c != 34 && c != 92 && c != 0x2028 && c != 0x2029 && c != 0xFEFF
  }

  lemma DumpShown(c: Unit, more: seq<Unit>)
    requires Shown(c)
    ensures Dumped([c] + more) == [c] + Dumped(more)
  {
    hide Dumped;
    DumpAlone(c, more);
  }

  /** Any other unit is written as its code, in two digits or in four. */
  lemma DumpCode(c: Unit, more: seq<Unit>)
    requires Alone(c, more) && !Shown(c) && forall i :: 0 <= i < 15 ==> ESCAPES[i].1 != c
    ensures Dumped([c] + more) == (if c <= 0xFF then [92, 120] + Pair(c) else [92, 117] + Pair(c / 256) + Pair(c)) + Dumped(more)
  {
    if NamedEscape(c) >= 0 { EscapeFrom(c); }
    assert !Printable(c) || NamedEscape(c) >= 0;
    hide NamedEscape, Printable, Shown, Dumped, Digits, Pair;
    DumpAlone(c, more);
    PairIs(c);
    DigitsSplit(c, 2);
    PairIs(c / 256);
  }

  /** A surrogate pair is written as one code of eight digits. */
  lemma DumpPair(lead: Unit, trail: Unit, more: seq<Unit>)
    requires 0xD800 <= lead < 0xDC00 && 0xDC00 <= trail < 0xE000
    ensures var cp := (lead - 0xD800) * 0x400 + (trail - 0xDC00) + 0x10000;
            Dumped([lead, trail] + more) == [92, 85, 48, 48] + Pair(cp / 256 / 256) + Pair(cp / 256) + Pair(cp) + Dumped(more)
  {
    var cp := (lead - 0xD800) * 0x400 + (trail - 0xDC00) + 0x10000;
    CodeForm(cp);
    hide Digits, Pair, HexEscape;
    var t := [lead, trail] + more;
    assert t[2..] == more;
    assert Next(t) == (cp, 2);
  }

  lemma CodeForm(cp: nat)
    requires 0x10000 <= cp < 0x110000
    ensures HexEscape(cp) == [92, 85, 48, 48] + Pair(cp / 256 / 256) + Pair(cp / 256) + Pair(cp)
  {
    DigitsSplit(cp, 6);
    DigitsSplit(cp / 256, 4);
    DigitsSplit(cp / 256 / 256, 2);
    PairIs(cp / 256 / 256 / 256);
    PairZero(cp / 256 / 256 / 256);
    hide Digits, Pair;
  }

  lemma PairZero(v: nat)
    requires v == 0
    ensures Pair(v) == [48, 48]
  {
    HexIs(0);
  }
}
