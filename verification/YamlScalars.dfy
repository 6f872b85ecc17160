/** Quoted YAML scalars (sections 5.7, 7.3.1 and 7.3.2 of YAML 1.2): what the dumper writes, the loader reads back. */
module YamlScalars {
  import opened Division
  import opened Utf8
  import opened Utf8Codec

  // ----- characters

  predicate Break(c: nat) { c == 10 || c == 13 }

  predicate White(c: nat) { c == 9 || c == 32 }

  /** What may stand in a quoted scalar as it is. */
  predicate JsonSafe(c: nat) { c == 9 || c >= 32 }

  predicate Printable(c: nat) {
    || 32 <= c <= 126 || (161 <= c <= 0xD7FF && c != 0x2028 && c != 0x2029)
    || (0xE000 <= c <= 0xFFFD && c != 0xFEFF) || 0x10000 <= c <= 0x10FFFF
  }

  function Hex(d: nat): Unit
    requires d < 16
  {
    if d < 10 then 48 + d else 55 + d
  }

  function FromHex(c: nat): (d: int)
    ensures -1 <= d < 16
  {
    if 48 <= c <= 57 then c - 48
    else if 65 <= c <= 70 then c - 55
    else if 97 <= c <= 102 then c - 87
    else -1
  }

  /** The letter of a named escape, for the characters that have one. */
  function NamedEscape(c: nat): int {
    if c == 0 then 48 else if c == 7 then 97 else if c == 8 then 98 else if c == 9 then 116 else if c == 10 then 110
    else if c == 11 then 118 else if c == 12 then 102 else if c == 13 then 114 else if c == 27 then 101 else if c == 34 then 34
    else if c == 92 then 92 else if c == 0x85 then 78 else if c == 0xA0 then 95 else if c == 0x2028 then 76 else if c == 0x2029 then 80
    else -1
  }

  /** The character a named escape stands for. */
  function Named(c: nat): (r: int)
    ensures -1 <= r < 0x10000
  {
    if c == 48 then 0 else if c == 97 then 7 else if c == 98 then 8 else if c == 116 || c == 9 then 9 else if c == 110 then 10
    else if c == 118 then 11 else if c == 102 then 12 else if c == 114 then 13 else if c == 101 then 27 else if c == 32 then 32
    else if c == 34 then 34 else if c == 47 then 47 else if c == 92 then 92 else if c == 78 then 0x85 else if c == 95 then 0xA0
    else if c == 76 then 0x2028 else if c == 80 then 0x2029
    else -1
  }

  // ----- the dumper

  /** `n` hexadecimal digits, the highest first. */
  function Digits(v: nat, n: nat): (s: seq<Unit>)
    ensures |s| == n
  {
    if n == 0 then [] else Digits(v / 16, n - 1) + [Hex(v % 16)]
  }

  function HexEscape(v: nat): seq<Unit> {
    if v <= 0xFF then [92, 120] + Digits(v, 2) else if v <= 0xFFFF then [92, 117] + Digits(v, 4) else [92, 85] + Digits(v, 8)
  }

  /** The characters that come next, as one code point if they are a surrogate pair. */
  function Next(t: seq<Unit>): (r: (nat, nat))
    requires t != []
    ensures 1 <= r.1 <= |t| && r.0 < 0x110000
    ensures r.1 == 1 ==> r.0 == t[0]
  {
    if Lead(t[0]) && |t| > 1 && Trail(t[1]) then (Combine(t[0], t[1]), 2) else (t[0], 1)
  }

  function Escape(cp: nat): seq<Unit> {
    if cp >= 0x10000 then HexEscape(cp)
    else if NamedEscape(cp) >= 0 then [92, NamedEscape(cp)]
    else if Printable(cp) then [cp]
    else HexEscape(cp)
  }

  /** The inside of the double-quoted form. */
  function Dumped(t: seq<Unit>): seq<Unit>
    decreases |t|
  {
    if t == [] then [] else Escape(Next(t).0) + Dumped(t[Next(t).1..])
  }

  method DumpDouble(t: seq<Unit>) returns (r: seq<Unit>)
    ensures r == Dumped(t)
  {
    hide Escape, Next;
    r := [];
    var o := 0;
    assert t[0..] == t;
    while o < |t|
      invariant o <= |t| && Dumped(t) == r + Dumped(t[o..])
    {
      var (cp, width) := Next(t[o..]);
      assert t[o..][width..] == t[o + width..];
      r := r + Escape(cp);
      o := o + width;
    }
  }

  // ----- the loader

  /** The text of a scalar and what follows its closing quote. */
  datatype Outcome = Text(text: seq<Unit>, rest: seq<Unit>) | Error

  function After(text: seq<Unit>, o: Outcome): Outcome {
    if o.Text? then Text(text + o.text, o.rest) else Error
  }

  /** Over white space and line breaks: what is left, how many breaks, and whether it starts a line. */
  function Skip(u: seq<Unit>, breaks: nat, starts: bool): (r: (seq<Unit>, nat, bool))
    ensures |r.0| <= |u| && r.1 >= breaks
    decreases |u|
  {
    if u != [] && White(u[0]) then Skip(u[1..], breaks, false)
    else if u != [] && Break(u[0]) then Skip(if u[0] == 13 && |u| > 1 && u[1] == 10 then u[2..] else u[1..], breaks + 1, true)
    else (u, breaks, starts)
  }

  /** One break folds to a space, n breaks to n - 1. */
  function Folded(breaks: nat): seq<Unit> {
    if breaks == 1 then [32] else seq(if breaks == 0 then 0 else breaks - 1, i => 10)
  }

  /** "---" or "..." and then white space or the end. */
  predicate DocumentMark(u: seq<Unit>) {
    && |u| >= 3 && (u[0] == 45 || u[0] == 46) && u[1] == u[0] && u[2] == u[0]
    && (|u| == 3 || u[3] == 0 || White(u[3]) || Break(u[3]))
  }

  /** A signed 32-bit integer. */
  function Wrap(v: int): int {
    (v + 0x8000_0000) % 0x1_0000_0000 - 0x8000_0000
  }

  /** The value of the next `n` hexadecimal digits on top of `v`, or -1 in the second place. */
  function ReadHex(u: seq<Unit>, n: nat, v: int): (r: (int, bool))
    decreases n
  {
    if n == 0 then (v, true)
    else if u == [] || FromHex(u[0]) < 0 then (0, false)
    else ReadHex(u[1..], n - 1, Wrap(v * 16) + FromHex(u[0]))
  }

  /** A code read from digits as UTF-16, each unit cut to 16 bits. */
  function CodeUnits(v: int): seq<Unit> {
    if v <= 0xFFFF then [v % 0x10000]
    else [((v - 0x10000) / 0x400 + 0xD800) % 0x10000, (v - 0x10000) % 0x400 + 0xDC00]
  }

  function HexLength(c: nat): nat {
    if c == 120 then 2 else if c == 117 then 4 else if c == 85 then 8 else 0
  }

  /** The double-quoted reader behind the opening quote. */
  function ReadDouble(u: seq<Unit>, starts: bool): Outcome
    decreases |u|
  {
    if u == [] || u[0] == 0 then Error
    else if u[0] == 34 then Text([], u[1..])
    else if u[0] == 92 then
      if |u| < 2 then Error
      else if Break(u[1]) then var s := Skip(u[1..], 0, false); ReadDouble(s.0, s.2)
      else if Named(u[1]) >= 0 then After([Named(u[1])], ReadDouble(u[2..], false))
      else
        var n := HexLength(u[1]);
        if n == 0 || |u| < 2 + n || !ReadHex(u[2..2 + n], n, 0).1 then Error
        else After(CodeUnits(ReadHex(u[2..2 + n], n, 0).0), ReadDouble(u[2 + n..], false))
    else if Break(u[0]) then
      SkipShrinks(u);
      var s := Skip(u, 0, false); After(Folded(s.1), ReadDouble(s.0, s.2))
    else if starts && DocumentMark(u) then Error
    else if JsonSafe(u[0]) then After([u[0]], ReadDouble(u[1..], false))
    else Error
  }

  lemma SkipShrinks(u: seq<Unit>)
    requires u != [] && Break(u[0])
    ensures |Skip(u, 0, false).0| < |u| && Skip(u, 0, false).1 > 0
  {
  }

  /** The single-quoted reader behind the opening quote. */
  function ReadSingle(u: seq<Unit>, starts: bool): Outcome
    decreases |u|
  {
    if u == [] || u[0] == 0 then Error
    else if u[0] == 39 then
      if |u| > 1 && u[1] == 39 then After([39], ReadSingle(u[2..], false)) else Text([], u[1..])
    else if Break(u[0]) then
      SkipShrinks(u);
      var s := Skip(u, 0, false); After(Folded(s.1), ReadSingle(s.0, s.2))
    else if starts && DocumentMark(u) then Error
    else if JsonSafe(u[0]) then After([u[0]], ReadSingle(u[1..], false))
    else Error
  }

  // ----- the round trip through double quotes

  function Pow16(n: nat): nat {
    if n == 0 then 1 else 16 * Pow16(n - 1)
  }

  lemma {:induction false} ReadHexConcat(a: seq<Unit>, b: seq<Unit>, m: nat, v: int)
    requires ReadHex(a, |a|, v).1
    ensures ReadHex(a + b, |a| + m, v) == ReadHex(b, m, ReadHex(a, |a|, v).0)
  {
    if a == [] {
      assert a + b == b;
    } else {
      assert (a + b)[1..] == a[1..] + b;
      ReadHexConcat(a[1..], b, m, Wrap(v * 16) + FromHex(a[0]));
    }
  }

  lemma HexBack(d: nat)
    requires d < 16
    ensures FromHex(Hex(d)) == d
  {
  }

  lemma WrapSmall(v: int)
    requires 0 <= v < 0x8000_0000
    ensures Wrap(v) == v
  {
    DivMod(v + 0x8000_0000, 0x1_0000_0000, 0, v + 0x8000_0000);
  }

  /** Digits are read back, as long as the value stays below 2^31. */
  lemma {:induction false} DigitsBack(v: nat, n: nat)
    requires v < Pow16(n) && v < 0x8000_0000
    ensures ReadHex(Digits(v, n), n, 0) == (v as int, true)
  {
    if n > 0 {
      hide Hex, FromHex, Wrap;
      DivMod(v, 16, v / 16, v % 16);
      DigitsBack(v / 16, n - 1);
      ReadHexConcat(Digits(v / 16, n - 1), [Hex(v % 16)], 1, 0);
      HexBack(v % 16);
      WrapSmall(v / 16 * 16);
      OneDigit(Hex(v % 16), v / 16);
    }
  }

  lemma OneDigit(c: Unit, v: int)
    requires FromHex(c) >= 0
    ensures ReadHex([c], 1, v) == (Wrap(v * 16) + FromHex(c), true)
  {
    assert [c][1..] == [];
  }

  lemma CodeBack(cp: nat)
    requires cp < 0x110000
    ensures CodeUnits(cp) == Units(cp)
  {
    if cp < 0x10000 {
      DivMod(cp, 0x10000, 0, cp);
    } else {
      var h := (cp - 0x10000) / 0x400 + 0xD800;
      DivMod(h, 0x10000, 0, h);
    }
  }

  lemma ReadHexEscape(letter: Unit, n: nat, v: nat, rest: seq<Unit>)
    requires n > 0 && HexLength(letter) == n && v < Pow16(n) && v < 0x110000
    ensures ReadDouble([92, letter] + Digits(v, n) + rest, false) == After(Units(v), ReadDouble(rest, false))
  {
    var u := [92, letter] + Digits(v, n) + rest;
    assert u[2..2 + n] == Digits(v, n) && u[2 + n..] == rest;
    DigitsBack(v, n);
    CodeBack(v);
    hide ReadHex, CodeUnits, Digits, Pow16;
  }

  /** Reading one escaped code point yields its units. */
  lemma ReadEscape(cp: nat, rest: seq<Unit>)
    requires cp < 0x110000
    ensures ReadDouble(Escape(cp) + rest, false) == After(Units(cp), ReadDouble(rest, false))
  {
    hide ReadDouble;
    if cp < 0x10000 && NamedEscape(cp) >= 0 {
      ReadNamed(cp, rest);
    } else if cp < 0x10000 && Printable(cp) {
      ReadPlain(cp, rest);
    } else {
      Powers();
      hide Digits, Pow16;
      if cp <= 0xFF { ReadHexEscape(120, 2, cp, rest); }
      else if cp <= 0xFFFF { ReadHexEscape(117, 4, cp, rest); }
      else { ReadHexEscape(85, 8, cp, rest); }
    }
  }

  lemma Powers()
    ensures Pow16(2) == 0x100 && Pow16(4) == 0x10000 && Pow16(8) > 0x110000
  {
    assert Pow16(4) == 0x10000;
    assert Pow16(8) == 16 * (16 * (16 * (16 * Pow16(4))));
  }

  lemma ReadNamed(cp: nat, rest: seq<Unit>)
    requires cp < 0x10000 && NamedEscape(cp) >= 0
    ensures ReadDouble([92, NamedEscape(cp)] + rest, false) == After([cp], ReadDouble(rest, false))
  {
    var u := [92 as Unit, NamedEscape(cp)] + rest;
    assert u[2..] == rest;
    assert Named(u[1]) == cp && !Break(u[1]);
  }

  lemma ReadPlain(cp: nat, rest: seq<Unit>)
    requires cp < 0x10000 && NamedEscape(cp) < 0 && Printable(cp)
    ensures ReadDouble([cp as Unit] + rest, false) == After([cp], ReadDouble(rest, false))
  {
    var u := [cp as Unit] + rest;
    assert u[1..] == rest && cp != 0 && cp != 34 && cp != 92 && !Break(cp) && JsonSafe(cp);
  }

  lemma NextUnits(t: seq<Unit>)
    requires t != []
    ensures Units(Next(t).0) == t[..Next(t).1]
  {
    if Lead(t[0]) && |t| > 1 && Trail(t[1]) { CombineUnits(t[0], t[1]); }
  }

  /** Every string, lone surrogates included, is read back from its double-quoted form, whatever follows the scalar. */
  lemma {:induction false} DoubleRoundTrip(t: seq<Unit>, rest: seq<Unit>)
    ensures ReadDouble(Dumped(t) + [34] + rest, false) == Text(t, rest)
    decreases |t|
  {
    hide ReadDouble, Escape, Next, Units;
    if t == [] {
      assert Dumped(t) + [34] + rest == [34] + rest;
      ReadQuote(rest);
    } else {
      var (cp, width) := Next(t);
      var more := Dumped(t[width..]);
      assert Dumped(t) + [34] + rest == Escape(cp) + (more + [34] + rest);
      ReadEscape(cp, more + [34] + rest);
      DoubleRoundTrip(t[width..], rest);
      NextUnits(t);
      assert t == t[..width] + t[width..];
    }
  }

  lemma ReadQuote(rest: seq<Unit>)
    ensures ReadDouble([34] + rest, false) == Text([], rest)
  {
    assert ([34] + rest)[1..] == rest;
  }

  // ----- the round trip through single quotes

  /** Quotes doubled. */
  function Doubled(t: seq<Unit>): seq<Unit> {
    if t == [] then [] else (if t[0] == 39 then [39, 39] else [t[0]]) + Doubled(t[1..])
  }

  /** Plain text: no control character but tab, and so no line break. */
  predicate AllSafe(t: seq<Unit>) {
    forall i :: 0 <= i < |t| ==> JsonSafe(t[i])
  }

  /** What the dumper puts in single quotes is printable, and so safe. */
  lemma PrintableSafe(t: seq<Unit>)
    requires forall i :: 0 <= i < |t| ==> Printable(t[i])
    ensures AllSafe(t)
  {
  }

  /** A single-quoted form behind its opening quote, and what follows it. */
  function Quoted(t: seq<Unit>, rest: seq<Unit>): seq<Unit> {
    Doubled(t) + [39] + rest
  }

  lemma QuotedStep(t: seq<Unit>, rest: seq<Unit>)
    ensures var u := Quoted(t, rest);
            if t == [] then u != [] && u[0] == 39 && u[1..] == rest
            else if t[0] == 39 then |u| > 1 && u[0] == u[1] == 39 && u[2..] == Quoted(t[1..], rest)
            else u != [] && u[0] == t[0] && u[1..] == Quoted(t[1..], rest)
  {
    var u := Quoted(t, rest);
    if t == [] {
      assert u == [39] + rest;
    } else {
      DoubledStep(t);
      hide Doubled;
      var more := Doubled(t[1..]) + [39] + rest;
      if t[0] == 39 { assert u == [39, 39] + more; } else { assert u == [t[0]] + more; }
    }
  }

  lemma {:induction false} SingleRoundTrip(t: seq<Unit>, rest: seq<Unit>)
    requires AllSafe(t) && (rest == [] || rest[0] != 39)
    ensures ReadSingle(Quoted(t, rest), false) == Text(t, rest)
  {
    QuotedStep(t, rest);
    SingleStep(Quoted(t, rest), false);
    hide Quoted, ReadSingle;
    if t != [] {
      SingleRoundTrip(t[1..], rest);
      assert t == [t[0]] + t[1..];
    }
  }

  lemma DoubledStep(t: seq<Unit>)
    requires t != []
    ensures Doubled(t) == (if t[0] == 39 then [39, 39] else [t[0]]) + Doubled(t[1..])
  {
  }

  /** Skipping in the quoted form is skipping in the string: `k` characters, at least `breaks` of them line breaks. */
  lemma {:induction false} SkipDoubled(t: seq<Unit>, rest: seq<Unit>, breaks: nat, starts: bool) returns (k: nat)
    ensures k <= |t| && Skip(Quoted(t, rest), breaks, starts).0 == Quoted(t[k..], rest)
    ensures Skip(Quoted(t, rest), breaks, starts).1 <= breaks + k
    ensures t != [] && Break(t[0]) ==> k > 0
    decreases |t|
  {
    QuotedStep(t, rest);
    SkipStep(Quoted(t, rest), breaks, starts);
    hide Quoted, Skip;
    if t == [] || !(White(t[0]) || Break(t[0])) {
      k := 0;
      assert t[0..] == t;
    } else if t[0] == 13 && |t| > 1 && t[1] == 10 {
      QuotedStep(t[1..], rest);
      assert t[1..][1..] == t[2..];
      SecondUnit(Quoted(t, rest), Quoted(t[1..], rest));
      k := SkipDoubled(t[2..], rest, breaks + 1, true);
      assert t[2..][k..] == t[k + 2..];
      k := k + 2;
    } else {
      QuotedStep(t[1..], rest);
      SecondUnit(Quoted(t, rest), Quoted(t[1..], rest));
      k := SkipDoubled(t[1..], rest, if White(t[0]) then breaks else breaks + 1, !White(t[0]));
      assert t[1..][k..] == t[k + 1..];
      k := k + 1;
    }
  }

  lemma SecondUnit(u: seq<Unit>, more: seq<Unit>)
    requires u != [] && u[1..] == more && more != []
    ensures |u| > 1 && u[1] == more[0] && u[2..] == more[1..]
  {
  }

  /** A reading that gives the string back has met no unsafe character: a line break is folded into less. */
  lemma {:induction false} OnlySafe(t: seq<Unit>, rest: seq<Unit>, starts: bool)
    requires rest == [] || rest[0] != 39
    ensures var o := ReadSingle(Quoted(t, rest), starts);
            o.Text? ==> |o.text| <= |t| && (o.text == t ==> AllSafe(t))
    decreases |t|
  {
    if t == [] {
      QuotedStep(t, rest);
      SingleStep(Quoted(t, rest), starts);
    } else if Break(t[0]) {
      FoldedShorter(t, rest, starts);
    } else {
      PlainStep(t, rest, starts);
    }
  }

  lemma PlainStep(t: seq<Unit>, rest: seq<Unit>, starts: bool)
    requires t != [] && !Break(t[0]) && (rest == [] || rest[0] != 39)
    ensures var o := ReadSingle(Quoted(t, rest), starts);
            o.Text? ==> |o.text| <= |t| && (o.text == t ==> AllSafe(t))
    decreases |t|, 0
  {
    OnlySafe(t[1..], rest, false);
    QuotedStep(t, rest);
    hide Quoted, ReadSingle;
    if t[0] != 0 { SingleStep(Quoted(t, rest), starts); } else { SingleEnd(Quoted(t, rest), starts); }
    var o := ReadSingle(Quoted(t[1..], rest), false);
    if o.Text? && [t[0]] + o.text == t { assert o.text == t[1..]; }
  }

  lemma FoldedShorter(t: seq<Unit>, rest: seq<Unit>, starts: bool)
    requires t != [] && Break(t[0]) && (rest == [] || rest[0] != 39)
    ensures var o := ReadSingle(Quoted(t, rest), starts);
            o.Text? ==> |o.text| <= |t| && o.text != t
    decreases |t|, 0
  {
    var u := Quoted(t, rest);
    QuotedStep(t, rest);
    var k := SkipDoubled(t, rest, 0, false);
    SkipShrinks(u);
    SingleStep(u, starts);
    var s := Skip(u, 0, false);
    OnlySafe(t[k..], rest, s.2);
    hide Quoted, Skip, ReadSingle;
    var o := ReadSingle(s.0, s.2);
    if o.Text? {
      var text := Folded(s.1) + o.text;
      assert |Folded(s.1)| <= k;
    }
  }

  /** The single-quoted pair gives a string back exactly when it has no control character but tab. */
  lemma SingleExact(t: seq<Unit>, rest: seq<Unit>)
    requires rest == [] || rest[0] != 39
    ensures ReadSingle(Quoted(t, rest), false) == Text(t, rest) <==> AllSafe(t)
  {
    OnlySafe(t, rest, false);
    if AllSafe(t) { SingleRoundTrip(t, rest); }
  }

  // ----- the readers as loops over the input

  /** Y: the stretch input[from..to] joins the result if all of it may stand in a quoted scalar. */
  method Capture(input: seq<Unit>, result: seq<Unit>, from: nat, to: nat) returns (r: seq<Unit>, ok: bool)
    requires from <= to <= |input|
    ensures ok == AllSafe(input[from..to]) && (ok ==> r == result + input[from..to])
  {
    r, ok := result + input[from..to], true;
    for i := from to to
      invariant AllSafe(input[from..i])
    {
      if !JsonSafe(input[i]) {
        assert input[from..to][i - from] == input[i];
        return r, false;
      }
      assert input[from..i + 1] == input[from..i] + [input[i]];
    }
  }

  /** Q, without comments: over white space and line breaks; `lineStart` moves to the line reached. */
  method SkipBreaks(input: seq<Unit>, position: nat, lineStart: nat) returns (p: nat, breaks: nat, line: nat)
    requires lineStart <= position < |input| && Break(input[position])
    ensures position < p <= |input| && line <= p
    ensures (input[p..], breaks, p == line) == Skip(input[position..], 0, false)
  {
    hide Skip;
    p, breaks, line := position, 0, lineStart;
    ghost var starts := false;
    SkipShrinks(input[position..]);
    while p < |input| && (White(input[p]) || Break(input[p]))
      invariant position <= p <= |input| && line <= p
      invariant Skip(input[position..], 0, false) == Skip(input[p..], breaks, starts)
      invariant p > position ==> starts == (p == line)
    {
      SkipStep(input[p..], breaks, starts);
      assert input[p..][1..] == input[p + 1..] && (p + 1 < |input| ==> input[p..][2..] == input[p + 2..]);
      if White(input[p]) {
        p, starts := p + 1, false;
      } else {
        p := if input[p] == 13 && p + 1 < |input| && input[p + 1] == 10 then p + 2 else p + 1;
        breaks, line, starts := breaks + 1, p, true;
      }
    }
    SkipStep(input[p..], breaks, starts);
  }

  lemma SkipStep(u: seq<Unit>, breaks: nat, starts: bool)
    ensures Skip(u, breaks, starts) ==
            if u != [] && White(u[0]) then Skip(u[1..], breaks, false)
            else if u != [] && Break(u[0]) then Skip(if u[0] == 13 && |u| > 1 && u[1] == 10 then u[2..] else u[1..], breaks + 1, true)
            else (u, breaks, starts)
  {
  }

  /** Safe characters read one after the other. */
  ghost predicate Reads(whole: Outcome, result: seq<Unit>, pending: seq<Unit>, ahead: Outcome) {
    whole == if AllSafe(pending) then After(result + pending, ahead) else Error
  }

  lemma ReadsOn(whole: Outcome, result: seq<Unit>, pending: seq<Unit>, c: Unit, ahead: Outcome)
    requires Reads(whole, result, pending, if JsonSafe(c) then After([c], ahead) else Error)
    ensures Reads(whole, result, pending + [c], ahead)
  {
    assert result + pending + [c] == result + (pending + [c]);
    assert AllSafe(pending + [c]) <==> AllSafe(pending) && JsonSafe(c) by {
      assert (pending + [c])[|pending|] == c;
      assert forall i :: 0 <= i < |pending| ==> (pending + [c])[i] == pending[i];
    }
    if ahead.Text? { assert result + pending + ([c] + ahead.text) == result + (pending + [c]) + ahead.text; }
  }

  /** Captured text and then more. */
  lemma ReadsFrom(whole: Outcome, result: seq<Unit>, pending: seq<Unit>, more: seq<Unit>, ahead: Outcome)
    requires Reads(whole, result, pending, After(more, ahead)) && AllSafe(pending)
    ensures Reads(whole, result + pending + more, [], ahead)
  {
    if ahead.Text? { assert result + pending + (more + ahead.text) == result + pending + more + [] + ahead.text; }
  }

  lemma ReadsStart(whole: Outcome)
    ensures Reads(whole, [], [], whole)
  {
    if whole.Text? { assert [] + [] + whole.text == whole.text; }
  }

  lemma ReadsError(whole: Outcome, result: seq<Unit>, pending: seq<Unit>, ahead: Outcome)
    requires Reads(whole, result, pending, ahead) && (ahead == Error || !AllSafe(pending))
    ensures whole == Error
  {
  }

  lemma ReadsEnd(whole: Outcome, result: seq<Unit>, pending: seq<Unit>, rest: seq<Unit>)
    requires Reads(whole, result, pending, Text([], rest)) && AllSafe(pending)
    ensures whole == Text(result + pending, rest)
  {
    assert result + pending + [] == result + pending;
  }

  lemma ReadsPending(whole: Outcome, result: seq<Unit>, pending: seq<Unit>, c: Unit, ahead: Outcome)
    requires Reads(whole, result, pending, After([c], ahead)) && AllSafe(pending) && JsonSafe(c)
    ensures Reads(whole, result + pending, [c], ahead)
  {
    if ahead.Text? { assert result + pending + ([c] + ahead.text) == result + pending + [c] + ahead.text; }
  }

  lemma SingleStep(u: seq<Unit>, starts: bool)
    requires u != [] && u[0] != 0
    ensures ReadSingle(u, starts) ==
            if u[0] == 39 then (if |u| > 1 && u[1] == 39 then After([39], ReadSingle(u[2..], false)) else Text([], u[1..]))
            else if Break(u[0]) then var s := Skip(u, 0, false); After(Folded(s.1), ReadSingle(s.0, s.2))
            else if starts && DocumentMark(u) then Error
            else if JsonSafe(u[0]) then After([u[0]], ReadSingle(u[1..], false))
            else Error
  {
  }

  lemma SingleEnd(u: seq<Unit>, starts: bool)
    requires u == [] || u[0] == 0
    ensures ReadSingle(u, starts) == Error
  {
  }

  /** The single-quoted reader behind the opening quote. */
  method ReadSingleQuoted(input: seq<Unit>, start: nat, lineStart: nat) returns (o: Outcome)
    requires lineStart < start <= |input|
    ensures o == ReadSingle(input[start..], false)
  {
    hide ReadSingle, AllSafe, Reads, After, Skip, DocumentMark, Folded;
    ghost var whole := ReadSingle(input[start..], false);
    var position: nat, line: nat, capture: nat := start, lineStart, start;
    var result: seq<Unit> := [];
    ReadsStart(whole);
    assert input[start..start] == [];
    while position < |input| && input[position] != 0
      invariant start <= position <= |input| && capture <= position && line <= position
      invariant Reads(whole, result, input[capture..position], ReadSingle(input[position..], position == line))
      decreases |input| - position
    {
      var rest := input[position..];
      SingleStep(rest, position == line);
      assert rest[1..] == input[position + 1..];
      if input[position] == 39 || Break(input[position]) {
        var text, ok := Capture(input, result, capture, position);
        if !ok {
          ReadsError(whole, result, input[capture..position], ReadSingle(rest, position == line));
          return Error;
        }
        if input[position] == 39 {
          if position + 1 == |input| || input[position + 1] != 39 {
            ReadsEnd(whole, result, input[capture..position], input[position + 1..]);
            return Text(text, input[position + 1..]);
          }
          assert rest[2..] == input[position + 2..] && input[position + 1..position + 2] == [39];
          ReadsPending(whole, result, input[capture..position], 39, ReadSingle(rest[2..], false));
          result, capture, position := text, position + 1, position + 2;
        } else {
          var p, breaks, l := SkipBreaks(input, position, line);
          ReadsFrom(whole, result, input[capture..position], Folded(breaks), ReadSingle(input[p..], p == l));
          result, capture, position, line := text + Folded(breaks), p, p, l;
          assert input[p..p] == [];
        }
      } else {
        if position == line && DocumentMark(rest) {
          ReadsError(whole, result, input[capture..position], Error);
          return Error;
        }
        ReadsOn(whole, result, input[capture..position], input[position], ReadSingle(input[position + 1..], false));
        assert input[capture..position] + [input[position]] == input[capture..position + 1];
        position := position + 1;
      }
    }
    SingleEnd(input[position..], position == line);
    ReadsError(whole, result, input[capture..position], Error);
    o := Error;
  }

  /** The value of `n` hexadecimal digits from `from`. */
  method ReadDigits(input: seq<Unit>, from: nat, n: nat) returns (v: int, ok: bool)
    requires from + n <= |input|
    ensures ok == ReadHex(input[from..from + n], n, 0).1 && (ok ==> v == ReadHex(input[from..from + n], n, 0).0)
  {
    hide FromHex, Wrap;
    v := 0;
    var i: nat := n;
    while i > 0
      invariant i <= n && ReadHex(input[from..from + n], n, 0) == ReadHex(input[from + n - i..from + n], i, v)
    {
      var at := from + n - i;
      assert input[at..from + n][1..] == input[at + 1..from + n];
      if FromHex(input[at]) < 0 { return v, false; }
      v := Wrap(v * 16) + FromHex(input[at]);
      i := i - 1;
    }
    ok := true;
  }

  lemma DoubleStep(u: seq<Unit>, starts: bool)
    requires u != [] && u[0] != 0 && u[0] != 92
    ensures ReadDouble(u, starts) ==
            if u[0] == 34 then Text([], u[1..])
            else if Break(u[0]) then var s := Skip(u, 0, false); After(Folded(s.1), ReadDouble(s.0, s.2))
            else if starts && DocumentMark(u) then Error
            else if JsonSafe(u[0]) then After([u[0]], ReadDouble(u[1..], false))
            else Error
  {
  }

  lemma EscapeStep(u: seq<Unit>, starts: bool)
    requires u != [] && u[0] == 92
    ensures ReadDouble(u, starts) ==
            if |u| < 2 then Error
            else if Break(u[1]) then var s := Skip(u[1..], 0, false); ReadDouble(s.0, s.2)
            else if Named(u[1]) >= 0 then After([Named(u[1])], ReadDouble(u[2..], false))
            else
              var n := HexLength(u[1]);
              if n == 0 || |u| < 2 + n || !ReadHex(u[2..2 + n], n, 0).1 then Error
              else After(CodeUnits(ReadHex(u[2..2 + n], n, 0).0), ReadDouble(u[2 + n..], false))
  {
  }

  lemma DoubleEnd(u: seq<Unit>, starts: bool)
    requires u == [] || u[0] == 0
    ensures ReadDouble(u, starts) == Error
  {
  }

  /** What the escape sequence at `position` stands for, where it ends and where the line starts then. */
  method ReadEscaped(input: seq<Unit>, position: nat, line: nat) returns (more: seq<Unit>, p: nat, l: nat, ok: bool)
    requires line <= position < |input| && input[position] == 92
    ensures !ok ==> ReadDouble(input[position..], position == line) == Error
    ensures ok ==> position < p <= |input| && l <= p
                   && ReadDouble(input[position..], position == line) == After(more, ReadDouble(input[p..], p == l))
  {
    hide ReadDouble, Skip, Named, ReadHex, CodeUnits;
    var u := input[position..];
    EscapeStep(u, position == line);
    more, p, l, ok := [], position, line, false;
    if position + 1 < |input| {
      assert u[1..] == input[position + 1..] && u[2..] == input[position + 2..];
      var c := input[position + 1];
      if Break(c) {
        var breaks: nat;
        p, breaks, l := SkipBreaks(input, position + 1, line);
        AfterNothing(ReadDouble(input[p..], p == l));
        ok := true;
      } else if Named(c) >= 0 {
        more, p, ok := [Named(c)], position + 2, true;
      } else if HexLength(c) > 0 && position + 2 + HexLength(c) <= |input| {
        var n := HexLength(c);
        assert u[2..2 + n] == input[position + 2..position + 2 + n] && u[2 + n..] == input[position + 2 + n..];
        var v: int;
        v, ok := ReadDigits(input, position + 2, n);
        more, p := CodeUnits(v), position + 2 + n;
      }
    }
  }

  lemma AfterNothing(o: Outcome)
    ensures After([], o) == o
  {
    if o.Text? { assert [] + o.text == o.text; }
  }

  /** The double-quoted reader behind the opening quote. */
  method ReadDoubleQuoted(input: seq<Unit>, start: nat, lineStart: nat) returns (o: Outcome)
    requires lineStart < start <= |input|
    ensures o == ReadDouble(input[start..], false)
  {
    hide ReadDouble, AllSafe, Reads, After, Skip, DocumentMark, Folded;
    ghost var whole := ReadDouble(input[start..], false);
    var position: nat, line: nat, capture: nat := start, lineStart, start;
    var result: seq<Unit> := [];
    ReadsStart(whole);
    assert input[start..start] == [];
    while position < |input| && input[position] != 0
      invariant start <= position <= |input| && capture <= position && line <= position
      invariant Reads(whole, result, input[capture..position], ReadDouble(input[position..], position == line))
      decreases |input| - position
    {
      var rest := input[position..];
      if input[position] != 92 { DoubleStep(rest, position == line); }
      assert rest[1..] == input[position + 1..];
      if input[position] == 34 || input[position] == 92 || Break(input[position]) {
        var text, ok := Capture(input, result, capture, position);
        if !ok {
          ReadsError(whole, result, input[capture..position], ReadDouble(rest, position == line));
          return Error;
        }
        if input[position] == 34 {
          ReadsEnd(whole, result, input[capture..position], input[position + 1..]);
          return Text(text, input[position + 1..]);
        }
        var more: seq<Unit>, p: nat, l: nat;
        if input[position] == 92 {
          more, p, l, ok := ReadEscaped(input, position, line);
          if !ok {
            ReadsError(whole, result, input[capture..position], Error);
            return Error;
          }
        } else {
          var breaks: nat;
          p, breaks, l := SkipBreaks(input, position, line);
          more := Folded(breaks);
        }
        ReadsFrom(whole, result, input[capture..position], more, ReadDouble(input[p..], p == l));
        result, capture, position, line := text + more, p, p, l;
        assert input[p..p] == [];
      } else {
        if position == line && DocumentMark(rest) {
          ReadsError(whole, result, input[capture..position], Error);
          return Error;
        }
        ReadsOn(whole, result, input[capture..position], input[position], ReadDouble(input[position + 1..], false));
        assert input[capture..position] + [input[position]] == input[capture..position + 1];
        position := position + 1;
      }
    }
    DoubleEnd(input[position..], position == line);
    ReadsError(whole, result, input[capture..position], Error);
    o := Error;
  }
}
