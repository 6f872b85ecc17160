/** Line breaks and escapes in quoted YAML scalars (sections 5.7 and 7.3 of YAML 1.2): what each of them is read as. */
module YamlFolding {
  import opened Division
  import opened Utf8
  import opened YamlScalars

  /** The double-quoted or the single-quoted reader. */
  function Read(double: bool, u: seq<Unit>, starts: bool): Outcome {
    if double then ReadDouble(u, starts) else ReadSingle(u, starts)
  }

  function Quote(double: bool): Unit { if double then 34 else 39 }

  /** Text that stands for itself: no control character but tab, no quote, no escape. */
  ghost predicate Plain(double: bool, t: seq<Unit>) {
    forall i :: 0 <= i < |t| ==> (t[i] == 9 || t[i] >= 32) && t[i] != Quote(double) && (double ==> t[i] != 92)
  }

  /** White space and line breaks. */
  ghost predicate Blank(g: seq<Unit>) {
    forall i :: 0 <= i < |g| ==> g[i] == 9 || g[i] == 10 || g[i] == 13 || g[i] == 32
  }

  /** A line feed, a carriage return, or one of each in this order is one line break. */
  function LineBreaks(g: seq<Unit>): nat {
    if g == [] then 0
    else LineBreaks(g[1..]) + if g[0] == 10 || (g[0] == 13 && !(|g| > 1 && g[1] == 10)) then 1 else 0
  }

  /** A document marker: three '-' or three '.', and behind them white space, a break or the end. */
  ghost predicate Marks(u: seq<Unit>) {
    && |u| >= 3 && ((u[0] == 45 && u[1] == 45 && u[2] == 45) || (u[0] == 46 && u[1] == 46 && u[2] == 46))
    && (|u| == 3 || u[3] == 0 || u[3] == 9 || u[3] == 10 || u[3] == 13 || u[3] == 32)
  }

  /** A stretch of white space and line breaks that starts with a break. */
  ghost predicate Gap(g: seq<Unit>) {
    g != [] && Blank(g) && (g[0] == 10 || g[0] == 13)
  }

  predicate EndsLine(g: seq<Unit>) { g != [] && (g[|g| - 1] == 10 || g[|g| - 1] == 13) }

  /** Text may go on behind a gap: no more white space, and no document marker at the start of a line. */
  ghost predicate GoesOn(g: seq<Unit>, u: seq<Unit>) {
    && (u != [] ==> !Blank([u[0]]))
    && (EndsLine(g) ==> !Marks(u))
  }

  /** A return and a line feed in `g`: one break. */
  predicate Both(g: seq<Unit>) { |g| > 1 && g[0] == 13 && g[1] == 10 }

  lemma SkipFirst(g: seq<Unit>, u: seq<Unit>, breaks: nat, starts: bool)
    requires g != [] && Blank(g) && (u != [] ==> !Blank([u[0]]))
    ensures Both(g) ==> Skip(g + u, breaks, starts) == Skip(g[2..] + u, breaks + 1, true)
    ensures !Both(g) ==> Skip(g + u, breaks, starts) == Skip(g[1..] + u, if White(g[0]) then breaks else breaks + 1, !White(g[0]))
  {
    hide Skip;
    var all := g + u;
    SkipStep(all, breaks, starts);
    assert u != [] ==> [u[0]][0] == u[0];
    assert all[0] == g[0] && all[1..] == g[1..] + u;
    if |g| > 1 { assert all[1] == g[1] && all[2..] == g[2..] + u; } else if u != [] { assert all[1] == u[0]; }
  }

  lemma CountFirst(g: seq<Unit>)
    requires g != [] && Blank(g)
    ensures Both(g) ==> LineBreaks(g) == LineBreaks(g[2..]) + 1 && (g[2..] == [] ==> EndsLine(g))
    ensures !Both(g) ==> LineBreaks(g) == LineBreaks(g[1..]) + (if White(g[0]) then 0 else 1) && (g[1..] == [] ==> EndsLine(g) == !White(g[0]))
  {
    if Both(g) { assert g[1..][1..] == g[2..]; }
  }

  lemma {:induction false} SkipGap(g: seq<Unit>, u: seq<Unit>, breaks: nat, starts: bool)
    requires Blank(g) && (u != [] ==> !Blank([u[0]]))
    ensures Skip(g + u, breaks, starts) == (u, breaks + LineBreaks(g), if g == [] then starts else EndsLine(g))
    decreases |g|
  {
    if g == [] {
      assert g + u == u;
      SkipStep(u, breaks, starts);
      assert u != [] ==> [u[0]][0] == u[0];
    } else {
      SkipFirst(g, u, breaks, starts);
      CountFirst(g);
      hide Skip, LineBreaks;
      if Both(g) {
        SkipGap(g[2..], u, breaks + 1, true);
      } else {
        SkipGap(g[1..], u, if White(g[0]) then breaks else breaks + 1, !White(g[0]));
      }
    }
  }

  lemma {:induction false} BreaksInGap(g: seq<Unit>)
    requires Gap(g)
    ensures LineBreaks(g) > 0
  {
    if g[0] == 13 && |g| > 1 && g[1] == 10 { assert LineBreaks(g[1..]) > 0; }
  }

  lemma AfterTwice(a: seq<Unit>, b: seq<Unit>, o: Outcome)
    ensures After(a, After(b, o)) == After(a + b, o)
  {
    if o.Text? { assert a + (b + o.text) == a + b + o.text; }
  }

  lemma PlainUnit(double: bool, u: seq<Unit>, starts: bool)
    requires u != [] && Plain(double, u[..1]) && (starts ==> !Marks(u))
    ensures Read(double, u, starts) == After([u[0]], Read(double, u[1..], false))
  {
    hide ReadDouble, ReadSingle;
    assert u[..1][0] == u[0];
    if double { DoubleStep(u, starts); } else { SingleStep(u, starts); }
  }

  lemma {:induction false} PlainText(double: bool, t: seq<Unit>, v: seq<Unit>, starts: bool)
    requires Plain(double, t) && (starts ==> !Marks(t + v))
    ensures Read(double, t + v, starts) == After(t, Read(double, v, starts && t == []))
    decreases |t|
  {
    hide Read;
    if t == [] {
      assert t + v == v;
      AfterNothing(Read(double, v, starts));
    } else {
      var u := t + v;
      assert u[..1] == t[..1] && u[1..] == t[1..] + v;
      PlainUnit(double, u, starts);
      PlainText(double, t[1..], v, false);
      AfterTwice([t[0]], t[1..], Read(double, v, false));
      assert [t[0]] + t[1..] == t;
    }
  }

  /** What `n` line breaks in a row are read as: one as a space, more as one line feed less. */
  function Flow(n: nat): seq<Unit> {
    if n <= 1 then [32] else seq(n - 1, i => 10)
  }

  lemma GapRead(double: bool, g: seq<Unit>, u: seq<Unit>, starts: bool)
    requires Gap(g) && (u != [] ==> !Blank([u[0]]))
    ensures Read(double, g + u, starts) == After(Flow(LineBreaks(g)), Read(double, u, EndsLine(g)))
  {
    hide ReadDouble, ReadSingle, Skip, Blank;
    BreaksInGap(g);
    SkipGap(g, u, 0, false);
    if double { DoubleStep(g + u, starts); } else { SingleStep(g + u, starts); }
    if LineBreaks(g) > 1 { assert Folded(LineBreaks(g)) == Flow(LineBreaks(g)); }
  }

  lemma EscapedGapRead(g: seq<Unit>, u: seq<Unit>, starts: bool)
    requires Gap(g) && (u != [] ==> !Blank([u[0]]))
    ensures ReadDouble([92] + g + u, starts) == ReadDouble(u, EndsLine(g))
  {
    hide ReadDouble, Skip, Blank;
    var all := [92] + g + u;
    assert all[1..] == g + u;
    SkipGap(g, u, 0, false);
    EscapeStep(all, starts);
  }

  // ----- a scalar over several lines

  /** A gap, escaped or not, and the text behind it. */
  datatype Line = Line(escaped: bool, gap: seq<Unit>, text: seq<Unit>)

  function Opening(line: Line): seq<Unit> { (if line.escaped then [92] else []) + line.gap }

  function Joining(line: Line): seq<Unit> { if line.escaped then [] else Flow(LineBreaks(line.gap)) }

  function Written(lines: seq<Line>): seq<Unit> {
    if lines == [] then [] else Opening(lines[0]) + lines[0].text + Written(lines[1..])
  }

  /** The texts with what the breaks between them are read as. */
  function Flowing(lines: seq<Line>): seq<Unit> {
    if lines == [] then [] else Joining(lines[0]) + lines[0].text + Flowing(lines[1..])
  }

  /** Only double quotes allow an escaped break; a text ends where a gap, an escape or the closing quote begins. */
  ghost predicate WellWritten(double: bool, lines: seq<Line>, end: seq<Unit>) {
    lines != [] ==>
      var line := lines[0];
      && Gap(line.gap) && Plain(double, line.text) && (line.escaped ==> double)
      && GoesOn(line.gap, line.text + (Written(lines[1..]) + end))
      && WellWritten(double, lines[1..], end)
  }

  lemma ClosingQuote(double: bool, rest: seq<Unit>, starts: bool)
    requires !double ==> rest == [] || rest[0] != 39
    ensures Read(double, [Quote(double)] + rest, starts) == Text([], rest)
  {
    hide ReadDouble, ReadSingle;
    var u := [Quote(double)] + rest;
    assert u[1..] == rest;
    if double { DoubleStep(u, starts); } else { SingleStep(u, starts); }
  }

  lemma LineRead(double: bool, line: Line, u: seq<Unit>, starts: bool)
    requires Gap(line.gap) && (u != [] ==> !Blank([u[0]])) && (line.escaped ==> double)
    ensures Read(double, Opening(line) + u, starts) == After(Joining(line), Read(double, u, EndsLine(line.gap)))
  {
    hide ReadDouble, ReadSingle, Blank, Flow, LineBreaks;
    if line.escaped {
      EscapedGapRead(line.gap, u, starts);
      AfterNothing(Read(double, u, EndsLine(line.gap)));
    } else {
      GapRead(double, line.gap, u, starts);
      assert Opening(line) == line.gap;
    }
  }

  lemma WrittenStep(lines: seq<Line>, end: seq<Unit>)
    requires lines != []
    ensures Written(lines) + end == Opening(lines[0]) + (lines[0].text + (Written(lines[1..]) + end))
    ensures Flowing(lines) == Joining(lines[0]) + (lines[0].text + Flowing(lines[1..]))
  {
    hide Opening, Joining;
  }

  /** Any scalar over several lines: the texts are kept, and between them breaks are folded, or dropped if escaped. */
  lemma {:induction false} FlowLines(double: bool, first: seq<Unit>, lines: seq<Line>, rest: seq<Unit>, starts: bool)
    requires Plain(double, first) && WellWritten(double, lines, [Quote(double)] + rest)
    requires !double ==> rest == [] || rest[0] != 39
    requires starts ==> !Marks(first + (Written(lines) + ([Quote(double)] + rest)))
    ensures Read(double, first + (Written(lines) + ([Quote(double)] + rest)), starts) == Text(first + Flowing(lines), rest)
    decreases |lines|
  {
    var end := [Quote(double)] + rest;
    hide Read, Marks, Plain, Blank, Quote;
    PlainText(double, first, Written(lines) + end, starts);
    if lines == [] {
      assert Written(lines) + end == end;
      ClosingQuote(double, rest, starts && first == []);
    } else {
      var line, more := lines[0], lines[1..];
      WrittenStep(lines, end);
      hide Written, Flowing, Opening, Joining, Gap;
      FlowLines(double, line.text, more, rest, EndsLine(line.gap));
      LineRead(double, line, line.text + (Written(more) + end), starts && first == []);
    }
  }

  /** One break, and white space or none behind it. */
  ghost predicate OneBreak(g: seq<Unit>, white: seq<Unit>) {
    && (forall i :: 0 <= i < |white| ==> white[i] == 9 || white[i] == 32)
    && (g == [10] + white || g == [13] + white || g == [13, 10] + white)
  }

  lemma {:induction false} NoBreaks(g: seq<Unit>)
    requires forall i :: 0 <= i < |g| ==> g[i] == 9 || g[i] == 32
    ensures LineBreaks(g) == 0
  {
    if g != [] { NoBreaks(g[1..]); }
  }

  lemma OneCounted(g: seq<Unit>, white: seq<Unit>)
    requires OneBreak(g, white)
    ensures Gap(g) && LineBreaks(g) == 1
  {
    NoBreaks(white);
    if g == [13, 10] + white {
      assert g[1..] == [10] + white && g[1..][1..] == white;
    } else {
      assert g[1..] == white;
    }
  }

  /** Text behind a gap and the quote that closes it. */
  ghost predicate Closes(double: bool, g: seq<Unit>, b: seq<Unit>, rest: seq<Unit>) {
    && Plain(double, b) && GoesOn(g, b + ([Quote(double)] + rest)) && (!double ==> rest == [] || rest[0] != 39)
  }

  lemma ClosesLine(double: bool, line: Line, rest: seq<Unit>)
    requires Gap(line.gap) && Closes(double, line.gap, line.text, rest) && (line.escaped ==> double)
    ensures WellWritten(double, [line], [Quote(double)] + rest) && (!double ==> rest == [] || rest[0] != 39)
  {
    assert [line][1..] == [];
    assert Written([]) + ([Quote(double)] + rest) == [Quote(double)] + rest;
    hide Gap, GoesOn, Plain, Quote;
  }

  lemma BetweenLines(double: bool, a: seq<Unit>, line: Line, rest: seq<Unit>)
    requires Plain(double, a) && Gap(line.gap) && Closes(double, line.gap, line.text, rest) && (line.escaped ==> double)
    ensures Read(double, a + Opening(line) + line.text + [Quote(double)] + rest, false) == Text(a + Joining(line) + line.text, rest)
  {
    hide Read, Opening, Joining, Quote, Closes, Gap, Plain, WellWritten;
    ClosesLine(double, line, rest);
    FlowLines(double, a, [line], rest, false);
    assert [line][1..] == [];
    assert a + (Written([line]) + ([Quote(double)] + rest)) == a + Opening(line) + line.text + [Quote(double)] + rest;
    assert a + Flowing([line]) == a + Joining(line) + line.text;
  }

  /** In either form, one line break is read as a space. */
  lemma BreakIsSpace(double: bool, a: seq<Unit>, g: seq<Unit>, white: seq<Unit>, b: seq<Unit>, rest: seq<Unit>)
    requires Plain(double, a) && OneBreak(g, white) && Closes(double, g, b, rest)
    ensures Read(double, a + g + b + [Quote(double)] + rest, false) == Text(a + [32] + b, rest)
  {
    OneCounted(g, white);
    hide Read, Closes, Plain, Gap, LineBreaks, OneBreak, Quote;
    BetweenLines(double, a, Line(false, g, b), rest);
    assert [] + g == g;
  }

  /** In either form, n + 1 line breaks in a row are read as n line feeds. */
  lemma BreaksAreFeeds(double: bool, a: seq<Unit>, g: seq<Unit>, n: nat, b: seq<Unit>, rest: seq<Unit>)
    requires Plain(double, a) && Gap(g) && LineBreaks(g) == n + 1 && n > 0 && Closes(double, g, b, rest)
    ensures Read(double, a + g + b + [Quote(double)] + rest, false) == Text(a + seq(n, i => 10) + b, rest)
  {
    hide Read, Closes, Plain, Gap, LineBreaks, Quote;
    BetweenLines(double, a, Line(false, g, b), rest);
    assert [] + g == g;
    assert Flow(n + 1) == seq(n, i => 10);
  }

  /** In double quotes, escaped line breaks are dropped. */
  lemma EscapedBreakIsNothing(a: seq<Unit>, g: seq<Unit>, b: seq<Unit>, rest: seq<Unit>)
    requires Plain(true, a) && Gap(g) && Closes(true, g, b, rest)
    ensures ReadDouble(a + [92] + g + b + [34] + rest, false) == Text(a + b, rest)
  {
    hide Read, ReadDouble, Closes, Plain, Gap, LineBreaks;
    var line := Line(true, g, b);
    BetweenLines(true, a, line, rest);
    assert a + Opening(line) + b == a + [92] + g + b;
    assert a + Joining(line) + b == a + b;
    Dispatch(a + [92] + g + b + [34] + rest, false);
  }

  lemma Dispatch(u: seq<Unit>, starts: bool)
    ensures Read(true, u, starts) == ReadDouble(u, starts)
  {
  }

  /** A document marker at the start of a line ends the reading with an error. */
  lemma MarkerIsError(double: bool, a: seq<Unit>, g: seq<Unit>, u: seq<Unit>)
    requires Plain(double, a) && Gap(g) && EndsLine(g) && Marks(u)
    ensures Read(double, a + g + u, false) == Error
  {
    assert [u[0]][0] == u[0];
    hide Gap, Plain, LineBreaks, Flow;
    assert a + g + u == a + (g + u);
    PlainText(double, a, g + u, false);
    GapRead(double, g, u, false);
    if double { DoubleStep(u, true); } else { SingleStep(u, true); }
  }

  /** A control character other than tab and line breaks is an error. */
  lemma ControlIsError(double: bool, a: seq<Unit>, c: Unit, u: seq<Unit>)
    requires Plain(double, a) && c < 32 && c != 9 && c != 10 && c != 13
    ensures Read(double, a + [c] + u, false) == Error
  {
    hide Plain, ReadDouble, ReadSingle;
    var all := [c] + u;
    assert a + [c] + u == a + all;
    PlainText(double, a, all, false);
    if c == 0 {
      DoubleEnd(all, false);
      SingleEnd(all, false);
    } else {
      DoubleStep(all, false);
      SingleStep(all, false);
    }
  }

  /** So is a scalar that is not closed. */
  lemma UnclosedIsError(double: bool, a: seq<Unit>)
    requires Plain(double, a)
    ensures Read(double, a, false) == Error
  {
    hide Plain, ReadDouble, ReadSingle;
    assert a + [] == a;
    PlainText(double, a, [], false);
    DoubleEnd([], false);
    SingleEnd([], false);
  }
}
