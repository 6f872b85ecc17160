/** The two conversion loops of the buffer module, and the round trip between them. */
module Utf8Codec {
  import opened Utf8

  /** Decodes t[start..end]. */
  method Decode(t: seq<Byte>, start: nat, end: nat) returns (r: seq<Unit>)
    ensures var n := if |t| < end then |t| else end;
            r == if start <= n then UnitsOf(Points(t[start..n])) else []
  {
    hide ReadPoint, Announced, Units, Points, UnitsOf;
    var n := if |t| < end then |t| else end;
    r := [];
    var i := start;
    while i < n
      invariant start <= n ==> start <= i <= n
      invariant start > n ==> i == start && r == []
      invariant start <= n ==> UnitsOf(Points(t[start..n])) == r + UnitsOf(Points(t[i..n]))
    {
      var rest := t[i..n];
      PointsStep(rest);
      var cp := ReadPoint(rest);
      var length := if cp < 0 then 1 else Announced(rest[0]);
      var point: nat := if cp < 0 then REPLACEMENT else cp;
      assert rest[length..] == t[i + length..n];
      r := r + Units(point);
      i := i + length;
    }
    if start <= n { NoPoints(t[i..n]); }
  }

  lemma NoPoints(t: seq<Byte>)
    ensures t == [] ==> UnitsOf(Points(t)) == []
  {
  }

  lemma PointsStep(t: seq<Byte>)
    requires t != []
    ensures ReadPoint(t) < 0 ==> UnitsOf(Points(t)) == Units(REPLACEMENT) + UnitsOf(Points(t[1..]))
    ensures ReadPoint(t) >= 0 ==>
              0 < Announced(t[0]) <= |t| && UnitsOf(Points(t)) == Units(ReadPoint(t)) + UnitsOf(Points(t[Announced(t[0])..]))
  {
    hide ReadPoint, Units;
    var cp := ReadPoint(t);
    if cp >= 0 {
      var rest := Points(t[Announced(t[0])..]);
      assert ([cp as nat] + rest)[1..] == rest;
    } else {
      var rest := Points(t[1..]);
      assert ([REPLACEMENT] + rest)[1..] == rest;
    }
  }

  function Combine(lead: nat, trail: nat): nat
    requires Lead(lead) && Trail(trail)
  {
    0x10000 + (lead - 0xD800) * 0x400 + (trail - 0xDC00)
  }

  /** The code points the encoder makes of `s`, with the lead surrogate it has kept back, or -1. */
  function Lossy(s: seq<Unit>, lead: int): (cps: seq<nat>)
    requires lead == -1 || (lead >= 0 && Lead(lead))
    ensures Scalars(cps)
    decreases |s|
  {
    if s == [] then []
    else if !Surrogate(s[0]) then (if lead >= 0 then [REPLACEMENT] else []) + [s[0]] + Lossy(s[1..], -1)
    else if lead < 0 then
      if Trail(s[0]) || |s| == 1 then [REPLACEMENT] + Lossy(s[1..], -1) else Lossy(s[1..], s[0])
    else if Lead(s[0]) then [REPLACEMENT] + Lossy(s[1..], s[0])
    else [Combine(lead, s[0])] + Lossy(s[1..], -1)
  }

  lemma LossyStep(s: seq<Unit>, lead: int)
    requires s != [] && (lead == -1 || (lead >= 0 && Lead(lead)))
    ensures var n, next := s[0], s[1..];
            Lossy(s, lead) ==
              if !Surrogate(n) then (if lead >= 0 then [REPLACEMENT] + ([n as nat] + Lossy(next, -1)) else [n as nat] + Lossy(next, -1))
              else if lead < 0 then (if Trail(n) || |s| == 1 then [REPLACEMENT] + Lossy(next, -1) else Lossy(next, n))
              else if Lead(n) then [REPLACEMENT] + Lossy(next, n)
              else [Combine(lead, n)] + Lossy(next, -1)
  {
    if !Surrogate(s[0]) {
      assert [] + [s[0] as nat] == [s[0] as nat];
      assert [REPLACEMENT] + [s[0] as nat] + Lossy(s[1..], -1) == [REPLACEMENT] + ([s[0] as nat] + Lossy(s[1..], -1));
    }
  }

  /** The longest prefix whose encoding fits the room. */
  function Fit(cps: seq<nat>, room: int): (fit: seq<nat>)
    requires Scalars(cps)
    ensures Scalars(fit)
  {
    if cps == [] || |Bytes(cps[0])| > room then [] else [cps[0]] + Fit(cps[1..], room - |Bytes(cps[0])|)
  }

  lemma {:induction false} BytesConcat(a: seq<nat>, b: seq<nat>)
    requires Scalars(a) && Scalars(b)
    ensures BytesOf(a + b) == BytesOf(a) + BytesOf(b)
  {
    if a == [] {
      assert a + b == b;
    } else {
      assert (a + b)[1..] == a[1..] + b;
      BytesConcat(a[1..], b);
    }
  }

  /** The bytes left to produce from the code points `cps`. */
  function Left(cps: seq<nat>, bounded: bool, room: int): seq<Byte>
    requires Scalars(cps)
  {
    BytesOf(if bounded then Fit(cps, room) else cps)
  }

  /** What the encoder produces; a limit of 0 counts as no limit. */
  function Encoded(s: seq<Unit>, limit: nat): seq<Byte> {
    Left(Lossy(s, -1), limit != 0, limit)
  }

  lemma LeftStep(cp: nat, rest: seq<nat>, bounded: bool, room: int)
    requires Scalar(cp) && Scalars(rest)
    ensures var n := |Bytes(cp)|;
            Left([cp] + rest, bounded, room) == if bounded && n > room then [] else Bytes(cp) + Left(rest, bounded, room - n)
  {
    hide Bytes;
    assert ([cp] + rest)[1..] == rest;
    var fit := Fit(rest, room - |Bytes(cp)|);
    assert ([cp] + fit)[1..] == fit;
  }

  lemma NoRoom(cps: seq<nat>, room: int)
    requires Scalars(cps) && room <= 0
    ensures Left(cps, true, room) == []
  {
  }

  /** Appends the encoding of `cp` if there is room. */
  method Put(o: seq<Byte>, cp: nat, bounded: bool, room: int, ghost rest: seq<nat>) returns (r: seq<Byte>, left: int)
    requires Scalar(cp) && Scalars(rest)
    ensures left == room - |Bytes(cp)|
    ensures bounded && left < 0 ==> r == o
    ensures o + Left([cp] + rest, bounded, room) == r + Left(rest, bounded, left)
  {
    hide Bytes;
    LeftStep(cp, rest, bounded, room);
    left := room - |Bytes(cp)|;
    if bounded && left < 0 {
      NoRoom(rest, left);
      r := o;
    } else {
      r := o + Bytes(cp);
    }
  }

  method Encode(s: seq<Unit>, limit: nat) returns (o: seq<Byte>)
    ensures o == Encoded(s, limit)
  {
    hide Left, Bytes, Lossy, Encoded;
    EncodedIs(s, limit);
    var bounded, room, lead: int := limit != 0, limit as int, -1;
    o := [];
    var u := 0;
    assert s[0..] == s;
    while u < |s|
      invariant u <= |s| && (lead == -1 || (lead >= 0 && Lead(lead)))
      invariant Encoded(s, limit) == o + Left(Lossy(s[u..], lead), bounded, room)
    {
      var n, next := s[u], s[u + 1..];
      assert s[u..][1..] == next;
      LossyStep(s[u..], lead);
      u := u + 1;
      if Surrogate(n) {
        if lead < 0 {
          if Trail(n) || u == |s| {
            o, room := Put(o, REPLACEMENT, bounded, room, Lossy(next, -1));
          } else {
            lead := n;
          }
          continue;
        }
        if Lead(n) {
          o, room := Put(o, REPLACEMENT, bounded, room, Lossy(next, n));
          lead := n;
          continue;
        }
      } else if lead >= 0 {
        o, room := Put(o, REPLACEMENT, bounded, room, [n as nat] + Lossy(next, -1));
      }
      var cp: nat := if Surrogate(n) then Combine(lead, n) else n;
      lead := -1;
      o, room := Put(o, cp, bounded, room, Lossy(next, -1));
      if bounded && room < 0 {
        NoRoom(Lossy(next, -1), room);
        assert o + [] == o;
        return;
      }
    }
    assert s[u..] == [] && o + [] == o;
    NothingLeft(lead, bounded, room);
  }

  lemma EncodedIs(s: seq<Unit>, limit: nat)
    ensures Encoded(s, limit) == Left(Lossy(s, -1), limit != 0, limit)
  {
  }

  lemma NothingLeft(lead: int, bounded: bool, room: int)
    requires lead == -1 || (lead >= 0 && Lead(lead))
    ensures Left(Lossy([], lead), bounded, room) == []
  {
  }

  // ----- what the two loops promise together

  lemma CombineUnits(lead: nat, trail: nat)
    requires Lead(lead) && Trail(trail)
    ensures Scalar(Combine(lead, trail)) && Units(Combine(lead, trail)) == [lead, trail]
  {
  }

  /** Without lone surrogates nothing is replaced: the code points stand for exactly the string. */
  lemma {:induction false} LossyPaired(s: seq<Unit>)
    requires Paired(s)
    ensures UnitsOf(Lossy(s, -1)) == s
    decreases |s|
  {
    if s != [] {
      LossyStep(s, -1);
      if Lead(s[0]) {
        LossyStep(s[1..], s[0]);
        assert s[1..][1..] == s[2..] && s == [s[0], s[1]] + s[2..];
        CombineUnits(s[0], s[1]);
        LossyPaired(s[2..]);
        assert ([Combine(s[0], s[1])] + Lossy(s[2..], -1))[1..] == Lossy(s[2..], -1);
      } else {
        LossyPaired(s[1..]);
        assert ([s[0] as nat] + Lossy(s[1..], -1))[1..] == Lossy(s[1..], -1);
      }
    }
  }

  /** Encoding and decoding a string without lone surrogates gives it back. */
  lemma RoundTrip(s: seq<Unit>)
    requires Paired(s)
    ensures UnitsOf(Points(Encoded(s, 0))) == s
  {
    LossyPaired(s);
    DecodeEncode(Lossy(s, -1));
  }

  /** With a budget, the encoding is cut at a character boundary, fits, and is as long as it can be. */
  lemma {:induction false} FitLongest(cps: seq<nat>, room: int)
    requires Scalars(cps) && room >= 0
    ensures var fit := Fit(cps, room);
            && fit <= cps && |BytesOf(fit)| <= room
            && (fit == cps || |BytesOf(fit)| + |Bytes(cps[|fit|])| > room)
  {
    hide Bytes;
    if cps != [] && |Bytes(cps[0])| <= room {
      FitLongest(cps[1..], room - |Bytes(cps[0])|);
      var rest := Fit(cps[1..], room - |Bytes(cps[0])|);
      assert ([cps[0]] + rest)[1..] == rest;
      assert cps == [cps[0]] + cps[1..];
    }
  }

  /** With a positive budget the result is the encoding of a prefix of the string, whole characters only, within the
      budget, and with no room for the next character. */
  lemma BudgetKept(s: seq<Unit>, limit: nat)
    requires Paired(s) && limit > 0
    ensures var all, fit := Lossy(s, -1), Fit(Lossy(s, -1), limit);
            && Encoded(s, limit) == BytesOf(fit) && UnitsOf(all) == s && fit <= all
            && Encoded(s, limit) <= Encoded(s, 0) && |Encoded(s, limit)| <= limit
            && (fit == all || |Encoded(s, limit)| + |Bytes(all[|fit|])| > limit)
  {
    hide Bytes, Lossy;
    var all, fit := Lossy(s, -1), Fit(Lossy(s, -1), limit);
    LossyPaired(s);
    FitLongest(all, limit);
    assert all == fit + all[|fit|..];
    BytesConcat(fit, all[|fit|..]);
  }

  /** A budget of 0 is taken for no budget: the result keeps within it exactly when there is nothing to encode. */
  lemma BudgetExact(s: seq<Unit>, limit: nat)
    ensures |Encoded(s, limit)| <= limit <==> limit > 0 || s == []
  {
    hide Bytes;
    if limit > 0 {
      FitLongest(Lossy(s, -1), limit);
    } else if s != [] {
      NotEmpty(s, -1);
    }
  }

  lemma NotEmpty(s: seq<Unit>, lead: int)
    requires s != [] && (lead == -1 || (lead >= 0 && Lead(lead)))
    ensures Lossy(s, lead) != []
    decreases |s|
  {
    LossyStep(s, lead);
    hide Lossy;
    if lead < 0 && Lead(s[0]) && |s| > 1 { NotEmpty(s[1..], s[0]); }
  }

  // ----- lone surrogates

  /** Every lone surrogate replaced: what encoding is meant to produce. */
  function Replaced(s: seq<Unit>): (cps: seq<nat>)
    ensures Scalars(cps)
    decreases |s|
  {
    if s == [] then []
    else if Lead(s[0]) && |s| > 1 && Trail(s[1]) then [Combine(s[0], s[1])] + Replaced(s[2..])
    else [if Surrogate(s[0]) then REPLACEMENT else s[0]] + Replaced(s[1..])
  }

  predicate EndsWithTwoLeads(s: seq<Unit>) {
    |s| >= 2 && Lead(s[|s| - 1]) && Lead(s[|s| - 2])
  }

  lemma ReplacedLead(s: seq<Unit>, lead: nat)
    requires Lead(lead) && s != [] && Lead(s[0])
    ensures Replaced([lead as Unit] + s) == [REPLACEMENT] + Replaced(s)
  {
    assert ([lead as Unit] + s)[1..] == s;
  }

  /** With a lead surrogate kept back, the encoder goes on as if it came first. */
  lemma {:induction false} KeptBack(s: seq<Unit>, lead: nat)
    requires Lead(lead) && s != []
    ensures var all := [lead as Unit] + s;
            Lossy(s, lead) == if EndsWithTwoLeads(all) then Replaced(all)[..|Replaced(all)| - 1] else Replaced(all)
    ensures EndsWithTwoLeads([lead as Unit] + s) ==> Replaced([lead as Unit] + s) != []
    decreases |s|, 1
  {
    hide Lossy, Replaced;
    if !Lead(s[0]) {
      KeptApart(s, lead);
    } else {
      LossyStep(s, lead);
      ReplacedLead(s, lead);
      if |s| == 1 {
        LossyNone(s[1..], s[0]);
        OneReplaced(s);
      } else {
        assert s == [s[0]] + s[1..];
        KeptBack(s[1..], s[0]);
      }
    }
  }

  lemma OneReplaced(s: seq<Unit>)
    requires |s| == 1 && Lead(s[0])
    ensures Replaced(s) == [REPLACEMENT]
  {
    assert Replaced(s) == [REPLACEMENT] + Replaced(s[1..]);
  }

  lemma KeptApart(s: seq<Unit>, lead: nat)
    requires Lead(lead) && s != [] && !Lead(s[0])
    ensures var all := [lead as Unit] + s;
            Lossy(s, lead) == if EndsWithTwoLeads(all) then Replaced(all)[..|Replaced(all)| - 1] else Replaced(all)
    ensures EndsWithTwoLeads([lead as Unit] + s) ==> Replaced([lead as Unit] + s) != []
    decreases |s|, 0
  {
    var all: seq<Unit> := [lead as Unit] + s;
    LossyStep(s, lead);
    assert all[1..] == s && all[2..] == s[1..];
    hide Lossy;
    EndsSame(all, s[1..]);
    LossyReplaces(s[1..]);
    if !Trail(s[0]) { assert Replaced(s) == [s[0] as nat] + Replaced(s[1..]); }
  }

  lemma LossyNone(s: seq<Unit>, lead: int)
    requires s == [] && (lead == -1 || (lead >= 0 && Lead(lead)))
    ensures Lossy(s, lead) == []
  {
  }

  /** Cutting off units up to one that is not a lead surrogate does not change how the string ends. */
  lemma EndsSame(s: seq<Unit>, rest: seq<Unit>)
    requires |s| >= 2 && rest == s[2..] && !Lead(s[1])
    ensures EndsWithTwoLeads(s) <==> EndsWithTwoLeads(rest)
  {
  }

  /** The encoder replaces every lone surrogate, except that of two lead surrogates at the very end it drops the last. */
  lemma {:induction false} LossyReplaces(s: seq<Unit>)
    ensures EndsWithTwoLeads(s) ==> Replaced(s) != []
    ensures Lossy(s, -1) == if EndsWithTwoLeads(s) then Replaced(s)[..|Replaced(s)| - 1] else Replaced(s)
    decreases |s|, 2
  {
    if s != [] {
      LossyStep(s, -1);
      hide Lossy;
      if Lead(s[0]) && |s| > 1 {
        assert s == [s[0]] + s[1..];
        KeptBack(s[1..], s[0]);
      } else {
        LossyReplaces(s[1..]);
        if |s| == 1 { LossyNone(s[1..], -1); }
      }
    } else {
      LossyNone(s, -1);
    }
  }
}
