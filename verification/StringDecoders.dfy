/** The streaming UTF-8 decoder: however a valid byte sequence is cut into chunks, the text comes out the same. */
module StringDecoders {
  import opened Options
  import opened Utf8
  import opened Utf8Codec

  /** What a byte can be: a lead byte of 2, 3 or 4, ASCII (0), a continuation (-1), or neither (-2). */
  function ByteType(b: Byte): int {
    if b <= 127 then 0
    else if b / 0x20 == 6 then 2
    else if b / 0x10 == 14 then 3
    else if b / 8 == 30 then 4
    else if b / 0x40 == 2 then -1
    else -2
  }

  /** The incomplete character at the end of t[from..]: its length and the bytes it still needs, both 0 if there is none
      to speak of. */
  function Incomplete(t: seq<Byte>, from: nat): (r: (nat, nat))
    requires from < |t|
    ensures r.1 > 0 ==> 2 <= r.0 <= 4 && r.1 < r.0 && r.0 - r.1 <= |t| - from
  {
    var a := ByteType(t[|t| - 1]);
    if a >= 0 then (if a > 0 then (a, a - 1) else (0, 0))
    else if |t| - 2 < from || a == -2 then (0, 0)
    else
      var b := ByteType(t[|t| - 2]);
      if b >= 0 then (if b > 0 then (b, b - 2) else (0, 0))
      else if |t| - 3 < from || b == -2 then (0, 0)
      else
        var c := ByteType(t[|t| - 3]);
        if c >= 0 then (if c > 2 then (c, c - 3) else (0, 0)) else (0, 0)
  }

  lemma TypeOfBytes(cp: nat)
    requires Scalar(cp)
    ensures ByteType(Bytes(cp)[0]) == if |Bytes(cp)| == 1 then 0 else |Bytes(cp)|
    ensures forall i :: 0 < i < |Bytes(cp)| ==> ByteType(Bytes(cp)[i]) == -1 && Continuation(Bytes(cp)[i])
  {
  }

  /** How far a prefix of the encoding of `rest` reaches: `k` whole characters and `part` bytes of the next. */
  lemma {:induction false} Reach(t: seq<Byte>, rest: seq<nat>) returns (k: nat, part: nat)
    requires Scalars(rest) && t <= BytesOf(rest)
    ensures k <= |rest| && (if k < |rest| then part < |Bytes(rest[k])| else part == 0)
    ensures t == BytesOf(rest[..k]) + (if k < |rest| then Bytes(rest[k])[..part] else [])
    ensures BytesOf(rest)[|t|..] == BytesOf(rest[k..])[part..]
  {
    hide Bytes;
    if t == [] {
      k, part := 0, 0;
    } else if |t| < |Bytes(rest[0])| {
      k, part := 0, |t|;
      assert t == Bytes(rest[0])[..|t|];
    } else {
      var n := |Bytes(rest[0])|;
      assert t[..n] == Bytes(rest[0]) && t[n..] <= BytesOf(rest[1..]);
      k, part := Reach(t[n..], rest[1..]);
      k := k + 1;
      assert rest[..k][1..] == rest[1..][..k - 1] && rest[1..][k - 1..] == rest[k..];
    }
  }

  /** A tail of `p` bytes of an `n`-byte character: the backward scan meets its lead byte after p - 1 continuations. */
  lemma ScanTail(t: seq<Byte>, from: nat, n: nat, p: nat)
    requires from < |t| && 1 <= p <= n <= 4 && |t| - p >= from
    requires ByteType(t[|t| - p]) == (if n == 1 then 0 else n)
    requires forall i :: |t| - p < i < |t| ==> ByteType(t[i]) == -1
    ensures if p < n then Incomplete(t, from) == (n, n - p) else Incomplete(t, from).1 == 0
  {
    hide ByteType;
  }

  /** The backward scan finds the incomplete character, and nothing when the last character is complete. */
  lemma ScanFinds(t: seq<Byte>, from: nat, rest: seq<nat>, k: nat, part: nat)
    requires Scalars(rest) && from < |t| && k <= |rest| && (if k < |rest| then part < |Bytes(rest[k])| else part == 0)
    requires t[from..] == BytesOf(rest[..k]) + (if k < |rest| then Bytes(rest[k])[..part] else [])
    ensures part == 0 ==> Incomplete(t, from).1 == 0
    ensures part > 0 ==> Incomplete(t, from) == (|Bytes(rest[k])|, |Bytes(rest[k])| - part)
  {
    hide Bytes, ByteType, Incomplete;
    if part > 0 {
      TypeOfBytes(rest[k]);
      TailBytes(t, BytesOf(rest[..k]), Bytes(rest[k])[..part], from);
      ScanTail(t, from, |Bytes(rest[k])|, part);
    } else {
      assert k > 0;
      var front, cp := rest[..k - 1], rest[k - 1];
      assert rest[..k] == front + [cp];
      BytesConcat(front, [cp]);
      assert BytesOf([cp]) == Bytes(cp) + BytesOf([cp][1..]);
      TypeOfBytes(cp);
      TailBytes(t, BytesOf(front), Bytes(cp), from);
      ScanTail(t, from, |Bytes(cp)|, |Bytes(cp)|);
    }
  }

  lemma TailBytes(t: seq<Byte>, a: seq<Byte>, b: seq<Byte>, from: nat)
    requires from <= |t| && t[from..] == a + b
    ensures |t| - |b| >= from && forall i :: 0 <= i < |b| ==> t[|t| - |b| + i] == b[i]
  {
    forall i | 0 <= i < |b| ensures t[|t| - |b| + i] == b[i] {
      assert t[from..][|a| + i] == b[i];
    }
  }

  /** The decoder has consumed `part` bytes of the first code point of `rest`, and nothing of the others. */
  ghost predicate Standing(rest: seq<nat>, part: nat, lastNeed: nat, lastTotal: nat, lastChar: seq<Byte>) {
    && Scalars(rest) && |lastChar| == 4
    && (part == 0 ==> lastNeed == 0)
    && (part > 0 ==> rest != [] && part < |Bytes(rest[0])| && lastTotal == |Bytes(rest[0])| && lastNeed == lastTotal - part
                     && lastChar[..part] == Bytes(rest[0])[..part])
  }

  /** From one standing to the next, the bytes of `t` have gone in and the units `r` have come out. */
  ghost predicate Consumed(rest: seq<nat>, part: nat, t: seq<Byte>, r: seq<Unit>, rest': seq<nat>, part': nat)
    requires Scalars(rest) && Scalars(rest')
  {
    && part + |t| <= |BytesOf(rest)| && part' <= |BytesOf(rest')|
    && BytesOf(rest)[part + |t|..] == BytesOf(rest')[part'..]
    && UnitsOf(rest) == r + UnitsOf(rest')
    && |rest'| <= |rest| && rest' == rest[|rest| - |rest'|..]
  }

  /** `t` is what comes next. */
  ghost predicate Due(rest: seq<nat>, part: nat, t: seq<Byte>)
    requires Scalars(rest)
  {
    part + |t| <= |BytesOf(rest)| && BytesOf(rest)[part..part + |t|] == t
  }

  lemma {:induction false} UnitsConcat(a: seq<nat>, b: seq<nat>)
    requires Scalars(a) && Scalars(b)
    ensures UnitsOf(a + b) == UnitsOf(a) + UnitsOf(b)
  {
    if a == [] {
      assert a + b == b;
    } else {
      assert (a + b)[1..] == a[1..] + b;
      UnitsConcat(a[1..], b);
    }
  }

  /** What decoding the whole characters of a chunk leaves: the head of `rest` comes out, the tail stays. */
  lemma TextConsumed(t: seq<Byte>, from: nat, rest: seq<nat>, k: nat, part: nat)
    requires Scalars(rest) && from <= |t| && k <= |rest| && (if k < |rest| then part < |Bytes(rest[k])| else part == 0)
    requires t[from..] == BytesOf(rest[..k]) + (if k < |rest| then Bytes(rest[k])[..part] else [])
    requires Due(rest, 0, t[from..]) && BytesOf(rest)[|t| - from..] == BytesOf(rest[k..])[part..]
    ensures |t| - part >= from && UnitsOf(Points(t[from..|t| - part])) == UnitsOf(rest[..k])
    ensures Consumed(rest, 0, t[from..], UnitsOf(rest[..k]), rest[k..], part)
    ensures k < |rest| ==> t[|t| - part..] == Bytes(rest[k])[..part]
  {
    hide Bytes, Points, BytesOf, UnitsOf;
    var whole := BytesOf(rest[..k]);
    assert t[from..|t| - part] == t[from..][..|t| - from - part] == whole;
    DecodeEncode(rest[..k]);
    assert rest == rest[..k] + rest[k..];
    UnitsConcat(rest[..k], rest[k..]);
    assert t[|t| - part..] == t[from..][|whole|..];
    if k == |rest| {
      NoBytes(rest[k..]);
    } else {
      FirstBytes(rest[k..]);
    }
  }

  lemma NoBytes(cps: seq<nat>)
    requires cps == []
    ensures BytesOf(cps) == [] && UnitsOf(cps) == []
  {
  }

  lemma FirstBytes(cps: seq<nat>)
    requires Scalars(cps) && cps != []
    ensures BytesOf(cps) == Bytes(cps[0]) + BytesOf(cps[1..]) && UnitsOf(cps) == Units(cps[0]) + UnitsOf(cps[1..])
  {
  }

  /** Inside a character the bytes due are its continuation bytes. */
  lemma DueContinues(rest: seq<nat>, part: nat, t: seq<Byte>)
    requires Scalars(rest) && rest != [] && 0 < part < |Bytes(rest[0])| && Due(rest, part, t)
    ensures forall i :: 0 <= i < |t| && part + i < |Bytes(rest[0])| ==> Continuation(t[i])
  {
    hide Bytes;
    FirstBytes(rest);
    TypeOfBytes(rest[0]);
    forall i | 0 <= i < |t| && part + i < |Bytes(rest[0])| ensures Continuation(t[i]) {
      assert t[i] == BytesOf(rest)[part..part + |t|][i] == Bytes(rest[0])[part + i];
    }
  }

  lemma DueWhole(rest: seq<nat>, part: nat, t: seq<Byte>)
    requires Scalars(rest) && rest != [] && 0 < part < |Bytes(rest[0])| <= part + |t| && Due(rest, part, t)
    ensures var n := |Bytes(rest[0])| - part;
            && Bytes(rest[0])[..part] + t[..n] == Bytes(rest[0])
            && UnitsOf(Points(Bytes(rest[0]))) == Units(rest[0])
            && Due(rest[1..], 0, t[n..]) && BytesOf(rest)[part + |t|..] == BytesOf(rest[1..])[|t| - n..]
  {
    hide Bytes, Points, BytesOf, UnitsOf;
    FirstBytes(rest);
    OneAlone(rest[0]);
    DueSplit(Bytes(rest[0]), BytesOf(rest[1..]), part, t);
  }

  lemma OneAlone(cp: nat)
    requires Scalar(cp)
    ensures UnitsOf(Points(Bytes(cp))) == Units(cp)
  {
    hide Bytes, Points;
    DecodeEncode([cp]);
    FirstBytes([cp]);
    NoBytes([cp][1..]);
    assert Bytes(cp) + [] == Bytes(cp) && Units(cp) + [] == Units(cp);
  }

  lemma DueSplit(first: seq<Byte>, more: seq<Byte>, part: nat, t: seq<Byte>)
    requires part < |first| <= part + |t| && part + |t| <= |first + more| && (first + more)[part..part + |t|] == t
    ensures var n := |first| - part;
            && first[..part] + t[..n] == first
            && |t| - n <= |more| && more[0..|t| - n] == t[n..]
            && (first + more)[part + |t|..] == more[|t| - n..]
  {
    var n := |first| - part;
    assert t[..n] == (first + more)[part..part + |t|][..n] == first[part..];
    assert t[n..] == (first + more)[part..part + |t|][n..] == more[..|t| - n];
  }

  lemma DuePart(rest: seq<nat>, part: nat, t: seq<Byte>)
    requires Scalars(rest) && rest != [] && 0 < part && part + |t| < |Bytes(rest[0])| && Due(rest, part, t)
    ensures Bytes(rest[0])[..part] + t == Bytes(rest[0])[..part + |t|]
  {
    hide Bytes;
    FirstBytes(rest);
    assert t == BytesOf(rest)[part..part + |t|] == Bytes(rest[0])[part..part + |t|];
  }

  /** The first byte that cannot go on with a character that needs `need` more bytes. */
  ghost predicate Cut(need: nat, t: seq<Byte>, j: nat) {
    j < need && j < |t| && !Continuation(t[j]) && forall i :: 0 <= i < j ==> Continuation(t[i])
  }

  /** There is such a byte; a character never needs more than three. */
  ghost predicate Broken(need: nat, t: seq<Byte>) {
    exists j: nat :: j < 3 && Cut(need, t, j)
  }

  lemma NotCut(rest: seq<nat>, part: nat, t: seq<Byte>, j: nat)
    requires Scalars(rest) && rest != [] && 0 < part < |Bytes(rest[0])| && Due(rest, part, t)
    ensures !Cut(|Bytes(rest[0])| - part, t, j)
  {
    hide Bytes, BytesOf;
    DueContinues(rest, part, t);
  }

  lemma NothingConsumed(rest: seq<nat>, part: nat)
    requires Scalars(rest) && part <= |BytesOf(rest)|
    ensures Consumed(rest, part, [], [], rest, part)
  {
  }

  lemma PartConsumed(rest: seq<nat>, part: nat, t: seq<Byte>)
    requires Scalars(rest) && Due(rest, part, t)
    ensures Consumed(rest, part, t, [], rest, part + |t|)
  {
  }

  lemma SuffixLonger<T>(s: seq<T>, t: seq<T>)
    requires s != [] && |t| <= |s| - 1 && t == s[1..][|s| - 1 - |t|..]
    ensures t == s[|s| - |t|..]
  {
  }

  lemma UnitsJoin(a: seq<Unit>, b: seq<Unit>, c: seq<Unit>)
    ensures a + (b + c) == a + b + c
  {
  }

  /** The rest of a character, and then more. */
  lemma WholeConsumed(rest: seq<nat>, part: nat, t: seq<Byte>, more: seq<Unit>, rest': seq<nat>, part': nat)
    requires Scalars(rest) && Scalars(rest') && rest != [] && 0 < part < |Bytes(rest[0])| <= part + |t| && Due(rest, part, t)
    requires Consumed(rest[1..], 0, t[|Bytes(rest[0])| - part..], more, rest', part')
    ensures Consumed(rest, part, t, Units(rest[0]) + more, rest', part')
  {
    DueWhole(rest, part, t);
    FirstBytes(rest);
    hide Bytes, BytesOf, UnitsOf, Units, Scalars, Points;
    SuffixLonger(rest, rest');
    UnitsJoin(Units(rest[0]), more, UnitsOf(rest'));
    assert part + |t| <= |BytesOf(rest)|;
    assert 0 + |t[|Bytes(rest[0])| - part..]| == |t| - (|Bytes(rest[0])| - part);
  }

  /** What the decoder keeps of a chunk is the beginning of the next character. */
  lemma TextStands(t: seq<Byte>, from: nat, rest: seq<nat>, lastNeed: nat, lastTotal: nat, lastChar: seq<Byte>)
      returns (rest': seq<nat>, part: nat)
    requires Scalars(rest) && from < |t| && Due(rest, 0, t[from..]) && |lastChar| == 4
    requires lastNeed == Incomplete(t, from).1
    requires lastNeed > 0 ==> lastTotal == Incomplete(t, from).0 && lastChar[..lastTotal - lastNeed] == t[|t| - (lastTotal - lastNeed)..]
    ensures Standing(rest', part, lastNeed, lastTotal, lastChar)
    ensures var kept := if lastNeed == 0 then 0 else lastTotal - lastNeed;
            Consumed(rest, 0, t[from..], UnitsOf(Points(t[from..|t| - kept])), rest', part)
  {
    hide Points, Incomplete, Bytes, BytesOf, UnitsOf;
    var k: nat;
    k, part := Reach(t[from..], rest);
    rest' := rest[k..];
    ScanFinds(t, from, rest, k, part);
    TextConsumed(t, from, rest, k, part);
  }

  class StringDecoder {
    var lastNeed: nat
    var lastTotal: nat
    const lastChar: array<Byte>

    ghost predicate Valid()
      reads this
    {
      lastChar.Length == 4 && (lastNeed > 0 ==> lastNeed < lastTotal <= 4)
    }

    ghost predicate Stands(rest: seq<nat>, part: nat)
      reads this, lastChar
    {
      Standing(rest, part, lastNeed, lastTotal, lastChar[..])
    }

    constructor ()
      ensures Valid() && fresh(lastChar)
      ensures forall rest :: Scalars(rest) ==> Stands(rest, 0)
    {
      lastNeed, lastTotal := 0, 0;
      lastChar := new Byte[4](i => 0);
    }

    /** Copies t[from..to] to the position `at` of `lastChar`. */
    method Copy(t: seq<Byte>, from: nat, to: nat, at: nat)
      requires lastChar.Length == 4 && from <= to <= |t| && at + (to - from) <= 4
      modifies lastChar
      ensures lastChar[..] == old(lastChar[..at]) + t[from..to] + old(lastChar[at + (to - from)..])
    {
      var i := 0;
      while i < to - from
        invariant i <= to - from
        invariant forall j :: 0 <= j < 4 ==> lastChar[j] == if at <= j < at + i then t[from + j - at] else old(lastChar[j])
      {
        lastChar[at + i] := t[from + i];
        i := i + 1;
      }
    }

    /** Decodes t[from..] up to the incomplete character at its end, which is kept for the next chunk. */
    method Text(t: seq<Byte>, from: nat, ghost rest: seq<nat>) returns (r: seq<Unit>, ghost rest': seq<nat>, ghost part: nat)
      requires Valid() && lastNeed == 0 && from < |t|
      modifies this, lastChar
      ensures Valid()
      ensures Scalars(rest) && Due(rest, 0, t[from..]) ==> Stands(rest', part) && Consumed(rest, 0, t[from..], r, rest', part)
      ensures var kept := if lastNeed == 0 then 0 else lastTotal - lastNeed;
              from + kept <= |t| && r == UnitsOf(Points(t[from..|t| - kept])) && lastChar[..kept] == t[|t| - kept..]
    {
      hide Points, Incomplete, BytesOf, UnitsOf, Standing, Due, Consumed;
      rest', part := rest, 0;
      var (total, need) := Incomplete(t, from);
      lastNeed := need;
      if need == 0 {
        r := Decode(t, from, |t|);
      } else {
        lastTotal := total;
        var end := |t| - (total - need);
        Copy(t, end, |t|, 0);
        r := Decode(t, from, end);
      }
      if Scalars(rest) && Due(rest, 0, t[from..]) {
        rest', part := TextStands(t, from, rest, lastNeed, lastTotal, lastChar[..]);
      }
    }

    /** utf8CheckExtraBytes: whether a byte of `t` cannot go on with the character; `lastNeed` then says which. */
    method CheckExtraBytes(t: seq<Byte>) returns (broken: bool)
      requires Valid() && lastNeed > 0 && t != []
      modifies this`lastNeed
      ensures broken <==> Broken(old(lastNeed), t)
      ensures broken ==> lastNeed < |t|
      ensures !broken ==> lastNeed == old(lastNeed)
      ensures forall j: nat :: Cut(old(lastNeed), t, j) ==> broken && lastNeed == j
    {
      assert Cut(lastNeed, t, 0) <==> !Continuation(t[0]);
      assert Cut(lastNeed, t, 1) <==> Continuation(t[0]) && lastNeed > 1 && |t| > 1 && !Continuation(t[1]);
      assert Cut(lastNeed, t, 2) <==> Continuation(t[0]) && lastNeed > 2 && |t| > 2 && Continuation(t[1]) && !Continuation(t[2]);
      hide Continuation;
      if !Continuation(t[0]) {
        lastNeed := 0;
        return true;
      }
      if lastNeed > 1 && |t| > 1 {
        if !Continuation(t[1]) {
          lastNeed := 1;
          return true;
        }
        if lastNeed > 2 && |t| > 2 && !Continuation(t[2]) {
          lastNeed := 2;
          return true;
        }
      }
      broken := false;
    }

    /** Completes the character begun in earlier chunks, if `t` brings enough; malformed continuations yield U+FFFD. */
    method FillLast(t: seq<Byte>, ghost rest: seq<nat>, ghost part: nat) returns (r: Option<seq<Unit>>)
      requires Valid() && lastNeed > 0 && t != []
      modifies this`lastNeed, lastChar
      ensures r.None? ==> Valid()
      ensures lastNeed <= |t| || r.None?
      ensures old(Stands(rest, part)) && Due(rest, part, t) ==>
                if part + |t| < |Bytes(rest[0])| then r == None && Stands(rest, part + |t|)
                else r == Some(Units(rest[0])) && lastNeed == |Bytes(rest[0])| - part
      ensures forall j: nat :: Cut(old(lastNeed), t, j) ==> r == Some([0xFFFD]) && lastNeed == j
      ensures !Broken(old(lastNeed), t) ==>
                if old(lastNeed) > |t| then r == None && lastNeed == old(lastNeed) - |t|
                else lastNeed == old(lastNeed)
                     && r == Some(UnitsOf(Points(old(lastChar[..lastTotal - lastNeed]) + t[..lastNeed])))
    {
      hide Points, Bytes, BytesOf, UnitsOf, Cut;
      var e := lastTotal - lastNeed;
      ghost var known := Stands(rest, part) && Due(rest, part, t);
      if known {
        forall j: nat ensures !Cut(lastNeed, t, j) { NotCut(rest, part, t, j); }
      }
      var broken := CheckExtraBytes(t);
      if broken { return Some([REPLACEMENT]); }
      if lastNeed <= |t| {
        Copy(t, 0, lastNeed, e);
        var whole := Decode(lastChar[..], 0, lastTotal);
        r := Some(whole);
        assert lastChar[..][0..lastTotal] == old(lastChar[..lastTotal - lastNeed]) + t[..lastNeed];
        if known {
          assert lastChar[..][0..lastTotal] == Bytes(rest[0])[..part] + t[..lastNeed];
          DueWhole(rest, part, t);
        }
      } else {
        Copy(t, 0, |t|, e);
        lastNeed := lastNeed - |t|;
        r := None;
        if known {
          DuePart(rest, part, t);
          assert lastChar[..][..part + |t|] == Bytes(rest[0])[..part] + t;
        }
      }
    }

    /** Either the text goes on, or it breaks off inside a character and `after` starts at the byte that does not fit. */
    method Write(t: seq<Byte>, ghost rest: seq<nat>, ghost part: nat, ghost after: seq<nat>)
        returns (r: seq<Unit>, ghost rest': seq<nat>, ghost part': nat)
      requires Valid()
      modifies this, lastChar
      ensures Valid()
      ensures old(Stands(rest, part)) && Due(rest, part, t) ==> Stands(rest', part') && Consumed(rest, part, t, r, rest', part')
      ensures forall j: nat :: Cut(old(lastNeed), t, j) && Scalars(after) && Due(after, 0, t[j..]) ==>
                            && Stands(rest', part') && r != [] && r[0] == 0xFFFD
                            && Consumed(after, 0, t[j..], r[1..], rest', part')
    {
      hide Points, Bytes, BytesOf, UnitsOf;
      ghost var due, need := old(Stands(rest, part)) && Due(rest, part, t), lastNeed;
      rest', part' := rest, part;
      if t == [] {
        if due { NothingConsumed(rest, part); }
        return [], rest, part;
      }
      if lastNeed == 0 {
        r, rest', part' := Text(t, 0, rest);
        assert t[0..] == t;
        return;
      }
      var e := FillLast(t, rest, part);
      if e.None? {
        if due { PartConsumed(rest, part, t); }
        return [], rest, part + |t|;
      }
      var n := lastNeed;
      lastNeed := 0;
      if due {
        rest', part' := rest[1..], 0;
        DueWhole(rest, part, t);
        forall j: nat ensures !Cut(need, t, j) { NotCut(rest, part, t, j); }
      } else {
        rest', part' := after, 0;
      }
      r := e.value;
      if n < |t| {
        var more: seq<Unit>;
        more, rest', part' := Text(t, n, rest');
        r := r + more;
        if due { WholeConsumed(rest, part, t, more, rest', part'); }
      } else if due {
        NothingConsumed(rest', 0);
        WholeConsumed(rest, part, t, [], rest', 0);
        assert r + [] == r;
      }
    }

    /** The last chunk: a character that is still incomplete comes out as U+FFFD. */
    method End(t: seq<Byte>, ghost rest: seq<nat>, ghost part: nat, ghost after: seq<nat>)
        returns (r: seq<Unit>, ghost text: seq<Unit>, ghost rest': seq<nat>, ghost part': nat)
      requires Valid()
      modifies this, lastChar
      ensures old(Stands(rest, part)) && Due(rest, part, t) ==>
                Inside(rest', part') && Consumed(rest, part, t, text, rest', part') && r == text + if part' > 0 then [0xFFFD] else []
      ensures forall j: nat :: Cut(old(lastNeed), t, j) && Scalars(after) && Due(after, 0, t[j..]) ==>
                            && Inside(rest', part') && text != [] && text[0] == 0xFFFD
                            && Consumed(after, 0, t[j..], text[1..], rest', part') && r == text + if part' > 0 then [0xFFFD] else []
    {
      hide Points, Bytes, BytesOf, UnitsOf;
      r, rest', part' := Write(t, rest, part, after);
      text := r;
      if lastNeed > 0 { r := r + [REPLACEMENT]; }
    }
  }

  /** `part` bytes into the first of the code points. */
  ghost predicate Inside(rest: seq<nat>, part: nat) {
    Scalars(rest) && (part > 0 ==> rest != [] && part < |Bytes(rest[0])|)
  }

  function Joined(chunks: seq<seq<Byte>>): seq<Byte> {
    if chunks == [] then [] else chunks[0] + Joined(chunks[1..])
  }

  /** Valid UTF-8. */
  predicate WellFormed(t: seq<Byte>) {
    BytesOf(Points(t)) == t
  }

  /** What is encoded from scalar values is valid, and everything valid is encoded from scalar values. */
  lemma WellFormedEncoded(cps: seq<nat>)
    requires Scalars(cps)
    ensures WellFormed(BytesOf(cps)) && Points(BytesOf(cps)) == cps
  {
    DecodeEncode(cps);
  }

  /** The text `cps`, and `n` bytes of one more character. */
  ghost predicate Truncated(t: seq<Byte>, cps: seq<nat>, cp: nat, n: nat) {
    Scalars(cps) && Scalar(cp) && n < |Bytes(cp)| && t == BytesOf(cps) + Bytes(cp)[..n]
  }

  lemma TruncatedDue(t: seq<Byte>, cps: seq<nat>, cp: nat, n: nat)
    requires Truncated(t, cps, cp, n)
    ensures Scalars(cps) && Scalar(cp) && n < |Bytes(cp)|
    ensures Scalars(cps + [cp]) && |BytesOf(cps + [cp])| == |t| + |Bytes(cp)| - n
    ensures Due(cps + [cp], 0, t) && UnitsOf(cps + [cp]) == UnitsOf(cps) + Units(cp)
  {
    hide Bytes;
    BytesConcat(cps, [cp]);
    UnitsConcat(cps, [cp]);
    FirstBytes([cp]);
    NoBytes([cp][1..]);
    hide BytesOf, UnitsOf, Units;
    assert Bytes(cp) + [] == Bytes(cp) && Units(cp) + [] == Units(cp);
    assert (BytesOf(cps) + Bytes(cp))[0..|t|] == t;
  }

  lemma LongRest(rest: seq<nat>, cp: nat)
    requires Scalars(rest) && |rest| >= 2 && rest[|rest| - 1] == cp
    ensures |BytesOf(rest)| >= |Bytes(rest[0])| + |Bytes(cp)|
  {
    hide Bytes;
    var front := rest[..|rest| - 1];
    assert rest == front + [cp];
    BytesConcat(front, [cp]);
    FirstBytes([cp]);
    FirstBytes(front);
    assert front[0] == rest[0];
  }

  /** What is left when all of it has been consumed: the `n` bytes. */
  lemma TruncatedLeft(cps: seq<nat>, cp: nat, n: nat, rest: seq<nat>, part: nat)
    requires Scalars(cps) && Scalar(cp) && n < |Bytes(cp)| && Inside(rest, part)
    requires |rest| <= |cps| + 1 && rest == (cps + [cp])[|cps| + 1 - |rest|..]
    requires |BytesOf(rest)| - part == |Bytes(cp)| - n
    ensures rest == [cp] && part == n
  {
    hide Bytes;
    if |rest| >= 2 {
      LongRest(rest, cp);
    } else if |rest| == 1 {
      FirstBytes(rest);
      NoBytes(rest[1..]);
    } else {
      NoBytes(rest);
    }
  }

  lemma TruncatedOut(cps: seq<nat>, cp: nat, r: seq<Unit>)
    requires Scalars(cps) && Scalar(cp) && UnitsOf(cps + [cp]) == r + UnitsOf([cp])
    ensures r == UnitsOf(cps)
  {
    hide Bytes, UnitsOf, Units;
    UnitsConcat(cps, [cp]);
    var a, b := UnitsOf(cps), UnitsOf([cp]);
    assert |r| == |a|;
    assert r == (r + b)[..|r|] == (a + b)[..|a|] == a;
  }

  /** `r` has come out of a text, `rest` is to come; its bytes lie ahead but for the last `missing`. */
  ghost predicate Streaming(all: seq<nat>, missing: nat, r: seq<Unit>, rest: seq<nat>, part: nat, ahead: seq<Byte>) {
    && Scalars(all) && |rest| <= |all| && rest == all[|all| - |rest|..] && UnitsOf(all) == r + UnitsOf(rest)
    && Due(rest, part, ahead) && |BytesOf(rest)| - part == |ahead| + missing
  }

  lemma StreamOn(all: seq<nat>, missing: nat, r: seq<Unit>, rest: seq<nat>, part: nat, t: seq<Byte>, ahead: seq<Byte>,
                 more: seq<Unit>, rest': seq<nat>, part': nat)
    requires Streaming(all, missing, r, rest, part, t + ahead) && Scalars(rest) && Scalars(rest')
    requires Consumed(rest, part, t, more, rest', part')
    ensures Streaming(all, missing, r + more, rest', part', ahead)
  {
    hide BytesOf, UnitsOf;
    var bytes, bytes' := BytesOf(rest), BytesOf(rest');
    assert bytes'[part'..part' + |ahead|] == bytes'[part'..][..|ahead|];
    assert ahead == (t + ahead)[|t|..] == bytes[part..part + |t + ahead|][|t|..];
    assert bytes[part + |t|..][..|ahead|] == bytes[part..part + |t + ahead|][|t|..];
  }

  lemma StreamDue(all: seq<nat>, missing: nat, r: seq<Unit>, rest: seq<nat>, part: nat, t: seq<Byte>, ahead: seq<Byte>)
    requires Streaming(all, missing, r, rest, part, t + ahead)
    ensures Scalars(rest) && Due(rest, part, t)
  {
    hide BytesOf, UnitsOf;
    assert t == (t + ahead)[..|t|] == BytesOf(rest)[part..part + |t + ahead|][..|t|];
  }

  lemma StreamStarts(t: seq<Byte>, cps: seq<nat>, cp: nat, n: nat)
    requires Truncated(t, cps, cp, n)
    ensures Scalars(cps) && Scalar(cp) && n < |Bytes(cp)| && Streaming(cps + [cp], |Bytes(cp)| - n, [], cps + [cp], 0, t)
  {
    hide BytesOf, UnitsOf, Bytes;
    TruncatedDue(t, cps, cp, n);
    assert [] + UnitsOf(cps + [cp]) == UnitsOf(cps + [cp]);
  }

  lemma StreamEnds(cps: seq<nat>, cp: nat, n: nat, r: seq<Unit>, rest: seq<nat>, part: nat)
    requires Scalars(cps) && Scalar(cp) && n < |Bytes(cp)| && Inside(rest, part)
    requires Streaming(cps + [cp], |Bytes(cp)| - n, r, rest, part, [])
    ensures r == UnitsOf(cps) && part == n
  {
    hide BytesOf, UnitsOf, Bytes;
    TruncatedLeft(cps, cp, n, rest, part);
    TruncatedOut(cps, cp, r);
  }

  /** However UTF-8 that may end inside a character is cut into chunks, the decoder gives what decoding it at once would
      give, and U+FFFD for the character cut off. */
  method DecodeChunks(chunks: seq<seq<Byte>>, ghost cps: seq<nat>, ghost cp: nat, ghost n: nat) returns (r: seq<Unit>)
    ensures Truncated(Joined(chunks), cps, cp, n) ==> r == UnitsOf(cps) + if n > 0 then [0xFFFD] else []
  {
    hide Points, Bytes, BytesOf, UnitsOf, Truncated, Consumed, Streaming, Due;
    var decoder := new StringDecoder();
    ghost var known := Truncated(Joined(chunks), cps, cp, n);
    ghost var rest, part, missing: nat := cps + [cp], 0, 0;
    if known {
      StreamStarts(Joined(chunks), cps, cp, n);
      missing := |Bytes(cp)| - n;
    }
    r := [];
    var i := 0;
    assert chunks[0..] == chunks;
    while i < |chunks|
      invariant i <= |chunks| && decoder.Valid() && fresh(decoder) && fresh(decoder.lastChar)
      invariant known ==> decoder.Stands(rest, part) && Streaming(cps + [cp], missing, r, rest, part, Joined(chunks[i..]))
    {
      assert chunks[i..][1..] == chunks[i + 1..];
      if known { StreamDue(cps + [cp], missing, r, rest, part, chunks[i], Joined(chunks[i + 1..])); }
      var more: seq<Unit>;
      ghost var rest', part';
      more, rest', part' := decoder.Write(chunks[i], rest, part, []);
      if known { StreamOn(cps + [cp], missing, r, rest, part, chunks[i], Joined(chunks[i + 1..]), more, rest', part'); }
      r, rest, part := r + more, rest', part';
      i := i + 1;
    }
    if known {
      assert [] + Joined([]) == Joined(chunks[i..]);
      StreamDue(cps + [cp], missing, r, rest, part, [], []);
    }
    var last, text, rest', part' := decoder.End([], rest, part, []);
    if known {
      StreamOn(cps + [cp], missing, r, rest, part, [], [], text, rest', part');
      StreamEnds(cps, cp, n, r + text, rest', part');
      assert r + last == r + text + if part' > 0 then [0xFFFD] else [];
    }
    r := r + last;
  }
}
