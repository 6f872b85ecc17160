/** The packed child array of a bitmap node behaves like 32 slots: inserting, removing, replacing,
    unpacking and packing each change exactly one slot. */
module HashTrieSlots {
  import opened Bits
  import opened Options
  import opened HashTrie

  lemma ChildIs<T>(bitmap: nat, nodes: seq<T>, s: nat)
    requires bitmap < WORD && |nodes| == Count(bitmap) && s < 32
    ensures Has(bitmap, s) ==> Rank(bitmap, s) < |nodes|
    ensures Child(bitmap, nodes, s) == if Has(bitmap, s) then Some(nodes[Rank(bitmap, s)]) else None
  {
    IndexInRange(bitmap, s);
    IndexIsRank(bitmap, s);
  }

  lemma {:induction false} RankOr(b: nat, s: nat, n: nat)
    requires !Has(b, s)
    ensures Rank(Or(b, Bit(s)), n) == Rank(b, n) + if s < n then 1 else 0
  {
    if n == 0 {
    } else {
      RankOr(b, s, n - 1);
      RankStep(b, n - 1);
      RankStep(Or(b, Bit(s)), n - 1);
      HasOr(b, s, n - 1);
    }
  }

  lemma {:induction false} RankXor(b: nat, s: nat, n: nat)
    requires Has(b, s)
    ensures Rank(b, n) == Rank(Xor(b, Bit(s)), n) + if s < n then 1 else 0
  {
    if n == 0 {
    } else {
      RankXor(b, s, n - 1);
      RankStep(b, n - 1);
      RankStep(Xor(b, Bit(s)), n - 1);
      HasXor(b, s, n - 1);
    }
  }

  /** Slots are packed in increasing order. */
  lemma RankOrder(b: nat, s: nat, t: nat)
    requires s < t && Has(b, s)
    ensures Rank(b, s) < Rank(b, t)
  {
    RankStep(b, s);
    RankMonotone(b, s + 1, t);
  }

  lemma CountWord(b: nat, n: nat)
    requires n == 32 && b < WORD
    ensures Count(b) == Rank(b, n)
  {
    Words();
    CountIsRank(b, n);
  }

  lemma InsertChild<T>(b: nat, nodes: seq<T>, s: nat, node: T, t: nat)
    requires b < WORD && |nodes| == Count(b) && s < 32 && t < 32 && !Has(b, s)
    ensures Rank(b, s) <= |nodes|
    ensures var b' := Or(b, Bit(s)); var nodes' := SpliceIn(nodes, Rank(b, s), node);
            && b' < WORD && |nodes'| == Count(b') == |nodes| + 1
            && Child(b', nodes', t) == if t == s then Some(node) else Child(b, nodes, t)
  {
    hide Child, And, Or, Xor, Has, Rank, Count, Bit;
    var b' := Or(b, Bit(s));
    Words();
    WordBounds(b, s, 32);
    var n := 32;
    CountWord(b, n);
    CountWord(b', n);
    RankOr(b, s, n);
    RankMonotone(b, s, n);
    var nodes' := SpliceIn(nodes, Rank(b, s), node);
    ChildIs(b, nodes, t);
    ChildIs(b', nodes', t);
    HasOr(b, s, t);
    RankOr(b, s, t);
    if Has(b, t) && t < s { RankOrder(b, t, s); }
    if s < t { RankMonotone(b, s, t); }
  }

  lemma RemoveChild<T>(b: nat, nodes: seq<T>, s: nat, t: nat)
    requires b < WORD && |nodes| == Count(b) && s < 32 && t < 32 && Has(b, s)
    ensures Rank(b, s) < |nodes|
    ensures var b' := Xor(b, Bit(s)); var nodes' := SpliceOut(nodes, Rank(b, s));
            && b' < WORD && |nodes'| == Count(b') == |nodes| - 1
            && Child(b', nodes', t) == if t == s then None else Child(b, nodes, t)
  {
    hide Child, And, Or, Xor, Has, Rank, Count, Bit;
    var b' := Xor(b, Bit(s));
    Words();
    WordBounds(b, s, 32);
    var n := 32;
    CountWord(b, n);
    CountWord(b', n);
    RankXor(b, s, n);
    ChildIs(b, nodes, s);
    var nodes' := SpliceOut(nodes, Rank(b, s));
    ChildIs(b, nodes, t);
    ChildIs(b', nodes', t);
    HasXor(b, s, t);
    RankXor(b, s, t);
    if Has(b, t) && t < s { RankOrder(b, t, s); }
    if s < t { RankOrder(b, s, t); }
  }

  lemma ReplaceChild<T>(b: nat, nodes: seq<T>, s: nat, node: T, t: nat)
    requires b < WORD && |nodes| == Count(b) && s < 32 && t < 32 && Has(b, s)
    ensures Rank(b, s) < |nodes|
    ensures Child(b, nodes[Rank(b, s) := node], t) == if t == s then Some(node) else Child(b, nodes, t)
  {
    ChildIs(b, nodes, s);
    var nodes' := nodes[Rank(b, s) := node];
    ChildIs(b, nodes, t);
    ChildIs(b, nodes', t);
    if Has(b, t) && t < s { RankOrder(b, t, s); }
    if s < t { RankOrder(b, s, t); }
  }

  lemma {:induction false} UnpackAt<T>(b: nat, nodes: seq<T>, n: nat, t: nat)
    requires |nodes| == Rank(b, n) && t < n
    ensures Has(b, t) ==> Rank(b, t) < |nodes|
    ensures Unpack(b, nodes, n)[t] == if Has(b, t) then Some(nodes[Rank(b, t)]) else None
  {
    if t > 0 {
      UnpackAt(b / 2, if b % 2 == 1 then nodes[1..] else nodes, n - 1, t - 1);
    }
  }

  lemma UnpackChild<T>(b: nat, nodes: seq<T>, n: nat, t: nat)
    requires b < WORD && |nodes| == Count(b) && t < n && n == 32
    ensures Unpack(b, nodes, n)[t] == Child(b, nodes, t)
  {
    CountWord(b, n);
    UnpackAt(b, nodes, n, t);
    ChildIs(b, nodes, t);
  }

  lemma {:induction false} UnpackDefined<T>(b: nat, nodes: seq<T>, n: nat)
    requires |nodes| == Rank(b, n)
    ensures Defined(Unpack(b, nodes, n)) == |nodes|
  {
    if n > 0 {
      UnpackDefined(b / 2, if b % 2 == 1 then nodes[1..] else nodes, n - 1);
      var slots := Unpack(b, nodes, n);
      assert slots[1..] == Unpack(b / 2, if b % 2 == 1 then nodes[1..] else nodes, n - 1);
    }
  }

  lemma {:induction false} DefinedUpdate<T>(slots: seq<Option<T>>, s: nat, value: Option<T>)
    requires s < |slots|
    ensures Defined(slots[s := value]) + (if slots[s].Some? then 1 else 0)
         == Defined(slots) + (if value.Some? then 1 else 0)
  {
    if s > 0 {
      assert slots[s := value][1..] == slots[1..][s - 1 := value];
      DefinedUpdate(slots[1..], s - 1, value);
    }
  }

  lemma {:induction false} PackAt<T>(slots: seq<Option<T>>, t: nat)
    requires t < |slots|
    ensures Has(PackBits(slots), t) <==> slots[t].Some?
    ensures slots[t].Some? ==> Rank(PackBits(slots), t) < |PackNodes(slots)|
    ensures slots[t].Some? ==> PackNodes(slots)[Rank(PackBits(slots), t)] == slots[t].value
  {
    if t > 0 {
      PackAt(slots[1..], t - 1);
    }
  }

  lemma {:induction false} PackSize<T>(slots: seq<Option<T>>)
    ensures |PackNodes(slots)| == Count(PackBits(slots)) == Defined(slots)
    ensures PackBits(slots) < Bit(|slots|)
  {
    if slots != [] { PackSize(slots[1..]); }
  }

  lemma PackChild<T>(slots: seq<Option<T>>, t: nat)
    requires |slots| == 32 && t < 32
    ensures PackBits(slots) < WORD && |PackNodes(slots)| == Count(PackBits(slots)) == Defined(slots)
    ensures Child(PackBits(slots), PackNodes(slots), t) == slots[t]
  {
    Words();
    PackSize(slots);
    PackAt(slots, t);
    ChildIs(PackBits(slots), PackNodes(slots), t);
  }
}
