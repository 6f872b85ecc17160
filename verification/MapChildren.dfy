/** Updating the inner nodes of a map on the heap, and with them the whole trie. */
module MapChildren {
  import opened Bits
  import opened Options
  import opened Owners
  import opened HashTrie
  import opened HashTrieSlots
  import opened HashTrieCorrect
  import opened MapNodes
  import opened MapEdits
  import opened MapLoops
  import opened MapLeaves
  import opened MapUpdate

  /** Child `s` of `n` has been updated to `d`, standing for `w`; `n` itself is as it was. */
  ghost predicate Midway<K, V>(before: Heap<K, V>, mid: Heap<K, V>, owner: Owner?, h: K -> Word, path: seq<nat>, adds: bool, key: K,
                               n: TNode<K, V>, v: Node<K, V>, s: nat, d: Option<TNode<K, V>>, w: Option<Node<K, V>>)
  {
    && Inner(before, owner, h, path, key, n, v) && s == Slot(h(key), |path|)
    && Stepped(before, mid, owner, key, KidArea(before, n, v, s, owner), d, w)
    && (Kid(v, s).None? ==> d.Some?)
    && ((adds || NoClash(v)) && Private(before, n, v, owner) && d.Some? && w.Some? ==> Private(mid, d.value, w.value, owner))
  }

  /** What the parent hands on. */
  ghost predicate Rises<K, V>(before: Heap<K, V>, after: Heap<K, V>, owner: Owner?, adds: bool, key: K,
                              n: TNode<K, V>, v: Node<K, V>, r: TNode<K, V>, rv: Node<K, V>)
  {
    && Stepped(before, after, owner, key, AreaOf(before, n, v, owner), Some(r), Some(rv))
    && (r == n ==> Owned(n, owner) && !IsLeaf(rv))
    && ((adds || NoClash(v)) && Private(before, n, v, owner) ==> Private(after, r, rv, owner))
  }

  lemma PutRises<K, V>(e: Put<K, V>, h: K -> Word, path: seq<nat>, adds: bool)
    requires Puts(e, h, path) && Midway(e.before, e.mid, e.owner, h, path, adds, e.key, e.n, e.v, e.s, e.d, e.w)
    ensures Rises(e.before, e.after, e.owner, adds, e.key, e.n, e.v, e.u, e.r)
  {
    PutStepped(e, h, path);
    if (adds || NoClash(e.v)) && Private(e.before, e.n, e.v, e.owner) { PutPrivate(e, h, path); }
    hide Reach, PairsOf, Reps, Tree, Wf, Below, Stepped, KidArea, AreaOf, NoClash, Private, Alike, RefAt, Inner;
  }

  /** The parent after `Place`, or a new node in its stead. */
  lemma Placed<K, V>(before: Heap<K, V>, mid: Heap<K, V>, after: Heap<K, V>, owner: Owner?, h: K -> Word, path: seq<nat>, adds: bool, key: K,
                           n: TNode<K, V>, v: Node<K, V>, s: nat, d: Option<TNode<K, V>>, w: Option<Node<K, V>>,
                           u: TNode<K, V>, shape: Shape<K, V>, r: Node<K, V>)
    requires Midway(before, mid, owner, h, path, adds, key, n, v, s, d, w) && n in before.nodes
    requires if u == n then Owned(n, owner) else u !in mid.nodes && u.ownerID == owner
    requires after == Heap(mid.nodes[u := shape], mid.pairs)
    requires ShapePut(mid.pairs, before.nodes[n], v, s, d, w, shape, r)
    ensures Rises(before, after, owner, adds, key, n, v, u, r)
  {
    hide Reach, PairsOf, Reps, Tree, Wf, Below, Stepped, KidArea, AreaOf, NoClash, Private, Alike, RefAt, Inner, Rises, ShapePut;
    PutRises(Put(before, mid, after, owner, key, n, v, s, d, w, u, r), h, path, adds);
  }

  /** The children of an inner node, as the trie on values has them. */
  lemma InnerShape<K, V>(heap: Heap<K, V>, owner: Owner?, h: K -> Word, path: seq<nat>, key: K, n: TNode<K, V>, v: Node<K, V>)
    requires Inner(heap, owner, h, path, key, n, v)
    ensures n in heap.nodes && Sized(v)
    ensures forall s: nat :: s < 32 ==> (Kid(v, s).Some? <==> RefAt(heap.nodes[n], s).Some?)
    ensures v.Bitmap? ==> heap.nodes[n].Packed? && heap.nodes[n].bitmap == v.bitmap && |heap.nodes[n].nodes| == |v.nodes|
    ensures v.HashArray? ==> heap.nodes[n].Spread? && heap.nodes[n].count == v.count && |heap.nodes[n].slots| == |v.slots|
  {
    hide RefAt, Kid, Child;
  }

  /** The leaf test looks at the node's kind. */
  predicate IsLeafNode<K, V>(n: TNode<K, V>)
    reads n
  {
    n.shape.Leaf? || n.shape.Clash?
  }

  lemma LeafNode<K, V>(heap: Heap<K, V>, n: TNode<K, V>, v: Node<K, V>)
    requires Reps(heap, n, v)
    ensures n in heap.nodes && (heap.nodes[n].Leaf? || heap.nodes[n].Clash? <==> IsLeaf(v))
  {
  }

  // ----- one new child

  method AddChild<K, V>(ghost before: Heap<K, V>, ghost w: World<K, V>, owner: Owner?, ghost h: K -> Word, ghost path: seq<nat>, ghost adds: bool, ghost key: K,
                              node: TNode<K, V>, ghost v: Node<K, V>, s: nat, d: TNode<K, V>, ghost x: Node<K, V>)
    returns (r: TNode<K, V>, ghost w': World<K, V>)
    requires Midway(before, Snapshot(w), owner, h, path, adds, key, node, v, s, Some(d), Some(x)) && v.Bitmap? && s < 32
    requires node in w.nodes && node in before.nodes && node.shape == before.nodes[node] && node.shape.Packed?
    requires Sized(v) && node.shape.bitmap == v.bitmap && |node.shape.nodes| == |v.nodes| && And(v.bitmap, Bit(s)) == 0
    modifies if Owned(node, owner) then {node} else {}
    ensures w.nodes <= w'.nodes && fresh(w'.nodes - w.nodes) && w'.pairs == w.pairs
    ensures Rises(before, Snapshot(w'), owner, adds, key, node, v, r, PutBitmap(v.bitmap, v.nodes, s, Some(x)))
  {
    hide Midway, Rises, ShapePut, Unpack, SpliceIn, PutBitmap, Index, And, Or, Bit, Count, Child;
    ghost var mid := Snapshot(w);
    ghost var rv := PutBitmap(v.bitmap, v.nodes, s, Some(x));
    var bitmap, nodes := node.shape.bitmap, node.shape.nodes;
    if |nodes| >= MAX_BITMAP {
      CountsBits(v);
      var slots, taken := Expanded(bitmap, nodes, 32);
      var shape := Spread(taken + 1, slots[s := Some(d)]);
      ExpandShape(mid.pairs, bitmap, nodes, v.nodes, s, d, x);
      r, w' := Make(w, owner, shape);
      Placed(before, mid, Snapshot(w'), owner, h, path, adds, key, node, v, s, Some(d), Some(x), r, shape, rv);
    } else {
      AddShape(mid.pairs, bitmap, nodes, v.nodes, s, d, x);
      var spliced := SplicedIn(nodes, Index(bitmap, s), d);
      var shape := Packed(Or(bitmap, Bit(s)), spliced);
      r, w' := Place(w, node, owner, shape);
      Placed(before, mid, Snapshot(w'), owner, h, path, adds, key, node, v, s, Some(d), Some(x), r, shape, rv);
    }
  }

  lemma CountsBits<K, V>(v: Node<K, V>)
    requires Sized(v) && v.Bitmap?
    ensures |v.nodes| == Count(v.bitmap) && v.bitmap < Bit(32) && |v.nodes| <= MAX_BITMAP
  {
    Words();
  }

  // ----- one child less

  /** Of two children, the other one and its slot. */
  lemma OtherRef<K, V>(b: nat, refs: seq<TNode<K, V>>, vs: seq<Node<K, V>>, s: nat) returns (t: nat)
    requires Sized(Bitmap(b, vs)) && |refs| == |vs| == 2 && s < 32 && And(b, Bit(s)) != 0
    ensures Index(b, s) < 2 && t < 32 && t != s
    ensures Child(b, refs, t) == Some(refs[1 - Index(b, s)]) && Child(b, vs, t) == Some(vs[1 - Index(b, s)])
  {
    hide Child, Count, Rank, And, Index, Or, Xor;
    IndexInRange(b, s);
    IndexIsRank(b, s);
    t := OtherSlot(b, vs, s);
    ChildIs(b, vs, t);
    ChildIs(b, refs, t);
    if s < t { RankOrder(b, s, t); } else { RankOrder(b, t, s); }
  }

  /** A leaf that is all that is left is not the node itself. */
  lemma NotItself<K, V>(before: Heap<K, V>, after: Heap<K, V>, owner: Owner?, h: K -> Word, path: seq<nat>, adds: bool, key: K,
                              n: TNode<K, V>, v: Node<K, V>, s: nat, d: Option<TNode<K, V>>, w: Option<Node<K, V>>, r: TNode<K, V>, rv: Node<K, V>)
    requires Midway(before, after, owner, h, path, adds, key, n, v, s, d, w) && Reps(after, r, rv) && IsLeaf(rv) && v.Bitmap?
    ensures r != n
  {
    SelfKept(before, after, owner, key, n, v, s);
    InnerShape(before, owner, h, path, key, n, v);
    LeafNode(after, r, rv);
  }

  lemma UpdatedLeft<K, V>(before: Heap<K, V>, after: Heap<K, V>, owner: Owner?, h: K -> Word, path: seq<nat>, adds: bool, key: K,
                                n: TNode<K, V>, v: Node<K, V>, s: nat, d: TNode<K, V>, w: Node<K, V>)
    requires Midway(before, after, owner, h, path, adds, key, n, v, s, Some(d), Some(w)) && IsLeaf(w) && v.Bitmap?
    ensures Rises(before, after, owner, adds, key, n, v, d, w)
  {
    NotItself(before, after, owner, h, path, adds, key, n, v, s, Some(d), Some(w), d, w);
    hide Reach, PairsOf, Reps, Tree, Wf, Below, KidArea, AreaOf, NoClash, Private, Inner, Touched;
    OnlyUpdated(before, after, owner, key, n, v, s, Some(d), Some(w));
  }

  lemma OtherLeft<K, V>(before: Heap<K, V>, after: Heap<K, V>, owner: Owner?, h: K -> Word, path: seq<nat>, adds: bool, key: K,
                              n: TNode<K, V>, v: Node<K, V>, s: nat, d: Option<TNode<K, V>>, w: Option<Node<K, V>>, t: nat)
    requires Midway(before, after, owner, h, path, adds, key, n, v, s, d, w) && v.Bitmap? && t != s
    requires Below(before, n, v, t).Some? && IsLeaf(Below(before, n, v, t).value.1)
    ensures Rises(before, after, owner, adds, key, n, v, Below(before, n, v, t).value.0, Below(before, n, v, t).value.1)
  {
    var b := Below(before, n, v, t).value;
    OnlyOther(before, after, owner, h, path, key, n, v, s, t);
    OtherKept(before, after, owner, h, path, key, n, v, s, t);
    NotItself(before, after, owner, h, path, adds, key, n, v, s, d, w, b.0, b.1);
    if (adds || NoClash(v)) && Private(before, n, v, owner) { OtherPrivate(before, after, owner, h, path, key, n, v, s, t); }
    hide Reach, PairsOf, Reps, Tree, Wf, Below, KidArea, AreaOf, NoClash, Private, Inner, Touched;
  }

  lemma OtherPrivate<K, V>(before: Heap<K, V>, after: Heap<K, V>, owner: Owner?, h: K -> Word, path: seq<nat>, key: K,
                           n: TNode<K, V>, v: Node<K, V>, s: nat, t: nat)
    requires Inner(before, owner, h, path, key, n, v) && s == Slot(h(key), |path|) && t != s && Below(before, n, v, t).Some?
    requires Touched(before, after, owner, key, KidArea(before, n, v, s, owner)) && Private(before, n, v, owner)
    ensures Private(after, Below(before, n, v, t).value.0, Below(before, n, v, t).value.1, owner)
  {
    var b := Below(before, n, v, t).value;
    OtherKept(before, after, owner, h, path, key, n, v, s, t);
    BelowReach(before, n, v, t);
    forall m | m in Reach(before, b.0, b.1) ensures m in before.nodes && after.nodes[m] == before.nodes[m] {
      Unreached(before, owner, n, v, s, t, m);
    }
    hide Reach, PairsOf, Reps, Tree, Wf, Below, KidArea;
  }

  method DropChild<K, V>(ghost before: Heap<K, V>, ghost w: World<K, V>, owner: Owner?, ghost h: K -> Word, ghost path: seq<nat>, ghost adds: bool, ghost key: K,
                               node: TNode<K, V>, ghost v: Node<K, V>, s: nat)
    returns (r: TNode<K, V>, ghost w': World<K, V>)
    requires Midway(before, Snapshot(w), owner, h, path, adds, key, node, v, s, None, None) && v.Bitmap? && s < 32
    requires node in w.nodes && node in before.nodes && node.shape == before.nodes[node] && node.shape.Packed?
    requires Sized(v) && node.shape.bitmap == v.bitmap && |node.shape.nodes| == |v.nodes| > 1
    requires And(v.bitmap, Bit(s)) != 0 && Child(v.bitmap, v.nodes, s).Some?
    modifies if Owned(node, owner) then {node} else {}
    ensures w.nodes <= w'.nodes && fresh(w'.nodes - w.nodes) && w'.pairs == w.pairs
    ensures Rises(before, Snapshot(w'), owner, adds, key, node, v, r, PutBitmap(v.bitmap, v.nodes, s, None))
  {
    hide Midway, Rises, ShapePut, Unpack, SpliceOut, Index, And, Xor, Bit, Count, Child, Reps, Below;
    ghost var mid := Snapshot(w);
    var bitmap, nodes := node.shape.bitmap, node.shape.nodes;
    var i := Index(bitmap, s);
    IndexBelow(v, s);
    var last := false;
    if |nodes| == 2 {
      ghost var t := OtherRef(bitmap, nodes, v.nodes, s);
      OtherBelow(before, mid, owner, h, path, adds, key, node, v, s, t);
      LeafNode(mid, nodes[1 - i], v.nodes[1 - i]);
      last := IsLeafNode(nodes[1 - i]);
      if last { OtherLeft(before, mid, owner, h, path, adds, key, node, v, s, None, None, t); }
    }
    if last {
      r, w' := nodes[1 - i], w;
    } else {
      DropShape(mid.pairs, bitmap, nodes, v.nodes, s);
      var spliced := SplicedOut(nodes, i);
      var shape := Packed(Xor(bitmap, Bit(s)), spliced);
      r, w' := Place(w, node, owner, shape);
      Placed(before, mid, Snapshot(w'), owner, h, path, adds, key, node, v, s, None, None, r, shape, PutBitmap(v.bitmap, v.nodes, s, None));
    }
  }

  lemma IndexBelow<K, V>(v: Node<K, V>, s: nat)
    requires Sized(v) && v.Bitmap? && s < 32 && And(v.bitmap, Bit(s)) != 0
    ensures Index(v.bitmap, s) < |v.nodes|
  {
    hide Child, Count, And, Index;
    IndexInRange(v.bitmap, s);
  }

  lemma OtherBelow<K, V>(before: Heap<K, V>, mid: Heap<K, V>, owner: Owner?, h: K -> Word, path: seq<nat>, adds: bool, key: K,
                               n: TNode<K, V>, v: Node<K, V>, s: nat, t: nat)
    requires Midway(before, mid, owner, h, path, adds, key, n, v, s, None, None) && t < 32 && t != s
    requires n in before.nodes && RefAt(before.nodes[n], t).Some? && Kid(v, t).Some?
    ensures Below(before, n, v, t) == Some((RefAt(before.nodes[n], t).value, Kid(v, t).value))
    ensures Reps(mid, RefAt(before.nodes[n], t).value, Kid(v, t).value)
  {
    hide RefAt, Kid;
    OtherKept(before, mid, owner, h, path, key, n, v, s, t);
  }

  // ----- one child replaced

  method SetChild<K, V>(ghost before: Heap<K, V>, ghost w: World<K, V>, owner: Owner?, ghost h: K -> Word, ghost path: seq<nat>, ghost adds: bool, ghost key: K,
                              node: TNode<K, V>, ghost v: Node<K, V>, s: nat, d: TNode<K, V>, ghost x: Node<K, V>)
    returns (r: TNode<K, V>, ghost w': World<K, V>)
    requires Midway(before, Snapshot(w), owner, h, path, adds, key, node, v, s, Some(d), Some(x)) && v.Bitmap? && s < 32
    requires node in w.nodes && node in before.nodes && node.shape == before.nodes[node] && node.shape.Packed?
    requires Sized(v) && node.shape.bitmap == v.bitmap && |node.shape.nodes| == |v.nodes| && And(v.bitmap, Bit(s)) != 0
    modifies if Owned(node, owner) then {node} else {}
    ensures w.nodes <= w'.nodes && fresh(w'.nodes - w.nodes) && w'.pairs == w.pairs
    ensures Rises(before, Snapshot(w'), owner, adds, key, node, v, r, PutBitmap(v.bitmap, v.nodes, s, Some(x)))
  {
    hide Midway, Rises, ShapePut, Index, And, Bit, Count, Child, Reps;
    ghost var mid := Snapshot(w);
    var bitmap, nodes := node.shape.bitmap, node.shape.nodes;
    var i := Index(bitmap, s);
    IndexBelow(v, s);
    MidReps(before, mid, owner, h, path, adds, key, node, v, s, d, x);
    LeafNode(mid, d, x);
    if |nodes| == 1 && IsLeafNode(d) {
      UpdatedLeft(before, mid, owner, h, path, adds, key, node, v, s, d, x);
      r, w' := d, w;
    } else {
      SetShape(mid.pairs, bitmap, nodes, v.nodes, s, d, x);
      var shape := Packed(bitmap, nodes[i := d]);
      r, w' := Place(w, node, owner, shape);
      Placed(before, mid, Snapshot(w'), owner, h, path, adds, key, node, v, s, Some(d), Some(x), r, shape, PutBitmap(v.bitmap, v.nodes, s, Some(x)));
    }
  }

  lemma MidReps<K, V>(before: Heap<K, V>, mid: Heap<K, V>, owner: Owner?, h: K -> Word, path: seq<nat>, adds: bool, key: K,
                            n: TNode<K, V>, v: Node<K, V>, s: nat, d: TNode<K, V>, w: Node<K, V>)
    requires Midway(before, mid, owner, h, path, adds, key, n, v, s, Some(d), Some(w))
    ensures Reps(mid, d, w)
  {
    hide Reps, Inner, KidArea;
  }

  // ----- 32-way arrays

  method PutSpread<K, V>(ghost before: Heap<K, V>, ghost w: World<K, V>, owner: Owner?, ghost h: K -> Word, ghost path: seq<nat>, ghost adds: bool, ghost key: K,
                               node: TNode<K, V>, ghost v: Node<K, V>, s: nat, d: Option<TNode<K, V>>, ghost x: Option<Node<K, V>>)
    returns (r: TNode<K, V>, ghost w': World<K, V>)
    requires Midway(before, Snapshot(w), owner, h, path, adds, key, node, v, s, d, x) && v.HashArray? && s < 32 && (d.Some? <==> x.Some?)
    requires node in w.nodes && node in before.nodes && node.shape == before.nodes[node] && node.shape.Spread?
    requires Sized(v) && node.shape.count == v.count && |node.shape.slots| == |v.slots| && (d.Some? || node.shape.slots[s].Some?)
    requires forall t: nat :: t < 32 ==> (Kid(v, t).Some? <==> RefAt(node.shape, t).Some?)
    modifies if Owned(node, owner) then {node} else {}
    ensures w.nodes <= w'.nodes && fresh(w'.nodes - w.nodes) && w'.pairs == w.pairs
    ensures Rises(before, Snapshot(w'), owner, adds, key, node, v, r, PutHashArray(v.count, v.slots, s, x))
  {
    hide Midway, Rises, ShapePut, PackBits, PackNodes, Defined, PutHashArray;
    ghost var mid := Snapshot(w);
    var count, slots := node.shape.count, node.shape.slots;
    forall t: nat | t < 32 ensures slots[t].Some? <==> v.slots[t].Some? {
      assert Kid(v, t).Some? <==> RefAt(node.shape, t).Some?;
    }
    SpreadShape(mid.pairs, count, slots, v.slots, s, d, x);
    var shape := SpreadPut(count, slots, s, d);
    if slots[s].Some? && d.None? && count - 1 < MIN_HASH_ARRAY {
      var bitmap, nodes := PackedBut(slots, s);
      r, w' := Make(w, owner, Packed(bitmap, nodes));
      Placed(before, mid, Snapshot(w'), owner, h, path, adds, key, node, v, s, d, x, r, shape, PutHashArray(v.count, v.slots, s, x));
    } else {
      count := if slots[s].None? then count + 1 else if d.None? then count - 1 else count;
      r, w' := Place(w, node, owner, Spread(count, slots[s := d]));
      Placed(before, mid, Snapshot(w'), owner, h, path, adds, key, node, v, s, d, x, r, shape, PutHashArray(v.count, v.slots, s, x));
    }
  }

  // ----- the update of one child

  /** The update of the value's child in slot `s`. */
  ghost function KidUpdate<K, V>(v: Node<K, V>, path: seq<nat>, h: K -> Word, key: K, value: Option<V>): (u: Updated<K, V>)
    requires (v.Bitmap? || v.HashArray?) && Wf(v, h, path) && OnPath(h(key), path)
  {
    var s := Slot(h(key), |path|);
    ChildWf(v, h, path, s);
    OnPathChild(h(key), path);
    if Kid(v, s).None? then UpdateAbsent(h, key, value) else Update(Kid(v, s).value, path + [s], |path| + 1, h, key, value)
  }

  /** A child was updated in place, or left alone. */
  ghost predicate SameRef<K, V>(n: TNode<K, V>, v: Node<K, V>, s: nat, owner: Owner?, d: Option<TNode<K, V>>, w: Option<Node<K, V>>) {
    d.Some? && Owned(n, owner) && Kid(v, s).Some? && w.Some? && (IsLeaf(w.value) <==> IsLeaf(Kid(v, s).value))
  }

  ghost predicate ChildDone<K, V>(before: Heap<K, V>, mid: Heap<K, V>, owner: Owner?, h: K -> Word, path: seq<nat>, adds: bool, key: K,
                                        n: TNode<K, V>, v: Node<K, V>, s: nat, c: Option<TNode<K, V>>, u: Updated<K, V>,
                                        d: Option<TNode<K, V>>, resized: bool, altered: bool)
  {
    && Midway(before, mid, owner, h, path, adds, key, n, v, s, d, u.node)
    && resized == u.resized && altered == u.altered && (altered <==> u.node != Kid(v, s))
    && (!altered ==> d == c && mid == before)
    && (altered && d == c ==> SameRef(n, v, s, owner, d, u.node))
    && (u.node.None? && Kid(v, s).Some? ==> Kid(v, s).value.Value?)
  }

  lemma BelowIs<K, V>(heap: Heap<K, V>, n: TNode<K, V>, v: Node<K, V>, s: nat, owner: Owner?)
    requires Below(heap, n, v, s).Some?
    ensures var b := Below(heap, n, v, s).value; Kid(v, s) == Some(b.1) && KidArea(heap, n, v, s, owner) == AreaOf(heap, b.0, b.1, owner)
  {
    hide RefAt, Kid, AreaOf;
  }

  lemma KidResult<K, V>(before: Heap<K, V>, mid: Heap<K, V>, owner: Owner?, h: K -> Word, path: seq<nat>, adds: bool, key: K, u: Updated<K, V>,
                              n: TNode<K, V>, v: Node<K, V>, s: nat, c: TNode<K, V>, x: Node<K, V>,
                              d: Option<TNode<K, V>>, resized: bool, altered: bool)
    requires Inner(before, owner, h, path, key, n, v) && s == Slot(h(key), |path|) && Below(before, n, v, s) == Some((c, x))
    requires Result(before, mid, owner, adds, key, c, x, u, d, resized, altered)
    requires (u.altered <==> u.node != Some(x)) && (u.node.None? ==> x.Value?)
    ensures ChildDone(before, mid, owner, h, path, adds, key, n, v, s, Some(c), u, d, resized, altered)
  {
    BelowIs(before, n, v, s, owner);
    if Owned(c, owner) { InnerTree(before, owner, h, path, key, n, v); KidOwned(before, owner, n, v, s); }
    KidMidway(before, mid, owner, h, path, adds, key, u, n, v, s, c, x, d, resized, altered);
    hide Stepped, AreaOf, NoClash, Private, Kid, Below, KidArea, Inner, Slot, Midway, Owned;
  }

  lemma KidMidway<K, V>(before: Heap<K, V>, mid: Heap<K, V>, owner: Owner?, h: K -> Word, path: seq<nat>, adds: bool, key: K, u: Updated<K, V>,
                              n: TNode<K, V>, v: Node<K, V>, s: nat, c: TNode<K, V>, x: Node<K, V>,
                              d: Option<TNode<K, V>>, resized: bool, altered: bool)
    requires Inner(before, owner, h, path, key, n, v) && s == Slot(h(key), |path|) && Below(before, n, v, s) == Some((c, x))
    requires Result(before, mid, owner, adds, key, c, x, u, d, resized, altered)
    ensures Midway(before, mid, owner, h, path, adds, key, n, v, s, d, u.node)
  {
    BelowIs(before, n, v, s, owner);
    if Private(before, n, v, owner) { KidPrivate(before, owner, n, v, s); }
    if NoClash(v) { KidClean(before, n, v, s); }
    hide Stepped, AreaOf, NoClash, Private, Kid, Below, KidArea, Inner, Slot, Shares;
  }

  lemma KidClean<K, V>(heap: Heap<K, V>, n: TNode<K, V>, v: Node<K, V>, s: nat)
    requires NoClash(v) && Below(heap, n, v, s).Some?
    ensures NoClash(Below(heap, n, v, s).value.1)
  {
    hide RefAt;
  }

  lemma InnerTree<K, V>(heap: Heap<K, V>, owner: Owner?, h: K -> Word, path: seq<nat>, key: K, n: TNode<K, V>, v: Node<K, V>)
    requires Inner(heap, owner, h, path, key, n, v)
    ensures Tree(heap, n, v, owner)
  {
  }

  lemma KidAchieves<K, V>(v: Node<K, V>, path: seq<nat>, h: K -> Word, key: K, value: Option<V>)
    requires (v.Bitmap? || v.HashArray?) && Wf(v, h, path) && OnPath(h(key), path)
    requires Kid(v, Slot(h(key), |path|)).Some? || value.Some?
    ensures var u, k := KidUpdate(v, path, h, key, value), Kid(v, Slot(h(key), |path|));
            (u.altered <==> u.node != k) && (u.node.None? && k.Some? ==> k.value.Value?)
  {
    hide Child, Get, Update;
    var s := Slot(h(key), |path|);
    ChildWf(v, h, path, s);
    OnPathChild(h(key), path);
    if Kid(v, s).Some? { UpdateCorrect(Kid(v, s).value, h, path + [s], key, value, key); }
  }

  lemma KidOwned<K, V>(heap: Heap<K, V>, owner: Owner?, n: TNode<K, V>, v: Node<K, V>, s: nat)
    requires Tree(heap, n, v, owner) && Below(heap, n, v, s).Some? && Owned(Below(heap, n, v, s).value.0, owner)
    ensures Owned(n, owner)
  {
    BelowReach(heap, n, v, s);
    assert Below(heap, n, v, s).value.0 in Reach(heap, Below(heap, n, v, s).value.0, Below(heap, n, v, s).value.1);
  }

  lemma KidPrivate<K, V>(heap: Heap<K, V>, owner: Owner?, n: TNode<K, V>, v: Node<K, V>, s: nat)
    requires Private(heap, n, v, owner) && Below(heap, n, v, s).Some?
    ensures Private(heap, Below(heap, n, v, s).value.0, Below(heap, n, v, s).value.1, owner)
  {
    BelowReach(heap, n, v, s);
    hide Reach, PairsOf, Below;
  }

  /** A new leaf where there was no child. */
  lemma AbsentDone<K, V>(before: Heap<K, V>, mid: Heap<K, V>, owner: Owner?, h: K -> Word, path: seq<nat>, adds: bool, key: K, x: V,
                               n: TNode<K, V>, v: Node<K, V>, s: nat, u: TNode<K, V>, p: Pair<K, V>)
    requires Inner(before, owner, h, path, key, n, v) && s == Slot(h(key), |path|) && Below(before, n, v, s).None? && Kid(v, s).None?
    requires Made(before, mid, owner, u, p, x) && mid.nodes[u] == Leaf(h(key), p) && p.key == key
    ensures ChildDone(before, mid, owner, h, path, adds, key, n, v, s, None, Updated(Some(Value(h(key), (key, x))), true, true), Some(u), true, true)
  {
    LeafStepped(before, mid, owner, h, key, x, u, p);
    hide Reach, PairsOf, Reps, Tree, Wf, Stepped, NoClash, Private, Inner, Slot, Kid, Made;
  }

  lemma LeafStepped<K, V>(before: Heap<K, V>, mid: Heap<K, V>, owner: Owner?, h: K -> Word, key: K, x: V, u: TNode<K, V>, p: Pair<K, V>)
    requires Made(before, mid, owner, u, p, x) && mid.nodes[u] == Leaf(h(key), p) && p.key == key
    ensures Stepped(before, mid, owner, key, Area({}, {}, {}, {}), Some(u), Some(Value(h(key), (key, x))))
    ensures Private(mid, u, Value(h(key), (key, x)), owner)
  {
    var w := Value(h(key), (key, x));
    FlatPrivate(mid, u, w, owner);
    hide Reach, PairsOf, Reps, Tree, Stepped, Private;
    FlatStepped(before, mid, owner, key, Area({}, {}, {}, {}), u, w);
  }

  /** Written back in place: the parent's own fields already say so. */
  lemma InPlace<K, V>(before: Heap<K, V>, mid: Heap<K, V>, owner: Owner?, h: K -> Word, path: seq<nat>, adds: bool, key: K,
                            n: TNode<K, V>, v: Node<K, V>, s: nat, d: Option<TNode<K, V>>, w: Option<Node<K, V>>)
    requires Midway(before, mid, owner, h, path, adds, key, n, v, s, d, w) && SameRef(n, v, s, owner, d, w) && s < 32
    requires n in before.nodes && RefAt(before.nodes[n], s) == d
    ensures Sized(v) && Rises(before, mid, owner, adds, key, n, v, n, HashTrie.Put(v, s, w))
  {
    hide Midway, Rises, ShapePut, PutBitmap, PutHashArray, Child, And, Bit, Index, Count, Defined;
    InnerOf(before, mid, owner, h, path, adds, key, n, v, s, d, w);
    if v.Bitmap? {
      SetInPlace(v, s, before.nodes[n].nodes, d.value, w.value);
      SetShape(mid.pairs, v.bitmap, before.nodes[n].nodes, v.nodes, s, d.value, w.value);
    } else {
      forall t: nat | t < 32 ensures before.nodes[n].slots[t].Some? <==> v.slots[t].Some? {
        assert Kid(v, t).Some? <==> RefAt(before.nodes[n], t).Some?;
      }
      SpreadShape(mid.pairs, v.count, before.nodes[n].slots, v.slots, s, d, w);
      assert before.nodes[n].slots[s := d] == before.nodes[n].slots;
    }
    assert mid == Heap(mid.nodes[n := before.nodes[n]], mid.pairs);
    Placed(before, mid, mid, owner, h, path, adds, key, n, v, s, d, w, n, before.nodes[n], HashTrie.Put(v, s, w));
  }

  lemma InnerOf<K, V>(before: Heap<K, V>, mid: Heap<K, V>, owner: Owner?, h: K -> Word, path: seq<nat>, adds: bool, key: K,
                            n: TNode<K, V>, v: Node<K, V>, s: nat, d: Option<TNode<K, V>>, w: Option<Node<K, V>>)
    requires Midway(before, mid, owner, h, path, adds, key, n, v, s, d, w)
    ensures n in before.nodes && Sized(v) && n in mid.nodes && mid.nodes[n] == before.nodes[n] && (d.Some? <==> w.Some?)
    ensures forall t: nat :: t < 32 ==> (Kid(v, t).Some? <==> RefAt(before.nodes[n], t).Some?)
    ensures v.Bitmap? ==> before.nodes[n].Packed? && before.nodes[n].bitmap == v.bitmap && |before.nodes[n].nodes| == |v.nodes|
    ensures v.HashArray? ==> before.nodes[n].Spread? && before.nodes[n].count == v.count && |before.nodes[n].slots| == |v.slots|
    ensures Kid(v, s).None? ==> d.Some?
  {
    hide Reach, PairsOf, Reps, Wf, NoClash, Private, Kid, RefAt;
    InnerShape(before, owner, h, path, key, n, v);
    SelfKept(before, mid, owner, key, n, v, s);
  }

  lemma SetInPlace<K, V>(v: Node<K, V>, s: nat, refs: seq<TNode<K, V>>, d: TNode<K, V>, w: Node<K, V>)
    requires Sized(v) && v.Bitmap? && s < 32 && |refs| == |v.nodes| && Kid(v, s).Some? && (IsLeaf(w) <==> IsLeaf(Kid(v, s).value))
    requires Child(v.bitmap, refs, s) == Some(d)
    ensures And(v.bitmap, Bit(s)) != 0 && Index(v.bitmap, s) < |refs| && refs[Index(v.bitmap, s) := d] == refs
    ensures |v.nodes| == 1 ==> !IsLeaf(w)
  {
    hide And, Bit, Index, Count;
  }

  // ----- the recursion

  /** The child in slot `s`. */
  method ChildRef<K, V>(ghost w: World<K, V>, node: TNode<K, V>, ghost v: Node<K, V>, s: nat) returns (c: Option<TNode<K, V>>)
    requires node in w.nodes && Alike(Snapshot(w).pairs, node.shape, v) && (v.Bitmap? || v.HashArray?) && Sized(v) && s < 32
    ensures c == RefAt(node.shape, s)
  {
    hide And, Bit, Index, Count;
    match node.shape
    case Packed(bitmap, nodes) =>
      if And(bitmap, Bit(s)) != 0 {
        IndexBelow(v, s);
        c := Some(nodes[Index(bitmap, s)]);
      } else {
        c := None;
      }
    case Spread(_, slots) => c := slots[s];
  }

  method MakeLeaf<K, V>(ghost w: World<K, V>, ghost path: seq<nat>, ghost v: Node<K, V>, ghost node: TNode<K, V>, owner: Owner?,
                              h: K -> Word, key: K, x: V)
    returns (d: Option<TNode<K, V>>, ghost w': World<K, V>)
    requires Inner(Snapshot(w), owner, h, path, key, node, v) && Kid(v, Slot(h(key), |path|)).None?
    ensures w.nodes <= w'.nodes && w.pairs <= w'.pairs && fresh(w'.nodes - w.nodes) && fresh(w'.pairs - w.pairs)
    ensures ChildDone(Snapshot(w), Snapshot(w'), owner, h, path, true, key, node, v, Slot(h(key), |path|), None,
                      Updated(Some(Value(h(key), (key, x))), true, true), d, true, true)
  {
    hide Inner, ChildDone, Kid, Slot;
    ghost var before := Snapshot(w);
    var p, u;
    p, w' := MakePair(w, owner, key, x);
    u, w' := Make(w', owner, Leaf(h(key), p));
    d := Some(u);
    AbsentDone(before, Snapshot(w'), owner, h, path, true, key, x, node, v, Slot(h(key), |path|), u, p);
  }

  /** updateNode, from the parent's point of view. */
  method UpdateChild<K(==), V(==)>(ghost w: World<K, V>, ghost path: seq<nat>, ghost v: Node<K, V>, ghost node: TNode<K, V>, s: nat,
                                        c: Option<TNode<K, V>>, owner: Owner?, level: nat, h: K -> Word, key: K, value: Option<V>)
    returns (d: Option<TNode<K, V>>, resized: bool, altered: bool, ghost w': World<K, V>)
    requires Inner(Snapshot(w), owner, h, path, key, node, v) && s == Slot(h(key), |path|) && level == |path|
    requires node in w.nodes && c == RefAt(Snapshot(w).nodes[node], s) && (c.Some? || value.Some?)
    modifies KidArea(Snapshot(w), node, v, s, owner).foot, KidArea(Snapshot(w), node, v, s, owner).cells
    ensures w.nodes <= w'.nodes && w.pairs <= w'.pairs && fresh(w'.nodes - w.nodes) && fresh(w'.pairs - w.pairs)
    ensures ChildDone(old(Snapshot(w)), Snapshot(w'), owner, h, path, value.Some?, key, node, v, s, c, KidUpdate(v, path, h, key, value), d, resized, altered)
    decreases v, 0
  {
    hide Inner, ChildDone, Kid, Slot, Result, Below, RefAt, KidUpdate, Reps, Tree, Wf, OnPath, AreaOf, KidArea, Update;
    ghost var before := Snapshot(w);
    KidOf(before, owner, h, path, key, value, node, v, s);
    if c.None? {
      resized, altered := true, true;
      d, w' := MakeLeaf(w, path, v, node, owner, h, key, value.value);
    } else {
      ghost var x := Kid(v, s).value;
      d, resized, altered, w' := UpdateNode(w, path + [s], x, c.value, owner, level + 1, h, key, value);
      KidResult(before, Snapshot(w'), owner, h, path, value.Some?, key, KidUpdate(v, path, h, key, value), node, v, s, c.value, x, d, resized, altered);
    }
  }

  /** The child to update is a trie of its own. */
  lemma KidOf<K, V>(heap: Heap<K, V>, owner: Owner?, h: K -> Word, path: seq<nat>, key: K, value: Option<V>, n: TNode<K, V>, v: Node<K, V>, s: nat)
    requires Inner(heap, owner, h, path, key, n, v) && s == Slot(h(key), |path|) && n in heap.nodes
    ensures (v.Bitmap? || v.HashArray?) && Wf(v, h, path) && OnPath(h(key), path)
    ensures Kid(v, s).Some? <==> RefAt(heap.nodes[n], s).Some?
    ensures OnPath(h(key), path + [s])
    ensures Kid(v, s).None? ==> KidUpdate(v, path, h, key, value) == UpdateAbsent(h, key, value)
    ensures Kid(v, s).Some? ==>
              var c, x := RefAt(heap.nodes[n], s).value, Kid(v, s).value;
              && Below(heap, n, v, s) == Some((c, x)) && Reps(heap, c, x) && Tree(heap, c, x, owner) && Wf(x, h, path + [s])
              && KidArea(heap, n, v, s, owner) == AreaOf(heap, c, x, owner)
              && KidUpdate(v, path, h, key, value) == Update(x, path + [s], |path| + 1, h, key, value)
              && (KidUpdate(v, path, h, key, value).altered <==> KidUpdate(v, path, h, key, value).node != Some(x))
              && (KidUpdate(v, path, h, key, value).node.None? ==> x.Value?)
  {
    hide RefAt, Child, Update, OnPath;
    InnerShape(heap, owner, h, path, key, n, v);
    OnPathChild(h(key), path);
    if Kid(v, s).Some? {
      BelowWf(heap, n, v, h, path, s);
      BelowTree(heap, owner, n, v, s);
      KidAchieves(v, path, h, key, value);
    }
  }

  /** The trie on values around an updated child. */
  lemma UpdateInnerIs<K, V>(v: Node<K, V>, path: seq<nat>, h: K -> Word, key: K, value: Option<V>)
    requires (v.Bitmap? || v.HashArray?) && Wf(v, h, path) && OnPath(h(key), path) && Sized(v)
    ensures var s := Slot(h(key), |path|); var u := Update(v, path, |path|, h, key, value);
            if Kid(v, s).None? && value.None? then u == Updated(Some(v), false, false)
            else
              var k := KidUpdate(v, path, h, key, value);
              if k.node == Kid(v, s) then u == k.(node := Some(v)) else
                (Kid(v, s).None? ==> k.node.Some?) && u == k.(node := Some(HashTrie.Put(v, s, k.node)))
  {
    hide Child, HashTrie.Put, Wf;
    var s := Slot(h(key), |path|);
    ChildWf(v, h, path, s);
    OnPathChild(h(key), path);
  }

  lemma RisesResult<K, V>(before: Heap<K, V>, after: Heap<K, V>, owner: Owner?, adds: bool, key: K,
                                n: TNode<K, V>, v: Node<K, V>, r: TNode<K, V>, rv: Node<K, V>, resized: bool)
    requires Rises(before, after, owner, adds, key, n, v, r, rv) && !IsLeaf(v)
    ensures Result(before, after, owner, adds, key, n, v, Updated(Some(rv), resized, true), Some(r), resized, true)
  {
    hide Stepped, AreaOf, NoClash, Private;
  }

  /** The parent of a child that has become another node, or gone, or come. */
  method PutInner<K, V>(ghost before: Heap<K, V>, ghost w: World<K, V>, owner: Owner?, ghost h: K -> Word, ghost path: seq<nat>, ghost adds: bool, ghost key: K,
                              node: TNode<K, V>, ghost v: Node<K, V>, s: nat, c: Option<TNode<K, V>>,
                              d: Option<TNode<K, V>>, ghost x: Option<Node<K, V>>)
    returns (r: TNode<K, V>, ghost w': World<K, V>)
    requires Midway(before, Snapshot(w), owner, h, path, adds, key, node, v, s, d, x) && (v.Bitmap? || v.HashArray?) && s < 32
    requires node in w.nodes && node in before.nodes && c == RefAt(before.nodes[node], s) && (d.Some? || c.Some?) && (d.Some? <==> x.Some?)
    requires d.None? && v.Bitmap? ==> |v.nodes| > 1
    modifies if Owned(node, owner) then {node} else {}
    ensures w.nodes <= w'.nodes && fresh(w'.nodes - w.nodes) && w'.pairs == w.pairs
    ensures Sized(v) && (Kid(v, s).None? ==> x.Some?)
    ensures Rises(before, Snapshot(w'), owner, adds, key, node, v, r, HashTrie.Put(v, s, x))
  {
    hide Midway, Rises, PutBitmap, PutHashArray, Index, And, Bit, Count, Child, Defined;
    InnerOf(before, Snapshot(w), owner, h, path, adds, key, node, v, s, d, x);
    if node.shape.Packed? {
      ChildBit(v, s);
      if d.None? {
        r, w' := DropChild(before, w, owner, h, path, adds, key, node, v, s);
      } else if c.None? {
        r, w' := AddChild(before, w, owner, h, path, adds, key, node, v, s, d.value, x.value);
      } else {
        r, w' := SetChild(before, w, owner, h, path, adds, key, node, v, s, d.value, x.value);
      }
    } else {
      r, w' := PutSpread(before, w, owner, h, path, adds, key, node, v, s, d, x);
    }
  }

  lemma ChildBit<K, V>(v: Node<K, V>, s: nat)
    requires Sized(v) && v.Bitmap? && s < 32
    ensures Kid(v, s).Some? <==> And(v.bitmap, Bit(s)) != 0
    ensures Kid(v, s) == Child(v.bitmap, v.nodes, s)
  {
    hide And, Bit, Index, Count;
    if And(v.bitmap, Bit(s)) != 0 { IndexBelow(v, s); }
  }

  /** Back at the parent: the same reference came back, or another one that must be put in place. */
  method Finish<K, V>(ghost before: Heap<K, V>, ghost w: World<K, V>, ghost path: seq<nat>, ghost v: Node<K, V>, node: TNode<K, V>,
                            s: nat, c: Option<TNode<K, V>>, owner: Owner?, ghost h: K -> Word, ghost adds: bool, ghost key: K, ghost u: Updated<K, V>,
                            d: Option<TNode<K, V>>, ghost resized: bool, ghost altered: bool)
    returns (r: Option<TNode<K, V>>, ghost w': World<K, V>)
    requires ChildDone(before, Snapshot(w), owner, h, path, adds, key, node, v, s, c, u, d, resized, altered)
    requires Inner(before, owner, h, path, key, node, v) && s < 32 && (v.Bitmap? || v.HashArray?)
    requires node in w.nodes && node in before.nodes && c == RefAt(before.nodes[node], s) && (c.Some? || u.node.Some?)
    modifies if Owned(node, owner) then {node} else {}
    ensures w.nodes <= w'.nodes && fresh(w'.nodes - w.nodes) && w'.pairs == w.pairs
    ensures Sized(v) && (Kid(v, s).None? ==> u.node.Some?)
    ensures Result(before, Snapshot(w'), owner, adds, key, node, v,
                   if u.node == Kid(v, s) then u.(node := Some(v)) else u.(node := Some(HashTrie.Put(v, s, u.node))), r, resized, altered)
  {
    hide Inner, Midway, Rises, Result, RefAt, HashTrie.Put, Child;
    InnerOf(before, Snapshot(w), owner, h, path, adds, key, node, v, s, d, u.node);
    ghost var mid := Snapshot(w);
    if d == c {
      r, w' := Some(node), w;
      if altered {
        InPlace(before, mid, owner, h, path, adds, key, node, v, s, d, u.node);
        RisesResult(before, mid, owner, adds, key, node, v, node, HashTrie.Put(v, s, u.node), resized);
      } else {
        InnerNothing(before, owner, h, path, adds, key, node, v, resized);
      }
    } else {
      if d.None? { NotAlone(before, owner, h, path, key, node, v, s); }
      var t;
      t, w' := PutInner(before, w, owner, h, path, adds, key, node, v, s, c, d, u.node);
      r := Some(t);
      RisesResult(before, Snapshot(w'), owner, adds, key, node, v, t, HashTrie.Put(v, s, u.node), resized);
    }
  }

  /** No leaf is an only child. */
  lemma NotAlone<K, V>(heap: Heap<K, V>, owner: Owner?, h: K -> Word, path: seq<nat>, key: K, n: TNode<K, V>, v: Node<K, V>, s: nat)
    requires Inner(heap, owner, h, path, key, n, v) && s < 32 && Kid(v, s).Some? && Kid(v, s).value.Value?
    ensures v.Bitmap? ==> |v.nodes| > 1
  {
    hide Child;
    if v.Bitmap? { ChildNotAlone(v, h, path, s); }
  }

  method UpdateInner<K(==), V(==)>(ghost w: World<K, V>, ghost path: seq<nat>, ghost v: Node<K, V>, node: TNode<K, V>,
                                        owner: Owner?, level: nat, h: K -> Word, key: K, value: Option<V>)
    returns (r: Option<TNode<K, V>>, resized: bool, altered: bool, ghost w': World<K, V>)
    requires Inner(Snapshot(w), owner, h, path, key, node, v) && level == |path| && node in w.nodes
    requires Wf(v, h, path) && OnPath(h(key), path)
    modifies AreaOf(Snapshot(w), node, v, owner).foot, AreaOf(Snapshot(w), node, v, owner).cells
    ensures w.nodes <= w'.nodes && w.pairs <= w'.pairs && fresh(w'.nodes - w.nodes) && fresh(w'.pairs - w.pairs)
    ensures Result(old(Snapshot(w)), Snapshot(w'), owner, value.Some?, key, node, v, Update(v, path, level, h, key, value), r, resized, altered)
    decreases v, 1
  {
    hide *;
    ghost var before := Snapshot(w);
    var s := Slot(h(key), level);
    InnerShape(before, owner, h, path, key, node, v);
    AlikeInner(before, owner, h, path, key, node, v);
    UpdateInnerIs(v, path, h, key, value);
    var c := ChildRef(w, node, v, s);
    if c.None? && value.None? {
      r, resized, altered, w' := Some(node), false, false, w;
      InnerNothing(before, owner, h, path, false, key, node, v, false);
    } else {
      KidWithin(before, owner, node, v, s);
      SelfFoot(before, owner, node, v);
      var d;
      d, resized, altered, w' := UpdateChild(w, path, v, node, s, c, owner, level, h, key, value);
      StillThere(before, w', owner, h, path, value.Some?, key, node, v, s, d, KidUpdate(v, path, h, key, value), c, resized, altered);
      r, w' := Finish(before, w', path, v, node, s, c, owner, h, value.Some?, key, KidUpdate(v, path, h, key, value), d, resized, altered);
    }
  }

  lemma AlikeInner<K, V>(heap: Heap<K, V>, owner: Owner?, h: K -> Word, path: seq<nat>, key: K, n: TNode<K, V>, v: Node<K, V>)
    requires Inner(heap, owner, h, path, key, n, v)
    ensures n in heap.nodes && Alike(heap.pairs, heap.nodes[n], v) && (v.Bitmap? || v.HashArray?)
    ensures Kid(v, Slot(h(key), |path|)).None? <==> RefAt(heap.nodes[n], Slot(h(key), |path|)).None?
  {
    hide Alike, RefAt, Kid;
  }

  lemma InnerNothing<K, V>(heap: Heap<K, V>, owner: Owner?, h: K -> Word, path: seq<nat>, adds: bool, key: K, n: TNode<K, V>, v: Node<K, V>, resized: bool)
    requires Inner(heap, owner, h, path, key, n, v)
    ensures Result(heap, heap, owner, adds, key, n, v, Updated(Some(v), resized, false), Some(n), resized, false)
  {
    NothingDone(heap, owner, adds, key, n, v, resized);
  }

  /** update of any node below the root. */
  method UpdateNode<K(==), V(==)>(ghost w: World<K, V>, ghost path: seq<nat>, ghost v: Node<K, V>, node: TNode<K, V>,
                                       owner: Owner?, level: nat, h: K -> Word, key: K, value: Option<V>)
    returns (r: Option<TNode<K, V>>, resized: bool, altered: bool, ghost w': World<K, V>)
    requires Reps(Snapshot(w), node, v) && Tree(Snapshot(w), node, v, owner) && Wf(v, h, path)
    requires level == |path| && OnPath(h(key), path)
    modifies AreaOf(Snapshot(w), node, v, owner).foot, AreaOf(Snapshot(w), node, v, owner).cells
    ensures w.nodes <= w'.nodes && w.pairs <= w'.pairs && fresh(w'.nodes - w.nodes) && fresh(w'.pairs - w.pairs)
    ensures Result(old(Snapshot(w)), Snapshot(w'), owner, value.Some?, key, node, v, Update(v, path, level, h, key, value), r, resized, altered)
    decreases v, 2
  {
    hide Reach, PairsOf, Reps, Tree, OnPath, Below, Result, Update, Wf;
    AlikeOf(Snapshot(w), node, v);
    NotListed(v, h, path);
    if node.shape.Leaf? {
      r, resized, altered, w' := UpdateLeaf(w, path, v, node, owner, level, h, key, value);
    } else if node.shape.Clash? {
      r, resized, altered, w' := UpdateClash(w, path, v, node, owner, level, h, key, value);
    } else {
      r, resized, altered, w' := UpdateInner(w, path, v, node, owner, level, h, key, value);
    }
  }

  lemma NotListed<K, V>(v: Node<K, V>, h: K -> Word, path: seq<nat>)
    requires Wf(v, h, path)
    ensures !v.ArrayMap?
  {
  }

  lemma StillThere<K, V>(before: Heap<K, V>, w: World<K, V>, owner: Owner?, h: K -> Word, path: seq<nat>, adds: bool, key: K,
                               n: TNode<K, V>, v: Node<K, V>, s: nat, d: Option<TNode<K, V>>, u: Updated<K, V>, c: Option<TNode<K, V>>,
                               resized: bool, altered: bool)
    requires ChildDone(before, Snapshot(w), owner, h, path, adds, key, n, v, s, c, u, d, resized, altered)
    ensures n in w.nodes && (Kid(v, s).None? ==> u.node.Some?)
  {
    hide Inner, Kid, RefAt;
    InnerOf(before, Snapshot(w), owner, h, path, adds, key, n, v, s, d, u.node);
  }
}
