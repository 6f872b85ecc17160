/** The root of a map on the heap: a short list of entries, and the trie it grows into. */
module MapRoots {
  import opened Bits
  import opened Options
  import opened Owners
  import opened HashTrie
  import opened HashTrieCorrect
  import opened HashMaps
  import opened MapNodes
  import opened MapEdits
  import opened MapLoops
  import opened MapLeaves
  import opened MapUpdate
  import opened MapChildren

  // ----- a trie of new nodes

  /** `r` stands for `v` and is built of new nodes and pairs; the old heap is as it was. */
  ghost predicate Building<K, V>(before: Heap<K, V>, now: Heap<K, V>, owner: Owner?, r: TNode<K, V>, v: Node<K, V>) {
    && (forall m :: m in before.nodes ==> m in now.nodes && now.nodes[m] == before.nodes[m])
    && (forall p :: p in before.pairs ==> p in now.pairs && now.pairs[p] == before.pairs[p])
    && Reps(now, r, v) && Tree(now, r, v, owner)
    && (forall m :: m in Reach(now, r, v) ==> m !in before.nodes)
    && (forall p :: p in PairsOf(now, r, v) ==> p !in before.pairs)
    && Private(now, r, v, owner)
  }

  lemma {:induction false} LeafPair<K, V>(heap: Heap<K, V>, n: TNode<K, V>, v: Node<K, V>, m: TNode<K, V>)
    requires m in Reach(heap, n, v) && m in heap.nodes && heap.nodes[m].Leaf?
    ensures heap.nodes[m].entry in PairsOf(heap, n, v)
    decreases v
  {
    hide Below, RefAt;
    if m != n {
      var s: nat :| s < 32 && Below(heap, n, v, s).Some? && m in Reach(heap, Below(heap, n, v, s).value.0, Below(heap, n, v, s).value.1);
      LeafPair(heap, Below(heap, n, v, s).value.0, Below(heap, n, v, s).value.1, m);
      BelowReach(heap, n, v, s);
    }
  }

  lemma CellPairs<K, V>(heap: Heap<K, V>, n: TNode<K, V>, v: Node<K, V>, owner: Owner?)
    ensures AreaOf(heap, n, v, owner).foot <= Reach(heap, n, v) && AreaOf(heap, n, v, owner).cells <= PairsOf(heap, n, v)
  {
    hide Reach, PairsOf;
    forall p | p in AreaOf(heap, n, v, owner).cells ensures p in PairsOf(heap, n, v) {
      var m :| m in Foot(heap, n, v, owner) && m in heap.nodes && heap.nodes[m].Leaf? && heap.nodes[m].entry == p;
      LeafPair(heap, n, v, m);
    }
  }

  lemma BuildingStep<K, V>(before: Heap<K, V>, now: Heap<K, V>, next: Heap<K, V>, owner: Owner?, key: K,
                           r: TNode<K, V>, v: Node<K, V>, u: Updated<K, V>, d: Option<TNode<K, V>>, resized: bool, altered: bool)
    requires Building(before, now, owner, r, v) && Result(now, next, owner, true, key, r, v, u, d, resized, altered) && u.node.Some?
    ensures d.Some? && Building(before, next, owner, d.value, u.node.value)
  {
    CellPairs(now, r, v, owner);
    hide Reach, PairsOf, Reps, Tree, Private, Foot, Cells;
  }

  /** The first leaf of the trie. */
  method StartBuilding<K, V>(ghost w: World<K, V>, owner: Owner?, h: K -> Word, key: K, x: V)
    returns (r: TNode<K, V>, ghost w': World<K, V>)
    ensures w.nodes <= w'.nodes && w.pairs <= w'.pairs && fresh(w'.nodes - w.nodes) && fresh(w'.pairs - w.pairs)
    ensures Building(Snapshot(w), Snapshot(w'), owner, r, Value(h(key), (key, x)))
  {
    hide Building;
    ghost var before := Snapshot(w);
    var p;
    p, w' := MakePair(w, owner, key, x);
    r, w' := Make(w', owner, Leaf(h(key), p));
    BuildingLeaf(before, Snapshot(w'), owner, h, key, x, r, p);
  }

  lemma BuildingLeaf<K, V>(before: Heap<K, V>, now: Heap<K, V>, owner: Owner?, h: K -> Word, key: K, x: V, r: TNode<K, V>, p: Pair<K, V>)
    requires Made(before, now, owner, r, p, x) && now.nodes[r] == Leaf(h(key), p) && p.key == key
    ensures Building(before, now, owner, r, Value(h(key), (key, x)))
  {
    var v := Value(h(key), (key, x));
    FlatReach(now, r, v, owner);
    FlatPrivate(now, r, v, owner);
    hide Reach, PairsOf, Reps, Tree, Private;
  }

  /** Nobody owns what nobody may edit. */
  lemma NoOwner<K, V>(before: Heap<K, V>, now: Heap<K, V>, builder: Owner?, r: TNode<K, V>, v: Node<K, V>)
    requires Building(before, now, builder, r, v)
    ensures Building(before, now, null, r, v)
  {
    hide Reach, PairsOf, Reps;
  }

  /** createNodes: the new entry first, then every entry of the list; without an owner, under one of its own. */
  method CreateNodes<K(==), V(==)>(ghost w: World<K, V>, ps: seq<Pair<K, V>>, ghost es: seq<Entry<K, V>>, owner: Owner?,
                                        h: K -> Word, key: K, x: V)
    returns (r: TNode<K, V>, ghost v: Node<K, V>, ghost w': World<K, V>)
    requires HoldsAll(Snapshot(w).pairs, ps, es)
    ensures w.nodes <= w'.nodes && w.pairs <= w'.pairs && fresh(w'.nodes - w.nodes) && fresh(w'.pairs - w.pairs)
    ensures Wf(Value(h(key), (key, x)), h, []) && v == AddAll(Value(h(key), (key, x)), h, es)
    ensures Building(Snapshot(w), Snapshot(w'), owner, r, v)
  {
    hide *;
    var t := owner;
    if t == null { t := new Owner(); }
    ghost var before := Snapshot(w);
    SameLength(before.pairs, ps, es);
    r, w' := StartBuilding(w, t, h, key, x);
    OneWf(h, key, x);
    r, v, w' := AddEntries(before, w', Value(h(key), (key, x)), r, t, h, ps, es);
    if owner == null { NoOwner(before, Snapshot(w'), t, r, v); }
  }

  /** Every entry of the list moves into the trie. */
  method AddEntries<K(==), V(==)>(ghost before: Heap<K, V>, ghost w: World<K, V>, ghost v0: Node<K, V>, r0: TNode<K, V>, owner: Owner?,
                                       h: K -> Word, ps: seq<Pair<K, V>>, ghost es: seq<Entry<K, V>>)
    returns (r: TNode<K, V>, ghost v: Node<K, V>, ghost w': World<K, V>)
    requires Wf(v0, h, []) && Building(before, Snapshot(w), owner, r0, v0)
    requires |ps| == |es| && forall i :: 0 <= i < |ps| ==> ps[i] in before.pairs && (ps[i].key, before.pairs[ps[i]]) == es[i]
    modifies w.nodes - before.nodes.Keys, w.pairs - before.pairs.Keys
    ensures w.nodes <= w'.nodes && w.pairs <= w'.pairs && fresh(w'.nodes - w.nodes) && fresh(w'.pairs - w.pairs)
    ensures v == AddAll(v0, h, es) && Building(before, Snapshot(w'), owner, r, v)
  {
    hide *;
    r, v, w' := r0, v0, w;
    var i := 0;
    while i < |ps|
      invariant i <= |ps|
      invariant w.nodes <= w'.nodes && w.pairs <= w'.pairs && fresh(w'.nodes - w.nodes) && fresh(w'.pairs - w.pairs)
      invariant Wf(v, h, []) && AddAll(v, h, es[i..]) == AddAll(v0, h, es) && Building(before, Snapshot(w'), owner, r, v)
    {
      r, v, w' := AddEntry(before, w', v, r, owner, h, ps[i], es[i..]);
      assert es[i..][1..] == es[i + 1..];
      i := i + 1;
    }
    NothingLeft(v, h, es[i..]);
  }

  lemma OneWf<K, V>(h: K -> Word, key: K, x: V)
    ensures Wf(Value(h(key), (key, x)), h, [])
  {
  }

  lemma NothingLeft<K, V>(v: Node<K, V>, h: K -> Word, es: seq<Entry<K, V>>)
    requires es == [] && Wf(v, h, [])
    ensures AddAll(v, h, es) == v
  {
  }

  /** One entry moves from the list into the trie. */
  method AddEntry<K(==), V(==)>(ghost before: Heap<K, V>, ghost w: World<K, V>, ghost v: Node<K, V>, r: TNode<K, V>, owner: Owner?,
                                     h: K -> Word, p: Pair<K, V>, ghost es: seq<Entry<K, V>>)
    returns (r': TNode<K, V>, ghost v': Node<K, V>, ghost w': World<K, V>)
    requires es != [] && p in before.pairs && (p.key, before.pairs[p]) == es[0]
    requires Wf(v, h, []) && Building(before, Snapshot(w), owner, r, v)
    modifies w.nodes - before.nodes.Keys, w.pairs - before.pairs.Keys
    ensures w.nodes <= w'.nodes && w.pairs <= w'.pairs && fresh(w'.nodes - w.nodes) && fresh(w'.pairs - w.pairs)
    ensures Wf(v', h, []) && AddAll(v', h, es[1..]) == AddAll(v, h, es)
    ensures Building(before, Snapshot(w'), owner, r', v')
  {
    hide *;
    ghost var now := Snapshot(w);
    BuildingTree(before, now, owner, r, v);
    InPath(h(p.key));
    AddedOne(v, h, es);
    var d, resized, altered;
    d, resized, altered, w' := UpdateNode(w, [], v, r, owner, 0, h, p.key, Some(p.value));
    v' := Update(v, [], 0, h, es[0].0, Some(es[0].1)).node.value;
    BuildingStep(before, now, Snapshot(w'), owner, es[0].0, r, v, Update(v, [], 0, h, es[0].0, Some(es[0].1)), d, resized, altered);
    r' := d.value;
  }

  lemma InPath(hash: Word)
    ensures OnPath(hash, [])
  {
  }

  lemma AddedOne<K, V>(v: Node<K, V>, h: K -> Word, es: seq<Entry<K, V>>)
    requires Wf(v, h, []) && es != []
    ensures OnPath(h(es[0].0), [])
    ensures var u := Update(v, [], 0, h, es[0].0, Some(es[0].1));
            && u.node.Some? && Wf(u.node.value, h, []) && AddAll(u.node.value, h, es[1..]) == AddAll(v, h, es)
  {
    hide Update, Wf;
    AddOne(v, h, es[0], es[0].0);
  }

  lemma BuildingTree<K, V>(before: Heap<K, V>, now: Heap<K, V>, owner: Owner?, r: TNode<K, V>, v: Node<K, V>)
    requires Building(before, now, owner, r, v)
    ensures Reps(now, r, v) && Tree(now, r, v, owner)
    ensures forall p :: p in before.pairs ==> p in now.pairs && now.pairs[p] == before.pairs[p]
    ensures AreaOf(now, r, v, owner).foot <= now.nodes.Keys - before.nodes.Keys
    ensures AreaOf(now, r, v, owner).cells <= now.pairs.Keys - before.pairs.Keys
  {
    CellPairs(now, r, v, owner);
    Within(now, r, v);
    hide Reach, PairsOf, Reps, Tree, Private, AreaOf;
  }

  lemma BuiltResult<K, V>(before: Heap<K, V>, after: Heap<K, V>, owner: Owner?, key: K, n: TNode<K, V>, v: Node<K, V>,
                                r: TNode<K, V>, w: Node<K, V>)
    requires Building(before, after, owner, r, w) && n in before.nodes && v.ArrayMap?
    ensures Result(before, after, owner, true, key, n, v, Updated(Some(w), true, true), Some(r), true, true)
  {
    hide PairsOf, Reps, Tree, Private, AreaOf, Reach, NoClash;
    SelfReach(after, r, w);
    BuiltStepped(before, after, owner, key, r, w, AreaOf(before, n, v, owner));
    hide Stepped;
  }

  lemma SelfReach<K, V>(heap: Heap<K, V>, n: TNode<K, V>, v: Node<K, V>)
    ensures n in Reach(heap, n, v)
  {
  }

  lemma BuiltStepped<K, V>(before: Heap<K, V>, after: Heap<K, V>, owner: Owner?, key: K, r: TNode<K, V>, w: Node<K, V>, area: Area<K, V>)
    requires Building(before, after, owner, r, w)
    ensures Stepped(before, after, owner, key, area, Some(r), Some(w))
  {
    hide PairsOf, Reps, Tree, Private, Reach;
  }

  // ----- the root

  lemma ListRoot<K, V>(heap: Heap<K, V>, n: TNode<K, V>, v: Node<K, V>, h: K -> Word)
    requires Reps(heap, n, v) && WfRoot(v, h)
    ensures n in heap.nodes && (heap.nodes[n].Listed? <==> v.ArrayMap?)
    ensures v.ArrayMap? ==> HoldsAll(heap.pairs, heap.nodes[n].entries, v.entries) && 1 <= |v.entries| <= MAX_ARRAY_MAP
    ensures !v.ArrayMap? ==> Wf(v, h, [])
  {
  }

  /** update of the root. */
  method UpdateRootNode<K(==), V(==)>(ghost w: World<K, V>, ghost v: Node<K, V>, node: TNode<K, V>, owner: Owner?,
                                           h: K -> Word, key: K, value: Option<V>)
    returns (r: Option<TNode<K, V>>, resized: bool, altered: bool, ghost w': World<K, V>)
    requires Reps(Snapshot(w), node, v) && Tree(Snapshot(w), node, v, owner) && WfRoot(v, h)
    modifies AreaOf(Snapshot(w), node, v, owner).foot, AreaOf(Snapshot(w), node, v, owner).cells
    ensures w.nodes <= w'.nodes && w.pairs <= w'.pairs && fresh(w'.nodes - w.nodes) && fresh(w'.pairs - w.pairs)
    ensures Result(old(Snapshot(w)), Snapshot(w'), owner, value.Some?, key, node, v, UpdateRoot(v, h, key, value), r, resized, altered)
  {
    hide Reach, PairsOf, Reps, Tree, Below, Result, WfRoot, HoldsAll, AreaOf, OnPath, Wf, Update;
    ListRoot(Snapshot(w), node, v, h);
    if node.shape.Listed? {
      SelfFoot(Snapshot(w), owner, node, v);
      r, resized, altered, w' := UpdateListed(w, v, node, owner, h, key, value);
    } else {
      InPath(h(key));
      r, resized, altered, w' := UpdateNode(w, [], v, node, owner, 0, h, key, value);
      UpdateRootIs(v, h, key, value);
    }
  }

  lemma UpdateRootIs<K, V>(v: Node<K, V>, h: K -> Word, key: K, value: Option<V>)
    requires WfRoot(v, h) && !v.ArrayMap?
    ensures OnPath(h(key), []) && UpdateRoot(v, h, key, value) == Update(v, [], 0, h, key, value)
  {
    hide Update, Wf;
  }

  method UpdateListed<K(==), V(==)>(ghost w: World<K, V>, ghost v: Node<K, V>, node: TNode<K, V>, owner: Owner?,
                                         h: K -> Word, key: K, value: Option<V>)
    returns (r: Option<TNode<K, V>>, resized: bool, altered: bool, ghost w': World<K, V>)
    requires Reps(Snapshot(w), node, v) && Tree(Snapshot(w), node, v, owner) && WfRoot(v, h) && v.ArrayMap?
    modifies if Owned(node, owner) then {node} else {}
    ensures w.nodes <= w'.nodes && w.pairs <= w'.pairs && fresh(w'.nodes - w.nodes) && fresh(w'.pairs - w.pairs)
    ensures Result(old(Snapshot(w)), Snapshot(w'), owner, value.Some?, key, node, v, UpdateRoot(v, h, key, value), r, resized, altered)
  {
    hide Reach, PairsOf, Reps, Tree, Below, Result, HoldsAll, EditEntries, AddAll, Wf;
    ghost var before := Snapshot(w);
    ListRoot(before, node, v, h);
    var ps := node.shape.entries;
    SameLength(before.pairs, ps, v.entries);
    var i := FindPair(ps, key, v.entries);
    var present := i < |ps|;
    resized, altered, w' := value.None? || !present, true, w;
    if if present then value == Some(ps[i].value) else value.None? {
      r, resized, altered := Some(node), false, false;
      NothingDone(before, owner, value.Some?, key, node, v, false);
    } else if value.None? && |ps| == 1 {
      r := None;
      Gone(before, owner, false, key, node, v);
    } else if !present && |ps| >= MAX_ARRAY_MAP {
      r, w' := GrowTrie(w, v, node, owner, h, key, value.value);
    } else {
      r, w' := RelistRoot(w, v, node, owner, i, key, value, resized);
    }
  }

  method GrowTrie<K(==), V(==)>(ghost w: World<K, V>, ghost v: Node<K, V>, node: TNode<K, V>, owner: Owner?, h: K -> Word, key: K, x: V)
    returns (r: Option<TNode<K, V>>, ghost w': World<K, V>)
    requires node in w.nodes && v.ArrayMap? && node.shape.Listed? && HoldsAll(Snapshot(w).pairs, node.shape.entries, v.entries)
    ensures w.nodes <= w'.nodes && w.pairs <= w'.pairs && fresh(w'.nodes - w.nodes) && fresh(w'.pairs - w.pairs)
    ensures Wf(Value(h(key), (key, x)), h, [])
    ensures Result(Snapshot(w), Snapshot(w'), owner, true, key, node, v,
                   Updated(Some(AddAll(Value(h(key), (key, x)), h, v.entries)), true, true), r, true, true)
  {
    hide *;
    ghost var before := Snapshot(w);
    ghost var built;
    var t;
    t, built, w' := CreateNodes(w, node.shape.entries, v.entries, owner, h, key, x);
    r := Some(t);
    BuiltResult(before, Snapshot(w'), owner, key, node, v, t, built);
  }

  method RelistRoot<K, V>(ghost w: World<K, V>, ghost v: Node<K, V>, node: TNode<K, V>, owner: Owner?, i: nat, key: K, value: Option<V>, ghost resized: bool)
    returns (r: Option<TNode<K, V>>, ghost w': World<K, V>)
    requires Reps(Snapshot(w), node, v) && v.ArrayMap? && node in w.nodes && node.shape.Listed?
    requires HoldsAll(Snapshot(w).pairs, node.shape.entries, v.entries) && i <= |v.entries| && (value.None? ==> i < |v.entries|)
    modifies if Owned(node, owner) then {node} else {}
    ensures w.nodes <= w'.nodes && w.pairs <= w'.pairs && fresh(w'.nodes - w.nodes) && fresh(w'.pairs - w.pairs)
    ensures Result(old(Snapshot(w)), Snapshot(w'), owner, value.Some?, key, node, v,
                   Updated(Some(ArrayMap(EditEntries(v.entries, i, key, value))), resized, true), r, resized, true)
  {
    hide Reach, PairsOf, Reps, Tree, Below, Result, HoldsAll, EditEntries;
    ghost var before := Snapshot(w);
    SameLength(before.pairs, node.shape.entries, v.entries);
    var qs, u;
    qs, w' := EditList(w, node.shape.entries, v.entries, i, owner, key, value);
    ghost var mid := Snapshot(w');
    u, w' := Place(w', node, owner, Listed(qs));
    r := Some(u);
    ListDone(before, mid, Snapshot(w'), owner, value.Some?, key, node, v, u, ArrayMap(EditEntries(v.entries, i, key, value)), resized);
  }
}
