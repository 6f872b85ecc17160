/** Updating a map on the heap: each step edits what its owner may edit, copies the rest, and stands for the update of the
    trie on values. */
module MapUpdate {
  import opened Bits
  import opened Options
  import opened Owners
  import opened HashTrie
  import opened HashTrieSlots
  import opened HashTrieCorrect
  import opened MapNodes
  import opened MapEdits
  import opened MapLoops
  import opened MapLeaves

  /** Which pairs the result shares: a leaf that a collision node shrank to has one of the node's pairs; an owned leaf is
      overwritten through its pair. */
  ghost predicate Shares<K, V>(before: Heap<K, V>, after: Heap<K, V>, owner: Owner?, n: TNode<K, V>, v: Node<K, V>, u: Updated<K, V>,
                               r: Option<TNode<K, V>>)
  {
    u.altered && u.node.Some? && u.node.value.Value? && n in before.nodes && r.Some? && r.value in after.nodes ==>
      && (v.Collision? ==>
            && r.value.ownerID == owner && r.value !in before.nodes && after.nodes[r.value].Leaf? && before.nodes[n].Clash?
            && after.nodes[r.value].entry in before.nodes[n].entries && after.pairs == before.pairs)
      && (v.Value? && u.node.value.entry.0 == v.entry.0 && Owned(n, owner) ==>
            before.nodes[n].Leaf? && after == Heap(before.nodes, before.pairs[before.nodes[n].entry := u.node.value.entry.1]))
  }

  /** What updating node `n`, which stands for `v`, must do when the update of the value is `u`; `adds` says that it sets a
      key, and does not remove one. */
  ghost predicate Result<K, V>(before: Heap<K, V>, after: Heap<K, V>, owner: Owner?, adds: bool, key: K,
                               n: TNode<K, V>, v: Node<K, V>, u: Updated<K, V>,
                               r: Option<TNode<K, V>>, resized: bool, altered: bool)
  {
    && resized == u.resized && altered == u.altered
    && Stepped(before, after, owner, key, AreaOf(before, n, v, owner), r, u.node)
    && (!altered ==> r == Some(n) && after == before)
    && (altered && r == Some(n) ==> Owned(n, owner) && u.node.Some? && (IsLeaf(u.node.value) <==> IsLeaf(v)))
    && ((adds || NoClash(v)) && Private(before, n, v, owner) && r.Some? && u.node.Some? ==> Private(after, r.value, u.node.value, owner))
    && Shares(before, after, owner, n, v, u, r)
  }

  lemma NothingDone<K, V>(heap: Heap<K, V>, owner: Owner?, adds: bool, key: K, n: TNode<K, V>, v: Node<K, V>, resized: bool)
    requires Reps(heap, n, v) && Tree(heap, n, v, owner)
    ensures Result(heap, heap, owner, adds, key, n, v, Updated(Some(v), resized, false), Some(n), resized, false)
  {
    hide Reach, PairsOf, Reps, Tree, Private;
  }

  lemma Gone<K, V>(heap: Heap<K, V>, owner: Owner?, adds: bool, key: K, n: TNode<K, V>, v: Node<K, V>)
    ensures Result(heap, heap, owner, adds, key, n, v, Updated(None, true, true), None, true, true)
  {
    hide Reach, PairsOf, Reps, Tree, Private;
  }

  // ----- leaves

  /** The pair of an owned leaf was overwritten. */
  lemma LeafEdited<K, V>(before: Heap<K, V>, owner: Owner?, adds: bool, key: K, n: TNode<K, V>, v: Node<K, V>, x: V)
    requires Reps(before, n, v) && v.Value? && v.entry.0 == key && Owned(n, owner)
    ensures n in before.nodes && before.nodes[n].Leaf? && before.nodes[n].entry in before.pairs
    ensures Result(before, Heap(before.nodes, before.pairs[before.nodes[n].entry := x]), owner, adds, key, n, v,
                   Updated(Some(Value(v.keyHash, (key, x))), false, true), Some(n), false, true)
  {
    LeafHolds(before, n, v);
    var p := before.nodes[n].entry;
    var after, r := Heap(before.nodes, before.pairs[p := x]), Value(v.keyHash, (key, x));
    FlatReach(before, n, v, owner);
    FlatReach(after, n, r, owner);
    assert before.nodes == before.nodes[n := before.nodes[n]];
    assert n in Foot(before, n, v, owner);
    hide Reach, PairsOf, Reps, Tree, Below, Stepped;
    FlatStepped(before, after, owner, key, AreaOf(before, n, v, owner), n, r);
  }

  /** A leaf that is not owned was replaced by a new one. */
  lemma LeafReplaced<K, V>(before: Heap<K, V>, after: Heap<K, V>, owner: Owner?, adds: bool, key: K, n: TNode<K, V>, v: Node<K, V>,
                           u: TNode<K, V>, keyHash: Word, p: Pair<K, V>, x: V, resized: bool)
    requires Made(before, after, owner, u, p, x) && after.nodes[u] == Leaf(keyHash, p) && p.key == key && n in before.nodes
    requires v.Value? && !Owned(n, owner)
    ensures Result(before, after, owner, adds, key, n, v, Updated(Some(Value(keyHash, (key, x))), resized, true), Some(u), resized, true)
  {
    var r := Value(keyHash, (key, x));
    FlatPrivate(after, u, r, owner);
    hide Reach, PairsOf, Reps, Tree, Below, Stepped, AreaOf, Private;
    FlatStepped(before, after, owner, key, AreaOf(before, n, v, owner), u, r);
  }

  /** A new pair and a new node. */
  ghost predicate Made<K, V>(before: Heap<K, V>, after: Heap<K, V>, owner: Owner?, u: TNode<K, V>, p: Pair<K, V>, x: V) {
    && u !in before.nodes && u in after.nodes && p !in before.pairs && p.maker == owner
    && after == Heap(before.nodes[u := after.nodes[u]], before.pairs[p := x])
  }

  /** A leaf and a new pair were merged. */
  lemma LeafMerged<K, V>(before: Heap<K, V>, mid: Heap<K, V>, after: Heap<K, V>, owner: Owner?, adds: bool, key: K,
                         n: TNode<K, V>, v: Node<K, V>, p: Pair<K, V>, x: V, r: TNode<K, V>, w: Node<K, V>)
    requires Reps(before, n, v) && IsLeaf(v) && p !in before.pairs && p.maker == owner && mid == Heap(before.nodes, before.pairs[p := x])
    requires Merged(mid, after, owner, n, p, PairsOf(mid, n, v), r, w) && w != v && r != n && !w.Value?
    ensures Result(before, after, owner, adds, key, n, v, Updated(Some(w), true, true), Some(r), true, true)
  {
    FlatReach(before, n, v, owner);
    FlatReach(mid, n, v, owner);
    hide Reps, Tree, Below;
    assert Touched(before, after, owner, key, AreaOf(before, n, v, owner)) by { hide Reach, PairsOf; }
    assert Yields(before, after, owner, AreaOf(before, n, v, owner), Some(r), Some(w)) by { hide Touched; }
    hide Reach, PairsOf, Stepped;
  }

  method UpdateLeaf<K(==), V(==)>(ghost w: World<K, V>, ghost path: seq<nat>, ghost v: Node<K, V>, node: TNode<K, V>,
                                       owner: Owner?, level: nat, h: K -> Word, key: K, value: Option<V>)
    returns (r: Option<TNode<K, V>>, resized: bool, altered: bool, ghost w': World<K, V>)
    requires Reps(Snapshot(w), node, v) && Tree(Snapshot(w), node, v, owner) && v.Value? && Wf(v, h, path)
    requires level == |path| && OnPath(h(key), path)
    modifies Cells(Snapshot(w), Foot(Snapshot(w), node, v, owner))
    ensures w.nodes <= w'.nodes && w.pairs <= w'.pairs && fresh(w'.nodes - w.nodes) && fresh(w'.pairs - w.pairs)
    ensures Result(old(Snapshot(w)), Snapshot(w'), owner, value.Some?, key, node, v, Update(v, path, level, h, key, value), r, resized, altered)
  {
    hide Reach, PairsOf, Reps, Tree, OnPath, Below, Result, Merged;
    ghost var before := Snapshot(w);
    LeafHolds(before, node, v);
    var p := node.shape.entry;
    var same := key == p.key;
    w' := w;
    if if same then value == Some(p.value) else value.None? {
      r, resized, altered := Some(node), false, false;
      NothingDone(before, owner, value.Some?, key, node, v, false);
    } else if value.None? {
      r, resized, altered := None, true, true;
      Gone(before, owner, false, key, node, v);
    } else if same {
      resized, altered := false, true;
      r, w' := Rebind(w, v, node, owner, key, value.value);
    } else {
      resized, altered := true, true;
      r, w' := Extend(w, path, v, node, owner, level, h, key, value.value);
    }
  }

  method Rebind<K, V>(ghost w: World<K, V>, ghost v: Node<K, V>, node: TNode<K, V>, owner: Owner?, key: K, x: V)
    returns (r: Option<TNode<K, V>>, ghost w': World<K, V>)
    requires Reps(Snapshot(w), node, v) && v.Value? && v.entry.0 == key
    modifies Cells(Snapshot(w), Foot(Snapshot(w), node, v, owner))
    ensures w.nodes <= w'.nodes && w.pairs <= w'.pairs && fresh(w'.nodes - w.nodes) && fresh(w'.pairs - w.pairs)
    ensures Result(old(Snapshot(w)), Snapshot(w'), owner, true, key, node, v,
                   Updated(Some(Value(v.keyHash, (key, x))), false, true), r, false, true)
  {
    ghost var before := Snapshot(w);
    LeafHolds(before, node, v);
    FlatReach(before, node, v, owner);
    hide Reach, PairsOf, Reps, Tree, Below, Result;
    if owner != null && owner == node.ownerID {
      LeafEdited(before, owner, true, key, node, v, x);
      assert node in Foot(before, node, v, owner);
      SetPair(w, node.shape.entry, x);
      r, w' := Some(node), w;
    } else {
      r, w' := Replace(w, v, node, owner, key, x);
    }
  }

  method SetPair<K, V>(ghost w: World<K, V>, p: Pair<K, V>, x: V)
    requires p in w.pairs
    modifies p
    ensures Snapshot(w) == Heap(old(Snapshot(w)).nodes, old(Snapshot(w)).pairs[p := x])
  {
    ghost var before := Snapshot(w);
    p.value := x;
    assert Snapshot(w).pairs == before.pairs[p := x] && Snapshot(w).nodes == before.nodes;
  }

  method Replace<K, V>(ghost w: World<K, V>, ghost v: Node<K, V>, node: TNode<K, V>, owner: Owner?, key: K, x: V)
    returns (r: Option<TNode<K, V>>, ghost w': World<K, V>)
    requires node in w.nodes && v.Value? && node.shape.Leaf? && node.shape.keyHash == v.keyHash && !Owned(node, owner)
    ensures w.nodes <= w'.nodes && w.pairs <= w'.pairs && fresh(w'.nodes - w.nodes) && fresh(w'.pairs - w.pairs)
    ensures Result(Snapshot(w), Snapshot(w'), owner, true, key, node, v, Updated(Some(Value(v.keyHash, (key, x))), false, true), r, false, true)
  {
    hide Result;
    ghost var before := Snapshot(w);
    var p, u;
    p, w' := MakePair(w, owner, key, x);
    u, w' := Make(w', owner, Leaf(node.shape.keyHash, p));
    r := Some(u);
    LeafReplaced(before, Snapshot(w'), owner, true, key, node, v, u, v.keyHash, p, x, false);
  }

  /** A new pair is merged with a leaf of another key. */
  method Extend<K, V>(ghost w: World<K, V>, ghost path: seq<nat>, ghost v: Node<K, V>, node: TNode<K, V>, owner: Owner?,
                            level: nat, h: K -> Word, key: K, x: V)
    returns (r: Option<TNode<K, V>>, ghost w': World<K, V>)
    requires Reps(Snapshot(w), node, v) && IsLeaf(v) && Wf(v, h, path) && level == |path| && OnPath(h(key), path)
    requires v.keyHash == h(key) ==> v.Value?
    ensures w.nodes <= w'.nodes && w.pairs <= w'.pairs && fresh(w'.nodes - w.nodes) && fresh(w'.pairs - w.pairs)
    ensures OnPath(v.keyHash, path)
    ensures Result(Snapshot(w), Snapshot(w'), owner, true, key, node, v,
                   Updated(Some(HashTrie.Merge(v, path, level, h(key), (key, x))), true, true), r, true, true)
  {
    hide Reach, PairsOf, Reps, Tree, OnPath, Below, Result, Merged, HashTrie.Merge;
    ghost var before := Snapshot(w);
    var p, u;
    p, w' := MakePair(w, owner, key, x);
    ghost var mid := Snapshot(w');
    LeafKept(before, mid, owner, node, v);
    u, w' := MapLeaves.Merge(w', path, v, node, owner, level, h(key), p);
    r := Some(u);
    MergeInner(v, path, level, h(key), (key, x));
    MergedNew(mid, Snapshot(w'), owner, node, v, p, PairsOf(mid, node, v), u, HashTrie.Merge(v, path, level, h(key), (key, x)));
    LeafMerged(before, mid, Snapshot(w'), owner, true, key, node, v, p, x, u, HashTrie.Merge(v, path, level, h(key), (key, x)));
  }

  lemma LeafKept<K, V>(before: Heap<K, V>, mid: Heap<K, V>, owner: Owner?, n: TNode<K, V>, v: Node<K, V>)
    requires Reps(before, n, v) && IsLeaf(v) && mid.nodes == before.nodes
    requires forall p :: p in before.pairs ==> p in mid.pairs && mid.pairs[p] == before.pairs[p]
    ensures Reps(mid, n, v)
  {
    forall m | m in Reach(before, n, v) ensures m in before.nodes { ReachedNodes(before, n, v, m); }
    forall p | p in PairsOf(before, n, v) ensures p in before.pairs { ReachedPairs(before, n, v, p); }
    hide Reach, PairsOf, Reps, Tree;
    Frame(before, mid, n, v, owner);
  }

  lemma MergeInner<K, V>(v: Node<K, V>, path: seq<nat>, level: nat, keyHash: Word, entry: Entry<K, V>)
    requires level == |path| && IsLeaf(v) && OnPath(keyHash, path) && OnPath(v.keyHash, path)
    requires v.keyHash == keyHash ==> v.Value?
    ensures HashTrie.Merge(v, path, level, keyHash, entry) != v
    ensures HashTrie.Merge(v, path, level, keyHash, entry).Bitmap? || (v.Value? && HashTrie.Merge(v, path, level, keyHash, entry).Collision?)
  {
    hide OnPath, Slot, Or, Bit;
  }

  /** The merged node is not the leaf itself. */
  lemma MergedNew<K, V>(before: Heap<K, V>, after: Heap<K, V>, owner: Owner?, n: TNode<K, V>, v: Node<K, V>, p: Pair<K, V>,
                        pairs: set<Pair<K, V>>, r: TNode<K, V>, w: Node<K, V>)
    requires Reps(before, n, v) && IsLeaf(v) && Merged(before, after, owner, n, p, pairs, r, w)
    requires w.Bitmap? || (v.Value? && w.Collision?)
    ensures r != n
  {
    AlikeOf(before, n, v);
    AlikeOf(after, r, w);
    hide Reach, PairsOf, Reps, Tree;
  }

  // ----- lists of entries

  /** The edited list of pairs holds the edited list of entries. */
  lemma ListHolds<K, V>(before: map<Pair<K, V>, V>, after: map<Pair<K, V>, V>, ps: seq<Pair<K, V>>, es: seq<Entry<K, V>>, i: nat,
                        key: K, value: Option<V>, p: Option<Pair<K, V>>, qs: seq<Pair<K, V>>)
    requires HoldsAll(before, ps, es) && i <= |es| && (value.None? ==> i < |es|) && (p.Some? <==> value.Some?)
    requires forall q :: q in before ==> q in after && after[q] == before[q]
    requires p.Some? ==> Holds(after, p.value, (key, value.value))
    requires match p
             case Some(x) => qs == if i < |ps| then ps[i := x] else ps + [x]
             case None => |qs| == |ps| - 1 && (forall j :: 0 <= j < |qs| && j != i ==> qs[j] == ps[j]) && (i < |qs| ==> qs[i] == ps[|qs|])
    ensures HoldsAll(after, qs, EditEntries(es, i, key, value))
    ensures forall q :: q in qs ==> q in ps || p == Some(q)
  {
    var rs := EditEntries(es, i, key, value);
    forall j | 0 <= j < |qs| ensures Holds(after, qs[j], rs[j]) && (qs[j] in ps || p == Some(qs[j])) {
      if j < |ps| { assert Holds(before, ps[j], es[j]); }
      if p.None? { assert Holds(before, ps[|qs|], es[|qs|]); }
    }
  }

  /** The list after one entry was overwritten, appended or removed; a bound value comes in a new pair. */
  method EditList<K, V>(ghost w: World<K, V>, ps: seq<Pair<K, V>>, ghost es: seq<Entry<K, V>>, i: nat, owner: Owner?, key: K, value: Option<V>)
    returns (qs: seq<Pair<K, V>>, ghost w': World<K, V>)
    requires HoldsAll(Snapshot(w).pairs, ps, es) && i <= |ps| && (value.None? ==> i < |ps|)
    ensures w'.nodes == w.nodes && w.pairs <= w'.pairs && fresh(w'.pairs - w.pairs)
    ensures HoldsAll(Snapshot(w').pairs, qs, EditEntries(es, i, key, value))
    ensures forall p :: p in qs ==> p in ps || p !in w.pairs
  {
    hide HoldsAll, EditEntries;
    ghost var before := Snapshot(w).pairs;
    assert |ps| == |es| by { SameLength(before, ps, es); }
    if value.Some? {
      var p;
      p, w' := MakePair(w, owner, key, value.value);
      qs := EditPairs(ps, i, Some(p));
      ListHolds(before, Snapshot(w').pairs, ps, es, i, key, value, Some(p), qs);
    } else {
      w' := w;
      qs := EditPairs(ps, i, None);
      ListHolds(before, Snapshot(w').pairs, ps, es, i, key, value, None, qs);
    }
  }

  lemma SameLength<K, V>(pairs: map<Pair<K, V>, V>, ps: seq<Pair<K, V>>, es: seq<Entry<K, V>>)
    requires HoldsAll(pairs, ps, es)
    ensures |ps| == |es|
    ensures forall j :: 0 <= j < |ps| ==> ps[j] in pairs && (ps[j].key, pairs[ps[j]]) == es[j]
  {
    forall j | 0 <= j < |ps| ensures ps[j] in pairs && (ps[j].key, pairs[ps[j]]) == es[j] {
      assert Holds(pairs, ps[j], es[j]);
    }
  }

  /** Gives the node a new shape, in place when the owner made it. */
  method Place<K, V>(ghost w: World<K, V>, node: TNode<K, V>, owner: Owner?, shape: Shape<K, V>) returns (u: TNode<K, V>, ghost w': World<K, V>)
    requires node in w.nodes
    modifies if Owned(node, owner) then {node} else {}
    ensures w.nodes <= w'.nodes && fresh(w'.nodes - w.nodes) && w'.pairs == w.pairs
    ensures if Owned(node, owner) then u == node && w' == w else fresh(u) && u !in w.nodes && u.ownerID == owner && w' == World(w.nodes + {u}, w.pairs)
    ensures Snapshot(w') == Heap(old(Snapshot(w)).nodes[u := shape], old(Snapshot(w)).pairs)
  {
    ghost var before := Snapshot(w);
    if owner != null && owner == node.ownerID {
      node.shape := shape;
      u, w' := node, w;
      assert Snapshot(w').nodes == before.nodes[u := shape];
    } else {
      u, w' := Make(w, owner, shape);
    }
  }

  /** A list node was given a new list. */
  lemma ListDone<K, V>(before: Heap<K, V>, mid: Heap<K, V>, after: Heap<K, V>, owner: Owner?, adds: bool, key: K,
                             n: TNode<K, V>, v: Node<K, V>, u: TNode<K, V>, r: Node<K, V>, resized: bool)
    requires Reps(before, n, v) && Flat(v) && !v.Value? && Flat(r) && !r.Value? && (IsLeaf(r) <==> IsLeaf(v))
    requires mid.nodes == before.nodes && before.pairs.Keys <= mid.pairs.Keys
    requires forall p :: p in before.pairs ==> mid.pairs[p] == before.pairs[p]
    requires if Owned(n, owner) then u == n else u !in before.nodes && u.ownerID == owner
    requires u in after.nodes && after == Heap(before.nodes[u := after.nodes[u]], mid.pairs) && Alike(mid.pairs, after.nodes[u], r)
    requires forall p :: p in OwnPairs(after.nodes[u]) && p in before.pairs ==> p in OwnPairs(before.nodes[n])
    ensures Result(before, after, owner, adds, key, n, v, Updated(Some(r), resized, true), Some(u), resized, true)
  {
    FlatReach(before, n, v, owner);
    FlatPrivate(after, u, r, owner);
    AlikeOf(before, n, v);
    hide Reach, PairsOf, Reps, Tree, Below, Stepped, Private, OwnPairs;
    FlatStepped(before, after, owner, key, AreaOf(before, n, v, owner), u, r);
  }

  /** A collision node of two entries shrank to a leaf that shares the remaining pair. */
  lemma Shrunk<K, V>(before: Heap<K, V>, after: Heap<K, V>, owner: Owner?, key: K,
                     n: TNode<K, V>, v: Node<K, V>, u: TNode<K, V>, i: nat)
    requires Reps(before, n, v) && v.Collision? && |v.entries| == 2 && i < 2
    requires u !in before.nodes && u.ownerID == owner && u in after.nodes && after == Heap(before.nodes[u := after.nodes[u]], before.pairs)
    requires before.nodes[n].Clash? && |before.nodes[n].entries| == 2 && after.nodes[u] == Leaf(v.keyHash, before.nodes[n].entries[1 - i])
    ensures Result(before, after, owner, false, key, n, v, Updated(Some(Value(v.keyHash, v.entries[1 - i])), true, true), Some(u), true, true)
  {
    var r := Value(v.keyHash, v.entries[1 - i]);
    FlatReach(before, n, v, owner);
    ClashHolds(before, n, v);
    assert Holds(before.pairs, before.nodes[n].entries[1 - i], v.entries[1 - i]);
    assert before.nodes[n].entries[1 - i] in before.nodes[n].entries && !NoClash(v);
    hide Reach, PairsOf, Reps, Tree, Below, Stepped, Private;
    FlatStepped(before, after, owner, key, AreaOf(before, n, v, owner), u, r);
  }

  lemma ClashHolds<K, V>(heap: Heap<K, V>, n: TNode<K, V>, v: Node<K, V>)
    requires Reps(heap, n, v) && v.Collision?
    ensures n in heap.nodes && heap.nodes[n].Clash? && heap.nodes[n].keyHash == v.keyHash && HoldsAll(heap.pairs, heap.nodes[n].entries, v.entries)
  {
  }

  method UpdateClash<K(==), V(==)>(ghost w: World<K, V>, ghost path: seq<nat>, ghost v: Node<K, V>, node: TNode<K, V>,
                                        owner: Owner?, level: nat, h: K -> Word, key: K, value: Option<V>)
    returns (r: Option<TNode<K, V>>, resized: bool, altered: bool, ghost w': World<K, V>)
    requires Reps(Snapshot(w), node, v) && Tree(Snapshot(w), node, v, owner) && v.Collision? && Wf(v, h, path)
    requires level == |path| && OnPath(h(key), path)
    modifies Foot(Snapshot(w), node, v, owner)
    ensures w.nodes <= w'.nodes && w.pairs <= w'.pairs && fresh(w'.nodes - w.nodes) && fresh(w'.pairs - w.pairs)
    ensures Result(old(Snapshot(w)), Snapshot(w'), owner, value.Some?, key, node, v, Update(v, path, level, h, key, value), r, resized, altered)
  {
    hide Reach, PairsOf, Reps, Tree, OnPath, Below, Result, HashTrie.Merge, UpdateList, HoldsAll;
    ghost var before := Snapshot(w);
    ClashHolds(before, node, v);
    if h(key) == node.shape.keyHash {
      ClashSize(v, h, path);
      r, resized, altered, w' := UpdateEntries(w, path, v, node, owner, h, key, value);
    } else if value.None? {
      r, resized, altered, w' := Some(node), false, false, w;
      NothingDone(before, owner, value.Some?, key, node, v, false);
    } else {
      resized, altered := true, true;
      r, w' := Extend(w, path, v, node, owner, level, h, key, value.value);
    }
  }

  lemma ClashSize<K, V>(v: Node<K, V>, h: K -> Word, path: seq<nat>)
    requires Wf(v, h, path) && v.Collision?
    ensures |v.entries| >= 2
  {
  }

  lemma UpdateListIs<K, V>(keyHash: Word, es: seq<Entry<K, V>>, key: K, value: Option<V>)
    requires |es| >= 2
    ensures var i := Find(es, key);
            UpdateList(keyHash, es, key, value) ==
            if (if i < |es| then value == Some(es[i].1) else value.None?) then Updated(Some(Collision(keyHash, es)), false, false)
            else if value.None? && |es| == 2 then Updated(Some(Value(keyHash, es[1 - i])), true, true)
            else Updated(Some(Collision(keyHash, EditEntries(es, i, key, value))), value.None? || i == |es|, true)
  {
    hide EditEntries, Find;
  }

  method UpdateEntries<K(==), V(==)>(ghost w: World<K, V>, ghost path: seq<nat>, ghost v: Node<K, V>, node: TNode<K, V>,
                                          owner: Owner?, h: K -> Word, key: K, value: Option<V>)
    returns (r: Option<TNode<K, V>>, resized: bool, altered: bool, ghost w': World<K, V>)
    requires Reps(Snapshot(w), node, v) && Tree(Snapshot(w), node, v, owner) && v.Collision? && Wf(v, h, path) && |v.entries| >= 2
    modifies Foot(Snapshot(w), node, v, owner)
    ensures w.nodes <= w'.nodes && w.pairs <= w'.pairs && fresh(w'.nodes - w.nodes) && fresh(w'.pairs - w.pairs)
    ensures Result(old(Snapshot(w)), Snapshot(w'), owner, value.Some?, key, node, v, UpdateList(v.keyHash, v.entries, key, value), r, resized, altered)
  {
    hide Reach, PairsOf, Reps, Tree, Below, Result, HoldsAll, Wf, EditEntries, UpdateList, Foot;
    ghost var before := Snapshot(w);
    ClashHolds(before, node, v);
    SameLength(before.pairs, node.shape.entries, v.entries);
    var ps := node.shape.entries;
    var i := FindPair(ps, key, v.entries);
    UpdateListIs(v.keyHash, v.entries, key, value);
    var present := i < |ps|;
    resized, altered, w' := false, true, w;
    if if present then value == Some(ps[i].value) else value.None? {
      r, altered := Some(node), false;
      NothingDone(before, owner, value.Some?, key, node, v, false);
    } else if value.None? && |ps| == 2 {
      resized := true;
      r, w' := Shrink(w, v, node, owner, i, key);
    } else {
      resized := value.None? || !present;
      r, w' := Relist(w, v, node, owner, i, key, value, resized);
    }
  }

  method Shrink<K, V>(ghost w: World<K, V>, ghost v: Node<K, V>, node: TNode<K, V>, owner: Owner?, i: nat, ghost key: K)
    returns (r: Option<TNode<K, V>>, ghost w': World<K, V>)
    requires Reps(Snapshot(w), node, v) && v.Collision? && |v.entries| == 2 && i < 2
    ensures w.nodes <= w'.nodes && w.pairs <= w'.pairs && fresh(w'.nodes - w.nodes) && fresh(w'.pairs - w.pairs)
    ensures Result(Snapshot(w), Snapshot(w'), owner, false, key, node, v,
                   Updated(Some(Value(v.keyHash, v.entries[1 - i])), true, true), r, true, true)
  {
    hide Reach, PairsOf, Reps, Tree, Below, Result, HoldsAll, Wf;
    ghost var before := Snapshot(w);
    ClashHolds(before, node, v);
    SameLength(before.pairs, node.shape.entries, v.entries);
    var u;
    u, w' := Make(w, owner, Leaf(node.shape.keyHash, node.shape.entries[1 - i]));
    r := Some(u);
    Shrunk(before, Snapshot(w'), owner, key, node, v, u, i);
  }

  /** A collision node gets its edited list. */
  method Relist<K, V>(ghost w: World<K, V>, ghost v: Node<K, V>, node: TNode<K, V>, owner: Owner?, i: nat, key: K,
                      value: Option<V>, ghost resized: bool)
    returns (r: Option<TNode<K, V>>, ghost w': World<K, V>)
    requires Reps(Snapshot(w), node, v) && v.Collision? && i <= |v.entries| && (value.None? ==> i < |v.entries|)
    modifies Foot(Snapshot(w), node, v, owner)
    ensures w.nodes <= w'.nodes && w.pairs <= w'.pairs && fresh(w'.nodes - w.nodes) && fresh(w'.pairs - w.pairs)
    ensures Result(old(Snapshot(w)), Snapshot(w'), owner, value.Some?, key, node, v,
                   Updated(Some(Collision(v.keyHash, EditEntries(v.entries, i, key, value))), resized, true), r, resized, true)
  {
    hide Reach, PairsOf, Reps, Tree, Below, Result, HoldsAll, EditEntries;
    ghost var before := Snapshot(w);
    ClashHolds(before, node, v);
    SameLength(before.pairs, node.shape.entries, v.entries);
    FlatReach(before, node, v, owner);
    var qs, u;
    qs, w' := EditList(w, node.shape.entries, v.entries, i, owner, key, value);
    ghost var mid := Snapshot(w');
    u, w' := Place(w', node, owner, Clash(node.shape.keyHash, qs));
    r := Some(u);
    ListDone(before, mid, Snapshot(w'), owner, value.Some?, key, node, v, u, Collision(v.keyHash, EditEntries(v.entries, i, key, value)), resized);
  }
}
