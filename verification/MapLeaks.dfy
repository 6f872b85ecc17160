/** How a session can change a published map when two keys share a hash. */
module MapLeaks {
  import opened Bits
  import opened Options
  import opened Owners
  import opened HashTrie
  import opened HashTrieCorrect
  import opened HashTrieEntries
  import opened HashMaps
  import opened MapNodes
  import opened MapEdits
  import opened MapLeaves
  import opened MapUpdate
  import opened MapRoots
  import opened MapSessions
  import opened MapIsolation

  // ----- a map that grew into a trie and shrank to two keys

  ghost predicate NoList<K, V>(m: HashMap<K, V>) {
    m.root.Some? ==> !m.root.value.ArrayMap?
  }

  /** More entries than a list may hold. */
  lemma ManyNoList<K, V>(ops: seq<Op<K, V>>, h: K -> Word)
    requires |RunPlain(ops)| > MAX_ARRAY_MAP
    ensures NoList(Run(ops, h))
  {
    hide Run, RunPlain, Wf;
    RunAbs(ops, h);
    var m := Run(ops, h);
    if m.root.Some? && m.root.value.ArrayMap? {
      EntriesSized(m.root.value, h);
      ToMapIs(m.root.value.entries, m.root.value.entries[0].0);
    }
  }

  /** Removing keys does not turn a trie into a list. */
  lemma {:induction false} RemovedNoList<K, V>(ops: seq<Op<K, V>>, h: K -> Word, n: nat)
    requires n <= |ops| && NoList(Run(ops[..n], h)) && forall i :: n <= i < |ops| ==> ops[i].Remove?
    ensures NoList(Run(ops, h))
    decreases |ops|
  {
    hide NoList, UpdateMap;
    if n == |ops| {
      assert ops[..n] == ops;
    } else {
      var front := ops[..|ops| - 1];
      assert front[..n] == ops[..n];
      RemovedNoList(front, h, n);
      RemoveNoList(Run(front, h), h, ops[|ops| - 1].key);
    }
  }

  lemma RemoveNoList<K, V>(m: HashMap<K, V>, h: K -> Word, key: K)
    requires HashMaps.Valid(m, h) && NoList(m)
    ensures NoList(UpdateMap(m, h, key, None))
  {
    hide Update, Wf, Entries, Get;
    if m.root.Some? {
      UpdateMapIs(m, h, key, None);
      UpdateRootCorrect(m.root.value, h, key, None, key);
      UpdateCorrect(m.root.value, h, [], key, None, key);
      var u := UpdateRoot(m.root.value, h, key, None);
      if u.node.Some? { TrieIsNoList(u.node.value, h); }
    }
  }

  function Adds<K, V>(keys: seq<K>, x: V): seq<Op<K, V>> {
    if keys == [] then [] else Adds(keys[..|keys| - 1], x) + [Set(keys[|keys| - 1], x)]
  }

  function Removes<K, V>(keys: seq<K>): (ops: seq<Op<K, V>>)
    ensures forall i :: 0 <= i < |ops| ==> ops[i].Remove?
  {
    if keys == [] then [] else Removes(keys[..|keys| - 1]) + [Remove(keys[|keys| - 1])]
  }

  ghost predicate NoRepeat<K>(keys: seq<K>) {
    forall i, j :: 0 <= i < j < |keys| ==> keys[i] != keys[j]
  }

  function Among<K>(keys: seq<K>): set<K> {
    set k | k in keys
  }

  lemma {:induction false} AmongSize<K>(keys: seq<K>)
    requires NoRepeat(keys)
    ensures |Among(keys)| == |keys|
  {
    if keys != [] {
      FrontKeys(keys);
      AmongSize(keys[..|keys| - 1]);
      assert keys[|keys| - 1] !in Among(keys[..|keys| - 1]);
    }
  }

  lemma FrontKeys<K>(keys: seq<K>)
    requires keys != []
    ensures Among(keys) == Among(keys[..|keys| - 1]) + {keys[|keys| - 1]}
  {
    assert forall k :: k in keys <==> k in keys[..|keys| - 1] || k == keys[|keys| - 1];
  }

  lemma {:induction false} AddsPlain<K, V>(start: seq<Op<K, V>>, keys: seq<K>, x: V)
    ensures RunPlain(start + Adds(keys, x)).Keys == RunPlain(start).Keys + Among(keys)
    ensures RunPlain(start + Adds(keys, x)) - Among(keys) == RunPlain(start) - Among(keys)
    decreases |keys|
  {
    if keys == [] {
      assert start + Adds(keys, x) == start;
    } else {
      var front, last := keys[..|keys| - 1], keys[|keys| - 1];
      AddsPlain(start, front, x);
      var ops := start + Adds(keys, x);
      assert ops[..|ops| - 1] == start + Adds(front, x);
      assert ops[|ops| - 1] == Set(last, x);
      assert RunPlain(ops) == RunPlain(start + Adds(front, x))[last := x];
      FrontKeys(keys);
      hide RunPlain, Adds, Among;
      AddedKey(RunPlain(start + Adds(front, x)), RunPlain(start), Among(front), last, x);
    }
  }

  lemma AddedKey<K, V>(m: map<K, V>, start: map<K, V>, keys: set<K>, last: K, x: V)
    requires m - keys == start - keys
    ensures m[last := x] - (keys + {last}) == start - (keys + {last})
  {
    assert m[last := x] - (keys + {last}) == (m - keys) - {last};
    assert start - (keys + {last}) == (start - keys) - {last};
  }

  lemma {:induction false} RemovesPlain<K, V>(start: seq<Op<K, V>>, keys: seq<K>)
    ensures RunPlain(start + Removes(keys)) == RunPlain(start) - Among(keys)
    decreases |keys|
  {
    if keys == [] {
      assert start + Removes(keys) == start;
    } else {
      var front, last := keys[..|keys| - 1], keys[|keys| - 1];
      RemovesPlain(start, front);
      var ops := start + Removes(keys);
      assert ops[..|ops| - 1] == start + Removes(front);
      FrontKeys(keys);
    }
  }

  /** Two keys are set, then others, and the others are removed. */
  function UpAndDown<K, V>(k1: K, k2: K, others: seq<K>, v1: V, v2: V): seq<Op<K, V>> {
    [Set(k1, v1), Set(k2, v2)] + Adds(others, v1) + Removes(others)
  }

  /** What is left is a trie of the two keys. */
  lemma TwoLeft<K, V>(h: K -> Word, k1: K, k2: K, others: seq<K>, v1: V, v2: V)
    requires NoRepeat([k1, k2] + others) && |others| == 7
    ensures var ops := UpAndDown(k1, k2, others, v1, v2);
            RunPlain(ops) == map[k1 := v1, k2 := v2] && NoList(Run(ops, h))
  {
    hide Run, NoList, Adds, Removes, RunPlain, Among;
    var start := [Set(k1, v1), Set(k2, v2)];
    var full := start + Adds(others, v1);
    TwoSet(k1, k2, v1, v2, others);
    AddsPlain(start, others, v1);
    Nine(RunPlain(full), RunPlain(start), others);
    ManyNoList(full, h);
    RemovesPlain(full, others);
    var ops := full + Removes(others);
    assert ops[..|full|] == full;
    RemovedNoList(ops, h, |full|);
  }

  lemma Nine<K, V>(m: map<K, V>, two: map<K, V>, others: seq<K>)
    requires m.Keys == two.Keys + Among(others) && |two.Keys| == 2 && two.Keys !! Among(others) && NoRepeat(others) && |others| == 7
    ensures |m| == 9 && two - Among(others) == two
  {
    AmongSize(others);
    assert |m.Keys| == 9;
  }

  lemma TwoSet<K, V>(k1: K, k2: K, v1: V, v2: V, others: seq<K>)
    requires NoRepeat([k1, k2] + others)
    ensures RunPlain([Set(k1, v1), Set(k2, v2)]) == map[k1 := v1, k2 := v2] && k1 != k2 && NoRepeat(others)
    ensures |map[k1 := v1, k2 := v2].Keys| == 2 && map[k1 := v1, k2 := v2].Keys !! Among(others)
  {
    var ops := [Set(k1, v1), Set(k2, v2)];
    assert ops[..1] == [Set(k1, v1)] && ops[..1][..0] == [];
    assert RunPlain(ops[..1]) == map[k1 := v1];
    var all := [k1, k2] + others;
    assert all[0] == k1 && all[1] == k2 && forall i :: 0 <= i < |others| ==> all[i + 2] == others[i];
    assert map[k1 := v1, k2 := v2].Keys == {k1, k2};
  }

  /** A published map of two keys with one hash, made by operations on the empty map. */
  method PublishTwo<K(==), V(==)>(h: K -> Word, k1: K, k2: K, others: seq<K>, v1: V, v2: V) returns (m: HeapMap<K, V>, ghost w: World<K, V>)
    requires NoRepeat([k1, k2] + others) && |others| == 7
    ensures fresh(m) && fresh(w.nodes) && fresh(w.pairs)
    ensures m.Valid(w, h) && m.ownerID == null && m.model == Run(UpAndDown(k1, k2, others, v1, v2), h)
    ensures Abs(m.model) == map[k1 := v1, k2 := v2] && NoList(m.model)
  {
    hide UpAndDown, Run, RunPlain, Abs, NoList, HashMaps.Valid, Stands;
    TwoLeft(h, k1, k2, others, v1, v2);
    m, w := RunAll(World({}, {}), h, UpAndDown(k1, k2, others, v1, v2), {});
  }

  // ----- the collision node of two keys

  ghost predicate TwoEntries<K, V>(es: seq<Entry<K, V>>, k1: K, k2: K, v1: V, v2: V) {
    k1 != k2 && (es == [(k1, v1), (k2, v2)] || es == [(k2, v2), (k1, v1)])
  }

  lemma Collides<K, V>(m: HashMap<K, V>, h: K -> Word, k1: K, k2: K, v1: V, v2: V)
    requires HashMaps.Valid(m, h) && NoList(m) && Abs(m) == map[k1 := v1, k2 := v2] && k1 != k2 && h(k1) == h(k2)
    ensures m.root.Some? && m.root.value.Collision? && Wf(m.root.value, h, []) && m.size == 2
    ensures m.root.value.keyHash == h(k1) && TwoEntries(m.root.value.entries, k1, k2, v1, v2)
  {
    hide Wf;
    LookupIsAbs(m, h, k1);
    assert k1 in Abs(m) && |Abs(m).Keys| == 2;
    var v := m.root.value;
    EntriesSized(v, h);
    forall e | e in Entries(v) ensures e.0 in Abs(m) && Abs(m)[e.0] == e.1 { ToMapIs(Entries(v), e.0); }
    SameHashLeaf(v, h, [], h(k1));
    LeafOfTwo(v, h);
    assert Entries(v)[0] in Entries(v) && Entries(v)[1] in Entries(v);
  }

  lemma LeafOfTwo<K, V>(v: Node<K, V>, h: K -> Word)
    requires Wf(v, h, []) && IsLeaf(v) && |Entries(v)| == 2
    ensures v.Collision? && Entries(v) == v.entries && v.keyHash == h(v.entries[0].0)
  {
  }

  /** What the session's two updates make of the value. */
  lemma Shrinks<K, V>(v: Node<K, V>, h: K -> Word, k1: K, k2: K, v1: V, v2: V, x: V)
    requires v.Collision? && Wf(v, h, []) && v.keyHash == h(k1) == h(k2) && TwoEntries(v.entries, k1, k2, v1, v2) && x != v1
    ensures var one := Value(h(k1), (k1, v1));
            && WfRoot(v, h) && UpdateRoot(v, h, k2, None) == Updated(Some(one), true, true)
            && WfRoot(one, h) && UpdateRoot(one, h, k1, Some(x)) == Updated(Some(Value(h(k1), (k1, x))), false, true)
  {
    hide OnPath;
    OneWf(h, k1, v1);
    PathStart(h(k1));
    var es := v.entries;
    assert es[1..] == [es[1]];
    assert Find(es, k2) == if es[0].0 == k2 then 0 else 1;
  }

  lemma PathStart(hash: Word)
    ensures OnPath(hash, [])
  {
  }

  ghost function Rebound<K, V>(v: Node<K, V>, key: K, x: V): Node<K, V>
    requires v.Collision?
  {
    Collision(v.keyHash, seq(|v.entries|, i requires 0 <= i < |v.entries| => if v.entries[i].0 == key then (key, x) else v.entries[i]))
  }

  /** With the shared pair overwritten, the collision node stands for the other value. */
  lemma PairOverwritten<K, V>(before: Heap<K, V>, after: Heap<K, V>, n: TNode<K, V>, v: Node<K, V>, p: Pair<K, V>, x: V)
    requires Reps(before, n, v) && v.Collision? && Distinct(v.entries)
    requires n in before.nodes && before.nodes[n].Clash? && p in before.nodes[n].entries
    requires n in after.nodes && after.nodes[n] == before.nodes[n] && after.pairs == before.pairs[p := x]
    ensures Reps(after, n, Rebound(v, p.key, x))
  {
    AlikeOf(before, n, v);
    HoldsRebound(before.pairs, before.nodes[n].entries, v, p, x);
    FlatReach(after, n, Rebound(v, p.key, x), null);
  }

  lemma HoldsRebound<K, V>(pairs: map<Pair<K, V>, V>, ps: seq<Pair<K, V>>, v: Node<K, V>, p: Pair<K, V>, x: V)
    requires v.Collision? && Distinct(v.entries) && HoldsAll(pairs, ps, v.entries) && p in ps
    ensures HoldsAll(pairs[p := x], ps, Rebound(v, p.key, x).entries)
  {
    var es := Rebound(v, p.key, x).entries;
    var j :| 0 <= j < |ps| && ps[j] == p;
    assert Holds(pairs, ps[j], v.entries[j]);
    forall i | 0 <= i < |ps| ensures Holds(pairs[p := x], ps[i], es[i]) {
      assert Holds(pairs, ps[i], v.entries[i]);
    }
  }

  lemma ReboundValid<K, V>(v: Node<K, V>, h: K -> Word, k1: K, k2: K, v1: V, v2: V, x: V)
    requires v.Collision? && Wf(v, h, []) && v.keyHash == h(k1) && TwoEntries(v.entries, k1, k2, v1, v2)
    ensures HashMaps.Valid(HashMap(2, Some(Rebound(v, k1, x))), h)
    ensures Abs(HashMap(2, Some(Rebound(v, k1, x)))) == map[k1 := x, k2 := v2]
  {
    var es := Rebound(v, k1, x).entries;
    assert es == [(k1, x), (k2, v2)] || es == [(k2, v2), (k1, x)];
    assert es[..1] == [es[0]] && es[..1][..0] == [];
    assert ToMap(es[..1]) == map[es[0].0 := es[0].1];
  }

  lemma Overwritten<K, V>(before: Heap<K, V>, mid: Heap<K, V>, after: Heap<K, V>, owner: Owner?, h: K -> Word, n: TNode<K, V>, v: Node<K, V>,
                          u: TNode<K, V>, p: Pair<K, V>, k1: K, k2: K, v1: V, v2: V, x: V)
    requires Stands(before, Some(n), Some(v), null) && v.Collision? && Wf(v, h, []) && v.keyHash == h(k1)
    requires TwoEntries(v.entries, k1, k2, v1, v2) && Borrowed(before, mid, owner, k1, n, u, p) && after == Heap(mid.nodes, mid.pairs[p := x])
    ensures Stands(after, Some(n), Some(Rebound(v, k1, x)), null)
    ensures HashMaps.Valid(HashMap(2, Some(Rebound(v, k1, x))), h)
    ensures Abs(HashMap(2, Some(Rebound(v, k1, x)))) == map[k1 := x, k2 := v2]
  {
    ReboundValid(v, h, k1, k2, v1, v2, x);
    hide Reps, Tree, HashMaps.Valid, Abs;
    PairOverwritten(before, after, n, v, p, x);
    FlatReach(after, n, Rebound(v, k1, x), null);
    hide Reach, PairsOf;
  }

  // ----- the leak

  lemma ShrinksModel<K, V>(m: HashMap<K, V>, h: K -> Word, k1: K, k2: K, v1: V, v2: V, x: V)
    requires HashMaps.Valid(m, h) && NoList(m) && Abs(m) == map[k1 := v1, k2 := v2] && k1 != k2 && h(k1) == h(k2) && x != v1
    ensures m.root.Some? && m.root.value.Collision? && Wf(m.root.value, h, []) && WfRoot(m.root.value, h)
    ensures m.size == 2 && m.root.value.keyHash == h(k1) && TwoEntries(m.root.value.entries, k1, k2, v1, v2)
    ensures UpdateMap(m, h, k2, None) == HashMap(1, Some(Value(h(k1), (k1, v1))))
    ensures UpdateRoot(m.root.value, h, k2, None) == Updated(Some(Value(h(k1), (k1, v1))), true, true)
    ensures var one := HashMap(1, Some(Value(h(k1), (k1, v1))));
            && HashMaps.Valid(one, h) && WfRoot(one.root.value, h)
            && UpdateRoot(one.root.value, h, k1, Some(x)) == Updated(Some(Value(h(k1), (k1, x))), false, true)
            && UpdateMap(one, h, k1, Some(x)) == HashMap(1, Some(Value(h(k1), (k1, x))))
  {
    Collides(m, h, k1, k2, v1, v2);
    hide UpdateRoot, Abs, Wf, NoList;
    Shrinks(m.root.value, h, k1, k2, v1, v2, x);
  }

  /** The session's first update: the new root is a leaf of the session with pair `p` of the published collision node `n`. */
  ghost predicate Borrowed<K, V>(before: Heap<K, V>, mid: Heap<K, V>, owner: Owner?, key: K, n: TNode<K, V>, u: TNode<K, V>, p: Pair<K, V>) {
    && n in before.nodes && before.nodes[n].Clash? && p in before.nodes[n].entries && p.key == key
    && u !in before.nodes && u in mid.nodes && Owned(u, owner) && mid.nodes[u].Leaf? && mid.nodes[u].entry == p
    && n in mid.nodes && mid.nodes[n] == before.nodes[n] && mid.pairs == before.pairs
  }

  lemma Borrows<K, V>(before: Heap<K, V>, mid: Heap<K, V>, owner: Owner, h: K -> Word, k1: K, k2: K, v1: V, v: Node<K, V>,
                      area: Area<K, V>, n: TNode<K, V>, r: Option<TNode<K, V>>)
    requires v.Collision? && WfRoot(v, h) && n in before.nodes && area.foot == {}
    requires UpdateRoot(v, h, k2, None) == Updated(Some(Value(h(k1), (k1, v1))), true, true)
    requires RootShares(before, mid, owner, h, k2, None, Some(n), Some(v), r)
    requires Stands(mid, r, Some(Value(h(k1), (k1, v1))), owner) && Touched(before, mid, owner, k2, area)
    ensures r.Some? && r.value in mid.nodes && mid.nodes[r.value].Leaf?
    ensures Borrowed(before, mid, owner, k1, n, r.value, mid.nodes[r.value].entry)
  {
    hide UpdateRoot, WfRoot, Tree;
    AlikeOf(mid, r.value, Value(h(k1), (k1, v1)));
  }

  lemma LeafArea<K, V>(heap: Heap<K, V>, n: TNode<K, V>, v: Node<K, V>, owner: Owner?)
    requires n in heap.nodes && heap.nodes[n].Leaf? && v.Value?
    ensures var area := RootArea(heap, Some(n), Some(v), owner);
            area.foot <= {n} && area.cells <= {heap.nodes[n].entry}
  {
    FlatReach(heap, n, v, owner);
    hide Reach, PairsOf, Tree;
  }

  /** Removing the second key. */
  method RemoveSecond<K(==), V(==)>(ghost w: World<K, V>, ghost m: HeapMap<K, V>, e: HeapMap<K, V>, h: K -> Word,
                                    ghost k1: K, k2: K, ghost v1: V, ghost v2: V, ghost x: V)
    returns (ghost p: Pair<K, V>, ghost w': World<K, V>)
    requires m != e && m.Valid(w, h) && m.ownerID == null && e.Valid(w, h) && e.ownerID != null && e.model == m.model && e.root == m.root
    requires (forall n :: n in w.nodes ==> n.ownerID != e.ownerID) && (forall p :: p in w.pairs ==> p.maker != e.ownerID)
    requires NoList(m.model) && Abs(m.model) == map[k1 := v1, k2 := v2] && k1 != k2 && h(k1) == h(k2) && x != v1
    modifies e
    ensures w.nodes <= w'.nodes && w.pairs <= w'.pairs && fresh(w'.nodes - w.nodes) && fresh(w'.pairs - w.pairs)
    ensures e.Valid(w', h) && e.ownerID == old(e.ownerID) && e.model == HashMap(1, Some(Value(h(k1), (k1, v1)))) && e.root.Some? && m.root.Some?
    ensures Borrowed(old(Snapshot(w)), Snapshot(w'), e.ownerID, k1, m.root.value, e.root.value, p)
  {
    hide Stands, RootArea, UpdateMap, UpdateRoot, HashMaps.Valid, RootShares, Touched, Inherits,
      NoList, Abs, Wf, WfRoot, PrivateRoot, NoClashRoot, Borrowed, TwoEntries;
    ghost var before, owner, area := Snapshot(w), e.ownerID, e.MyArea(w);
    ValidModel(w, m, h);
    ShrinksModel(m.model, h, k1, k2, v1, v2, x);
    HiddenModel(w, e, h, owner);
    NoFoot(before, e.root, e.model.root, owner);
    RootIn(before, m.root, m.model.root, m.ownerID);
    var r;
    r, w' := e.Update(w, h, k2, None);
    Borrows(before, Snapshot(w'), owner, h, k1, k2, v1, m.model.root.value, area, m.root.value, e.root);
    p := Snapshot(w').nodes[e.root.value].entry;
  }

  lemma NoFoot<K, V>(heap: Heap<K, V>, r: Option<TNode<K, V>>, v: Option<Node<K, V>>, owner: Owner?)
    requires RootArea(heap, r, v, owner).foot == {}
    ensures RootArea(heap, r, v, owner).cells == {}
  {
    hide Reach, PairsOf;
  }

  lemma RootIn<K, V>(heap: Heap<K, V>, r: Option<TNode<K, V>>, v: Option<Node<K, V>>, owner: Owner?)
    requires Stands(heap, r, v, owner) && v.Some?
    ensures r.Some? && r.value in heap.nodes
  {
    hide Tree;
  }

  /** Setting the first key overwrites the pair. */
  method SetFirst<K(==), V(==)>(ghost before: Heap<K, V>, ghost w: World<K, V>, ghost n: TNode<K, V>,
                                e: HeapMap<K, V>, h: K -> Word, k1: K, ghost v1: V, x: V, ghost p: Pair<K, V>)
    returns (ghost w': World<K, V>)
    requires e.Valid(w, h) && e.ownerID != null && e.model == HashMap(1, Some(Value(h(k1), (k1, v1)))) && e.root.Some?
    requires Borrowed(before, Snapshot(w), e.ownerID, k1, n, e.root.value, p) && p in w.pairs
    requires var one := Value(h(k1), (k1, v1)); var next := Value(h(k1), (k1, x));
             && WfRoot(one, h) && HashMaps.Valid(HashMap(1, Some(one)), h)
             && UpdateRoot(one, h, k1, Some(x)) == Updated(Some(next), false, true)
             && UpdateMap(HashMap(1, Some(one)), h, k1, Some(x)) == HashMap(1, Some(next))
    modifies e, e.root.value, p
    ensures w.nodes <= w'.nodes && w.pairs <= w'.pairs && fresh(w'.nodes - w.nodes) && fresh(w'.pairs - w.pairs)
    ensures e.Valid(w', h) && e.ownerID == old(e.ownerID) && e.model == HashMap(1, Some(Value(h(k1), (k1, x))))
    ensures n in before.nodes && Snapshot(w') == Heap(old(Snapshot(w)).nodes, old(Snapshot(w)).pairs[p := x])
  {
    hide Stands, RootArea, UpdateMap, UpdateRoot, HashMaps.Valid, Touched, Inherits, WfRoot, PrivateRoot, NoClashRoot;
    LeafArea(Snapshot(w), e.root.value, e.model.root.value, e.ownerID);
    ghost var u := e.root;
    var r;
    r, w' := e.Update(w, h, k1, Some(x));
    StandsSome(Snapshot(w'), e.root, e.model.root, e.ownerID);
  }

  lemma StandsSome<K, V>(heap: Heap<K, V>, r: Option<TNode<K, V>>, v: Option<Node<K, V>>, owner: Owner?)
    requires Stands(heap, r, v, owner) && v.Some?
    ensures r.Some? && r.value in heap.nodes
  {
    RootIn(heap, r, v, owner);
  }

  /** Both updates of the session. */
  method EditTwo<K(==), V(==)>(ghost w: World<K, V>, ghost m: HeapMap<K, V>, e: HeapMap<K, V>, h: K -> Word, k1: K, k2: K, ghost v1: V, ghost v2: V, x: V)
    returns (ghost w': World<K, V>)
    requires m != e && m.Valid(w, h) && m.ownerID == null && e.Valid(w, h) && e.ownerID != null && e.model == m.model && e.root == m.root
    requires (forall n :: n in w.nodes ==> n.ownerID != e.ownerID) && (forall p :: p in w.pairs ==> p.maker != e.ownerID)
    requires NoList(m.model) && Abs(m.model) == map[k1 := v1, k2 := v2] && k1 != k2 && h(k1) == h(k2) && x != v1
    modifies e, m.MyArea(w).pairs
    ensures w.nodes <= w'.nodes && w.pairs <= w'.pairs && fresh(w'.nodes - w.nodes) && fresh(w'.pairs - w.pairs)
    ensures e.Valid(w', h) && e.model == HashMap(1, Some(Value(h(k1), (k1, x))))
    ensures m.model.root.Some? && m.model.root.value.Collision? && m.size == 2
    ensures Stands(Snapshot(w'), m.root, Some(Rebound(m.model.root.value, k1, x)), null)
    ensures HashMaps.Valid(HashMap(2, Some(Rebound(m.model.root.value, k1, x))), h)
    ensures Abs(HashMap(2, Some(Rebound(m.model.root.value, k1, x)))) == map[k1 := x, k2 := v2]
  {
    hide Stands, RootArea, UpdateMap, UpdateRoot, HashMaps.Valid, NoList, Abs, Wf, WfRoot, PrivateRoot, TwoEntries, Borrowed, Rebound;
    ghost var before := Snapshot(w);
    ValidModel(w, m, h);
    ShrinksModel(m.model, h, k1, k2, v1, v2, x);
    ghost var p;
    p, w' := RemoveSecond(w, m, e, h, k1, k2, v1, v2, x);
    ghost var mid := Snapshot(w');
    BorrowedPair(before, mid, e.ownerID, k1, m.root, m.model.root, e.root.value, p, m.ownerID);
    ghost var u := e.root.value;
    w' := SetFirst(before, w', m.root.value, e, h, k1, v1, x, p);
    Overwritten(before, mid, Snapshot(w'), e.ownerID, h, m.root.value, m.model.root.value, u, p, k1, k2, v1, v2, x);
  }

  /** A published map has two keys of one hash. A session on it removes the second key and sets the first; of the published
      map no field changes, and yet it now binds the first key to the session's value. */
  method CollisionLeak<K(==), V(==)>(ghost w: World<K, V>, m: HeapMap<K, V>, h: K -> Word, k1: K, k2: K, ghost v1: V, ghost v2: V, x: V)
    returns (session: HeapMap<K, V>, ghost w': World<K, V>)
    requires m.Valid(w, h) && m.ownerID == null && NoList(m.model) && Abs(m.model) == map[k1 := v1, k2 := v2]
    requires k1 != k2 && h(k1) == h(k2) && x != v1
    modifies m`model, m.MyArea(w).pairs
    ensures w.nodes <= w'.nodes && w.pairs <= w'.pairs && fresh(w'.nodes - w.nodes) && fresh(w'.pairs - w.pairs)
    ensures session.Valid(w', h) && session.ownerID == null && Abs(session.model) == map[k1 := x]
    ensures m.Valid(w', h) && Abs(m.model) == map[k1 := x, k2 := v2]
  {
    hide Stands, RootArea, UpdateMap, UpdateRoot, HashMaps.Valid, NoList, Abs, PrivateRoot, Rebound;
    session := m.AsMutable(w, h);
    w' := EditTwo(w, m, session, h, k1, k2, v1, v2, x);
    OneAbs(h(k1), k1, x);
    ghost var now := HashMap(2, Some(Rebound(m.model.root.value, k1, x)));
    session.AsImmutable(w', h);
    Reread(w', m, now, h);
  }

  /** No field changes: only what the map stands for. */
  ghost method Reread<K, V>(w: World<K, V>, m: HeapMap<K, V>, model: HashMap<K, V>, h: K -> Word)
    requires HashMaps.Valid(model, h) && m.size == model.size && Stands(Snapshot(w), m.root, model.root, m.ownerID)
    modifies m`model
    ensures m.Valid(w, h) && m.model == model
  {
    hide Stands, HashMaps.Valid;
    m.model := model;
  }

  lemma OneAbs<K, V>(hash: Word, k: K, x: V)
    ensures Abs(HashMap(1, Some(Value(hash, (k, x))))) == map[k := x]
  {
    var es := [(k, x)];
    assert es[..0] == [] && ToMap(es[..0]) == map[];
    assert Bindings(HashMap(1, Some(Value(hash, (k, x))))) == es;
  }

  lemma BorrowedPair<K, V>(before: Heap<K, V>, mid: Heap<K, V>, owner: Owner?, key: K, r: Option<TNode<K, V>>,
                           v: Option<Node<K, V>>, u: TNode<K, V>, p: Pair<K, V>, other: Owner?)
    requires r.Some? && v.Some? && Stands(before, r, v, other) && Borrowed(before, mid, owner, key, r.value, u, p)
    ensures p in before.pairs && p in mid.pairs && p in RootArea(before, r, v, other).pairs && u !in before.nodes && u in mid.nodes
  {
    Within(before, r.value, v.value);
    OwnIn(before, r.value, v.value);
    hide Reach, PairsOf, Reps, Tree;
  }

  lemma OwnIn<K, V>(heap: Heap<K, V>, n: TNode<K, V>, v: Node<K, V>)
    ensures n in heap.nodes ==> OwnPairs(heap.nodes[n]) <= PairsOf(heap, n, v)
  {
  }

  /** The same from the empty map, for any nine keys two of which share a hash: the published map's own lookups of the first
      key, before and after the session. */
  method LeakFromEmpty<K(==), V(==)>(h: K -> Word, k1: K, k2: K, others: seq<K>, v1: V, v2: V, x: V)
    returns (m: HeapMap<K, V>, was: Option<V>, now: Option<V>, ghost w: World<K, V>)
    requires NoRepeat([k1, k2] + others) && |others| == 7 && h(k1) == h(k2) && x != v1
    ensures m.Valid(w, h) && m.ownerID == null && Abs(m.model) == map[k1 := x, k2 := v2]
    ensures was == Some(v1) && now == Some(x)
  {
    hide Abs, NoList, HashMaps.Valid, Stands, RootArea, UpAndDown, Run;
    KeysDiffer(k1, k2, others);
    m, w := PublishTwo(h, k1, k2, others, v1, v2);
    AreaIn(Snapshot(w), m.root, m.model.root, m.ownerID);
    was := m.Get(w, h, k1);
    var session;
    session, w := CollisionLeak(w, m, h, k1, k2, v1, v2, x);
    now := m.Get(w, h, k1);
  }

  lemma AreaIn<K, V>(heap: Heap<K, V>, r: Option<TNode<K, V>>, v: Option<Node<K, V>>, owner: Owner?)
    requires Stands(heap, r, v, owner)
    ensures RootArea(heap, r, v, owner).pairs <= heap.pairs.Keys
  {
    if r.Some? { Within(heap, r.value, v.value); }
    hide Reach, PairsOf, Reps, Tree;
  }

  lemma KeysDiffer<K>(k1: K, k2: K, others: seq<K>)
    requires NoRepeat([k1, k2] + others)
    ensures k1 != k2
  {
    assert ([k1, k2] + others)[0] == k1 && ([k1, k2] + others)[1] == k2;
  }
}
