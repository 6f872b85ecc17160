/** Maps on the heap: lookup, update, editing sessions, and what a session leaves alone. */
module MapSessions {
  import opened Bits
  import opened Options
  import opened Owners
  import opened HashTrie
  import opened HashTrieCorrect
  import opened HashTrieEntries
  import opened HashMaps
  import opened MapNodes
  import opened MapEdits
  import opened MapLoops
  import opened MapLeaves
  import opened MapUpdate
  import opened MapChildren
  import opened MapRoots

  // ----- lookup

  /** get, from any node down. */
  method GetFrom<K(==), V>(ghost w: World<K, V>, ghost v: Node<K, V>, ghost path: seq<nat>, node: TNode<K, V>, level: nat, h: K -> Word, key: K)
    returns (r: Option<V>)
    requires Reps(Snapshot(w), node, v) && level == |path| && (v.ArrayMap? || Wf(v, h, path))
    ensures r == Get(v, level, h(key), key)
    decreases v
  {
    hide Reps, Child, Slot, Wf, Reach, PairsOf;
    AlikeOf(Snapshot(w), node, v);
    match node.shape
    case Leaf(_, p) => r := if key == p.key then Some(p.value) else None;
    case Listed(ps) => r := GetIn(w, ps, v.entries, key);
    case Clash(_, ps) => r := GetIn(w, ps, v.entries, key);
    case Packed(_, _) => r := GetBelow(w, v, path, node, level, h, key);
    case Spread(_, _) => r := GetBelow(w, v, path, node, level, h, key);
  }

  method GetIn<K(==), V>(ghost w: World<K, V>, ps: seq<Pair<K, V>>, ghost es: seq<Entry<K, V>>, key: K) returns (r: Option<V>)
    requires HoldsAll(Snapshot(w).pairs, ps, es)
    ensures r == GetEntry(es, key)
  {
    SameLength(Snapshot(w).pairs, ps, es);
    var i := FindPair(ps, key, es);
    r := if i < |ps| then Some(ps[i].value) else None;
  }

  method GetBelow<K(==), V>(ghost w: World<K, V>, ghost v: Node<K, V>, ghost path: seq<nat>, node: TNode<K, V>, level: nat, h: K -> Word, key: K)
    returns (r: Option<V>)
    requires Reps(Snapshot(w), node, v) && level == |path| && Wf(v, h, path) && (v.Bitmap? || v.HashArray?)
    ensures r == Get(v, level, h(key), key)
    decreases v, 0
  {
    hide Reps, Child, Slot, Wf, Reach, PairsOf, RefAt, Get;
    var s := Slot(h(key), level);
    AlikeOf(Snapshot(w), node, v);
    GetStep(Snapshot(w), node, v, h, path, key);
    var c := ChildRef(w, node, v, s);
    if c.None? {
      r := None;
    } else {
      r := GetFrom(w, Kid(v, s).value, path + [s], c.value, level + 1, h, key);
    }
  }

  lemma GetStep<K, V>(heap: Heap<K, V>, n: TNode<K, V>, v: Node<K, V>, h: K -> Word, path: seq<nat>, key: K)
    requires Reps(heap, n, v) && Wf(v, h, path) && (v.Bitmap? || v.HashArray?)
    ensures n in heap.nodes && Sized(v)
    ensures var s := Slot(h(key), |path|);
            && s < 32 && (Kid(v, s).Some? <==> RefAt(heap.nodes[n], s).Some?)
            && (Kid(v, s).Some? ==> Wf(Kid(v, s).value, h, path + [s]) && Reps(heap, RefAt(heap.nodes[n], s).value, Kid(v, s).value))
            && Get(v, |path|, h(key), key) == if Kid(v, s).None? then None else Get(Kid(v, s).value, |path| + 1, h(key), key)
  {
    hide Child, RefAt, Alike;
    ChildWf(v, h, path, Slot(h(key), |path|));
    GetInner(v, |path|, h(key), key);
  }

  // ----- roots

  ghost predicate Stands<K, V>(heap: Heap<K, V>, r: Option<TNode<K, V>>, v: Option<Node<K, V>>, owner: Owner?) {
    (r.Some? <==> v.Some?) && (r.Some? ==> Reps(heap, r.value, v.value) && Tree(heap, r.value, v.value, owner))
  }

  ghost function RootArea<K, V>(heap: Heap<K, V>, r: Option<TNode<K, V>>, v: Option<Node<K, V>>, owner: Owner?): Area<K, V> {
    if r.Some? && v.Some? then AreaOf(heap, r.value, v.value, owner) else Area({}, {}, {}, {})
  }

  ghost predicate PrivateRoot<K, V>(heap: Heap<K, V>, r: Option<TNode<K, V>>, v: Option<Node<K, V>>, owner: Owner?) {
    r.Some? && v.Some? ==> Private(heap, r.value, v.value, owner)
  }

  /** No node below the root and no pair in it belongs to the session of `owner`. */
  ghost predicate Hidden<K, V>(heap: Heap<K, V>, r: Option<TNode<K, V>>, v: Option<Node<K, V>>, owner: Owner?) {
    r.Some? && v.Some? ==>
      && (forall m :: m in Reach(heap, r.value, v.value) ==> m.ownerID != owner)
      && (forall p :: p in PairsOf(heap, r.value, v.value) ==> p.maker != owner)
  }

  /** Of the old heap, the new area holds only what the old one held. */
  ghost predicate Inherits<K, V>(before: Heap<K, V>, was: Area<K, V>, now: Area<K, V>) {
    && (forall m :: m in now.foot && m in before.nodes ==> m in was.foot)
    && (forall p :: p in now.pairs && p in before.pairs ==> p in was.pairs)
    && now.cells <= now.pairs
  }

  lemma YieldsInherits<K, V>(before: Heap<K, V>, after: Heap<K, V>, owner: Owner?, n: TNode<K, V>, v: Node<K, V>,
                             r: Option<TNode<K, V>>, w: Option<Node<K, V>>)
    requires Yields(before, after, owner, AreaOf(before, n, v, owner), r, w)
    ensures Inherits(before, AreaOf(before, n, v, owner), RootArea(after, r, w, owner))
  {
    if r.Some? { CellPairs(after, r.value, w.value, owner); }
    hide Reach, PairsOf, Reps, Tree, Cells;
  }

  /** No collision node at the root or below. */
  ghost predicate NoClashRoot<K, V>(v: Option<Node<K, V>>) {
    v.Some? ==> NoClash(v.value)
  }

  /** The root after an update: the model's update, with its flags. `adds` says that a key was set, and not removed. */
  ghost predicate RootDone<K, V>(before: Heap<K, V>, after: Heap<K, V>, owner: Owner?, adds: bool, key: K,
                                       r: Option<TNode<K, V>>, v: Option<Node<K, V>>, r': Option<TNode<K, V>>, v': Option<Node<K, V>>)
  {
    && Touched(before, after, owner, key, RootArea(before, r, v, owner)) && Stands(after, r', v', owner)
    && Inherits(before, RootArea(before, r, v, owner), RootArea(after, r', v', owner))
    && ((adds || NoClashRoot(v)) && PrivateRoot(before, r, v, owner) ==> PrivateRoot(after, r', v', owner))
  }

  lemma ResultRoot<K, V>(before: Heap<K, V>, after: Heap<K, V>, owner: Owner?, adds: bool, key: K, n: TNode<K, V>, v: Node<K, V>,
                               u: Updated<K, V>, r: Option<TNode<K, V>>, resized: bool, altered: bool)
    requires Result(before, after, owner, adds, key, n, v, u, r, resized, altered)
    ensures RootDone(before, after, owner, adds, key, Some(n), Some(v), r, u.node) && Shares(before, after, owner, n, v, u, r)
  {
    YieldsInherits(before, after, owner, n, v, r, u.node);
    hide Reps, Tree, Private, NoClash, AreaOf, Touched, Reach, PairsOf, Inherits, Shares;
  }

  /** Which pairs the new root shares with the old one. */
  ghost predicate RootShares<K, V>(before: Heap<K, V>, after: Heap<K, V>, owner: Owner?, h: K -> Word, key: K, value: Option<V>,
                                   r: Option<TNode<K, V>>, v: Option<Node<K, V>>, r': Option<TNode<K, V>>)
  {
    r.Some? && v.Some? && WfRoot(v.value, h) ==> Shares(before, after, owner, r.value, v.value, UpdateRoot(v.value, h, key, value), r')
  }

  lemma SameRoot<K, V>(heap: Heap<K, V>, owner: Owner?, adds: bool, key: K, r: Option<TNode<K, V>>, v: Option<Node<K, V>>)
    requires Stands(heap, r, v, owner)
    ensures RootDone(heap, heap, owner, adds, key, r, v, r, v)
  {
    if r.Some? { CellPairs(heap, r.value, v.value, owner); }
    hide Reps, Tree, Private, NoClash, AreaOf;
  }

  /** The first entry of an empty map. */
  lemma FirstRoot<K, V>(before: Heap<K, V>, after: Heap<K, V>, owner: Owner?, key: K, u: TNode<K, V>, p: Pair<K, V>, x: V)
    requires Made(before, after, owner, u, p, x) && after.nodes[u] == Listed([p]) && p.key == key
    ensures RootDone(before, after, owner, true, key, None, None, Some(u), Some(ArrayMap([(key, x)])))
  {
    var v := ArrayMap([(key, x)]);
    FlatReach(after, u, v, owner);
    FlatPrivate(after, u, v, owner);
    CellPairs(after, u, v, owner);
    assert HoldsAll(after.pairs, [p], [(key, x)]);
    hide Reps, Tree, Private, Reach, PairsOf;
  }

  /** What UpdateMap does around the update of the root. */
  lemma UpdateMapIs<K, V>(m: HashMap<K, V>, h: K -> Word, key: K, value: Option<V>)
    requires HashMaps.Valid(m, h)
    ensures HashMaps.Valid(UpdateMap(m, h, key, value), h)
    ensures m.root.None? ==>
              UpdateMap(m, h, key, value) == if value.None? then m else HashMap(1, Some(ArrayMap([(key, value.value)])))
    ensures m.root.Some? ==>
              && WfRoot(m.root.value, h)
              && var u := UpdateRoot(m.root.value, h, key, value);
                 && (!u.altered ==> UpdateMap(m, h, key, value) == m && u.node == m.root)
                 && (u.altered ==> UpdateMap(m, h, key, value)
                                   == HashMap(m.size + if u.resized then if value.None? then -1 else 1 else 0, u.node))
  {
    hide WfRoot, UpdateRoot, Entries;
    UpdateMapCorrect(m, h, key, value);
    if m.root.Some? {
      LastOne(m, h, key, value);
      Unaltered(m.root.value, h, key, value);
    }
  }

  /** Only the last entry leaves nothing behind. */
  lemma LastOne<K, V>(m: HashMap<K, V>, h: K -> Word, key: K, value: Option<V>)
    requires HashMaps.Valid(m, h) && m.root.Some?
    ensures var u := UpdateRoot(m.root.value, h, key, value);
            u.altered && u.node.None? ==> m.size == 1 && u.resized && value.None?
  {
    var node := m.root.value;
    var u := UpdateRoot(node, h, key, value);
    if u.altered && u.node.None? && !node.ArrayMap? {
      assert OnPath(h(key), []);
      UpdateCorrect(node, h, [], key, value, key);
      assert node.Value?;
    }
  }

  lemma Unaltered<K, V>(v: Node<K, V>, h: K -> Word, key: K, value: Option<V>)
    requires WfRoot(v, h)
    ensures !UpdateRoot(v, h, key, value).altered ==> UpdateRoot(v, h, key, value).node == Some(v)
  {
    if !v.ArrayMap? {
      assert OnPath(h(key), []);
      UpdateCorrect(v, h, [], key, value, key);
    }
    hide Update, Wf;
  }

  // ----- maps

  class HeapMap<K(==), V(==)> {
    var size: int
    var root: Option<TNode<K, V>>
    var ownerID: Owner?
    var altered: bool
    ghost var model: HashMap<K, V>

    ghost predicate Valid(w: World<K, V>, h: K -> Word)
      reads this, w.nodes, w.pairs
    {
      HashMaps.Valid(model, h) && size == model.size && Stands(Snapshot(w), root, model.root, ownerID)
    }

    ghost function MyArea(w: World<K, V>): Area<K, V>
      reads this, w.nodes, w.pairs
    {
      RootArea(Snapshot(w), root, model.root, ownerID)
    }

    constructor (size: int, root: Option<TNode<K, V>>, ownerID: Owner?, ghost model: HashMap<K, V>)
      ensures this.size == size && this.root == root && this.ownerID == ownerID && this.model == model && !altered
    {
      this.size, this.root, this.ownerID, this.model, altered := size, root, ownerID, model, false;
    }

    /** get. */
    method Get(ghost w: World<K, V>, h: K -> Word, key: K) returns (r: Option<V>)
      requires Valid(w, h)
      ensures r == if key in Abs(model) then Some(Abs(model)[key]) else None
    {
      hide Abs, Reps, Tree, Entries;
      HashMaps.LookupIsAbs(model, h, key);
      if root.None? {
        r := None;
      } else {
        r := GetFrom(w, model.root.value, [], root.value, 0, h, key);
      }
    }

    /** The root and size after an update. */
    method NextRoot(ghost w: World<K, V>, h: K -> Word, key: K, value: Option<V>)
      returns (next: Option<TNode<K, V>>, newSize: int, changed: bool, ghost w': World<K, V>)
      requires Valid(w, h)
      modifies MyArea(w).foot, MyArea(w).cells
      ensures w.nodes <= w'.nodes && w.pairs <= w'.pairs && fresh(w'.nodes - w.nodes) && fresh(w'.pairs - w.pairs)
      ensures HashMaps.Valid(UpdateMap(model, h, key, value), h) && newSize == UpdateMap(model, h, key, value).size
      ensures RootDone(old(Snapshot(w)), Snapshot(w'), ownerID, value.Some?, key, root, model.root, next, UpdateMap(model, h, key, value).root)
      ensures RootShares(old(Snapshot(w)), Snapshot(w'), ownerID, h, key, value, root, model.root, next)
      ensures !changed ==> UpdateMap(model, h, key, value) == model && next == root && Snapshot(w') == old(Snapshot(w))
    {
      hide Reps, Tree, Result, RootDone, Shares, UpdateRoot, UpdateMap, HashMaps.Valid, WfRoot, AreaOf;
      ghost var before := Snapshot(w);
      UpdateMapIs(model, h, key, value);
      newSize, changed, next, w' := size, false, root, w;
      if root.None? {
        RootSize(model, h);
        if value.None? {
          SameRoot(before, ownerID, false, key, root, model.root);
        } else {
          changed, newSize := true, 1;
          next, w' := FirstList(w, ownerID, key, value.value);
        }
      } else {
        var resized;
        ghost var u := UpdateRoot(model.root.value, h, key, value);
        next, resized, changed, w' := UpdateRootNode(w, model.root.value, root.value, ownerID, h, key, value);
        ResultRoot(before, Snapshot(w'), ownerID, value.Some?, key, root.value, model.root.value, u, next, resized, changed);
        ResultSame(before, Snapshot(w'), ownerID, value.Some?, key, root.value, model.root.value, u, next, resized, changed);
        if changed { newSize := size + if resized then if value.None? then -1 else 1 else 0; }
      }
    }

    /** updateMap, behind set (`Some`) and remove (`None`). */
    method Update(ghost w: World<K, V>, h: K -> Word, key: K, value: Option<V>) returns (r: HeapMap<K, V>, ghost w': World<K, V>)
      requires Valid(w, h)
      modifies if ownerID != null then {this} else {}, MyArea(w).foot, MyArea(w).cells
      ensures w.nodes <= w'.nodes && w.pairs <= w'.pairs && fresh(w'.nodes - w.nodes) && fresh(w'.pairs - w.pairs)
      ensures r.Valid(w', h) && r.model == UpdateMap(old(model), h, key, value)
      ensures r.ownerID == old(ownerID) && (old(ownerID) != null ==> r == this) && (r == this || fresh(r))
      ensures Touched(old(Snapshot(w)), Snapshot(w'), old(ownerID), key, old(MyArea(w)))
      ensures (value.Some? || old(NoClashRoot(model.root))) && old(PrivateRoot(Snapshot(w), root, model.root, ownerID))
              ==> PrivateRoot(Snapshot(w'), r.root, r.model.root, r.ownerID)
      ensures r.model.root.Some? ==> RootShares(old(Snapshot(w)), Snapshot(w'), old(ownerID), h, key, value, old(root), old(model.root), r.root)
      ensures Inherits(old(Snapshot(w)), old(MyArea(w)), r.MyArea(w'))
      ensures old(ownerID) != null && old(altered) ==> r.altered
      ensures old(ownerID) != null && !r.altered ==> r.model == old(model) && Snapshot(w') == old(Snapshot(w))
    {
      hide Reps, Tree, UpdateMap, HashMaps.Valid, AreaOf, Private, NoClash, Touched, Inherits, RootShares;
      ghost var next := UpdateMap(model, h, key, value);
      var newRoot, newSize, changed;
      newRoot, newSize, changed, w' := NextRoot(w, h, key, value);
      if !changed {
        r := this;
      } else if ownerID != null {
        size, root, altered, model := newSize, newRoot, true, next;
        r := this;
      } else if newRoot.Some? {
        r := new HeapMap(newSize, newRoot, null, next);
      } else {
        RootSize(next, h);
        r := new HeapMap(0, None, null, next);
      }
    }

    /** asMutable. */
    method AsMutable(ghost w: World<K, V>, h: K -> Word) returns (r: HeapMap<K, V>)
      requires Valid(w, h)
      ensures r.Valid(w, h) && r.model == model && r.ownerID != null
      ensures ownerID != null ==> r == this
      ensures ownerID == null ==> fresh(r) && fresh(r.ownerID) && !r.altered && r.root == root
      ensures ownerID == null ==> PrivateRoot(Snapshot(w), r.root, r.model.root, r.ownerID)
    {
      hide Reps, Tree, HashMaps.Valid, Private;
      if ownerID != null {
        r := this;
      } else {
        var owner := new Owner();
        if root.Some? { NewOwner(w, root.value, model.root.value, owner); }
        r := new HeapMap(size, root, owner, model);
      }
    }

    /** asImmutable. */
    method AsImmutable(ghost w: World<K, V>, h: K -> Word)
      requires Valid(w, h)
      modifies this
      ensures Valid(w, h) && ownerID == null && model == old(model) && root == old(root)
    {
      hide Reps, Tree, HashMaps.Valid;
      if root.Some? { NobodyOwns(Snapshot(w), root.value, model.root.value); }
      ownerID, altered := null, false;
    }
  }

  lemma RootSize<K, V>(m: HashMap<K, V>, h: K -> Word)
    requires HashMaps.Valid(m, h)
    ensures m.root.None? ==> m.size == 0
  {
  }

  lemma ResultSame<K, V>(before: Heap<K, V>, after: Heap<K, V>, owner: Owner?, adds: bool, key: K, n: TNode<K, V>, v: Node<K, V>,
                               u: Updated<K, V>, r: Option<TNode<K, V>>, resized: bool, altered: bool)
    requires Result(before, after, owner, adds, key, n, v, u, r, resized, altered)
    ensures resized == u.resized && altered == u.altered && (!altered ==> r == Some(n) && after == before)
  {
    hide Stepped, AreaOf, Private, NoClash, Shares;
  }

  method FirstList<K, V>(ghost w: World<K, V>, owner: Owner?, key: K, x: V)
    returns (r: Option<TNode<K, V>>, ghost w': World<K, V>)
    ensures w.nodes <= w'.nodes && w.pairs <= w'.pairs && fresh(w'.nodes - w.nodes) && fresh(w'.pairs - w.pairs)
    ensures RootDone(Snapshot(w), Snapshot(w'), owner, true, key, None, None, r, Some(ArrayMap([(key, x)])))
  {
    hide RootDone;
    ghost var before := Snapshot(w);
    var p, u;
    p, w' := MakePair(w, owner, key, x);
    u, w' := Make(w', owner, Listed([p]));
    r := Some(u);
    FirstRoot(before, Snapshot(w'), owner, key, u, p, x);
  }

  /** Nothing belongs yet to an owner that has just been made. */
  lemma NewOwner<K, V>(w: World<K, V>, n: TNode<K, V>, v: Node<K, V>, owner: Owner)
    requires Reps(Snapshot(w), n, v) && forall m :: m in w.nodes ==> m.ownerID != owner
    ensures Tree(Snapshot(w), n, v, owner) && Private(Snapshot(w), n, v, owner)
  {
    Within(Snapshot(w), n, v);
    assert n in Reach(Snapshot(w), n, v);
    hide Reach, Reps, PairsOf;
  }

  lemma NobodyOwns<K, V>(heap: Heap<K, V>, n: TNode<K, V>, v: Node<K, V>)
    ensures Tree(heap, n, v, null)
  {
    hide Reach;
  }
}
