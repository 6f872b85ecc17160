/** Updating the nodes without children, and merging a leaf with a new entry. */
module MapLeaves {
  import opened Bits
  import opened Options
  import opened Owners
  import opened HashTrie
  import opened HashTrieSlots
  import opened HashTrieCorrect
  import opened MapNodes
  import opened MapEdits
  import opened MapLoops

  ghost predicate Flat<K, V>(v: Node<K, V>) {
    v.ArrayMap? || v.Collision? || v.Value?
  }

  lemma FlatReach<K, V>(heap: Heap<K, V>, n: TNode<K, V>, v: Node<K, V>, owner: Owner?)
    requires Flat(v)
    ensures forall s: nat :: Below(heap, n, v, s) == None
    ensures Reach(heap, n, v) == {n} && Tree(heap, n, v, owner)
    ensures PairsOf(heap, n, v) == if n in heap.nodes then OwnPairs(heap.nodes[n]) else {}
    ensures n in heap.nodes && Alike(heap.pairs, heap.nodes[n], v) ==> Reps(heap, n, v)
  {
    hide OwnPairs, Owned;
  }

  /** A node without children was edited in place or made. */
  lemma FlatStepped<K, V>(before: Heap<K, V>, after: Heap<K, V>, owner: Owner?, key: K, area: Area<K, V>, u: TNode<K, V>, v: Node<K, V>)
    requires Flat(v) && u in after.nodes && after.nodes == before.nodes[u := after.nodes[u]] && Alike(after.pairs, after.nodes[u], v)
    requires u in before.nodes ==> u in area.reach && (after.nodes[u] != before.nodes[u] ==> u in area.foot)
    requires before.pairs.Keys <= after.pairs.Keys
    requires forall p :: p in before.pairs && after.pairs[p] != before.pairs[p] ==> p.key == key && p in area.cells
    requires forall p :: p in OwnPairs(after.nodes[u]) && p in before.pairs ==> p in area.pairs
    ensures Stepped(before, after, owner, key, area, Some(u), Some(v))
  {
    FlatReach(after, u, v, owner);
    hide Reach, PairsOf, Reps, Tree, Alike, OwnPairs;
  }

  lemma FlatPrivate<K, V>(heap: Heap<K, V>, u: TNode<K, V>, v: Node<K, V>, owner: Owner?)
    requires Flat(v)
    requires u in heap.nodes && heap.nodes[u].Leaf? && Owned(u, owner) ==> heap.nodes[u].entry.maker == owner
    ensures Private(heap, u, v, owner)
  {
    FlatReach(heap, u, v, owner);
    hide Reach, Tree;
  }

  // ----- a new node over one or two children

  /** The children in the slots `a` and `b` of a new node. */
  datatype Build<K, V> = Build(before: Heap<K, V>, after: Heap<K, V>, owner: Owner?, u: TNode<K, V>, r: Node<K, V>,
                               a: nat, x: (TNode<K, V>, Node<K, V>), b: nat, y: Option<(TNode<K, V>, Node<K, V>)>)

  ghost function Built<K, V>(e: Build<K, V>, t: nat): Option<(TNode<K, V>, Node<K, V>)> {
    if t == e.a then Some(e.x) else if t == e.b then e.y else None
  }

  ghost predicate Builds<K, V>(e: Build<K, V>) {
    && e.a < 32 && e.b < 32 && e.u !in e.before.nodes && e.u.ownerID == e.owner && e.u in e.after.nodes
    && e.after == Heap(e.before.nodes[e.u := e.after.nodes[e.u]], e.before.pairs)
    && e.r.Bitmap? && Alike(e.after.pairs, e.after.nodes[e.u], e.r)
    && (forall t: nat :: Below(e.after, e.u, e.r, t) == Built(e, t))
    && (forall t: nat :: t < 32 ==> (Kid(e.r, t).Some? <==> RefAt(e.after.nodes[e.u], t).Some?))
    && Reps(e.before, e.x.0, e.x.1) && Tree(e.before, e.x.0, e.x.1, e.owner)
    && (e.y.Some? ==> e.a != e.b && Reps(e.before, e.y.value.0, e.y.value.1) && Tree(e.before, e.y.value.0, e.y.value.1, e.owner)
                      && Apart(e.before, e.x, e.y.value, e.owner))
  }

  lemma BuiltKept<K, V>(e: Build<K, V>, t: nat)
    requires Builds(e) && Built(e, t).Some?
    ensures var b := Built(e, t).value;
            && Reps(e.after, b.0, b.1) && Tree(e.after, b.0, b.1, e.owner) && e.u !in Reach(e.after, b.0, b.1)
            && Reach(e.after, b.0, b.1) == Reach(e.before, b.0, b.1) && PairsOf(e.after, b.0, b.1) == PairsOf(e.before, b.0, b.1)
  {
    hide Reach, PairsOf, Reps, Tree, Alike, RefAt, Below, Kid, Apart, Agree;
    var b := Built(e, t).value;
    OldAgree(e.before, e.after, b.0, b.1);
    Frame(e.before, e.after, b.0, b.1, e.owner);
  }

  /** Nodes and pairs of the old heap are kept by new ones. */
  lemma OldAgree<K, V>(a: Heap<K, V>, b: Heap<K, V>, n: TNode<K, V>, v: Node<K, V>)
    requires Reps(a, n, v)
    requires forall m :: m in a.nodes ==> m in b.nodes && b.nodes[m] == a.nodes[m]
    requires forall p :: p in a.pairs ==> p in b.pairs && b.pairs[p] == a.pairs[p]
    ensures Agree(a, b, Reach(a, n, v), PairsOf(a, n, v)) && Reach(a, n, v) <= a.nodes.Keys
  {
    hide Reach, PairsOf, Reps;
    Within(a, n, v);
  }

  lemma Within<K, V>(heap: Heap<K, V>, n: TNode<K, V>, v: Node<K, V>)
    requires Reps(heap, n, v)
    ensures Reach(heap, n, v) <= heap.nodes.Keys && PairsOf(heap, n, v) <= heap.pairs.Keys
  {
    hide Reach, PairsOf, Reps;
    forall m | m in Reach(heap, n, v) ensures m in heap.nodes { ReachedNodes(heap, n, v, m); }
    forall p | p in PairsOf(heap, n, v) ensures p in heap.pairs { ReachedPairs(heap, n, v, p); }
  }

  lemma BuildReps<K, V>(e: Build<K, V>)
    requires Builds(e)
    ensures Reps(e.after, e.u, e.r) && Tree(e.after, e.u, e.r, e.owner)
  {
    forall t: nat | Built(e, t).Some?
      ensures var b := Built(e, t).value;
              Reps(e.after, b.0, b.1) && Tree(e.after, b.0, b.1, e.owner) && e.u !in Reach(e.after, b.0, b.1)
    {
      BuiltKept(e, t);
    }
    hide Alike;
    BuildRepsUp(e);
    BuildTree(e);
  }

  lemma BuildRepsUp<K, V>(e: Build<K, V>)
    requires Builds(e)
    requires forall t: nat :: Built(e, t).Some? ==> Reps(e.after, Built(e, t).value.0, Built(e, t).value.1)
    ensures Reps(e.after, e.u, e.r)
  {
    hide Alike, Reach, Tree, Reps, PairsOf, Built, RefAt, Kid;
    forall s: nat | s < 32 && Kid(e.r, s).Some? ensures Reps(e.after, RefAt(e.after.nodes[e.u], s).value, Kid(e.r, s).value) {
      assert Below(e.after, e.u, e.r, s) == Some((RefAt(e.after.nodes[e.u], s).value, Kid(e.r, s).value));
    }
    RepsUp(e.after, e.u, e.r);
  }

  lemma BuildTree<K, V>(e: Build<K, V>)
    requires Builds(e)
    requires forall t: nat :: Built(e, t).Some? ==>
               var b := Built(e, t).value; Tree(e.after, b.0, b.1, e.owner) && e.u !in Reach(e.after, b.0, b.1)
    ensures Tree(e.after, e.u, e.r, e.owner)
  {
    hide Alike, Reach, Reps, PairsOf, RefAt, Kid, Below, Tree, Built;
    forall t: nat, t': nat | t != t' && Built(e, t).Some? && Built(e, t').Some?
      ensures Apart(e.after, Built(e, t).value, Built(e, t').value, e.owner)
    {
      BuiltApart(e, t, t');
    }
    if Owned(e.u, e.owner) {
      BuildTreeOf(e);
    } else {
      BuildUnowned(e);
    }
  }

  lemma BuiltApart<K, V>(e: Build<K, V>, t: nat, t': nat)
    requires Builds(e) && t != t' && Built(e, t).Some? && Built(e, t').Some?
    ensures Apart(e.after, Built(e, t).value, Built(e, t').value, e.owner)
  {
    BuiltKept(e, t);
    BuiltKept(e, t');
    hide Alike, Reach, Reps, PairsOf, RefAt, Kid, Below, Tree;
  }

  lemma BuildTreeOf<K, V>(e: Build<K, V>)
    requires Owned(e.u, e.owner) && forall t: nat :: Below(e.after, e.u, e.r, t) == Built(e, t)
    requires forall t: nat :: Built(e, t).Some? ==>
               var b := Built(e, t).value; Tree(e.after, b.0, b.1, e.owner) && e.u !in Reach(e.after, b.0, b.1)
    requires forall t: nat, t': nat :: t != t' && Built(e, t).Some? && Built(e, t').Some? ==>
               Apart(e.after, Built(e, t).value, Built(e, t').value, e.owner)
    ensures Tree(e.after, e.u, e.r, e.owner)
  {
    hide Below, Built, Reach, Apart;
  }

  lemma BuildUnowned<K, V>(e: Build<K, V>)
    requires Builds(e) && !Owned(e.u, e.owner)
    ensures Tree(e.after, e.u, e.r, e.owner)
  {
    hide Reach, Reps, Alike, RefAt, Below, PairsOf, Kid;
    assert e.owner == null;
  }

  lemma BuildReached<K, V>(e: Build<K, V>, m: TNode<K, V>)
    requires Builds(e) && m in Reach(e.after, e.u, e.r)
    ensures m == e.u || m in Reach(e.before, e.x.0, e.x.1) || (e.y.Some? && m in Reach(e.before, e.y.value.0, e.y.value.1))
  {
    hide Reps, Tree, Below, RefAt, PairsOf, Alike, Kid;
    if m != e.u {
      var t: nat :| t < 32 && Below(e.after, e.u, e.r, t).Some?
                    && m in Reach(e.after, Below(e.after, e.u, e.r, t).value.0, Below(e.after, e.u, e.r, t).value.1);
      BuiltKept(e, t);
    }
  }

  lemma BuildPairs<K, V>(e: Build<K, V>, p: Pair<K, V>)
    requires Builds(e) && p in PairsOf(e.after, e.u, e.r)
    ensures p in PairsOf(e.before, e.x.0, e.x.1) || (e.y.Some? && p in PairsOf(e.before, e.y.value.0, e.y.value.1))
  {
    hide Reps, Tree, Below, RefAt, Reach, Kid;
    var t: nat :| t < 32 && Below(e.after, e.u, e.r, t).Some?
                  && p in PairsOf(e.after, Below(e.after, e.u, e.r, t).value.0, Below(e.after, e.u, e.r, t).value.1);
    BuiltKept(e, t);
  }

  lemma OneBelow<K, V>(heap: Heap<K, V>, n: TNode<K, V>, u: nat, x: (TNode<K, V>, Node<K, V>))
    requires u < 32 && n in heap.nodes && heap.nodes[n] == Packed(Or(Bit(u), Bit(u)), [x.0])
    ensures var r := Bitmap(Or(Bit(u), Bit(u)), [x.1]);
            && Alike(heap.pairs, heap.nodes[n], r)
            && (forall t: nat :: Below(heap, n, r, t) == if t == u then Some(x) else None)
            && (forall t: nat :: t < 32 ==> (Kid(r, t).Some? <==> RefAt(heap.nodes[n], t).Some?))
  {
    hide Child, Or;
    OrSame(Bit(u));
    var r := Bitmap(Or(Bit(u), Bit(u)), [x.1]);
    forall t: nat ensures Below(heap, n, r, t) == if t == u then Some(x) else None {
      if t < 32 {
        OneSlot(u, x.0, t);
        OneSlot(u, x.1, t);
      }
    }
    forall t: nat | t < 32 ensures Kid(r, t).Some? <==> RefAt(heap.nodes[n], t).Some? {
      OneSlot(u, x.0, t);
      OneSlot(u, x.1, t);
    }
  }

  lemma TwoBelow<K, V>(heap: Heap<K, V>, n: TNode<K, V>, u: nat, s: nat, x: (TNode<K, V>, Node<K, V>), y: (TNode<K, V>, Node<K, V>))
    requires u < 32 && s < 32 && u != s
    requires n in heap.nodes && heap.nodes[n] == Packed(Or(Bit(u), Bit(s)), if u < s then [x.0, y.0] else [y.0, x.0])
    ensures var r := Bitmap(Or(Bit(u), Bit(s)), if u < s then [x.1, y.1] else [y.1, x.1]);
            && Alike(heap.pairs, heap.nodes[n], r)
            && (forall t: nat :: Below(heap, n, r, t) == if t == u then Some(x) else if t == s then Some(y) else None)
            && (forall t: nat :: t < 32 ==> (Kid(r, t).Some? <==> RefAt(heap.nodes[n], t).Some?))
  {
    hide Child, Or;
    var r := Bitmap(Or(Bit(u), Bit(s)), if u < s then [x.1, y.1] else [y.1, x.1]);
    forall t: nat ensures Below(heap, n, r, t) == if t == u then Some(x) else if t == s then Some(y) else None {
      if t < 32 {
        TwoSlots(u, s, x.0, y.0, t);
        TwoSlots(u, s, x.1, y.1, t);
      }
    }
    forall t: nat | t < 32 ensures Kid(r, t).Some? <==> RefAt(heap.nodes[n], t).Some? {
      TwoSlots(u, s, x.0, y.0, t);
      TwoSlots(u, s, x.1, y.1, t);
    }
  }

  // ----- merging

  /** A heap with new nodes only. */
  ghost predicate Grew<K, V>(before: Heap<K, V>, after: Heap<K, V>) {
    && before.nodes.Keys <= after.nodes.Keys && after.pairs == before.pairs
    && forall m :: m in before.nodes ==> after.nodes[m] == before.nodes[m]
  }

  /** What `x` reaches is `n`, or new and without a pair but `p`; its pairs are `p` and some of `pairs`. */
  ghost predicate From<K, V>(before: Heap<K, V>, heap: Heap<K, V>, n: TNode<K, V>, p: Pair<K, V>, pairs: set<Pair<K, V>>,
                             x: (TNode<K, V>, Node<K, V>))
  {
    && (forall m :: m in Reach(heap, x.0, x.1) ==> m == n || NewBut(before, heap, m, p))
    && (forall q :: q in PairsOf(heap, x.0, x.1) ==> q == p || q in pairs)
  }

  ghost predicate NewBut<K, V>(before: Heap<K, V>, heap: Heap<K, V>, m: TNode<K, V>, p: Pair<K, V>) {
    m !in before.nodes && m in heap.nodes && (heap.nodes[m].Leaf? ==> heap.nodes[m].entry == p)
  }

  /** New nodes over `n` and the pair `p` stand for `v`; the heap is otherwise as it was. */
  ghost predicate Merged<K, V>(before: Heap<K, V>, after: Heap<K, V>, owner: Owner?, n: TNode<K, V>, p: Pair<K, V>,
                               pairs: set<Pair<K, V>>, r: TNode<K, V>, v: Node<K, V>)
  {
    Grew(before, after) && Reps(after, r, v) && Tree(after, r, v, owner) && From(before, after, n, p, pairs, (r, v))
  }

  lemma BuildMerged<K, V>(e: Build<K, V>, before: Heap<K, V>, n: TNode<K, V>, p: Pair<K, V>, pairs: set<Pair<K, V>>)
    requires Builds(e) && Grew(before, e.before) && n in before.nodes
    requires From(before, e.before, n, p, pairs, e.x) && (e.y.Some? ==> From(before, e.before, n, p, pairs, e.y.value))
    requires e.after.nodes[e.u].Packed?
    ensures Merged(before, e.after, e.owner, n, p, pairs, e.u, e.r)
  {
    hide Reps, Tree, Reach, PairsOf, Below, RefAt, Kid, Alike, Builds, From, NewBut;
    BuildReps(e);
    forall m | m in Reach(e.after, e.u, e.r) ensures m == n || NewBut(before, e.after, m, p) {
      BuildNew(e, before, n, p, pairs, m);
    }
    forall q | q in PairsOf(e.after, e.u, e.r) ensures q == p || q in pairs {
      BuildOld(e, before, n, p, pairs, q);
    }
    BuildGrew(e, before);
    assert From(before, e.after, n, p, pairs, (e.u, e.r)) by { FromOf(before, e.after, n, p, pairs, (e.u, e.r)); }
  }

  lemma FromOf<K, V>(before: Heap<K, V>, heap: Heap<K, V>, n: TNode<K, V>, p: Pair<K, V>, pairs: set<Pair<K, V>>,
                     x: (TNode<K, V>, Node<K, V>))
    requires forall m :: m in Reach(heap, x.0, x.1) ==> m == n || NewBut(before, heap, m, p)
    requires forall q :: q in PairsOf(heap, x.0, x.1) ==> q == p || q in pairs
    ensures From(before, heap, n, p, pairs, x)
  {
    hide Reach, PairsOf, NewBut;
  }

  lemma BuildGrew<K, V>(e: Build<K, V>, before: Heap<K, V>)
    requires Builds(e) && Grew(before, e.before)
    ensures Grew(before, e.after)
  {
    hide Reps, Tree, Reach, PairsOf, Below, RefAt, Kid, Alike;
  }

  lemma BuildNew<K, V>(e: Build<K, V>, before: Heap<K, V>, n: TNode<K, V>, p: Pair<K, V>, pairs: set<Pair<K, V>>, m: TNode<K, V>)
    requires Builds(e) && Grew(before, e.before) && m in Reach(e.after, e.u, e.r)
    requires From(before, e.before, n, p, pairs, e.x) && (e.y.Some? ==> From(before, e.before, n, p, pairs, e.y.value))
    requires e.after.nodes[e.u].Packed?
    ensures m == n || NewBut(before, e.after, m, p)
  {
    BuildReached(e, m);
    hide Reps, Tree, Reach, PairsOf, Below, RefAt, Kid, Alike;
  }

  lemma BuildOld<K, V>(e: Build<K, V>, before: Heap<K, V>, n: TNode<K, V>, p: Pair<K, V>, pairs: set<Pair<K, V>>, q: Pair<K, V>)
    requires Builds(e) && q in PairsOf(e.after, e.u, e.r)
    requires From(before, e.before, n, p, pairs, e.x) && (e.y.Some? ==> From(before, e.before, n, p, pairs, e.y.value))
    ensures q == p || q in pairs
  {
    BuildPairs(e, q);
    hide Reps, Tree, Reach, PairsOf, Below, RefAt, Kid, Alike, Builds;
  }

  lemma ClashMerged<K, V>(before: Heap<K, V>, after: Heap<K, V>, owner: Owner?, n: TNode<K, V>, v: Node<K, V>, p: Pair<K, V>,
                          u: TNode<K, V>)
    requires Reps(before, n, v) && v.Value? && p in before.pairs && u !in before.nodes && u in after.nodes
    requires after == Heap(before.nodes[u := after.nodes[u]], before.pairs)
    requires after.nodes[u] == Clash(v.keyHash, [before.nodes[n].entry, p])
    ensures Merged(before, after, owner, n, p, PairsOf(before, n, v), u, Collision(v.keyHash, [v.entry, (p.key, before.pairs[p])]))
  {
    var r := Collision(v.keyHash, [v.entry, (p.key, before.pairs[p])]);
    FlatReach(before, n, v, owner);
    FlatReach(after, u, r, owner);
    hide Reach, Tree, Below, PairsOf, Reps;
    assert Holds(before.pairs, before.nodes[n].entry, v.entry) by { LeafHolds(before, n, v); }
    assert HoldsAll(after.pairs, after.nodes[u].entries, r.entries);
  }

  lemma LeafHolds<K, V>(heap: Heap<K, V>, n: TNode<K, V>, v: Node<K, V>)
    requires Reps(heap, n, v) && v.Value?
    ensures heap.nodes[n].Leaf? && heap.nodes[n].keyHash == v.keyHash && Holds(heap.pairs, heap.nodes[n].entry, v.entry)
  {
  }

  lemma UpMerged<K, V>(before: Heap<K, V>, mid: Heap<K, V>, after: Heap<K, V>, owner: Owner?, n: TNode<K, V>, p: Pair<K, V>,
                       pairs: set<Pair<K, V>>, u: nat, x: (TNode<K, V>, Node<K, V>), top: TNode<K, V>)
    requires Merged(before, mid, owner, n, p, pairs, x.0, x.1) && u < 32 && n in before.nodes
    requires top !in mid.nodes && top.ownerID == owner && top in after.nodes
    requires after == Heap(mid.nodes[top := after.nodes[top]], mid.pairs)
    requires after.nodes[top] == Packed(Or(Bit(u), Bit(u)), [x.0])
    ensures Merged(before, after, owner, n, p, pairs, top, Bitmap(Or(Bit(u), Bit(u)), [x.1]))
  {
    var e := Build(mid, after, owner, top, Bitmap(Or(Bit(u), Bit(u)), [x.1]), u, x, u, None);
    OneBelow(after, top, u, x);
    hide Or, Bit, Below, Reach, PairsOf, Reps, Tree, RefAt, Kid, Alike, From;
    assert Builds(e);
    BuildMerged(e, before, n, p, pairs);
  }

  lemma PartMerged<K, V>(before: Heap<K, V>, mid: Heap<K, V>, after: Heap<K, V>, owner: Owner?, n: TNode<K, V>, v: Node<K, V>,
                         p: Pair<K, V>, u: nat, s: nat, leaf: TNode<K, V>, keyHash: Word, top: TNode<K, V>)
    requires Reps(before, n, v) && IsLeaf(v) && p in before.pairs && u < 32 && s < 32 && u != s
    requires leaf !in before.nodes && leaf.ownerID == owner && mid == Heap(before.nodes[leaf := Leaf(keyHash, p)], before.pairs)
    requires top !in mid.nodes && top.ownerID == owner && top in after.nodes
    requires after == Heap(mid.nodes[top := after.nodes[top]], mid.pairs)
    requires after.nodes[top] == Packed(Or(Bit(u), Bit(s)), if u < s then [n, leaf] else [leaf, n])
    ensures var w := Value(keyHash, (p.key, before.pairs[p]));
            Merged(before, after, owner, n, p, PairsOf(before, n, v), top, Bitmap(Or(Bit(u), Bit(s)), if u < s then [v, w] else [w, v]))
  {
    var w := Value(keyHash, (p.key, before.pairs[p]));
    var e := Build(mid, after, owner, top, Bitmap(Or(Bit(u), Bit(s)), if u < s then [v, w] else [w, v]), u, (n, v), s, Some((leaf, w)));
    TwoBelow(after, top, u, s, (n, v), (leaf, w));
    OldLeaf(before, mid, owner, n, v, p, PairsOf(before, n, v));
    NewLeaf(before, mid, owner, n, p, PairsOf(before, n, v), leaf, keyHash);
    LeavesApart(mid, owner, n, v, leaf, w);
    hide Or, Bit, Below, Reach, PairsOf, Reps, Tree, RefAt, Kid, Alike, From, Apart;
    assert Builds(e);
    BuildMerged(e, before, n, p, PairsOf(before, n, v));
  }

  lemma OldLeaf<K, V>(before: Heap<K, V>, mid: Heap<K, V>, owner: Owner?, n: TNode<K, V>, v: Node<K, V>, p: Pair<K, V>, pairs: set<Pair<K, V>>)
    requires Reps(before, n, v) && IsLeaf(v) && Grew(before, mid) && PairsOf(before, n, v) <= pairs
    ensures Reps(mid, n, v) && Tree(mid, n, v, owner) && From(before, mid, n, p, pairs, (n, v))
  {
    FlatReach(before, n, v, owner);
    FlatReach(mid, n, v, owner);
    AlikeOf(before, n, v);
    hide Reach, PairsOf, Reps, Tree, Below, OwnPairs, Alike;
  }

  lemma NewLeaf<K, V>(before: Heap<K, V>, mid: Heap<K, V>, owner: Owner?, n: TNode<K, V>, p: Pair<K, V>, pairs: set<Pair<K, V>>,
                      leaf: TNode<K, V>, keyHash: Word)
    requires leaf !in before.nodes && mid == Heap(before.nodes[leaf := Leaf(keyHash, p)], before.pairs) && p in before.pairs
    ensures var w := Value(keyHash, (p.key, before.pairs[p]));
            Reps(mid, leaf, w) && Tree(mid, leaf, w, owner) && From(before, mid, n, p, pairs, (leaf, w))
  {
    var w := Value(keyHash, (p.key, before.pairs[p]));
    FlatReach(mid, leaf, w, owner);
    assert Alike(mid.pairs, mid.nodes[leaf], w);
    hide Reach, PairsOf, Reps, Tree, Below, Alike;
  }

  lemma LeavesApart<K, V>(heap: Heap<K, V>, owner: Owner?, n: TNode<K, V>, v: Node<K, V>, leaf: TNode<K, V>, w: Node<K, V>)
    requires IsLeaf(v) && IsLeaf(w) && n != leaf
    ensures Apart(heap, (n, v), (leaf, w), owner)
  {
    FlatReach(heap, n, v, owner);
    FlatReach(heap, leaf, w, owner);
    hide Reach;
  }

  lemma AlikeOf<K, V>(heap: Heap<K, V>, n: TNode<K, V>, v: Node<K, V>)
    requires Reps(heap, n, v)
    ensures n in heap.nodes && Alike(heap.pairs, heap.nodes[n], v)
  {
  }

  /** The hash of a leaf. */
  method HashOf<K, V>(ghost w: World<K, V>, ghost v: Node<K, V>, node: TNode<K, V>) returns (keyHash: Word)
    requires Reps(Snapshot(w), node, v) && IsLeaf(v)
    ensures keyHash == v.keyHash
  {
    AlikeOf(Snapshot(w), node, v);
    hide Reps;
    keyHash := match node.shape case Leaf(keyHash, _) => keyHash case Clash(keyHash, _) => keyHash;
  }

  method Clashed<K, V>(ghost w: World<K, V>, ghost v: Node<K, V>, node: TNode<K, V>, owner: Owner?, keyHash: Word, p: Pair<K, V>)
    returns (r: TNode<K, V>, ghost w': World<K, V>)
    requires Reps(Snapshot(w), node, v) && v.Value? && v.keyHash == keyHash && p in w.pairs
    ensures w.nodes <= w'.nodes && fresh(w'.nodes - w.nodes) && w'.pairs == w.pairs
    ensures Merged(Snapshot(w), Snapshot(w'), owner, node, p, PairsOf(Snapshot(w), node, v), r,
                   Collision(keyHash, [v.entry, (p.key, p.value)]))
  {
    ghost var before := Snapshot(w);
    LeafHolds(before, node, v);
    hide Reach, PairsOf, Reps, Tree, Merged, Holds;
    r, w' := Make(w, owner, Clash(keyHash, [node.shape.entry, p]));
    ClashMerged(before, Snapshot(w'), owner, node, v, p, r);
  }

  method Parted<K, V>(ghost w: World<K, V>, ghost v: Node<K, V>, node: TNode<K, V>, owner: Owner?, u: nat, s: nat, keyHash: Word, p: Pair<K, V>)
    returns (r: TNode<K, V>, ghost w': World<K, V>)
    requires Reps(Snapshot(w), node, v) && IsLeaf(v) && p in w.pairs && u < 32 && s < 32 && u != s
    ensures w.nodes <= w'.nodes && fresh(w'.nodes - w.nodes) && w'.pairs == w.pairs
    ensures var leaf := Value(keyHash, (p.key, p.value));
            Merged(Snapshot(w), Snapshot(w'), owner, node, p, PairsOf(Snapshot(w), node, v), r,
                   Bitmap(Or(Bit(u), Bit(s)), if u < s then [v, leaf] else [leaf, v]))
  {
    hide Reach, PairsOf, Reps, Tree, Merged, Or, Bit;
    ghost var before := Snapshot(w);
    var leaf;
    leaf, w' := Make(w, owner, Leaf(keyHash, p));
    ghost var mid := Snapshot(w');
    r, w' := Make(w', owner, Packed(Or(Bit(u), Bit(s)), if u < s then [node, leaf] else [leaf, node]));
    PartMerged(before, mid, Snapshot(w'), owner, node, v, p, u, s, leaf, keyHash, r);
  }

  method Raised<K, V>(ghost before: Heap<K, V>, ghost w: World<K, V>, ghost pairs: set<Pair<K, V>>, ghost node: TNode<K, V>,
                      owner: Owner?, u: nat, s: nat, below: TNode<K, V>, ghost v: Node<K, V>, ghost p: Pair<K, V>)
    returns (r: TNode<K, V>, ghost w': World<K, V>)
    requires Merged(before, Snapshot(w), owner, node, p, pairs, below, v) && u == s < 32 && node in before.nodes
    ensures w.nodes <= w'.nodes && fresh(w'.nodes - w.nodes) && w'.pairs == w.pairs
    ensures Merged(before, Snapshot(w'), owner, node, p, pairs, r, Bitmap(Or(Bit(u), Bit(s)), [v]))
  {
    hide Reach, PairsOf, Reps, Tree, Merged, Or, Bit;
    ghost var mid := Snapshot(w);
    r, w' := Make(w, owner, Packed(Or(Bit(u), Bit(s)), [below]));
    UpMerged(before, mid, Snapshot(w'), owner, node, p, pairs, u, (below, v), r);
  }

  /** mergeIntoNode. */
  method Merge<K, V>(ghost w: World<K, V>, ghost path: seq<nat>, ghost v: Node<K, V>, node: TNode<K, V>, owner: Owner?,
                     level: nat, keyHash: Word, p: Pair<K, V>)
    returns (r: TNode<K, V>, ghost w': World<K, V>)
    requires Reps(Snapshot(w), node, v) && IsLeaf(v) && level == |path| && p in w.pairs
    requires OnPath(keyHash, path) && OnPath(v.keyHash, path) && (v.keyHash == keyHash ==> v.Value?)
    ensures w.nodes <= w'.nodes && fresh(w'.nodes - w.nodes) && w'.pairs == w.pairs
    ensures Merged(Snapshot(w), Snapshot(w'), owner, node, p, PairsOf(Snapshot(w), node, v), r,
                   HashTrie.Merge(v, path, level, keyHash, (p.key, p.value)))
    decreases 7 - level
  {
    hide Reach, PairsOf, Reps, Tree, Merged, Or, Bit, Slot, OnPath;
    var nodeHash := HashOf(w, v, node);
    if nodeHash == keyHash {
      r, w' := Clashed(w, v, node, owner, keyHash, p);
    } else {
      DistinctHashesPart(v.keyHash, keyHash, path);
      var u, s := Slot(nodeHash, level), Slot(keyHash, level);
      OnPathChild(v.keyHash, path);
      OnPathChild(keyHash, path);
      AlikeOf(Snapshot(w), node, v);
      if u == s {
        var below;
        below, w' := Merge(w, path + [u], v, node, owner, level + 1, keyHash, p);
        r, w' := Raised(Snapshot(w), w', PairsOf(Snapshot(w), node, v), node, owner, u, s, below,
                        HashTrie.Merge(v, path + [u], level + 1, keyHash, (p.key, p.value)), p);
      } else {
        r, w' := Parted(w, v, node, owner, u, s, keyHash, p);
      }
    }
  }
}
