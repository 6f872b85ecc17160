/** What one update may do to the heap, and how the result of updating a child becomes the result of its parent. */
module MapEdits {
  import opened Bits
  import opened Options
  import opened Owners
  import opened HashTrie
  import opened HashTrieSlots
  import opened HashTrieCorrect
  import opened MapNodes

  /** The part of a heap an update may edit (`foot`, `cells`), and what it can hand on (`reach`, `pairs`). */
  datatype Area<K, V> = Area(foot: set<TNode<K, V>>, cells: set<Pair<K, V>>, reach: set<TNode<K, V>>, pairs: set<Pair<K, V>>)

  ghost function AreaOf<K, V>(heap: Heap<K, V>, n: TNode<K, V>, v: Node<K, V>, owner: Owner?): Area<K, V> {
    var foot := Foot(heap, n, v, owner);
    Area(foot, Cells(heap, foot), Reach(heap, n, v), PairsOf(heap, n, v))
  }

  ghost function KidArea<K, V>(heap: Heap<K, V>, n: TNode<K, V>, v: Node<K, V>, s: nat, owner: Owner?): Area<K, V> {
    match Below(heap, n, v, s)
    case None => Area({}, {}, {}, {})
    case Some(b) => AreaOf(heap, b.0, b.1, owner)
  }

  /** Only owned nodes and the pairs of owned leaves change, the latter only under the updated key. */
  ghost predicate Touched<K, V>(before: Heap<K, V>, after: Heap<K, V>, owner: Owner?, key: K, area: Area<K, V>) {
    && before.nodes.Keys <= after.nodes.Keys && before.pairs.Keys <= after.pairs.Keys
    && (forall m :: m in before.nodes && after.nodes[m] != before.nodes[m] ==> m in area.foot)
    && (forall p :: p in before.pairs && after.pairs[p] != before.pairs[p] ==> p.key == key && p in area.cells)
  }

  /** The result stands for `v`; what it reaches is new or was reached before. */
  ghost predicate Yields<K, V>(before: Heap<K, V>, after: Heap<K, V>, owner: Owner?, area: Area<K, V>,
                               r: Option<TNode<K, V>>, v: Option<Node<K, V>>)
  {
    && (r.Some? <==> v.Some?)
    && (r.Some? ==>
          && Reps(after, r.value, v.value) && Tree(after, r.value, v.value, owner)
          && (forall m :: m in Reach(after, r.value, v.value) && m in before.nodes ==> m in area.reach)
          && (forall p :: p in PairsOf(after, r.value, v.value) && p in before.pairs ==> p in area.pairs))
  }

  ghost predicate Stepped<K, V>(before: Heap<K, V>, after: Heap<K, V>, owner: Owner?, key: K, area: Area<K, V>,
                                r: Option<TNode<K, V>>, v: Option<Node<K, V>>)
  {
    Touched(before, after, owner, key, area) && Yields(before, after, owner, area, r, v)
  }

  // ----- keys and paths

  /** A pair sits on the path of its key's hash. */
  lemma {:induction false} PairsOnPath<K, V>(heap: Heap<K, V>, n: TNode<K, V>, v: Node<K, V>, h: K -> Word, path: seq<nat>, p: Pair<K, V>)
    requires Reps(heap, n, v) && Wf(v, h, path) && p in PairsOf(heap, n, v)
    ensures OnPath(h(p.key), path) && p in heap.pairs
    decreases v
  {
    if p in OwnPairs(heap.nodes[n]) {
      OwnPairOnPath(heap, n, v, h, path, p);
    } else {
      var s: nat :| s < 32 && Below(heap, n, v, s).Some? && p in PairsOf(heap, Below(heap, n, v, s).value.0, Below(heap, n, v, s).value.1);
      BelowWf(heap, n, v, h, path, s);
      PairsOnPath(heap, Below(heap, n, v, s).value.0, Below(heap, n, v, s).value.1, h, path + [s], p);
      assert forall i :: 0 <= i < |path| ==> (path + [s])[i] == path[i];
    }
  }

  lemma BelowWf<K, V>(heap: Heap<K, V>, n: TNode<K, V>, v: Node<K, V>, h: K -> Word, path: seq<nat>, s: nat)
    requires Reps(heap, n, v) && Wf(v, h, path) && Below(heap, n, v, s).Some?
    ensures Reps(heap, Below(heap, n, v, s).value.0, Below(heap, n, v, s).value.1)
    ensures Wf(Below(heap, n, v, s).value.1, h, path + [s])
  {
    hide Child, RefAt, Alike;
    ChildWf(v, h, path, s);
  }

  lemma OwnPairOnPath<K, V>(heap: Heap<K, V>, n: TNode<K, V>, v: Node<K, V>, h: K -> Word, path: seq<nat>, p: Pair<K, V>)
    requires n in heap.nodes && Alike(heap.pairs, heap.nodes[n], v) && Wf(v, h, path) && p in OwnPairs(heap.nodes[n])
    ensures OnPath(h(p.key), path) && p in heap.pairs
  {
    if v.Collision? {
      var i :| 0 <= i < |heap.nodes[n].entries| && heap.nodes[n].entries[i] == p;
      assert Holds(heap.pairs, p, v.entries[i]);
    }
  }

  // ----- the siblings of an updated child

  ghost predicate Inner<K, V>(heap: Heap<K, V>, owner: Owner?, h: K -> Word, path: seq<nat>, key: K, n: TNode<K, V>, v: Node<K, V>) {
    && (v.Bitmap? || v.HashArray?) && Reps(heap, n, v) && Tree(heap, n, v, owner) && Wf(v, h, path) && OnPath(h(key), path)
  }

  lemma OtherKept<K, V>(before: Heap<K, V>, mid: Heap<K, V>, owner: Owner?, h: K -> Word, path: seq<nat>, key: K,
                        n: TNode<K, V>, v: Node<K, V>, s: nat, t: nat)
    requires Inner(before, owner, h, path, key, n, v) && s == Slot(h(key), |path|) && t != s && Below(before, n, v, t).Some?
    requires Touched(before, mid, owner, key, KidArea(before, n, v, s, owner))
    ensures Kept(before, mid, Below(before, n, v, t).value.0, Below(before, n, v, t).value.1, owner)
  {
    hide Reach, PairsOf, Reps, Tree, Wf, Below, KidArea, Kept;
    var b := Below(before, n, v, t).value;
    BelowWf(before, n, v, h, path, t);
    forall m | m in Reach(before, b.0, b.1) ensures m in before.nodes && mid.nodes[m] == before.nodes[m] {
      Unreached(before, owner, n, v, s, t, m);
    }
    forall p | p in PairsOf(before, b.0, b.1) ensures p in before.pairs && mid.pairs[p] == before.pairs[p] {
      PairsOnPath(before, b.0, b.1, h, path + [t], p);
      assert Slot(h(p.key), |path|) == (path + [t])[|path|];
    }
    Frame(before, mid, b.0, b.1, owner);
  }

  /** A node below one child is not editable below another. */
  lemma Unreached<K, V>(heap: Heap<K, V>, owner: Owner?, n: TNode<K, V>, v: Node<K, V>, s: nat, t: nat, m: TNode<K, V>)
    requires Reps(heap, n, v) && Tree(heap, n, v, owner) && s != t && Below(heap, n, v, t).Some?
    requires m in Reach(heap, Below(heap, n, v, t).value.0, Below(heap, n, v, t).value.1)
    ensures m in heap.nodes && m !in KidArea(heap, n, v, s, owner).foot
  {
    BelowReach(heap, n, v, t);
    ReachedNodes(heap, n, v, m);
    if Below(heap, n, v, s).Some? { BelowReach(heap, n, v, s); }
  }

  lemma {:induction false} ReachedNodes<K, V>(heap: Heap<K, V>, n: TNode<K, V>, v: Node<K, V>, m: TNode<K, V>)
    requires Reps(heap, n, v) && m in Reach(heap, n, v)
    ensures m in heap.nodes
    decreases v
  {
    if m != n {
      var s: nat :| s < 32 && Below(heap, n, v, s).Some? && m in Reach(heap, Below(heap, n, v, s).value.0, Below(heap, n, v, s).value.1);
      ReachedNodes(heap, Below(heap, n, v, s).value.0, Below(heap, n, v, s).value.1, m);
    }
  }

  /** The parent's own fields are as they were. */
  lemma SelfKept<K, V>(before: Heap<K, V>, mid: Heap<K, V>, owner: Owner?, key: K, n: TNode<K, V>, v: Node<K, V>, s: nat)
    requires Reps(before, n, v) && Tree(before, n, v, owner)
    requires Touched(before, mid, owner, key, KidArea(before, n, v, s, owner))
    ensures n in mid.nodes && mid.nodes[n] == before.nodes[n]
  {
    if Below(before, n, v, s).Some? { BelowReach(before, n, v, s); }
  }

  // ----- the parent of an updated child

  /** The shape and the value after slot `s` was given `d`, standing for `w`. */
  ghost predicate ShapePut<K, V>(pairs: map<Pair<K, V>, V>, was: Shape<K, V>, v: Node<K, V>, s: nat, d: Option<TNode<K, V>>,
                                 w: Option<Node<K, V>>, shape: Shape<K, V>, r: Node<K, V>)
  {
    && SlotPut(v, s, w, r) && Alike(pairs, shape, r)
    && forall t: nat :: t < 32 ==> RefAt(shape, t) == if t == s then d else RefAt(was, t)
  }

  lemma AddShape<K, V>(pairs: map<Pair<K, V>, V>, b: nat, refs: seq<TNode<K, V>>, vs: seq<Node<K, V>>, s: nat,
                       d: TNode<K, V>, w: Node<K, V>)
    requires |refs| == |vs| < MAX_BITMAP && Sized(Bitmap(b, vs)) && s < 32 && And(b, Bit(s)) == 0
    ensures Index(b, s) <= |refs|
    ensures ShapePut(pairs, Packed(b, refs), Bitmap(b, vs), s, Some(d), Some(w),
                     Packed(Or(b, Bit(s)), SpliceIn(refs, Index(b, s), d)), PutBitmap(b, vs, s, Some(w)))
  {
    hide Child, Count, Rank, And, Or, Index;
    IndexInRange(b, s);
    IndexIsRank(b, s);
    PutBitmapSlots(b, vs, s, Some(w));
    var shape := Packed(Or(b, Bit(s)), SpliceIn(refs, Index(b, s), d));
    forall t: nat | t < 32 ensures RefAt(shape, t) == if t == s then Some(d) else Child(b, refs, t) {
      InsertChild(b, refs, s, d, t);
    }
  }

  lemma ExpandShape<K, V>(pairs: map<Pair<K, V>, V>, b: nat, refs: seq<TNode<K, V>>, vs: seq<Node<K, V>>, s: nat,
                          d: TNode<K, V>, w: Node<K, V>)
    requires |refs| == |vs| == MAX_BITMAP && Sized(Bitmap(b, vs)) && s < 32 && And(b, Bit(s)) == 0
    ensures ShapePut(pairs, Packed(b, refs), Bitmap(b, vs), s, Some(d), Some(w),
                     Spread(|refs| + 1, Unpack(b, refs, 32)[s := Some(d)]), PutBitmap(b, vs, s, Some(w)))
  {
    hide Child, Count, Rank, And, Index, Unpack;
    IndexInRange(b, s);
    ExpandSlots(b, vs, s, Some(w));
    var shape := Spread(|refs| + 1, Unpack(b, refs, 32)[s := Some(d)]);
    forall t: nat | t < 32 ensures RefAt(shape, t) == if t == s then Some(d) else Child(b, refs, t) {
      UnpackChild(b, refs, 32, t);
    }
  }

  lemma DropShape<K, V>(pairs: map<Pair<K, V>, V>, b: nat, refs: seq<TNode<K, V>>, vs: seq<Node<K, V>>, s: nat)
    requires |refs| == |vs| > 1 && Sized(Bitmap(b, vs)) && s < 32 && And(b, Bit(s)) != 0
    requires Child(b, vs, s).Some?
    ensures Index(b, s) < |refs|
    requires Index(b, s) < |vs| && (|vs| == 2 ==> !IsLeaf(vs[1 - Index(b, s)]))
    ensures ShapePut(pairs, Packed(b, refs), Bitmap(b, vs), s, None, None,
                     Packed(Xor(b, Bit(s)), SpliceOut(refs, Index(b, s))), PutBitmap(b, vs, s, None))
  {
    hide Child, Count, Rank, And, Xor, Index;
    IndexInRange(b, s);
    IndexIsRank(b, s);
    PutBitmapSlots(b, vs, s, None);
    var shape := Packed(Xor(b, Bit(s)), SpliceOut(refs, Index(b, s)));
    forall t: nat | t < 32 ensures RefAt(shape, t) == if t == s then None else Child(b, refs, t) {
      RemoveChild(b, refs, s, t);
    }
  }

  lemma SetShape<K, V>(pairs: map<Pair<K, V>, V>, b: nat, refs: seq<TNode<K, V>>, vs: seq<Node<K, V>>, s: nat,
                       d: TNode<K, V>, w: Node<K, V>)
    requires |refs| == |vs| && Sized(Bitmap(b, vs)) && s < 32 && And(b, Bit(s)) != 0 && (|vs| == 1 ==> !IsLeaf(w))
    ensures Index(b, s) < |refs|
    ensures ShapePut(pairs, Packed(b, refs), Bitmap(b, vs), s, Some(d), Some(w),
                     Packed(b, refs[Index(b, s) := d]), PutBitmap(b, vs, s, Some(w)))
  {
    hide Child, Count, Rank, And, Index;
    IndexInRange(b, s);
    IndexIsRank(b, s);
    PutBitmapSlots(b, vs, s, Some(w));
    var shape := Packed(b, refs[Index(b, s) := d]);
    forall t: nat | t < 32 ensures RefAt(shape, t) == if t == s then Some(d) else Child(b, refs, t) {
      ReplaceChild(b, refs, s, d, t);
    }
  }

  /** The 32-way array after slot `s` was given `d`: still a 32-way array, or packed. */
  function SpreadPut<K, V>(count: nat, slots: seq<Option<TNode<K, V>>>, s: nat, d: Option<TNode<K, V>>): Shape<K, V>
    requires s < |slots| && count > 0
  {
    var rest := slots[s := d];
    if slots[s].None? then Spread(count + 1, rest)
    else if d.Some? then Spread(count, rest)
    else if count - 1 < MIN_HASH_ARRAY then Packed(PackBits(rest), PackNodes(rest))
    else Spread(count - 1, rest)
  }

  lemma SpreadShape<K, V>(pairs: map<Pair<K, V>, V>, count: nat, refs: seq<Option<TNode<K, V>>>, vs: seq<Option<Node<K, V>>>,
                          s: nat, d: Option<TNode<K, V>>, w: Option<Node<K, V>>)
    requires |refs| == |vs| && Sized(HashArray(count, vs)) && s < 32 && (d.Some? || refs[s].Some?) && (d.Some? <==> w.Some?)
    requires forall t: nat :: t < 32 ==> (refs[t].Some? <==> vs[t].Some?)
    ensures ShapePut(pairs, Spread(count, refs), HashArray(count, vs), s, d, w,
                     SpreadPut(count, refs, s, d), PutHashArray(count, vs, s, w))
  {
    hide Child, Count, PackBits, PackNodes;
    PutHashArraySlots(count, vs, s, w);
    var rest := refs[s := d];
    var shape := SpreadPut(count, refs, s, d);
    if shape.Packed? {
      SameBits(rest, vs[s := w]);
      PackChild(rest, s);
      PackChild(vs[s := w], s);
      forall t: nat | t < 32 ensures RefAt(shape, t) == rest[t] {
        PackChild(rest, t);
      }
    }
  }

  lemma {:induction false} SameBits<S, T>(a: seq<Option<S>>, b: seq<Option<T>>)
    requires |a| == |b| && forall t :: 0 <= t < |a| ==> (a[t].Some? <==> b[t].Some?)
    ensures PackBits(a) == PackBits(b)
  {
    if a != [] { SameBits(a[1..], b[1..]); }
  }

  /** Child `s` of `n`, which stands for `v`, has been updated to `d`, which stands for `w`; then node `u` was given the
      shape that holds `d` in slot `s`, and stands for `r`. */
  datatype Put<K, V> = Put(before: Heap<K, V>, mid: Heap<K, V>, after: Heap<K, V>, owner: Owner?, key: K,
                           n: TNode<K, V>, v: Node<K, V>, s: nat, d: Option<TNode<K, V>>, w: Option<Node<K, V>>,
                           u: TNode<K, V>, r: Node<K, V>)

  ghost predicate Puts<K, V>(e: Put<K, V>, h: K -> Word, path: seq<nat>) {
    && Inner(e.before, e.owner, h, path, e.key, e.n, e.v) && e.s == Slot(h(e.key), |path|)
    && Stepped(e.before, e.mid, e.owner, e.key, KidArea(e.before, e.n, e.v, e.s, e.owner), e.d, e.w)
    && (if e.u == e.n then Owned(e.n, e.owner) else e.u !in e.mid.nodes && e.u.ownerID == e.owner)
    && e.u in e.after.nodes && e.after == Heap(e.mid.nodes[e.u := e.after.nodes[e.u]], e.mid.pairs)
    && ShapePut(e.after.pairs, e.before.nodes[e.n], e.v, e.s, e.d, e.w, e.after.nodes[e.u], e.r)
  }

  /** The children after the edit. */
  ghost function Kids<K, V>(e: Put<K, V>, t: nat): Option<(TNode<K, V>, Node<K, V>)> {
    if t != e.s then Below(e.before, e.n, e.v, t)
    else if e.s < 32 && e.d.Some? && e.w.Some? then Some((e.d.value, e.w.value)) else None
  }

  lemma BelowPut<K, V>(e: Put<K, V>, h: K -> Word, path: seq<nat>, t: nat)
    requires Puts(e, h, path)
    ensures Below(e.after, e.u, e.r, t) == Kids(e, t)
  {
    hide Stepped, Alike, RefAt, ChildAt, Wf, Tree, Owned;
    if t < 32 {
      assert RefAt(e.after.nodes[e.u], t) == if t == e.s then e.d else RefAt(e.before.nodes[e.n], t);
      assert ChildAt(e.r, t) == if t == e.s then e.w else ChildAt(e.v, t);
      YieldsBoth(e);
    }
  }

  lemma YieldsBoth<K, V>(e: Put<K, V>)
    requires Stepped(e.before, e.mid, e.owner, e.key, KidArea(e.before, e.n, e.v, e.s, e.owner), e.d, e.w)
    ensures e.d.Some? <==> e.w.Some?
    ensures e.before.nodes.Keys <= e.mid.nodes.Keys
  {
  }

  /** The edited node lies below none of the children. */
  lemma Above<K, V>(e: Put<K, V>, h: K -> Word, path: seq<nat>, t: nat)
    requires Puts(e, h, path) && Kids(e, t).Some?
    ensures e.u !in Reach(e.mid, Kids(e, t).value.0, Kids(e, t).value.1)
  {
    var b := Kids(e, t).value;
    if t != e.s {
      OtherKept(e.before, e.mid, e.owner, h, path, e.key, e.n, e.v, e.s, t);
      if e.u in Reach(e.before, b.0, b.1) {
        BelowReach(e.before, e.n, e.v, t);
        ReachedNodes(e.before, e.n, e.v, e.u);
      }
    } else if e.u in Reach(e.mid, b.0, b.1) {
      ReachedNodes(e.mid, b.0, b.1, e.u);
    }
  }

  /** Each child after the edit is what it was in the middle. */
  lemma KidPut<K, V>(e: Put<K, V>, h: K -> Word, path: seq<nat>, t: nat)
    requires Puts(e, h, path) && Kids(e, t).Some?
    ensures Kept(e.mid, e.after, Kids(e, t).value.0, Kids(e, t).value.1, e.owner)
    ensures Reps(e.mid, Kids(e, t).value.0, Kids(e, t).value.1)
  {
    var b := Kids(e, t).value;
    Above(e, h, path, t);
    if t != e.s { OtherKept(e.before, e.mid, e.owner, h, path, e.key, e.n, e.v, e.s, t); }
    assert Reps(e.mid, b.0, b.1);
    hide Reach, PairsOf, Reps, Tree, Wf, Below, Puts, Kids, Kept;
    AgreeBut(e, b);
    Frame(e.mid, e.after, b.0, b.1, e.owner);
  }

  lemma AgreeBut<K, V>(e: Put<K, V>, b: (TNode<K, V>, Node<K, V>))
    requires Reps(e.mid, b.0, b.1) && e.u !in Reach(e.mid, b.0, b.1) && e.u in e.after.nodes
    requires e.after == Heap(e.mid.nodes[e.u := e.after.nodes[e.u]], e.mid.pairs)
    ensures Agree(e.mid, e.after, Reach(e.mid, b.0, b.1), PairsOf(e.mid, b.0, b.1))
  {
    forall m | m in Reach(e.mid, b.0, b.1) ensures m in e.mid.nodes { ReachedNodes(e.mid, b.0, b.1, m); }
    forall p | p in PairsOf(e.mid, b.0, b.1) ensures p in e.mid.pairs { ReachedPairs(e.mid, b.0, b.1, p); }
  }

  lemma {:induction false} ReachedPairs<K, V>(heap: Heap<K, V>, n: TNode<K, V>, v: Node<K, V>, p: Pair<K, V>)
    requires Reps(heap, n, v) && p in PairsOf(heap, n, v)
    ensures p in heap.pairs
    decreases v
  {
    if p in OwnPairs(heap.nodes[n]) {
      OwnPairHeld(heap, n, v, p);
    } else {
      var s: nat :| s < 32 && Below(heap, n, v, s).Some? && p in PairsOf(heap, Below(heap, n, v, s).value.0, Below(heap, n, v, s).value.1);
      ReachedPairs(heap, Below(heap, n, v, s).value.0, Below(heap, n, v, s).value.1, p);
    }
  }

  lemma OwnPairHeld<K, V>(heap: Heap<K, V>, n: TNode<K, V>, v: Node<K, V>, p: Pair<K, V>)
    requires n in heap.nodes && Alike(heap.pairs, heap.nodes[n], v) && p in OwnPairs(heap.nodes[n])
    ensures p in heap.pairs
  {
    if v.Collision? || v.ArrayMap? {
      var i :| 0 <= i < |heap.nodes[n].entries| && heap.nodes[n].entries[i] == p;
      assert Holds(heap.pairs, p, v.entries[i]);
    }
  }

  lemma PutReps<K, V>(e: Put<K, V>, h: K -> Word, path: seq<nat>)
    requires Puts(e, h, path)
    ensures Reps(e.after, e.u, e.r)
  {
    hide Stepped, Alike, RefAt, Wf, Tree, Owned, Inner, ChildAt, Reps;
    forall s: nat | s < 32
      ensures Kid(e.r, s).Some? <==> RefAt(e.after.nodes[e.u], s).Some?
      ensures Kid(e.r, s).Some? ==> Reps(e.after, RefAt(e.after.nodes[e.u], s).value, Kid(e.r, s).value)
    {
      PutKid(e, h, path, s);
    }
    RepsUp(e.after, e.u, e.r);
  }

  lemma RepsUp<K, V>(heap: Heap<K, V>, n: TNode<K, V>, v: Node<K, V>)
    requires n in heap.nodes && Alike(heap.pairs, heap.nodes[n], v)
    requires forall s: nat :: s < 32 ==> (Kid(v, s).Some? <==> RefAt(heap.nodes[n], s).Some?)
    requires forall s: nat :: s < 32 && Kid(v, s).Some? ==> Reps(heap, RefAt(heap.nodes[n], s).value, Kid(v, s).value)
    ensures Reps(heap, n, v)
  {
    hide Alike, Kid, RefAt;
  }

  lemma PutKid<K, V>(e: Put<K, V>, h: K -> Word, path: seq<nat>, s: nat)
    requires Puts(e, h, path) && s < 32
    ensures Kid(e.r, s).Some? <==> RefAt(e.after.nodes[e.u], s).Some?
    ensures Kid(e.r, s).Some? ==> Reps(e.after, RefAt(e.after.nodes[e.u], s).value, Kid(e.r, s).value)
  {
    hide Stepped, Alike, RefAt, Wf, Tree, Owned, ChildAt, Reach, PairsOf;
    BelowPut(e, h, path, s);
    if Kids(e, s).Some? { KidPut(e, h, path, s); }
    assert Kid(e.r, s) == if s == e.s then e.w else Kid(e.v, s);
    YieldsBoth(e);
  }

  /** What a child reaches after the edit: for another child the same as before, for the updated one what was reached
      below the same slot, and new nodes. */
  lemma KidReached<K, V>(e: Put<K, V>, h: K -> Word, path: seq<nat>, t: nat, m: TNode<K, V>)
    requires Puts(e, h, path) && Kids(e, t).Some? && m in Reach(e.after, Kids(e, t).value.0, Kids(e, t).value.1)
    ensures m != e.u && m in e.mid.nodes
    ensures m in e.before.nodes ==> m in KidArea(e.before, e.n, e.v, t, e.owner).reach && m in Reach(e.before, e.n, e.v)
    ensures t != e.s ==> m in e.before.nodes
  {
    var b := Kids(e, t).value;
    KidPut(e, h, path, t);
    Above(e, h, path, t);
    ReachedNodes(e.mid, b.0, b.1, m);
    if t != e.s {
      OtherKept(e.before, e.mid, e.owner, h, path, e.key, e.n, e.v, e.s, t);
      Unreached(e.before, e.owner, e.n, e.v, e.s, t, m);
    }
    if Below(e.before, e.n, e.v, t).Some? { BelowReach(e.before, e.n, e.v, t); }
    hide Reach, PairsOf, Reps, Tree, Wf, Below, Alike, RefAt, Inner;
  }

  lemma KidPairs<K, V>(e: Put<K, V>, h: K -> Word, path: seq<nat>, t: nat, p: Pair<K, V>)
    requires Puts(e, h, path) && Kids(e, t).Some? && p in PairsOf(e.after, Kids(e, t).value.0, Kids(e, t).value.1)
    ensures p in e.before.pairs ==> p in PairsOf(e.before, e.n, e.v)
  {
    KidPut(e, h, path, t);
    if t != e.s { OtherKept(e.before, e.mid, e.owner, h, path, e.key, e.n, e.v, e.s, t); }
    if Below(e.before, e.n, e.v, t).Some? { BelowReach(e.before, e.n, e.v, t); }
    hide Reach, PairsOf, Reps, Tree, Wf, Below, Alike, RefAt, Inner;
  }

  lemma PutTree<K, V>(e: Put<K, V>, h: K -> Word, path: seq<nat>)
    requires Puts(e, h, path)
    ensures Tree(e.after, e.u, e.r, e.owner)
  {
    hide Reach, PairsOf, Reps, Wf, Alike, RefAt, Inner, Below, Kids, Puts, Tree;
    if Owned(e.u, e.owner) {
      forall t: nat ensures Below(e.after, e.u, e.r, t) == Kids(e, t) { BelowPut(e, h, path, t); }
      forall t: nat | Kids(e, t).Some?
        ensures Tree(e.after, Kids(e, t).value.0, Kids(e, t).value.1, e.owner) && e.u !in Reach(e.after, Kids(e, t).value.0, Kids(e, t).value.1)
      {
        KidTree(e, h, path, t);
      }
      forall t: nat, t': nat | t != t' && Kids(e, t).Some? && Kids(e, t').Some?
        ensures Apart(e.after, Kids(e, t).value, Kids(e, t').value, e.owner)
      {
        KidsApart(e, h, path, t, t');
      }
      TreeOf(e);
    } else {
      Unowned(e, h, path);
    }
  }

  lemma TreeOf<K, V>(e: Put<K, V>)
    requires Owned(e.u, e.owner) && forall t: nat :: Below(e.after, e.u, e.r, t) == Kids(e, t)
    requires forall t: nat :: Kids(e, t).Some? ==>
               Tree(e.after, Kids(e, t).value.0, Kids(e, t).value.1, e.owner) && e.u !in Reach(e.after, Kids(e, t).value.0, Kids(e, t).value.1)
    requires forall t: nat, t': nat :: t != t' && Kids(e, t).Some? && Kids(e, t').Some? ==>
               Apart(e.after, Kids(e, t).value, Kids(e, t').value, e.owner)
    ensures Tree(e.after, e.u, e.r, e.owner)
  {
    hide Below, Kids, Reach, Apart;
  }

  lemma Unowned<K, V>(e: Put<K, V>, h: K -> Word, path: seq<nat>)
    requires Puts(e, h, path) && !Owned(e.u, e.owner)
    ensures Tree(e.after, e.u, e.r, e.owner)
  {
    hide Reach, Reps, Alike, RefAt, Inner, Below, Stepped;
    assert e.owner == null;
  }

  lemma KidTree<K, V>(e: Put<K, V>, h: K -> Word, path: seq<nat>, t: nat)
    requires Puts(e, h, path) && Kids(e, t).Some? && Owned(e.u, e.owner)
    ensures Tree(e.after, Kids(e, t).value.0, Kids(e, t).value.1, e.owner)
    ensures e.u !in Reach(e.after, Kids(e, t).value.0, Kids(e, t).value.1)
  {
    KidPut(e, h, path, t);
    Above(e, h, path, t);
    if t != e.s {
      OtherKept(e.before, e.mid, e.owner, h, path, e.key, e.n, e.v, e.s, t);
      BelowTree(e.before, e.owner, e.n, e.v, t);
    }
    hide Reach, PairsOf, Reps, Tree, Wf, Below, Alike, RefAt;
  }

  lemma BelowTree<K, V>(heap: Heap<K, V>, owner: Owner?, n: TNode<K, V>, v: Node<K, V>, t: nat)
    requires Tree(heap, n, v, owner) && Below(heap, n, v, t).Some?
    ensures Tree(heap, Below(heap, n, v, t).value.0, Below(heap, n, v, t).value.1, owner)
  {
    var b := Below(heap, n, v, t).value;
    if !Owned(n, owner) {
      BelowReach(heap, n, v, t);
      assert b.0 in Reach(heap, b.0, b.1);
    }
  }

  lemma KidsApart<K, V>(e: Put<K, V>, h: K -> Word, path: seq<nat>, t: nat, t': nat)
    requires Puts(e, h, path) && t != t' && Kids(e, t).Some? && Kids(e, t').Some?
    ensures Apart(e.after, Kids(e, t).value, Kids(e, t').value, e.owner)
  {
    hide Reach, PairsOf, Reps, Tree, Wf, Below, Alike, RefAt, Puts, Kids;
    forall m | m in Reach(e.after, Kids(e, t).value.0, Kids(e, t).value.1) && m in Reach(e.after, Kids(e, t').value.0, Kids(e, t').value.1)
      ensures !Owned(m, e.owner)
    {
      KidReached(e, h, path, t, m);
      KidReached(e, h, path, t', m);
      WasApart(e, h, path, t, t', m);
    }
  }

  lemma WasApart<K, V>(e: Put<K, V>, h: K -> Word, path: seq<nat>, t: nat, t': nat, m: TNode<K, V>)
    requires Puts(e, h, path) && t != t'
    requires m in KidArea(e.before, e.n, e.v, t, e.owner).reach && m in KidArea(e.before, e.n, e.v, t', e.owner).reach
    ensures !Owned(m, e.owner)
  {
    BelowReach(e.before, e.n, e.v, t);
    hide Reach, PairsOf, Reps, Wf, Below, Alike, RefAt, Stepped;
  }

  lemma PutStepped<K, V>(e: Put<K, V>, h: K -> Word, path: seq<nat>)
    requires Puts(e, h, path)
    ensures Stepped(e.before, e.after, e.owner, e.key, AreaOf(e.before, e.n, e.v, e.owner), Some(e.u), Some(e.r))
  {
    PutReps(e, h, path);
    PutTree(e, h, path);
    forall m | m in Reach(e.after, e.u, e.r) && m in e.before.nodes ensures m in Reach(e.before, e.n, e.v) {
      PutReached(e, h, path, m);
    }
    forall p | p in PairsOf(e.after, e.u, e.r) && p in e.before.pairs ensures p in PairsOf(e.before, e.n, e.v) {
      PutPairs(e, h, path, p);
    }
    PutTouched(e, h, path);
    hide Reach, PairsOf, Reps, Tree, Wf, Below, Alike, RefAt, Inner, Touched, Puts;
  }

  lemma PutReached<K, V>(e: Put<K, V>, h: K -> Word, path: seq<nat>, m: TNode<K, V>)
    requires Puts(e, h, path) && m in Reach(e.after, e.u, e.r) && m in e.before.nodes
    ensures m in Reach(e.before, e.n, e.v)
  {
    hide Reps, Tree, Wf, Below, Alike, RefAt, Inner, Kids, SlotPut, PairsOf;
    if m != e.u {
      var t: nat :| t < 32 && Below(e.after, e.u, e.r, t).Some?
                    && m in Reach(e.after, Below(e.after, e.u, e.r, t).value.0, Below(e.after, e.u, e.r, t).value.1);
      BelowPut(e, h, path, t);
      KidReached(e, h, path, t, m);
    }
  }

  lemma PutPairs<K, V>(e: Put<K, V>, h: K -> Word, path: seq<nat>, p: Pair<K, V>)
    requires Puts(e, h, path) && p in PairsOf(e.after, e.u, e.r) && p in e.before.pairs
    ensures p in PairsOf(e.before, e.n, e.v)
  {
    hide Reps, Tree, Wf, Below, RefAt, Inner, Kids, Reach;
    var t: nat :| t < 32 && Below(e.after, e.u, e.r, t).Some?
                  && p in PairsOf(e.after, Below(e.after, e.u, e.r, t).value.0, Below(e.after, e.u, e.r, t).value.1);
    BelowPut(e, h, path, t);
    KidPairs(e, h, path, t, p);
  }

  lemma PutTouched<K, V>(e: Put<K, V>, h: K -> Word, path: seq<nat>)
    requires Puts(e, h, path)
    ensures Touched(e.before, e.after, e.owner, e.key, AreaOf(e.before, e.n, e.v, e.owner))
  {
    hide Reach, PairsOf, Reps, Tree, Wf, Below, Alike, RefAt, KidArea, AreaOf, ShapePut, Yields, Inner;
    KidWithin(e.before, e.owner, e.n, e.v, e.s);
    SelfFoot(e.before, e.owner, e.n, e.v);
    WidenTouched(e.before, e.mid, e.owner, e.key, KidArea(e.before, e.n, e.v, e.s, e.owner), AreaOf(e.before, e.n, e.v, e.owner));
  }

  lemma SelfFoot<K, V>(heap: Heap<K, V>, owner: Owner?, n: TNode<K, V>, v: Node<K, V>)
    ensures Owned(n, owner) ==> n in AreaOf(heap, n, v, owner).foot
  {
  }

  /** What may be edited below a child may be edited below its parent. */
  lemma KidWithin<K, V>(heap: Heap<K, V>, owner: Owner?, n: TNode<K, V>, v: Node<K, V>, s: nat)
    ensures var a, b := KidArea(heap, n, v, s, owner), AreaOf(heap, n, v, owner);
            a.foot <= b.foot && a.cells <= b.cells && a.reach <= b.reach && a.pairs <= b.pairs
  {
    if Below(heap, n, v, s).Some? { BelowReach(heap, n, v, s); }
    hide Reach, PairsOf, Below;
  }

  lemma WidenTouched<K, V>(before: Heap<K, V>, after: Heap<K, V>, owner: Owner?, key: K, a: Area<K, V>, b: Area<K, V>)
    requires Touched(before, after, owner, key, a) && a.foot <= b.foot && a.cells <= b.cells
    ensures Touched(before, after, owner, key, b)
  {
  }

  // ----- a leaf that takes its parent's place

  /** The updated child is all that is left. */
  lemma OnlyUpdated<K, V>(before: Heap<K, V>, after: Heap<K, V>, owner: Owner?, key: K, n: TNode<K, V>, v: Node<K, V>, s: nat,
                          d: Option<TNode<K, V>>, w: Option<Node<K, V>>)
    requires Stepped(before, after, owner, key, KidArea(before, n, v, s, owner), d, w)
    ensures Stepped(before, after, owner, key, AreaOf(before, n, v, owner), d, w)
  {
    hide Reach, PairsOf, Reps, Tree, Wf, Below, KidArea, AreaOf;
    KidWithin(before, owner, n, v, s);
    WidenTouched(before, after, owner, key, KidArea(before, n, v, s, owner), AreaOf(before, n, v, owner));
  }

  /** Another child is all that is left. */
  lemma OnlyOther<K, V>(before: Heap<K, V>, after: Heap<K, V>, owner: Owner?, h: K -> Word, path: seq<nat>, key: K,
                        n: TNode<K, V>, v: Node<K, V>, s: nat, t: nat)
    requires Inner(before, owner, h, path, key, n, v) && s == Slot(h(key), |path|) && t != s && Below(before, n, v, t).Some?
    requires Touched(before, after, owner, key, KidArea(before, n, v, s, owner))
    ensures var b := Below(before, n, v, t).value;
            Stepped(before, after, owner, key, AreaOf(before, n, v, owner), Some(b.0), Some(b.1))
  {
    OtherKept(before, after, owner, h, path, key, n, v, s, t);
    BelowTree(before, owner, n, v, t);
    BelowReach(before, n, v, t);
    hide Reach, PairsOf, Reps, Tree, Wf, Below, KidArea, Inner;
    KidWithin(before, owner, n, v, s);
    WidenTouched(before, after, owner, key, KidArea(before, n, v, s, owner), AreaOf(before, n, v, owner));
  }

  // ----- leaves edit only pairs made for them, as long as no collision node shrinks

  /** No two keys of the trie share a hash: it has no collision nodes. */
  ghost predicate NoClash<K, V>(v: Node<K, V>)
    decreases v
  {
    !v.Collision? && forall s: nat :: s < 32 && Kid(v, s).Some? ==> NoClash(Kid(v, s).value)
  }

  /** Every leaf the owner may edit has a pair made in its session. */
  ghost predicate Private<K, V>(heap: Heap<K, V>, n: TNode<K, V>, v: Node<K, V>, owner: Owner?) {
    forall m :: m in Reach(heap, n, v) && Owned(m, owner) && m in heap.nodes && heap.nodes[m].Leaf? ==> heap.nodes[m].entry.maker == owner
  }

  lemma PutPrivate<K, V>(e: Put<K, V>, h: K -> Word, path: seq<nat>)
    requires Puts(e, h, path) && Private(e.before, e.n, e.v, e.owner)
    requires e.d.Some? && e.w.Some? ==> Private(e.mid, e.d.value, e.w.value, e.owner)
    ensures Private(e.after, e.u, e.r, e.owner)
  {
    hide Reach, PairsOf, Reps, Tree, Wf, Below, Puts;
    forall m | m in Reach(e.after, e.u, e.r) && Owned(m, e.owner) && m in e.after.nodes && e.after.nodes[m].Leaf?
      ensures e.after.nodes[m].entry.maker == e.owner
    {
      PutLeaf(e, h, path, m);
    }
  }

  lemma PutLeaf<K, V>(e: Put<K, V>, h: K -> Word, path: seq<nat>, m: TNode<K, V>)
    requires Puts(e, h, path) && Private(e.before, e.n, e.v, e.owner)
    requires e.d.Some? && e.w.Some? ==> Private(e.mid, e.d.value, e.w.value, e.owner)
    requires m in Reach(e.after, e.u, e.r) && Owned(m, e.owner) && m in e.after.nodes && e.after.nodes[m].Leaf?
    ensures e.after.nodes[m].entry.maker == e.owner
  {
    assert m != e.u by { NoLeaf(e, h, path); }
    hide Reps, Tree, Wf, Below, RefAt, Inner, PairsOf, Alike, Stepped;
    var t: nat :| t < 32 && Below(e.after, e.u, e.r, t).Some?
                  && m in Reach(e.after, Below(e.after, e.u, e.r, t).value.0, Below(e.after, e.u, e.r, t).value.1);
    BelowPut(e, h, path, t);
    KidPut(e, h, path, t);
    if t != e.s { OtherLeaf(e, h, path, t, m); }
  }

  lemma NoLeaf<K, V>(e: Put<K, V>, h: K -> Word, path: seq<nat>)
    requires Puts(e, h, path)
    ensures !e.after.nodes[e.u].Leaf?
  {
    hide Reps, Tree, Wf, Below, RefAt, Inner, PairsOf, Stepped;
  }

  lemma OtherLeaf<K, V>(e: Put<K, V>, h: K -> Word, path: seq<nat>, t: nat, m: TNode<K, V>)
    requires Puts(e, h, path) && t != e.s && Below(e.before, e.n, e.v, t).Some? && Private(e.before, e.n, e.v, e.owner)
    requires m in Reach(e.mid, Below(e.before, e.n, e.v, t).value.0, Below(e.before, e.n, e.v, t).value.1)
    requires Owned(m, e.owner) && m in e.mid.nodes && e.mid.nodes[m].Leaf?
    ensures e.mid.nodes[m].entry.maker == e.owner
  {
    OtherKept(e.before, e.mid, e.owner, h, path, e.key, e.n, e.v, e.s, t);
    Unreached(e.before, e.owner, e.n, e.v, e.s, t, m);
    BelowReach(e.before, e.n, e.v, t);
    hide Reach, PairsOf, Reps, Tree, Wf, Below, Inner, KidArea;
  }
}
