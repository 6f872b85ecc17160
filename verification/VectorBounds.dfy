/** The steps of setListBounds: adding root levels, moving the tail into the tree, finding a leaf,
    and dropping root levels. */
module VectorBounds {
  import opened Options
  import opened Owners
  import opened VectorNodes
  import opened VectorUpdate
  import opened VectorTruncate

  /** getTailOffset: the first index kept in the tail. */
  function TailOffset(size: nat): (r: nat)
    ensures r % 32 == 0 && (size > 0 ==> r < size <= r + 32) && r <= size
  {
    if size < 32 then 0 else (size - 1) / 32 * 32
  }

  /** The same elements at every index below `bound`. */
  ghost predicate ShowsTo<T>(before: Heap<T>, after: Heap<T>, node: VNode?<T>, level: nat, r: VNode?<T>, level': nat, bound: nat) {
    forall i: nat :: i < bound ==> Look(after, r, level', i) == Look(before, node, level, i)
  }

  // ----- new root levels

  /** A raised root holds nothing at the indices the old one did not reach. */
  ghost predicate EmptyFrom<T>(heap: Heap<T>, r: VNode?<T>, level: nat, from: nat) {
    forall i: nat :: from <= i < Shl(level + 5) ==> Look(heap, r, level, i) == None
  }

  lemma RaisedEmpty<T>(heap: Heap<T>, heap': Heap<T>, root: VNode?<T>, u: VNode<T>, level: nat, from: nat)
    requires EmptyFrom(heap, root, level, from) && ShowsTo(heap, heap', root, level, u, level + 5, Shl(level + 5))
    requires level % 5 == 0 && u in heap' && |heap'[u]| <= 1
    ensures EmptyFrom(heap', u, level + 5, from)
  {
    var above := level + 5;
    forall i: nat | from <= i < Shl(above + 5) ensures Look(heap', u, above, i) == None {
      if i >= Shl(level + 5) {
        ShrZero(i, level + 5);
        ShrZero(i, level + 10);
        ShrUp(i, level + 5);
      }
    }
  }

  lemma RaiseRoot<T>(heap: Heap<T>, active: set<Owner?>, root: VNode?<T>, u: VNode<T>, level: nat)
    requires Good(heap, active) && Placed(heap, root, level, 0) && Mine(root, active, u.ownerID)
    requires u !in heap && u.level == level + 5 && u.block == 0
    ensures var heap' := heap[u := if root == null || heap[root] == [] then [] else [Sub(root)]];
            && Good(heap', active) && Extends(heap, heap')
            && ShowsTo(heap, heap', root, level, u, level + 5, Shl(level + 5))
  {
    var items := if root == null || heap[root] == [] then [] else [Sub(root)];
    var heap' := heap[u := items];
    forall n | n in heap' ensures WfArray(heap', n, heap'[n]) {
      if n != u { assert forall j :: 0 <= j < |heap[n]| ==> Fits(heap, n, j, heap[n][j]); }
    }
    forall i: nat | i < Shl(level + 5) ensures Look(heap', u, level + 5, i) == Look(heap, root, level, i) {
      ShrZero(i, level + 5);
      if root != null { LookExtends(heap, heap', root, level, i); }
    }
  }

  /** The root `r` after some new levels: it shows what `root` showed, and nothing further up. */
  ghost predicate Raised<T>(heap0: Heap<T>, heap: Heap<T>, active: set<Owner?>, owner: Owner?, root: VNode?<T>, level: nat, r: VNode?<T>, level': nat) {
    && Good(heap, active) && Extends(heap0, heap) && (forall n :: n in heap && n !in heap0 ==> n.ownerID == owner)
    && level' >= level && Placed(heap, r, level', 0) && Mine(r, active, owner)
    && ShowsTo(heap0, heap, root, level, r, level', Shl(level + 5)) && EmptyFrom(heap, r, level', Shl(level + 5))
  }

  lemma RaiseStep<T>(heap0: Heap<T>, heap: Heap<T>, active: set<Owner?>, owner: Owner?, root: VNode?<T>, level: nat,
                     r: VNode?<T>, level': nat, u: VNode<T>)
    requires Raised(heap0, heap, active, owner, root, level, r, level') && level % 5 == 0
    requires u !in heap && u.ownerID == owner && u.level == level' + 5 && u.block == 0
    ensures Raised(heap0, heap[u := if r == null || heap[r] == [] then [] else [Sub(r)]], active, owner, root, level, u, level' + 5)
    ensures 0 < Shl(level' + 5) < Shl(level' + 10)
  {
    var heap' := heap[u := if r == null || heap[r] == [] then [] else [Sub(r)]];
    ShlGrows(level, level');
    ShlGrows(level', level' + 5);
    RaiseRoot(heap, active, r, u, level');
    hide Good, Look, Extends;
    RaisedEmpty(heap, heap', r, u, level', Shl(level + 5));
    ExtendsTrans(heap0, heap, heap');
  }

  lemma ExtendsTrans<T>(a: Heap<T>, b: Heap<T>, c: Heap<T>)
    requires Extends(a, b) && Extends(b, c)
    ensures Extends(a, c)
  {
  }

  method GrowRoot<T>(ghost nodes: set<VNode<T>>, ghost active: set<Owner?>, root: VNode?<T>, owner: Owner?, level: nat, tail: nat)
    returns (r: VNode?<T>, level': nat, ghost nodes': set<VNode<T>>)
    requires Good(Snapshot(nodes), active) && Placed(Snapshot(nodes), root, level, 0) && Mine(root, active, owner)
    ensures nodes <= nodes' && fresh(nodes' - nodes) && tail < Shl(level' + 5)
    ensures Raised(Snapshot(nodes), Snapshot(nodes'), active, owner, root, level, r, level')
    ensures tail < Shl(level + 5) ==> r == root && level' == level
  {
    hide Good, Look, Raised, Extends;
    ghost var heap0 := Snapshot(nodes);
    NotRaised(heap0, active, owner, root, level);
    r, level', nodes' := root, level, nodes;
    while tail >= Shl(level' + 5)
      invariant nodes <= nodes' && fresh(nodes' - nodes)
      invariant Raised(heap0, Snapshot(nodes'), active, owner, root, level, r, level')
      invariant tail < Shl(level + 5) ==> r == root && level' == level
      decreases tail - Shl(level' + 5)
    {
      ghost var heap := Snapshot(nodes');
      RaisedRoot(heap0, heap, active, owner, root, level, r, level');
      var u := new VNode(if r == null || r.items == [] then [] else [Sub(r)], owner, level' + 5, 0);
      RaiseStep(heap0, heap, active, owner, root, level, r, level', u);
      nodes' := nodes' + {u};
      assert Snapshot(nodes') == heap[u := u.items];
      r, level' := u, level' + 5;
    }
  }

  lemma NotRaised<T>(heap: Heap<T>, active: set<Owner?>, owner: Owner?, root: VNode?<T>, level: nat)
    requires Good(heap, active) && Placed(heap, root, level, 0) && Mine(root, active, owner)
    ensures Raised(heap, heap, active, owner, root, level, root, level)
  {
    hide Good, Look;
  }

  lemma RaisedRoot<T>(heap0: Heap<T>, heap: Heap<T>, active: set<Owner?>, owner: Owner?, root: VNode?<T>, level: nat, r: VNode?<T>, level': nat)
    requires Raised(heap0, heap, active, owner, root, level, r, level')
    ensures r != null ==> r in heap
  {
    hide Good, Look, ShowsTo, EmptyFrom;
  }

  lemma {:induction false} ShlGrows(a: nat, b: nat)
    requires a <= b && a % 5 == 0 && b % 5 == 0
    ensures 0 < Shl(a) <= Shl(b) < Shl(b + 5)
  {
    if a >= 5 {
      ShlGrows(a - 5, b - 5);
    } else if b >= 5 {
      ShlGrows(a, b - 5);
    }
  }

  // ----- finding a leaf

  /** The node found on the way to `index`: it shows what the root shows, over the indices it covers. */
  ghost predicate Stands<T>(heap: Heap<T>, root: VNode?<T>, level: nat, n: VNode?<T>, g: nat, index: nat) {
    forall i: nat :: Shr(i, g + 5) == Shr(index, g + 5) ==> Look(heap, root, level, i) == Look(heap, n, g, i)
  }

  lemma StandsBelow<T>(heap: Heap<T>, active: set<Owner?>, root: VNode?<T>, level: nat, n: VNode<T>, g: nat, index: nat, child: VNode?<T>)
    requires Good(heap, active) && g >= 5 && Placed(heap, n, g, Shr(index, g + 5)) && ChildOf(heap, n, Shr(index, g) % 32, child)
    requires Stands(heap, root, level, n, g, index)
    ensures Placed(heap, child, g - 5, Shr(index, g)) && Stands(heap, root, level, child, g - 5, index)
    ensures child != null && child.ownerID in active ==> child.ownerID == n.ownerID
  {
    ChildPlaced(heap, active, n, n.ownerID, g, index, child);
    forall i: nat | Shr(i, g) == Shr(index, g) ensures Look(heap, root, level, i) == Look(heap, child, g - 5, i) {
      ShrUp(i, g);
      ShrUp(index, g);
    }
  }

  /** listNodeFor: the leaf of the tree that holds `index`. */
  method LeafFor<T>(ghost nodes: set<VNode<T>>, ghost active: set<Owner?>, root: VNode?<T>, ghost owner: Owner?, level: nat, index: nat)
    returns (n: VNode?<T>)
    requires Good(Snapshot(nodes), active) && Placed(Snapshot(nodes), root, level, Shr(index, level + 5)) && Mine(root, active, owner)
    ensures Placed(Snapshot(nodes), n, 0, Shr(index, 5)) && Mine(n, active, owner)
    ensures forall i: nat :: i / 32 == index / 32 ==> Look(Snapshot(nodes), root, level, i) == Look(Snapshot(nodes), n, 0, i)
  {
    hide Good, Look, Shr, SlotAt;
    ghost var heap := Snapshot(nodes);
    var g := level;
    n := root;
    while n != null && g > 0
      invariant g % 5 == 0 && Placed(heap, n, g, Shr(index, g + 5)) && Mine(n, active, owner)
      invariant Stands(heap, root, level, n, g, index)
      decreases g
    {
      var j := Shr(index, g) % 32;
      var child: VNode?<T> := if j < |n.items| && n.items[j].Sub? then n.items[j].node else null;
      SlotChild(heap, n, j, child);
      StandsBelow(heap, active, root, level, n, g, index, child);
      n, g := child, g - 5;
    }
    LeafStands(heap, root, level, n, g, index);
  }

  lemma LeafStands<T>(heap: Heap<T>, root: VNode?<T>, level: nat, n: VNode?<T>, g: nat, index: nat)
    requires g % 5 == 0 && Stands(heap, root, level, n, g, index) && (n == null || g == 0)
    ensures forall i: nat :: i / 32 == index / 32 ==> Look(heap, root, level, i) == Look(heap, n, 0, i)
  {
    forall i: nat | i / 32 == index / 32 ensures Look(heap, root, level, i) == Look(heap, n, 0, i) {
      SameBlock(i, index, g);
    }
  }

  lemma {:induction false} SameBlock(i: nat, k: nat, g: nat)
    requires i / 32 == k / 32 && g % 5 == 0
    ensures Shr(i, g + 5) == Shr(k, g + 5)
  {
    assert Shr(i, g + 5) == Shr(i / 32, g);
  }

  // ----- dropping root levels

  /** The root shrinks to its first child while `end` needs no more. */
  method DropLevels<T>(ghost nodes: set<VNode<T>>, ghost active: set<Owner?>, root: VNode?<T>, ghost owner: Owner?, level: nat, end: nat)
    returns (r: VNode?<T>, level': nat)
    requires Good(Snapshot(nodes), active) && Placed(Snapshot(nodes), root, level, 0) && Mine(root, active, owner)
    requires level >= 5 && 32 <= end < Shl(level + 5)
    ensures 5 <= level' <= level && Placed(Snapshot(nodes), r, level', 0) && Mine(r, active, owner) && end < Shl(level' + 5)
    ensures ShowsTo(Snapshot(nodes), Snapshot(nodes), root, level, r, level', end)
    ensures level == 5 ==> r == root && level' == level
  {
    hide Good, Look, SlotAt;
    ghost var heap := Snapshot(nodes);
    r, level' := root, level;
    while r != null
      invariant 5 <= level' <= level && Placed(heap, r, level', 0) && Mine(r, active, owner) && end < Shl(level' + 5)
      invariant ShowsTo(heap, heap, root, level, r, level', end)
      invariant level == 5 ==> r == root && level' == level
      decreases level'
    {
      if Shr(end, level') % 32 != 0 { break; }
      var child: VNode?<T> := if 0 < |r.items| && r.items[0].Sub? then r.items[0].node else null;
      SlotChild(heap, r, 0, child);
      FirstChild(heap, active, r, level', child, end);
      r, level' := child, level' - 5;
    }
  }

  lemma FirstChild<T>(heap: Heap<T>, active: set<Owner?>, n: VNode<T>, level: nat, child: VNode?<T>, end: nat)
    requires Good(heap, active) && level >= 5 && Placed(heap, n, level, 0) && ChildOf(heap, n, 0, child)
    requires 32 <= end < Shl(level + 5) && Shr(end, level) % 32 == 0
    ensures level >= 10 && end < Shl(level)
    ensures Placed(heap, child, level - 5, 0) && (child != null && child.ownerID in active ==> child.ownerID == n.ownerID)
    ensures ShowsTo(heap, heap, n, level, child, level - 5, end)
  {
    ShrZero(end, level + 5);
    ShrUp(end, level);
    ShrZero(end, level);
    forall i: nat | i < end ensures Look(heap, n, level, i) == Look(heap, child, level - 5, i) {
      ShrZero(i, level + 5);
      ShrZero(i, level);
      ChildPlaced(heap, active, n, n.ownerID, level, i, child);
    }
    ShrZero(0, level);
    ShrZero(0, level + 5);
    ChildPlaced(heap, active, n, n.ownerID, level, 0, child);
  }
}
