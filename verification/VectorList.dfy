/** The persistent list over the vector trie: bounds, set, push, pop, and editing sessions by an owner. */
module VectorList {
  import opened Options
  import opened Owners
  import opened VectorNodes
  import opened VectorUpdate
  import opened VectorTruncate
  import opened VectorBounds
  import opened VectorTail

  // ----- a list's elements, as a function of the heap

  ghost function Elem<T>(heap: Heap<T>, size: nat, level: nat, root: VNode?<T>, tail: VNode?<T>, i: nat): Option<T> {
    if i >= TailOffset(size) then Look(heap, tail, 0, i) else Look(heap, root, level, i)
  }

  ghost predicate ValidParts<T>(heap: Heap<T>, active: set<Owner?>, owner: Owner?, size: nat, level: nat, root: VNode?<T>, tail: VNode?<T>) {
    && level >= 5 && level % 5 == 0 && TailOffset(size) < Shl(level + 5)
    && Placed(heap, root, level, 0) && Mine(root, active, owner)
    && Placed(heap, tail, 0, TailOffset(size) / 32) && Mine(tail, active, owner)
  }

  /** Only a tail that holds something is moved into the tree. */
  ghost predicate TailMoves<T>(heap: Heap<T>, size: nat, tail: VNode?<T>) {
    size > 0 && tail != null && tail in heap && heap[tail] != []
  }

  /** A tail that moves into the tree must not be empty, or the tree must hold nothing where it would go:
      an empty tail is not moved, and whatever the tree holds there shows again. */
  ghost predicate TailSurvives<T>(heap: Heap<T>, size: nat, level: nat, root: VNode?<T>, tail: VNode?<T>) {
    || TailMoves(heap, size, tail)
    || forall i :: TailOffset(size) <= i < size ==> Look(heap, root, level, i).None?
  }

  /** What index `i` shows once the list has grown to `newSize`: the tail shows through where it stays or was moved, and
      elsewhere the old root shows whatever it holds, also above the old size. */
  ghost function GrownElem<T>(heap: Heap<T>, size: nat, level: nat, root: VNode?<T>, tail: VNode?<T>, newSize: nat, i: nat): Option<T> {
    if i < TailOffset(size) then Look(heap, root, level, i)
    else if i < TailOffset(size) + 32 && (TailOffset(newSize) == TailOffset(size) || TailMoves(heap, size, tail))
      then Look(heap, tail, 0, i)
    else if i < TailOffset(newSize) && i < Shl(level + 5) then Look(heap, root, level, i) else None
  }

  /** What becomes of the level and the root: growing keeps the level while there is room, and a root of one level stays
      as it is when only its first leaf is left, the leaves behind it included. */
  predicate RootKept<T>(size: nat, level: nat, root: VNode?<T>, newSize: nat, level': nat, root': VNode?<T>) {
    && (newSize > size && TailOffset(newSize) < Shl(level + 5) ==> level' == level)
    && (level == 5 && TailOffset(newSize) == 32 < TailOffset(size) ==> level' == level && root' == root)
  }

  lemma TailMonotone(a: nat, b: nat)
    requires a <= b
    ensures TailOffset(a) <= TailOffset(b)
  {
  }

  lemma {:induction false} ShlBlocks(level: nat)
    requires level % 5 == 0
    ensures Shl(level + 5) % 32 == 0
  {
    assert Shl(level + 5) == 32 * Shl(level);
  }

  lemma GrowInTail<T>(heap0: Heap<T>, heap1: Heap<T>, active: set<Owner?>, owner: Owner?, size: nat, level: nat,
                      root: VNode?<T>, tail: VNode?<T>, newSize: nat, level': nat, root': VNode?<T>)
    requires Good(heap0, active) && ValidParts(heap0, active, owner, size, level, root, tail)
    requires size < newSize && TailOffset(newSize) == TailOffset(size)
    requires Raised(heap0, heap1, active, owner, root, level, root', level') && TailOffset(newSize) < Shl(level' + 5)
    ensures ValidParts(heap1, active, owner, newSize, level', root', tail)
    ensures forall i: nat :: i < newSize ==>
              Elem(heap1, newSize, level', root', tail, i) == GrownElem(heap0, size, level, root, tail, newSize, i)
  {
    forall i: nat | i < newSize
      ensures Elem(heap1, newSize, level', root', tail, i) == GrownElem(heap0, size, level, root, tail, newSize, i)
    {
      if i >= TailOffset(size) && tail != null { LookExtends(heap0, heap1, tail, 0, i); }
    }
  }

  /** A fresh empty tail after the last block of the tree. */
  lemma NewTail<T>(heap: Heap<T>, active: set<Owner?>, u: VNode<T>)
    requires Good(heap, active) && u !in heap && u.level == 0
    ensures var heap' := heap[u := []]; Good(heap', active) && Extends(heap, heap')
  {
    var heap' := heap[u := []];
    forall n | n in heap' ensures WfArray(heap', n, heap'[n]) {
      if n != u { assert forall j :: 0 <= j < |heap[n]| ==> Fits(heap, n, j, heap[n][j]); }
    }
  }

  /** The tail was not moved: the tree shows, in its place, what it already held there. */
  lemma GrowPast<T>(heap0: Heap<T>, heap1: Heap<T>, active: set<Owner?>, owner: Owner?, size: nat, level: nat,
                    root: VNode?<T>, tail: VNode?<T>, newSize: nat, level': nat, root': VNode?<T>, u: VNode<T>)
    requires Good(heap0, active) && ValidParts(heap0, active, owner, size, level, root, tail)
    requires size < newSize && TailOffset(newSize) > TailOffset(size) && !TailMoves(heap0, size, tail)
    requires Raised(heap0, heap1, active, owner, root, level, root', level') && TailOffset(newSize) < Shl(level' + 5)
    requires u !in heap1 && u.level == 0 && u.block == TailOffset(newSize) / 32 && u.ownerID == owner
    ensures var heap2 := heap1[u := []];
            && Good(heap2, active) && ValidParts(heap2, active, owner, newSize, level', root', u)
            && forall i: nat :: i < newSize ==>
                 Elem(heap2, newSize, level', root', u, i) == GrownElem(heap0, size, level, root, tail, newSize, i)
  {
    var heap2 := heap1[u := []];
    NewTail(heap1, active, u);
    ShlBlocks(level);
    forall i: nat | i < newSize
      ensures Elem(heap2, newSize, level', root', u, i) == GrownElem(heap0, size, level, root, tail, newSize, i)
    {
      if root' != null { LookExtends(heap1, heap2, root', level', i); }
      if Shl(level + 5) <= i < Shl(level' + 5) { assert Look(heap1, root', level', i) == None; }
    }
  }

  lemma GrowMoved<T>(heap0: Heap<T>, heap1: Heap<T>, heap2: Heap<T>, active: set<Owner?>, owner: Owner?, size: nat, level: nat,
                     root: VNode?<T>, tail: VNode<T>, newSize: nat, level': nat, root': VNode?<T>, r: VNode<T>, u: VNode<T>)
    requires Good(heap0, active) && Good(heap2, active) && ValidParts(heap0, active, owner, size, level, root, tail)
    requires size < newSize && TailOffset(newSize) > TailOffset(size) && TailMoves(heap0, size, tail)
    requires Raised(heap0, heap1, active, owner, root, level, root', level') && TailOffset(newSize) < Shl(level' + 5)
    requires Placed(heap2, r, level', 0) && Mine(r, active, owner) && Hung(heap1, heap2, root', r, level', tail, TailOffset(size))
    requires u !in heap2 && u.level == 0 && u.block == TailOffset(newSize) / 32 && u.ownerID == owner
    ensures var heap3 := heap2[u := []];
            && Good(heap3, active) && ValidParts(heap3, active, owner, newSize, level', r, u)
            && forall i: nat :: i < newSize ==>
                 Elem(heap3, newSize, level', r, u, i) == GrownElem(heap0, size, level, root, tail, newSize, i)
  {
    var heap3 := heap2[u := []];
    NewTail(heap2, active, u);
    ShlBlocks(level);
    forall i: nat | i < newSize
      ensures Elem(heap3, newSize, level', r, u, i) == GrownElem(heap0, size, level, root, tail, newSize, i)
    {
      if i < TailOffset(newSize) { MovedAt(heap0, heap1, heap2, active, owner, size, level, root, tail, newSize, level', root', r, i); }
      LookExtends(heap2, heap3, r, level', i);
    }
  }

  lemma MovedAt<T>(heap0: Heap<T>, heap1: Heap<T>, heap2: Heap<T>, active: set<Owner?>, owner: Owner?, size: nat, level: nat,
                   root: VNode?<T>, tail: VNode<T>, newSize: nat, level': nat, root': VNode?<T>, r: VNode<T>, i: nat)
    requires Good(heap0, active) && ValidParts(heap0, active, owner, size, level, root, tail) && TailMoves(heap0, size, tail)
    requires Raised(heap0, heap1, active, owner, root, level, root', level') && TailOffset(newSize) < Shl(level' + 5)
    requires Hung(heap1, heap2, root', r, level', tail, TailOffset(size)) && i < TailOffset(newSize)
    ensures Look(heap2, r, level', i) == GrownElem(heap0, size, level, root, tail, newSize, i)
  {
    hide Good, Look;
    ShlBlocks(level);
    assert Look(heap2, r, level', i) == if i / 32 == TailOffset(size) / 32 then Look(heap1, tail, 0, i) else Look(heap1, root', level', i);
    GoodIs(heap0, active);
    LookExtends(heap0, heap1, tail, 0, i);
    if Shl(level + 5) <= i { assert Look(heap1, root', level', i) == None; }
  }

  lemma GoodIs<T>(heap: Heap<T>, active: set<Owner?>)
    requires Good(heap, active)
    ensures WfHeap(heap)
  {
  }

  /** The growing half of setListBounds. */
  method Grow<T>(ghost nodes: set<VNode<T>>, ghost active: set<Owner?>, owner: Owner, size: nat, level: nat,
                 root: VNode?<T>, tail: VNode?<T>, newSize: nat)
    returns (level': nat, root': VNode?<T>, tail': VNode?<T>, ghost nodes': set<VNode<T>>)
    requires Good(Snapshot(nodes), active) && ValidParts(Snapshot(nodes), active, owner, size, level, root, tail)
    requires size < newSize
    modifies Owned(nodes, owner)
    ensures nodes <= nodes' && fresh(nodes' - nodes) && (forall n :: n in nodes' && n !in nodes ==> n.ownerID == owner)
    ensures Good(Snapshot(nodes'), active) && ValidParts(Snapshot(nodes'), active, owner, newSize, level', root', tail')
    ensures forall i: nat :: i < newSize ==>
              Elem(Snapshot(nodes'), newSize, level', root', tail', i)
              == GrownElem(old(Snapshot(nodes)), size, level, root, tail, newSize, i)
    ensures TailOffset(newSize) < Shl(level + 5) ==> level' == level
  {
    hide Good, Look, Shr, Shl, Edited, Hung, Raised, Elem, GrownElem;
    ghost var heap0 := Snapshot(nodes);
    var oldTail, newTail := TailOffset(size), TailOffset(newSize);
    TailMonotone(size, newSize);
    root', level', nodes' := GrowRoot(nodes, active, root, owner, level, newTail);
    ghost var heap1 := Snapshot(nodes');
    RaisedParts(heap0, heap1, active, owner, root, level, root', level');
    if newTail == oldTail {
      tail' := tail;
      GrowInTail(heap0, heap1, active, owner, size, level, root, tail, newSize, level', root');
      return;
    }
    var u := new VNode([], owner, 0, newTail / 32);
    if size > 0 && tail != null && tail.items != [] {
      TailBlock(oldTail);
      ghost var grown := root';
      var r;
      r, nodes' := InsertTail(nodes', active, root', owner, level', tail, oldTail);
      ghost var heap2 := Snapshot(nodes');
      EditedGood(heap1, heap2, active, owner, level', oldTail, OutsideLeaf(oldTail));
      GrowMoved(heap0, heap1, heap2, active, owner, size, level, root, tail, newSize, level', grown, r, u);
      root' := r;
      NewOwned(heap1, heap2, active, owner, level', oldTail);
    } else {
      GrowPast(heap0, heap1, active, owner, size, level, root, tail, newSize, level', root', u);
    }
    ghost var heap := Snapshot(nodes');
    nodes' := nodes' + {u};
    tail' := u;
    assert Snapshot(nodes') == heap[u := []];
  }

  lemma RaisedParts<T>(heap0: Heap<T>, heap1: Heap<T>, active: set<Owner?>, owner: Owner?, root: VNode?<T>, level: nat, root': VNode?<T>, level': nat)
    requires Raised(heap0, heap1, active, owner, root, level, root', level')
    ensures Good(heap1, active) && Extends(heap0, heap1) && (forall n :: n in heap1 && n !in heap0 ==> n.ownerID == owner)
    ensures level' >= level && Placed(heap1, root', level', 0) && Mine(root', active, owner)
  {
    hide Good, Look;
  }

  lemma NewOwned<T>(before: Heap<T>, after: Heap<T>, active: set<Owner?>, owner: Owner?, level: nat, index: nat)
    requires Edited(before, after, active, owner, level, index, OutsideLeaf(index))
    ensures forall n :: n in after && n !in before ==> n.ownerID == owner
  {
  }

  lemma TailBlock(offset: nat)
    ensures Shr(offset, 5) == offset / 32
  {
  }

  // ----- shrinking

  /** Below `newSize`, the new parts show what the old ones showed. */
  ghost predicate ShowsParts<T>(heap: Heap<T>, size: nat, level: nat, root: VNode?<T>, tail: VNode?<T>,
                                heap': Heap<T>, newSize: nat, level': nat, root': VNode?<T>, tail': VNode?<T>)
  {
    forall i: nat :: i < newSize ==> Elem(heap', newSize, level', root', tail', i) == Elem(heap, size, level, root, tail, i)
  }

  lemma CutTail<T>(heap0: Heap<T>, heap1: Heap<T>, active: set<Owner?>, owner: Owner?, leaf: VNode<T>, d: VNode<T>,
                   size: nat, level: nat, root: VNode?<T>, tail: VNode?<T>, newSize: nat)
    requires Good(heap0, active) && ValidParts(heap0, active, owner, size, level, root, tail) && 0 < newSize < size
    requires Edited(heap0, heap1, active, owner, 0, newSize - 1, Below(newSize))
    requires Placed(heap0, leaf, 0, Shr(newSize - 1, 5)) && ShowsBelow(heap0, heap1, leaf, d, 0, newSize)
    requires forall i: nat :: i / 32 == (newSize - 1) / 32 && i < newSize ==>
               Elem(heap0, size, level, root, tail, i) == Look(heap0, leaf, 0, i)
    ensures ShowsParts(heap0, size, level, root, tail, heap1, newSize, level, root, d)
  {
    hide Good, Look;
    TailMonotone(newSize, size);
    forall i: nat | i < newSize ensures Elem(heap0, size, level, root, tail, i)
              == if i < TailOffset(newSize) then Look(heap1, root, level, i) else Look(heap1, d, 0, i)
    {
      if i < TailOffset(newSize) {
        ShrZero(i, level + 5);
        if root != null {
          assert Covers(root, i) && Below(newSize)(i);
        } else {
          LookNull(heap0, heap1, level, i);
        }
      } else {
        TailBlock(i);
        TailBlock(newSize - 1);
      }
    }
  }

  lemma LookNull<T>(heap0: Heap<T>, heap1: Heap<T>, level: nat, i: nat)
    ensures Look(heap0, null, level, i) == Look(heap1, null, level, i) == None
  {
  }

  /** The leaf that becomes the tail: it shows the last block. */
  lemma LastLeafShows<T>(heap: Heap<T>, active: set<Owner?>, owner: Owner?, size: nat, level: nat,
                         root: VNode?<T>, tail: VNode?<T>, newSize: nat, leaf: VNode?<T>)
    requires Good(heap, active) && ValidParts(heap, active, owner, size, level, root, tail) && 0 < newSize < size
    requires if TailOffset(newSize) == TailOffset(size) then leaf == tail
             else forall i: nat :: i / 32 == (newSize - 1) / 32 ==> Look(heap, root, level, i) == Look(heap, leaf, 0, i)
    ensures forall i: nat :: i / 32 == (newSize - 1) / 32 && i < newSize ==>
              Elem(heap, size, level, root, tail, i) == Look(heap, leaf, 0, i)
  {
    TailMonotone(newSize, size);
  }

  lemma CutTree<T>(heap1: Heap<T>, heap2: Heap<T>, active: set<Owner?>, owner: Owner?, d: VNode?<T>, root: VNode?<T>, level: nat,
                   dropped: VNode<T>, level': nat, r: VNode<T>, end: nat, newSize: nat)
    requires end == TailOffset(newSize) && end >= 32 && 0 < newSize
    requires Edited(heap1, heap2, active, owner, level', end - 1, Below(end))
    requires Placed(heap1, dropped, level', 0) && end < Shl(level' + 5) && ShowsTo(heap1, heap1, root, level, dropped, level', end)
    requires ShowsBelow(heap1, heap2, dropped, r, level', end)
    requires Placed(heap1, d, 0, end / 32)
    ensures ShowsParts(heap1, newSize, level, root, d, heap2, newSize, level', r, d)
    ensures Placed(heap2, d, 0, end / 32)
  {
    hide Good;
    if d != null {
      TailBlock(end - 1);
      assert !Covers(d, end - 1);
      assert heap2[d] == heap1[d];
    }
    forall i: nat | i < newSize ensures Elem(heap2, newSize, level', r, d, i) == Elem(heap1, newSize, level, root, d, i) {
      if i < end {
        ShrZero(i, level' + 5);
        ShrZero(end - 1, level' + 5);
        assert Look(heap1, dropped, level', i) == Look(heap1, root, level, i);
      }
    }
  }

  /** The tail of the shorter list, and the heap after cutting it; the tree keeps its elements. */
  method ShrinkTail<T>(ghost nodes: set<VNode<T>>, ghost active: set<Owner?>, owner: Owner, size: nat, level: nat,
                       root: VNode?<T>, tail: VNode?<T>, newSize: nat)
    returns (tail': VNode?<T>, ghost nodes': set<VNode<T>>)
    requires Good(Snapshot(nodes), active) && ValidParts(Snapshot(nodes), active, owner, size, level, root, tail)
    requires 0 < newSize < size
    modifies Owned(nodes, owner)
    ensures nodes <= nodes' && fresh(nodes' - nodes) && (forall n :: n in nodes' && n !in nodes ==> n.ownerID == owner)
    ensures Good(Snapshot(nodes'), active)
    ensures Placed(Snapshot(nodes'), root, level, 0)
    ensures Placed(Snapshot(nodes'), tail', 0, TailOffset(newSize) / 32) && Mine(tail', active, owner)
    ensures ShowsParts(old(Snapshot(nodes)), size, level, root, tail, Snapshot(nodes'), newSize, level, root, tail')
  {
    hide Good, Look, Shr, Shl, Edited, ShowsBelow, ShowsTo, ShowsParts;
    ghost var heap0 := Snapshot(nodes);
    TailMonotone(newSize, size);
    nodes' := nodes;
    TailBlock(newSize - 1);
    if TailOffset(newSize) < TailOffset(size) {
      TreeIndex(newSize - 1, TailOffset(size), level);
      tail' := LeafFor(nodes, active, root, owner, level, newSize - 1);
    } else {
      tail' := tail;
    }
    LastLeafShows(heap0, active, owner, size, level, root, tail, newSize, tail');
    if tail' != null {
      ghost var leaf := tail';
      tail', nodes' := RemoveAfter(nodes, active, tail', owner, 0, newSize);
      CutTail(heap0, Snapshot(nodes'), active, owner, leaf, tail', size, level, root, tail, newSize);
      EditedParts'(heap0, Snapshot(nodes'), active, owner, 0, newSize - 1, Below(newSize));
    } else {
      NoTail(heap0, active, owner, size, level, root, tail, newSize);
    }
  }

  lemma EditedParts'<T>(before: Heap<T>, after: Heap<T>, active: set<Owner?>, owner: Owner?, level: nat, index: nat, keep: nat -> bool)
    requires Edited(before, after, active, owner, level, index, keep)
    ensures Good(after, active) && before.Keys <= after.Keys
    ensures forall n :: n in after && n !in before ==> n.ownerID == owner
  {
  }

  lemma PartsTrans<T>(h0: Heap<T>, s0: nat, l0: nat, r0: VNode?<T>, t0: VNode?<T>, h1: Heap<T>, s1: nat, l1: nat, r1: VNode?<T>, t1: VNode?<T>,
                      h2: Heap<T>, l2: nat, r2: VNode?<T>, t2: VNode?<T>)
    requires ShowsParts(h0, s0, l0, r0, t0, h1, s1, l1, r1, t1) && ShowsParts(h1, s1, l1, r1, t1, h2, s1, l2, r2, t2)
    ensures ShowsParts(h0, s0, l0, r0, t0, h2, s1, l2, r2, t2)
  {
  }

  /** Without the tree, or with a smaller root: the same elements. */
  lemma OtherRoot<T>(heap: Heap<T>, size: nat, level: nat, root: VNode?<T>, tail: VNode?<T>, level': nat, root': VNode?<T>)
    requires ShowsTo(heap, heap, root, level, root', level', TailOffset(size))
    ensures ShowsParts(heap, size, level, root, tail, heap, size, level', root', tail)
  {
  }

  /** The shrinking half of setListBounds. */
  method Shrink<T>(ghost nodes: set<VNode<T>>, ghost active: set<Owner?>, owner: Owner, size: nat, level: nat,
                   root: VNode?<T>, tail: VNode?<T>, newSize: nat)
    returns (level': nat, root': VNode?<T>, tail': VNode?<T>, ghost nodes': set<VNode<T>>)
    requires Good(Snapshot(nodes), active) && ValidParts(Snapshot(nodes), active, owner, size, level, root, tail)
    requires 0 < newSize < size
    modifies Owned(nodes, owner)
    ensures nodes <= nodes' && fresh(nodes' - nodes) && (forall n :: n in nodes' && n !in nodes ==> n.ownerID == owner)
    ensures Good(Snapshot(nodes'), active) && ValidParts(Snapshot(nodes'), active, owner, newSize, level', root', tail')
    ensures ShowsParts(old(Snapshot(nodes)), size, level, root, tail, Snapshot(nodes'), newSize, level', root', tail')
    ensures level == 5 && TailOffset(newSize) == 32 < TailOffset(size) ==> level' == level && root' == root
  {
    hide Good, Look, Shr, Shl, Edited, ShowsBelow, ShowsTo, ShowsParts;
    ghost var heap0 := Snapshot(nodes);
    ghost var nodes1;
    OneLevel();
    var newTail := TailOffset(newSize);
    TailMonotone(newSize, size);
    level', root' := level, root;
    tail', nodes1 := ShrinkTail(nodes, active, owner, size, level, root, tail, newSize);
    ghost var heap1 := Snapshot(nodes1);
    nodes' := nodes1;
    if newTail == 0 {
      level', root' := 5, null;
      NoTree(heap1, newSize, level, root, tail');
    } else if newTail < TailOffset(size) {
      root', level' := DropLevels(nodes1, active, root, owner, level, newTail);
      OtherRoot(heap1, newSize, level, root, tail', level', root');
      if root' != null {
        ghost var dropped := root';
        TreeIndex(newTail - 1, newTail, level');
        root', nodes' := RemoveAfter(nodes1, active, root', owner, level', newTail);
        CutTree(heap1, Snapshot(nodes'), active, owner, tail', root, level, dropped, level', root', newTail, newSize);
        EditedParts'(heap1, Snapshot(nodes'), active, owner, level', newTail - 1, Below(newTail));
      }
    } else {
      SameParts(heap1, newSize, level, root, tail');
    }
    PartsTrans(heap0, size, level, root, tail, heap1, newSize, level, root, tail', Snapshot(nodes'), level', root', tail');
  }

  lemma OneLevel()
    ensures Shl(5) == 32
  {
  }

  lemma SameParts<T>(heap: Heap<T>, size: nat, level: nat, root: VNode?<T>, tail: VNode?<T>)
    ensures ShowsParts(heap, size, level, root, tail, heap, size, level, root, tail)
  {
  }

  lemma NoTree<T>(heap: Heap<T>, size: nat, level: nat, root: VNode?<T>, tail: VNode?<T>)
    requires TailOffset(size) == 0
    ensures 0 < Shl(10) && ShowsParts(heap, size, level, root, tail, heap, size, 5, null, tail)
  {
  }

  lemma TreeIndex(index: nat, oldTail: nat, level: nat)
    requires index < oldTail < Shl(level + 5) && level % 5 == 0
    ensures Shr(index, level + 5) == 0
  {
    ShrZero(index, level + 5);
  }

  lemma NoTail<T>(heap: Heap<T>, active: set<Owner?>, owner: Owner?, size: nat, level: nat, root: VNode?<T>, tail: VNode?<T>, newSize: nat)
    requires ValidParts(heap, active, owner, size, level, root, tail) && 0 < newSize < size
    requires forall i: nat :: i / 32 == (newSize - 1) / 32 && i < newSize ==> Elem(heap, size, level, root, tail, i) == Look(heap, null, 0, i)
    ensures ShowsParts(heap, size, level, root, tail, heap, newSize, level, root, null)
  {
    TailMonotone(newSize, size);
  }

  // ----- the list object

  ghost function Elements<T>(heap: Heap<T>, size: nat, level: nat, root: VNode?<T>, tail: VNode?<T>): (r: seq<Option<T>>)
    ensures |r| == size
  {
    seq(size, i requires 0 <= i < size => Elem(heap, size, level, root, tail, i))
  }

  /** No owner is active in the new heap who was not before, and none of its nodes shows through the list. */
  lemma OwnerRetired<T>(heap: Heap<T>, active: set<Owner?>, owner: Owner, size: nat, level: nat, root: VNode?<T>, tail: VNode?<T>)
    requires ValidParts(heap, active, owner, size, level, root, tail) && owner !in active
    ensures ValidParts(heap, active, null, size, level, root, tail)
  {
  }

  lemma AnyOwner<T>(heap: Heap<T>, active: set<Owner?>, owner: Owner, size: nat, level: nat, root: VNode?<T>, tail: VNode?<T>)
    requires ValidParts(heap, active, null, size, level, root, tail) && Good(heap, active)
    ensures ValidParts(heap, active, owner, size, level, root, tail)
  {
  }

  lemma PartsPrefix<T>(heap: Heap<T>, size: nat, level: nat, root: VNode?<T>, tail: VNode?<T>,
                       heap': Heap<T>, newSize: nat, level': nat, root': VNode?<T>, tail': VNode?<T>)
    requires newSize <= size && ShowsParts(heap, size, level, root, tail, heap', newSize, level', root', tail')
    ensures Elements(heap', newSize, level', root', tail') == Elements(heap, size, level, root, tail)[..newSize]
  {
    hide Elem;
  }

  lemma SetTree<T>(heap: Heap<T>, heap': Heap<T>, active: set<Owner?>, owner: Owner?, size: nat, level: nat,
                   root: VNode?<T>, tail: VNode?<T>, root': VNode?<T>, i: nat, value: Option<T>)
    requires Good(heap, active) && ValidParts(heap, active, owner, size, level, root, tail) && i < TailOffset(size)
    requires Edited(heap, heap', active, owner, level, i, Except(i)) && Shows(heap, heap', root, root', level, i, value)
    requires Placed(heap', root', level, Shr(i, level + 5)) && Mine(root', active, owner)
    ensures ValidParts(heap', active, owner, size, level, root', tail)
    ensures Elements(heap', size, level, root', tail) == Elements(heap, size, level, root, tail)[i := value]
  {
    hide Good, Look, Elem;
    ShrZero(i, level + 5);
    forall k: nat | k < size
      ensures Elem(heap', size, level, root', tail, k) == if k == i then value else Elem(heap, size, level, root, tail, k)
    {
      SetTreeAt(heap, heap', active, owner, size, level, root, tail, root', i, value, k);
    }
  }

  lemma SetTreeAt<T>(heap: Heap<T>, heap': Heap<T>, active: set<Owner?>, owner: Owner?, size: nat, level: nat,
                     root: VNode?<T>, tail: VNode?<T>, root': VNode?<T>, i: nat, value: Option<T>, k: nat)
    requires ValidParts(heap, active, owner, size, level, root, tail) && i < TailOffset(size)
    requires Same(heap, heap', Except(i)) && Shows(heap, heap', root, root', level, i, value) && k < size
    ensures Elem(heap', size, level, root', tail, k) == if k == i then value else Elem(heap, size, level, root, tail, k)
  {
    hide Look;
    ShrZero(i, level + 5);
    if k < TailOffset(size) {
      ShrZero(k, level + 5);
    } else if tail != null {
      TailBlock(k);
      assert Covers(tail, k) && Except(i)(k);
    } else {
      LookNull(heap, heap', 0, k);
    }
  }

  lemma SetTail<T>(heap: Heap<T>, heap': Heap<T>, active: set<Owner?>, owner: Owner?, size: nat, level: nat,
                   root: VNode?<T>, tail: VNode?<T>, tail': VNode?<T>, i: nat, value: Option<T>)
    requires Good(heap, active) && ValidParts(heap, active, owner, size, level, root, tail) && TailOffset(size) <= i < size
    requires Edited(heap, heap', active, owner, 0, i, Except(i)) && Shows(heap, heap', tail, tail', 0, i, value)
    requires Placed(heap', tail', 0, Shr(i, 5)) && Mine(tail', active, owner)
    ensures ValidParts(heap', active, owner, size, level, root, tail')
    ensures Elements(heap', size, level, root, tail') == Elements(heap, size, level, root, tail)[i := value]
  {
    hide Good, Look, Elem;
    TailBlock(i);
    forall k: nat | k < size
      ensures Elem(heap', size, level, root, tail', k) == if k == i then value else Elem(heap, size, level, root, tail, k)
    {
      SetTailAt(heap, heap', active, owner, size, level, root, tail, tail', i, value, k);
    }
  }

  lemma SetTailAt<T>(heap: Heap<T>, heap': Heap<T>, active: set<Owner?>, owner: Owner?, size: nat, level: nat,
                     root: VNode?<T>, tail: VNode?<T>, tail': VNode?<T>, i: nat, value: Option<T>, k: nat)
    requires ValidParts(heap, active, owner, size, level, root, tail) && TailOffset(size) <= i < size
    requires Same(heap, heap', Except(i)) && Shows(heap, heap', tail, tail', 0, i, value) && k < size
    ensures Elem(heap', size, level, root, tail', k) == if k == i then value else Elem(heap, size, level, root, tail, k)
  {
    hide Look;
    TailBlock(i);
    if k >= TailOffset(size) {
      TailBlock(k);
    } else if root != null {
      ShrZero(k, level + 5);
      assert Covers(root, k) && Except(i)(k);
    } else {
      LookNull(heap, heap', level, k);
    }
  }

  lemma SameElement<T>(heap: Heap<T>, size: nat, level: nat, root: VNode?<T>, tail: VNode?<T>, i: nat, value: Option<T>)
    requires i < size && value == if i >= TailOffset(size) then Look(heap, tail, 0, i) else Look(heap, root, level, i)
    ensures Elements(heap, size, level, root, tail)[i := value] == Elements(heap, size, level, root, tail)
  {
  }

  lemma SetPlaces<T>(heap: Heap<T>, active: set<Owner?>, owner: Owner?, size: nat, level: nat, root: VNode?<T>, tail: VNode?<T>, i: nat)
    requires Good(heap, active) && ValidParts(heap, active, owner, size, level, root, tail) && i < size
    ensures if i >= TailOffset(size) then Placed(heap, tail, 0, Shr(i, 5)) && Mine(tail, active, owner)
            else Placed(heap, root, level, Shr(i, level + 5)) && Mine(root, active, owner)
  {
    TailBlock(i);
    ShrZero(i, level + 5);
  }

  /** The elements after the bounds changed: a prefix, or whatever growing shows. */
  ghost function Resized<T>(heap: Heap<T>, size: nat, level: nat, root: VNode?<T>, tail: VNode?<T>, newSize: nat): (r: seq<Option<T>>)
    ensures |r| == newSize
  {
    if newSize <= size then Elements(heap, size, level, root, tail)[..newSize]
    else seq(newSize, i requires 0 <= i < newSize => GrownElem(heap, size, level, root, tail, newSize, i))
  }

  /** The old elements after growing by `more`. */
  ghost function Grown<T>(heap: Heap<T>, size: nat, level: nat, root: VNode?<T>, tail: VNode?<T>, more: nat): (r: seq<Option<T>>)
    ensures |r| == size
  {
    seq(size, i requires 0 <= i < size =>
      if more == 0 then Elem(heap, size, level, root, tail, i) else GrownElem(heap, size, level, root, tail, size + more, i))
  }

  /** Growing keeps every element exactly when the tail does not move, or survives the move. */
  lemma GrownKeeps<T>(heap: Heap<T>, active: set<Owner?>, owner: Owner?, size: nat, level: nat, root: VNode?<T>, tail: VNode?<T>, more: nat)
    requires Good(heap, active) && ValidParts(heap, active, owner, size, level, root, tail)
    ensures Grown(heap, size, level, root, tail, more) == Elements(heap, size, level, root, tail)
       <==> more == 0 || TailOffset(size + more) == TailOffset(size) || TailSurvives(heap, size, level, root, tail)
  {
    var grown, was := Grown(heap, size, level, root, tail, more), Elements(heap, size, level, root, tail);
    TailMonotone(size, size + more);
    var empty := !TailMoves(heap, size, tail);
    var moves := more > 0 && TailOffset(size + more) != TailOffset(size);
    forall i: nat | i < size
      ensures was[i] == Elem(heap, size, level, root, tail, i)
      ensures grown[i] == if i >= TailOffset(size) && moves && empty then Look(heap, root, level, i) else was[i]
      ensures i >= TailOffset(size) && empty ==> was[i] == None
    {
    }
    if moves && empty {
      if TailSurvives(heap, size, level, root, tail) {
        assert grown == was;
      } else {
        var i :| TailOffset(size) <= i < size && Look(heap, root, level, i).Some?;
        assert grown[i] != was[i];
      }
    } else {
      assert grown == was;
    }
  }

  /** A list that is empty, or has a defined element in its last block, always survives: its tail is not empty. */
  lemma DefinedSurvives<T>(heap: Heap<T>, size: nat, level: nat, root: VNode?<T>, tail: VNode?<T>)
    requires size > 0 ==> exists i :: TailOffset(size) <= i < size && Elem(heap, size, level, root, tail, i).Some?
    ensures TailSurvives(heap, size, level, root, tail)
  {
  }

  /** Absent elements. */
  function Blanks<T>(n: nat): seq<Option<T>> {
    seq(n, _ => None)
  }

  /** Nothing is left above the size where growing would uncover it: in the tail's own array, and in the tree behind it. */
  ghost predicate Bare<T>(heap: Heap<T>, size: nat, level: nat, root: VNode?<T>, tail: VNode?<T>, newSize: nat) {
    var tailShows := TailOffset(newSize) == TailOffset(size) || TailMoves(heap, size, tail);
    && (tailShows ==> forall i: nat :: size <= i < newSize && i < TailOffset(size) + 32 ==> Look(heap, tail, 0, i).None?)
    && forall i: nat :: size <= i < TailOffset(newSize) && (tailShows ==> i >= TailOffset(size) + 32) && i < Shl(level + 5) ==>
         Look(heap, root, level, i).None?
  }

  /** Growing appends absent elements, and nothing else, exactly when the tail does not move or survives the move, and no
      element that was cut off is still there. */
  lemma GrowsPlain<T>(heap: Heap<T>, active: set<Owner?>, owner: Owner?, size: nat, level: nat, root: VNode?<T>, tail: VNode?<T>, newSize: nat)
    requires Good(heap, active) && ValidParts(heap, active, owner, size, level, root, tail) && newSize > size
    ensures Resized(heap, size, level, root, tail, newSize) == Elements(heap, size, level, root, tail) + Blanks(newSize - size)
       <==> && (TailOffset(newSize) == TailOffset(size) || TailSurvives(heap, size, level, root, tail))
            && Bare(heap, size, level, root, tail, newSize)
  {
    hide Good, ValidParts, TailSurvives, Elements, GrownElem;
    var t := Resized(heap, size, level, root, tail, newSize);
    GrownKeeps(heap, active, owner, size, level, root, tail, newSize - size);
    GrownIs(heap, size, level, root, tail, newSize - size);
    GrowsBare(heap, size, level, root, tail, newSize);
    var was, blanks := Elements(heap, size, level, root, tail), Blanks<T>(newSize - size);
    assert t == was + blanks <==> t[..size] == was && t[size..] == blanks by {
      assert t == t[..size] + t[size..] && (was + blanks)[..size] == was && (was + blanks)[size..] == blanks;
    }
    assert t[size..] == blanks <==> forall i: nat :: size <= i < newSize ==> t[i] == None by {
      assert forall i: nat :: size <= i < newSize ==> t[size..][i - size] == t[i];
    }
  }

  lemma GrowsBare<T>(heap: Heap<T>, size: nat, level: nat, root: VNode?<T>, tail: VNode?<T>, newSize: nat)
    requires newSize > size
    ensures (forall i: nat :: size <= i < newSize ==> Resized(heap, size, level, root, tail, newSize)[i] == None)
       <==> Bare(heap, size, level, root, tail, newSize)
  {
    hide Look, TailMoves;
    TailMonotone(size, newSize);
    var t := Resized(heap, size, level, root, tail, newSize);
    var tailShows := TailOffset(newSize) == TailOffset(size) || TailMoves(heap, size, tail);
    if forall i: nat :: size <= i < newSize ==> t[i] == None {
      forall i: nat | size <= i < newSize && i < TailOffset(size) + 32 && tailShows ensures Look(heap, tail, 0, i).None? {
        assert t[i] == GrownElem(heap, size, level, root, tail, newSize, i);
      }
      forall i: nat | size <= i < TailOffset(newSize) && (tailShows ==> i >= TailOffset(size) + 32) && i < Shl(level + 5)
        ensures Look(heap, root, level, i).None?
      {
        assert t[i] == GrownElem(heap, size, level, root, tail, newSize, i);
      }
    } else {
      var i: nat :| size <= i < newSize && t[i] != None;
      assert t[i] == GrownElem(heap, size, level, root, tail, newSize, i);
    }
  }

  /** The root and tail with one index assigned. */
  method Assigned<T(==)>(ghost nodes: set<VNode<T>>, ghost active: set<Owner?>, owner: Owner?, size: nat, level: nat,
                         root: VNode?<T>, tail: VNode?<T>, i: nat, value: Option<T>)
    returns (root': VNode?<T>, tail': VNode?<T>, changed: bool, ghost nodes': set<VNode<T>>)
    requires Good(Snapshot(nodes), active) && ValidParts(Snapshot(nodes), active, owner, size, level, root, tail) && i < size
    modifies Owned(nodes, owner)
    ensures nodes <= nodes' && fresh(nodes' - nodes)
    ensures Good(Snapshot(nodes'), active) && ValidParts(Snapshot(nodes'), active, owner, size, level, root', tail')
    ensures Elements(Snapshot(nodes'), size, level, root', tail') == old(Elements(Snapshot(nodes), size, level, root, tail))[i := value]
    ensures !changed ==> root' == root && tail' == tail
                         && old(Elements(Snapshot(nodes), size, level, root, tail)) == Elements(Snapshot(nodes'), size, level, root', tail')
    ensures i >= TailOffset(size) ==> root' == root && (changed <==> value != old(Elements(Snapshot(nodes), size, level, root, tail))[i])
    ensures i >= TailOffset(size) && changed ==>
              tail' != null && tail'.items == LeafItems(if tail == null then [] else old(tail.items), i % 32, value)
  {
    hide Good, Look, ValidParts, Shows, Edited;
    ghost var heap0 := Snapshot(nodes);
    SetPlaces(heap0, active, owner, size, level, root, tail, i);
    root', tail' := root, tail;
    if i >= TailOffset(size) {
      tail', changed, nodes' := UpdateVNode(nodes, active, tail, owner, 0, i, value);
      SetTail(heap0, Snapshot(nodes'), active, owner, size, level, root, tail, tail', i, value);
      EditedParts'(heap0, Snapshot(nodes'), active, owner, 0, i, Except(i));
    } else {
      root', changed, nodes' := UpdateVNode(nodes, active, root, owner, level, i, value);
      SetTree(heap0, Snapshot(nodes'), active, owner, size, level, root, tail, root', i, value);
      EditedParts'(heap0, Snapshot(nodes'), active, owner, level, i, Except(i));
    }
    if !changed { SameElement(heap0, size, level, root, tail, i, value); }
  }

  /** Either half of setListBounds. */
  method NewBounds<T>(ghost nodes: set<VNode<T>>, ghost active: set<Owner?>, owner: Owner, size: nat, level: nat,
                      root: VNode?<T>, tail: VNode?<T>, newSize: nat)
    returns (level': nat, root': VNode?<T>, tail': VNode?<T>, ghost nodes': set<VNode<T>>)
    requires Good(Snapshot(nodes), active) && ValidParts(Snapshot(nodes), active, owner, size, level, root, tail)
    requires 0 < newSize != size
    modifies Owned(nodes, owner)
    ensures nodes <= nodes' && fresh(nodes' - nodes)
    ensures Good(Snapshot(nodes'), active) && ValidParts(Snapshot(nodes'), active, owner, newSize, level', root', tail')
    ensures Elements(Snapshot(nodes'), newSize, level', root', tail') == Resized(old(Snapshot(nodes)), size, level, root, tail, newSize)
    ensures RootKept(size, level, root, newSize, level', root')
  {
    hide Good, ShowsParts, ValidParts, Elem, GrownElem;
    ghost var heap0 := Snapshot(nodes);
    if newSize < size {
      TailMonotone(newSize, size);
      level', root', tail', nodes' := Shrink(nodes, active, owner, size, level, root, tail, newSize);
      PartsPrefix(heap0, size, level, root, tail, Snapshot(nodes'), newSize, level', root', tail');
    } else {
      TailMonotone(size, newSize);
      level', root', tail', nodes' := Grow(nodes, active, owner, size, level, root, tail, newSize);
    }
  }

  class List<T(==)> {
    var size: nat
    var level: nat
    var root: VNode?<T>
    var tail: VNode?<T>
    var ownerID: Owner?
    var altered: bool

    constructor (size: nat, level: nat, root: VNode?<T>, tail: VNode?<T>, ownerID: Owner?)
      ensures this.size == size && this.level == level && this.root == root && this.tail == tail
      ensures this.ownerID == ownerID && !altered
    {
      this.size, this.level, this.root, this.tail, this.ownerID := size, level, root, tail, ownerID;
      this.altered := false;
    }

    /** The list is well formed, and if it is being edited its owner is active. */
    ghost predicate Valid(nodes: set<VNode<T>>, active: set<Owner?>)
      reads this, nodes
    {
      && ValidParts(Snapshot(nodes), active, ownerID, size, level, root, tail)
      && (ownerID != null ==> ownerID in active)
    }

    ghost function Contents(nodes: set<VNode<T>>): (r: seq<Option<T>>)
      reads this, nodes
      ensures |r| == size
    {
      Elements(Snapshot(nodes), size, level, root, tail)
    }

    /** get: an index may count from the end; outside the list it reads as absent. */
    method Get(ghost nodes: set<VNode<T>>, ghost active: set<Owner?>, index: int) returns (value: Option<T>)
      requires Good(Snapshot(nodes), active) && Valid(nodes, active)
      ensures var i := if index < 0 then size + index else index;
              value == if 0 <= i < size then Contents(nodes)[i] else None
    {
      hide Good, Look, Shr;
      var i := if index < 0 then size + index else index;
      if i < 0 || i >= size { return None; }
      var n: VNode?<T> := tail;
      if i < TailOffset(size) {
        TreeIndex(i, TailOffset(size), level);
        n := LeafFor(nodes, active, root, ownerID, level, i);
      }
      value := if n != null && i % 32 < |n.items| then FromSlot(n.items[i % 32]) else None;
      TailBlock(i);
      LeafLook(Snapshot(nodes), active, n, i);
    }

    /** setListBounds(begin = 0, end): a negative end counts from the size. */
    method SetListBounds(ghost nodes: set<VNode<T>>, ghost active: set<Owner?>, end: int)
      returns (r: List<T>, ghost nodes': set<VNode<T>>)
      requires Good(Snapshot(nodes), active) && Valid(nodes, active)
      modifies Owned(nodes, ownerID), if ownerID != null then {this} else {}
      ensures nodes <= nodes' && fresh(nodes' - nodes) && Good(Snapshot(nodes'), active) && r.Valid(nodes', active)
      ensures r.ownerID == old(ownerID) && (old(ownerID) != null ==> r == this) && (r == this || fresh(r))
      ensures var newSize := if end < 0 then old(size) + end else end;
              && r.Contents(nodes') == Resized(old(Snapshot(nodes)), old(size), old(level), old(root), old(tail), if newSize < 0 then 0 else newSize)
              && (newSize > 0 ==> RootKept(old(size), old(level), old(root), newSize, r.level, r.root))
              && (newSize > old(size) && old(ownerID) != null ==> r.altered)
      ensures (if end < 0 then old(size) + end else end) == old(size) ==> r == this && unchanged(this)
      ensures old(altered) && old(ownerID) != null ==> r.altered
      ensures old(ownerID) != null && !r.altered ==> r.Contents(nodes') == old(Contents(nodes))
    {
      hide Good, ValidParts, GrownElem, Elem;
      var newSize := if end < 0 then size + end else end;
      nodes' := nodes;
      if newSize == size {
        r := this;
      } else if newSize <= 0 {
        r := Clear(nodes, active);
      } else {
        r, nodes' := Resize(nodes, active, newSize);
      }
    }

    /** The bounds change, under an owner of its own unless one is active. */
    method Resize(ghost nodes: set<VNode<T>>, ghost active: set<Owner?>, newSize: nat)
      returns (r: List<T>, ghost nodes': set<VNode<T>>)
      requires Good(Snapshot(nodes), active) && Valid(nodes, active) && 0 < newSize != size
      modifies Owned(nodes, ownerID), if ownerID != null then {this} else {}
      ensures nodes <= nodes' && fresh(nodes' - nodes) && Good(Snapshot(nodes'), active) && r.Valid(nodes', active)
      ensures r.ownerID == old(ownerID) && (old(ownerID) != null ==> r == this && r.altered) && (r == this || fresh(r))
      ensures r.Contents(nodes') == Resized(old(Snapshot(nodes)), old(size), old(level), old(root), old(tail), newSize)
      ensures RootKept(old(size), old(level), old(root), newSize, r.level, r.root)
    {
      hide Good, ValidParts, Elements, Resized, RootKept;
      ghost var heap0 := Snapshot(nodes);
      var owner: Owner;
      if ownerID == null {
        owner := new Owner();
        AnyOwner(heap0, active, owner, size, level, root, tail);
      } else {
        owner := ownerID;
      }
      var level', root', tail';
      level', root', tail', nodes' := NewBounds(nodes, active, owner, size, level, root, tail, newSize);
      if ownerID != null {
        size, level, root, tail, altered := newSize, level', root', tail', true;
        r := this;
      } else {
        OwnerRetired(Snapshot(nodes'), active, owner, newSize, level', root', tail');
        r := new List(newSize, level', root', tail', null);
      }
    }

    method Clear(ghost nodes: set<VNode<T>>, ghost active: set<Owner?>) returns (r: List<T>)
      requires Good(Snapshot(nodes), active) && Valid(nodes, active)
      modifies if ownerID != null then {this} else {}
      ensures r.Valid(nodes, active) && r.Contents(nodes) == []
      ensures r.ownerID == old(ownerID) && (old(ownerID) != null ==> r == this) && (r == this || fresh(r))
      ensures old(ownerID) != null && !r.altered ==> old(size) == 0
      ensures old(ownerID) != null && old(altered) ==> r.altered
    {
      if size == 0 {
        r := this;
      } else if ownerID != null {
        size, level, root, tail, altered := 0, 5, null, null, true;
        r := this;
      } else {
        r := new List(0, 5, null, null, null);
      }
    }

    /** updateList, for an index inside the list; an index may count from the end. */
    method SetInside(ghost nodes: set<VNode<T>>, ghost active: set<Owner?>, index: int, value: Option<T>)
      returns (r: List<T>, ghost nodes': set<VNode<T>>)
      requires Good(Snapshot(nodes), active) && Valid(nodes, active)
      requires 0 <= (if index < 0 then size + index else index) < size
      modifies Owned(nodes, ownerID), if ownerID != null then {this} else {}
      ensures nodes <= nodes' && fresh(nodes' - nodes) && Good(Snapshot(nodes'), active) && r.Valid(nodes', active)
      ensures r.ownerID == old(ownerID) && (old(ownerID) != null ==> r == this) && (r == this || fresh(r))
      ensures old(ownerID) != null && old(altered) ==> r.altered
      ensures old(ownerID) != null && !r.altered ==> r.Contents(nodes') == old(Contents(nodes))
      ensures r.Contents(nodes')
           == old(Contents(nodes))[if index < 0 then old(size) + index else index := value]
      ensures r.level == old(level)
      ensures var i := if index < 0 then old(size) + index else index;
              i >= TailOffset(old(size)) ==>
                && r.root == old(root)
                && (value.None? && old(Contents(nodes))[i].Some? && old(tail) != null && i % 32 == |old(tail.items)| - 1 ==>
                      r.tail != null && r.tail.items == old(tail.items)[..i % 32])
    {
      hide Good, ValidParts, Elements;
      var i := if index < 0 then size + index else index;
      var root', tail', changed;
      root', tail', changed, nodes' := Assigned(nodes, active, ownerID, size, level, root, tail, i, value);
      if !changed {
        r := this;
      } else if ownerID != null {
        root, tail, altered := root', tail', true;
        r := this;
      } else {
        r := new List(size, level, root', tail', null);
      }
    }

    /** An index past the end: the bounds grow, then the index is assigned. */
    method SetPast(ghost nodes: set<VNode<T>>, ghost active: set<Owner?>, index: nat, value: Option<T>) returns (ghost nodes': set<VNode<T>>)
      requires Good(Snapshot(nodes), active) && Valid(nodes, active) && ownerID != null && index >= size
      modifies Owned(nodes, ownerID), this
      ensures nodes <= nodes' && fresh(nodes' - nodes) && Good(Snapshot(nodes'), active) && Valid(nodes', active)
      ensures ownerID == old(ownerID) && altered
      ensures Contents(nodes') == Resized(old(Snapshot(nodes)), old(size), old(level), old(root), old(tail), index + 1)[index := value]
    {
      hide Good, ValidParts, Elements, Resized, RootKept, GrownElem, Elem;
      var r;
      r, nodes' := SetListBounds(nodes, active, index + 1);
      r, nodes' := SetInside(nodes', active, index, value);
    }

    /** set: an index may count from the end; one past the end makes the list grow. */
    method Set(ghost nodes: set<VNode<T>>, ghost active: set<Owner?>, index: int, value: Option<T>)
      returns (r: List<T>, ghost nodes': set<VNode<T>>)
      requires Good(Snapshot(nodes), active) && Valid(nodes, active)
      requires 0 <= size + index
      modifies Owned(nodes, ownerID), if ownerID != null then {this} else {}
      ensures nodes <= nodes' && fresh(nodes' - nodes) && Good(Snapshot(nodes'), active) && r.Valid(nodes', active)
      ensures r.ownerID == old(ownerID) && (old(ownerID) != null ==> r == this) && (r == this || fresh(r))
      ensures old(ownerID) != null && old(altered) ==> r.altered
      ensures old(ownerID) != null && !r.altered ==> r.Contents(nodes') == old(Contents(nodes))
      ensures var i := if index < 0 then old(size) + index else index;
              r.Contents(nodes') == if i < old(size) then old(Contents(nodes))[i := value]
                                    else Resized(old(Snapshot(nodes)), old(size), old(level), old(root), old(tail), i + 1)[i := value]
      ensures var i := if index < 0 then old(size) + index else index;
              TailOffset(old(size)) <= i < old(size) ==>
                && r.root == old(root) && r.level == old(level)
                && (value.None? && old(Contents(nodes))[i].Some? && old(tail) != null && i % 32 == |old(tail.items)| - 1 ==>
                      r.tail != null && r.tail.items == old(tail.items)[..i % 32])
    {
      hide Good, ValidParts, Elements, Resized, Elem;
      if index < size {
        r, nodes' := SetInside(nodes, active, index, value);
      } else if ownerID != null {
        nodes' := SetPast(nodes, active, index, value);
        r := this;
      } else {
        ghost var active1, active2;
        r, active1 := AsMutable(nodes, active);
        nodes' := r.SetPast(nodes, active1, index, value);
        active2 := r.AsImmutable(nodes', active1);
        assert active2 == active;
      }
    }

    method Pop(ghost nodes: set<VNode<T>>, ghost active: set<Owner?>) returns (r: List<T>, ghost nodes': set<VNode<T>>)
      requires Good(Snapshot(nodes), active) && Valid(nodes, active)
      modifies Owned(nodes, ownerID), if ownerID != null then {this} else {}
      ensures nodes <= nodes' && fresh(nodes' - nodes) && Good(Snapshot(nodes'), active) && r.Valid(nodes', active)
      ensures r.ownerID == old(ownerID) && (old(ownerID) != null ==> r == this) && (r == this || fresh(r))
      ensures r.Contents(nodes') == if old(size) == 0 then [] else old(Contents(nodes))[..old(size) - 1]
      ensures old(ownerID) != null && !r.altered ==> r.Contents(nodes') == old(Contents(nodes))
      ensures old(ownerID) != null && old(altered) ==> r.altered
      ensures old(size) > 1 ==> RootKept(old(size), old(level), old(root), old(size) - 1, r.level, r.root)
    {
      hide Good, ValidParts, Elements, RootKept;
      r, nodes' := SetListBounds(nodes, active, -1);
    }

    /** asMutable: the list itself when it is already being edited, otherwise a copy with a new owner. */
    method AsMutable(ghost nodes: set<VNode<T>>, ghost active: set<Owner?>) returns (r: List<T>, ghost active': set<Owner?>)
      requires Good(Snapshot(nodes), active) && Valid(nodes, active)
      ensures Good(Snapshot(nodes), active') && r.Valid(nodes, active') && r.ownerID != null
      ensures r.Contents(nodes) == Contents(nodes)
      ensures ownerID != null ==> r == this && active' == active
      ensures ownerID == null ==> fresh(r) && fresh(r.ownerID) && active' == active + {r.ownerID} && !r.altered
      ensures ownerID == null ==> r.size == size && r.level == level && r.root == root && r.tail == tail
    {
      if ownerID != null {
        return this, active;
      }
      var owner := new Owner();
      active' := active + {owner};
      r := new List(size, level, root, tail, owner);
    }

    /** asImmutable: the owner is dropped; it is active no longer. */
    method AsImmutable(ghost nodes: set<VNode<T>>, ghost active: set<Owner?>) returns (ghost active': set<Owner?>)
      requires Good(Snapshot(nodes), active) && Valid(nodes, active) && ownerID != null
      modifies `ownerID
      ensures active' == active - {old(ownerID)}
      ensures Good(Snapshot(nodes), active') && Valid(nodes, active') && ownerID == null
      ensures Contents(nodes) == old(Contents(nodes))
    {
      active' := active - {ownerID};
      ownerID := null;
    }

    /** The new indices are assigned one by one. */
    method SetLast(ghost nodes: set<VNode<T>>, ghost active: set<Owner?>, values: seq<Option<T>>)
      returns (ghost nodes': set<VNode<T>>)
      requires Good(Snapshot(nodes), active) && Valid(nodes, active) && ownerID != null && size >= |values|
      modifies Owned(nodes, ownerID), this
      ensures nodes <= nodes' && fresh(nodes' - nodes) && Good(Snapshot(nodes'), active) && Valid(nodes', active)
      ensures ownerID == old(ownerID) && size == old(size) && level == old(level)
      ensures (old(altered) ==> altered) && (values == [] ==> altered == old(altered))
      ensures Contents(nodes') == old(Contents(nodes))[..old(size) - |values|] + values
    {
      hide Good, ValidParts, Elements;
      ghost var base := Contents(nodes)[..size - |values|];
      var e := size - |values|;
      nodes' := nodes;
      for k := 0 to |values|
        invariant nodes <= nodes' && fresh(nodes' - nodes) && Good(Snapshot(nodes'), active) && Valid(nodes', active)
        invariant ownerID == old(ownerID) && size == old(size) && level == old(level)
        invariant (old(altered) ==> altered) && (values == [] ==> altered == old(altered))
        invariant Contents(nodes')[..e + k] == base + values[..k]
      {
        ghost var before := Contents(nodes');
        var r;
        r, nodes' := SetInside(nodes', active, e + k, values[k]);
        NextValue(before, Contents(nodes'), base, values, k);
      }
      assert values[..|values|] == values;
      assert Contents(nodes')[..e + |values|] == Contents(nodes');
    }

    /** The editing session of push: grow once, then assign the new indices. */
    method PushInPlace(ghost nodes: set<VNode<T>>, ghost active: set<Owner?>, values: seq<Option<T>>)
      returns (ghost nodes': set<VNode<T>>)
      requires Good(Snapshot(nodes), active) && Valid(nodes, active) && ownerID != null
      modifies Owned(nodes, ownerID), this
      ensures nodes <= nodes' && fresh(nodes' - nodes) && Good(Snapshot(nodes'), active) && Valid(nodes', active)
      ensures ownerID == old(ownerID) && (values != [] ==> altered)
      ensures values == [] ==> altered == old(altered)
      ensures Contents(nodes') == Grown(old(Snapshot(nodes)), old(size), old(level), old(root), old(tail), |values|) + values
      ensures TailOffset(old(size) + |values|) < Shl(old(level) + 5) ==> level == old(level)
    {
      hide Good, ValidParts, Elements, Grown, GrownElem, Resized;
      GrownIs(Snapshot(nodes), size, level, root, tail, |values|);
      var r;
      r, nodes' := SetListBounds(nodes, active, size + |values|);
      nodes' := SetLast(nodes', active, values);
    }

    /** push, in an editing session of its own unless one is open. */
    method Push(ghost nodes: set<VNode<T>>, ghost active: set<Owner?>, values: seq<Option<T>>)
      returns (r: List<T>, ghost nodes': set<VNode<T>>)
      requires Good(Snapshot(nodes), active) && Valid(nodes, active)
      modifies Owned(nodes, ownerID), if ownerID != null then {this} else {}
      ensures nodes <= nodes' && fresh(nodes' - nodes) && Good(Snapshot(nodes'), active) && r.Valid(nodes', active)
      ensures r.ownerID == old(ownerID) && (old(ownerID) != null ==> r == this) && (r == this || fresh(r))
      ensures r.Contents(nodes') == Grown(old(Snapshot(nodes)), old(size), old(level), old(root), old(tail), |values|) + values
      ensures old(ownerID) != null ==> r.altered == (values != [] || old(altered))
      ensures TailOffset(old(size) + |values|) < Shl(old(level) + 5) ==> r.level == old(level)
    {
      hide Good, ValidParts, Grown, Elem;
      if ownerID != null {
        nodes' := PushInPlace(nodes, active, values);
        return this, nodes';
      }
      ghost var active1;
      r, active1 := AsMutable(nodes, active);
      ghost var nodes1 := r.PushInPlace(nodes, active1, values);
      if !r.altered {
        NothingPushed(Snapshot(nodes), size, level, root, tail);
        return this, nodes;
      }
      ghost var active2 := r.AsImmutable(nodes1, active1);
      assert active2 == active;
      nodes' := nodes1;
    }
  }

  lemma NothingPushed<T>(heap: Heap<T>, size: nat, level: nat, root: VNode?<T>, tail: VNode?<T>)
    ensures Grown(heap, size, level, root, tail, 0) + [] == Elements(heap, size, level, root, tail)
  {
  }

  lemma GrownIs<T>(heap: Heap<T>, size: nat, level: nat, root: VNode?<T>, tail: VNode?<T>, more: nat)
    ensures Resized(heap, size, level, root, tail, size + more)[..size] == Grown(heap, size, level, root, tail, more)
  {
    hide Elem, GrownElem;
  }

  lemma NextValue<T>(before: seq<Option<T>>, after: seq<Option<T>>, base: seq<Option<T>>, values: seq<Option<T>>, k: nat)
    requires k < |values| && |before| == |base| + |values| && before[..|base| + k] == base + values[..k]
    requires after == before[|base| + k := values[k]]
    ensures after[..|base| + k + 1] == base + values[..k + 1]
  {
    assert after[..|base| + k] == before[..|base| + k];
    assert after[..|base| + k + 1] == after[..|base| + k] + [values[k]];
    assert values[..k + 1] == values[..k] + [values[k]];
  }
}
