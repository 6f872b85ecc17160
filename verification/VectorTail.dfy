/** Moving a full tail into the tree: the path to its place is made editable from the root down. */
module VectorTail {
  import opened Options
  import opened Owners
  import opened VectorNodes
  import opened VectorUpdate
  import opened VectorTruncate
  import opened VectorBounds

  ghost function Always(): nat -> bool { (i: nat) => true }

  ghost function OutsideLeaf(offset: nat): nat -> bool { (i: nat) => i / 32 != offset / 32 }

  /** From `n`, following the slots of `index`, one arrives at `v`. */
  ghost predicate Leads<T>(heap: Heap<T>, n: VNode<T>, level: nat, v: VNode<T>, g: nat, index: nat)
    decreases level
  {
    if level <= g then level == g && n == v
    else
      && n in heap && n.level == level && level >= 5
      && var j := Shr(index, level) % 32;
         j < |heap[n]| && heap[n][j].Sub? && Leads(heap, heap[n][j].node, level - 5, v, g, index)
  }

  lemma {:induction false} LeadsFrame<T>(heap: Heap<T>, heap': Heap<T>, n: VNode<T>, level: nat, v: VNode<T>, g: nat, index: nat)
    requires Leads(heap, n, level, v, g, index)
    requires forall m :: m in heap && m.level > g ==> m in heap' && heap'[m] == heap[m]
    ensures Leads(heap', n, level, v, g, index)
    decreases level
  {
    if level > g { LeadsFrame(heap, heap', heap[n][Shr(index, level) % 32].node, level - 5, v, g, index); }
  }

  lemma {:induction false} LeadsDown<T>(heap: Heap<T>, n: VNode<T>, level: nat, v: VNode<T>, g: nat, c: VNode<T>, index: nat)
    requires Leads(heap, n, level, v, g, index) && g >= 5 && g % 5 == 0 && level % 5 == 0
    requires v in heap && v.level == g && SlotAt(heap[v], Shr(index, g) % 32) == Sub(c)
    ensures Leads(heap, n, level, c, g - 5, index)
    decreases level
  {
    if level > g { LeadsDown(heap, heap[n][Shr(index, level) % 32].node, level - 5, v, g, c, index); }
  }

  lemma {:induction false} ShrSameUp(i: nat, k: nat, g: nat, level: nat)
    requires g % 5 == 0 && level % 5 == 0 && g <= level && Shr(i, g) == Shr(k, g)
    ensures Shr(i, level) == Shr(k, level)
  {
    if g < level {
      ShrSameUp(i, k, g, level - 5);
      ShrUp(i, level - 5);
      ShrUp(k, level - 5);
    }
  }

  lemma {:induction false} LeadsLook<T>(heap: Heap<T>, n: VNode<T>, level: nat, v: VNode<T>, g: nat, index: nat, i: nat)
    requires g % 5 == 0 && level % 5 == 0 && g <= level
    requires Leads(heap, n, level, v, g, index) && Shr(i, g + 5) == Shr(index, g + 5)
    ensures Look(heap, n, level, i) == Look(heap, v, g, i)
    decreases level
  {
    if g < level {
      ShrSameUp(i, index, g + 5, level);
      LeadsLook(heap, heap[n][Shr(index, level) % 32].node, level - 5, v, g, index, i);
    }
  }

  /** One step down: the child on the path is made editable; every node still shows the same elements. */
  lemma DescendStep<T>(heap: Heap<T>, active: set<Owner?>, v: VNode<T>, child: VNode?<T>, c: VNode<T>, index: nat)
    requires Good(heap, active) && v in heap && Covers(v, index) && v.level >= 5
    requires ChildOf(heap, v, Shr(index, v.level) % 32, child)
    requires c.ownerID == v.ownerID && c.level == v.level - 5 && c.block == Shr(index, v.level)
    requires c in heap ==> c == child
    ensures var mid := heap[c := if child == null then [] else heap[child]];
            var heap' := mid[v := PutAt(heap[v], Shr(index, v.level) % 32, Sub(c))];
            Good(heap', active) && Same(heap, heap', Always()) && c in heap' && heap'[c] == mid[c]
  {
    hide Good, Look, Fits;
    var j := Shr(index, v.level) % 32;
    WfLevel(heap, active, v);
    ChildPlaced(heap, active, v, v.ownerID, v.level, index, child);
    EditableHeap(heap, active, child, c);
    var mid := heap[c := if child == null then [] else heap[child]];
    ExtendGood(heap, active, mid);
    var items := PutAt(heap[v], j, Sub(c));
    var heap' := mid[v := items];
    SlotExtendsTo(heap, mid, active, v, child, c, j, index);
    LeafWidth(heap, active, v);
    assert Puts(mid, active, v, mid[v], items, index);
    SetHeap(mid, active, v, items, index);
    forall k: nat | Covers(v, k) ensures Look(heap', v, v.level, k) == Look(mid, v, v.level, k) {
      if k == index { LookSelf(mid, active, v, index); }
    }
    SlotsIn(mid, active, v);
    EditSame(mid, heap', v, Always());
    SameTrans(heap, mid, heap', Always());
  }

  lemma WfLevel<T>(heap: Heap<T>, active: set<Owner?>, v: VNode<T>)
    requires Good(heap, active) && v in heap
    ensures v.level % 5 == 0
  {
  }

  lemma ExtendGood<T>(heap: Heap<T>, active: set<Owner?>, mid: Heap<T>)
    requires Good(heap, active) && Extends(heap, mid)
    ensures Same(heap, mid, Always())
  {
    ExtendSame(heap, mid, Always());
  }

  lemma LookSelf<T>(heap: Heap<T>, active: set<Owner?>, v: VNode<T>, index: nat)
    requires Good(heap, active) && v in heap
    ensures Look(heap, v, v.level, index) == LookSlot(heap, SlotAt(heap[v], Shr(index, v.level) % 32), v.level, index)
  {
  }

  lemma SlotExtendsTo<T>(heap: Heap<T>, mid: Heap<T>, active: set<Owner?>, v: VNode<T>, child: VNode?<T>, c: VNode<T>, j: nat, index: nat)
    requires Good(heap, active) && Extends(heap, mid) && v in heap && v.level >= 5 && v.level % 5 == 0
    requires ChildOf(heap, v, j, child)
    requires c in mid && c.level == v.level - 5 && c.block == 32 * v.block + j
    requires forall i: nat :: Look(mid, c, c.level, i) == Look(heap, child, c.level, i)
    ensures Fits(mid, v, j, Sub(c))
    ensures forall i: nat :: LookSlot(mid, Sub(c), v.level, i) == LookSlot(mid, SlotAt(heap[v], j), v.level, i)
  {
    forall i: nat ensures LookSlot(mid, Sub(c), v.level, i) == LookSlot(mid, SlotAt(heap[v], j), v.level, i) {
      SlotIsChild(heap, active, v, j, child, v.level, i);
      SlotsIn(heap, active, v);
      SlotExtends(heap, mid, SlotAt(heap[v], j), v.level, i);
    }
  }

  /** The last step: the leaf-level slot of `offset` now holds the tail. */
  lemma HangTail<T>(heap: Heap<T>, active: set<Owner?>, v: VNode<T>, tail: VNode<T>, offset: nat)
    requires Good(heap, active) && Placed(heap, v, 5, Shr(offset, 10)) && v in heap
    requires Placed(heap, tail, 0, Shr(offset, 5)) && Mine(tail, active, v.ownerID)
    ensures var heap' := heap[v := PutAt(heap[v], Shr(offset, 5) % 32, Sub(tail))];
            && Good(heap', active) && Same(heap, heap', OutsideLeaf(offset))
            && forall i: nat :: i / 32 == offset / 32 ==> Look(heap', v, 5, i) == Look(heap, tail, 0, i)
  {
    var j := Shr(offset, 5) % 32;
    var items := PutAt(heap[v], j, Sub(tail));
    var heap' := heap[v := items];
    ShrUp(offset, 5);
    forall n | n in heap' ensures WfArray(heap', n, heap'[n]) {
      forall j' | 0 <= j' < |heap'[n]| ensures Fits(heap', n, j', heap'[n][j']) {
        if n == v && j' != j && j' < |heap[v]| { assert Fits(heap, v, j', heap[v][j']); }
        if n != v { assert Fits(heap, n, j', heap[n][j']); }
      }
    }
    forall k: nat | Covers(v, k)
      ensures k / 32 != offset / 32 ==> Look(heap', v, 5, k) == Look(heap, v, 5, k)
      ensures k / 32 == offset / 32 ==> Look(heap', v, 5, k) == Look(heap, tail, 0, k)
    {
      SameSlot(v, k, offset);
      LowerUnchanged(heap, v, items, k);
    }
    forall k: nat | k / 32 == offset / 32 ensures Look(heap', v, 5, k) == Look(heap, tail, 0, k) {
      SameBlock(k, offset, 5);
    }
    EditSame(heap, heap', v, OutsideLeaf(offset));
  }

  /** The tree with the tail hung at `offset`. */
  ghost predicate Hung<T>(before: Heap<T>, after: Heap<T>, root: VNode?<T>, r: VNode<T>, level: nat, tail: VNode<T>, offset: nat) {
    forall i: nat :: i < Shl(level + 5) ==>
      Look(after, r, level, i) == if i / 32 == offset / 32 then Look(before, tail, 0, i) else Look(before, root, level, i)
  }

  method InsertTail<T>(ghost nodes: set<VNode<T>>, ghost active: set<Owner?>, root: VNode?<T>, owner: Owner?, level: nat,
                       tail: VNode<T>, offset: nat)
    returns (r: VNode<T>, ghost nodes': set<VNode<T>>)
    requires Good(Snapshot(nodes), active) && Placed(Snapshot(nodes), root, level, 0) && Mine(root, active, owner)
    requires Placed(Snapshot(nodes), tail, 0, Shr(offset, 5)) && Mine(tail, active, owner)
    requires level >= 5 && offset < Shl(level + 5)
    modifies Owned(nodes, owner)
    ensures nodes <= nodes' && fresh(nodes' - nodes)
    ensures Edited(old(Snapshot(nodes)), Snapshot(nodes'), active, owner, level, offset, OutsideLeaf(offset))
    ensures Placed(Snapshot(nodes'), r, level, 0) && Mine(r, active, owner)
    ensures Hung(old(Snapshot(nodes)), Snapshot(nodes'), root, r, level, tail, offset)
  {
    hide Good, Look, SlotAt, Edited, Hung, Leads, Shr;
    ghost var heap0 := Snapshot(nodes);
    var v;
    r, v, nodes' := OpenPath(nodes, active, root, owner, level, offset);
    ghost var heap := Snapshot(nodes');
    SmallRoot(heap0, heap, active, owner, level, offset, tail);
    HangTail(heap, active, v, tail, offset);
    v.items := PutAt(v.items, Shr(offset, 5) % 32, Sub(tail));
    assert Snapshot(nodes') == heap[v := v.items];
    TailHung(heap0, heap, Snapshot(nodes'), active, owner, root, r, level, v, tail, offset);
  }

  /** The nodes from the root `r` down to `v` at level `g` are editable, and the tree shows what it showed. */
  ghost predicate Opened<T>(heap0: Heap<T>, heap: Heap<T>, active: set<Owner?>, owner: Owner?, root: VNode?<T>,
                            r: VNode<T>, level: nat, v: VNode<T>, g: nat, offset: nat)
  {
    && Edited(heap0, heap, active, owner, level, offset, Always())
    && ShowsTo(heap0, heap, root, level, r, level, Shl(level + 5)) && Leads(heap, r, level, v, g, offset)
    && r in heap && r.ownerID == owner && r.level == level && r.block == 0
    && v in heap && v.ownerID == owner && v.level == g && v.block == Shr(offset, g + 5)
  }

  /** The nodes from the root to the parent of the leaf at `offset`, made editable one by one. */
  method OpenPath<T>(ghost nodes: set<VNode<T>>, ghost active: set<Owner?>, root: VNode?<T>, owner: Owner?, level: nat, offset: nat)
    returns (r: VNode<T>, v: VNode<T>, ghost nodes': set<VNode<T>>)
    requires Good(Snapshot(nodes), active) && Placed(Snapshot(nodes), root, level, 0) && Mine(root, active, owner)
    requires level >= 5 && offset < Shl(level + 5)
    modifies Owned(nodes, owner)
    ensures nodes <= nodes' && fresh(nodes' - nodes) && r in nodes' && v in nodes'
    ensures Edited(old(Snapshot(nodes)), Snapshot(nodes'), active, owner, level, offset, Always())
    ensures ShowsTo(old(Snapshot(nodes)), Snapshot(nodes'), root, level, r, level, Shl(level + 5))
    ensures r.ownerID == owner && r.level == level && r.block == 0
    ensures v.ownerID == owner && v.level == 5 && v.block == Shr(offset, 10)
    ensures Leads(Snapshot(nodes'), r, level, v, 5, offset)
    ensures fresh(v) || v in Owned(nodes, owner)
  {
    hide Good, Look, SlotAt, Edited, Leads, Shr, Opened;
    ghost var heap0 := Snapshot(nodes);
    r := Editable(nodes, root, owner, level, 0);
    nodes' := nodes + {r};
    StartTail(heap0, active, root, r, level, offset);
    assert Snapshot(nodes') == heap0[r := r.items];
    v := r;
    var g := level;
    while g > 5
      invariant nodes <= nodes' && fresh(nodes' - nodes) && v in nodes' && (fresh(v) || v in Owned(nodes, owner))
      invariant g % 5 == 0 && 5 <= g <= level
      invariant Opened(heap0, Snapshot(nodes'), active, owner, root, r, level, v, g, offset)
      decreases g
    {
      ghost var heap := Snapshot(nodes');
      OpenedParts(heap0, heap, active, owner, root, r, level, v, g, offset);
      var c := Descend(nodes', active, v, owner, g, offset);
      nodes' := nodes' + {c};
      StepTail(heap0, heap, Snapshot(nodes'), active, owner, root, r, level, v, g, c, offset);
      v, g := c, g - 5;
    }
    OpenedParts(heap0, Snapshot(nodes'), active, owner, root, r, level, v, g, offset);
  }

  lemma OpenedParts<T>(heap0: Heap<T>, heap: Heap<T>, active: set<Owner?>, owner: Owner?, root: VNode?<T>,
                       r: VNode<T>, level: nat, v: VNode<T>, g: nat, offset: nat)
    requires Opened(heap0, heap, active, owner, root, r, level, v, g, offset)
    ensures Good(heap, active) && Edited(heap0, heap, active, owner, level, offset, Always())
    ensures ShowsTo(heap0, heap, root, level, r, level, Shl(level + 5)) && Leads(heap, r, level, v, g, offset)
    ensures r in heap && r.ownerID == owner && r.level == level && r.block == 0
    ensures v in heap && v.ownerID == owner && v.level == g && v.block == Shr(offset, g + 5)
  {
    hide Look, Same, ShowsTo, Leads;
  }

  lemma EditedGood<T>(heap0: Heap<T>, heap: Heap<T>, active: set<Owner?>, owner: Owner?, level: nat, index: nat, keep: nat -> bool)
    requires Edited(heap0, heap, active, owner, level, index, keep)
    ensures Good(heap, active) && Same(heap0, heap, keep) && heap0.Keys <= heap.Keys
  {
  }

  lemma SmallRoot<T>(heap0: Heap<T>, heap: Heap<T>, active: set<Owner?>, owner: Owner?, level: nat, offset: nat, tail: VNode<T>)
    requires Good(heap0, active) && Edited(heap0, heap, active, owner, level, offset, Always())
    requires Placed(heap0, tail, 0, Shr(offset, 5))
    ensures Good(heap, active) && Placed(heap, tail, 0, Shr(offset, 5))
  {
  }

  method Descend<T>(ghost nodes: set<VNode<T>>, ghost active: set<Owner?>, v: VNode<T>, owner: Owner?, g: nat, offset: nat)
    returns (c: VNode<T>)
    requires Good(Snapshot(nodes), active) && v in nodes && v.ownerID == owner
    requires g >= 10 && g % 5 == 0 && v.level == g && v.block == Shr(offset, g + 5)
    modifies v
    ensures c in nodes ==> owner != null
    ensures c !in nodes ==> fresh(c)
    ensures c.ownerID == owner && c.level == g - 5 && c.block == Shr(offset, g)
    ensures Good(Snapshot(nodes + {c}), active) && Same(old(Snapshot(nodes)), Snapshot(nodes + {c}), Always())
    ensures SlotAt(v.items, Shr(offset, g) % 32) == Sub(c)
    ensures forall n :: n in nodes && n != v ==> n.items == old(n.items)
  {
    hide Good, Look, SlotAt, PutAt, Same, ChildOf, Shr;
    ghost var heap := Snapshot(nodes);
    var j := Shr(offset, g) % 32;
    var child: VNode?<T> := if j < |v.items| && v.items[j].Sub? then v.items[j].node else null;
    SlotChild(heap, v, j, child);
    ChildPlaced(heap, active, v, owner, g, offset, child);
    c := Editable(nodes, child, owner, g - 5, Shr(offset, g));
    DescendStep(heap, active, v, child, c, offset);
    v.items := PutAt(v.items, j, Sub(c));
    PutAtSlot(old(v.items), j, Sub(c));
    ghost var mid: Heap<T> := heap[c := if child == null then [] else heap[child]];
    assert Snapshot(nodes + {c}) == mid[v := v.items];
  }

  lemma PutAtSlot<T>(items: seq<Slot<T>>, j: nat, slot: Slot<T>)
    ensures SlotAt(PutAt(items, j, slot), j) == slot
  {
  }

  lemma StepTail<T>(heap0: Heap<T>, heap: Heap<T>, heap': Heap<T>, active: set<Owner?>, owner: Owner?, root: VNode?<T>,
                    r: VNode<T>, level: nat, v: VNode<T>, g: nat, c: VNode<T>, offset: nat)
    requires Opened(heap0, heap, active, owner, root, r, level, v, g, offset) && 10 <= g <= level && g % 5 == 0 && level % 5 == 0
    requires heap'.Keys == heap.Keys + {c} && (forall n :: n in heap && n != v ==> heap'[n] == heap[n])
    requires c.ownerID == owner && c.level == g - 5 && c.block == Shr(offset, g) && SlotAt(heap'[v], Shr(offset, g) % 32) == Sub(c)
    requires Good(heap', active) && Same(heap, heap', Always())
    ensures Opened(heap0, heap', active, owner, root, r, level, c, g - 5, offset)
  {
    hide Good, Look;
    SameTrans(heap0, heap, heap', Always());
    forall i: nat | i < Shl(level + 5) ensures Look(heap', r, level, i) == Look(heap0, root, level, i) {
      ShrZero(i, level + 5);
      assert Covers(r, i) && Always()(i);
      assert Look(heap, r, level, i) == Look(heap0, root, level, i);
    }
    LeadsFrame(heap, heap', r, level, v, g, offset);
    LeadsDown(heap', r, level, v, g, c, offset);
  }

  lemma TailHung<T>(heap0: Heap<T>, heap: Heap<T>, heap': Heap<T>, active: set<Owner?>, owner: Owner?, root: VNode?<T>,
                    r: VNode<T>, level: nat, v: VNode<T>, tail: VNode<T>, offset: nat)
    requires Edited(heap0, heap, active, owner, level, offset, Always())
    requires ShowsTo(heap0, heap, root, level, r, level, Shl(level + 5)) && r in heap && r.level == level && r.block == 0
    requires Leads(heap, r, level, v, 5, offset) && level >= 5 && level % 5 == 0
    requires v in heap && v.level == 5 && Covers(v, offset)
    requires tail in heap0 && tail.level == 0 && tail.block == Shr(offset, 5)
    requires heap'.Keys == heap.Keys && (forall n :: n in heap && n != v ==> heap'[n] == heap[n])
    requires Good(heap', active) && Same(heap, heap', OutsideLeaf(offset))
    requires forall i: nat :: i / 32 == offset / 32 ==> Look(heap', v, 5, i) == Look(heap, tail, 0, i)
    ensures Edited(heap0, heap', active, owner, level, offset, OutsideLeaf(offset))
    ensures Hung(heap0, heap', root, r, level, tail, offset)
  {
    hide Good, Look;
    assert Same(heap0, heap, OutsideLeaf(offset)) by {
      forall n, i: nat | n in heap0 && Covers(n, i) ensures n in heap && Look(heap, n, n.level, i) == Look(heap0, n, n.level, i) {
        assert Always()(i);
      }
    }
    SameTrans(heap0, heap, heap', OutsideLeaf(offset));
    LeadsFrame(heap, heap', r, level, v, 5, offset);
    forall i: nat | i < Shl(level + 5)
      ensures Look(heap', r, level, i) == if i / 32 == offset / 32 then Look(heap0, tail, 0, i) else Look(heap0, root, level, i)
    {
      ShrZero(i, level + 5);
      assert Covers(r, i);
      if i / 32 == offset / 32 {
        SameBlock(i, offset, 5);
        LeadsLook(heap', r, level, v, 5, offset, i);
        SameBlock(i, offset, 0);
        assert Covers(tail, i) && Always()(i);
      } else {
        assert OutsideLeaf(offset)(i);
        assert Look(heap, r, level, i) == Look(heap0, root, level, i);
      }
    }
  }

  lemma StartTail<T>(heap: Heap<T>, active: set<Owner?>, root: VNode?<T>, r: VNode<T>, level: nat, offset: nat)
    requires Good(heap, active) && Placed(heap, root, level, 0) && Mine(root, active, r.ownerID)
    requires r.level == level && r.block == 0 && (r in heap ==> r == root)
    requires level >= 5 && offset < Shl(level + 5)
    ensures Shr(offset, level + 5) == 0
    ensures var heap' := heap[r := if root == null then [] else heap[root]];
            Opened(heap, heap', active, r.ownerID, root, r, level, r, level, offset)
  {
    EditableHeap(heap, active, root, r);
    ShrZero(offset, level + 5);
    var heap' := heap[r := if root == null then [] else heap[root]];
    ExtendGood(heap, active, heap');
  }
}
