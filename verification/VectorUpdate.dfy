/** Editing the vector trie: copy-or-edit of a node, the update of one index, and truncation. */
module VectorUpdate {
  import opened Options
  import opened Owners
  import opened VectorNodes

  ghost function Except(index: nat): nat -> bool { (i: nat) => i != index }

  ghost function Below(end: nat): nat -> bool { (i: nat) => i < end }

  ghost predicate Good<T>(heap: Heap<T>, active: set<Owner?>) {
    WfHeap(heap) && Sealed(heap, active) && null !in active
  }

  /** `node`, if there is one, is the node for this position. */
  ghost predicate Placed<T>(heap: Heap<T>, node: VNode?<T>, level: nat, block: nat) {
    level % 5 == 0 && (node != null ==> node in heap && node.level == level && node.block == block)
  }

  ghost predicate Mine<T>(node: VNode?<T>, active: set<Owner?>, owner: Owner?) {
    node != null && node.ownerID in active ==> node.ownerID == owner
  }

  ghost function Owned<T>(nodes: set<VNode<T>>, owner: Owner?): set<VNode<T>> {
    set n | n in nodes && owner != null && n.ownerID == owner
  }

  function ToSlot<T>(value: Option<T>): Slot<T> {
    match value
    case None => Undef
    case Some(v) => Item(v)
  }

  function FromSlot<T>(slot: Slot<T>): Option<T> {
    if slot.Item? then Some(slot.value) else None
  }

  /** Assigning past the end of a JavaScript array leaves holes. */
  function PutAt<T>(items: seq<Slot<T>>, j: nat, slot: Slot<T>): seq<Slot<T>> {
    if j < |items| then items[j := slot] else items + seq(j - |items|, _ => Undef) + [slot]
  }

  function SlotAt<T>(items: seq<Slot<T>>, j: nat): Slot<T> {
    if j < |items| then items[j] else Undef
  }

  /** The node itself when the owner may edit it, otherwise a copy the owner may edit. */
  method Editable<T>(ghost nodes: set<VNode<T>>, node: VNode?<T>, owner: Owner?, ghost level: nat, ghost block: nat)
    returns (u: VNode<T>)
    requires Placed(Snapshot(nodes), node, level, block)
    ensures u in nodes ==> u == node && owner != null
    ensures u !in nodes ==> fresh(u)
    ensures u.ownerID == owner && u.level == level && u.block == block
    ensures u.items == if node == null then [] else node.items
  {
    if owner != null && node != null && owner == node.ownerID {
      u := node;
    } else {
      u := new VNode(if node == null then [] else node.items, owner, level, block);
    }
  }

  /** The heap around a node made editable: nothing else changed, and the node shows the same elements. */
  lemma EditableHeap<T>(heap: Heap<T>, active: set<Owner?>, node: VNode?<T>, u: VNode<T>)
    requires Good(heap, active) && Placed(heap, node, u.level, u.block) && Mine(node, active, u.ownerID)
    requires u in heap ==> u == node
    ensures var items := if node == null then [] else heap[node];
            var heap' := heap[u := items];
            && Good(heap', active) && Extends(heap, heap')
            && forall i: nat :: Look(heap', u, u.level, i) == Look(heap, node, u.level, i)
  {
    var items := if node == null then [] else heap[node];
    var heap' := heap[u := items];
    forall n | n in heap' ensures WfArray(heap', n, heap'[n]) {
      if n in heap || node != null {
        var from: VNode<T> := if n in heap then n else node;
        assert forall j :: 0 <= j < |heap[from]| ==> Fits(heap, from, j, heap[from][j]);
      }
    }
    forall i: nat ensures Look(heap', u, u.level, i) == Look(heap, node, u.level, i) {
      if node != null && u.level >= 5 {
        var j := Shr(i, u.level) % 32;
        if j < |items| && items[j].Sub? {
          assert Fits(heap, node, j, items[j]);
          LookExtends(heap, heap', items[j].node, u.level - 5, i);
        }
      }
    }
  }

  lemma SameSlot<T>(u: VNode<T>, i: nat, k: nat)
    requires u.level % 5 == 0 && Covers(u, i) && Covers(u, k)
    ensures Shr(i, u.level) == 32 * u.block + Shr(i, u.level) % 32
    ensures Shr(i, u.level) % 32 == Shr(k, u.level) % 32 <==> Shr(i, u.level) == Shr(k, u.level)
  {
    ShrUp(i, u.level);
    ShrUp(k, u.level);
  }

  /** The element one slot of a node shows for index `i`. */
  ghost function LookSlot<T>(heap: Heap<T>, slot: Slot<T>, level: nat, i: nat): Option<T> {
    match slot
    case Undef => None
    case Item(v) => if level == 0 then Some(v) else None
    case Sub(m) => if level < 5 then None else Look(heap, m, level - 5, i)
  }

  /** The other indices below a slot keep their elements. */
  ghost predicate SlotKeeps<T>(heap: Heap<T>, level: nat, slot: Slot<T>, was: Slot<T>, index: nat) {
    forall i: nat :: Shr(i, level) == Shr(index, level) && i != index ==>
      LookSlot(heap, slot, level, i) == LookSlot(heap, was, level, i)
  }

  /** `items` may replace `was` in node `u` when only the slot of `index` differs, and fits there. */
  ghost predicate Puts<T>(heap: Heap<T>, active: set<Owner?>, u: VNode<T>, was: seq<Slot<T>>, items: seq<Slot<T>>, index: nat) {
    var j := Shr(index, u.level) % 32;
    && |items| <= 32
    && (forall j' :: 0 <= j' < 32 && j' != j ==> SlotAt(items, j') == SlotAt(was, j'))
    && Fits(heap, u, j, SlotAt(items, j))
    && (SlotAt(items, j).Sub? ==> Mine(SlotAt(items, j).node, active, u.ownerID))
    && (u.level > 0 ==> SlotKeeps(heap, u.level, SlotAt(items, j), SlotAt(was, j), index))
  }

  /** Changing one slot of a node, such that the other indices below that slot keep their elements. */
  lemma SetHeap<T>(heap: Heap<T>, active: set<Owner?>, u: VNode<T>, items: seq<Slot<T>>, index: nat)
    requires Good(heap, active) && u in heap && Covers(u, index) && Puts(heap, active, u, heap[u], items, index)
    ensures var heap' := heap[u := items];
            && Good(heap', active) && Same(heap, heap', Except(index))
            && Look(heap', u, u.level, index) == LookSlot(heap, SlotAt(items, Shr(index, u.level) % 32), u.level, index)
  {
    var j := Shr(index, u.level) % 32;
    var heap' := heap[u := items];
    forall n | n in heap' ensures WfArray(heap', n, heap'[n]) {
      forall j' | 0 <= j' < |heap'[n]| ensures Fits(heap', n, j', heap'[n][j']) {
        if n == u && j' != j {
          assert SlotAt(items, j') == SlotAt(heap[u], j');
          if j' < |heap[u]| { assert Fits(heap, u, j', heap[u][j']); }
        }
        if n != u { assert Fits(heap, n, j', heap[n][j']); }
      }
    }
    forall n, j' | n in heap' && 0 <= j' < |heap'[n]| && heap'[n][j'].Sub? && heap'[n][j'].node.ownerID in active
      ensures heap'[n][j'].node.ownerID == n.ownerID
    {
      if n == u && j' != j { assert SlotAt(items, j') == SlotAt(heap[u], j'); }
    }
    forall i: nat | Covers(u, i)
      ensures Look(heap', u, u.level, i) == LookSlot(heap, SlotAt(items, Shr(i, u.level) % 32), u.level, i)
      ensures i != index ==> Look(heap', u, u.level, i) == Look(heap, u, u.level, i)
    {
      LowerUnchanged(heap, u, items, i);
      SameSlot(u, i, index);
      var j' := Shr(i, u.level) % 32;
      if j' != j { assert SlotAt(items, j') == SlotAt(heap[u], j'); }
    }
    EditSame(heap, heap', u, Except(index));
  }

  /** What lies below a node does not depend on the node. */
  lemma LowerUnchanged<T>(heap: Heap<T>, u: VNode<T>, items: seq<Slot<T>>, i: nat)
    requires WfHeap(heap) && u in heap && |items| <= 32
    requires var slot := SlotAt(items, Shr(i, u.level) % 32); slot.Sub? ==> slot.node in heap && slot.node.level < u.level
    ensures Look(heap[u := items], u, u.level, i) == LookSlot(heap, SlotAt(items, Shr(i, u.level) % 32), u.level, i)
  {
    var slot := SlotAt(items, Shr(i, u.level) % 32);
    if slot.Sub? && u.level >= 5 {
      BelowUnchanged(heap, u, items, slot.node, u.level - 5, i);
    }
  }

  lemma {:induction false} BelowUnchanged<T>(heap: Heap<T>, u: VNode<T>, items: seq<Slot<T>>, n: VNode<T>, level: nat, i: nat)
    requires WfHeap(heap) && u in heap && n in heap && n.level < u.level
    ensures Look(heap[u := items], n, level, i) == Look(heap, n, level, i)
    decreases level
  {
    var j := Shr(i, level) % 32;
    if level >= 5 && j < |heap[n]| && heap[n][j].Sub? {
      assert Fits(heap, n, j, heap[n][j]);
      BelowUnchanged(heap, u, items, heap[n][j].node, level - 5, i);
    }
  }

  /** What an edit at `index` may do to the heap: change owned nodes on the way to `index`, add nodes of the owner,
      and keep every element of every node at every index that `keep` selects. */
  ghost predicate Edited<T>(before: Heap<T>, after: Heap<T>, active: set<Owner?>, owner: Owner?,
                            level: nat, index: nat, keep: nat -> bool)
  {
    && before.Keys <= after.Keys
    && (forall n :: n in after && n !in before ==> n.ownerID == owner)
    && (forall n :: n in before && after[n] != before[n] ==> n.level <= level && Covers(n, index))
    && Good(after, active)
    && Same(before, after, keep)
  }

  lemma PutsExtends<T>(heap: Heap<T>, mid: Heap<T>, active: set<Owner?>, u: VNode<T>,
                       was: seq<Slot<T>>, items: seq<Slot<T>>, index: nat)
    requires WfHeap(heap) && Extends(heap, mid) && Puts(heap, active, u, was, items, index)
    requires forall j :: 0 <= j < |was| && was[j].Sub? ==> was[j].node in heap
    ensures Puts(mid, active, u, was, items, index)
    ensures var slot := SlotAt(items, Shr(index, u.level) % 32);
            LookSlot(mid, slot, u.level, index) == LookSlot(heap, slot, u.level, index)
  {
    var j := Shr(index, u.level) % 32;
    forall i: nat
      ensures LookSlot(mid, SlotAt(items, j), u.level, i) == LookSlot(heap, SlotAt(items, j), u.level, i)
      ensures LookSlot(mid, SlotAt(was, j), u.level, i) == LookSlot(heap, SlotAt(was, j), u.level, i)
    {
      SlotExtends(heap, mid, SlotAt(items, j), u.level, i);
      SlotExtends(heap, mid, SlotAt(was, j), u.level, i);
    }
  }

  lemma SlotExtends<T>(heap: Heap<T>, mid: Heap<T>, slot: Slot<T>, level: nat, i: nat)
    requires WfHeap(heap) && Extends(heap, mid)
    requires slot.Sub? ==> slot.node in heap
    ensures LookSlot(mid, slot, level, i) == LookSlot(heap, slot, level, i)
  {
    if slot.Sub? && level >= 5 { LookExtends(heap, mid, slot.node, level - 5, i); }
  }

  /** Replacing one slot of a node made editable. */
  lemma PutSlot<T>(heap: Heap<T>, active: set<Owner?>, node: VNode?<T>, u: VNode<T>, items: seq<Slot<T>>, index: nat)
    requires Good(heap, active) && Placed(heap, node, u.level, u.block) && Mine(node, active, u.ownerID)
    requires u in heap ==> u == node
    requires Covers(u, index) && Puts(heap, active, u, if node == null then [] else heap[node], items, index)
    ensures var heap' := heap[u := items];
            && Good(heap', active) && Same(heap, heap', Except(index))
            && Look(heap', u, u.level, index) == LookSlot(heap, SlotAt(items, Shr(index, u.level) % 32), u.level, index)
            && forall i: nat :: Covers(u, i) && i != index ==> Look(heap', u, u.level, i) == Look(heap, node, u.level, i)
  {
    hide Puts, Same, Good, Look;
    var was := if node == null then [] else heap[node];
    var mid := heap[u := was];
    EditableHeap(heap, active, node, u);
    SlotsIn(heap, active, node);
    PutsExtends(heap, mid, active, u, was, items, index);
    SetHeap(mid, active, u, items, index);
    assert heap[u := items] == mid[u := items];
    ExtendSame(heap, mid, Except(index));
    SameTrans(heap, mid, heap[u := items], Except(index));
    SameAt(mid, heap[u := items], u, index);
  }

  lemma SlotsIn<T>(heap: Heap<T>, active: set<Owner?>, node: VNode?<T>)
    requires Good(heap, active)
    ensures WfHeap(heap)
    ensures node in heap ==> forall j :: 0 <= j < |heap[node]| && heap[node][j].Sub? ==> heap[node][j].node in heap
  {
    if node in heap {
      assert forall j :: 0 <= j < |heap[node]| ==> Fits(heap, node, j, heap[node][j]);
    }
  }

  lemma SameAt<T>(before: Heap<T>, after: Heap<T>, u: VNode<T>, index: nat)
    requires Same(before, after, Except(index)) && u in before
    ensures forall i: nat :: Covers(u, i) && i != index ==> Look(after, u, u.level, i) == Look(before, u, u.level, i)
  {
  }

  /** The postcondition of an update, as seen through lookups. */
  ghost predicate Shows<T>(before: Heap<T>, after: Heap<T>, node: VNode?<T>, r: VNode?<T>, level: nat, index: nat, value: Option<T>) {
    forall i: nat :: Shr(i, level + 5) == Shr(index, level + 5) ==>
      Look(after, r, level, i) == if i == index then value else Look(before, node, level, i)
  }

  ghost predicate ChildOf<T>(heap: Heap<T>, node: VNode?<T>, j: nat, child: VNode?<T>) {
    var slot := SlotAt(if node == null || node !in heap then [] else heap[node], j);
    child == if slot.Sub? then slot.node else null
  }

  lemma ChildPlaced<T>(heap: Heap<T>, active: set<Owner?>, node: VNode?<T>, owner: Owner?, level: nat, index: nat, child: VNode?<T>)
    requires Good(heap, active) && level >= 5 && Placed(heap, node, level, Shr(index, level + 5)) && Mine(node, active, owner)
    requires ChildOf(heap, node, Shr(index, level) % 32, child)
    ensures Shr(index, level + 5) == Shr(index, level) / 32
    ensures Placed(heap, child, level - 5, Shr(index, level)) && Mine(child, active, owner)
    ensures forall i: nat :: Shr(i, level + 5) == Shr(index, level + 5) && Shr(i, level) % 32 == Shr(index, level) % 32 ==>
              Shr(i, level) == Shr(index, level) && Look(heap, node, level, i) == Look(heap, child, level - 5, i)
  {
    ShrUp(index, level);
    var j := Shr(index, level) % 32;
    if child != null { assert Fits(heap, node, j, heap[node][j]); }
    forall i: nat | Shr(i, level + 5) == Shr(index, level + 5) && Shr(i, level) % 32 == j
      ensures Shr(i, level) == Shr(index, level) && Look(heap, node, level, i) == Look(heap, child, level - 5, i)
    {
      ShrUp(i, level);
      if node != null && j < |heap[node]| { assert Fits(heap, node, j, heap[node][j]); }
    }
  }

  /** The child was edited in place: so was the node. */
  lemma EditedBelow<T>(heap0: Heap<T>, heap1: Heap<T>, active: set<Owner?>, node: VNode?<T>, owner: Owner?,
                       level: nat, index: nat, child: VNode?<T>, value: Option<T>)
    requires Good(heap0, active) && Good(heap1, active) && Same(heap0, heap1, Except(index)) && level >= 5
    requires Placed(heap0, node, level, Shr(index, level + 5)) && Mine(node, active, owner)
    requires Placed(heap1, node, level, Shr(index, level + 5)) && (node != null ==> heap1[node] == heap0[node])
    requires ChildOf(heap0, node, Shr(index, level) % 32, child)
    requires Shows(heap0, heap1, child, child, level - 5, index, value)
    ensures Shows(heap0, heap1, node, node, level, index, value)
  {
    hide Good;
    ChildPlaced(heap0, active, node, owner, level, index, child);
    ChildPlaced(heap1, active, node, owner, level, index, child);
    forall i: nat | Shr(i, level + 5) == Shr(index, level + 5)
      ensures Look(heap1, node, level, i) == if i == index then value else Look(heap0, node, level, i)
    {
      if i != index && node != null { assert Covers(node, i); }
    }
  }

  /** The child was replaced. */
  lemma InnerPut<T>(heap0: Heap<T>, heap1: Heap<T>, active: set<Owner?>, node: VNode?<T>, u: VNode<T>,
                    index: nat, child: VNode?<T>, f: VNode<T>, value: Option<T>)
    requires Good(heap0, active) && Good(heap1, active) && Same(heap0, heap1, Except(index)) && u.level >= 5
    requires Placed(heap0, node, u.level, Shr(index, u.level + 5)) && Mine(node, active, u.ownerID)
    requires Placed(heap1, node, u.level, Shr(index, u.level + 5)) && (node != null ==> heap1[node] == heap0[node])
    requires u in heap1 ==> u == node
    requires u.block == Shr(index, u.level + 5)
    requires ChildOf(heap0, node, Shr(index, u.level) % 32, child)
    requires Placed(heap1, f, u.level - 5, Shr(index, u.level)) && Mine(f, active, u.ownerID)
    requires Shows(heap0, heap1, child, f, u.level - 5, index, value)
    ensures var heap2 := heap1[u := PutAt(if node == null then [] else heap1[node], Shr(index, u.level) % 32, Sub(f))];
            && Good(heap2, active) && Same(heap0, heap2, Except(index)) && Shows(heap0, heap2, node, u, u.level, index, value)
  {
    hide Good;
    var level := u.level;
    var j := Shr(index, level) % 32;
    var was := if node == null then [] else heap1[node];
    var items := PutAt(was, j, Sub(f));
    LeafWidth(heap1, active, node);
    ChildPlaced(heap0, active, node, u.ownerID, level, index, child);
    ChildPlaced(heap1, active, node, u.ownerID, level, index, child);
    assert Fits(heap1, u, j, Sub(f));
    forall i: nat | Shr(i, level) == Shr(index, level) && i != index
      ensures LookSlot(heap1, Sub(f), level, i) == LookSlot(heap1, SlotAt(was, j), level, i)
    {
      ShrUp(i, level);
      SlotIsChild(heap1, active, node, j, child, level, i);
      if child != null { assert Covers(child, i); }
    }
    assert Puts(heap1, active, u, was, items, index);
    PutSlot(heap1, active, node, u, items, index);
    var heap2 := heap1[u := items];
    SameTrans(heap0, heap1, heap2, Except(index));
    forall i: nat | Shr(i, level + 5) == Shr(index, level + 5)
      ensures Look(heap2, u, level, i) == if i == index then value else Look(heap0, node, level, i)
    {
      assert Covers(u, i);
      if i != index && node != null { assert Covers(node, i); }
    }
  }

  lemma SlotIsChild<T>(heap: Heap<T>, active: set<Owner?>, node: VNode?<T>, j: nat, child: VNode?<T>, level: nat, i: nat)
    requires Good(heap, active) && level >= 5 && (node != null ==> node in heap && node.level == level)
    requires ChildOf(heap, node, j, child)
    ensures LookSlot(heap, SlotAt(if node == null then [] else heap[node], j), level, i) == Look(heap, child, level - 5, i)
  {
    if node != null && j < |heap[node]| { assert Fits(heap, node, j, heap[node][j]); }
  }

  /** updateVNode: the trie below `node` with one index assigned; an absent value clears the index. */
  method UpdateVNode<T(==)>(ghost nodes: set<VNode<T>>, ghost active: set<Owner?>, node: VNode?<T>, owner: Owner?,
                            level: nat, index: nat, value: Option<T>)
    returns (r: VNode?<T>, altered: bool, ghost nodes': set<VNode<T>>)
    requires Good(Snapshot(nodes), active) && Placed(Snapshot(nodes), node, level, Shr(index, level + 5))
    requires Mine(node, active, owner)
    modifies Owned(nodes, owner)
    ensures nodes <= nodes' && fresh(nodes' - nodes)
    ensures Edited(old(Snapshot(nodes)), Snapshot(nodes'), active, owner, level, index, Except(index))
    ensures Placed(Snapshot(nodes'), r, level, Shr(index, level + 5)) && Mine(r, active, owner)
    ensures node != null ==> r != null
    ensures !altered ==> r == node
    ensures altered <==> value != Look(old(Snapshot(nodes)), node, level, index)
    ensures Shows(old(Snapshot(nodes)), Snapshot(nodes'), node, r, level, index, value)
    ensures level == 0 && altered ==> r != null && r.items == LeafItems(if node == null then [] else old(node.items), index % 32, value)
    decreases level, 1
  {
    hide Good, Same, Shows, Look, Fits, Shr, SlotAt;
    ghost var heap0 := Snapshot(nodes);
    var j := Shr(index, level) % 32;
    var present := node != null && j < |node.items|;
    if !present && value.None? {
      NothingThere(heap0, node, level, index);
      return node, false, nodes;
    }
    if level == 0 {
      ShrBase(index);
      r, altered, nodes' := UpdateLeaf(nodes, active, node, owner, index, value);
    } else {
      r, altered, nodes' := UpdateInner(nodes, active, node, owner, level, index, value);
    }
  }

  lemma ShrBase(index: nat)
    ensures Shr(index, 0) == index
  {
  }

  method UpdateInner<T(==)>(ghost nodes: set<VNode<T>>, ghost active: set<Owner?>, node: VNode?<T>, owner: Owner?,
                            level: nat, index: nat, value: Option<T>)
    returns (r: VNode?<T>, altered: bool, ghost nodes': set<VNode<T>>)
    requires Good(Snapshot(nodes), active) && Placed(Snapshot(nodes), node, level, Shr(index, level + 5))
    requires Mine(node, active, owner) && level > 0
    modifies Owned(nodes, owner)
    ensures nodes <= nodes' && fresh(nodes' - nodes)
    ensures Edited(old(Snapshot(nodes)), Snapshot(nodes'), active, owner, level, index, Except(index))
    ensures Placed(Snapshot(nodes'), r, level, Shr(index, level + 5)) && Mine(r, active, owner)
    ensures node != null ==> r != null
    ensures !altered ==> r == node
    ensures altered <==> value != Look(old(Snapshot(nodes)), node, level, index)
    ensures Shows(old(Snapshot(nodes)), Snapshot(nodes'), node, r, level, index, value)
    decreases level, 0
  {
    hide Good, Edited, Shows, Look, Fits, Shr, SlotAt;
    ghost var heap0 := Snapshot(nodes);
    var j := Shr(index, level) % 32;
    var child: VNode?<T> := if node != null && j < |node.items| && node.items[j].Sub? then node.items[j].node else null;
    SlotChild(heap0, node, j, child);
    ChildPlaced(heap0, active, node, owner, level, index, child);
    ghost var nodes1;
    var f;
    f, altered, nodes1 := UpdateVNode(nodes, active, child, owner, level - 5, index, value);
    EditedHigher(heap0, Snapshot(nodes1), active, owner, node, level, index, Except(index));
    if f == child {
      EditedBelow(heap0, Snapshot(nodes1), active, node, owner, level, index, child, value);
      return node, altered, nodes1;
    }
    var u := ReplaceChild(heap0, nodes1, active, node, owner, level, index, child, f, value);
    nodes' := nodes1 + {u};
    assert fresh(nodes' - nodes);
    r := u;
  }

  lemma EditedHigher<T>(before: Heap<T>, after: Heap<T>, active: set<Owner?>, owner: Owner?, node: VNode?<T>,
                        level: nat, index: nat, keep: nat -> bool)
    requires level >= 5 && Edited(before, after, active, owner, level - 5, index, keep)
    requires node != null ==> node in before && node.level == level
    ensures Edited(before, after, active, owner, level, index, keep)
    ensures Good(after, active) && Same(before, after, keep) && before.Keys <= after.Keys
    ensures node != null ==> after[node] == before[node]
  {
    hide Good, Same;
  }

  lemma SlotChild<T>(heap: Heap<T>, node: VNode?<T>, j: nat, child: VNode?<T>)
    requires node != null ==> node in heap
    requires child == if node != null && j < |heap[node]| && heap[node][j].Sub? then heap[node][j].node else null
    ensures ChildOf(heap, node, j, child)
  {
  }

  /** The last step of an update whose child was replaced; `heap0` is the heap before the child was updated. */
  method ReplaceChild<T>(ghost heap0: Heap<T>, ghost nodes: set<VNode<T>>, ghost active: set<Owner?>, node: VNode?<T>,
                         owner: Owner?, level: nat, index: nat, ghost child: VNode?<T>, f: VNode<T>, ghost value: Option<T>)
    returns (u: VNode<T>)
    requires Good(heap0, active) && level >= 5
    requires Edited(heap0, Snapshot(nodes), active, owner, level - 5, index, Except(index))
    requires Placed(heap0, node, level, Shr(index, level + 5)) && Mine(node, active, owner)
    requires Placed(Snapshot(nodes), node, level, Shr(index, level + 5)) && (node != null ==> node.items == heap0[node])
    requires ChildOf(heap0, node, Shr(index, level) % 32, child)
    requires Placed(Snapshot(nodes), f, level - 5, Shr(index, level)) && Mine(f, active, owner)
    requires Shows(heap0, Snapshot(nodes), child, f, level - 5, index, value)
    modifies if owner != null && node != null && owner == node.ownerID then {node} else {}
    ensures u in nodes ==> u == node
    ensures u !in nodes ==> fresh(u)
    ensures u.ownerID == owner && u.level == level && u.block == Shr(index, level + 5)
    ensures Edited(heap0, Snapshot(nodes + {u}), active, owner, level, index, Except(index))
    ensures Shows(heap0, Snapshot(nodes + {u}), node, u, level, index, value)
  {
    hide Good, Same, Shows, Look, Shr;
    ghost var heap1 := Snapshot(nodes);
    u := PutChild(nodes, node, owner, level, Shr(index, level + 5), Shr(index, level) % 32, f);
    InnerPut(heap0, heap1, active, node, u, index, child, f, value);
  }

  method PutChild<T>(ghost nodes: set<VNode<T>>, node: VNode?<T>, owner: Owner?, ghost level: nat, ghost block: nat,
                     j: nat, f: VNode<T>)
    returns (u: VNode<T>)
    requires Placed(Snapshot(nodes), node, level, block)
    modifies if owner != null && node != null && owner == node.ownerID then {node} else {}
    ensures u in nodes ==> u == node && owner != null
    ensures u !in nodes ==> fresh(u)
    ensures u.ownerID == owner && u.level == level && u.block == block
    ensures Snapshot(nodes + {u}) == old(Snapshot(nodes))[u := PutAt(if node == null then [] else old(node.items), j, Sub(f))]
  {
    u := Editable(nodes, node, owner, level, block);
    u.items := PutAt(u.items, j, Sub(f));
  }

  lemma NothingThere<T>(heap: Heap<T>, node: VNode?<T>, level: nat, index: nat)
    requires node != null && node in heap ==> Shr(index, level) % 32 >= |heap[node]|
    ensures Look(heap, node, level, index).None?
    ensures Same(heap, heap, Except(index)) && Shows(heap, heap, node, node, level, index, None)
  {
  }

  /** The array of a leaf after assigning one index: clearing the last one shortens it. */
  function LeafItems<T>(items: seq<Slot<T>>, j: nat, value: Option<T>): seq<Slot<T>> {
    if value.None? && j == |items| - 1 then items[..j] else PutAt(items, j, ToSlot(value))
  }

  lemma LeafPut<T>(heap: Heap<T>, active: set<Owner?>, node: VNode?<T>, u: VNode<T>, index: nat, value: Option<T>)
    requires Good(heap, active) && Placed(heap, node, 0, Shr(index, 5)) && Mine(node, active, u.ownerID)
    requires u in heap ==> u == node
    requires u.level == 0 && u.block == Shr(index, 5)
    ensures var heap' := heap[u := LeafItems(if node == null then [] else heap[node], index % 32, value)];
            && Good(heap', active) && Same(heap, heap', Except(index)) && Shows(heap, heap', node, u, 0, index, value)
  {
    hide Good, Same, Look;
    var was := if node == null then [] else heap[node];
    var items := LeafItems(was, index % 32, value);
    LeafWidth(heap, active, node);
    assert Puts(heap, active, u, was, items, index);
    PutSlot(heap, active, node, u, items, index);
  }

  lemma LeafWidth<T>(heap: Heap<T>, active: set<Owner?>, node: VNode?<T>)
    requires Good(heap, active)
    ensures node in heap ==> |heap[node]| <= 32
  {
  }

  method UpdateLeaf<T(==)>(ghost nodes: set<VNode<T>>, ghost active: set<Owner?>, node: VNode?<T>, owner: Owner?,
                           index: nat, value: Option<T>)
    returns (r: VNode?<T>, altered: bool, ghost nodes': set<VNode<T>>)
    requires Good(Snapshot(nodes), active) && Placed(Snapshot(nodes), node, 0, Shr(index, 5))
    requires Mine(node, active, owner)
    requires value.Some? || (node != null && index % 32 < |node.items|)
    modifies Owned(nodes, owner)
    ensures nodes <= nodes' && fresh(nodes' - nodes)
    ensures Edited(old(Snapshot(nodes)), Snapshot(nodes'), active, owner, 0, index, Except(index))
    ensures Placed(Snapshot(nodes'), r, 0, Shr(index, 5)) && Mine(r, active, owner) && (node != null ==> r != null)
    ensures !altered ==> r == node
    ensures altered <==> value != Look(old(Snapshot(nodes)), node, 0, index)
    ensures Shows(old(Snapshot(nodes)), Snapshot(nodes'), node, r, 0, index, value)
    ensures altered ==> r != null && r.items == LeafItems(if node == null then [] else old(node.items), index % 32, value)
  {
    hide Good, Same, Puts, Shows;
    ghost var heap0 := Snapshot(nodes);
    var j := index % 32;
    if node != null && j < |node.items| && node.items[j] == ToSlot(value) {
      NoChange(heap0, node, 0, index, value);
      return node, false, nodes;
    }
    LeafLook(heap0, active, node, index);
    var u := Editable(nodes, node, owner, 0, Shr(index, 5));
    nodes' := nodes + {u};
    LeafPut(heap0, active, node, u, index, value);
    u.items := LeafItems(u.items, j, value);
    assert Snapshot(nodes') == heap0[u := u.items];
    return u, true, nodes';
  }

  lemma LeafLook<T>(heap: Heap<T>, active: set<Owner?>, node: VNode?<T>, index: nat)
    requires Good(heap, active) && Placed(heap, node, 0, Shr(index, 5))
    ensures var slot := SlotAt(if node == null then [] else heap[node], index % 32);
            !slot.Sub? && Look(heap, node, 0, index) == FromSlot(slot)
  {
    if node != null && index % 32 < |heap[node]| { assert Fits(heap, node, index % 32, heap[node][index % 32]); }
  }

  lemma NoChange<T>(heap: Heap<T>, node: VNode?<T>, level: nat, index: nat, value: Option<T>)
    requires Look(heap, node, level, index) == value
    ensures Same(heap, heap, Except(index)) && Shows(heap, heap, node, node, level, index, value)
  {
  }
}
