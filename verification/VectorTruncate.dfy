/** Truncating the vector trie after an index. */
module VectorTruncate {
  import opened Options
  import opened Owners
  import opened VectorNodes
  import opened VectorUpdate

  /** Below `end`, node `r` shows what `node` showed. */
  ghost predicate ShowsBelow<T>(before: Heap<T>, after: Heap<T>, node: VNode?<T>, r: VNode?<T>, level: nat, end: nat) {
    forall i: nat :: i < end && Shr(i, level + 5) == Shr(end - 1, level + 5) ==>
      Look(after, r, level, i) == Look(before, node, level, i)
  }

  /** The indices before `end` below one slot keep their elements. */
  ghost predicate SlotKeepsBelow<T>(heap: Heap<T>, level: nat, slot: Slot<T>, was: Slot<T>, end: nat) {
    forall i: nat :: i < end && Shr(i, level) == Shr(end - 1, level) ==>
      LookSlot(heap, slot, level, i) == LookSlot(heap, was, level, i)
  }

  /** `items` may replace `was` in node `u`: cut after the slot of `end - 1`, which itself may change past `end`. */
  ghost predicate Cuts<T>(heap: Heap<T>, active: set<Owner?>, u: VNode<T>, was: seq<Slot<T>>, items: seq<Slot<T>>, end: nat)
    requires end > 0
  {
    var j := Shr(end - 1, u.level) % 32;
    && j < |was| && |items| == j + 1
    && (forall j' :: 0 <= j' < j ==> items[j'] == was[j'])
    && Fits(heap, u, j, items[j])
    && (items[j].Sub? ==> Mine(items[j].node, active, u.ownerID))
    && SlotKeepsBelow(heap, u.level, items[j], was[j], end)
  }

  lemma CutWf<T>(heap: Heap<T>, active: set<Owner?>, u: VNode<T>, items: seq<Slot<T>>, end: nat)
    requires end > 0 && Good(heap, active) && u in heap && Cuts(heap, active, u, heap[u], items, end)
    ensures Good(heap[u := items], active)
  {
    hide SlotKeepsBelow;
    var j := Shr(end - 1, u.level) % 32;
    var heap' := heap[u := items];
    forall n | n in heap' ensures WfArray(heap', n, heap'[n]) {
      forall j' | 0 <= j' < |heap'[n]| ensures Fits(heap', n, j', heap'[n][j']) {
        if n == u && j' < j { assert Fits(heap, u, j', heap[u][j']); }
        if n != u { assert Fits(heap, n, j', heap[n][j']); }
      }
    }
  }

  lemma CutHeap<T>(heap: Heap<T>, active: set<Owner?>, u: VNode<T>, items: seq<Slot<T>>, end: nat)
    requires end > 0 && Good(heap, active) && u in heap && Covers(u, end - 1) && Cuts(heap, active, u, heap[u], items, end)
    ensures var heap' := heap[u := items];
            && Good(heap', active) && Same(heap, heap', Below(end))
  {
    var j := Shr(end - 1, u.level) % 32;
    var heap' := heap[u := items];
    CutWf(heap, active, u, items, end);
    hide Fits, Sealed;
    forall i: nat | Covers(u, i) && i < end ensures Look(heap', u, u.level, i) == Look(heap, u, u.level, i) {
      ShrMonotone(i, end - 1, u.level);
      SameSlot(u, i, end - 1);
      SameSlot(u, end - 1, i);
      var j' := Shr(i, u.level) % 32;
      assert j' <= j;
      assert SlotAt(items, j') == items[j'];
      LowerUnchanged(heap, u, items, i);
    }
    EditSame(heap, heap', u, Below(end));
  }

  lemma CutsExtends<T>(heap: Heap<T>, mid: Heap<T>, active: set<Owner?>, u: VNode<T>,
                       was: seq<Slot<T>>, items: seq<Slot<T>>, end: nat)
    requires end > 0 && WfHeap(heap) && Extends(heap, mid) && Cuts(heap, active, u, was, items, end)
    requires forall j :: 0 <= j < |was| && was[j].Sub? ==> was[j].node in heap
    ensures Cuts(mid, active, u, was, items, end)
  {
    var j := Shr(end - 1, u.level) % 32;
    forall i: nat
      ensures LookSlot(mid, items[j], u.level, i) == LookSlot(heap, items[j], u.level, i)
      ensures LookSlot(mid, was[j], u.level, i) == LookSlot(heap, was[j], u.level, i)
    {
      SlotExtends(heap, mid, items[j], u.level, i);
      SlotExtends(heap, mid, was[j], u.level, i);
    }
  }

  /** Cutting a node made editable. */
  lemma CutSlot<T>(heap: Heap<T>, active: set<Owner?>, node: VNode<T>, u: VNode<T>, items: seq<Slot<T>>, end: nat)
    requires end > 0 && Good(heap, active) && Placed(heap, node, u.level, u.block) && Mine(node, active, u.ownerID)
    requires u in heap ==> u == node
    requires Covers(u, end - 1) && Cuts(heap, active, u, heap[node], items, end)
    ensures var heap' := heap[u := items];
            && Good(heap', active) && Same(heap, heap', Below(end))
            && ShowsBelow(heap, heap', node, u, u.level, end)
  {
    hide Cuts, Same, Good, Look;
    var mid := heap[u := heap[node]];
    EditableHeap(heap, active, node, u);
    SlotsIn(heap, active, node);
    CutsExtends(heap, mid, active, u, heap[node], items, end);
    CutHeap(mid, active, u, items, end);
    assert heap[u := items] == mid[u := items];
    ExtendSame(heap, mid, Below(end));
    SameTrans(heap, mid, heap[u := items], Below(end));
    SameBelowAt(mid, heap[u := items], u, end);
  }

  lemma SameBelowAt<T>(before: Heap<T>, after: Heap<T>, u: VNode<T>, end: nat)
    requires Same(before, after, Below(end)) && u in before
    ensures forall i: nat :: Covers(u, i) && i < end ==> Look(after, u, u.level, i) == Look(before, u, u.level, i)
  {
  }

  /** The array of a node after the cut; `f` is the truncated child, if there is one. */
  function CutItems<T>(items: seq<Slot<T>>, j: nat, f: VNode?<T>): seq<Slot<T>>
    requires j < |items|
  {
    if f == null then items[..j + 1] else items[..j] + [Sub(f)]
  }

  lemma CutNode<T>(heap0: Heap<T>, heap1: Heap<T>, active: set<Owner?>, node: VNode<T>, u: VNode<T>,
                   end: nat, child: VNode?<T>, f: VNode?<T>)
    requires end > 0 && Good(heap0, active) && u.level % 5 == 0
    requires Placed(heap0, node, u.level, Shr(end - 1, u.level + 5)) && Mine(node, active, u.ownerID)
    requires Good(heap1, active) && Same(heap0, heap1, Below(end)) && heap0.Keys <= heap1.Keys
    requires heap1[node] == heap0[node]
    requires u in heap1 ==> u == node
    requires u.block == Shr(end - 1, u.level + 5)
    requires Shr(end - 1, u.level) % 32 < |heap0[node]| && ChildOf(heap0, node, Shr(end - 1, u.level) % 32, child)
    requires (child == null <==> f == null) && (u.level == 0 ==> f == null)
    requires f != null ==> u.level >= 5 && Placed(heap1, f, u.level - 5, Shr(end - 1, u.level)) && Mine(f, active, u.ownerID)
    requires f != null ==> ShowsBelow(heap0, heap1, child, f, u.level - 5, end)
    ensures var heap2 := heap1[u := CutItems(heap1[node], Shr(end - 1, u.level) % 32, f)];
            && Good(heap2, active) && Same(heap0, heap2, Below(end)) && ShowsBelow(heap0, heap2, node, u, u.level, end)
  {
    var level, was := u.level, heap1[node];
    var j := Shr(end - 1, level) % 32;
    var items := CutItems(was, j, f);
    var heap2 := heap1[u := items];
    assert Fits(heap1, node, j, was[j]);
    ShrUp(end - 1, level);
    if f != null {
      ChildPlaced(heap0, active, node, u.ownerID, level, end - 1, child);
      forall i: nat | i < end && Shr(i, level) == Shr(end - 1, level)
        ensures LookSlot(heap1, Sub(f), level, i) == LookSlot(heap1, was[j], level, i)
      {
        ShrUp(i, level);
        assert Covers(child, i);
      }
    }
    hide Good, Look, Same, Fits;
    assert Cuts(heap1, active, u, was, items, end);
    CutSlot(heap1, active, node, u, items, end);
    SameTrans(heap0, heap1, heap2, Below(end));
    SameBelowAt(heap0, heap1, node, end);
  }

  lemma NothingCut<T>(heap: Heap<T>, active: set<Owner?>, owner: Owner?, node: VNode?<T>, level: nat, end: nat)
    requires end > 0 && Good(heap, active)
    ensures Edited(heap, heap, active, owner, level, end - 1, Below(end)) && ShowsBelow(heap, heap, node, node, level, end)
  {
  }

  /** The truncated child is the same object: the node shows the same elements below `end`. */
  lemma CutBelow<T>(heap0: Heap<T>, heap1: Heap<T>, node: VNode<T>, level: nat, end: nat)
    requires end > 0 && Same(heap0, heap1, Below(end)) && node in heap0 && node.level == level && Covers(node, end - 1)
    ensures ShowsBelow(heap0, heap1, node, node, level, end)
  {
    SameBelowAt(heap0, heap1, node, end);
  }

  /** removeAfter: drop every element at `end` or later from the nodes on the way to `end - 1`. */
  method RemoveAfter<T>(ghost nodes: set<VNode<T>>, ghost active: set<Owner?>, node: VNode<T>, owner: Owner?, level: nat, end: nat)
    returns (r: VNode<T>, ghost nodes': set<VNode<T>>)
    requires end > 0 && Good(Snapshot(nodes), active)
    requires Placed(Snapshot(nodes), node, level, Shr(end - 1, level + 5)) && Mine(node, active, owner)
    modifies Owned(nodes, owner)
    ensures nodes <= nodes' && fresh(nodes' - nodes)
    ensures Edited(old(Snapshot(nodes)), Snapshot(nodes'), active, owner, level, end - 1, Below(end))
    ensures Placed(Snapshot(nodes'), r, level, Shr(end - 1, level + 5)) && Mine(r, active, owner)
    ensures ShowsBelow(old(Snapshot(nodes)), Snapshot(nodes'), node, r, level, end)
    ensures level > 0 && end == Shl(level) ==> r == node
    decreases level
  {
    hide Good, Same, Look, Fits, Shr, SlotAt, Edited, ShowsBelow;
    ghost var heap0 := Snapshot(nodes);
    var j := Shr(end - 1, level) % 32;
    NothingCut(heap0, active, owner, node, level, end);
    if (level > 0 && end == Shl(level)) || |node.items| == 0 || j >= |node.items| {
      return node, nodes;
    }
    var child: VNode?<T> := if level > 0 && node.items[j].Sub? then node.items[j].node else null;
    LeafHasNoChild(heap0, active, node, level, j);
    SlotChild(heap0, node, j, child);
    var f: VNode?<T> := null;
    ghost var nodes1 := nodes;
    if child != null {
      ChildPlaced(heap0, active, node, owner, level, end - 1, child);
      f, nodes1 := RemoveAfter(nodes, active, child, owner, level - 5, end);
      EditedHigher(heap0, Snapshot(nodes1), active, owner, node, level, end - 1, Below(end));
    } else {
      EditedParts(heap0, heap0, active, owner, level, end);
    }
    if level > 0 && f == child && j == |node.items| - 1 {
      CutBelow(heap0, Snapshot(nodes1), node, level, end);
      return node, nodes1;
    }
    r, nodes' := CutThere(heap0, nodes1, active, node, owner, level, end, child, f);
    assert fresh(nodes' - nodes);
  }

  /** The last step of a truncation; `heap0` is the heap before the child was truncated. */
  method CutThere<T>(ghost heap0: Heap<T>, ghost nodes: set<VNode<T>>, ghost active: set<Owner?>, node: VNode<T>, owner: Owner?,
                     level: nat, end: nat, ghost child: VNode?<T>, f: VNode?<T>)
    returns (u: VNode<T>, ghost nodes': set<VNode<T>>)
    requires end > 0 && Good(heap0, active) && level % 5 == 0
    requires Placed(heap0, node, level, Shr(end - 1, level + 5)) && Mine(node, active, owner)
    requires Edited(heap0, Snapshot(nodes), active, owner, level, end - 1, Below(end)) && node in nodes && node.items == heap0[node]
    requires Shr(end - 1, level) % 32 < |heap0[node]| && ChildOf(heap0, node, Shr(end - 1, level) % 32, child)
    requires (child == null <==> f == null) && (level == 0 ==> f == null)
    requires f != null ==> level >= 5 && Placed(Snapshot(nodes), f, level - 5, Shr(end - 1, level)) && Mine(f, active, owner)
    requires f != null ==> ShowsBelow(heap0, Snapshot(nodes), child, f, level - 5, end)
    modifies if owner != null && owner == node.ownerID then {node} else {}
    ensures nodes' == nodes + {u} && (u in nodes ==> u == node && owner != null) && (u !in nodes ==> fresh(u))
    ensures Edited(heap0, Snapshot(nodes'), active, owner, level, end - 1, Below(end))
    ensures Placed(Snapshot(nodes'), u, level, Shr(end - 1, level + 5)) && Mine(u, active, owner)
    ensures ShowsBelow(heap0, Snapshot(nodes'), node, u, level, end)
  {
    hide Good, Same, Look, Fits, Shr, SlotAt, Edited, ShowsBelow, ChildOf;
    ghost var heap1 := Snapshot(nodes);
    EditedParts(heap0, heap1, active, owner, level, end);
    u, nodes' := CutAt(nodes, node, owner, level, Shr(end - 1, level + 5), Shr(end - 1, level) % 32, f);
    CutNode(heap0, heap1, active, node, u, end, child, f);
    EditedThen(heap0, heap1, Snapshot(nodes'), active, owner, u, level, end - 1, Below(end));
  }

  /** Cuts an editable copy of `node`, or `node` itself when its owner matches. */
  method CutAt<T>(ghost nodes: set<VNode<T>>, node: VNode<T>, owner: Owner?, level: nat, ghost block: nat, j: nat, f: VNode?<T>)
    returns (u: VNode<T>, ghost nodes': set<VNode<T>>)
    requires Placed(Snapshot(nodes), node, level, block) && j < |node.items|
    modifies if owner != null && owner == node.ownerID then {node} else {}
    ensures nodes' == nodes + {u} && (u in nodes ==> u == node && owner != null) && (u !in nodes ==> fresh(u))
    ensures u.ownerID == owner && u.level == level && u.block == block
    ensures Snapshot(nodes') == old(Snapshot(nodes))[u := CutItems(old(node.items), j, f)]
  {
    u := Editable(nodes, node, owner, level, block);
    nodes' := nodes + {u};
    u.items := CutItems(u.items, j, f);
  }

  lemma LeafHasNoChild<T>(heap: Heap<T>, active: set<Owner?>, node: VNode<T>, level: nat, j: nat)
    requires Good(heap, active) && node in heap && node.level == level && level % 5 == 0 && j < |heap[node]|
    ensures heap[node][j].Sub? ==> level >= 5
  {
    assert Fits(heap, node, j, heap[node][j]);
  }

  lemma EditedParts<T>(before: Heap<T>, after: Heap<T>, active: set<Owner?>, owner: Owner?, level: nat, end: nat)
    requires end > 0 && Edited(before, after, active, owner, level, end - 1, Below(end))
    ensures Good(after, active) && Same(before, after, Below(end)) && before.Keys <= after.Keys
  {
  }

  lemma EditedThen<T>(heap0: Heap<T>, heap1: Heap<T>, heap2: Heap<T>, active: set<Owner?>, owner: Owner?, u: VNode<T>,
                      level: nat, index: nat, keep: nat -> bool)
    requires Edited(heap0, heap1, active, owner, level, index, keep)
    requires heap2.Keys == heap1.Keys + {u} && forall n :: n in heap1 && n != u ==> heap2[n] == heap1[n]
    requires Good(heap2, active) && Same(heap0, heap2, keep)
    requires u.ownerID == owner && u.level == level && Covers(u, index)
    ensures Edited(heap0, heap2, active, owner, level, index, keep)
  {
    hide Good, Same;
  }
}
