/** The nodes of the persistent vector: 32-way arrays that an owner may edit in place.
    Every node has one position in the index space, fixed when it is made, so that a node shared
    between lists, or between a tree and a tail, always stands for the same indices. */
module VectorNodes {
  import opened Options
  import opened Owners

  datatype Slot<T> = Undef | Item(value: T) | Sub(node: VNode<T>)

  class VNode<T> {
    var items: seq<Slot<T>>
    const ownerID: Owner?
    ghost const level: nat  // 0 for leaves, then 5, 10, ...
    ghost const block: nat  // the indices i with i >>> (level + 5) == block

    constructor (items: seq<Slot<T>>, ownerID: Owner?, ghost level: nat, ghost block: nat)
      ensures this.items == items && this.ownerID == ownerID && this.level == level && this.block == block
    {
      this.items := items;
      this.ownerID := ownerID;
      this.level := level;
      this.block := block;
    }
  }

  // ----- shifts

  /** i >>> level, for the levels 0, 5, 10, ... */
  function Shr(i: nat, level: nat): nat {
    if level < 5 then i else Shr(i / 32, level - 5)
  }

  /** 1 << level */
  function Shl(level: nat): nat {
    if level < 5 then 1 else 32 * Shl(level - 5)
  }

  lemma {:induction false} ShrUp(i: nat, level: nat)
    requires level % 5 == 0
    ensures Shr(i, level + 5) == Shr(i, level) / 32
  {
    if level >= 5 { ShrUp(i / 32, level - 5); }
  }

  lemma {:induction false} ShrMonotone(i: nat, j: nat, level: nat)
    requires i <= j
    ensures Shr(i, level) <= Shr(j, level)
  {
    if level >= 5 { ShrMonotone(i / 32, j / 32, level - 5); }
  }

  lemma {:induction false} ShrZero(i: nat, level: nat)
    requires level % 5 == 0
    ensures Shr(i, level) == 0 <==> i < Shl(level)
  {
    if level >= 5 { ShrZero(i / 32, level - 5); }
  }

  // ----- heaps as values

  type Heap<!T> = map<VNode<T>, seq<Slot<T>>>

  ghost function Snapshot<T>(nodes: set<VNode<T>>): (heap: Heap<T>)
    reads nodes
    ensures heap.Keys == nodes
    ensures forall n :: n in nodes ==> heap[n] == n.items
  {
    map n | n in nodes :: n.items
  }

  ghost predicate Covers<T>(n: VNode<T>, i: nat) {
    Shr(i, n.level + 5) == n.block
  }

  /** A child sits one level down, at the block its slot selects. */
  ghost predicate Fits<T>(heap: Heap<T>, n: VNode<T>, j: nat, slot: Slot<T>) {
    match slot
    case Undef => true
    case Item(_) => n.level == 0
    case Sub(m) => n.level > 0 && m in heap && m.level == n.level - 5 && m.block == 32 * n.block + j
  }

  ghost predicate WfArray<T>(heap: Heap<T>, n: VNode<T>, items: seq<Slot<T>>) {
    && n.level % 5 == 0 && |items| <= 32
    && forall j :: 0 <= j < |items| ==> Fits(heap, n, j, items[j])
  }

  ghost predicate WfHeap<T>(heap: Heap<T>) {
    forall n :: n in heap ==> WfArray(heap, n, heap[n])
  }

  /** While an owner is active, only its own nodes point to its nodes. */
  ghost predicate Sealed<T>(heap: Heap<T>, active: set<Owner?>) {
    forall n, j :: n in heap && 0 <= j < |heap[n]| && heap[n][j].Sub? && heap[n][j].node.ownerID in active ==>
      heap[n][j].node.ownerID == n.ownerID
  }

  /** The element a node holds for index `i`: none where the arrays have a gap. */
  ghost function Look<T>(heap: Heap<T>, n: VNode?<T>, level: nat, i: nat): Option<T>
    decreases level
  {
    if n == null || n !in heap then None
    else
      var j := Shr(i, level) % 32;
      if j >= |heap[n]| then None
      else match heap[n][j]
        case Undef => None
        case Item(v) => if level == 0 then Some(v) else None
        case Sub(m) => if level < 5 then None else Look(heap, m, level - 5, i)
  }

  // ----- what edits leave alone

  ghost predicate Extends<T>(before: Heap<T>, after: Heap<T>) {
    forall n :: n in before ==> n in after && after[n] == before[n]
  }

  /** Nodes not owned by an active owner reach no node that is: its edits do not show through them. */
  lemma {:induction false} LookFrame<T>(before: Heap<T>, after: Heap<T>, active: set<Owner?>, owner: Owner?,
                                        n: VNode<T>, level: nat, i: nat)
    requires WfHeap(before) && Sealed(before, active) && owner in active && n in before && n.ownerID != owner
    requires forall m :: m in before && m.ownerID != owner ==> m in after && after[m] == before[m]
    ensures Look(after, n, level, i) == Look(before, n, level, i)
    decreases level
  {
    var j := Shr(i, level) % 32;
    if level >= 5 && j < |before[n]| && before[n][j].Sub? {
      assert Fits(before, n, j, before[n][j]);
      LookFrame(before, after, active, owner, before[n][j].node, level - 5, i);
    }
  }

  lemma {:induction false} LookExtends<T>(before: Heap<T>, after: Heap<T>, n: VNode<T>, level: nat, i: nat)
    requires WfHeap(before) && n in before && Extends(before, after)
    ensures Look(after, n, level, i) == Look(before, n, level, i)
    decreases level
  {
    var j := Shr(i, level) % 32;
    if level >= 5 && j < |before[n]| && before[n][j].Sub? {
      assert Fits(before, n, j, before[n][j]);
      LookExtends(before, after, before[n][j].node, level - 5, i);
    }
  }

  /** Every node still shows the same elements at the indices `keep` selects. */
  ghost predicate Same<T>(before: Heap<T>, after: Heap<T>, keep: nat -> bool) {
    forall n, i: nat :: n in before && Covers(n, i) && keep(i) ==>
      n in after && Look(after, n, n.level, i) == Look(before, n, n.level, i)
  }

  lemma ChildCovers<T>(heap: Heap<T>, n: VNode<T>, i: nat)
    requires WfHeap(heap) && n in heap && Covers(n, i)
    ensures var j := Shr(i, n.level) % 32;
            j < |heap[n]| && heap[n][j].Sub? ==>
              var m := heap[n][j].node;
              m in heap && n.level >= 5 && m.level == n.level - 5 && Covers(m, i) && Shr(i, n.level) == m.block
  {
    ShrUp(i, n.level);
    var j := Shr(i, n.level) % 32;
    if j < |heap[n]| && heap[n][j].Sub? { assert Fits(heap, n, j, heap[n][j]); }
  }

  /** Editing one node: if the node itself keeps its elements, so does every node above it. */
  lemma {:induction false} EditAt<T>(before: Heap<T>, after: Heap<T>, u: VNode<T>, keep: nat -> bool, n: VNode<T>, i: nat)
    requires WfHeap(before) && u in before && after.Keys == before.Keys
    requires forall m :: m in before && m != u ==> after[m] == before[m]
    requires forall k: nat :: Covers(u, k) && keep(k) ==> Look(after, u, u.level, k) == Look(before, u, u.level, k)
    requires n in before && Covers(n, i) && keep(i)
    ensures Look(after, n, n.level, i) == Look(before, n, n.level, i)
    decreases n.level
  {
    if n != u {
      ChildCovers(before, n, i);
      var j := Shr(i, n.level) % 32;
      if j < |before[n]| && before[n][j].Sub? {
        EditAt(before, after, u, keep, before[n][j].node, i);
      }
    }
  }

  lemma EditSame<T>(before: Heap<T>, after: Heap<T>, u: VNode<T>, keep: nat -> bool)
    requires WfHeap(before) && u in before && after.Keys == before.Keys
    requires forall m :: m in before && m != u ==> after[m] == before[m]
    requires forall k: nat :: Covers(u, k) && keep(k) ==> Look(after, u, u.level, k) == Look(before, u, u.level, k)
    ensures Same(before, after, keep)
  {
    forall n, i: nat | n in before && Covers(n, i) && keep(i)
      ensures Look(after, n, n.level, i) == Look(before, n, n.level, i)
    {
      EditAt(before, after, u, keep, n, i);
    }
  }

  lemma ExtendSame<T>(before: Heap<T>, after: Heap<T>, keep: nat -> bool)
    requires WfHeap(before) && Extends(before, after)
    ensures Same(before, after, keep)
  {
    forall n, i: nat | n in before && Covers(n, i) && keep(i)
      ensures Look(after, n, n.level, i) == Look(before, n, n.level, i)
    {
      LookExtends(before, after, n, n.level, i);
    }
  }

  lemma SameTrans<T>(a: Heap<T>, b: Heap<T>, c: Heap<T>, keep: nat -> bool)
    requires Same(a, b, keep) && Same(b, c, keep)
    ensures Same(a, c, keep)
  {
    forall n, i: nat | n in a && Covers(n, i) && keep(i)
      ensures n in c && Look(c, n, n.level, i) == Look(a, n, n.level, i)
    {
      assert Look(b, n, n.level, i) == Look(a, n, n.level, i);
    }
  }
}
