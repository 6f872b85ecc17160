/** Where a list is not the plain sequence: elements that were removed, and show again. */
module VectorStale {
  import opened Options
  import opened Owners
  import opened VectorNodes
  import opened VectorUpdate
  import opened VectorTruncate
  import opened VectorBounds
  import opened VectorTail
  import opened VectorList
  import opened VectorSession

  function Copies<T>(n: nat, x: T): seq<Option<T>> {
    seq(n, _ => Some(x))
  }

  /** The root still shows `x` at every index from `from` to `to`. */
  ghost predicate StillHolds<T>(heap: Heap<T>, root: VNode?<T>, from: nat, to: nat, x: T) {
    forall i: nat :: from <= i < to ==> Look(heap, root, 5, i) == Some(x)
  }

  lemma OneRoot<T>(heap: Heap<T>, size: nat, level: nat, root: VNode?<T>, tail: VNode?<T>, x: T)
    requires level == 5 && Elements(heap, size, level, root, tail) == Copies(size, x)
    ensures StillHolds(heap, root, 0, TailOffset(size), x)
  {
    hide Look;
    forall i: nat | i < TailOffset(size) ensures Look(heap, root, 5, i) == Some(x) {
      assert Elements(heap, size, level, root, tail)[i] == Copies(size, x)[i];
    }
  }

  lemma HoldsLater<T>(before: Heap<T>, after: Heap<T>, root: VNode?<T>, from: nat, to: nat, x: T)
    requires WfHeap(before) && Extends(before, after) && (root != null ==> root in before) && StillHolds(before, root, from, to, x)
    ensures StillHolds(after, root, from, to, x)
  {
    forall i: nat | from <= i < to ensures Look(after, root, 5, i) == Some(x) {
      assert Look(before, root, 5, i) == Some(x);
      LookExtends(before, after, root, 5, i);
    }
  }

  /** What is known of a list of nobody with a root of one level. */
  ghost predicate Holding<T>(nodes: set<VNode<T>>, l: List<T>, to: nat, x: T)
    reads l, nodes
  {
    && Good(Snapshot(nodes), {}) && l.Valid(nodes, {}) && l.ownerID == null && l.level == 5
    && StillHolds(Snapshot(nodes), l.root, 0, to, x)
  }

  /** `n` elements are pushed on the empty list. */
  method Filled<T(==)>(n: nat, x: T) returns (l: List<T>, ghost nodes: set<VNode<T>>)
    requires 0 < n <= 1024
    ensures fresh(nodes) && Holding(nodes, l, TailOffset(n), x) && l.Contents(nodes) == Copies(n, x)
  {
    hide Good, ValidParts, Elements, Grown;
    var e := EmptyList();
    l, nodes := e.Push({}, {}, Copies(n, x));
    assert Shl(10) == 1024;
    OneRoot(Snapshot(nodes), l.size, l.level, l.root, l.tail, x);
  }

  /** A list of nobody is edited: the old root is untouched. */
  lemma HoldingLater<T>(before: Heap<T>, nodes: set<VNode<T>>, l: List<T>, root: VNode?<T>, to: nat, x: T)
    requires Good(before, {}) && Extends(before, Snapshot(nodes)) && (root != null ==> root in before) && StillHolds(before, root, 0, to, x)
    requires Good(Snapshot(nodes), {}) && l.Valid(nodes, {}) && l.ownerID == null && l.level == 5 && l.root == root
    ensures Holding(nodes, l, to, x)
  {
    HoldsLater(before, Snapshot(nodes), root, 0, to, x);
  }

  lemma RootThere<T>(nodes: set<VNode<T>>, l: List<T>, to: nat, x: T)
    requires Holding(nodes, l, to, x)
    ensures l.root != null ==> l.root in nodes
    ensures l.tail != null ==> l.tail in nodes && |l.tail.items| <= 32
    ensures Owned(nodes, l.ownerID) == {}
  {
  }

  // ----- elements cleared, and back after a push

  /** The elements from `i` on are cleared, from the end: what is left of the tail ends at `i`. */
  ghost predicate ClearedFrom<T>(nodes: set<VNode<T>>, l: List<T>, i: nat, x: T)
    reads l, nodes, l.tail
  {
    && Holding(nodes, l, 64, x) && l.size == 64 && 32 <= i <= 64 && l.Contents(nodes) == Copies(i, x) + Blanks(64 - i)
    && l.tail != null && |l.tail.items| == i - 32
  }

  /** 65 elements, and one removed: the tail is the leaf of the last 32, and the root still has it too. */
  method Popped<T(==)>(x: T) returns (l: List<T>, ghost nodes: set<VNode<T>>)
    ensures fresh(nodes) && ClearedFrom(nodes, l, 64, x)
  {
    hide Good, ValidParts, Elements, Holding, Look;
    var a;
    a, nodes := Filled(65, x);
    ghost var before := Snapshot(nodes);
    HoldingParts(nodes, a, 64, x);
    RootThere(nodes, a, 64, x);
    l, nodes := a.Pop(nodes, {});
    HoldingLater(before, nodes, l, l.root, 64, x);
    assert Copies(65, x)[..64] == Copies(64, x) + Blanks(0);
    FullTail(nodes, l, x);
  }

  lemma HoldingParts<T>(nodes: set<VNode<T>>, l: List<T>, to: nat, x: T)
    requires Holding(nodes, l, to, x)
    ensures Good(Snapshot(nodes), {}) && l.Valid(nodes, {}) && l.ownerID == null && l.level == 5
    ensures StillHolds(Snapshot(nodes), l.root, 0, to, x)
  {
  }

  lemma FullTail<T>(nodes: set<VNode<T>>, l: List<T>, x: T)
    requires Holding(nodes, l, 64, x) && l.size == 64 && l.Contents(nodes) == Copies(64, x) + Blanks(0)
    ensures l.tail != null && |l.tail.items| == 32
  {
    assert l.Contents(nodes)[63] == Some(x);
    assert Elem(Snapshot(nodes), l.size, l.level, l.root, l.tail, 63) == Look(Snapshot(nodes), l.tail, 0, 63);
    assert Shr(63, 0) % 32 == 31;
  }

  /** One element is cleared, at the end of the tail. */
  method ClearOne<T(==)>(ghost nodes: set<VNode<T>>, l: List<T>, i: nat, x: T) returns (r: List<T>, ghost nodes': set<VNode<T>>)
    requires ClearedFrom(nodes, l, i, x) && i > 32
    ensures nodes <= nodes' && fresh(nodes' - nodes) && ClearedFrom(nodes', r, i - 1, x)
  {
    hide Good, ValidParts, Elements, Holding, Look;
    ghost var before := Snapshot(nodes);
    HoldingParts(nodes, l, 64, x);
    RootThere(nodes, l, 64, x);
    assert l.Contents(nodes)[i - 1] == Some(x);
    r, nodes' := l.Set(nodes, {}, i - 1, None);
    HoldingLater(before, nodes', r, l.root, 64, x);
    assert (Copies(i, x) + Blanks(64 - i))[i - 1 := None] == Copies(i - 1, x) + Blanks(64 - (i - 1));
  }

  /** A list of 64 elements, the last 32 of them cleared: 65 pushed on the empty list, one popped, and 32 set to `undefined`. */
  method HalfCleared<T(==)>(x: T) returns (l: List<T>, ghost nodes: set<VNode<T>>)
    ensures fresh(nodes) && ClearedFrom(nodes, l, 32, x)
  {
    hide ClearedFrom;
    l, nodes := Popped(x);
    var i := 64;
    while i > 32
      invariant 32 <= i <= 64 && fresh(nodes) && ClearedFrom(nodes, l, i, x)
    {
      l, nodes := ClearOne(nodes, l, i, x);
      i := i - 1;
    }
  }

  lemma GrowsBack<T>(heap: Heap<T>, size: nat, level: nat, root: VNode?<T>, tail: VNode?<T>, x: T)
    requires size == 64 && level == 5 && StillHolds(heap, root, 0, 64, x) && !TailMoves(heap, size, tail)
    ensures Grown(heap, size, level, root, tail, 1) == Copies(64, x)
  {
    hide Look;
    assert Shl(10) == 1024;
    assert TailOffset(64) == 32 && TailOffset(65) == 64;
    forall i: nat | i < 64 ensures Grown(heap, size, level, root, tail, 1)[i] == Some(x) {
      assert Look(heap, root, 5, i) == Some(x);
      assert GrownElem(heap, size, level, root, tail, 65, i) == Look(heap, root, 5, i);
    }
  }

  /** One more push on that list, and the cleared elements are back; on the plain sequence they would stay absent. */
  method Resurrection<T(==)>(x: T, z: T)
    returns (l: List<T>, r: List<T>, ghost nodes: set<VNode<T>>, ghost nodes': set<VNode<T>>)
    ensures Good(Snapshot(nodes), {}) && l.Valid(nodes, {}) && l.ownerID == null && l.Contents(nodes) == Copies(32, x) + Blanks(32)
    ensures Good(Snapshot(nodes'), {}) && r.Valid(nodes', {}) && r.ownerID == null
    ensures r.Contents(nodes') == Grown(Snapshot(nodes), l.size, l.level, l.root, l.tail, 1) + [Some(z)]
    ensures r.Contents(nodes') == Copies(64, x) + [Some(z)] != Apply(l.Contents(nodes), Append([Some(z)]))
  {
    hide Good, ValidParts, Elements, Holding, Grown;
    l, nodes := HalfCleared(x);
    HoldingParts(nodes, l, 64, x);
    RootThere(nodes, l, 64, x);
    GrowsBack(Snapshot(nodes), l.size, l.level, l.root, l.tail, x);
    r, nodes' := l.Push(nodes, {}, [Some(z)]);
    assert (Copies(64, x) + [Some(z)])[32] == Some(x);
    assert (Copies(32, x) + Blanks(32) + [Some(z)])[32] == None;
  }

  // ----- elements cut off, and back after a larger size

  /** 97 elements, cut to 33 and grown to 100: where the plain sequence has only absent elements behind the first 33, the
      list shows a whole leaf of the elements that were cut off. */
  method Regrowth<T(==)>(x: T)
    returns (l: List<T>, r: List<T>, ghost nodes: set<VNode<T>>, ghost nodes': set<VNode<T>>)
    ensures Good(Snapshot(nodes), {}) && l.Valid(nodes, {}) && l.ownerID == null && l.Contents(nodes) == Copies(33, x)
    ensures Good(Snapshot(nodes'), {}) && r.Valid(nodes', {}) && r.ownerID == null
    ensures r.Contents(nodes') == Resized(Snapshot(nodes), l.size, l.level, l.root, l.tail, 100)
    ensures r.size == 100 && forall i :: 64 <= i < 96 ==> r.Contents(nodes')[i] == Some(x)
  {
    hide Good, ValidParts, Elements, Holding, GrownElem;
    var a;
    a, nodes := Filled(97, x);
    ghost var before := Snapshot(nodes);
    HoldingParts(nodes, a, 96, x);
    RootThere(nodes, a, 96, x);
    l, nodes := a.SetListBounds(nodes, {}, 33);
    HoldingLater(before, nodes, l, l.root, 96, x);
    assert Copies(97, x)[..33] == Copies(33, x);
    HoldingParts(nodes, l, 96, x);
    RootThere(nodes, l, 96, x);
    r, nodes' := l.SetListBounds(nodes, {}, 100);
    ShowsBehind(Snapshot(nodes), l.size, l.level, l.root, l.tail, x);
  }

  lemma ShowsBehind<T>(heap: Heap<T>, size: nat, level: nat, root: VNode?<T>, tail: VNode?<T>, x: T)
    requires size == 33 && level == 5 && StillHolds(heap, root, 0, 96, x)
    ensures forall i :: 64 <= i < 96 ==> Resized(heap, size, level, root, tail, 100)[i] == Some(x)
  {
    hide Look;
    assert Shl(10) == 1024;
    forall i | 64 <= i < 96 ensures Resized(heap, size, level, root, tail, 100)[i] == Some(x) {
      assert Look(heap, root, 5, i) == Some(x);
    }
  }
}
