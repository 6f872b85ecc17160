/** The nodes of the hash map on the heap. A node, or the key-value array of a leaf, is edited in place by the owner that
    made the node; everything else is shared. What a node stands for is a value of the trie. */
module MapNodes {
  import opened Bits
  import opened Options
  import opened HashTrie
  import opened HashTrieCorrect
  import opened Owners

  /** The two-element array `[key, value]`. */
  class Pair<K, V> {
    const key: K
    var value: V
    ghost const maker: Owner?  // the owner of the session that made it

    constructor (key: K, value: V, ghost maker: Owner?)
      ensures this.key == key && this.value == value && this.maker == maker
    {
      this.key, this.value, this.maker := key, value, maker;
    }
  }

  /** A node's own fields and arrays; no two nodes share an array of nodes or of entries. */
  datatype Shape<K, V> =
    | Listed(entries: seq<Pair<K, V>>)                               // Bt
    | Packed(bitmap: nat, nodes: seq<TNode<K, V>>)                   // Gt
    | Spread(count: nat, slots: seq<Option<TNode<K, V>>>)            // Wt
    | Clash(keyHash: Word, entries: seq<Pair<K, V>>)                 // qt
    | Leaf(keyHash: Word, entry: Pair<K, V>)                         // Jt

  class TNode<K, V> {
    const ownerID: Owner?
    var shape: Shape<K, V>

    constructor (ownerID: Owner?, shape: Shape<K, V>)
      ensures this.ownerID == ownerID && this.shape == shape
    {
      this.ownerID, this.shape := ownerID, shape;
    }
  }

  // ----- heaps as values

  datatype World<K, V> = World(nodes: set<TNode<K, V>>, pairs: set<Pair<K, V>>)

  datatype Heap<K, V> = Heap(nodes: map<TNode<K, V>, Shape<K, V>>, pairs: map<Pair<K, V>, V>)

  ghost function Snapshot<K, V>(w: World<K, V>): (heap: Heap<K, V>)
    reads w.nodes, w.pairs
    ensures heap.nodes.Keys == w.nodes && heap.pairs.Keys == w.pairs
    ensures forall n :: n in w.nodes ==> heap.nodes[n] == n.shape
    ensures forall p :: p in w.pairs ==> heap.pairs[p] == p.value
  {
    Heap(map n | n in w.nodes :: n.shape, map p | p in w.pairs :: p.value)
  }

  /** A new node, and nothing else, is added to the world. */
  method Make<K, V>(ghost w: World<K, V>, owner: Owner?, shape: Shape<K, V>) returns (n: TNode<K, V>, ghost w': World<K, V>)
    ensures fresh(n) && n !in w.nodes && n.ownerID == owner && n.shape == shape
    ensures w' == World(w.nodes + {n}, w.pairs) && Snapshot(w') == Heap(Snapshot(w).nodes[n := shape], Snapshot(w).pairs)
  {
    n := new TNode(owner, shape);
    w' := World(w.nodes + {n}, w.pairs);
    assert Snapshot(w').nodes == Snapshot(w).nodes[n := shape];
  }

  method MakePair<K, V>(ghost w: World<K, V>, owner: Owner?, key: K, value: V) returns (p: Pair<K, V>, ghost w': World<K, V>)
    ensures fresh(p) && p !in w.pairs && p.key == key && p.value == value && p.maker == owner
    ensures w' == World(w.nodes, w.pairs + {p}) && Snapshot(w') == Heap(Snapshot(w).nodes, Snapshot(w).pairs[p := value])
  {
    p := new Pair(key, value, owner);
    w' := World(w.nodes, w.pairs + {p});
    assert Snapshot(w').pairs == Snapshot(w).pairs[p := value];
  }

  function RefAt<K, V>(shape: Shape<K, V>, s: nat): Option<TNode<K, V>> {
    match shape
    case Packed(bitmap, nodes) => Child(bitmap, nodes, s)
    case Spread(_, slots) => if s < |slots| then slots[s] else None
    case _ => None
  }

  function Kid<K, V>(v: Node<K, V>, s: nat): (c: Option<Node<K, V>>)
    ensures c.Some? ==> c.value < v
  {
    if v.Bitmap? || v.HashArray? then ChildAt(v, s) else None
  }

  ghost predicate Holds<K, V>(pairs: map<Pair<K, V>, V>, p: Pair<K, V>, e: Entry<K, V>) {
    p in pairs && (p.key, pairs[p]) == e
  }

  ghost predicate HoldsAll<K, V>(pairs: map<Pair<K, V>, V>, ps: seq<Pair<K, V>>, es: seq<Entry<K, V>>) {
    |ps| == |es| && forall i :: 0 <= i < |ps| ==> Holds(pairs, ps[i], es[i])
  }

  /** A node's own fields agree with the value, its children aside. */
  ghost predicate Alike<K, V>(pairs: map<Pair<K, V>, V>, shape: Shape<K, V>, v: Node<K, V>) {
    match v
    case ArrayMap(es) => shape.Listed? && HoldsAll(pairs, shape.entries, es)
    case Bitmap(bitmap, nodes) => shape.Packed? && shape.bitmap == bitmap && |shape.nodes| == |nodes|
    case HashArray(count, slots) => shape.Spread? && shape.count == count && |shape.slots| == |slots|
    case Collision(keyHash, es) => shape.Clash? && shape.keyHash == keyHash && HoldsAll(pairs, shape.entries, es)
    case Value(keyHash, e) => shape.Leaf? && shape.keyHash == keyHash && Holds(pairs, shape.entry, e)
  }

  /** Node `n` stands for the trie `v`. */
  ghost predicate Reps<K, V>(heap: Heap<K, V>, n: TNode<K, V>, v: Node<K, V>)
    decreases v
  {
    && n in heap.nodes && Alike(heap.pairs, heap.nodes[n], v)
    && forall s: nat :: s < 32 ==>
         && (Kid(v, s).Some? <==> RefAt(heap.nodes[n], s).Some?)
         && (Kid(v, s).Some? ==> Reps(heap, RefAt(heap.nodes[n], s).value, Kid(v, s).value))
  }

  /** The child in slot `s`, and what it stands for. */
  ghost function Below<K, V>(heap: Heap<K, V>, n: TNode<K, V>, v: Node<K, V>, s: nat): (b: Option<(TNode<K, V>, Node<K, V>)>)
    ensures b.Some? ==> b.value.1 < v
  {
    if s < 32 && n in heap.nodes && Kid(v, s).Some? && RefAt(heap.nodes[n], s).Some?
    then Some((RefAt(heap.nodes[n], s).value, Kid(v, s).value)) else None
  }

  ghost function Reach<K, V>(heap: Heap<K, V>, n: TNode<K, V>, v: Node<K, V>): set<TNode<K, V>>
    decreases v
  {
    {n} + (set s: nat, m | s < 32 && Below(heap, n, v, s).Some?
                           && m in Reach(heap, Below(heap, n, v, s).value.0, Below(heap, n, v, s).value.1) :: m)
  }

  function OwnPairs<K, V>(shape: Shape<K, V>): set<Pair<K, V>> {
    match shape
    case Listed(ps) => set p | p in ps
    case Clash(_, ps) => set p | p in ps
    case Leaf(_, p) => {p}
    case _ => {}
  }

  ghost function PairsOf<K, V>(heap: Heap<K, V>, n: TNode<K, V>, v: Node<K, V>): set<Pair<K, V>>
    decreases v
  {
    (if n in heap.nodes then OwnPairs(heap.nodes[n]) else {})
    + (set s: nat, p | s < 32 && Below(heap, n, v, s).Some?
                       && p in PairsOf(heap, Below(heap, n, v, s).value.0, Below(heap, n, v, s).value.1) :: p)
  }

  // ----- ownership

  ghost predicate Owned<K, V>(n: TNode<K, V>, owner: Owner?) {
    owner != null && n.ownerID == owner
  }

  /** The nodes of a trie its owner may edit. */
  ghost function Foot<K, V>(heap: Heap<K, V>, n: TNode<K, V>, v: Node<K, V>, owner: Owner?): set<TNode<K, V>> {
    set m | m in Reach(heap, n, v) && Owned(m, owner)
  }

  /** The pairs of the leaves among `nodes`: with the leaf, its owner may edit the pair. */
  ghost function Cells<K, V>(heap: Heap<K, V>, nodes: set<TNode<K, V>>): set<Pair<K, V>> {
    set m | m in nodes && m in heap.nodes && heap.nodes[m].Leaf? :: heap.nodes[m].entry
  }

  /** No owned node is reached by both. */
  ghost predicate Apart<K, V>(heap: Heap<K, V>, x: (TNode<K, V>, Node<K, V>), y: (TNode<K, V>, Node<K, V>), owner: Owner?) {
    forall m :: m in Reach(heap, x.0, x.1) && m in Reach(heap, y.0, y.1) ==> !Owned(m, owner)
  }

  /** Below a node that is not owned nothing is; below one that is, no owned node occurs twice. */
  ghost predicate Tree<K, V>(heap: Heap<K, V>, n: TNode<K, V>, v: Node<K, V>, owner: Owner?)
    decreases v
  {
    if !Owned(n, owner) then forall m :: m in Reach(heap, n, v) ==> !Owned(m, owner)
    else
      && (forall s: nat :: Below(heap, n, v, s).Some? ==>
            var b := Below(heap, n, v, s).value;
            Tree(heap, b.0, b.1, owner) && n !in Reach(heap, b.0, b.1))
      && (forall s: nat, t: nat :: s != t && Below(heap, n, v, s).Some? && Below(heap, n, v, t).Some? ==>
            Apart(heap, Below(heap, n, v, s).value, Below(heap, n, v, t).value, owner))
  }

  // ----- frames

  /** The two heaps agree on these nodes and pairs. */
  ghost predicate Agree<K, V>(a: Heap<K, V>, b: Heap<K, V>, nodes: set<TNode<K, V>>, pairs: set<Pair<K, V>>) {
    && (forall n :: n in nodes ==> n in a.nodes && n in b.nodes && b.nodes[n] == a.nodes[n])
    && (forall p :: p in pairs ==> p in a.pairs && p in b.pairs && b.pairs[p] == a.pairs[p])
  }

  lemma BelowReach<K, V>(heap: Heap<K, V>, n: TNode<K, V>, v: Node<K, V>, s: nat)
    requires Below(heap, n, v, s).Some?
    ensures var b := Below(heap, n, v, s).value;
            && Reach(heap, b.0, b.1) <= Reach(heap, n, v) && PairsOf(heap, b.0, b.1) <= PairsOf(heap, n, v)
  {
  }

  /** What `n` stands for and reaches is the same in both heaps. */
  ghost predicate Kept<K, V>(a: Heap<K, V>, b: Heap<K, V>, n: TNode<K, V>, v: Node<K, V>, owner: Owner?) {
    && Reps(b, n, v) && Reach(b, n, v) == Reach(a, n, v) && PairsOf(b, n, v) == PairsOf(a, n, v)
    && (Tree(a, n, v, owner) ==> Tree(b, n, v, owner))
  }

  /** What a trie stands for depends on the nodes and pairs it reaches, and on nothing else. */
  lemma {:induction false} Frame<K, V>(a: Heap<K, V>, b: Heap<K, V>, n: TNode<K, V>, v: Node<K, V>, owner: Owner?)
    requires Reps(a, n, v) && Agree(a, b, Reach(a, n, v), PairsOf(a, n, v))
    ensures Kept(a, b, n, v, owner)
    decreases v
  {
    hide Tree, RefAt, Alike, Kid, Owned, Kept;
    assert n in Reach(a, n, v);
    forall s: nat | Below(a, n, v, s).Some?
      ensures Kept(a, b, Below(a, n, v, s).value.0, Below(a, n, v, s).value.1, owner)
    {
      BelowReach(a, n, v, s);
      Frame(a, b, Below(a, n, v, s).value.0, Below(a, n, v, s).value.1, owner);
    }
    AlikeKept(a, b, n, v);
    FrameUp(a, b, n, v, owner);
  }

  lemma AlikeKept<K, V>(a: Heap<K, V>, b: Heap<K, V>, n: TNode<K, V>, v: Node<K, V>)
    requires n in a.nodes && Alike(a.pairs, a.nodes[n], v) && Agree(a, b, {n}, OwnPairs(a.nodes[n]))
    ensures n in b.nodes && Alike(b.pairs, b.nodes[n], v)
  {
    assert n in {n};
  }

  lemma FrameUp<K, V>(a: Heap<K, V>, b: Heap<K, V>, n: TNode<K, V>, v: Node<K, V>, owner: Owner?)
    requires Reps(a, n, v) && n in a.nodes && n in b.nodes && a.nodes[n] == b.nodes[n] && Alike(b.pairs, b.nodes[n], v)
    requires forall s: nat :: Below(a, n, v, s).Some? ==> Kept(a, b, Below(a, n, v, s).value.0, Below(a, n, v, s).value.1, owner)
    ensures Kept(a, b, n, v, owner)
  {
    hide RefAt, Alike, Kid, Owned, Tree, OwnPairs, Reach, PairsOf, Reps;
    SameBelow(a, b, n, v);
    SameReps(a, b, n, v);
    SameReach(a, b, n, v);
    SamePairs(a, b, n, v);
    if Tree(a, n, v, owner) { TreeUp(a, b, n, v, owner); }
  }

  lemma SameBelow<K, V>(a: Heap<K, V>, b: Heap<K, V>, n: TNode<K, V>, v: Node<K, V>)
    requires n in a.nodes && n in b.nodes && a.nodes[n] == b.nodes[n]
    ensures forall s: nat :: Below(b, n, v, s) == Below(a, n, v, s)
  {
    hide RefAt, Kid;
  }

  lemma SameReps<K, V>(a: Heap<K, V>, b: Heap<K, V>, n: TNode<K, V>, v: Node<K, V>)
    requires Reps(a, n, v) && n in b.nodes && a.nodes[n] == b.nodes[n] && Alike(b.pairs, b.nodes[n], v)
    requires forall s: nat :: Below(a, n, v, s).Some? ==> Reps(b, Below(a, n, v, s).value.0, Below(a, n, v, s).value.1)
    ensures Reps(b, n, v)
  {
    hide RefAt, Alike, Kid;
    forall s: nat | s < 32 && Kid(v, s).Some? ensures Reps(b, RefAt(b.nodes[n], s).value, Kid(v, s).value) {
      assert Below(a, n, v, s) == Some((RefAt(a.nodes[n], s).value, Kid(v, s).value));
    }
  }

  lemma SameReach<K, V>(a: Heap<K, V>, b: Heap<K, V>, n: TNode<K, V>, v: Node<K, V>)
    requires forall s: nat :: Below(b, n, v, s) == Below(a, n, v, s)
    requires forall s: nat :: Below(a, n, v, s).Some? ==>
               Reach(b, Below(a, n, v, s).value.0, Below(a, n, v, s).value.1) == Reach(a, Below(a, n, v, s).value.0, Below(a, n, v, s).value.1)
    ensures Reach(b, n, v) == Reach(a, n, v)
  {
    hide Below;
  }

  lemma SamePairs<K, V>(a: Heap<K, V>, b: Heap<K, V>, n: TNode<K, V>, v: Node<K, V>)
    requires n in a.nodes && n in b.nodes && a.nodes[n] == b.nodes[n]
    requires forall s: nat :: Below(b, n, v, s) == Below(a, n, v, s)
    requires forall s: nat :: Below(a, n, v, s).Some? ==>
               PairsOf(b, Below(a, n, v, s).value.0, Below(a, n, v, s).value.1) == PairsOf(a, Below(a, n, v, s).value.0, Below(a, n, v, s).value.1)
    ensures PairsOf(b, n, v) == PairsOf(a, n, v)
  {
    hide Below, OwnPairs;
  }

  lemma TreeUp<K, V>(a: Heap<K, V>, b: Heap<K, V>, n: TNode<K, V>, v: Node<K, V>, owner: Owner?)
    requires Tree(a, n, v, owner) && Reach(b, n, v) == Reach(a, n, v)
    requires forall s: nat :: Below(b, n, v, s) == Below(a, n, v, s)
    requires forall s: nat :: Below(a, n, v, s).Some? ==> Kept(a, b, Below(a, n, v, s).value.0, Below(a, n, v, s).value.1, owner)
    ensures Tree(b, n, v, owner)
  {
    hide RefAt, Alike, Kid, Owned, Below, Reach, Reps, PairsOf;
  }
}
