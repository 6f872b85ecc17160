/** The nodes of the persistent hash map: lookup, update, merging, and the conversions
    between the five node kinds. A node is a value; updating returns a new node. */
module HashTrie {
  import opened Bits
  import opened Options

  type Word = n: nat | n < WORD

  /** Key and value, as the two-element arrays the nodes hold. */
  type Entry<K, V> = (K, V)

  datatype Node<K, V> =
    | ArrayMap(entries: seq<Entry<K, V>>)                 // Bt, at the root only
    | Bitmap(bitmap: nat, nodes: seq<Node<K, V>>)         // Gt
    | HashArray(count: nat, slots: seq<Option<Node<K, V>>>) // Wt
    | Collision(keyHash: Word, entries: seq<Entry<K, V>>) // qt
    | Value(keyHash: Word, entry: Entry<K, V>)            // Jt

  /** What `update` returns, with the two flags it sets: the node (or nothing), whether the number
      of bindings changed, and whether anything changed at all. */
  datatype Updated<K, V> = Updated(node: Option<Node<K, V>>, resized: bool, altered: bool)

  const MAX_ARRAY_MAP := 8   // ce
  const MAX_BITMAP := 16     // fe
  const MIN_HASH_ARRAY := 8  // le

  // ----- hashes and paths

  /** The five hash bits a node at depth `level` looks at: (h >>> 5 * level) & 31. */
  function Slot(h: nat, level: nat): (s: nat)
    ensures s < 32
  {
    if level == 0 then h % 32 else Slot(h / 32, level - 1)
  }

  ghost predicate OnPath(h: nat, path: seq<nat>) {
    forall i :: 0 <= i < |path| ==> Slot(h, i) == path[i]
  }

  // ----- entry lists

  /** The position of `key`, or the length of the list when it is absent. */
  function Find<K(==), V>(entries: seq<Entry<K, V>>, key: K): (i: nat)
    ensures i <= |entries|
    ensures i < |entries| ==> entries[i].0 == key
  {
    if entries == [] || entries[0].0 == key then 0 else 1 + Find(entries[1..], key)
  }

  function GetEntry<K(==), V>(entries: seq<Entry<K, V>>, key: K): Option<V> {
    var i := Find(entries, key);
    if i < |entries| then Some(entries[i].1) else None
  }

  /** Overwrite, append, or remove by moving the last entry into the gap. */
  function EditEntries<K, V>(entries: seq<Entry<K, V>>, i: nat, key: K, value: Option<V>): seq<Entry<K, V>>
    requires i <= |entries| && (value.None? ==> i < |entries|)
  {
    var last := |entries| - 1;
    match value
    case Some(v) => if i < |entries| then entries[i := (key, v)] else entries + [(key, v)]
    case None => if i == last then entries[..last] else entries[i := entries[last]][..last]
  }

  predicate IsLeaf<K, V>(node: Node<K, V>) {
    node.Value? || node.Collision?
  }

  // ----- packed and unpacked children

  /** The child a bitmap node stores for slot `s`. */
  function Child<T>(bitmap: nat, nodes: seq<T>, s: nat): (c: Option<T>)
    ensures c.Some? ==> c.value in nodes
  {
    if And(bitmap, Bit(s)) == 0 then None
    else if Index(bitmap, s) < |nodes| then Some(nodes[Index(bitmap, s)]) else None
  }

  function Defined<T>(slots: seq<Option<T>>): nat {
    if slots == [] then 0 else (if slots[0].Some? then 1 else 0) + Defined(slots[1..])
  }

  /** expandNodes: one slot per bit of the bitmap, shifted out from the low end. */
  function Unpack<T>(bitmap: nat, nodes: seq<T>, n: nat): (slots: seq<Option<T>>)
    ensures |slots| == n
  {
    if n == 0 then []
    else if bitmap % 2 == 1 && nodes != [] then [Some(nodes[0])] + Unpack(bitmap / 2, nodes[1..], n - 1)
    else [None] + Unpack(bitmap / 2, nodes, n - 1)
  }

  /** packNodes: the bitmap of the defined slots. */
  function PackBits<T>(slots: seq<Option<T>>): nat {
    if slots == [] then 0 else (if slots[0].Some? then 1 else 0) + 2 * PackBits(slots[1..])
  }

  /** packNodes: the defined slots, in order. */
  function PackNodes<T>(slots: seq<Option<T>>): seq<T> {
    if slots == [] then [] else (if slots[0].Some? then [slots[0].value] else []) + PackNodes(slots[1..])
  }

  // ----- well-formed tries

  ghost predicate Distinct<K, V>(entries: seq<Entry<K, V>>) {
    forall i, j :: 0 <= i < j < |entries| ==> entries[i].0 != entries[j].0
  }

  /** A node sitting at the end of `path`, all of whose keys hash onto that path. */
  ghost predicate Wf<K, V>(node: Node<K, V>, h: K -> Word, path: seq<nat>)
  {
    match node
    case ArrayMap(_) => false
    case Value(keyHash, entry) => keyHash == h(entry.0) && OnPath(keyHash, path)
    case Collision(keyHash, entries) =>
      && |entries| >= 2 && Distinct(entries) && OnPath(keyHash, path)
      && forall i :: 0 <= i < |entries| ==> h(entries[i].0) == keyHash
    case Bitmap(bitmap, nodes) =>
      && |path| < 7 && bitmap < WORD && |nodes| == Count(bitmap)
      && 1 <= |nodes| <= MAX_BITMAP && (|nodes| == 1 ==> !IsLeaf(nodes[0]))
      && forall s: nat :: s < 32 && Child(bitmap, nodes, s).Some? ==>
           Wf(Child(bitmap, nodes, s).value, h, path + [s])
    case HashArray(count, slots) =>
      && |path| < 7 && |slots| == 32 && count == Defined(slots) && count >= MIN_HASH_ARRAY
      && forall s: nat :: s < 32 && slots[s].Some? ==> Wf(slots[s].value, h, path + [s])
  }

  ghost predicate WfOption<K, V>(node: Option<Node<K, V>>, h: K -> Word, path: seq<nat>) {
    node.Some? ==> Wf(node.value, h, path)
  }

  // ----- lookup

  function Get<K(==), V>(node: Node<K, V>, level: nat, hash: Word, key: K): Option<V> {
    match node
    case ArrayMap(entries) => GetEntry(entries, key)
    case Collision(_, entries) => GetEntry(entries, key)
    case Value(_, entry) => if key == entry.0 then Some(entry.1) else None
    case Bitmap(bitmap, nodes) =>
      var child := Child(bitmap, nodes, Slot(hash, level));
      if child.None? then None else Get(child.value, level + 1, hash, key)
    case HashArray(_, slots) =>
      var s := Slot(hash, level);
      if s < |slots| && slots[s].Some? then Get(slots[s].value, level + 1, hash, key) else None
  }

  // ----- update

  /** Two hashes that agree on all seven slots are the same: the descent of Merge ends. */
  lemma {:induction false} SlotsDetermine(h1: nat, h2: nat, n: nat)
    requires h1 < Bit(5 * n) && h2 < Bit(5 * n)
    requires forall i :: 0 <= i < n ==> Slot(h1, i) == Slot(h2, i)
    ensures h1 == h2
  {
    if n > 0 {
      assert Slot(h1, 0) == Slot(h2, 0);
      assert Bit(5 * n) == 32 * Bit(5 * (n - 1)) by { BitUp(5 * (n - 1)); }
      forall i | 0 <= i < n - 1 ensures Slot(h1 / 32, i) == Slot(h2 / 32, i) {
        assert Slot(h1, i + 1) == Slot(h2, i + 1);
      }
      SlotsDetermine(h1 / 32, h2 / 32, n - 1);
    }
  }

  lemma DistinctHashesPart(h1: Word, h2: Word, path: seq<nat>)
    requires OnPath(h1, path) && OnPath(h2, path) && h1 != h2
    ensures |path| < 7
  {
    if |path| >= 7 {
      Words();
      BitUp(31);
      BitUp(32);
      assert Bit(5 * 7) >= Bit(32);
      forall i | 0 <= i < 7 ensures Slot(h1, i) == Slot(h2, i) {}
      SlotsDetermine(h1, h2, 7);
    }
  }

  /** mergeIntoNode: push a leaf and a new entry down until their hashes part. */
  function Merge<K, V>(node: Node<K, V>, ghost path: seq<nat>, level: nat, keyHash: Word, entry: Entry<K, V>)
    : Node<K, V>
    requires level == |path| && IsLeaf(node)
    requires OnPath(keyHash, path) && OnPath(node.keyHash, path)
    requires node.keyHash == keyHash ==> node.Value?
    decreases 7 - level
  {
    if node.keyHash == keyHash then Collision(keyHash, [node.entry, entry])
    else
      DistinctHashesPart(node.keyHash, keyHash, path);
      var u, s := Slot(node.keyHash, level), Slot(keyHash, level);
      var nodes :=
        if u == s then [Merge(node, path + [u], level + 1, keyHash, entry)]
        else if u < s then [node, Value(keyHash, entry)]
        else [Value(keyHash, entry), node];
      Bitmap(Or(Bit(u), Bit(s)), nodes)
  }

  function SpliceIn<T>(nodes: seq<T>, i: nat, node: T): seq<T>
    requires i <= |nodes|
  {
    nodes[..i] + [node] + nodes[i..]
  }

  function SpliceOut<T>(nodes: seq<T>, i: nat): seq<T>
    requires i < |nodes|
  {
    nodes[..i] + nodes[i + 1..]
  }

  /** The child's place is inside the array, whether it is there already or about to be inserted. */
  lemma IndexInRange(bitmap: nat, s: nat)
    requires bitmap < WORD && s < 32
    ensures Index(bitmap, s) <= Count(bitmap)
    ensures And(bitmap, Bit(s)) != 0 <==> Has(bitmap, s)
    ensures Has(bitmap, s) ==> Index(bitmap, s) < Count(bitmap)
  {
    IndexIsRank(bitmap, s);
    HasIsMask(bitmap, s);
    RankStep(bitmap, s);
    Words();
    CountIsRank(bitmap, 32);
    RankMonotone(bitmap, s, 32);
    if Has(bitmap, s) { RankMonotone(bitmap, s + 1, 32); }
  }

  lemma {:induction false} RankMonotone(bitmap: nat, i: nat, n: nat)
    requires i <= n
    ensures Rank(bitmap, i) <= Rank(bitmap, n)
  {
    if i < n {
      RankMonotone(bitmap, i, n - 1);
      RankStep(bitmap, n - 1);
    }
  }

  /** updateNode on an absent child. */
  function UpdateAbsent<K, V>(h: K -> Word, key: K, value: Option<V>): Updated<K, V> {
    match value
    case None => Updated(None, false, false)
    case Some(v) => Updated(Some(Value(h(key), (key, v))), true, true)
  }

  /** The collision node's own list, once the hashes are known to agree. */
  function UpdateList<K(==), V(==)>(keyHash: Word, entries: seq<Entry<K, V>>, key: K, value: Option<V>): Updated<K, V>
    requires |entries| >= 2
  {
    var i := Find(entries, key);
    var present := i < |entries|;
    if (if present then value == Some(entries[i].1) else value.None?) then
      Updated(Some(Collision(keyHash, entries)), false, false)
    else if value.None? && |entries| == 2 then Updated(Some(Value(keyHash, entries[1 - i])), true, true)
    else Updated(Some(Collision(keyHash, EditEntries(entries, i, key, value))), value.None? || !present, true)
  }

  /** A bitmap node after the child of slot `s` became `node`, which differs from what was there. */
  function PutBitmap<K, V>(bitmap: nat, nodes: seq<Node<K, V>>, s: nat, node: Option<Node<K, V>>): Node<K, V>
    requires s < 32 && bitmap < WORD && |nodes| == Count(bitmap)
    requires Child(bitmap, nodes, s).None? ==> node.Some?
  {
    IndexInRange(bitmap, s);
    var present := And(bitmap, Bit(s)) != 0;
    var i := Index(bitmap, s);
    if !present && |nodes| >= MAX_BITMAP then HashArray(|nodes| + 1, Unpack(bitmap, nodes, 32)[s := node])
    else if !present then Bitmap(Or(bitmap, Bit(s)), SpliceIn(nodes, i, node.value))
    else if node.None? && |nodes| == 2 && IsLeaf(nodes[1 - i]) then nodes[1 - i]
    else if node.None? then Bitmap(Xor(bitmap, Bit(s)), SpliceOut(nodes, i))
    else if |nodes| == 1 && IsLeaf(node.value) then node.value
    else Bitmap(bitmap, nodes[i := node.value])
  }

  function PutHashArray<K, V>(count: nat, slots: seq<Option<Node<K, V>>>, s: nat, node: Option<Node<K, V>>): Node<K, V>
    requires s < |slots| && count > 0
  {
    var rest := slots[s := node];
    if slots[s].None? then HashArray(count + 1, rest)
    else if node.Some? then HashArray(count, rest)
    else if count - 1 < MIN_HASH_ARRAY then Bitmap(PackBits(rest), PackNodes(rest))
    else HashArray(count - 1, rest)
  }

  /** The child slot an inner node keeps for slot `s`. */
  function ChildAt<K, V>(node: Node<K, V>, s: nat): (c: Option<Node<K, V>>)
    requires node.Bitmap? || node.HashArray?
    ensures c.Some? ==> c.value < node
  {
    if node.Bitmap? then Child(node.bitmap, node.nodes, s)
    else if s < |node.slots| then node.slots[s] else None
  }

  function Put<K, V>(node: Node<K, V>, s: nat, child: Option<Node<K, V>>): Node<K, V>
    requires s < 32 && (node.Bitmap? || node.HashArray?)
    requires node.HashArray? ==> |node.slots| == 32 && node.count > 0
    requires node.Bitmap? ==> node.bitmap < WORD && |node.nodes| == Count(node.bitmap)
    requires ChildAt(node, s).None? ==> child.Some?
  {
    if node.Bitmap? then PutBitmap(node.bitmap, node.nodes, s, child)
    else PutHashArray(node.count, node.slots, s, child)
  }

  lemma ChildWf<K, V>(node: Node<K, V>, h: K -> Word, path: seq<nat>, s: nat)
    requires (node.Bitmap? || node.HashArray?) && Wf(node, h, path) && s < 32
    ensures WfOption(ChildAt(node, s), h, path + [s])
    ensures node.HashArray? ==> |node.slots| == 32 && node.count > 0
    ensures node.Bitmap? ==> node.bitmap < WORD && |node.nodes| == Count(node.bitmap)
  {
  }

  lemma OnPathChild(hash: nat, path: seq<nat>)
    requires OnPath(hash, path)
    ensures OnPath(hash, path + [Slot(hash, |path|)])
  {
  }

  function Update<K(==), V(==)>(node: Node<K, V>, ghost path: seq<nat>, level: nat, h: K -> Word, key: K, value: Option<V>)
    : Updated<K, V>
    requires level == |path| && Wf(node, h, path) && OnPath(h(key), path)
  {
    hide Child;
    if node.Value? then
      var same := key == node.entry.0;
      if (if same then value == Some(node.entry.1) else value.None?) then Updated(Some(node), false, false)
      else if value.None? then Updated(None, true, true)
      else if same then Updated(Some(Value(node.keyHash, (key, value.value))), false, true)
      else Updated(Some(Merge(node, path, level, h(key), (key, value.value))), true, true)
    else if node.Collision? then
      if h(key) == node.keyHash then UpdateList(node.keyHash, node.entries, key, value)
      else if value.None? then Updated(Some(node), false, false)
      else Updated(Some(Merge(node, path, level, h(key), (key, value.value))), true, true)
    else
      var s := Slot(h(key), level);
      ChildWf(node, h, path, s);
      OnPathChild(h(key), path);
      var child := ChildAt(node, s);
      if child.None? && value.None? then Updated(Some(node), false, false)
      else
        var u := if child.None? then UpdateAbsent(h, key, value)
                 else Update(child.value, path + [s], level + 1, h, key, value);
        u.(node := Some(if u.node == child then node else Put(node, s, u.node)))
  }
}
