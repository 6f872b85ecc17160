/** The persistent map: the root above the trie, its size, and the plain map it stands for. */
module HashMaps {
  import opened Bits
  import opened Options
  import opened HashTrie
  import opened HashTrieSlots
  import opened HashTrieCorrect
  import opened HashTrieEntries

  datatype HashMap<K, V> = HashMap(size: int, root: Option<Node<K, V>>)

  ghost predicate WfRoot<K, V>(node: Node<K, V>, h: K -> Word) {
    if node.ArrayMap? then 1 <= |node.entries| <= MAX_ARRAY_MAP && Distinct(node.entries)
    else Wf(node, h, [])
  }

  ghost predicate Valid<K, V>(m: HashMap<K, V>, h: K -> Word) {
    match m.root
    case None => m.size == 0
    case Some(node) => WfRoot(node, h) && m.size == |Entries(node)|
  }

  function Bindings<K, V>(m: HashMap<K, V>): seq<Entry<K, V>> {
    if m.root.None? then [] else Entries(m.root.value)
  }

  /** The plain map: later entries win, although in a valid map no key repeats. */
  function ToMap<K, V>(entries: seq<Entry<K, V>>): map<K, V> {
    if entries == [] then map[] else ToMap(entries[..|entries| - 1])[entries[|entries| - 1].0 := entries[|entries| - 1].1]
  }

  function Abs<K, V>(m: HashMap<K, V>): map<K, V> {
    ToMap(Bindings(m))
  }

  // ----- operations

  function Empty<K, V>(): HashMap<K, V> {
    HashMap(0, None)
  }

  lemma AddOne<K, V>(node: Node<K, V>, h: K -> Word, e: Entry<K, V>, k: K)
    requires Wf(node, h, [])
    ensures OnPath(h(e.0), [])
    ensures var u := Update(node, [], 0, h, e.0, Some(e.1));
            && u.node.Some? && Wf(u.node.value, h, [])
            && Get(u.node.value, 0, h(k), k) == if k == e.0 then Some(e.1) else Get(node, 0, h(k), k)
  {
    hide Update, Wf;
    UpdateCorrect(node, h, [], e.0, Some(e.1), e.0);
    UpdateCorrect(node, h, [], e.0, Some(e.1), k);
  }

  /** createNodes: move the entries of a full array map into a trie, one by one. */
  function AddAll<K(==), V(==)>(node: Node<K, V>, h: K -> Word, entries: seq<Entry<K, V>>): (r: Node<K, V>)
    requires Wf(node, h, [])
    ensures Wf(r, h, [])
    decreases |entries|
  {
    hide *;
    if entries == [] then node
    else
      var e := entries[0];
      AddOne(node, h, e, e.0);
      AddAll(Update(node, [], 0, h, e.0, Some(e.1)).node.value, h, entries[1..])
  }

  function UpdateRoot<K(==), V(==)>(node: Node<K, V>, h: K -> Word, key: K, value: Option<V>): Updated<K, V>
    requires WfRoot(node, h)
  {
    if !node.ArrayMap? then Update(node, [], 0, h, key, value)
    else
      var entries := node.entries;
      var i := Find(entries, key);
      var present := i < |entries|;
      var resized := value.None? || !present;
      if (if present then value == Some(entries[i].1) else value.None?) then Updated(Some(node), false, false)
      else if value.None? && |entries| == 1 then Updated(None, resized, true)
      else if !present && |entries| >= MAX_ARRAY_MAP then
        Updated(Some(AddAll(Value(h(key), (key, value.value)), h, entries)), resized, true)
      else Updated(Some(ArrayMap(EditEntries(entries, i, key, value))), resized, true)
  }

  /** updateMap: an absent value removes the key. */
  function UpdateMap<K(==), V(==)>(m: HashMap<K, V>, h: K -> Word, key: K, value: Option<V>): HashMap<K, V>
    requires Valid(m, h)
  {
    if m.root.None? then
      if value.None? then m else HashMap(1, Some(ArrayMap([(key, value.value)])))
    else
      var u := UpdateRoot(m.root.value, h, key, value);
      if !u.altered then m
      else if u.node.None? then Empty()
      else HashMap(m.size + if u.resized then if value.None? then -1 else 1 else 0, u.node)
  }

  function Lookup<K(==), V>(m: HashMap<K, V>, h: K -> Word, key: K): Option<V> {
    if m.root.None? then None else Get(m.root.value, 0, h(key), key)
  }

  // ----- the root agrees with its entries

  lemma RootEntries<K, V>(node: Node<K, V>, h: K -> Word, e: Entry<K, V>)
    requires WfRoot(node, h)
    ensures Distinct(Entries(node))
    ensures e in Entries(node) <==> Get(node, 0, h(e.0), e.0) == Some(e.1)
  {
    if node.ArrayMap? {
      GetEntryIs(node.entries, e.0, e.1);
    } else {
      EntriesDistinct(node, h, []);
      if e in Entries(node) { EntriesFound(node, h, [], e); }
      if Get(node, 0, h(e.0), e.0) == Some(e.1) { FoundInEntries(node, h, [], e); }
    }
  }

  lemma {:induction false} ToMapIs<K, V>(entries: seq<Entry<K, V>>, key: K)
    requires Distinct(entries)
    ensures |ToMap(entries)| == |entries|
    ensures key in ToMap(entries) <==> exists i :: 0 <= i < |entries| && entries[i].0 == key
    ensures forall i :: 0 <= i < |entries| && entries[i].0 == key ==> key in ToMap(entries) && ToMap(entries)[key] == entries[i].1
  {
    if entries != [] {
      var front, last := entries[..|entries| - 1], entries[|entries| - 1];
      ToMapIs(front, key);
      ToMapIs(front, last.0);
      assert forall i :: 0 <= i < |front| ==> entries[i] == front[i];
    }
  }

  /** Lookup in the trie is lookup in the plain map, and the tracked size is its size. */
  lemma LookupIsAbs<K, V>(m: HashMap<K, V>, h: K -> Word, key: K)
    requires Valid(m, h)
    ensures Lookup(m, h, key) == if key in Abs(m) then Some(Abs(m)[key]) else None
    ensures m.size == |Abs(m)|
  {
    if m.root.Some? {
      var node := m.root.value;
      var found := Get(node, 0, h(key), key);
      if found.Some? {
        RootEntries(node, h, (key, found.value));
        ToMapIs(Entries(node), key);
        var i :| 0 <= i < |Entries(node)| && Entries(node)[i] == (key, found.value);
      } else {
        forall i | 0 <= i < |Entries(node)| ensures Entries(node)[i].0 != key {
          RootEntries(node, h, Entries(node)[i]);
        }
        EntriesSized(node, h);
        ToMapIs(Entries(node), key);
      }
    }
  }

  lemma EntriesSized<K, V>(node: Node<K, V>, h: K -> Word)
    requires WfRoot(node, h)
    ensures Distinct(Entries(node))
  {
    if !node.ArrayMap? { EntriesDistinct(node, h, []); }
  }

  // ----- updating the map is updating the plain map

  lemma {:induction false} AddAllGet<K, V>(node: Node<K, V>, h: K -> Word, entries: seq<Entry<K, V>>, k: K)
    requires Wf(node, h, []) && Distinct(entries)
    ensures Get(AddAll(node, h, entries), 0, h(k), k)
         == if GetEntry(entries, k).Some? then GetEntry(entries, k) else Get(node, 0, h(k), k)
    decreases |entries|
  {
    hide Get, Update, Wf;
    if entries != [] {
      var e := entries[0];
      AddOne(node, h, e, k);
      AddAllGet(Update(node, [], 0, h, e.0, Some(e.1)).node.value, h, entries[1..], k);
      if k == e.0 { GetEntryNone(entries[1..], k); }
    }
  }

  function Assign<K, V>(m: map<K, V>, key: K, value: Option<V>): map<K, V> {
    match value
    case Some(v) => m[key := v]
    case None => m - {key}
  }

  /** The root achieves what an inner node does, across the change from a list to a trie. */
  lemma UpdateRootCorrect<K, V>(node: Node<K, V>, h: K -> Word, key: K, value: Option<V>, k: K)
    requires WfRoot(node, h)
    ensures var u := UpdateRoot(node, h, key, value);
            && (u.node.Some? ==> WfRoot(u.node.value, h))
            && (if u.node.None? then None else Get(u.node.value, 0, h(k), k))
               == (if k == key then value else Get(node, 0, h(k), k))
            && (u.altered <==> value != Get(node, 0, h(key), key))
            && (u.resized <==> u.altered && value.Some? != Get(node, 0, h(key), key).Some?)
  {
    if node.ArrayMap? {
      ArrayMapCorrect(node.entries, h, key, value, k);
    } else {
      UpdateCorrect(node, h, [], key, value, k);
    }
  }

  lemma ArrayMapCorrect<K, V>(entries: seq<Entry<K, V>>, h: K -> Word, key: K, value: Option<V>, k: K)
    requires 1 <= |entries| <= MAX_ARRAY_MAP && Distinct(entries)
    ensures var node := ArrayMap(entries); var u := UpdateRoot(node, h, key, value);
            && (u.node.Some? ==> WfRoot(u.node.value, h))
            && (if u.node.None? then None else Get(u.node.value, 0, h(k), k))
               == (if k == key then value else Get(node, 0, h(k), k))
            && (u.altered <==> value != Get(node, 0, h(key), key))
            && (u.resized <==> u.altered && value.Some? != Get(node, 0, h(key), key).Some?)
  {
    hide Wf, AddAll;
    FindAbsent(entries, key);
    var i := Find(entries, key);
    if value.Some? && i == |entries| >= MAX_ARRAY_MAP {
      var leaf := Value(h(key), (key, value.value));
      LeafWf(leaf, h);
      LeafGet(h(key), (key, value.value), 0, h(k), k);
      AddAllGet(leaf, h, entries, k);
      TrieIsNoList(AddAll(leaf, h, entries), h);
    } else if value.Some? || i < |entries| {
      EditDistinct(entries, key, value);
      EditGet(entries, key, value, k);
      if |entries| == 1 { FindAbsent(entries, k); }
    }
  }

  lemma LeafWf<K, V>(leaf: Node<K, V>, h: K -> Word)
    requires leaf.Value? && leaf.keyHash == h(leaf.entry.0)
    ensures Wf(leaf, h, [])
  {
  }

  lemma TrieIsNoList<K, V>(node: Node<K, V>, h: K -> Word)
    requires Wf(node, h, [])
    ensures !node.ArrayMap?
  {
  }

  lemma UpdateMapValid<K, V>(m: HashMap<K, V>, h: K -> Word, key: K, value: Option<V>, k: K)
    requires Valid(m, h)
    ensures var m' := UpdateMap(m, h, key, value);
            && (m'.root.Some? ==> WfRoot(m'.root.value, h))
            && Lookup(m', h, k) == if k == key then value else Lookup(m, h, k)
  {
    hide UpdateRoot, WfRoot;
    if m.root.Some? {
      UpdateRootCorrect(m.root.value, h, key, value, k);
      UpdateRootCorrect(m.root.value, h, key, value, key);
    } else if value.Some? {
      FirstEntry(h, key, value.value, k);
    }
  }

  lemma FirstEntry<K, V>(h: K -> Word, key: K, value: V, k: K)
    ensures var node := ArrayMap([(key, value)]);
            WfRoot(node, h) && Get(node, 0, h(k), k) == if k == key then Some(value) else None
  {
  }

  /** set and remove: the new map is valid and stands for the plain map with one key assigned or removed. */
  lemma UpdateMapCorrect<K, V>(m: HashMap<K, V>, h: K -> Word, key: K, value: Option<V>)
    requires Valid(m, h)
    ensures Valid(UpdateMap(m, h, key, value), h)
    ensures Abs(UpdateMap(m, h, key, value)) == Assign(Abs(m), key, value)
  {
    hide UpdateMap, Lookup, Get, ToMap, WfRoot, Entries;
    var m' := UpdateMap(m, h, key, value);
    var sized := HashMap(|Bindings(m')|, m'.root);
    UpdateMapValid(m, h, key, value, key);
    var A, B := Abs(sized), Assign(Abs(m), key, value);
    forall k {:trigger k in A} {:trigger k in B} ensures (k in A <==> k in B) && (k in A && k in B ==> A[k] == B[k]) {
      SameLookup(m', sized, h, k);
      LookupIsAbs(sized, h, k);
      LookupIsAbs(m, h, k);
      UpdateMapValid(m, h, key, value, k);
    }
    SameMaps(A, B);
    LookupIsAbs(m, h, key);
    LookupIsAbs(sized, h, key);
    SizeTracked(m, h, key, value);
  }

  lemma SameMaps<K, V>(a: map<K, V>, b: map<K, V>)
    requires forall k {:trigger k in a} {:trigger k in b} :: (k in a <==> k in b) && (k in a && k in b ==> a[k] == b[k])
    ensures a == b
  {
  }

  lemma SameLookup<K, V>(m: HashMap<K, V>, m': HashMap<K, V>, h: K -> Word, key: K)
    requires m.root == m'.root
    ensures Lookup(m, h, key) == Lookup(m', h, key)
  {
  }

  /** The size the flags compute: it moves exactly when the key appears or disappears. */
  lemma SizeTracked<K, V>(m: HashMap<K, V>, h: K -> Word, key: K, value: Option<V>)
    requires Valid(m, h)
    ensures var m' := UpdateMap(m, h, key, value); var was := Lookup(m, h, key);
            m'.root.Some? ==> m'.size == m.size + (if value.Some? then 1 else 0) - (if was.Some? then 1 else 0)
    ensures UpdateMap(m, h, key, value).root.None? ==> UpdateMap(m, h, key, value).size == 0
  {
    hide UpdateRoot, Get, WfRoot;
    if m.root.Some? {
      UpdateRootCorrect(m.root.value, h, key, value, key);
    }
  }

  // ----- whole runs

  datatype Op<K, V> = Set(key: K, value: V) | Remove(key: K)

  function Wanted<K, V>(op: Op<K, V>): Option<V> {
    if op.Set? then Some(op.value) else None
  }

  ghost function Run<K, V>(ops: seq<Op<K, V>>, h: K -> Word): (m: HashMap<K, V>)
    ensures Valid(m, h)
  {
    if ops == [] then Empty()
    else
      var last := ops[|ops| - 1];
      UpdateMapCorrect(Run(ops[..|ops| - 1], h), h, last.key, Wanted(last));
      UpdateMap(Run(ops[..|ops| - 1], h), h, last.key, Wanted(last))
  }

  function RunPlain<K, V>(ops: seq<Op<K, V>>): map<K, V> {
    if ops == [] then map[]
    else
      var last := ops[|ops| - 1];
      Assign(RunPlain(ops[..|ops| - 1]), last.key, Wanted(last))
  }

  /** Whatever the hash function, after any operations the trie is the plain map: same lookups, same size. */
  lemma RunRefines<K, V>(ops: seq<Op<K, V>>, h: K -> Word, key: K)
    ensures var m := Run(ops, h); var plain := RunPlain(ops);
            && Abs(m) == plain && m.size == |plain|
            && Lookup(m, h, key) == if key in plain then Some(plain[key]) else None
  {
    RunAbs(ops, h);
    LookupIsAbs(Run(ops, h), h, key);
  }

  lemma {:induction false} RunAbs<K, V>(ops: seq<Op<K, V>>, h: K -> Word)
    ensures Abs(Run(ops, h)) == RunPlain(ops)
  {
    hide Valid, UpdateMap, Assign;
    if ops == [] {
      EmptyAbs<K, V>();
    } else {
      var last := ops[|ops| - 1];
      RunAbs(ops[..|ops| - 1], h);
      UpdateMapCorrect(Run(ops[..|ops| - 1], h), h, last.key, Wanted(last));
    }
  }

  lemma EmptyAbs<K, V>()
    ensures Abs(Empty<K, V>()) == map[]
  {
  }

  /** A well-formed inner node holds at least two bindings: removal never leaves an empty or needless one. */
  lemma {:induction false} InnerHoldsTwo<K, V>(node: Node<K, V>, h: K -> Word, path: seq<nat>)
    requires Wf(node, h, path)
    ensures |Entries(node)| >= if node.Value? then 1 else 2
  {
    if node.Bitmap? || node.HashArray? {
      var i, j := TwoKids(node, h, path);
      InnerHoldsTwo(Kids(node)[i].value, h, path + [KidSlot(node, i)]);
      KidEntriesCount(node, |Kids(node)|, i);
      if i < j {
        InnerHoldsTwo(Kids(node)[j].value, h, path + [KidSlot(node, j)]);
        KidEntriesCount(node, j, i);
        KidEntriesGrow(node, j + 1, |Kids(node)|);
      }
    }
  }

  /** Two children, or a single one that is itself an inner node (then `j == i`). */
  lemma TwoKids<K, V>(node: Node<K, V>, h: K -> Word, path: seq<nat>) returns (i: nat, j: nat)
    requires Wf(node, h, path) && !IsLeaf(node)
    ensures node.Bitmap? || node.HashArray?
    ensures i <= j < |Kids(node)| && Kids(node)[i].Some? && Kids(node)[j].Some?
    ensures Wf(Kids(node)[i].value, h, path + [KidSlot(node, i)])
    ensures Wf(Kids(node)[j].value, h, path + [KidSlot(node, j)])
    ensures i == j ==> !IsLeaf(Kids(node)[i].value)
  {
    hide Child;
    if node.Bitmap? {
      i, j := 0, |node.nodes| - 1;
    } else {
      i, j := TwoDefined(node.slots);
    }
    KidOnPath(node, h, path, i);
    KidOnPath(node, h, path, j);
  }

  lemma {:induction false} OneDefined<T>(slots: seq<Option<T>>) returns (i: nat)
    requires Defined(slots) >= 1
    ensures i < |slots| && slots[i].Some?
  {
    if slots[0].Some? {
      i := 0;
    } else {
      i := OneDefined(slots[1..]);
      i := i + 1;
    }
  }

  lemma {:induction false} TwoDefined<T>(slots: seq<Option<T>>) returns (i: nat, j: nat)
    requires Defined(slots) >= 2
    ensures i < j < |slots| && slots[i].Some? && slots[j].Some?
  {
    if slots[0].Some? {
      i := 0;
      j := OneDefined(slots[1..]);
      j := j + 1;
    } else {
      i, j := TwoDefined(slots[1..]);
      i, j := i + 1, j + 1;
    }
  }

  lemma {:induction false} KidEntriesGrow<K, V>(node: Node<K, V>, m: nat, n: nat)
    requires (node.Bitmap? || node.HashArray?) && m <= n <= |Kids(node)|
    ensures KidEntries(node, m) <= KidEntries(node, n)
  {
    if m < n { KidEntriesGrow(node, m, n - 1); }
  }

  lemma KidEntriesCount<K, V>(node: Node<K, V>, n: nat, i: nat)
    requires (node.Bitmap? || node.HashArray?) && i < n <= |Kids(node)| && Kids(node)[i].Some?
    ensures |KidEntries(node, n)| >= |Entries(Kids(node)[i].value)|
  {
    KidEntriesGrow(node, i + 1, n);
  }

  /** A trie whose keys all share one hash is a leaf. */
  lemma {:induction false} SameHashLeaf<K, V>(node: Node<K, V>, h: K -> Word, path: seq<nat>, hash: Word)
    requires Wf(node, h, path) && forall e :: e in Entries(node) ==> h(e.0) == hash
    ensures IsLeaf(node)
  {
    if !IsLeaf(node) {
      hide Wf, Entries;
      var i, j := TwoKids(node, h, path);
      var x, y := Kids(node)[i].value, Kids(node)[j].value;
      InnerHoldsTwo(x, h, path + [KidSlot(node, i)]);
      InnerHoldsTwo(y, h, path + [KidSlot(node, j)]);
      forall e | e in Entries(x) ensures h(e.0) == hash { KidEntriesHave(node, |Kids(node)|, i, e); InnerEntries(node); }
      forall e | e in Entries(y) ensures h(e.0) == hash { KidEntriesHave(node, |Kids(node)|, j, e); InnerEntries(node); }
      if i < j {
        KidKeySlot(node, h, path, i, Entries(x)[0]);
        KidKeySlot(node, h, path, j, Entries(y)[0]);
        SizedInner(node, h, path);
        KidSlotsDiffer(node, i, j);
      } else {
        SameHashLeaf(x, h, path + [KidSlot(node, i)], hash);
      }
    }
  }

  lemma SizedInner<K, V>(node: Node<K, V>, h: K -> Word, path: seq<nat>)
    requires Wf(node, h, path) && !IsLeaf(node)
    ensures Sized(node)
  {
  }
}
