/** Updating a well-formed trie node keeps it well formed and changes the binding of one key only. */
module HashTrieCorrect {
  import opened Bits
  import opened Options
  import opened HashTrie
  import opened HashTrieSlots

  // ----- entry lists

  lemma {:induction false} FindAbsent<K, V>(entries: seq<Entry<K, V>>, key: K)
    ensures Find(entries, key) == |entries| <==> (forall i :: 0 <= i < |entries| ==> entries[i].0 != key)
  {
    if entries != [] && entries[0].0 != key {
      FindAbsent(entries[1..], key);
      assert forall i :: 0 < i < |entries| ==> entries[i] == entries[1..][i - 1];
    }
  }

  lemma GetEntryIs<K, V>(entries: seq<Entry<K, V>>, key: K, value: V)
    requires Distinct(entries)
    ensures GetEntry(entries, key) == Some(value) <==> (key, value) in entries
  {
    FindAbsent(entries, key);
  }

  lemma GetEntryNone<K, V>(entries: seq<Entry<K, V>>, key: K)
    ensures GetEntry(entries, key).None? <==> forall i :: 0 <= i < |entries| ==> entries[i].0 != key
  {
    FindAbsent(entries, key);
  }

  lemma EditDistinct<K, V>(entries: seq<Entry<K, V>>, key: K, value: Option<V>)
    requires Distinct(entries)
    requires value.None? ==> Find(entries, key) < |entries|
    ensures Distinct(EditEntries(entries, Find(entries, key), key, value))
  {
    FindAbsent(entries, key);
  }

  lemma EditMembers<K, V>(entries: seq<Entry<K, V>>, key: K, value: Option<V>, e: Entry<K, V>)
    requires Distinct(entries)
    requires value.None? ==> Find(entries, key) < |entries|
    ensures e in EditEntries(entries, Find(entries, key), key, value)
       <==> (if e.0 == key then value == Some(e.1) else e in entries)
  {
    FindAbsent(entries, key);
    var i := Find(entries, key);
    if value.None? {
      RemoveMembers(entries, i, e);
    } else if i < |entries| {
      UpdateMembers(entries, i, (key, value.value), e);
    }
  }

  lemma RemoveMembers<K, V>(entries: seq<Entry<K, V>>, i: nat, e: Entry<K, V>)
    requires Distinct(entries) && i < |entries|
    ensures e in EditEntries(entries, i, entries[i].0, None) <==> e.0 != entries[i].0 && e in entries
  {
    var edited := EditEntries(entries, i, entries[i].0, None);
    if e in entries && e.0 != entries[i].0 {
      var j :| 0 <= j < |entries| && entries[j] == e;
      if j == |entries| - 1 { assert edited[i] == e; } else { assert edited[j] == e; }
    }
  }

  lemma UpdateMembers<K, V>(entries: seq<Entry<K, V>>, i: nat, entry: Entry<K, V>, e: Entry<K, V>)
    requires Distinct(entries) && i < |entries| && entries[i].0 == entry.0
    ensures e in entries[i := entry] <==> if e.0 == entry.0 then e == entry else e in entries
  {
    assert entries[i := entry][i] == entry;
    if e in entries && e.0 != entry.0 {
      var j :| 0 <= j < |entries| && entries[j] == e;
      assert entries[i := entry][j] == e;
    }
  }

  lemma EditGet<K, V>(entries: seq<Entry<K, V>>, key: K, value: Option<V>, k: K)
    requires Distinct(entries)
    requires value.None? ==> Find(entries, key) < |entries|
    ensures GetEntry(EditEntries(entries, Find(entries, key), key, value), k)
         == if k == key then value else GetEntry(entries, k)
  {
    var edited := EditEntries(entries, Find(entries, key), key, value);
    EditDistinct(entries, key, value);
    var expected := if k == key then value else GetEntry(entries, k);
    match expected
    case Some(v) =>
      if k != key { GetEntryIs(entries, k, v); }
      EditMembers(entries, key, value, (k, v));
      GetEntryIs(edited, k, v);
    case None =>
      if GetEntry(edited, k).Some? {
        var v := GetEntry(edited, k).value;
        GetEntryIs(edited, k, v);
        EditMembers(entries, key, value, (k, v));
        if k != key { GetEntryIs(entries, k, v); }
        assert false;
      }
  }

  // ----- nodes

  function Lookup<K(==), V>(node: Option<Node<K, V>>, level: nat, hash: Word, key: K): Option<V> {
    if node.None? then None else Get(node.value, level, hash, key)
  }

  lemma GetInner<K, V>(node: Node<K, V>, level: nat, hash: Word, key: K)
    requires node.Bitmap? || node.HashArray?
    ensures Get(node, level, hash, key) == Lookup(ChildAt(node, Slot(hash, level)), level + 1, hash, key)
  {
  }

  /** A key found in a node lies on the node's path. */
  lemma {:induction false} GetOnPath<K, V>(node: Node<K, V>, h: K -> Word, path: seq<nat>, key: K)
    requires Wf(node, h, path) && Get(node, |path|, h(key), key).Some?
    ensures OnPath(h(key), path)
    ensures IsLeaf(node) ==> h(key) == node.keyHash
  {
    if node.Collision? {
      FindAbsent(node.entries, key);
    } else if !node.Value? {
      var s := Slot(h(key), |path|);
      ChildWf(node, h, path, s);
      GetInner(node, |path|, h(key), key);
      GetOnPath(ChildAt(node, s).value, h, path + [s], key);
      assert forall i :: 0 <= i < |path| ==> (path + [s])[i] == path[i];
    }
  }

  /** A leaf may move up to any prefix of its path. */
  lemma LeafMoves<K, V>(node: Node<K, V>, h: K -> Word, path: seq<nat>, s: nat)
    requires IsLeaf(node) && Wf(node, h, path + [s])
    ensures Wf(node, h, path)
    ensures forall k :: Get(node, |path| + 1, h(k), k) == Get(node, |path|, h(k), k)
  {
    assert forall i :: 0 <= i < |path| ==> (path + [s])[i] == path[i];
  }

  // ----- replacing one slot

  /** `r` holds the children of `was` except that slot `s` now holds `node`. */
  ghost predicate SlotPut<K, V>(was: Node<K, V>, s: nat, node: Option<Node<K, V>>, r: Node<K, V>) {
    && (was.Bitmap? || was.HashArray?) && (r.Bitmap? || r.HashArray?)
    && forall t: nat :: t < 32 ==> ChildAt(r, t) == if t == s then node else ChildAt(was, t)
  }

  lemma SlotPutGet<K, V>(was: Node<K, V>, s: nat, node: Option<Node<K, V>>, r: Node<K, V>, level: nat, hash: Word, key: K)
    requires SlotPut(was, s, node, r)
    ensures Get(r, level, hash, key)
         == if Slot(hash, level) == s then Lookup(node, level + 1, hash, key) else Get(was, level, hash, key)
  {
    GetInner(r, level, hash, key);
    GetInner(was, level, hash, key);
  }

  /** Sizes as the node kinds require them; with well-formed children this makes a node well formed. */
  ghost predicate Sized<K, V>(node: Node<K, V>) {
    match node
    case Bitmap(bitmap, nodes) =>
      && bitmap < WORD && |nodes| == Count(bitmap)
      && 1 <= |nodes| <= MAX_BITMAP && (|nodes| == 1 ==> !IsLeaf(nodes[0]))
    case HashArray(count, slots) => |slots| == 32 && count == Defined(slots) && count >= MIN_HASH_ARRAY
    case _ => false
  }

  lemma ChildrenWf<K, V>(node: Node<K, V>, h: K -> Word, path: seq<nat>)
    requires Sized(node) && |path| < 7
    requires forall t: nat :: t < 32 ==> WfOption(ChildAt(node, t), h, path + [t])
    ensures Wf(node, h, path)
  {
    forall t: nat | t < 32 && ChildAt(node, t).Some? ensures Wf(ChildAt(node, t).value, h, path + [t]) {
      assert WfOption(ChildAt(node, t), h, path + [t]);
    }
  }

  lemma SlotPutWf<K, V>(was: Node<K, V>, s: nat, node: Option<Node<K, V>>, r: Node<K, V>, h: K -> Word, path: seq<nat>)
    requires Wf(was, h, path) && SlotPut(was, s, node, r) && Sized(r) && s < 32
    requires WfOption(node, h, path + [s])
    ensures Wf(r, h, path)
  {
    forall t: nat | t < 32 ensures WfOption(ChildAt(r, t), h, path + [t]) {
      if t != s { ChildWf(was, h, path, t); }
    }
  }

  /** Slots other than `s` and `t` are empty. */
  ghost predicate NoneBut<K, V>(b: nat, nodes: seq<Node<K, V>>, s: nat, t: nat) {
    forall t': nat :: t' < 32 && t' != s && t' != t ==> Child(b, nodes, t').None?
  }

  ghost predicate HoldsOnly<K, V>(b: nat, nodes: seq<Node<K, V>>, s: nat, t: nat, r: Node<K, V>) {
    t < 32 && t != s && Child(b, nodes, t) == Some(r) && NoneBut(b, nodes, s, t)
  }

  /** What PutBitmap may return: the same slots but one, or the single leaf that is left. */
  ghost predicate PutAs<K, V>(b: nat, nodes: seq<Node<K, V>>, s: nat, node: Option<Node<K, V>>, r: Node<K, V>) {
    || (Sized(r) && SlotPut(Bitmap(b, nodes), s, node, r))
    || (node == Some(r) && IsLeaf(r) && NoneBut(b, nodes, s, s))
    || (node.None? && IsLeaf(r) && exists t: nat :: HoldsOnly(b, nodes, s, t, r))
  }

  lemma PutBitmapSlots<K, V>(b: nat, nodes: seq<Node<K, V>>, s: nat, node: Option<Node<K, V>>)
    requires Sized(Bitmap(b, nodes)) && s < 32
    requires node.None? ==> Child(b, nodes, s).Some? && |nodes| > 1
    ensures PutAs(b, nodes, s, node, PutBitmap(b, nodes, s, node))
  {
    ChildIs(b, nodes, s);
    if !Has(b, s) {
      AddSlot(b, nodes, s, node);
    } else if node.None? {
      DropSlot(b, nodes, s);
    } else {
      SetSlot(b, nodes, s, node);
    }
  }

  lemma AddSlot<K, V>(b: nat, nodes: seq<Node<K, V>>, s: nat, node: Option<Node<K, V>>)
    requires Sized(Bitmap(b, nodes)) && s < 32 && node.Some? && !Has(b, s)
    ensures PutAs(b, nodes, s, node, PutBitmap(b, nodes, s, node))
  {
    hide Child, Count, Rank, And, Or, Index;
    IndexInRange(b, s);
    IndexIsRank(b, s);
    ChildIs(b, nodes, s);
    var r := PutBitmap(b, nodes, s, node);
    if |nodes| >= MAX_BITMAP {
      ExpandSlots(b, nodes, s, node);
    } else {
      forall t: nat | t < 32 ensures ChildAt(r, t) == if t == s then node else Child(b, nodes, t) {
        InsertChild(b, nodes, s, node.value, t);
      }
      InsertChild(b, nodes, s, node.value, s);
    }
  }

  lemma DropSlot<K, V>(b: nat, nodes: seq<Node<K, V>>, s: nat)
    requires Sized(Bitmap(b, nodes)) && s < 32 && Has(b, s) && |nodes| > 1 && Child(b, nodes, s).Some?
    ensures PutAs(b, nodes, s, None, PutBitmap(b, nodes, s, None))
  {
    hide Child, Count, Rank, And, Xor, Index;
    IndexInRange(b, s);
    IndexIsRank(b, s);
    var r := PutBitmap(b, nodes, s, None);
    if |nodes| == 2 && IsLeaf(nodes[1 - Rank(b, s)]) {
      var t := OtherSlot(b, nodes, s);
      assert HoldsOnly(b, nodes, s, t, r);
    } else {
      forall t: nat | t < 32 ensures ChildAt(r, t) == if t == s then None else Child(b, nodes, t) {
        RemoveChild(b, nodes, s, t);
      }
      RemoveChild(b, nodes, s, s);
    }
  }

  lemma SetSlot<K, V>(b: nat, nodes: seq<Node<K, V>>, s: nat, node: Option<Node<K, V>>)
    requires Sized(Bitmap(b, nodes)) && s < 32 && node.Some? && Has(b, s)
    ensures PutAs(b, nodes, s, node, PutBitmap(b, nodes, s, node))
  {
    hide Child, Count, Rank, And, Index;
    IndexInRange(b, s);
    IndexIsRank(b, s);
    var r := PutBitmap(b, nodes, s, node);
    if |nodes| == 1 && IsLeaf(node.value) {
      forall t: nat | t < 32 && t != s ensures Child(b, nodes, t).None? {
        OnlySlot(b, nodes, s, t);
      }
    } else {
      forall t: nat | t < 32 ensures ChildAt(r, t) == if t == s then node else Child(b, nodes, t) {
        ReplaceChild(b, nodes, s, node.value, t);
      }
    }
  }

  lemma ExpandSlots<K, V>(b: nat, nodes: seq<Node<K, V>>, s: nat, node: Option<Node<K, V>>)
    requires Sized(Bitmap(b, nodes)) && s < 32 && !Has(b, s) && node.Some? && |nodes| == MAX_BITMAP
    ensures var r := HashArray(|nodes| + 1, Unpack(b, nodes, 32)[s := node]);
            Sized(r) && SlotPut(Bitmap(b, nodes), s, node, r)
  {
    hide Child;
    var n := 32;
    CountWord(b, n);
    var slots := Unpack(b, nodes, n);
    UnpackDefined(b, nodes, n);
    UnpackChild(b, nodes, n, s);
    ChildIs(b, nodes, s);
    DefinedUpdate(slots, s, node);
    forall t: nat | t < n ensures slots[s := node][t] == if t == s then node else Child(b, nodes, t) {
      UnpackChild(b, nodes, n, t);
    }
  }

  lemma OnlySlot<K, V>(b: nat, nodes: seq<Node<K, V>>, s: nat, t: nat)
    requires b < WORD && |nodes| == Count(b) == 1 && s < 32 && t < 32 && s != t && Has(b, s)
    ensures Child(b, nodes, t).None?
  {
    ChildIs(b, nodes, s);
    ChildIs(b, nodes, t);
    if Has(b, t) {
      if s < t { RankOrder(b, s, t); } else { RankOrder(b, t, s); }
    }
  }

  /** The slot of the other one of two children. */
  lemma OtherSlot<K, V>(b: nat, nodes: seq<Node<K, V>>, s: nat) returns (t: nat)
    requires b < WORD && |nodes| == Count(b) == 2 && s < 32 && Has(b, s)
    ensures Rank(b, s) < 2
    ensures t < 32 && t != s && Child(b, nodes, t) == Some(nodes[1 - Rank(b, s)])
    ensures forall t': nat :: t' < 32 && t' != s && t' != t ==> Child(b, nodes, t').None?
  {
    hide Child, And, Xor, Rank;
    ChildIs(b, nodes, s);
    var b' := Xor(b, Bit(s));
    var rest := SpliceOut(nodes, Rank(b, s));
    RemoveChild(b, nodes, s, s);
    Words();
    t := SomeSlot(b', 32);
    RemoveChild(b, nodes, s, t);
    HasXor(b, s, t);
    ChildIs(b', rest, t);
    forall t': nat | t' < 32 && t' != s && t' != t ensures Child(b, nodes, t').None? {
      RemoveChild(b, nodes, s, t');
      OnlySlot(b', rest, t, t');
    }
  }

  lemma {:induction false} SomeSlot(b: nat, n: nat) returns (t: nat)
    requires 0 < b < Bit(n)
    ensures t < n && Has(b, t)
  {
    if b % 2 == 1 {
      t := 0;
    } else {
      t := SomeSlot(b / 2, n - 1);
      t := t + 1;
    }
  }

  lemma PutHashArraySlots<K, V>(count: nat, slots: seq<Option<Node<K, V>>>, s: nat, node: Option<Node<K, V>>)
    requires Sized(HashArray(count, slots)) && s < 32
    requires node.Some? || slots[s].Some?
    ensures var r := PutHashArray(count, slots, s, node);
            Sized(r) && SlotPut(HashArray(count, slots), s, node, r)
  {
    hide Child;
    var rest := slots[s := node];
    DefinedUpdate(slots, s, node);
    var r := PutHashArray(count, slots, s, node);
    if r.Bitmap? {
      PackChild(rest, s);
      forall t: nat | t < 32 ensures ChildAt(r, t) == rest[t] {
        PackChild(rest, t);
      }
    }
  }

  lemma PutCorrect<K, V>(was: Node<K, V>, h: K -> Word, path: seq<nat>, s: nat, node: Option<Node<K, V>>, key: K)
    requires Wf(was, h, path) && (was.Bitmap? || was.HashArray?) && s < 32 && WfOption(node, h, path + [s])
    requires node.None? ==> ChildAt(was, s).Some? && (was.Bitmap? ==> |was.nodes| > 1)
    requires OnPath(h(key), path)
    requires ChildAt(was, s).None? ==> node.Some?
    ensures was.Bitmap? ==> was.bitmap < WORD
    ensures var r := Put(was, s, node);
            && Wf(r, h, path)
            && Get(r, |path|, h(key), key)
               == if Slot(h(key), |path|) == s then Lookup(node, |path| + 1, h(key), key) else Get(was, |path|, h(key), key)
  {
    hide Child;
    hide PutBitmap, PutHashArray, Count, Get;
    var r := Put(was, s, node);
    if was.HashArray? {
      PutHashArraySlots(was.count, was.slots, s, node);
    } else {
      PutBitmapSlots(was.bitmap, was.nodes, s, node);
    }
    if Sized(r) && SlotPut(was, s, node, r) {
      SlotPutWf(was, s, node, r, h, path);
      SlotPutGet(was, s, node, r, |path|, h(key), key);
    } else if node.Some? {
      LastLeaf(was, h, path, s, r, key);
    } else {
      var t :| HoldsOnly(was.bitmap, was.nodes, s, t, r);
      LastLeaf(was, h, path, t, r, key);
    }
  }

  /** A leaf that is the only thing left below a bitmap node takes the node's place. */
  lemma LastLeaf<K, V>(was: Node<K, V>, h: K -> Word, path: seq<nat>, t: nat, r: Node<K, V>, key: K)
    requires was.Bitmap? && Wf(was, h, path) && IsLeaf(r) && t < 32 && Wf(r, h, path + [t]) && OnPath(h(key), path)
    ensures Wf(r, h, path)
    ensures Get(r, |path|, h(key), key) == Get(r, |path| + 1, h(key), key)
    ensures Slot(h(key), |path|) != t ==> Get(r, |path|, h(key), key).None?
    ensures NoneBut(was.bitmap, was.nodes, t, t) && Slot(h(key), |path|) != t ==> Get(was, |path|, h(key), key).None?
    ensures forall s :: HoldsOnly(was.bitmap, was.nodes, s, t, r) && Slot(h(key), |path|) != s ==>
              Get(was, |path|, h(key), key) == Get(r, |path|, h(key), key)
  {
    LeafMoves(r, h, path, t);
    GetInner(was, |path|, h(key), key);
    if Get(r, |path| + 1, h(key), key).Some? {
      GetOnPath(r, h, path + [t], key);
      assert (path + [t])[|path|] == t;
    }
  }

  // ----- merging two entries

  lemma OneSlot<T>(u: nat, node: T, t: nat)
    requires u < 32 && t < 32
    ensures Bit(u) < WORD && Count(Bit(u)) == 1
    ensures Child(Bit(u), [node], t) == if t == u then Some(node) else None
  {
    NoBits(u);
    NoBits(t);
    RankZero(u);
    InsertChild<T>(0, [], u, node, t);
    ChildIs<T>(0, [], t);
    assert SpliceIn([], 0, node) == [node];
  }

  lemma TwoSlots<T>(u: nat, s: nat, x: T, y: T, t: nat)
    requires u < 32 && s < 32 && t < 32 && u != s
    ensures var b := Or(Bit(u), Bit(s)); var nodes := if u < s then [x, y] else [y, x];
            && b < WORD && Count(b) == 2
            && Child(b, nodes, t) == if t == u then Some(x) else if t == s then Some(y) else None
  {
    hide Child, Count, Or;
    OneSlot(u, x, t);
    HasBit(u, s);
    RankBit(u, s);
    InsertChild(Bit(u), [x], s, y, t);
    assert SpliceIn([x], if u < s then 1 else 0, y) == if u < s then [x, y] else [y, x];
  }

  lemma RankBit(u: nat, s: nat)
    ensures Rank(Bit(u), s) == if u < s then 1 else 0
  {
    NoBits(u);
    RankOr(0, u, s);
    RankZero(s);
  }

  lemma {:induction false} OrSame(x: nat)
    ensures Or(x, x) == x
  {
    if x != 0 { OrSame(x / 2); }
  }

  lemma {:induction false} MergeCorrect<K, V>(node: Node<K, V>, h: K -> Word, path: seq<nat>, entry: Entry<K, V>, key: K)
    requires IsLeaf(node) && Wf(node, h, path) && OnPath(h(entry.0), path) && OnPath(h(key), path)
    requires node.keyHash == h(entry.0) ==> node.Value? && node.entry.0 != entry.0
    ensures OnPath(node.keyHash, path)
    ensures var m := Merge(node, path, |path|, h(entry.0), entry);
            && Wf(m, h, path) && (node.keyHash != h(entry.0) ==> m.Bitmap?)
            && Get(m, |path|, h(key), key)
               == if key == entry.0 then Some(entry.1) else Get(node, |path|, h(key), key)
    decreases 7 - |path|
  {
    var level, keyHash := |path|, h(entry.0);
    if node.keyHash == keyHash {
      PairGet(node.entry, entry, key);
    } else {
      hide Child, Get, Or, Count;
      DistinctHashesPart(node.keyHash, keyHash, path);
      var u, s := Slot(node.keyHash, level), Slot(keyHash, level);
      LeafDown(node, h, path, key);
      OnPathChild(keyHash, path);
      if u == s {
        OrSame(Bit(u));
        var below := Merge(node, path + [u], level + 1, keyHash, entry);
        OnPathChild(h(key), path);
        MergeCorrect(node, h, path + [u], entry, if Slot(h(key), level) == u then key else entry.0);
        OneChild(below, h, path, u, key);
      } else {
        var leaf := Value(keyHash, entry);
        LeafDown(leaf, h, path, key);
        TwoChildren(node, leaf, h, path, u, s, key);
        LeafGet(keyHash, entry, level, h(key), key);
      }
    }
  }

  lemma PairGet<K, V>(x: Entry<K, V>, y: Entry<K, V>, key: K)
    requires x.0 != y.0
    ensures GetEntry([x, y], key) == if key == y.0 then Some(y.1) else if key == x.0 then Some(x.1) else None
  {
    var pair := [x, y];
    assert pair[0] == x && pair[1] == y;
    GetEntryIs(pair, x.0, x.1);
    GetEntryIs(pair, y.0, y.1);
    GetEntryNone(pair, key);
  }

  lemma LeafGet<K, V>(keyHash: Word, entry: Entry<K, V>, level: nat, hash: Word, key: K)
    ensures Get(Value(keyHash, entry), level, hash, key) == if key == entry.0 then Some(entry.1) else None
  {
  }

  lemma OneChild<K, V>(below: Node<K, V>, h: K -> Word, path: seq<nat>, u: nat, key: K)
    requires |path| < 7 && u < 32 && Wf(below, h, path + [u]) && !IsLeaf(below)
    ensures var m := Bitmap(Bit(u), [below]);
            && Wf(m, h, path)
            && Get(m, |path|, h(key), key)
               == if Slot(h(key), |path|) == u then Get(below, |path| + 1, h(key), key) else None
  {
    hide Child;
    var m := Bitmap(Bit(u), [below]);
    GetInner(m, |path|, h(key), key);
    OneSlot(u, below, Slot(h(key), |path|));
    forall t: nat | t < 32 ensures Child(Bit(u), [below], t) == if t == u then Some(below) else None {
      OneSlot(u, below, t);
    }
  }

  lemma TwoChildren<K, V>(x: Node<K, V>, y: Node<K, V>, h: K -> Word, path: seq<nat>, u: nat, s: nat, key: K)
    requires |path| < 7 && u < 32 && s < 32 && u != s && Wf(x, h, path + [u]) && Wf(y, h, path + [s])
    ensures var m := Bitmap(Or(Bit(u), Bit(s)), if u < s then [x, y] else [y, x]); var level := |path| + 1;
            && Wf(m, h, path)
            && Get(m, |path|, h(key), key)
               == if Slot(h(key), |path|) == u then Get(x, level, h(key), key)
                  else if Slot(h(key), |path|) == s then Get(y, level, h(key), key) else None
  {
    hide Child, Or, Count, Get, Wf, Bit;
    var b, nodes := Or(Bit(u), Bit(s)), if u < s then [x, y] else [y, x];
    var m := Bitmap(b, nodes);
    GetInner(m, |path|, h(key), key);
    TwoSlots(u, s, x, y, Slot(h(key), |path|));
    forall t: nat | t < 32 ensures WfOption(ChildAt(m, t), h, path + [t]) {
      TwoSlots(u, s, x, y, t);
    }
    ChildrenWf(m, h, path);
  }

  /** A leaf may move down its own hash path; a key on another branch is not in it. */
  lemma LeafDown<K, V>(node: Node<K, V>, h: K -> Word, path: seq<nat>, key: K)
    requires IsLeaf(node) && Wf(node, h, path)
    ensures Wf(node, h, path + [Slot(node.keyHash, |path|)])
    ensures Get(node, |path|, h(key), key) == Get(node, |path| + 1, h(key), key)
    ensures Slot(h(key), |path|) != Slot(node.keyHash, |path|) ==> Get(node, |path|, h(key), key).None?
  {
    OnPathChild(node.keyHash, path);
    if Get(node, |path|, h(key), key).Some? { GetOnPath(node, h, path, key); }
  }

  // ----- update

  /** What updating `node` (possibly absent) must achieve, seen from one key `k` on the node's path. */
  ghost predicate Achieves<K, V>(node: Option<Node<K, V>>, h: K -> Word, path: seq<nat>, key: K, value: Option<V>,
                                 u: Updated<K, V>, k: K)
  {
    && WfOption(u.node, h, path)
    && Lookup(u.node, |path|, h(k), k) == (if k == key then value else Lookup(node, |path|, h(k), k))
    && (u.altered <==> value != Lookup(node, |path|, h(key), key))
    && (u.resized <==> value.Some? != Lookup(node, |path|, h(key), key).Some?)
    && (u.altered <==> u.node != node)
    && (u.node.None? && node.Some? ==> node.value.Value?)
  }

  lemma {:induction false} UpdateCorrect<K, V>(node: Node<K, V>, h: K -> Word, path: seq<nat>, key: K, value: Option<V>, k: K)
    requires Wf(node, h, path) && OnPath(h(key), path) && OnPath(h(k), path)
    ensures Achieves(Some(node), h, path, key, value, Update(node, path, |path|, h, key, value), k)
  {
    if node.Value? {
      UpdateValue(node, h, path, key, value, k);
    } else if node.Collision? {
      UpdateCollision(node, h, path, key, value, k);
    } else {
      hide Child, Get, Achieves, Put;
      var s := Slot(h(key), |path|);
      ChildWf(node, h, path, s);
      OnPathChild(h(key), path);
      OnPathChild(h(k), path);
      var child := ChildAt(node, s);
      if child.None? && value.None? {
        NothingToRemove(node, h, path, key, k);
      } else {
        var k' := if Slot(h(k), |path|) == s then k else key;
        if child.Some? {
          UpdateCorrect(child.value, h, path + [s], key, value, k');
          StepCorrect(node, h, path, key, value, Update(child.value, path + [s], |path| + 1, h, key, value), k);
        } else {
          AbsentCorrect(h, path + [s], key, value, k');
          StepCorrect(node, h, path, key, value, UpdateAbsent(h, key, value), k);
        }
      }
    }
  }

  lemma NothingToRemove<K, V>(node: Node<K, V>, h: K -> Word, path: seq<nat>, key: K, k: K)
    requires Wf(node, h, path) && (node.Bitmap? || node.HashArray?)
    requires ChildAt(node, Slot(h(key), |path|)).None?
    ensures Achieves(Some(node), h, path, key, None, Updated(Some(node), false, false), k)
  {
    hide Child, Get;
    GetInner(node, |path|, h(key), key);
  }

  /** An inner node achieves what its child did. */
  lemma StepCorrect<K, V>(node: Node<K, V>, h: K -> Word, path: seq<nat>, key: K, value: Option<V>, u: Updated<K, V>, k: K)
    requires Wf(node, h, path) && (node.Bitmap? || node.HashArray?) && OnPath(h(k), path)
    requires var s := Slot(h(key), |path|);
             && (ChildAt(node, s).None? ==> value.Some?)
             && Achieves(ChildAt(node, s), h, path + [s], key, value, u, if Slot(h(k), |path|) == s then k else key)
    ensures ChildAt(node, Slot(h(key), |path|)).None? ==> u.node.Some?
    ensures Sized(node)
    ensures var s := Slot(h(key), |path|);
            Achieves(Some(node), h, path, key, value,
                     u.(node := Some(if u.node == ChildAt(node, s) then node else Put(node, s, u.node))), k)
  {
    hide Child, Get, Put;
    var s := Slot(h(key), |path|);
    var child := ChildAt(node, s);
    GetInner(node, |path|, h(key), key);
    GetInner(node, |path|, h(k), k);
    if u.node != child {
      if u.node.None? && node.Bitmap? { ChildNotAlone(node, h, path, s); }
      PutCorrect(node, h, path, s, u.node, k);
      PutDiffers(node, s, u.node);
    }
  }

  lemma AbsentCorrect<K, V>(h: K -> Word, path: seq<nat>, key: K, value: Option<V>, k: K)
    requires OnPath(h(key), path)
    ensures Achieves(None, h, path, key, value, UpdateAbsent(h, key, value), k)
  {
  }

  /** A leaf is never the only child. */
  lemma ChildNotAlone<K, V>(node: Node<K, V>, h: K -> Word, path: seq<nat>, s: nat)
    requires node.Bitmap? && Wf(node, h, path) && s < 32
    requires ChildAt(node, s).Some? && ChildAt(node, s).value.Value?
    ensures |node.nodes| > 1
  {
    if |node.nodes| == 1 { OnlyChild(node.bitmap, node.nodes, s); }
  }

  lemma OnlyChild<K, V>(bitmap: nat, nodes: seq<Node<K, V>>, s: nat)
    requires s < 32 && |nodes| == 1 && Child(bitmap, nodes, s).Some?
    ensures Child(bitmap, nodes, s).value == nodes[0]
  {
    hide *;
  }

  /** Changing a child changes the node. */
  lemma PutDiffers<K, V>(node: Node<K, V>, s: nat, child: Option<Node<K, V>>)
    requires Sized(node) && s < 32 && child != ChildAt(node, s)
    requires child.None? ==> node.Bitmap? ==> |node.nodes| > 1
    requires ChildAt(node, s).None? ==> child.Some?
    ensures Put(node, s, child) != node
  {
    hide Child;
    if node.HashArray? {
      PutHashArraySlots(node.count, node.slots, s, child);
    } else {
      PutBitmapSlots(node.bitmap, node.nodes, s, child);
    }
  }

  lemma UpdateValue<K, V>(node: Node<K, V>, h: K -> Word, path: seq<nat>, key: K, value: Option<V>, k: K)
    requires node.Value? && Wf(node, h, path) && OnPath(h(key), path) && OnPath(h(k), path)
    ensures Achieves(Some(node), h, path, key, value, Update(node, path, |path|, h, key, value), k)
  {
    if key != node.entry.0 && value.Some? {
      MergeCorrect(node, h, path, (key, value.value), k);
      MergeCorrect(node, h, path, (key, value.value), node.entry.0);
    }
  }

  lemma UpdateListCorrect<K, V>(node: Node<K, V>, h: K -> Word, path: seq<nat>, key: K, value: Option<V>, k: K)
    requires node.Collision? && Wf(node, h, path) && h(key) == node.keyHash
    ensures Achieves(Some(node), h, path, key, value, UpdateList(node.keyHash, node.entries, key, value), k)
  {
    var entries := node.entries;
    FindAbsent(entries, key);
    var i := Find(entries, key);
    if i < |entries| && value.None? && |entries| == 2 {
      ShrinkCorrect(node, h, path, key, k);
    } else if value.Some? || i < |entries| {
      EditDistinct(entries, key, value);
      EditGet(entries, key, value, k);
      hide GetEntry, Find;
    }
  }

  lemma ShrinkCorrect<K, V>(node: Node<K, V>, h: K -> Word, path: seq<nat>, key: K, k: K)
    requires node.Collision? && Wf(node, h, path) && h(key) == node.keyHash && |node.entries| == 2 && Find(node.entries, key) < 2
    ensures Achieves(Some(node), h, path, key, None, UpdateList(node.keyHash, node.entries, key, None), k)
  {
    var entries := node.entries;
    FindAbsent(entries, key);
    PairGet(entries[0], entries[1], k);
    assert entries == [entries[0], entries[1]];
  }

  lemma UpdateCollision<K, V>(node: Node<K, V>, h: K -> Word, path: seq<nat>, key: K, value: Option<V>, k: K)
    requires node.Collision? && Wf(node, h, path) && OnPath(h(key), path) && OnPath(h(k), path)
    ensures Achieves(Some(node), h, path, key, value, Update(node, path, |path|, h, key, value), k)
  {
    if h(key) != node.keyHash {
      if Get(node, |path|, h(key), key).Some? { GetOnPath(node, h, path, key); }
      if value.Some? { MergeCorrect(node, h, path, (key, value.value), k); }
    } else {
      UpdateListCorrect(node, h, path, key, value, k);
    }
  }
}
