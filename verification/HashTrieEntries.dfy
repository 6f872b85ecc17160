/** The bindings a trie holds, in the order it is traversed: each key once, and exactly the keys
    that lookup finds. */
module HashTrieEntries {
  import opened Bits
  import opened Options
  import opened HashTrie
  import opened HashTrieSlots
  import opened HashTrieCorrect

  // ----- entries in traversal order

  /** The child array a traversal walks; the gaps of a HashArray are skipped. */
  function Kids<K, V>(node: Node<K, V>): (kids: seq<Option<Node<K, V>>>)
    requires node.Bitmap? || node.HashArray?
    ensures forall i :: 0 <= i < |kids| && kids[i].Some? ==> kids[i].value < node
  {
    if node.Bitmap? then Somes(node.nodes) else node.slots
  }

  function Entries<K, V>(node: Node<K, V>): seq<Entry<K, V>>
    decreases node, 2
  {
    match node
    case ArrayMap(entries) => entries
    case Collision(_, entries) => entries
    case Value(_, entry) => [entry]
    case _ => KidEntries(node, |Kids(node)|)
  }

  /** The entries below the first `n` children. */
  function KidEntries<K, V>(node: Node<K, V>, n: nat): seq<Entry<K, V>>
    requires (node.Bitmap? || node.HashArray?) && n <= |Kids(node)|
    decreases node, 1, n
  {
    if n == 0 then []
    else KidEntries(node, n - 1) + if Kids(node)[n - 1].Some? then Entries(Kids(node)[n - 1].value) else []
  }

  // ----- the slot of each child

  /** The slot of the j-th set bit. */
  function NthBit(b: nat, j: nat): nat
    requires j < Count(b)
  {
    if b % 2 == 1 then if j == 0 then 0 else 1 + NthBit(b / 2, j - 1) else 1 + NthBit(b / 2, j)
  }

  lemma {:induction false} NthBitIs(b: nat, j: nat, n: nat)
    requires j < Count(b) && b < Bit(n)
    ensures NthBit(b, j) < n && Has(b, NthBit(b, j)) && Rank(b, NthBit(b, j)) == j
  {
    if b % 2 == 0 {
      NthBitIs(b / 2, j, n - 1);
    } else if j > 0 {
      NthBitIs(b / 2, j - 1, n - 1);
    }
  }

  ghost function KidSlot<K, V>(node: Node<K, V>, j: nat): nat {
    if node.Bitmap? && j < Count(node.bitmap) then NthBit(node.bitmap, j) else j
  }

  /** Children are stored in increasing slot order, and every slot's child is stored. */
  lemma KidIsChild<K, V>(node: Node<K, V>, j: nat)
    requires Sized(node) && j < |Kids(node)|
    ensures KidSlot(node, j) < 32
    ensures ChildAt(node, KidSlot(node, j)) == Kids(node)[j]
  {
    hide Child;
    if node.Bitmap? {
      Words();
      NthBitIs(node.bitmap, j, 32);
      ChildIs(node.bitmap, node.nodes, KidSlot(node, j));
    }
  }

  lemma ChildIsKid<K, V>(node: Node<K, V>, s: nat) returns (j: nat)
    requires Sized(node) && s < 32 && ChildAt(node, s).Some?
    ensures j < |Kids(node)| && KidSlot(node, j) == s && Kids(node)[j] == ChildAt(node, s)
  {
    hide Child;
    if node.Bitmap? {
      ChildIs(node.bitmap, node.nodes, s);
      j := Rank(node.bitmap, s);
      Words();
      NthBitIs(node.bitmap, j, 32);
      var t := NthBit(node.bitmap, j);
      if t < s { RankOrder(node.bitmap, t, s); }
      if s < t { RankOrder(node.bitmap, s, t); }
    } else {
      j := s;
    }
  }

  lemma KidSlotsDiffer<K, V>(node: Node<K, V>, i: nat, j: nat)
    requires Sized(node) && i < j < |Kids(node)|
    ensures KidSlot(node, i) != KidSlot(node, j)
  {
    if node.Bitmap? {
      Words();
      NthBitIs(node.bitmap, i, 32);
      NthBitIs(node.bitmap, j, 32);
    }
  }

  // ----- entries are exactly what lookup finds

  lemma {:induction false} InKidEntries<K, V>(node: Node<K, V>, n: nat, e: Entry<K, V>) returns (j: nat)
    requires (node.Bitmap? || node.HashArray?) && n <= |Kids(node)| && e in KidEntries(node, n)
    ensures j < n && Kids(node)[j].Some? && e in Entries(Kids(node)[j].value)
  {
    if Kids(node)[n - 1].Some? && e in Entries(Kids(node)[n - 1].value) {
      j := n - 1;
    } else {
      j := InKidEntries(node, n - 1, e);
    }
  }

  lemma {:induction false} KidEntriesHave<K, V>(node: Node<K, V>, n: nat, j: nat, e: Entry<K, V>)
    requires (node.Bitmap? || node.HashArray?) && j < n <= |Kids(node)|
    requires Kids(node)[j].Some? && e in Entries(Kids(node)[j].value)
    ensures e in KidEntries(node, n)
  {
    if j < n - 1 { KidEntriesHave(node, n - 1, j, e); }
  }

  lemma {:induction false} EntriesFound<K, V>(node: Node<K, V>, h: K -> Word, path: seq<nat>, e: Entry<K, V>)
    requires Wf(node, h, path) && e in Entries(node)
    ensures Get(node, |path|, h(e.0), e.0) == Some(e.1) && OnPath(h(e.0), path)
  {
    hide Child, KidEntries, Slot;
    if IsLeaf(node) {
      LeafEntries(node, h, path, e);
    } else {
      hide Get, Wf, Entries;
      var j := InnerEntry(node, h, path, e);
      EntriesFound(Kids(node)[j].value, h, path + [KidSlot(node, j)], e);
      OnPathParent(h(e.0), path, KidSlot(node, j));
      GetInner(node, |path|, h(e.0), e.0);
    }
  }

  lemma LeafEntries<K, V>(node: Node<K, V>, h: K -> Word, path: seq<nat>, e: Entry<K, V>)
    requires IsLeaf(node) && Wf(node, h, path)
    ensures e in Entries(node) <==> Get(node, |path|, h(e.0), e.0) == Some(e.1)
    ensures e in Entries(node) ==> OnPath(h(e.0), path)
  {
    if node.Collision? { GetEntryIs(node.entries, e.0, e.1); }
  }

  lemma OnPathParent(hash: nat, path: seq<nat>, s: nat)
    requires OnPath(hash, path + [s])
    ensures OnPath(hash, path) && Slot(hash, |path|) == s
  {
    assert (path + [s])[|path|] == s;
    assert forall i :: 0 <= i < |path| ==> (path + [s])[i] == path[i];
  }

  lemma InnerEntry<K, V>(node: Node<K, V>, h: K -> Word, path: seq<nat>, e: Entry<K, V>) returns (j: nat)
    requires Wf(node, h, path) && !IsLeaf(node) && e in Entries(node)
    ensures node.Bitmap? || node.HashArray?
    ensures j < |Kids(node)| && Kids(node)[j].Some? && e in Entries(Kids(node)[j].value)
    ensures Wf(Kids(node)[j].value, h, path + [KidSlot(node, j)])
    ensures ChildAt(node, KidSlot(node, j)) == Kids(node)[j]
  {
    hide Child;
    j := InKidEntries(node, |Kids(node)|, e);
    KidIsChild(node, j);
    ChildWf(node, h, path, KidSlot(node, j));
  }

  lemma {:induction false} FoundInEntries<K, V>(node: Node<K, V>, h: K -> Word, path: seq<nat>, e: Entry<K, V>)
    requires Wf(node, h, path) && Get(node, |path|, h(e.0), e.0) == Some(e.1)
    ensures e in Entries(node)
  {
    hide Child, KidEntries, Slot;
    if IsLeaf(node) {
      LeafEntries(node, h, path, e);
    } else {
      hide Get, Wf, Entries;
      var j := InnerFound(node, h, path, e);
      FoundInEntries(Kids(node)[j].value, h, path + [KidSlot(node, j)], e);
      KidEntriesHave(node, |Kids(node)|, j, e);
      InnerEntries(node);
    }
  }

  lemma InnerEntries<K, V>(node: Node<K, V>)
    requires node.Bitmap? || node.HashArray?
    ensures Entries(node) == KidEntries(node, |Kids(node)|)
  {
  }

  lemma InnerFound<K, V>(node: Node<K, V>, h: K -> Word, path: seq<nat>, e: Entry<K, V>) returns (j: nat)
    requires Wf(node, h, path) && !IsLeaf(node) && Get(node, |path|, h(e.0), e.0) == Some(e.1)
    ensures node.Bitmap? || node.HashArray?
    ensures j < |Kids(node)| && Kids(node)[j].Some? && KidSlot(node, j) < 32
    ensures Wf(Kids(node)[j].value, h, path + [KidSlot(node, j)])
    ensures Get(Kids(node)[j].value, |path| + 1, h(e.0), e.0) == Some(e.1)
  {
    hide Child;
    var s := Slot(h(e.0), |path|);
    ChildWf(node, h, path, s);
    GetInner(node, |path|, h(e.0), e.0);
    j := ChildIsKid(node, s);
  }

  lemma {:induction false} EntriesDistinct<K, V>(node: Node<K, V>, h: K -> Word, path: seq<nat>)
    requires Wf(node, h, path)
    ensures Distinct(Entries(node))
    decreases node, 2
  {
    if node.Bitmap? || node.HashArray? {
      KidEntriesDistinct(node, h, path, |Kids(node)|);
    }
  }

  lemma {:induction false} KidEntriesDistinct<K, V>(node: Node<K, V>, h: K -> Word, path: seq<nat>, n: nat)
    requires Wf(node, h, path) && (node.Bitmap? || node.HashArray?) && n <= |Kids(node)|
    ensures Distinct(KidEntries(node, n))
    decreases node, 1, n
  {
    if n > 0 {
      KidEntriesDistinct(node, h, path, n - 1);
      var kid := Kids(node)[n - 1];
      if kid.Some? {
        var front := KidEntries(node, n - 1);
        KidOnPath(node, h, path, n - 1);
        EntriesDistinct(kid.value, h, path + [KidSlot(node, n - 1)]);
        forall e, e' | e in front && e' in Entries(kid.value) ensures e.0 != e'.0 {
          var j := InKidEntries(node, n - 1, e);
          KidKeySlot(node, h, path, j, e);
          KidKeySlot(node, h, path, n - 1, e');
          KidSlotsDiffer(node, j, n - 1);
        }
      }
    }
  }

  lemma KidOnPath<K, V>(node: Node<K, V>, h: K -> Word, path: seq<nat>, j: nat)
    requires Wf(node, h, path) && (node.Bitmap? || node.HashArray?) && j < |Kids(node)| && Kids(node)[j].Some?
    ensures Wf(Kids(node)[j].value, h, path + [KidSlot(node, j)])
  {
    hide Child;
    KidIsChild(node, j);
    ChildWf(node, h, path, KidSlot(node, j));
  }

  lemma KidKeySlot<K, V>(node: Node<K, V>, h: K -> Word, path: seq<nat>, j: nat, e: Entry<K, V>)
    requires Wf(node, h, path) && (node.Bitmap? || node.HashArray?) && j < |Kids(node)| && Kids(node)[j].Some?
    requires e in Entries(Kids(node)[j].value)
    ensures Slot(h(e.0), |path|) == KidSlot(node, j)
  {
    KidOnPath(node, h, path, j);
    EntriesFound(Kids(node)[j].value, h, path + [KidSlot(node, j)], e);
    OnPathParent(h(e.0), path, KidSlot(node, j));
  }
}
