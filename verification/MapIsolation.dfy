/** Editing sessions on maps: what they achieve, and when no other map notices. */
module MapIsolation {
  import opened Bits
  import opened Options
  import opened Owners
  import opened HashTrie
  import opened HashTrieCorrect
  import opened HashTrieEntries
  import opened HashMaps
  import opened MapNodes
  import opened MapEdits
  import opened MapLeaves
  import opened MapUpdate
  import opened MapRoots
  import opened MapSessions

  /** Valid maps that hold nothing of the session of `owner`. */
  ghost predicate Published<K, V>(maps: set<HeapMap<K, V>>, w: World<K, V>, h: K -> Word, owner: Owner?)
    reads maps, w.nodes, w.pairs
  {
    forall m :: m in maps ==> m.Valid(w, h) && m.ownerID != owner && Hidden(Snapshot(w), m.root, m.model.root, owner)
  }

  /** An update that writes only what belongs to its session does not show where nothing of the session is. */
  lemma StaysHidden<K, V>(before: Heap<K, V>, after: Heap<K, V>, owner: Owner, key: K, area: Area<K, V>,
                          r: Option<TNode<K, V>>, v: Option<Node<K, V>>, other: Owner?)
    requires Touched(before, after, owner, key, area)
    requires (forall m :: m in area.foot ==> m.ownerID == owner) && (forall p :: p in area.cells ==> p.maker == owner)
    requires Stands(before, r, v, other) && Hidden(before, r, v, owner)
    ensures Stands(after, r, v, other) && Hidden(after, r, v, owner)
  {
    if r.Some? {
      HiddenAgrees(before, after, owner, key, area, r.value, v.value);
      hide Reach, PairsOf, Reps, Tree, Agree, Touched;
      Frame(before, after, r.value, v.value, other);
    }
  }

  lemma HiddenAgrees<K, V>(before: Heap<K, V>, after: Heap<K, V>, owner: Owner, key: K, area: Area<K, V>, n: TNode<K, V>, v: Node<K, V>)
    requires Touched(before, after, owner, key, area) && Reps(before, n, v)
    requires (forall m :: m in area.foot ==> m.ownerID == owner) && (forall p :: p in area.cells ==> p.maker == owner)
    requires forall m :: m in Reach(before, n, v) ==> m.ownerID != owner
    requires forall p :: p in PairsOf(before, n, v) ==> p.maker != owner
    ensures Agree(before, after, Reach(before, n, v), PairsOf(before, n, v))
  {
    hide Reach, PairsOf, Reps;
    Within(before, n, v);
  }

  /** A session writes only what belongs to it. */
  lemma OwnArea<K, V>(heap: Heap<K, V>, r: Option<TNode<K, V>>, v: Option<Node<K, V>>, owner: Owner)
    requires PrivateRoot(heap, r, v, owner)
    ensures var area := RootArea(heap, r, v, owner);
            (forall m :: m in area.foot ==> m.ownerID == owner) && (forall p :: p in area.cells ==> p.maker == owner)
  {
    hide Reach, PairsOf;
  }

  /** The plain map after some operations. */
  function Applied<K, V>(m: map<K, V>, ops: seq<Op<K, V>>): map<K, V>
    decreases |ops|
  {
    if ops == [] then m else Applied(Assign(m, ops[0].key, Wanted(ops[0])), ops[1..])
  }

  // ----- keys with distinct hashes

  ghost predicate DistinctHashes<K>(h: K -> Word, keys: set<K>) {
    forall a, b :: a in keys && b in keys && h(a) == h(b) ==> a == b
  }

  /** The keys of a map and of operations on it. */
  ghost function KeysWith<K, V>(m: map<K, V>, ops: seq<Op<K, V>>): set<K> {
    m.Keys + set op | op in ops :: op.key
  }

  /** Whether the session removes nothing, or no two of the keys it can meet share a hash. */
  ghost predicate Clean<K, V>(m: map<K, V>, h: K -> Word, ops: seq<Op<K, V>>) {
    (forall op :: op in ops ==> op.Set?) || DistinctHashes(h, KeysWith(m, ops))
  }

  lemma CleanStep<K, V>(m: map<K, V>, h: K -> Word, ops: seq<Op<K, V>>)
    requires Clean(m, h, ops) && ops != []
    ensures ops[0].Set? || DistinctHashes(h, m.Keys)
    ensures Clean(Assign(m, ops[0].key, Wanted(ops[0])), h, ops[1..])
  {
    assert forall op :: op in ops[1..] ==> op in ops;
    assert ops[0] in ops;
  }

  /** A trie whose keys have distinct hashes has no collision nodes. */
  lemma {:induction false} TrieNoClash<K, V>(v: Node<K, V>, h: K -> Word, path: seq<nat>, keys: set<K>)
    requires Wf(v, h, path) && DistinctHashes(h, keys) && forall e :: e in Entries(v) ==> e.0 in keys
    ensures NoClash(v)
    decreases v
  {
    if v.Collision? {
      CollisionKeys(v, h, path);
      assert false;
    } else {
      forall s: nat | s < 32 && Kid(v, s).Some? ensures NoClash(Kid(v, s).value) {
        KidKeys(v, h, path, s);
        TrieNoClash(Kid(v, s).value, h, path + [s], keys);
      }
    }
  }

  lemma CollisionKeys<K, V>(v: Node<K, V>, h: K -> Word, path: seq<nat>)
    requires Wf(v, h, path) && v.Collision?
    ensures |Entries(v)| >= 2 && Entries(v)[0].0 != Entries(v)[1].0 && h(Entries(v)[0].0) == h(Entries(v)[1].0)
  {
  }

  lemma KidKeys<K, V>(v: Node<K, V>, h: K -> Word, path: seq<nat>, s: nat)
    requires Wf(v, h, path) && s < 32 && Kid(v, s).Some?
    ensures Wf(Kid(v, s).value, h, path + [s])
    ensures forall e :: e in Entries(Kid(v, s).value) ==> e in Entries(v)
  {
    hide Child, KidEntries;
    ChildWf(v, h, path, s);
    var j := ChildIsKid(v, s);
    forall e | e in Entries(Kid(v, s).value) ensures e in Entries(v) {
      KidEntriesHave(v, |HashTrieEntries.Kids(v)|, j, e);
    }
  }

  lemma NoClashHere<K, V>(m: HashMap<K, V>, h: K -> Word)
    requires HashMaps.Valid(m, h) && DistinctHashes(h, Abs(m).Keys)
    ensures NoClashRoot(m.root)
  {
    hide Entries, Wf, ToMap, NoClash;
    if m.root.Some? {
      EntriesSized(m.root.value, h);
      forall e | e in Entries(m.root.value) ensures e.0 in Abs(m).Keys {
        ToMapIs(Entries(m.root.value), e.0);
      }
      if m.root.value.ArrayMap? {
        ListNoClash(m.root.value);
      } else {
        TrieNoClash(m.root.value, h, [], Abs(m).Keys);
      }
    }
  }

  lemma ListNoClash<K, V>(v: Node<K, V>)
    requires v.ArrayMap?
    ensures NoClash(v)
  {
  }

  // ----- isolation

  /** The map `m` edits only pairs of its session, and no map in `maps` holds any. */
  ghost predicate Isolating<K, V>(m: HeapMap<K, V>, maps: set<HeapMap<K, V>>, w: World<K, V>, h: K -> Word)
    reads m, maps, w.nodes, w.pairs
  {
    PrivateRoot(Snapshot(w), m.root, m.model.root, m.ownerID) && m !in maps && Published(maps, w, h, m.ownerID)
  }

  /** One edit of a map under its owner. */
  method EditOne<K(==), V(==)>(ghost w: World<K, V>, m: HeapMap<K, V>, h: K -> Word, op: Op<K, V>, ghost maps: set<HeapMap<K, V>>)
    returns (ghost w': World<K, V>)
    requires m.Valid(w, h) && m.ownerID != null
    modifies m, m.MyArea(w).foot, m.MyArea(w).cells
    ensures w.nodes <= w'.nodes && w.pairs <= w'.pairs && fresh(w'.nodes - w.nodes) && fresh(w'.pairs - w.pairs)
    ensures m.Valid(w', h) && m.ownerID == old(m.ownerID) && m.model == UpdateMap(old(m.model), h, op.key, Wanted(op))
    ensures old(m.altered) ==> m.altered
    ensures !m.altered ==> m.model == old(m.model) && Snapshot(w') == old(Snapshot(w))
    ensures old(Isolating(m, maps, w, h)) && (op.Set? || DistinctHashes(h, Abs(old(m.model)).Keys)) ==> Isolating(m, maps, w', h)
    ensures Inherits(old(Snapshot(w)), old(m.MyArea(w)), m.MyArea(w'))
  {
    hide PrivateRoot, UpdateMap, HashMaps.Valid, Stands, Hidden, RootArea, Touched, Inherits, Abs, DistinctHashes, NoClashRoot, RootShares;
    ghost var before, area, owner, start := Snapshot(w), m.MyArea(w), m.ownerID, Isolating(m, maps, w, h);
    if op.Remove? && DistinctHashes(h, Abs(m.model).Keys) { NoClashHere(m.model, h); }
    if start { OwnArea(before, m.root, m.model.root, owner); }
    var r;
    r, w' := m.Update(w, h, op.key, match op case Set(_, value) => Some(value) case Remove(_) => None);
    if start {
      forall x | x in maps ensures x.Valid(w', h) && Hidden(Snapshot(w'), x.root, x.model.root, owner) {
        StaysHidden(before, Snapshot(w'), owner, op.key, area, x.root, x.model.root, x.ownerID);
      }
    }
  }

  /** A session on a map under its owner: the model is edited step by step, and so is the plain map. If it removes
      nothing, or the keys have distinct hashes, no other map notices. */
  method EditAll<K(==), V(==)>(ghost w: World<K, V>, m: HeapMap<K, V>, h: K -> Word, ops: seq<Op<K, V>>, ghost maps: set<HeapMap<K, V>>)
    returns (ghost w': World<K, V>)
    requires m.Valid(w, h) && m.ownerID != null
    modifies m, m.MyArea(w).foot, m.MyArea(w).pairs
    ensures w.nodes <= w'.nodes && w.pairs <= w'.pairs && fresh(w'.nodes - w.nodes) && fresh(w'.pairs - w.pairs)
    ensures m.Valid(w', h) && m.ownerID == old(m.ownerID) && Abs(m.model) == Applied(Abs(old(m.model)), ops)
    ensures old(Isolating(m, maps, w, h)) && Clean(Abs(old(m.model)), h, ops) ==> Isolating(m, maps, w', h)
    ensures old(m.altered) ==> m.altered
    ensures !m.altered ==> m.model == old(m.model) && Snapshot(w') == old(Snapshot(w))
    decreases |ops|
  {
    hide Isolating, UpdateMap, HashMaps.Valid, Stands, RootArea, Inherits, Abs, Assign, Clean, DistinctHashes;
    if ops == [] {
      w' := w;
    } else {
      ghost var before, area, first := Snapshot(w), m.MyArea(w), m.model;
      FirstEdit(w, m, h, ops);
      w' := EditOne(w, m, h, ops[0], maps);
      AreaBounds(before, area, Snapshot(w'), m.root, m.model.root, m.ownerID);
      w' := EditAll(w', m, h, ops[1..], maps);
    }
  }

  lemma FirstEdit<K, V>(w: World<K, V>, m: HeapMap<K, V>, h: K -> Word, ops: seq<Op<K, V>>)
    requires m.Valid(w, h) && ops != []
    ensures HashMaps.Valid(m.model, h)
    ensures var next := UpdateMap(m.model, h, ops[0].key, Wanted(ops[0]));
            && Applied(Abs(m.model), ops) == Applied(Abs(next), ops[1..])
            && (Clean(Abs(m.model), h, ops) ==>
                  (ops[0].Set? || DistinctHashes(h, Abs(m.model).Keys)) && Clean(Abs(next), h, ops[1..]))
    ensures RootArea(Snapshot(w), m.root, m.model.root, m.ownerID).cells <= RootArea(Snapshot(w), m.root, m.model.root, m.ownerID).pairs
  {
    ValidModel(w, m, h);
    hide HashMaps.Valid, UpdateMap, Abs, Assign, Clean, DistinctHashes, RootArea;
    UpdateMapCorrect(m.model, h, ops[0].key, Wanted(ops[0]));
    if Clean(Abs(m.model), h, ops) { CleanStep(Abs(m.model), h, ops); }
    CellsArePairs(Snapshot(w), m.root, m.model.root, m.ownerID);
  }

  lemma ValidModel<K, V>(w: World<K, V>, m: HeapMap<K, V>, h: K -> Word)
    requires m.Valid(w, h)
    ensures HashMaps.Valid(m.model, h)
  {
  }

  lemma CellsArePairs<K, V>(heap: Heap<K, V>, r: Option<TNode<K, V>>, v: Option<Node<K, V>>, owner: Owner?)
    ensures RootArea(heap, r, v, owner).cells <= RootArea(heap, r, v, owner).pairs
  {
    if r.Some? && v.Some? { CellPairs(heap, r.value, v.value, owner); }
    hide Reach, PairsOf, Cells;
  }

  lemma AreaBounds<K, V>(before: Heap<K, V>, area: Area<K, V>, now: Heap<K, V>, r: Option<TNode<K, V>>, v: Option<Node<K, V>>, owner: Owner?)
    requires Inherits(before, area, RootArea(now, r, v, owner)) && Stands(now, r, v, owner)
    ensures RootArea(now, r, v, owner).foot <= area.foot + (now.nodes.Keys - before.nodes.Keys)
    ensures RootArea(now, r, v, owner).pairs <= area.pairs + (now.pairs.Keys - before.pairs.Keys)
  {
    if r.Some? {
      Within(now, r.value, v.value);
      CellPairs(now, r.value, v.value, owner);
    }
    hide Reach, PairsOf, Reps, Tree, AreaOf;
  }

  // ----- without a session

  /** A map holds its contents whatever is added to the world. */
  lemma StaysValid<K, V>(w: World<K, V>, w': World<K, V>, m: HeapMap<K, V>, h: K -> Word)
    requires m.Valid(w, h) && w.nodes <= w'.nodes && w.pairs <= w'.pairs
    ensures m.Valid(w', h)
  {
    hide HashMaps.Valid, Reps, Tree, Reach, PairsOf;
    if m.root.Some? {
      Within(Snapshot(w), m.root.value, m.model.root.value);
      assert Agree(Snapshot(w), Snapshot(w'), Reach(Snapshot(w), m.root.value, m.model.root.value), PairsOf(Snapshot(w), m.root.value, m.model.root.value));
      Frame(Snapshot(w), Snapshot(w'), m.root.value, m.model.root.value, m.ownerID);
    }
  }

  /** Nothing belongs to nobody. */
  lemma NobodysArea<K, V>(heap: Heap<K, V>, r: Option<TNode<K, V>>, v: Option<Node<K, V>>)
    ensures RootArea(heap, r, v, null).foot == {} && RootArea(heap, r, v, null).cells == {}
  {
    hide Reach, PairsOf;
  }

  /** One operation without a session: a new map, or the same one if nothing changes, and no map is written to. */
  method Apply<K(==), V(==)>(ghost w: World<K, V>, m: HeapMap<K, V>, h: K -> Word, op: Op<K, V>)
    returns (r: HeapMap<K, V>, ghost w': World<K, V>)
    requires m.Valid(w, h) && m.ownerID == null
    ensures w.nodes <= w'.nodes && w.pairs <= w'.pairs && fresh(w'.nodes - w.nodes) && fresh(w'.pairs - w.pairs)
    ensures HashMaps.Valid(m.model, h) && r.Valid(w', h) && r.ownerID == null && r.model == UpdateMap(m.model, h, op.key, Wanted(op))
    ensures r == m || fresh(r)
  {
    hide UpdateMap, HashMaps.Valid, Stands, RootArea, Touched, Inherits, RootShares, NoClashRoot, PrivateRoot;
    ValidModel(w, m, h);
    NobodysArea(Snapshot(w), m.root, m.model.root);
    r, w' := m.Update(w, h, op.key, match op case Set(_, value) => Some(value) case Remove(_) => None);
  }

  /** Any operations on the empty map, each on the map the one before returned: the last map is the plain map after the
      operations, whatever the hash function, and every map that was there before holds what it held. */
  method RunAll<K(==), V(==)>(ghost w: World<K, V>, h: K -> Word, ops: seq<Op<K, V>>, ghost maps: set<HeapMap<K, V>>)
    returns (r: HeapMap<K, V>, ghost w': World<K, V>)
    ensures w.nodes <= w'.nodes && w.pairs <= w'.pairs && fresh(w'.nodes - w.nodes) && fresh(w'.pairs - w.pairs)
    ensures fresh(r) && r.Valid(w', h) && r.ownerID == null && r.model == Run(ops, h) && Abs(r.model) == RunPlain(ops)
    ensures forall x :: x in maps && x.Valid(w, h) ==> x.Valid(w', h)
    decreases |ops|
  {
    hide UpdateMap, HashMaps.Valid, Stands, Abs;
    if ops == [] {
      r, w' := EmptyMap(w, h);
    } else {
      r, w' := RunAll(w, h, ops[..|ops| - 1], {});
      r, w' := Apply(w', r, h, ops[|ops| - 1]);
    }
    RunAbs(ops, h);
    forall x | x in maps && x.Valid(w, h) ensures x.Valid(w', h) { StaysValid(w, w', x, h); }
  }

  method EmptyMap<K, V>(ghost w: World<K, V>, ghost h: K -> Word) returns (r: HeapMap<K, V>, ghost w': World<K, V>)
    ensures fresh(r) && w' == w && r.Valid(w, h) && r.ownerID == null && r.model == HashMaps.Empty<K, V>()
  {
    w' := w;
    r := new HeapMap(0, None, null, HashMaps.Empty<K, V>());
  }

  // ----- sessions

  /** A map nothing of which belongs to an owner that has just been made. */
  lemma HiddenFresh<K, V>(w: World<K, V>, r: Option<TNode<K, V>>, v: Option<Node<K, V>>, other: Owner?, owner: Owner)
    requires Stands(Snapshot(w), r, v, other)
    requires (forall n :: n in w.nodes ==> n.ownerID != owner) && (forall p :: p in w.pairs ==> p.maker != owner)
    ensures Hidden(Snapshot(w), r, v, owner) && RootArea(Snapshot(w), r, v, owner).foot == {}
    ensures RootArea(Snapshot(w), r, v, owner).pairs == RootArea(Snapshot(w), r, v, other).pairs
  {
    if r.Some? { Within(Snapshot(w), r.value, v.value); }
    hide Reach, PairsOf, Reps, Tree;
  }

  /** Whether the maps in `maps` hold nothing that a session starting from `m` may edit. */
  ghost predicate Safe<K, V>(m: HeapMap<K, V>, maps: set<HeapMap<K, V>>, w: World<K, V>, h: K -> Word)
    reads m, maps, w.nodes, w.pairs
  {
    if m.ownerID == null then forall x :: x in maps ==> x.Valid(w, h) else Isolating(m, maps, w, h)
  }

  /** withMutations: the result is the plain map after all operations, whatever the hash function; when the session removes
      nothing, or its keys have distinct hashes, every other map, and `m` itself when it was published, stays what it was. */
  method WithMutations<K(==), V(==)>(ghost w: World<K, V>, m: HeapMap<K, V>, h: K -> Word, ops: seq<Op<K, V>>, ghost maps: set<HeapMap<K, V>>)
    returns (r: HeapMap<K, V>, ghost w': World<K, V>)
    requires m.Valid(w, h)
    modifies if m.ownerID != null then {m} else {}, m.MyArea(w).foot, m.MyArea(w).pairs
    ensures w.nodes <= w'.nodes && w.pairs <= w'.pairs && fresh(w'.nodes - w.nodes) && fresh(w'.pairs - w.pairs)
    ensures r.Valid(w', h) && r.ownerID == old(m.ownerID) && Abs(r.model) == Applied(Abs(old(m.model)), ops)
    ensures old(Safe(m, maps, w, h)) && Clean(Abs(old(m.model)), h, ops) ==> forall x :: x in maps ==> x.Valid(w', h) && x.model == old(x.model)
    ensures old(Safe(m, maps, w, h)) && Clean(Abs(old(m.model)), h, ops) && old(m.ownerID) == null ==> m.Valid(w', h) && m.model == old(m.model)
  {
    hide Isolating, UpdateMap, HashMaps.Valid, Stands, RootArea, Abs, Applied, Clean;
    if m.ownerID != null {
      r := m.AsMutable(w, h);
      w' := Continue(w, m, h, ops, maps);
    } else {
      r, w' := Open(w, m, h, ops, maps + {m});
    }
  }

  /** A session of its own, on a published map. */
  method Open<K(==), V(==)>(ghost w: World<K, V>, m: HeapMap<K, V>, h: K -> Word, ops: seq<Op<K, V>>, ghost maps: set<HeapMap<K, V>>)
    returns (r: HeapMap<K, V>, ghost w': World<K, V>)
    requires m.Valid(w, h) && m.ownerID == null && m in maps
    modifies m.MyArea(w).pairs
    ensures w.nodes <= w'.nodes && w.pairs <= w'.pairs && fresh(w'.nodes - w.nodes) && fresh(w'.pairs - w.pairs)
    ensures r.Valid(w', h) && r.ownerID == null && Abs(r.model) == Applied(Abs(old(m.model)), ops)
    ensures Clean(Abs(old(m.model)), h, ops) && (forall x :: x in maps ==> old(x.Valid(w, h))) ==> forall x :: x in maps ==> x.Valid(w', h)
  {
    hide UpdateMap, HashMaps.Valid, Stands, RootArea, Abs, Applied, PrivateRoot, Clean;
    var e := m.AsMutable(w, h);
    r, w' := Session(w, m, e, h, ops, maps);
  }

  /** A session within the session that is open. */
  method Continue<K(==), V(==)>(ghost w: World<K, V>, m: HeapMap<K, V>, h: K -> Word, ops: seq<Op<K, V>>, ghost maps: set<HeapMap<K, V>>)
    returns (ghost w': World<K, V>)
    requires m.Valid(w, h) && m.ownerID != null
    modifies m, m.MyArea(w).foot, m.MyArea(w).pairs
    ensures w.nodes <= w'.nodes && w.pairs <= w'.pairs && fresh(w'.nodes - w.nodes) && fresh(w'.pairs - w.pairs)
    ensures m.Valid(w', h) && m.ownerID == old(m.ownerID) && Abs(m.model) == Applied(Abs(old(m.model)), ops)
    ensures old(Isolating(m, maps, w, h)) && Clean(Abs(old(m.model)), h, ops) ==> m !in maps && forall x :: x in maps ==> x.Valid(w', h)
  {
    hide Isolating, UpdateMap, HashMaps.Valid, Stands, RootArea, Abs, Applied, Published, Hidden, PrivateRoot, Clean;
    ghost var isolated := Isolating(m, maps, w, h) && Clean(Abs(m.model), h, ops);
    w' := EditAll(w, m, h, ops, maps);
    if isolated { StillValid(m, maps, w', h); }
  }

  lemma StillValid<K, V>(m: HeapMap<K, V>, maps: set<HeapMap<K, V>>, w: World<K, V>, h: K -> Word)
    requires Isolating(m, maps, w, h)
    ensures m !in maps && forall x :: x in maps ==> x.Valid(w, h)
  {
    hide PrivateRoot, Stands, Hidden;
  }

  /** The session of a new owner, from a published map: its result is published in its turn, unless nothing changed. */
  method Session<K(==), V(==)>(ghost w: World<K, V>, m: HeapMap<K, V>, e: HeapMap<K, V>, h: K -> Word, ops: seq<Op<K, V>>, ghost maps: set<HeapMap<K, V>>)
    returns (r: HeapMap<K, V>, ghost w': World<K, V>)
    requires m.Valid(w, h) && m.ownerID == null && m in maps && e !in maps
    requires e.Valid(w, h) && e.ownerID != null && e.model == m.model && e.root == m.root && !e.altered
    requires PrivateRoot(Snapshot(w), e.root, e.model.root, e.ownerID)
    requires (forall n :: n in w.nodes ==> n.ownerID != e.ownerID) && (forall p :: p in w.pairs ==> p.maker != e.ownerID)
    requires forall x :: x in maps ==> x.ownerID != e.ownerID
    modifies e, m.MyArea(w).pairs
    ensures w.nodes <= w'.nodes && w.pairs <= w'.pairs && fresh(w'.nodes - w.nodes) && fresh(w'.pairs - w.pairs)
    ensures r.Valid(w', h) && r.ownerID == null && Abs(r.model) == Applied(Abs(old(m.model)), ops)
    ensures Clean(Abs(old(m.model)), h, ops) && (forall x :: x in maps ==> old(x.Valid(w, h))) ==> forall x :: x in maps ==> x.Valid(w', h)
  {
    hide UpdateMap, HashMaps.Valid, Stands, RootArea, Abs, Applied, Hidden, PrivateRoot, Clean;
    HiddenModel(w, m, h, e.ownerID);
    ghost var all := Clean(Abs(m.model), h, ops) && forall x :: x in maps ==> x.Valid(w, h);
    if all {
      forall x | x in maps ensures Hidden(Snapshot(w), x.root, x.model.root, e.ownerID) { HiddenModel(w, x, h, e.ownerID); }
    }
    w' := EditAll(w, e, h, ops, maps);
    if e.altered {
      if all { StillValid(e, maps, w', h); }
      e.AsImmutable(w', h);
      r := e;
    } else {
      r := m;
      SameAbs(e.model, m.model);
    }
  }

  lemma SameAbs<K, V>(a: HashMap<K, V>, b: HashMap<K, V>)
    requires a == b
    ensures Abs(a) == Abs(b)
  {
  }

  lemma HiddenModel<K, V>(w: World<K, V>, m: HeapMap<K, V>, h: K -> Word, owner: Owner)
    requires m.Valid(w, h)
    requires (forall n :: n in w.nodes ==> n.ownerID != owner) && (forall p :: p in w.pairs ==> p.maker != owner)
    ensures Hidden(Snapshot(w), m.root, m.model.root, owner) && RootArea(Snapshot(w), m.root, m.model.root, owner).foot == {}
    ensures RootArea(Snapshot(w), m.root, m.model.root, owner).pairs == m.MyArea(w).pairs
  {
    HiddenFresh(w, m.root, m.model.root, m.ownerID, owner);
  }
}
