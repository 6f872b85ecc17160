/** Whole runs on vector lists: when a list equals the plain sequence and when it does not, and why an editing session
    changes no other list. */
module VectorSession {
  import opened Options
  import opened Owners
  import opened VectorNodes
  import opened VectorUpdate
  import opened VectorTruncate
  import opened VectorBounds
  import opened VectorTail
  import opened VectorList

  datatype Edit<T> = Assign(index: nat, value: Option<T>) | Append(values: seq<Option<T>>) | RemoveLast

  /** The plain sequence after an edit; an absent element is one that was never assigned, or was assigned `undefined`. */
  function Apply<T>(s: seq<Option<T>>, edit: Edit<T>): seq<Option<T>> {
    match edit
    case Assign(i, v) => if i < |s| then s[i := v] else s + Blanks(i - |s|) + [v]
    case Append(values) => s + values
    case RemoveLast => if s == [] then [] else s[..|s| - 1]
  }

  function ApplyAll<T>(s: seq<Option<T>>, edits: seq<Edit<T>>): seq<Option<T>> {
    if edits == [] then s else Apply(ApplyAll(s, edits[..|edits| - 1]), edits[|edits| - 1])
  }

  /** Growing by `more` moves no tail, or one that has an element. */
  ghost predicate Keeps<T>(s: seq<Option<T>>, more: nat) {
    more == 0 || s == [] || TailOffset(|s| + more) == TailOffset(|s|) || exists i :: TailOffset(|s|) <= i < |s| && s[i].Some?
  }

  /** What a caller can check before an edit for the list to do as the sequence does. */
  ghost predicate Steady<T>(s: seq<Option<T>>, edit: Edit<T>) {
    match edit
    case Assign(i, _) => i < |s| || (i == |s| && Keeps(s, 1))
    case Append(values) => Keeps(s, |values|)
    case RemoveLast => true
  }

  ghost predicate AllSteady<T>(s: seq<Option<T>>, edits: seq<Edit<T>>) {
    edits == [] || (AllSteady(s, edits[..|edits| - 1]) && Steady(ApplyAll(s, edits[..|edits| - 1]), edits[|edits| - 1]))
  }

  /** Where every element is defined, every edit inside the list is steady. */
  lemma DefinedSteady<T>(s: seq<Option<T>>, edit: Edit<T>)
    requires (forall i :: 0 <= i < |s| ==> s[i].Some?) && (edit.Assign? ==> edit.index <= |s|)
    ensures Steady(s, edit)
  {
    if s != [] { assert s[|s| - 1].Some?; }
  }

  // ----- one edit

  /** Edits by one owner do not show in a list that belongs to nobody or to another owner. */
  lemma Isolated<T>(before: Heap<T>, after: Heap<T>, active: set<Owner?>, owner: Owner, other: Owner?,
                    size: nat, level: nat, root: VNode?<T>, tail: VNode?<T>)
    requires Good(before, active) && owner in active && ValidParts(before, active, other, size, level, root, tail)
    requires other != owner
    requires forall n :: n in before && n.ownerID != owner ==> n in after && after[n] == before[n]
    ensures ValidParts(after, active, other, size, level, root, tail)
    ensures Elements(after, size, level, root, tail) == Elements(before, size, level, root, tail)
  {
    forall i: nat | i < size ensures Elem(after, size, level, root, tail, i) == Elem(before, size, level, root, tail, i) {
      if root != null { LookFrame(before, after, active, owner, root, level, i); }
      if tail != null { LookFrame(before, after, active, owner, tail, 0, i); }
    }
    hide Elem;
  }

  /** A steady growth keeps the old elements. */
  lemma KeepsGrown<T>(heap: Heap<T>, active: set<Owner?>, owner: Owner?, size: nat, level: nat, root: VNode?<T>, tail: VNode?<T>, more: nat)
    requires Good(heap, active) && ValidParts(heap, active, owner, size, level, root, tail)
    requires Keeps(Elements(heap, size, level, root, tail), more)
    ensures Grown(heap, size, level, root, tail, more) == Elements(heap, size, level, root, tail)
  {
    hide Elem, GrownElem;
    var s := Elements(heap, size, level, root, tail);
    if size > 0 && more > 0 && TailOffset(size + more) != TailOffset(size) {
      var i :| TailOffset(size) <= i < size && s[i].Some?;
      assert s[i] == Elem(heap, size, level, root, tail, i);
      DefinedSurvives(heap, size, level, root, tail);
    }
    GrownKeeps(heap, active, owner, size, level, root, tail, more);
  }

  lemma KeepsResized<T>(heap: Heap<T>, active: set<Owner?>, owner: Owner?, size: nat, level: nat, root: VNode?<T>, tail: VNode?<T>, v: Option<T>)
    requires Good(heap, active) && ValidParts(heap, active, owner, size, level, root, tail)
    requires Keeps(Elements(heap, size, level, root, tail), 1)
    ensures Resized(heap, size, level, root, tail, size + 1)[size := v] == Elements(heap, size, level, root, tail) + [v]
  {
    hide Elem, GrownElem, Elements, Resized, Grown, Keeps;
    KeepsGrown(heap, active, owner, size, level, root, tail, 1);
    GrownIs(heap, size, level, root, tail, 1);
    var t := Resized(heap, size, level, root, tail, size + 1);
    assert t[size := v] == t[..size] + [v];
  }

  /** One edit, in place under an owner or as a new list. */
  method ApplyEdit<T(==)>(ghost nodes: set<VNode<T>>, ghost active: set<Owner?>, m: List<T>, edit: Edit<T>)
    returns (r: List<T>, ghost nodes': set<VNode<T>>)
    requires Good(Snapshot(nodes), active) && m.Valid(nodes, active)
    modifies Owned(nodes, m.ownerID), if m.ownerID != null then {m} else {}
    ensures nodes <= nodes' && fresh(nodes' - nodes) && Good(Snapshot(nodes'), active) && r.Valid(nodes', active)
    ensures r.ownerID == old(m.ownerID) && (old(m.ownerID) != null ==> r == m) && (r == m || fresh(r))
    ensures Steady(old(m.Contents(nodes)), edit) ==> r.Contents(nodes') == Apply(old(m.Contents(nodes)), edit)
    ensures old(m.ownerID) != null && !r.altered ==> r.Contents(nodes') == old(m.Contents(nodes))
    ensures old(m.ownerID) != null && old(m.altered) ==> r.altered
  {
    hide Good, ValidParts, Elements, Grown, Resized, Keeps;
    ghost var heap, s := Snapshot(nodes), m.Contents(nodes);
    match edit
    case Assign(i, v) =>
      if i == m.size && Keeps(s, 1) {
        KeepsResized(heap, active, m.ownerID, m.size, m.level, m.root, m.tail, v);
        assert Blanks<T>(0) == [];
      }
      r, nodes' := m.Set(nodes, active, i, v);
    case Append(values) =>
      if Keeps(s, |values|) { KeepsGrown(heap, active, m.ownerID, m.size, m.level, m.root, m.tail, |values|); }
      NothingPushed(heap, m.size, m.level, m.root, m.tail);
      r, nodes' := m.Push(nodes, active, values);
    case RemoveLast =>
      r, nodes' := m.Pop(nodes, active);
  }

  // ----- runs without a session

  /** Any edits of a list of nobody, each on the list the one before returned: nothing is written to, and if every edit is
      steady the last list is the plain sequence after the edits. */
  method RunAll<T(==)>(ghost nodes: set<VNode<T>>, ghost active: set<Owner?>, list: List<T>, edits: seq<Edit<T>>)
    returns (r: List<T>, ghost nodes': set<VNode<T>>)
    requires Good(Snapshot(nodes), active) && list.Valid(nodes, active) && list.ownerID == null
    ensures nodes <= nodes' && fresh(nodes' - nodes) && Good(Snapshot(nodes'), active) && r.Valid(nodes', active) && r.ownerID == null
    ensures AllSteady(list.Contents(nodes), edits) ==> r.Contents(nodes') == ApplyAll(list.Contents(nodes), edits)
    decreases |edits|
  {
    hide Good, ValidParts, Elements, Steady;
    if edits == [] {
      r, nodes' := list, nodes;
    } else {
      r, nodes' := RunAll(nodes, active, list, edits[..|edits| - 1]);
      assert Owned(nodes', r.ownerID) == {};
      r, nodes' := ApplyEdit(nodes', active, r, edits[|edits| - 1]);
    }
  }

  /** The same from the empty list. */
  method RunFromEmpty<T(==)>(edits: seq<Edit<T>>) returns (r: List<T>, ghost nodes: set<VNode<T>>)
    ensures fresh(nodes) && Good(Snapshot(nodes), {}) && r.Valid(nodes, {}) && r.ownerID == null
    ensures AllSteady([], edits) ==> r.Contents(nodes) == ApplyAll([], edits)
  {
    hide Good, ValidParts, Elements, AllSteady;
    var e := EmptyList();
    r, nodes := RunAll({}, {}, e, edits);
  }

  method EmptyList<T(==)>() returns (r: List<T>)
    ensures fresh(r) && Good<T>(Snapshot({}), {}) && r.Valid({}, {}) && r.Contents({}) == []
    ensures r.ownerID == null && r.size == 0 && r.level == 5
  {
    assert Shl(10) == 1024;
    r := new List(0, 5, null, null, null);
  }

  // ----- sessions

  /** The published lists, none of them under edit by `owner`. */
  ghost predicate Published<T>(lists: set<List<T>>, nodes: set<VNode<T>>, active: set<Owner?>, owner: Owner?)
    reads lists, nodes
  {
    forall l :: l in lists ==> l.Valid(nodes, active) && (l.ownerID != null ==> l.ownerID != owner)
  }

  /** A new owner, whom no node names, changes nothing for the other lists. */
  lemma MoreActive<T>(heap: Heap<T>, active: set<Owner?>, owner: Owner, other: Owner?, size: nat, level: nat, root: VNode?<T>, tail: VNode?<T>)
    requires ValidParts(heap, active, other, size, level, root, tail)
    requires forall n :: n in heap ==> n.ownerID != owner
    ensures ValidParts(heap, active + {owner}, other, size, level, root, tail)
  {
  }

  lemma FewerActive<T>(heap: Heap<T>, active: set<Owner?>, owner: Owner, other: Owner?, size: nat, level: nat, root: VNode?<T>, tail: VNode?<T>)
    requires ValidParts(heap, active + {owner}, other, size, level, root, tail)
    ensures ValidParts(heap, active, other, size, level, root, tail)
  {
  }

  lemma PublishedMore<T>(lists: set<List<T>>, nodes: set<VNode<T>>, active: set<Owner?>, owner: Owner)
    requires Published(lists, nodes, active, null)
    requires (forall n :: n in nodes ==> n.ownerID != owner) && (forall l :: l in lists ==> l.ownerID != owner)
    ensures Published(lists, nodes, active + {owner}, owner)
  {
    hide ValidParts;
    forall l | l in lists ensures l.Valid(nodes, active + {owner}) {
      MoreActive(Snapshot(nodes), active, owner, l.ownerID, l.size, l.level, l.root, l.tail);
    }
  }

  lemma PublishedFewer<T>(lists: set<List<T>>, nodes: set<VNode<T>>, active: set<Owner?>, owner: Owner)
    requires Published(lists, nodes, active + {owner}, owner)
    ensures Published(lists, nodes, active, null)
  {
    hide ValidParts;
    forall l | l in lists ensures l.Valid(nodes, active) {
      FewerActive(Snapshot(nodes), active, owner, l.ownerID, l.size, l.level, l.root, l.tail);
    }
  }

  /** The session itself: every edit goes to `m`; the published lists keep their contents, whatever the edits. */
  method EditAll<T(==)>(ghost nodes: set<VNode<T>>, ghost active: set<Owner?>, m: List<T>, edits: seq<Edit<T>>, ghost lists: set<List<T>>)
    returns (ghost nodes': set<VNode<T>>)
    requires Good(Snapshot(nodes), active) && m.Valid(nodes, active)
    requires m.ownerID != null && m !in lists && Published(lists, nodes, active, m.ownerID)
    modifies Owned(nodes, m.ownerID), m
    ensures nodes <= nodes' && fresh(nodes' - nodes) && Good(Snapshot(nodes'), active) && m.Valid(nodes', active)
    ensures m.ownerID == old(m.ownerID) && Published(lists, nodes', active, m.ownerID)
    ensures AllSteady(old(m.Contents(nodes)), edits) ==> m.Contents(nodes') == ApplyAll(old(m.Contents(nodes)), edits)
    ensures !m.altered ==> m.Contents(nodes') == old(m.Contents(nodes))
    ensures forall l :: l in lists ==> l.Contents(nodes') == old(l.Contents(nodes))
  {
    hide Good, ValidParts, Elem, Elements, Steady;
    ghost var s := m.Contents(nodes);
    nodes' := nodes;
    for k := 0 to |edits|
      invariant nodes <= nodes' && fresh(nodes' - nodes) && Good(Snapshot(nodes'), active) && m.Valid(nodes', active)
      invariant m.ownerID == old(m.ownerID) && Published(lists, nodes', active, m.ownerID)
      invariant AllSteady(s, edits[..k]) ==> m.Contents(nodes') == ApplyAll(s, edits[..k])
      invariant !m.altered ==> m.Contents(nodes') == s
      invariant forall l :: l in lists ==> l.Contents(nodes') == old(l.Contents(nodes))
    {
      ghost var heap := Snapshot(nodes');
      assert edits[..k + 1][..k] == edits[..k];
      var r;
      r, nodes' := ApplyEdit(nodes', active, m, edits[k]);
      forall l | l in lists
        ensures l.Valid(nodes', active) && l.Contents(nodes') == old(l.Contents(nodes))
      {
        Isolated(heap, Snapshot(nodes'), active, m.ownerID, l.ownerID, l.size, l.level, l.root, l.tail);
      }
    }
    assert edits[..|edits|] == edits;
  }

  /** The session of a new owner, from a list that belongs to nobody. */
  method Session<T(==)>(ghost nodes: set<VNode<T>>, ghost active: set<Owner?>, list: List<T>, edits: seq<Edit<T>>, ghost lists: set<List<T>>)
    returns (r: List<T>, ghost nodes': set<VNode<T>>)
    requires Good(Snapshot(nodes), active) && list.Valid(nodes, active)
    requires Published(lists, nodes, active, list.ownerID) && list.ownerID == null
    ensures nodes <= nodes' && fresh(nodes' - nodes) && Good(Snapshot(nodes'), active) && r.Valid(nodes', active) && r.ownerID == null
    ensures AllSteady(list.Contents(nodes), edits) ==> r.Contents(nodes') == ApplyAll(list.Contents(nodes), edits)
    ensures Published(lists, nodes', active, null)
    ensures forall l :: l in lists ==> l.Contents(nodes') == old(l.Contents(nodes))
  {
    hide Good, ValidParts, Elem, Elements, ApplyAll, AllSteady, Published;
    ghost var active1;
    r, active1 := list.AsMutable(nodes, active);
    ghost var owner := r.ownerID;
    assert Owned(nodes, owner) == {};
    PublishedMore(lists, nodes, active, owner);
    nodes' := EditAll(nodes, active1, r, edits, lists);
    if !r.altered {
      return list, nodes;
    }
    PublishedFewer(lists, nodes', active, owner);
    ghost var active2 := r.AsImmutable(nodes', active1);
    assert active2 == active;
  }

  /** withMutations: no published list changes, whatever the edits; if they are all steady, the edited list is the plain
      sequence after them. */
  method WithMutations<T(==)>(ghost nodes: set<VNode<T>>, ghost active: set<Owner?>, list: List<T>, edits: seq<Edit<T>>, ghost lists: set<List<T>>)
    returns (r: List<T>, ghost nodes': set<VNode<T>>)
    requires Good(Snapshot(nodes), active) && list.Valid(nodes, active)
    requires Published(lists, nodes, active, list.ownerID) && (list.ownerID != null ==> list !in lists)
    modifies Owned(nodes, list.ownerID), if list.ownerID != null then {list} else {}
    ensures nodes <= nodes' && fresh(nodes' - nodes) && Good(Snapshot(nodes'), active) && r.Valid(nodes', active)
    ensures r.ownerID == old(list.ownerID) && (r.ownerID != null ==> r == list)
    ensures AllSteady(old(list.Contents(nodes)), edits) ==> r.Contents(nodes') == ApplyAll(old(list.Contents(nodes)), edits)
    ensures Published(lists, nodes', active, old(list.ownerID))
    ensures forall l :: l in lists ==> l.Contents(nodes') == old(l.Contents(nodes))
  {
    hide Good, ValidParts, Elem, Elements, ApplyAll, AllSteady;
    if list.ownerID != null {
      nodes' := EditAll(nodes, active, list, edits, lists);
      r := list;
    } else {
      r, nodes' := Session(nodes, active, list, edits, lists);
    }
  }
}
