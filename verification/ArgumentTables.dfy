/** The argument index: arrays nested to a fixed depth and edited in place, beside a table from ids to tuples. */
module ArgumentTables {
  import opened ArgumentIndex
  import opened ArgumentPaths
  import opened Options

  /** `a` is the level reached by the first `s` arguments of a tree that stands for `b`. */
  ghost predicate Walks<K>(heap: Heap<K>, top: Level<K>, b: Branch<K>, args: seq<K>, s: nat, a: Level<K>) {
    && s < |args| && Reps(heap, top, [], b) && Has(b, args[..s]) && Leads(heap, top, args[..s], a)
    && Formed(Sub(b, args[..s]), |args| - s)
  }

  lemma WalkEnd<K>(heap: Heap<K>, top: Level<K>, b: Branch<K>, args: seq<K>, s: nat, a: Level<K>)
    requires Walks(heap, top, b, args, s, a)
    ensures Reps(heap, a, args[..s], Sub(b, args[..s])) && a in heap
    ensures var sub := Sub(b, args[..s]);
            heap[a].keys == sub.keys && |heap[a].cells| == |sub.keys| && (if s + 1 == |args| then sub.Leaf? else sub.Inner?)
  {
    Reached(heap, top, [], b, args[..s], a);
    assert [] + args[..s] == args[..s];
  }

  /** An argument that is there leads one level down. */
  lemma WalkOn<K>(heap: Heap<K>, top: Level<K>, b: Branch<K>, args: seq<K>, s: nat, a: Level<K>)
    requires Walks(heap, top, b, args, s, a) && s + 1 < |args| && a in heap && IndexOf(heap[a].keys, args[s]) < |heap[a].keys|
    ensures var i := IndexOf(heap[a].keys, args[s]);
            i < |heap[a].cells| && heap[a].cells[i].Next? && Walks(heap, top, b, args, s + 1, heap[a].cells[i].level)
    ensures var sub, i := Sub(b, args[..s]), IndexOf(heap[a].keys, args[s]);
            Has(sub, [args[s]]) && sub.Inner? && i < |sub.kids| && Sub(b, args[..s + 1]) == sub.kids[i]
  {
    hide IndexOf;
    WalkEnd(heap, top, b, args, s, a);
    var sub, k := Sub(b, args[..s]), args[s];
    var i := IndexOf(sub.keys, k);
    assert args[..s + 1] == args[..s] + [k];
    OneStep(sub, k, sub);
    Deeper(b, args[..s], k, sub);
    LeadsOn(heap, top, args[..s], a, k, heap[a].cells[i].level);
  }

  /** A branch with a new, empty one under `k`. */
  function Opened<K>(b: Branch<K>, k: K, depth: nat): Branch<K>
    requires b.Inner?
  {
    Inner(b.keys + [k], b.kids + [Empty(depth)])
  }

  lemma OpenedSets<K>(b: Branch<K>, rest: seq<K>, id: nat)
    requires Formed(b, |rest|) && |rest| > 1 && IndexOf(b.keys, rest[0]) == |b.keys|
    ensures b.Inner? && Formed(Empty<K>(|rest| - 1), |rest| - 1)
    ensures Set(Opened(b, rest[0], |rest| - 1), rest, id) == Set(b, rest, id)
    ensures Has(Opened(b, rest[0], |rest| - 1), [rest[0]])
  {
    var k := rest[0];
    IndexAppended(b.keys, k, k);
    EmptyFormed<K>(|rest| - 1);
    var o := Opened(b, k, |rest| - 1);
    assert o.kids[|b.keys|] == Empty(|rest| - 1);
    assert (b.kids + [Empty(|rest| - 1)])[|b.kids| := Set(Empty(|rest| - 1), rest[1..], id)] == b.kids + [Set(Empty(|rest| - 1), rest[1..], id)];
  }

  /** The level that was given a new key and a new level. */
  lemma OpenedReps<K>(before: Heap<K>, after: Heap<K>, a: Level<K>, path: seq<K>, b: Branch<K>, k: K, depth: nat, c: Level<K>)
    requires Reps(before, a, path, b) && b.Inner? && c !in before && c.at == path + [k] && k !in b.keys
    requires after == before[a := Row(b.keys + [k], before[a].cells + [Next(c)])][c := Row([], [])]
    ensures Reps(after, a, path, Opened(b, k, depth))
  {
    var o := Opened(b, k, depth);
    forall i | 0 <= i < |o.kids| ensures Reps(after, after[a].cells[i].level, path + [o.keys[i]], o.kids[i]) {
      if i < |b.kids| {
        Frame(before, after, before[a].cells[i].level, path + [b.keys[i]], b.kids[i]);
      }
    }
  }

  /** One level down, which is made if it is not there. */
  method Descend<K(==)>(ghost levels: set<Level<K>>, ghost top: Level<K>, ghost b: Branch<K>, args: seq<K>, s: nat, a: Level<K>, ghost id: nat)
    returns (c: Level<K>, ghost b': Branch<K>, ghost levels': set<Level<K>>)
    requires Walks(Snapshot(levels), top, b, args, s, a) && s + 1 < |args|
    modifies a
    ensures levels <= levels' && fresh(levels' - levels)
    ensures Walks(Snapshot(levels'), top, b', args, s + 1, c) && Set(b', args, id) == Set(b, args, id)
  {
    hide Reps, Leads, Has, Sub, Formed, Set, Plug, IndexOf, Walks;
    ghost var before := Snapshot(levels);
    WalkEnd(before, top, b, args, s, a);
    var u := IndexOf(a.keys, args[s]);
    if u == |a.keys| {
      WalkHas(before, top, b, args, s, a);
      c := new Level(args[..s + 1]);
      a.keys, a.cells := a.keys + [args[s]], a.cells + [Next(c)];
      levels', b' := levels + {c}, Plug(b, args[..s], Opened(Sub(b, args[..s]), args[s], |args| - s - 1));
      ghost var edited: Heap<K> := before[a := Row(a.keys, a.cells)];
      assert Snapshot(levels') == edited[c := Row([], [])];
      WalkOpened(before, Snapshot(levels'), top, b, args, s, a, c, id);
    } else {
      levels', b' := levels, b;
      WalkOn(before, top, b, args, s, a);
    }
    c := a.cells[u].level;
  }

  lemma WalkHas<K>(heap: Heap<K>, top: Level<K>, b: Branch<K>, args: seq<K>, s: nat, a: Level<K>)
    requires Walks(heap, top, b, args, s, a)
    ensures Has(b, args[..s])
  {
  }

  lemma WalkOpened<K>(before: Heap<K>, after: Heap<K>, top: Level<K>, b: Branch<K>, args: seq<K>, s: nat, a: Level<K>, c: Level<K>, id: nat)
    requires Walks(before, top, b, args, s, a) && s + 1 < |args| && c !in before && c.at == args[..s + 1] && a in before
    requires IndexOf(before[a].keys, args[s]) == |before[a].keys|
    requires after == before[a := Row(before[a].keys + [args[s]], before[a].cells + [Next(c)])][c := Row([], [])]
    ensures Has(b, args[..s]) && Sub(b, args[..s]).Inner?
    ensures var b' := Plug(b, args[..s], Opened(Sub(b, args[..s]), args[s], |args| - s - 1));
            Walks(after, top, b', args, s + 1, c) && Set(b', args, id) == Set(b, args, id)
  {
    hide Set, Plug, IndexOf;
    WalkEnd(before, top, b, args, s, a);
    var p, sub, k := args[..s], Sub(b, args[..s]), args[s];
    var x := Opened(sub, k, |args| - s - 1);
    assert args[..s + 1] == p + [k] && [] + p == p;
    OpenedReps(before, after, a, p, sub, k, |args| - s - 1, c);
    Edit(before, after, top, [], b, p, a, x);
    OpenedSub(b, p, args[s..]);
    assert args[s..][0] == k;
    OpenedFiles(b, p, args[s..], id);
    assert args == p + args[s..];
    assert Leads(after, a, [k], c) by { IndexAppended(sub.keys, k, k); }
    LeadsOn(after, top, p, a, k, c);
    hide Reps, Leads, Has, Sub, Formed;
  }

  /** The new level is where the path now leads. */
  lemma OpenedSub<K>(b: Branch<K>, p: seq<K>, rest: seq<K>)
    requires Has(b, p) && Formed(Sub(b, p), |rest|) && |rest| > 1 && IndexOf(Sub(b, p).keys, rest[0]) == |Sub(b, p).keys|
    ensures Sub(b, p).Inner?
    ensures var b' := Plug(b, p, Opened(Sub(b, p), rest[0], |rest| - 1));
            Has(b', p + [rest[0]]) && Sub(b', p + [rest[0]]) == Empty(|rest| - 1) && Formed(Empty<K>(|rest| - 1), |rest| - 1)
  {
    var sub, k := Sub(b, p), rest[0];
    OpenedSets(sub, rest, 0);
    var x := Opened(sub, k, |rest| - 1);
    PlugAgain(b, p, x, x);
    Deeper(Plug(b, p, x), p, k, x);
    IndexAppended(sub.keys, k, k);
    assert Sub(x, [k]) == x.kids[|sub.keys|];
  }

  lemma OpenedFiles<K>(b: Branch<K>, p: seq<K>, rest: seq<K>, id: nat)
    requires Has(b, p) && Formed(Sub(b, p), |rest|) && |rest| > 1 && IndexOf(Sub(b, p).keys, rest[0]) == |Sub(b, p).keys|
    ensures Sub(b, p).Inner?
    ensures Set(Plug(b, p, Opened(Sub(b, p), rest[0], |rest| - 1)), p + rest, id) == Set(b, p + rest, id)
  {
    hide Set, IndexOf;
    var sub := Sub(b, p);
    OpenedSets(sub, rest, id);
    var x := Opened(sub, rest[0], |rest| - 1);
    PlugAgain(b, p, x, Set(x, rest, id));
    SetAt(b, p, rest, id);
    SetAt(Plug(b, p, x), p, rest, id);
  }

  /** The last argument gets its id. */
  method FileLeaf<K(==)>(ghost levels: set<Level<K>>, ghost top: Level<K>, ghost b: Branch<K>, args: seq<K>, a: Level<K>, id: nat)
    requires args != [] && Walks(Snapshot(levels), top, b, args, |args| - 1, a)
    modifies a
    ensures Reps(Snapshot(levels), top, [], Set(b, args, id))
  {
    hide Reps, Leads, Has, Sub, Formed, Set, Plug, IndexOf, Walks;
    ghost var before := Snapshot(levels);
    var s := |args| - 1;
    WalkEnd(before, top, b, args, s, a);
    var u := IndexOf(a.keys, args[s]);
    if u == |a.keys| {
      a.keys := a.keys + [args[s]];
      a.cells := a.cells + [Id(id)];
    } else {
      a.cells := a.cells[u := Id(id)];
    }
    assert Snapshot(levels) == before[a := Row(a.keys, a.cells)];
    LeafFiled(before, Snapshot(levels), top, b, args, a, id);
  }

  lemma LeafFiled<K>(before: Heap<K>, after: Heap<K>, top: Level<K>, b: Branch<K>, args: seq<K>, a: Level<K>, id: nat)
    requires args != [] && Walks(before, top, b, args, |args| - 1, a) && a in before
    requires var was := before[a]; var k := args[|args| - 1];
             var u := IndexOf(was.keys, k);
             |was.keys| == |was.cells| &&
             after == before[a := if u == |was.keys| then Row(was.keys + [k], was.cells + [Id(id)]) else Row(was.keys, was.cells[u := Id(id)])]
    ensures Reps(after, top, [], Set(b, args, id))
  {
    hide IndexOf, Leads;
    var p, rest := args[..|args| - 1], args[|args| - 1..];
    WalkEnd(before, top, b, args, |args| - 1, a);
    var x := Set(Sub(b, p), rest, id);
    assert [] + p == p && args == p + rest;
    assert Reps(after, a, p, x);
    Edit(before, after, top, [], b, p, a, x);
    SetAt(b, p, rest, id);
  }

  // ----- deleting

  /** Level `a`, at the end of `p`, loses its cell `i`. */
  lemma CutReps<K>(before: Heap<K>, after: Heap<K>, a: Level<K>, p: seq<K>, b: Branch<K>, i: nat)
    requires Reps(before, a, p, b) && Distinct(b.keys) && i < |b.keys|
    requires |before[a].keys| == |before[a].cells| && after == before[a := Row(Cut(before[a].keys, i), Cut(before[a].cells, i))]
    ensures b.Leaf? ==> Reps(after, a, p, Leaf(Cut(b.keys, i), Cut(b.ids, i)))
    ensures b.Inner? ==> Reps(after, a, p, Inner(Cut(b.keys, i), Cut(b.kids, i)))
  {
    hide Cut;
    CutAt(b.keys, i);
    CutAt(before[a].cells, i);
    if b.Leaf? {
      CutAt(b.ids, i);
    } else {
      CutAt(b.kids, i);
      forall j | 0 <= j < |b.keys| - 1
        ensures Reps(after, after[a].cells[j].level, p + [Cut(b.keys, i)[j]], Cut(b.kids, i)[j])
      {
        var k := if j < i then j else j + 1;
        Frame(before, after, before[a].cells[k].level, p + [b.keys[k]], b.kids[k]);
      }
    }
  }

  /** After pruning below the first `d` arguments: the tree stands for `b` with that part replaced. */
  ghost predicate Prunes<K>(heap: Heap<K>, top: Level<K>, b: Branch<K>, args: seq<K>, d: nat, a: Level<K>) {
    && d < |args| && Has(b, args[..d]) && Formed(Sub(b, args[..d]), |args| - d) && Leads(heap, top, args[..d], a)
    && Reps(heap, top, [], Plug(b, args[..d], Prune(Sub(b, args[..d]), args[d..])))
  }

  /** The levels above, each with the index that leads on. */
  ghost predicate Stacked<K>(heap: Heap<K>, top: Level<K>, b: Branch<K>, args: seq<K>, stack: seq<(Level<K>, nat)>) {
    |stack| < |args| && forall j :: 0 <= j < |stack| ==> StackedAt(heap, top, b, args, j, stack[j])
  }

  ghost predicate StackedAt<K>(heap: Heap<K>, top: Level<K>, b: Branch<K>, args: seq<K>, j: nat, e: (Level<K>, nat)) {
    && j < |args| && Has(b, args[..j]) && Leads(heap, top, args[..j], e.0)
    && Formed(Sub(b, args[..j]), |args| - j) && Has(Sub(b, args[..j]), [args[j]]) && e.1 == IndexOf(Sub(b, args[..j]).keys, args[j])
  }

  /** A level whose last argument is cut off. */
  lemma LeafPruned<K>(before: Heap<K>, after: Heap<K>, top: Level<K>, b: Branch<K>, args: seq<K>, a: Level<K>)
    requires args != [] && Walks(before, top, b, args, |args| - 1, a) && a in before && |before[a].keys| == |before[a].cells|
    requires var i := IndexOf(before[a].keys, args[|args| - 1]);
             i < |before[a].keys| && after == before[a := Row(Cut(before[a].keys, i), Cut(before[a].cells, i))]
    ensures Prunes(after, top, b, args, |args| - 1, a)
  {
    hide IndexOf, Cut;
    var p, rest := args[..|args| - 1], args[|args| - 1..];
    WalkEnd(before, top, b, args, |args| - 1, a);
    assert [] + p == p;
    CutReps(before, after, a, p, Sub(b, p), IndexOf(before[a].keys, args[|args| - 1]));
    Edit(before, after, top, [], b, p, a, Prune(Sub(b, p), rest));
  }

  /** An emptied level is cut out of its parent. */
  lemma LevelPruned<K>(before: Heap<K>, after: Heap<K>, top: Level<K>, b: Branch<K>, args: seq<K>, d: nat, a: Level<K>, e: (Level<K>, nat))
    requires Prunes(before, top, b, args, d, a) && d > 0 && StackedAt(before, top, b, args, d - 1, e)
    requires a in before && before[a].keys == [] && e.0 in before && |before[e.0].keys| == |before[e.0].cells| && e.1 < |before[e.0].keys|
    requires after == before[e.0 := Row(Cut(before[e.0].keys, e.1), Cut(before[e.0].cells, e.1))]
    ensures Prunes(after, top, b, args, d - 1, e.0)
  {
    hide IndexOf, Cut;
    var p, k := args[..d - 1], args[d - 1];
    var sub := Sub(b, p);
    assert args[..d] == p + [k];
    var below := Prune(Sub(b, args[..d]), args[d..]);
    Emptied(before, top, b, args, d, a);
    ParentIs(b, p, k, below);
    var now := Plug(b, args[..d], below);
    PlugAgain(b, p, Inner(sub.keys, sub.kids[e.1 := below]), Prune(sub, args[d - 1..]));
    assert [] + p == p;
    Reached(before, top, [], now, p, e.0);
    CutReps(before, after, e.0, p, Sub(now, p), e.1);
    assert Cut(sub.kids[e.1 := below], e.1) == Cut(sub.kids, e.1) by { CutAway(sub.kids, e.1, below); }
    assert args[d - 1..][1..] == args[d..];
    Edit(before, after, top, [], now, p, e.0, Prune(sub, args[d - 1..]));
  }

  lemma Emptied<K>(heap: Heap<K>, top: Level<K>, b: Branch<K>, args: seq<K>, d: nat, a: Level<K>)
    requires Prunes(heap, top, b, args, d, a)
    ensures a in heap && heap[a].keys == Prune(Sub(b, args[..d]), args[d..]).keys
  {
    var below := Prune(Sub(b, args[..d]), args[d..]);
    PlugAgain(b, args[..d], below, below);
    Reached(heap, top, [], Plug(b, args[..d], below), args[..d], a);
  }

  /** The branch around a replaced child. */
  lemma ParentIs<K>(b: Branch<K>, p: seq<K>, k: K, below: Branch<K>)
    requires Has(b, p) && Has(Sub(b, p), [k])
    ensures var sub, i := Sub(b, p), IndexOf(Sub(b, p).keys, k);
            && Has(b, p + [k]) && Sub(b, p + [k]) == sub.kids[i]
            && Plug(b, p + [k], below) == Plug(b, p, Inner(sub.keys, sub.kids[i := below]))
            && Has(Plug(b, p + [k], below), p) && Sub(Plug(b, p + [k], below), p) == Inner(sub.keys, sub.kids[i := below])
  {
    var sub := Sub(b, p);
    OneStep(sub, k, below);
    Deeper(b, p, k, below);
    PlugAgain(b, p, Plug(sub, [k], below), below);
  }

  lemma CutAway<T>(s: seq<T>, i: nat, x: T)
    requires i < |s|
    ensures Cut(s[i := x], i) == Cut(s, i)
  {
  }

  // ----- the index

  /** What is looked up at the end of a walk. */
  lemma GetHere<K>(heap: Heap<K>, top: Level<K>, b: Branch<K>, args: seq<K>, s: nat, a: Level<K>)
    requires Walks(heap, top, b, args, s, a)
    ensures a in heap && |heap[a].keys| == |heap[a].cells|
    ensures IndexOf(heap[a].keys, args[s]) == |heap[a].keys| ==> Get(b, args) == None
    ensures s + 1 == |args| && IndexOf(heap[a].keys, args[s]) < |heap[a].keys| ==>
              var cell := heap[a].cells[IndexOf(heap[a].keys, args[s])];
              cell.Id? && Get(b, args) == Some(cell.id)
  {
    WalkEnd(heap, top, b, args, s, a);
    GetAt(b, args[..s], args[s..]);
    assert args == args[..s] + args[s..];
    hide IndexOf, Has, Leads, Formed;
  }

  /** The start of every walk. */
  lemma WalkStart<K>(heap: Heap<K>, top: Level<K>, b: Branch<K>, args: seq<K>)
    requires Reps(heap, top, [], b) && args != [] && Formed(b, |args|)
    ensures Walks(heap, top, b, args, 0, top)
  {
    assert args[..0] == [];
  }

  /** The walk of set: down to the last argument, making the levels that are missing. */
  method File<K(==)>(ghost levels: set<Level<K>>, top: Level<K>, ghost b: Branch<K>, args: seq<K>, id: nat)
    returns (ghost levels': set<Level<K>>)
    requires Walks(Snapshot(levels), top, b, args, 0, top)
    modifies levels
    ensures levels <= levels' && fresh(levels' - levels) && Reps(Snapshot(levels'), top, [], Set(b, args, id))
  {
    hide Set, Walks, Reps;
    WalkEnd(Snapshot(levels), top, b, args, 0, top);
    WalkLess(Snapshot(levels), top, b, args, 0, top);
    var s, a := 0, top;
    ghost var now := b;
    levels' := levels;
    while s < |args| - 1
      invariant s < |args| && levels <= levels' && fresh(levels' - levels)
      invariant Walks(Snapshot(levels'), top, now, args, s, a) && Set(now, args, id) == Set(b, args, id)
    {
      WalkEnd(Snapshot(levels'), top, now, args, s, a);
      a, now, levels' := Descend(levels', top, now, args, s, a, id);
      s := s + 1;
    }
    WalkEnd(Snapshot(levels'), top, now, args, s, a);
    FileLeaf(levels', top, now, args, a, id);
  }

  lemma WalkLess<K>(heap: Heap<K>, top: Level<K>, b: Branch<K>, args: seq<K>, s: nat, a: Level<K>)
    requires Walks(heap, top, b, args, s, a)
    ensures s < |args|
  {
  }

  /** The walk of delete: down with the levels and indices passed on a stack, then up as long as a level is empty. */
  method Remove<K(==)>(ghost levels: set<Level<K>>, top: Level<K>, ghost b: Branch<K>, args: seq<K>)
    requires Walks(Snapshot(levels), top, b, args, 0, top) && Get(b, args).Some?
    modifies levels
    ensures Reps(Snapshot(levels), top, [], Prune(b, args))
  {
    hide Prune, Reps, Walks, Stacked, Prunes, IndexOf, Get;
    WalkLess(Snapshot(levels), top, b, args, 0, top);
    var s, stack := Down(levels, top, b, args);
    GetHere(Snapshot(levels), top, b, args, |args| - 1, s);
    var i := IndexOf(s.keys, args[|args| - 1]);
    CutLast(levels, top, b, args, s, i, stack);
    while |s.keys| == 0 && |stack| > 0
      invariant Prunes(Snapshot(levels), top, b, args, |stack|, s) && Stacked(Snapshot(levels), top, b, args, stack)
      decreases |stack|
    {
      s, stack := CutUp(levels, top, b, args, s, stack);
    }
    Emptied(Snapshot(levels), top, b, args, |stack|, s);
    PruneDone(Snapshot(levels), top, b, args, |stack|, s);
  }

  method Down<K(==)>(ghost levels: set<Level<K>>, top: Level<K>, ghost b: Branch<K>, args: seq<K>)
    returns (s: Level<K>, stack: seq<(Level<K>, nat)>)
    requires args != [] && Walks(Snapshot(levels), top, b, args, 0, top) && Get(b, args).Some?
    ensures |stack| == |args| - 1 && Walks(Snapshot(levels), top, b, args, |args| - 1, s) && Stacked(Snapshot(levels), top, b, args, stack)
    ensures s in levels && IndexOf(s.keys, args[|args| - 1]) < |s.keys| == |s.cells|
  {
    hide Walks, Stacked, IndexOf, Get;
    ghost var heap := Snapshot(levels);
    s, stack := top, [];
    NothingStacked(heap, top, b, args);
    while |stack| < |args| - 1
      invariant |stack| < |args| && Walks(heap, top, b, args, |stack|, s) && Stacked(heap, top, b, args, stack)
    {
      GetHere(heap, top, b, args, |stack|, s);
      var i := IndexOf(s.keys, args[|stack|]);
      StackMore(heap, top, b, args, s, stack);
      WalkOn(heap, top, b, args, |stack|, s);
      s, stack := s.cells[i].level, stack + [(s, i)];
    }
    GetHere(heap, top, b, args, |stack|, s);
  }

  lemma AgreeForm<K(!new)>(root: Branch<K>, arity: nat, lastId: nat, table: map<nat, seq<K>>)
    requires Agree(root, arity, lastId, table)
    ensures arity > 0 && Formed(root, arity) && lastId + 1 !in table
    ensures forall id :: id in table ==> |table[id]| == arity && Get(root, table[id]) == Some(id)
  {
    hide Formed, Get;
  }

  class ArgIndex<K(==, !new)> {
    const arity: nat
    var top: Level<K>
    var lastId: nat
    var table: map<nat, seq<K>>
    ghost var levels: set<Level<K>>
    ghost var root: Branch<K>

    ghost predicate Valid()
      reads this, levels
    {
      Agree(root, arity, lastId, table) && Reps(Snapshot(levels), top, [], root)
    }

    constructor (arity: nat)
      requires arity > 0
      ensures Valid() && table == map[] && lastId == 0 && this.arity == arity && fresh(levels)
    {
      this.arity := arity;
      var first := new Level([]);
      top, lastId, table := first, 0, map[];
      root, levels := Empty(arity), {first};
      new;
      EmptyFormed<K>(arity);
    }

    /** The id of a tuple that is present. */
    method GetId(args: seq<K>) returns (r: Option<nat>)
      requires Valid() && |args| == arity
      ensures r == Get(root, args)
      ensures r.Some? ==> r.value in table && table[r.value] == args
      ensures r.None? ==> forall id :: id in table ==> table[id] != args
    {
      hide Reps, Formed, Get, Walks, IndexOf;
      var o, u := 0, top;
      ghost var heap := Snapshot(levels);
      WalkStart(heap, top, root, args);
      while o < arity - 1
        invariant o < arity && Walks(heap, top, root, args, o, u)
      {
        GetHere(heap, top, root, args, o, u);
        var i := IndexOf(u.keys, args[o]);
        if i == |u.keys| { return None; }
        WalkOn(heap, top, root, args, o, u);
        u, o := u.cells[i].level, o + 1;
      }
      GetHere(heap, top, root, args, o, u);
      var i := IndexOf(u.keys, args[o]);
      r := if i == |u.keys| then None else Some(u.cells[i].id);
    }

    /** Files a tuple that is not present under a new id. */
    method SetId(args: seq<K>) returns (id: nat)
      requires Valid() && |args| == arity && Get(root, args) == None
      modifies this, levels
      ensures Valid() && levels >= old(levels) && fresh(levels - old(levels))
      ensures id == lastId == old(lastId) + 1 && id !in old(table) && table == old(table)[id := args]
    {
      hide Agree, Set, Walks, Reps, Get, Formed;
      AgreeSet(root, arity, lastId, table, args);
      AgreeForm(root, arity, lastId, table);
      WalkStart(Snapshot(levels), top, root, args);
      ghost var made := File(levels, top, root, args, lastId + 1);
      lastId := lastId + 1;
      id := lastId;
      levels, root, table := made, Set(root, args, id), table[id := args];
    }

    /** Removes a tuple by its id: its last argument first, then every level this leaves empty. */
    method Delete(id: nat)
      requires Valid() && id in table
      modifies this, levels
      ensures Valid() && levels == old(levels) && table == old(table) - {id} && lastId == old(lastId)
    {
      hide Agree, Prune, Reps, Walks, Get, Formed;
      var args := table[id];
      AgreePrune(root, arity, lastId, table, id);
      AgreeForm(root, arity, lastId, table);
      WalkStart(Snapshot(levels), top, root, args);
      ghost var pruned := Prune(root, args);
      Remove(levels, top, root, args);
      root, table := pruned, table - {id};
    }

    method Clear()
      requires arity > 0
      modifies this
      ensures Valid() && table == map[] && lastId == old(lastId) && fresh(levels)
    {
      EmptyFormed<K>(arity);
      var first := new Level([]);
      hide Empty;
      top, table, root, levels := first, map[], Empty(arity), {first};
      forall args: seq<K> ensures Get(root, args) == None { EmptyGet(arity, args); }
      EmptyReps(Snapshot(levels), first, arity);
    }
  }

  lemma EmptyReps<K>(heap: Heap<K>, first: Level<K>, arity: nat)
    requires first in heap && first.at == [] && heap[first] == Row([], [])
    ensures Reps(heap, first, [], Empty(arity))
  {
  }

  lemma NothingStacked<K>(heap: Heap<K>, top: Level<K>, b: Branch<K>, args: seq<K>)
    requires args != []
    ensures Stacked(heap, top, b, args, [])
  {
  }

  lemma StackMore<K>(heap: Heap<K>, top: Level<K>, b: Branch<K>, args: seq<K>, a: Level<K>, stack: seq<(Level<K>, nat)>)
    requires Walks(heap, top, b, args, |stack|, a) && |stack| + 1 < |args| && Stacked(heap, top, b, args, stack)
    requires a in heap && IndexOf(heap[a].keys, args[|stack|]) < |heap[a].keys|
    ensures Stacked(heap, top, b, args, stack + [(a, IndexOf(heap[a].keys, args[|stack|]))])
  {
    WalkOn(heap, top, b, args, |stack|, a);
    WalkEnd(heap, top, b, args, |stack|, a);
    hide IndexOf, Has, Leads, Formed, Reps;
  }

  lemma {:induction false} HasPrefix<K>(b: Branch<K>, p: seq<K>, j: nat, x: Branch<K>)
    requires Has(b, p) && j <= |p|
    ensures Has(b, p[..j]) && Has(Plug(b, p, x), p[..j])
    decreases |p|
  {
    if j > 0 {
      assert p[..j][1..] == p[1..][..j - 1];
      HasPrefix(b.kids[IndexOf(b.keys, p[0])], p[1..], j - 1, x);
    }
  }

  /** The stack above an edited level stays as it is. */
  lemma StackStill<K>(before: Heap<K>, after: Heap<K>, top: Level<K>, b: Branch<K>, x: Branch<K>, args: seq<K>, d: nat, a: Level<K>,
                      stack: seq<(Level<K>, nat)>)
    requires Stacked(before, top, b, args, stack) && |stack| <= d < |args| && Has(b, args[..d]) && Reps(before, top, [], Plug(b, args[..d], x))
    requires |a.at| >= d && forall m :: m in before && m != a ==> m in after && after[m] == before[m]
    ensures Stacked(after, top, b, args, stack)
  {
    forall j | 0 <= j < |stack| ensures StackedAt(after, top, b, args, j, stack[j]) {
      assert StackedAt(before, top, b, args, j, stack[j]);
      HasPrefix(b, args[..d], j, x);
      assert args[..d][..j] == args[..j];
      LeadsStill(before, after, top, [], Plug(b, args[..d], x), args[..j], stack[j].0, a);
    }
  }

  method CutCell<K>(ghost levels: set<Level<K>>, a: Level<K>, i: nat)
    requires a in levels && i < |a.keys| == |a.cells|
    modifies a
    ensures Snapshot(levels) == old(Snapshot(levels))[a := Row(Cut(old(a.keys), i), Cut(old(a.cells), i))]
  {
    a.keys := Cut(a.keys, i);
    a.cells := Cut(a.cells, i);
  }

  /** The last argument is cut out of its level. */
  method CutLast<K>(ghost levels: set<Level<K>>, ghost top: Level<K>, ghost b: Branch<K>, ghost args: seq<K>, a: Level<K>, i: nat,
                    ghost stack: seq<(Level<K>, nat)>)
    requires args != [] && |stack| == |args| - 1 && Stacked(Snapshot(levels), top, b, args, stack)
    requires Walks(Snapshot(levels), top, b, args, |args| - 1, a) && a in levels && i < |a.keys| == |a.cells|
    requires i == IndexOf(a.keys, args[|args| - 1])
    modifies a
    ensures Prunes(Snapshot(levels), top, b, args, |stack|, a) && Stacked(Snapshot(levels), top, b, args, stack)
  {
    hide Reps, Walks, Stacked, Prunes, IndexOf, Cut, Formed, Has, Leads, Sub, Plug;
    ghost var before := Snapshot(levels);
    WalkWhole(before, top, b, args, |args| - 1, a);
    CutCell(levels, a, i);
    LeafPruned(before, Snapshot(levels), top, b, args, a);
    StackStill(before, Snapshot(levels), top, b, Sub(b, args[..|args| - 1]), args, |args| - 1, a, stack);
  }

  lemma WalkWhole<K>(heap: Heap<K>, top: Level<K>, b: Branch<K>, args: seq<K>, s: nat, a: Level<K>)
    requires Walks(heap, top, b, args, s, a)
    ensures Has(b, args[..s]) && Plug(b, args[..s], Sub(b, args[..s])) == b && Reps(heap, top, [], b) && a.at == args[..s]
  {
    PlugAgain(b, args[..s], b, b);
    WalkEnd(heap, top, b, args, s, a);
  }

  /** The parent of an emptied level, ready to be cut. */
  lemma ParentReady<K>(heap: Heap<K>, top: Level<K>, b: Branch<K>, args: seq<K>, stack: seq<(Level<K>, nat)>, a: Level<K>)
    requires stack != [] && Prunes(heap, top, b, args, |stack|, a) && Stacked(heap, top, b, args, stack)
    ensures |stack| < |args| && Has(b, args[..|stack|])
    ensures var d, e := |stack|, stack[|stack| - 1]; var below := Prune(Sub(b, args[..d]), args[d..]);
            && StackedAt(heap, top, b, args, d - 1, e) && e.0 in heap && e.1 < |heap[e.0].keys| == |heap[e.0].cells| && e.0.at == args[..d - 1]
            && Has(b, args[..d - 1]) && Stacked(heap, top, b, args, stack[..d - 1])
            && var sub := Sub(b, args[..d - 1]);
               && sub.Inner? && e.1 < |sub.kids|
               && Reps(heap, top, [], Plug(b, args[..d - 1], Inner(sub.keys, sub.kids[e.1 := below])))
  {
    var d, e := |stack|, stack[|stack| - 1];
    assert StackedAt(heap, top, b, args, d - 1, e);
    var p, k := args[..d - 1], args[d - 1];
    assert args[..d] == p + [k] && [] + p == p;
    var below := Prune(Sub(b, args[..d]), args[d..]);
    ParentIs(b, p, k, below);
    Reached(heap, top, [], Plug(b, args[..d], below), p, e.0);
    hide IndexOf, Prune, Leads, Formed;
  }

  /** One emptied level is cut out of its parent. */
  method CutUp<K>(ghost levels: set<Level<K>>, ghost top: Level<K>, ghost b: Branch<K>, ghost args: seq<K>, a: Level<K>, stack: seq<(Level<K>, nat)>)
    returns (s: Level<K>, rest: seq<(Level<K>, nat)>)
    requires stack != [] && a.keys == [] && Prunes(Snapshot(levels), top, b, args, |stack|, a) && Stacked(Snapshot(levels), top, b, args, stack)
    modifies levels
    ensures rest == stack[..|stack| - 1] && Prunes(Snapshot(levels), top, b, args, |rest|, s) && Stacked(Snapshot(levels), top, b, args, rest)
  {
    hide Reps, Stacked, StackedAt, Prunes, IndexOf, Cut, Formed, Has, Leads, Prune, Plug;
    ghost var before, d := Snapshot(levels), |stack|;
    Emptied(before, top, b, args, d, a);
    ParentReady(before, top, b, args, stack, a);
    var e := stack[|stack| - 1];
    ghost var sub := Sub(b, args[..d - 1]);
    ghost var x := Inner(sub.keys, sub.kids[e.1 := Prune(Sub(b, args[..d]), args[d..])]);
    s, rest := e.0, stack[..|stack| - 1];
    CutCell(levels, s, e.1);
    LevelPruned(before, Snapshot(levels), top, b, args, d, a, e);
    StackStill(before, Snapshot(levels), top, b, x, args, d - 1, s, rest);
  }

  lemma PruneDone<K>(heap: Heap<K>, top: Level<K>, b: Branch<K>, args: seq<K>, d: nat, a: Level<K>)
    requires Prunes(heap, top, b, args, d, a) && (d == 0 || (a in heap && heap[a].keys != []))
    ensures Reps(heap, top, [], Prune(b, args))
  {
    Emptied(heap, top, b, args, d, a);
    assert args == args[..d] + args[d..];
    PruneAt(b, args[..d], args[d..]);
  }
}
