/** Levels of the argument tree on the heap, the values they stand for, and edits at the end of a path of arguments. */
module ArgumentPaths {
  import opened ArgumentIndex
  import opened Options

  datatype Cell<K> = Id(id: nat) | Next(level: Level<K>)

  /** The pair of arrays `[keys, cells]` of one level. */
  class Level<K> {
    var keys: seq<K>
    var cells: seq<Cell<K>>
    ghost const at: seq<K>  // the arguments that lead here

    constructor (ghost at: seq<K>)
      ensures keys == [] && cells == [] && this.at == at
    {
      keys, cells := [], [];
      this.at := at;
    }
  }

  datatype Row<K> = Row(keys: seq<K>, cells: seq<Cell<K>>)

  type Heap<K> = map<Level<K>, Row<K>>

  ghost function Snapshot<K>(levels: set<Level<K>>): (heap: Heap<K>)
    reads levels
    ensures heap.Keys == levels && forall n :: n in levels ==> heap[n] == Row(n.keys, n.cells)
  {
    map n | n in levels :: Row(n.keys, n.cells)
  }

  /** Level `n`, reached by `path`, stands for `b`. */
  ghost predicate Reps<K>(heap: Heap<K>, n: Level<K>, path: seq<K>, b: Branch<K>)
    decreases b
  {
    && n in heap && n.at == path && heap[n].keys == b.keys && |heap[n].cells| == |b.keys|
    && match b
       case Leaf(keys, ids) => |ids| == |keys| && forall i :: 0 <= i < |keys| ==> heap[n].cells[i] == Id(ids[i])
       case Inner(keys, kids) =>
         |kids| == |keys| && forall i :: 0 <= i < |kids| ==>
           heap[n].cells[i].Next? && Reps(heap, heap[n].cells[i].level, path + [keys[i]], kids[i])
  }

  /** What lies below a path depends on the levels below it only. */
  lemma {:induction false} Frame<K>(a: Heap<K>, b: Heap<K>, n: Level<K>, path: seq<K>, v: Branch<K>)
    requires Reps(a, n, path, v)
    requires forall m :: m in a && path <= m.at ==> m in b && b[m] == a[m]
    ensures Reps(b, n, path, v)
    decreases v
  {
    if v.Inner? {
      forall i | 0 <= i < |v.kids| ensures Reps(b, a[n].cells[i].level, path + [v.keys[i]], v.kids[i]) {
        Frame(a, b, a[n].cells[i].level, path + [v.keys[i]], v.kids[i]);
      }
    }
  }

  // ----- paths, on values

  ghost predicate Distinct<K>(keys: seq<K>) {
    forall i, j :: 0 <= i < j < |keys| ==> keys[i] != keys[j]
  }

  /** The branch can be followed along `p`. */
  ghost predicate Has<K>(b: Branch<K>, p: seq<K>)
    decreases |p|
  {
    p != [] ==>
      && b.Inner? && |b.kids| == |b.keys| && Distinct(b.keys) && IndexOf(b.keys, p[0]) < |b.keys|
      && Has(b.kids[IndexOf(b.keys, p[0])], p[1..])
  }

  ghost function Sub<K>(b: Branch<K>, p: seq<K>): Branch<K>
    requires Has(b, p)
    decreases |p|
  {
    if p == [] then b else Sub(b.kids[IndexOf(b.keys, p[0])], p[1..])
  }

  /** The branch with what lies at the end of `p` replaced. */
  ghost function Plug<K>(b: Branch<K>, p: seq<K>, x: Branch<K>): Branch<K>
    requires Has(b, p)
    decreases |p|
  {
    if p == [] then x
    else
      var i := IndexOf(b.keys, p[0]);
      Inner(b.keys, b.kids[i := Plug(b.kids[i], p[1..], x)])
  }

  lemma {:induction false} PlugAgain<K>(b: Branch<K>, p: seq<K>, x: Branch<K>, y: Branch<K>)
    requires Has(b, p)
    ensures Has(Plug(b, p, x), p) && Sub(Plug(b, p, x), p) == x && Plug(Plug(b, p, x), p, y) == Plug(b, p, y)
    ensures Plug(b, p, Sub(b, p)) == b
    decreases |p|
  {
    if p != [] {
      var i := IndexOf(b.keys, p[0]);
      PlugAgain(b.kids[i], p[1..], x, y);
      assert b.kids[i := b.kids[i]] == b.kids;
    }
  }

  lemma OneStep<K>(b: Branch<K>, k: K, x: Branch<K>)
    requires b.Inner? && |b.kids| == |b.keys| && Distinct(b.keys) && IndexOf(b.keys, k) < |b.keys|
    ensures Has(b, [k]) && Sub(b, [k]) == b.kids[IndexOf(b.keys, k)]
    ensures Plug(b, [k], x) == Inner(b.keys, b.kids[IndexOf(b.keys, k) := x])
  {
    assert [k][1..] == [];
  }

  /** One step further along the path. */
  lemma {:induction false} Deeper<K>(b: Branch<K>, p: seq<K>, k: K, x: Branch<K>)
    requires Has(b, p) && Has(Sub(b, p), [k])
    ensures Has(b, p + [k]) && Sub(b, p + [k]) == Sub(Sub(b, p), [k])
    ensures Plug(b, p + [k], x) == Plug(b, p, Plug(Sub(b, p), [k], x))
    decreases |p|
  {
    if p == [] {
      assert p + [k] == [k];
    } else {
      assert (p + [k])[1..] == p[1..] + [k];
      Deeper(b.kids[IndexOf(b.keys, p[0])], p[1..], k, x);
    }
  }

  lemma {:induction false} GetAt<K>(b: Branch<K>, p: seq<K>, rest: seq<K>)
    requires Has(b, p) && rest != []
    ensures Get(b, p + rest) == Get(Sub(b, p), rest)
    decreases |p|
  {
    if p == [] {
      assert p + rest == rest;
    } else {
      assert (p + rest)[1..] == p[1..] + rest;
      GetAt(b.kids[IndexOf(b.keys, p[0])], p[1..], rest);
    }
  }

  /** Filing a tuple happens at the end of any path it shares with the branch. */
  lemma {:induction false} SetAt<K>(b: Branch<K>, p: seq<K>, rest: seq<K>, id: nat)
    requires Has(b, p) && rest != []
    ensures Set(b, p + rest, id) == Plug(b, p, Set(Sub(b, p), rest, id))
    decreases |p|
  {
    if p == [] {
      assert p + rest == rest;
    } else {
      assert (p + rest)[1..] == p[1..] + rest;
      SetAt(b.kids[IndexOf(b.keys, p[0])], p[1..], rest, id);
    }
  }

  /** Pruning that leaves something behind stops there. */
  lemma {:induction false} PruneAt<K>(b: Branch<K>, p: seq<K>, rest: seq<K>)
    requires Has(b, p) && rest != [] && (p == [] || Prune(Sub(b, p), rest).keys != [])
    ensures Prune(b, p + rest) == Plug(b, p, Prune(Sub(b, p), rest))
    decreases |p|
  {
    if p == [] {
      assert p + rest == rest;
    } else {
      assert (p + rest)[1..] == p[1..] + rest;
      var kid := b.kids[IndexOf(b.keys, p[0])];
      PruneAt(kid, p[1..], rest);
      if p[1..] != [] { assert Plug(kid, p[1..], Prune(Sub(kid, p[1..]), rest)).keys == kid.keys; }
    }
  }

  // ----- paths, on the heap

  /** `a` is the level at the end of `p`. */
  ghost predicate Leads<K>(heap: Heap<K>, n: Level<K>, p: seq<K>, a: Level<K>)
    decreases |p|
  {
    if p == [] then a == n
    else
      n in heap
      && var i := IndexOf(heap[n].keys, p[0]);
         i < |heap[n].cells| && heap[n].cells[i].Next? && Leads(heap, heap[n].cells[i].level, p[1..], a)
  }

  lemma {:induction false} Reached<K>(heap: Heap<K>, n: Level<K>, path: seq<K>, b: Branch<K>, p: seq<K>, a: Level<K>)
    requires Reps(heap, n, path, b) && Has(b, p) && Leads(heap, n, p, a)
    ensures Reps(heap, a, path + p, Sub(b, p))
    decreases |p|
  {
    if p == [] {
      assert path + p == path;
    } else {
      var i := IndexOf(b.keys, p[0]);
      assert path + p == (path + [b.keys[i]]) + p[1..];
      Reached(heap, heap[n].cells[i].level, path + [b.keys[i]], b.kids[i], p[1..], a);
    }
  }

  lemma {:induction false} LeadsOn<K>(heap: Heap<K>, n: Level<K>, p: seq<K>, a: Level<K>, k: K, c: Level<K>)
    requires Leads(heap, n, p, a) && Leads(heap, a, [k], c)
    ensures Leads(heap, n, p + [k], c)
    decreases |p|
  {
    if p == [] {
      assert p + [k] == [k];
    } else {
      assert (p + [k])[1..] == p[1..] + [k];
      LeadsOn(heap, heap[n].cells[IndexOf(heap[n].keys, p[0])].level, p[1..], a, k, c);
    }
  }

  /** Editing the level at the end of a path replaces what the path leads to. */
  lemma {:induction false} Edit<K>(before: Heap<K>, after: Heap<K>, n: Level<K>, path: seq<K>, b: Branch<K>, p: seq<K>, a: Level<K>, x: Branch<K>)
    requires Reps(before, n, path, b) && Has(b, p) && Leads(before, n, p, a)
    requires forall m :: m in before && m != a ==> m in after && after[m] == before[m]
    requires Reps(after, a, path + p, x)
    ensures Reps(after, n, path, Plug(b, p, x)) && Leads(after, n, p, a)
    decreases |p|
  {
    if p == [] {
      assert path + p == path;
    } else {
      var i := IndexOf(b.keys, p[0]);
      var c := before[n].cells[i].level;
      assert path + p == (path + [p[0]]) + p[1..];
      Edit(before, after, c, path + [p[0]], b.kids[i], p[1..], a, x);
      assert n != a by { assert |path + p| > |path|; }
      var r := Plug(b, p, x);
      forall j | 0 <= j < |r.kids| ensures Reps(after, after[n].cells[j].level, path + [r.keys[j]], r.kids[j]) {
        if j != i { Beside(before, after, n, path, b, p, a, j); }
      }
    }
  }

  /** Beside the path nothing changes. */
  lemma Beside<K>(before: Heap<K>, after: Heap<K>, n: Level<K>, path: seq<K>, b: Branch<K>, p: seq<K>, a: Level<K>, j: nat)
    requires Reps(before, n, path, b) && p != [] && Has(b, p) && a.at == path + p
    requires forall m :: m in before && m != a ==> m in after && after[m] == before[m]
    requires j < |b.keys| && j != IndexOf(b.keys, p[0])
    ensures Reps(after, before[n].cells[j].level, path + [b.keys[j]], b.kids[j])
  {
    assert (path + p)[|path|] == p[0];
    assert b.keys[j] != p[0];
    forall m | m in before && path + [b.keys[j]] <= m.at ensures m in after && after[m] == before[m] {
      assert m.at[|path|] == (path + [b.keys[j]])[|path|];
    }
    Frame(before, after, before[n].cells[j].level, path + [b.keys[j]], b.kids[j]);
  }

  /** Above the edited level the way stays the same. */
  lemma {:induction false} LeadsStill<K>(before: Heap<K>, after: Heap<K>, n: Level<K>, path: seq<K>, b: Branch<K>, p: seq<K>, m: Level<K>, a: Level<K>)
    requires Reps(before, n, path, b) && Has(b, p) && Leads(before, n, p, m) && |a.at| >= |path| + |p|
    requires forall m :: m in before && m != a ==> m in after && after[m] == before[m]
    ensures Leads(after, n, p, m)
    decreases |p|
  {
    if p != [] {
      var i := IndexOf(b.keys, p[0]);
      LeadsStill(before, after, before[n].cells[i].level, path + [p[0]], b.kids[i], p[1..], m, a);
    }
  }
}
