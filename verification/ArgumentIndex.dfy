/** The argument index on values: a tree over the arguments of a fixed arity, pruned as tuples are deleted, and its agreement
    with a table from ids to tuples. */
module ArgumentIndex {
  import opened Options

  /** A level of the tree: the keys met so far, each with its id or with the next level. */
  datatype Branch<K> = Leaf(keys: seq<K>, ids: seq<nat>) | Inner(keys: seq<K>, kids: seq<Branch<K>>)

  function IndexOf<K(==)>(keys: seq<K>, k: K): (i: nat)
    ensures i <= |keys| && (i < |keys| ==> keys[i] == k) && forall j :: 0 <= j < i ==> keys[j] != k
  {
    if keys == [] || keys[0] == k then 0
    else
      var i := IndexOf(keys[1..], k);
      assert forall j :: 0 < j < i + 1 ==> keys[j] == keys[1..][j - 1];
      i + 1
  }

  function Empty<K>(depth: nat): Branch<K> {
    if depth <= 1 then Leaf([], []) else Inner([], [])
  }

  /** Keys are distinct, every level has the same depth below it, and no level below the root is empty. */
  ghost predicate Formed<K>(b: Branch<K>, depth: nat)
    decreases depth
  {
    && depth >= 1
    && (forall i, j :: 0 <= i < j < |b.keys| ==> b.keys[i] != b.keys[j])
    && match b
       case Leaf(keys, ids) => depth == 1 && |ids| == |keys|
       case Inner(keys, kids) =>
         depth > 1 && |kids| == |keys| && forall i :: 0 <= i < |kids| ==> Formed(kids[i], depth - 1) && kids[i].keys != []
  }

  function Get<K(==)>(b: Branch<K>, args: seq<K>): Option<nat>
    decreases |args|
  {
    if args == [] then None
    else
      var i := IndexOf(b.keys, args[0]);
      if i == |b.keys| then None
      else match b
        case Leaf(_, ids) => if i < |ids| then Some(ids[i]) else None
        case Inner(_, kids) => if i < |kids| then Get(kids[i], args[1..]) else None
  }

  function Set<K(==)>(b: Branch<K>, args: seq<K>, id: nat): Branch<K>
    decreases |args|
  {
    if args == [] then b
    else
      var i := IndexOf(b.keys, args[0]);
      match b
      case Leaf(keys, ids) =>
        if i < |ids| then Leaf(keys, ids[i := id]) else Leaf(keys + [args[0]], ids + [id])
      case Inner(keys, kids) =>
        if i < |kids| then Inner(keys, kids[i := Set(kids[i], args[1..], id)])
        else Inner(keys + [args[0]], kids + [Set(Empty(|args| - 1), args[1..], id)])
  }

  function Cut<T>(s: seq<T>, i: nat): seq<T>
    requires i < |s|
  {
    s[..i] + s[i + 1..]
  }

  /** Removes a tuple, and every level this leaves empty. */
  function Prune<K(==)>(b: Branch<K>, args: seq<K>): Branch<K>
    decreases |args|
  {
    if args == [] then b
    else
      var i := IndexOf(b.keys, args[0]);
      if i >= |b.keys| then b
      else match b
        case Leaf(keys, ids) => if i < |ids| then Leaf(Cut(keys, i), Cut(ids, i)) else b
        case Inner(keys, kids) =>
          if i >= |kids| then b
          else
            var kid := Prune(kids[i], args[1..]);
            if kid.keys == [] then Inner(Cut(keys, i), Cut(kids, i)) else Inner(keys, kids[i := kid])
  }

  // ----- properties of the three

  lemma IndexIs<K>(keys: seq<K>, k: K, i: nat)
    requires i <= |keys| && (i < |keys| ==> keys[i] == k) && forall j :: 0 <= j < i ==> keys[j] != k
    ensures IndexOf(keys, k) == i
  {
  }

  lemma IndexAppended<K>(keys: seq<K>, k: K, x: K)
    requires k !in keys
    ensures IndexOf(keys + [k], x) == if x == k then |keys| else if IndexOf(keys, x) < |keys| then IndexOf(keys, x) else |keys| + 1
  {
    var i := IndexOf(keys, x);
    IndexIs(keys + [k], x, if x == k then |keys| else if i < |keys| then i else |keys| + 1);
  }

  lemma IndexCut<K>(keys: seq<K>, i: nat, x: K)
    requires i < |keys| && forall a, b :: 0 <= a < b < |keys| ==> keys[a] != keys[b]
    ensures var j := IndexOf(keys, x);
            IndexOf(Cut(keys, i), x) == if j == i then |keys| - 1 else if j < i then j else j - 1
  {
    hide IndexOf;
    var j, after := IndexOf(keys, x), Cut(keys, i);
    var at := if j == i then |keys| - 1 else if j < i then j else j - 1;
    CutAt(keys, i);
    hide Cut;
    forall a | 0 <= a < at ensures after[a] != x {
      var c := if a < i then a else a + 1;
      assert after[a] == keys[c];
      if j == i { assert keys[c] != keys[i]; }
    }
    IndexIs(after, x, at);
  }

  lemma CutAt<T>(s: seq<T>, i: nat)
    requires i < |s|
    ensures |Cut(s, i)| == |s| - 1 && forall a :: 0 <= a < |s| - 1 ==> Cut(s, i)[a] == s[if a < i then a else a + 1]
  {
  }

  lemma EmptyFormed<K>(depth: nat)
    requires depth >= 1
    ensures Formed(Empty<K>(depth), depth) && Empty<K>(depth).keys == []
  {
  }

  lemma EmptyGet<K>(depth: nat, args: seq<K>)
    ensures Get(Empty<K>(depth), args) == None
  {
  }

  /** Setting a tuple changes what that tuple gets, and nothing else. */
  lemma {:induction false} GetSet<K>(b: Branch<K>, args: seq<K>, id: nat, x: seq<K>)
    requires Formed(b, |args|) && |x| == |args|
    ensures Formed(Set(b, args, id), |args|) && Set(b, args, id).keys != []
    ensures Get(Set(b, args, id), x) == if x == args then Some(id) else Get(b, x)
    decreases |args|
  {
    assert args == [args[0]] + args[1..] && x == [x[0]] + x[1..];
    if b.Leaf? { LeafSet(b, args, id, x); } else { InnerSet(b, args, id, x); }
  }

  lemma LeafSet<K>(b: Branch<K>, args: seq<K>, id: nat, x: seq<K>)
    requires Formed(b, 1) && |x| == |args| == 1
    ensures Formed(Set(b, args, id), 1) && Set(b, args, id).keys != []
    ensures Get(Set(b, args, id), x) == if x[0] == args[0] then Some(id) else Get(b, x)
  {
    hide IndexOf;
    if IndexOf(b.keys, args[0]) == |b.keys| { IndexAppended(b.keys, args[0], x[0]); }
  }

  lemma InnerSet<K>(b: Branch<K>, args: seq<K>, id: nat, x: seq<K>)
    requires Formed(b, |args|) && |x| == |args| > 1 && b.Inner?
    ensures Formed(Set(b, args, id), |args|) && Set(b, args, id).keys != []
    ensures Get(Set(b, args, id), x) == if x[0] == args[0] && x[1..] == args[1..] then Some(id) else Get(b, x)
    decreases |args|, 0
  {
    hide IndexOf, Formed, Get, Set;
    KidsFormed(b, |args|);
    var i := IndexOf(b.keys, args[0]);
    EmptyFormed<K>(|args| - 1);
    var kid := if i < |b.keys| then b.kids[i] else Empty(|args| - 1);
    GetSet(kid, args[1..], id, x[1..]);
    SetInner(b, args, id);
    if i < |b.keys| {
      ReplaceFormed(b, |args|, i, Set(kid, args[1..], id));
      InnerReplaced(b, args, id, x, i, Set(kid, args[1..], id));
    } else {
      EmptyGet(|args| - 1, x[1..]);
      AppendFormed(b, |args|, args[0], Set(kid, args[1..], id));
      InnerAppended(b, args, id, x, Set(kid, args[1..], id));
    }
  }

  lemma SetInner<K>(b: Branch<K>, args: seq<K>, id: nat)
    requires args != [] && b.Inner? && |b.kids| == |b.keys|
    ensures var i := IndexOf(b.keys, args[0]);
            Set(b, args, id) == if i < |b.keys| then Inner(b.keys, b.kids[i := Set(b.kids[i], args[1..], id)])
                                else Inner(b.keys + [args[0]], b.kids + [Set(Empty(|args| - 1), args[1..], id)])
  {
  }

  lemma InnerReplaced<K>(b: Branch<K>, args: seq<K>, id: nat, x: seq<K>, i: nat, kid: Branch<K>)
    requires b.Inner? && |b.kids| == |b.keys| && |x| == |args| > 1 && i == IndexOf(b.keys, args[0]) < |b.keys|
    requires Get(kid, x[1..]) == if x[1..] == args[1..] then Some(id) else Get(b.kids[i], x[1..])
    ensures Get(Inner(b.keys, b.kids[i := kid]), x) == if x[0] == args[0] && x[1..] == args[1..] then Some(id) else Get(b, x)
  {
    hide IndexOf, Get;
    GetInner(b.keys, b.kids, x);
    GetInner(b.keys, b.kids[i := kid], x);
  }

  lemma InnerAppended<K>(b: Branch<K>, args: seq<K>, id: nat, x: seq<K>, kid: Branch<K>)
    requires b.Inner? && |b.kids| == |b.keys| && |x| == |args| > 1 && args[0] !in b.keys
    requires Get(kid, x[1..]) == if x[1..] == args[1..] then Some(id) else None
    ensures Get(Inner(b.keys + [args[0]], b.kids + [kid]), x) == if x[0] == args[0] && x[1..] == args[1..] then Some(id) else Get(b, x)
  {
    hide IndexOf, Get;
    IndexAppended(b.keys, args[0], x[0]);
    GetInner(b.keys, b.kids, x);
    GetInner(b.keys + [args[0]], b.kids + [kid], x);
  }

  lemma KidsFormed<K>(b: Branch<K>, depth: nat)
    requires Formed(b, depth) && b.Inner?
    ensures depth > 1 && |b.kids| == |b.keys| && forall i :: 0 <= i < |b.kids| ==> Formed(b.kids[i], depth - 1)
    ensures forall i, j :: 0 <= i < j < |b.keys| ==> b.keys[i] != b.keys[j]
  {
  }

  lemma GetInner<K>(keys: seq<K>, kids: seq<Branch<K>>, x: seq<K>)
    requires |x| > 1 && |kids| == |keys|
    ensures var i := IndexOf(keys, x[0]); Get(Inner(keys, kids), x) == if i < |keys| then Get(kids[i], x[1..]) else None
  {
  }

  lemma ReplaceFormed<K>(b: Branch<K>, depth: nat, i: nat, kid: Branch<K>)
    requires Formed(b, depth) && b.Inner? && i < |b.kids| && depth > 1 && Formed(kid, depth - 1) && kid.keys != []
    ensures Formed(Inner(b.keys, b.kids[i := kid]), depth)
  {
  }

  lemma AppendFormed<K>(b: Branch<K>, depth: nat, k: K, kid: Branch<K>)
    requires Formed(b, depth) && b.Inner? && k !in b.keys && depth > 1 && Formed(kid, depth - 1) && kid.keys != []
    ensures Formed(Inner(b.keys + [k], b.kids + [kid]), depth)
  {
  }

  lemma CutFormed<K>(b: Branch<K>, depth: nat, i: nat)
    requires Formed(b, depth) && b.Inner? && i < |b.kids|
    ensures Formed(Inner(Cut(b.keys, i), Cut(b.kids, i)), depth)
  {
    KidsFormed(b, depth);
    CutAt(b.keys, i);
    CutAt(b.kids, i);
    hide Cut;
  }

  /** Deleting a tuple leaves nothing under it, and everything else as it was. */
  lemma {:induction false} GetPrune<K>(b: Branch<K>, args: seq<K>, x: seq<K>)
    requires Formed(b, |args|) && |x| == |args|
    ensures Formed(Prune(b, args), |args|)
    ensures Get(Prune(b, args), x) == if x == args then None else Get(b, x)
    decreases |args|, 1
  {
    assert args == [args[0]] + args[1..] && x == [x[0]] + x[1..];
    hide IndexOf, Prune, Get;
    if IndexOf(b.keys, args[0]) == |b.keys| {
      PruneAbsent(b, args, x);
    } else if b.Leaf? {
      LeafPrune(b, args, x);
    } else {
      InnerPrune(b, args, x);
    }
  }

  lemma PruneAbsent<K>(b: Branch<K>, args: seq<K>, x: seq<K>)
    requires args != [] && |x| == |args| && IndexOf(b.keys, args[0]) == |b.keys|
    ensures Prune(b, args) == b && (x[0] == args[0] ==> Get(b, x) == None)
  {
    hide IndexOf;
  }

  lemma LeafPrune<K>(b: Branch<K>, args: seq<K>, x: seq<K>)
    requires Formed(b, 1) && |x| == |args| == 1 && IndexOf(b.keys, args[0]) < |b.keys|
    ensures Formed(Prune(b, args), 1)
    ensures Get(Prune(b, args), x) == if x[0] == args[0] then None else Get(b, x)
  {
    hide IndexOf, Get, Cut;
    var i := IndexOf(b.keys, args[0]);
    CutAt(b.keys, i);
    CutAt(b.ids, i);
    IndexCut(b.keys, i, x[0]);
    GetLeaf(b.keys, b.ids, x);
    GetLeaf(Cut(b.keys, i), Cut(b.ids, i), x);
  }

  lemma GetLeaf<K>(keys: seq<K>, ids: seq<nat>, x: seq<K>)
    requires |x| == 1 && |ids| == |keys|
    ensures var i := IndexOf(keys, x[0]); Get(Leaf(keys, ids), x) == if i < |keys| then Some(ids[i]) else None
  {
  }

  lemma InnerPrune<K>(b: Branch<K>, args: seq<K>, x: seq<K>)
    requires Formed(b, |args|) && |x| == |args| > 1 && b.Inner? && IndexOf(b.keys, args[0]) < |b.keys|
    ensures Formed(Prune(b, args), |args|)
    ensures Get(Prune(b, args), x) == if x[0] == args[0] && x[1..] == args[1..] then None else Get(b, x)
    decreases |args|, 0
  {
    hide IndexOf, Formed, Get, Cut, Prune;
    KidsFormed(b, |args|);
    var i := IndexOf(b.keys, args[0]);
    GetPrune(b.kids[i], args[1..], x[1..]);
    var kid := Prune(b.kids[i], args[1..]);
    PruneInner(b, args);
    if kid.keys == [] {
      NothingUnder(kid, x[1..]);
      CutFormed(b, |args|, i);
      InnerCut(b, args, x, i);
    } else {
      ReplaceFormed(b, |args|, i, kid);
      GetInner(b.keys, b.kids, x);
      GetInner(b.keys, b.kids[i := kid], x);
    }
  }

  lemma PruneInner<K>(b: Branch<K>, args: seq<K>)
    requires args != [] && b.Inner? && |b.kids| == |b.keys| && IndexOf(b.keys, args[0]) < |b.keys|
    ensures var i := IndexOf(b.keys, args[0]);
            var kid := Prune(b.kids[i], args[1..]);
            Prune(b, args) == if kid.keys == [] then Inner(Cut(b.keys, i), Cut(b.kids, i)) else Inner(b.keys, b.kids[i := kid])
  {
  }

  lemma InnerCut<K>(b: Branch<K>, args: seq<K>, x: seq<K>, i: nat)
    requires b.Inner? && |b.kids| == |b.keys| && |x| == |args| > 1 && i == IndexOf(b.keys, args[0]) < |b.keys|
    requires forall a, c :: 0 <= a < c < |b.keys| ==> b.keys[a] != b.keys[c]
    requires x[1..] != args[1..] ==> Get(b.kids[i], x[1..]) == None
    ensures Get(Inner(Cut(b.keys, i), Cut(b.kids, i)), x) == if x[0] == args[0] && x[1..] == args[1..] then None else Get(b, x)
  {
    hide IndexOf, Get, Cut;
    CutAt(b.keys, i);
    CutAt(b.kids, i);
    IndexCut(b.keys, i, x[0]);
    GetInner(b.keys, b.kids, x);
    GetInner(Cut(b.keys, i), Cut(b.kids, i), x);
  }

  lemma NothingUnder<K>(b: Branch<K>, args: seq<K>)
    requires b.keys == []
    ensures Get(b, args) == None
  {
  }

  /** The tree and the table agree on every tuple. */
  ghost predicate Agree<K(!new)>(root: Branch<K>, arity: nat, lastId: nat, table: map<nat, seq<K>>) {
    && arity > 0 && Formed(root, arity)
    && (forall id :: id in table ==> 0 < id <= lastId && |table[id]| == arity)
    && forall args, id :: |args| == arity ==> (Get(root, args) == Some(id) <==> id in table && table[id] == args)
  }

  lemma AgreeSet<K(!new)>(root: Branch<K>, arity: nat, lastId: nat, table: map<nat, seq<K>>, args: seq<K>)
    requires Agree(root, arity, lastId, table) && |args| == arity && Get(root, args) == None
    ensures Agree(Set(root, args, lastId + 1), arity, lastId + 1, table[lastId + 1 := args])
  {
    hide Formed, Get, Set;
    GetSet(root, args, lastId + 1, args);
    forall x: seq<K>, id | |x| == arity
      ensures Get(Set(root, args, lastId + 1), x) == Some(id)
         <==> id in table[lastId + 1 := args] && table[lastId + 1 := args][id] == x
    {
      GetSet(root, args, lastId + 1, x);
    }
  }

  lemma AgreePrune<K(!new)>(root: Branch<K>, arity: nat, lastId: nat, table: map<nat, seq<K>>, id: nat)
    requires Agree(root, arity, lastId, table) && id in table
    ensures Agree(Prune(root, table[id]), arity, lastId, table - {id})
  {
    hide Formed, Get, Prune;
    var args := table[id];
    GetPrune(root, args, args);
    assert Get(root, args) == Some(id);
    forall x: seq<K>, i | |x| == arity
      ensures Get(Prune(root, args), x) == Some(i) <==> i in table - {id} && (table - {id})[i] == x
    {
      GetPrune(root, args, x);
    }
  }

  /** Distinct tuples never share an id, and a tuple never has two. */
  lemma IdsDetermine<K(!new)>(root: Branch<K>, arity: nat, lastId: nat, table: map<nat, seq<K>>, x: seq<K>, y: seq<K>)
    requires Agree(root, arity, lastId, table) && |x| == |y| == arity && Get(root, x).Some? && Get(root, y).Some?
    ensures Get(root, x) == Get(root, y) <==> x == y
  {
    assert Get(root, x) == Some(Get(root, x).value) && Get(root, y) == Some(Get(root, y).value);
  }
}
