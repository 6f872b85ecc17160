/** Bounded memoization: what a cache of the most recently used results answers, and the memoizers that answer so. */
module Memoizing {
  import opened ArgumentIndex
  import opened ArgumentPaths
  import opened ArgumentTables
  import opened LruQueues
  import opened Options

  // ----- the reference: a cache in order of use

  /** The position of the entry for `key`, or the length. */
  function Place<Id(==), R>(cache: seq<(Id, R)>, key: Id): (i: nat)
    ensures i <= |cache| && (i < |cache| ==> cache[i].0 == key) && forall j :: 0 <= j < i ==> cache[j].0 != key
  {
    if cache == [] || cache[0].0 == key then 0
    else
      var i := Place(cache[1..], key);
      assert forall j :: 0 < j < i + 1 ==> cache[j] == cache[1..][j - 1];
      i + 1
  }

  /** One call: a known key is answered from the cache and becomes the most recent; an unknown one is computed, and the
      least recent entry makes room for it. */
  function Serve<A, Id(==), R>(f: A -> R, id: A -> Id, limit: nat, cache: seq<(Id, R)>, a: A): (R, seq<(Id, R)>) {
    var p := Place(cache, id(a));
    if p < |cache| then (cache[p].1, cache[..p] + cache[p + 1..] + [cache[p]])
    else (f(a), (if |cache| < limit || cache == [] then cache else cache[1..]) + [(id(a), f(a))])
  }

  function Answers<A, Id(==), R>(f: A -> R, id: A -> Id, limit: nat, cache: seq<(Id, R)>, calls: seq<A>): seq<R>
    decreases |calls|
  {
    if calls == [] then []
    else
      var (r, after) := Serve(f, id, limit, cache, calls[0]);
      [r] + Answers(f, id, limit, after, calls[1..])
  }

  function Direct<A, R>(f: A -> R, calls: seq<A>): seq<R> {
    if calls == [] then [] else [f(calls[0])] + Direct(f, calls[1..])
  }

  /** Arguments with one id have one result. */
  ghost predicate Respects<A(!new), Id(!new), R>(f: A -> R, id: A -> Id) {
    forall a, b :: id(a) == id(b) ==> f(a) == f(b)
  }

  /** Every entry holds the result for the arguments with its id. */
  ghost predicate Sound<A(!new), Id, R>(f: A -> R, id: A -> Id, cache: seq<(Id, R)>) {
    forall i, a :: 0 <= i < |cache| && id(a) == cache[i].0 ==> f(a) == cache[i].1
  }

  lemma ServeSound<A(!new), Id(!new), R>(f: A -> R, id: A -> Id, limit: nat, cache: seq<(Id, R)>, a: A)
    requires Respects(f, id) && Sound(f, id, cache)
    ensures var (r, after) := Serve(f, id, limit, cache, a); r == f(a) && Sound(f, id, after)
  {
  }

  lemma {:induction false} AnswersDirect<A(!new), Id(!new), R>(f: A -> R, id: A -> Id, limit: nat, cache: seq<(Id, R)>, calls: seq<A>)
    requires Respects(f, id) && Sound(f, id, cache)
    ensures Answers(f, id, limit, cache, calls) == Direct(f, calls)
    decreases |calls|
  {
    if calls != [] {
      ServeSound(f, id, limit, cache, calls[0]);
      hide Serve, Sound, Respects;
      AnswersDirect(f, id, limit, Serve(f, id, limit, cache, calls[0]).1, calls[1..]);
    }
  }

  /** Two calls with one id: the second gets the first one's result. */
  lemma SecondAnswer<A, Id, R>(f: A -> R, id: A -> Id, limit: nat, a: A, b: A)
    requires id(a) == id(b)
    ensures Answers(f, id, limit, [], [a, b]) == [f(a), f(a)] && Direct(f, [a, b]) == [f(a), f(b)]
  {
    var cache := Serve(f, id, limit, [], a).1;
    assert cache == [(id(a), f(a))];
    assert Place(cache, id(b)) == 0;
    assert [a, b][1..] == [b] && [b][1..] == [];
    OneAnswer(f, id, limit, cache, b);
    assert Direct(f, [b]) == [f(b)] + Direct(f, [b][1..]) && Direct(f, [b][1..]) == [];
  }

  lemma OneAnswer<A, Id, R>(f: A -> R, id: A -> Id, limit: nat, cache: seq<(Id, R)>, a: A)
    ensures Answers(f, id, limit, cache, [a]) == [Serve(f, id, limit, cache, a).0]
  {
    hide Serve;
    assert [a][1..] == [];
  }

  /** Memoized calls answer as direct ones do, whatever is called and whatever is evicted, if and only if the function
      gives arguments with one id one result. */
  lemma MemoizedIffRespects<A(!new), Id(!new), R(!new)>(f: A -> R, id: A -> Id, limit: nat)
    ensures Respects(f, id) <==> forall calls: seq<A> :: Answers(f, id, limit, [], calls) == Direct(f, calls)
  {
    if Respects(f, id) {
      forall calls: seq<A> ensures Answers(f, id, limit, [], calls) == Direct(f, calls) {
        AnswersDirect(f, id, limit, [], calls);
      }
    } else {
      var a, b :| id(a) == id(b) && f(a) != f(b);
      SecondAnswer(f, id, limit, a, b);
      hide Answers, Direct;
      assert Answers(f, id, limit, [], [a, b])[1] != Direct(f, [a, b])[1];
    }
  }

  // ----- entries by id

  function Entries<Id, X, R>(order: seq<Id>, name: map<Id, X>, cache: map<Id, R>): (view: seq<(X, R)>)
    requires forall i :: 0 <= i < |order| ==> order[i] in name && order[i] in cache
    ensures |view| == |order|
  {
    if order == [] then [] else [(name[order[0]], cache[order[0]])] + Entries(order[1..], name, cache)
  }

  lemma {:induction false} EntryAt<Id, X, R>(order: seq<Id>, name: map<Id, X>, cache: map<Id, R>, i: nat)
    requires forall j :: 0 <= j < |order| ==> order[j] in name && order[j] in cache
    requires i < |order|
    ensures Entries(order, name, cache)[i] == (name[order[i]], cache[order[i]])
  {
    if i > 0 { EntryAt(order[1..], name, cache, i - 1); }
  }

  /** The ids in use name distinct tuples. */
  ghost predicate Naming<Id, X>(order: seq<Id>, name: map<Id, X>) {
    && (forall i :: 0 <= i < |order| ==> order[i] in name)
    && forall i, j :: 0 <= i < j < |order| ==> order[i] != order[j] && name[order[i]] != name[order[j]]
  }

  /** The entry of a named id stands where the id stands. */
  lemma PlaceOfId<Id, X, R>(order: seq<Id>, name: map<Id, X>, cache: map<Id, R>, p: nat)
    requires Naming(order, name) && forall i :: 0 <= i < |order| ==> order[i] in cache
    requires p < |order|
    ensures Place(Entries(order, name, cache), name[order[p]]) == p
  {
    var view := Entries(order, name, cache);
    var q := Place(view, name[order[p]]);
    EntryAt(order, name, cache, p);
    if q < |view| { EntryAt(order, name, cache, q); }
  }

  lemma PlaceOfNone<Id, X, R>(order: seq<Id>, name: map<Id, X>, cache: map<Id, R>, x: X)
    requires forall i :: 0 <= i < |order| ==> order[i] in name && order[i] in cache && name[order[i]] != x
    ensures Place(Entries(order, name, cache), x) == |order|
  {
    var q := Place(Entries(order, name, cache), x);
    if q < |order| { EntryAt(order, name, cache, q); }
  }

  lemma {:induction false} EntriesConcat<Id, X, R>(a: seq<Id>, b: seq<Id>, name: map<Id, X>, cache: map<Id, R>)
    requires forall i :: 0 <= i < |a| ==> a[i] in name && a[i] in cache
    requires forall i :: 0 <= i < |b| ==> b[i] in name && b[i] in cache
    ensures forall i :: 0 <= i < |a + b| ==> (a + b)[i] in name && (a + b)[i] in cache
    ensures Entries(a + b, name, cache) == Entries(a, name, cache) + Entries(b, name, cache)
  {
    if a == [] {
      assert a + b == b;
    } else {
      assert (a + b)[1..] == a[1..] + b;
      EntriesConcat(a[1..], b, name, cache);
    }
  }

  /** Entries depend only on the ids in the order. */
  lemma {:induction false} EntriesSame<Id, X, R>(order: seq<Id>, name: map<Id, X>, cache: map<Id, R>, name': map<Id, X>, cache': map<Id, R>)
    requires forall i :: 0 <= i < |order| ==> order[i] in name && order[i] in cache
    requires forall i :: 0 <= i < |order| ==>
               order[i] in name' && order[i] in cache' && name'[order[i]] == name[order[i]] && cache'[order[i]] == cache[order[i]]
    ensures Entries(order, name', cache') == Entries(order, name, cache)
  {
    if order != [] { EntriesSame(order[1..], name, cache, name', cache'); }
  }

  /** Using a known id moves its entry to the end. */
  lemma TouchedEntries<Id, X, R>(order: seq<Id>, name: map<Id, X>, cache: map<Id, R>, p: nat)
    requires Naming(order, name) && (forall i :: 0 <= i < |order| ==> order[i] in cache) && p < |order|
    ensures var touched, view := Touched(order, order[p]), Entries(order, name, cache);
            && |touched| == |order| && (forall i :: 0 <= i < |touched| ==> touched[i] in name && touched[i] in cache)
            && (forall id :: id in touched <==> id in order)
            && Entries(touched, name, cache) == view[..p] + view[p + 1..] + [view[p]]
  {
    DroppedAt(order, p);
    var a, b, c := order[..p], order[p + 1..], [order[p]];
    assert order == a + (c + b);
    EntriesConcat(c, b, name, cache);
    EntriesConcat(a, c + b, name, cache);
    EntriesConcat(a, b, name, cache);
    EntriesConcat(a + b, c, name, cache);
    OneEntry(order[p], name, cache);
    hide Dropped, Entries;
    forall id ensures id in Touched(order, order[p]) <==> id in order {
    }
  }

  lemma OneEntry<Id, X, R>(id: Id, name: map<Id, X>, cache: map<Id, R>)
    requires id in name && id in cache
    ensures Entries([id], name, cache) == [(name[id], cache[id])]
  {
    assert [id][1..] == [];
  }

  /** A new id goes to the end; the first may leave. */
  lemma AddedEntries<Id, X, R>(order: seq<Id>, name: map<Id, X>, cache: map<Id, R>, id: Id, x: X, r: R, kept: seq<Id>,
                               name': map<Id, X>, cache': map<Id, R>)
    requires Naming(order, name) && (forall i :: 0 <= i < |order| ==> order[i] in cache) && id !in order
    requires kept == order || (order != [] && kept == order[1..])
    requires forall i :: 0 <= i < |kept| ==>
               kept[i] in name' && kept[i] in cache' && name'[kept[i]] == name[kept[i]] && cache'[kept[i]] == cache[kept[i]]
    requires id in name' && id in cache' && name'[id] == x && cache'[id] == r
    ensures forall i :: 0 <= i < |kept + [id]| ==> (kept + [id])[i] in name' && (kept + [id])[i] in cache'
    ensures Entries(kept + [id], name', cache')
         == (if kept == order then Entries(order, name, cache) else Entries(order, name, cache)[1..]) + [(x, r)]
  {
    EntriesConcat(kept, [id], name', cache');
    EntriesSame(kept, name, cache, name', cache');
    OneEntry(id, name', cache');
    hide Naming;
    if kept != order { assert Entries(order, name, cache)[1..] == Entries(order[1..], name, cache); }
  }

  /** Tuples are their own ids. */
  function Itself<X>(x: X): X { x }

  lemma ServeKnown<X, R>(f: X -> R, limit: nat, view: seq<(X, R)>, x: X, p: nat)
    requires p < |view| && Place(view, x) == p
    ensures Serve(f, Itself, limit, view, x) == (view[p].1, view[..p] + view[p + 1..] + [view[p]])
  {
  }

  lemma ServeNew<X, R>(f: X -> R, limit: nat, view: seq<(X, R)>, x: X)
    requires Place(view, x) == |view|
    ensures Serve(f, Itself, limit, view, x) == (f(x), (if |view| < limit || view == [] then view else view[1..]) + [(x, f(x))])
  {
  }

  /** The memoizer of a function of a fixed number of arguments, with its argument index and its queue of ids. */
  class BoundedMemo<K(==, !new), R> {
    const f: seq<K> -> R
    const index: ArgIndex<K>
    const lru: LruQueue<nat>
    var cache: map<nat, R>

    /** Cached ids are the ids in the queue, and each holds the result for its tuple. */
    ghost predicate Valid()
      reads this, index, index.levels, lru
    {
      && index.Valid() && lru.Valid()
      && Matching(lru.Order(), index.table, cache, f)
    }

    static ghost predicate Matching(order: seq<nat>, table: map<nat, seq<K>>, cache: map<nat, R>, f: seq<K> -> R) {
      && cache.Keys == table.Keys && (forall id :: id in cache <==> id in order)
      && forall id :: id in cache ==> cache[id] == f(table[id])
    }

    lemma Named()
      requires Valid()
      ensures Naming(lru.Order(), index.table) && forall i :: 0 <= i < |lru.Order()| ==> lru.Order()[i] in cache
    {
      OrderIds(lru.queue, lru.index, lru.ticks);
      var order := lru.Order();
      forall i | 0 <= i < |order| ensures order[i] in cache && order[i] in index.table {
        assert order[i] in order;
      }
      forall i, j | 0 <= i < j < |order| ensures order[i] != order[j] && index.table[order[i]] != index.table[order[j]] {
        assert Get(index.root, index.table[order[i]]) == Some(order[i]) && Get(index.root, index.table[order[j]]) == Some(order[j]);
      }
    }

    /** The cached results by tuple, least recently used first. */
    ghost function View(): seq<(seq<K>, R)>
      requires Valid()
      reads this, index, index.levels, lru
    {
      Named();
      Entries(lru.Order(), index.table, cache)
    }

    constructor (f: seq<K> -> R, arity: nat, limit: nat)
      requires arity > 0 && limit > 0
      ensures Valid() && View() == [] && fresh(index) && fresh(index.levels) && fresh(lru)
      ensures this.f == f && index.arity == arity && lru.limit == limit
    {
      this.f := f;
      index := new ArgIndex(arity);
      lru := new LruQueue(limit);
      cache := map[];
    }

    /** A memoized call. */
    method Call(args: seq<K>) returns (r: R)
      requires Valid() && |args| == index.arity
      modifies this, index, index.levels, lru
      ensures Valid() && r == f(args) && fresh(index.levels - old(index.levels))
      ensures (r, View()) == Serve(f, Itself, lru.limit, old(View()), args)
    {
      hide Serve, Place;
      var id := index.GetId(args);
      if id.Some? {
        r := Recall(id.value);
      } else {
        r := f(args);
        Remember(args, r);
      }
    }

    /** A cached result is used. */
    method Recall(id: nat) returns (r: R)
      requires Valid() && id in cache && id in index.table
      modifies lru
      ensures Valid() && r == f(index.table[id])
      ensures (r, View()) == Serve(f, Itself, lru.limit, old(View()), index.table[id])
    {
      hide Serve, Place, Entries, Touched, Naming, Dropped, Agree, Reps, Filed;
      Recalls(id);
      r := cache[id];
      assert r == f(index.table[id]);
      hide Matching;
      var evicted := lru.Hit(id);
    }

    /** What using the entry of `id` once more answers and leaves behind. */
    lemma Recalls(id: nat)
      requires Valid() && id in cache && id in index.table
      ensures id in lru.Order() && |Touched(lru.Order(), id)| <= lru.limit
      ensures Matching(Touched(lru.Order(), id), index.table, cache, f)
      ensures forall i :: i in Touched(lru.Order(), id) ==> i in index.table && i in cache
      ensures Serve(f, Itself, lru.limit, View(), index.table[id])
           == (f(index.table[id]), Entries(Touched(lru.Order(), id), index.table, cache))
    {
      Named();
      hide Agree, Reps, Filed, Serve, Place, Entries, Touched, Naming;
      assert Matching(lru.Order(), index.table, cache, f) && |lru.Order()| == |lru.ticks| <= lru.limit;
      RecallsIn(lru.Order(), index.table, cache, f, lru.limit, id);
    }

    static lemma RecallsIn(order: seq<nat>, table: map<nat, seq<K>>, cache: map<nat, R>, f: seq<K> -> R, limit: nat, id: nat)
      requires Naming(order, table) && (forall i :: 0 <= i < |order| ==> order[i] in cache) && Matching(order, table, cache, f)
      requires |order| <= limit && id in cache
      ensures id in order && id in table && |Touched(order, id)| <= limit && Matching(Touched(order, id), table, cache, f)
      ensures forall i :: i in Touched(order, id) ==> i in table && i in cache
      ensures Serve(f, Itself, limit, Entries(order, table, cache), table[id]) == (f(table[id]), Entries(Touched(order, id), table, cache))
    {
      hide Serve, Place, Entries, Touched;
      var p :| 0 <= p < |order| && order[p] == id;
      PlaceOfId(order, table, cache, p);
      EntryAt(order, table, cache, p);
      TouchedEntries(order, table, cache, p);
      ServeKnown(f, limit, Entries(order, table, cache), table[id], p);
    }

    /** A new result is cached, and the least recently used one makes room for it. */
    method Remember(args: seq<K>, r: R)
      requires Valid() && |args| == index.arity && r == f(args) && Get(index.root, args) == None
      requires forall id :: id in index.table ==> index.table[id] != args
      modifies this, index, index.levels, lru
      ensures Valid() && (r, View()) == Serve(f, Itself, lru.limit, old(View()), args)
      ensures fresh(index.levels - old(index.levels))
    {
      Named();
      hide Serve, Entries, Naming, Agree, Filed, Stored, Itself;
      ghost var order, table, was := lru.Order(), index.table, cache;
      var id := Store(args, r);
      Remembered(order, table, was, lru.limit, id, args, r, f, lru.Order(), index.table, cache);
    }

    /** What storing a result under a new id does to the order, the table and the cache. */
    static ghost predicate Stored(order: seq<nat>, table: map<nat, seq<K>>, was: map<nat, R>, limit: nat, id: nat, args: seq<K>, r: R,
                                  order': seq<nat>, table': map<nat, seq<K>>, cache': map<nat, R>)
    {
      && id !in table && id !in order
      && if |order| < limit then order' == order + [id] && table' == table[id := args] && cache' == was[id := r]
         else
           && order != [] && order[0] in table && order' == order[1..] + [id]
           && table' == table[id := args] - {order[0]} && cache' == was[id := r] - {order[0]}
    }

    static lemma Remembered(order: seq<nat>, table: map<nat, seq<K>>, was: map<nat, R>, limit: nat, id: nat, args: seq<K>, r: R, f: seq<K> -> R,
                            order': seq<nat>, table': map<nat, seq<K>>, cache': map<nat, R>)
      requires Stored(order, table, was, limit, id, args, r, order', table', cache') && r == f(args)
      requires Naming(order, table) && was.Keys == table.Keys && (forall i :: i in was <==> i in order)
      requires (forall i :: i in was ==> was[i] == f(table[i])) && forall i :: i in table ==> table[i] != args
      ensures cache'.Keys == table'.Keys && (forall i :: i in cache' <==> i in order')
      ensures forall i :: i in cache' ==> cache'[i] == f(table'[i])
      ensures (forall i :: 0 <= i < |order| ==> order[i] in table && order[i] in was)
           && forall i :: 0 <= i < |order'| ==> order'[i] in table' && order'[i] in cache'
      ensures (r, Entries(order', table', cache')) == Serve(f, Itself, limit, Entries(order, table, was), args)
    {
      hide Entries, Serve, Place;
      StoredKeys(order, table, was, limit, id, args, r, f, order', table', cache');
      var kept := if |order| < limit then order else order[1..];
      AddedEntries(order, table, was, id, args, r, kept, table', cache');
      PlaceOfNone(order, table, was, args);
      ServeNew(f, limit, Entries(order, table, was), args);
    }

    /** Order, table and cache name the same ids, and what is kept is kept. */
    static lemma StoredKeys(order: seq<nat>, table: map<nat, seq<K>>, was: map<nat, R>, limit: nat, id: nat, args: seq<K>, r: R, f: seq<K> -> R,
                            order': seq<nat>, table': map<nat, seq<K>>, cache': map<nat, R>)
      requires Stored(order, table, was, limit, id, args, r, order', table', cache') && r == f(args)
      requires Naming(order, table) && was.Keys == table.Keys && (forall i :: i in was <==> i in order)
      requires (forall i :: i in was ==> was[i] == f(table[i]))
      ensures cache'.Keys == table'.Keys && (forall i :: i in cache' <==> i in order')
      ensures forall i :: i in cache' ==> cache'[i] == f(table'[i])
      ensures (forall i :: 0 <= i < |order| ==> order[i] in table && order[i] in was)
           && forall i :: 0 <= i < |order'| ==> order'[i] in table' && order'[i] in cache'
      ensures var kept := if |order| < limit then order else order[1..];
              && order' == kept + [id] && id in table' && id in cache' && table'[id] == args && cache'[id] == r
              && forall i :: 0 <= i < |kept| ==>
                   kept[i] in table' && kept[i] in cache' && table'[kept[i]] == table[kept[i]] && cache'[kept[i]] == was[kept[i]]
    {
      var kept := if |order| < limit then order else order[1..];
      KeptIds(order, kept, id);
    }

    static lemma KeptIds(order: seq<nat>, kept: seq<nat>, id: nat)
      requires (forall i, j :: 0 <= i < j < |order| ==> order[i] != order[j]) && id !in order
      requires kept == order || (order != [] && kept == order[1..])
      ensures forall x :: x in kept + [id] <==> x == id || (x in order && (kept == order || x != order[0]))
    {
      forall x ensures x in kept + [id] <==> x == id || (x in order && (kept == order || x != order[0])) {
        if x in order && kept != order && x != order[0] {
          var i :| 0 <= i < |order| && order[i] == x;
          assert kept[i - 1] == x;
        }
      }
    }

    static lemma FirstGone(order: seq<nat>, id: nat)
      requires (forall i, j :: 0 <= i < j < |order| ==> order[i] != order[j]) && id !in order && order != []
      ensures order[0] in order && (order + [id])[1..] == order[1..] + [id] && order[0] !in order[1..] + [id]
    {
    }

    method Store(args: seq<K>, r: R) returns (id: nat)
      requires Valid() && |args| == index.arity && Get(index.root, args) == None
      modifies this, index, index.levels, lru
      ensures index.Valid() && lru.Valid() && fresh(index.levels - old(index.levels))
      ensures Stored(old(lru.Order()), old(index.table), old(cache), lru.limit, id, args, r, lru.Order(), index.table, cache)
    {
      hide Agree, Reps, Filed, Dropped, Touched, Stored;
      OrderIds(lru.queue, lru.index, lru.ticks);
      ghost var order, table, was := lru.Order(), index.table, cache;
      id := index.SetId(args);
      cache := cache[id := r];
      Admit(id);
      assert Stored(order, table, was, lru.limit, id, args, r, lru.Order(), index.table, cache) by {
        StoredIs(order, table, was, lru.limit, id, args, r, lru.Order(), index.table, cache);
      }
    }

    static lemma StoredIs(order: seq<nat>, table: map<nat, seq<K>>, was: map<nat, R>, limit: nat, id: nat, args: seq<K>, r: R,
                          order': seq<nat>, table': map<nat, seq<K>>, cache': map<nat, R>)
      requires id !in table && id !in order && forall i :: i in order ==> i in table
      requires Admitted(order, table[id := args], was[id := r], limit, id, order', table', cache')
      ensures Stored(order, table, was, limit, id, args, r, order', table', cache')
    {
      if |order| >= limit && order != [] { assert order[0] in order; }
    }

    /** What admitting an id to the queue does: when that makes one too many, the first one goes. */
    static ghost predicate Admitted(order: seq<nat>, table: map<nat, seq<K>>, was: map<nat, R>, limit: nat, id: nat,
                                    order': seq<nat>, table': map<nat, seq<K>>, cache': map<nat, R>)
    {
      if |order| < limit then order' == order + [id] && table' == table && cache' == was
      else order != [] && order' == order[1..] + [id] && table' == table - {order[0]} && cache' == was - {order[0]}
    }

    method Admit(id: nat)
      requires index.Valid() && lru.Valid() && id !in lru.Order() && |lru.Order()| <= lru.limit && lru.limit > 0
      requires forall i, j :: 0 <= i < j < |lru.Order()| ==> lru.Order()[i] != lru.Order()[j]
      requires forall i :: i in lru.Order() ==> i in index.table && i in cache
      modifies this`cache, index, index.levels, lru
      ensures index.Valid() && lru.Valid() && index.levels == old(index.levels)
      ensures Admitted(old(lru.Order()), old(index.table), old(cache), lru.limit, id, lru.Order(), index.table, cache)
    {
      hide Agree, Reps, Filed, Dropped, Touched;
      ghost var order := lru.Order();
      NewTouched(order, id);
      var evicted := lru.Hit(id);
      if evicted.Some? {
        FirstGone(order, id);
        Forget(evicted.value);
      }
    }

    static lemma NewTouched(order: seq<nat>, id: nat)
      requires id !in order
      ensures Touched(order, id) == order + [id]
    {
      DroppedAbsent(order, id);
    }

    /** delete: an evicted id leaves the argument index, the cache and, if it were still there, the queue. */
    method Forget(id: nat)
      requires index.Valid() && lru.Valid() && id in index.table && id in cache && id !in lru.Order()
      modifies this`cache, index, index.levels, lru
      ensures index.Valid() && lru.Valid() && lru.Order() == old(lru.Order()) && index.levels == old(index.levels)
      ensures index.table == old(index.table) - {id} && cache == old(cache) - {id}
    {
      hide Agree, Reps, Filed;
      index.Delete(id);
      cache := cache - {id};
      DroppedAbsent(lru.Order(), id);
      lru.Delete(id);
    }
  }
}
