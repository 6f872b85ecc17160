/** The insertion-ordered map: a key index over the linked list, and a traversal that callbacks may disturb. */
module OrderedMaps {
  import opened OrderedChains
  import opened OrderedWalks

  // ----- the index, as a value

  /** The index holds exactly the live entries whose keys are not frozen, and no key is live twice. */
  ghost predicate Indexed<K(!new), V>(es: seq<MapEntry<K, V>>, removed: seq<bool>, frozen: K -> bool, index: map<K, MapEntry<K, V>>)
    requires |removed| == |es|
  {
    && (forall i :: 0 <= i < |es| && !removed[i] && !frozen(es[i].k) ==> es[i].k in index && index[es[i].k] == es[i])
    && (forall k :: k in index ==> Filed(es, removed, frozen, index, k))
    && (forall i, j :: 0 <= i < j < |es| && !removed[i] && !removed[j] ==> es[i].k != es[j].k)
  }

  ghost predicate Filed<K, V>(es: seq<MapEntry<K, V>>, removed: seq<bool>, frozen: K -> bool, index: map<K, MapEntry<K, V>>, k: K)
    requires |removed| == |es| && k in index
  {
    !frozen(k) && exists i :: 0 <= i < |es| && !removed[i] && es[i] == index[k] && es[i].k == k
  }

  lemma IndexDrop<K(!new), V>(es: seq<MapEntry<K, V>>, removed: seq<bool>, frozen: K -> bool, index: map<K, MapEntry<K, V>>, x: nat)
    requires |removed| == |es| && x < |es| && !removed[x] && Indexed(es, removed, frozen, index)
    ensures Indexed(es, removed[x := true], frozen, index - {es[x].k})
  {
    var after := index - {es[x].k};
    forall k | k in after ensures Filed(es, removed[x := true], frozen, after, k) {
      assert Filed(es, removed, frozen, index, k);
    }
  }

  lemma IndexAppend<K(!new), V>(es: seq<MapEntry<K, V>>, removed: seq<bool>, frozen: K -> bool, index: map<K, MapEntry<K, V>>, e: MapEntry<K, V>)
    requires |removed| == |es| && Indexed(es, removed, frozen, index)
    requires forall i :: 0 <= i < |es| && !removed[i] ==> es[i].k != e.k
    ensures Indexed(es + [e], removed + [false], frozen, if frozen(e.k) then index else index[e.k := e])
  {
    var after := if frozen(e.k) then index else index[e.k := e];
    forall k | k in after ensures Filed(es + [e], removed + [false], frozen, after, k) {
      if k == e.k && !frozen(k) {
        assert (es + [e])[|es|] == e;
      } else {
        assert Filed(es, removed, frozen, index, k);
        var i :| 0 <= i < |es| && !removed[i] && es[i] == index[k] && es[i].k == k;
        assert (es + [e])[i] == es[i] && !(removed + [false])[i];
      }
    }
  }

  /** Every key still in the index belongs to a live entry at `x` or later. */
  ghost predicate Remaining<K(!new), V>(es: seq<MapEntry<K, V>>, removed: seq<bool>, index: map<K, MapEntry<K, V>>, x: nat)
    requires |removed| == |es|
  {
    forall k :: k in index ==> exists i :: x <= i < |es| && !removed[i] && es[i].k == k
  }

  /** `clear` stands at the live position `x` of the chain it found: what the fields and the index hold then. */
  ghost predicate Clearing<K(!new), V>(c: Chain<K, V>, x: nat, index: map<K, MapEntry<K, V>>,
                                       removed: seq<bool>, prev: seq<MapEntry?<K, V>>, next: seq<MapEntry?<K, V>>) {
    && c.Linked() && x <= |c.es| == |next| && (x < |c.es| ==> !c.removed[x])
    && removed == c.ClearedFlags(x) && prev == c.ClearedPrev(x)
    && (forall i :: x <= i < |c.es| ==> next[i] == c.next[i])
    && Remaining(c.es, c.removed, index, x)
  }

  lemma ClearingStart<K(!new), V>(c: Chain<K, V>, frozen: K -> bool, index: map<K, MapEntry<K, V>>)
    requires c.Linked() && Indexed(c.es, c.removed, frozen, index)
    ensures Clearing(c, NextLive(c.removed, 0), index, c.removed, c.prev, c.next)
  {
    ClearedStart(c);
    hide NextLive;
    forall k | k in index ensures exists i :: NextLive(c.removed, 0) <= i < |c.es| && !c.removed[i] && c.es[i].k == k {
      assert Filed(c.es, c.removed, frozen, index, k);
    }
  }

  lemma ClearingAt<K(!new), V>(c: Chain<K, V>, x: nat, index: map<K, MapEntry<K, V>>,
                               removed: seq<bool>, prev: seq<MapEntry?<K, V>>, next: seq<MapEntry?<K, V>>)
    requires Clearing(c, x, index, removed, prev, next) && x < |c.es|
    ensures c.Sized() && Distinct(c.es) && !c.removed[x] && x < |next| && x < |prev|
    ensures prev[x] == c.At(PrevLive(c.removed, x)) && next[x] == c.next[x] == c.At(NextLive(c.removed, x + 1))
  {
    LiveLinks(c, x);
  }

  lemma ClearingStep<K(!new), V>(c: Chain<K, V>, x: nat, index: map<K, MapEntry<K, V>>,
                                 removed: seq<bool>, prev: seq<MapEntry?<K, V>>, next: seq<MapEntry?<K, V>>, after: seq<MapEntry?<K, V>>)
    requires Clearing(c, x, index, removed, prev, next) && x < |c.es| == |after|
    requires forall i :: x <= i < |c.es| ==> after[i] == next[i]
    ensures x < |removed| && x < |prev|
    ensures Clearing(c, NextLive(c.removed, x + 1), index - {c.es[x].k}, removed[x := true], prev[x := null], after)
  {
    hide Chain.EntryOk, NextLive, PrevLive;
    ClearedStep(c, x);
    RemainingStep(c.es, c.removed, index, x);
  }

  lemma ClearingEnd<K(!new), V>(c: Chain<K, V>, x: nat, index: map<K, MapEntry<K, V>>,
                                removed: seq<bool>, prev: seq<MapEntry?<K, V>>, next: seq<MapEntry?<K, V>>)
    requires Clearing(c, x, index, removed, prev, next) && c.At(x) == null
    ensures removed == c.ClearedFlags(|c.es|) && prev == c.ClearedPrev(|c.es|) && index == map[]
  {
    NothingRemains(c.es, c.removed, index);
  }

  lemma RemainingStep<K(!new), V>(es: seq<MapEntry<K, V>>, removed: seq<bool>, index: map<K, MapEntry<K, V>>, x: nat)
    requires |removed| == |es| && x < |es| && Remaining(es, removed, index, x)
    ensures Remaining(es, removed, index - {es[x].k}, NextLive(removed, x + 1))
  {
    forall k | k in index - {es[x].k} ensures exists i :: NextLive(removed, x + 1) <= i < |es| && !removed[i] && es[i].k == k {
      var i :| x <= i < |es| && !removed[i] && es[i].k == k;
      assert i >= NextLive(removed, x + 1);
    }
  }

  lemma NothingRemains<K(!new), V>(es: seq<MapEntry<K, V>>, removed: seq<bool>, index: map<K, MapEntry<K, V>>)
    requires |removed| == |es| && Remaining(es, removed, index, |es|)
    ensures index == map[]
  {
  }

  /** The list, the index and the size agree. */
  ghost predicate Consistent<K(!new), V>(c: Chain<K, V>, frozen: K -> bool, loose: (K, K) -> bool,
                                         index: map<K, MapEntry<K, V>>, size: nat) {
    && c.Linked()
    && Indexed(c.es, c.removed, frozen, index)
    && size == LiveCount(c.removed)
    && forall k :: frozen(k) ==> loose(k, k)
  }

  lemma ClearedConsistent<K(!new), V>(c: Chain<K, V>, items: seq<(K, V)>, frozen: K -> bool, loose: (K, K) -> bool,
                                      index: map<K, MapEntry<K, V>>, size: nat, next: seq<MapEntry?<K, V>>)
    returns (back: seq<int>)
    requires Consistent(c, frozen, loose, index, size) && |next| == |c.es| == |items|
    ensures c.Sized()
    ensures Consistent(Chain(c.es, c.ClearedFlags(|c.es|), c.ClearedPrev(|c.es|), next, back, null, null), frozen, loose, map[], 0)
    ensures c.ClearedFlags(|c.es|) == seq(|c.es|, i => true) && Live(c.ClearedFlags(|c.es|), items) == []
  {
    back := ClearedLinked(c, next);
    NoneLive(c.ClearedFlags(|c.es|), items);
  }

  lemma IsLinked<K(!new), V>(c: Chain<K, V>, frozen: K -> bool, loose: (K, K) -> bool, index: map<K, MapEntry<K, V>>, size: nat)
    requires Consistent(c, frozen, loose, index, size)
    ensures c.Linked() && c.Sized()
  {
  }

  /** The appended chain agrees with the index and the size that count the new entry. */
  lemma AppendConsistent<K(!new), V>(c: Chain<K, V>, e: MapEntry<K, V>, frozen: K -> bool, loose: (K, K) -> bool,
                                     index: map<K, MapEntry<K, V>>, size: nat)
    requires Consistent(c, frozen, loose, index, size) && e !in c.es && c.Sized()
    requires forall i :: 0 <= i < |c.es| && !c.removed[i] ==> c.es[i].k != e.k
    ensures Consistent(c.Append(e), frozen, loose, if frozen(e.k) then index else index[e.k := e], size + 1)
    ensures c.Append(e).es == c.es + [e] && c.Append(e).removed == c.removed + [false]
  {
    hide Indexed, LiveCount, NextLive, PrevLive;
    AppendLinked(c, e);
    IndexAppend(c.es, c.removed, frozen, index, e);
    AppendCount(c.removed);
    hide Chain.Linked;
  }

  lemma AppendCount(removed: seq<bool>)
    ensures LiveCount(removed + [false]) == LiveCount(removed) + 1
  {
    LiveAppend(removed, removed, false);
  }

  class OrderedMap<K(==, !new), V> {
    var index: map<K, MapEntry<K, V>>
    var first: MapEntry?<K, V>
    var last: MapEntry?<K, V>
    var size: nat
    const frozen: K -> bool
    const loose: (K, K) -> bool
    ghost var created: seq<MapEntry<K, V>>  // every entry ever made, oldest first
    ghost var back: seq<int>                // the position each entry's `p` names, or -1

    ghost function TheChain(): Chain<K, V>
      reads this, created
    {
      Chain(created, RemovedOf(created), PrevOf(created), NextOf(created), back, first, last)
    }

    ghost function Removed(): (r: seq<bool>)
      reads this, created
      ensures |r| == |created|
    {
      RemovedOf(created)
    }

    ghost function Items(): (s: seq<(K, V)>)
      reads this, created
      ensures |s| == |created| && forall i :: 0 <= i < |s| ==> s[i].0 == created[i].k
    {
      ItemsOf(created)
    }

    /** The live bindings, in order of first insertion. */
    ghost function Bindings(): seq<(K, V)>
      reads this, created
    {
      Live(Removed(), Items())
    }

    ghost predicate Valid()
      reads this, created
    {
      Consistent(TheChain(), frozen, loose, index, size)
    }

    ghost function TheLog(): (log: Log<K, V>)
      reads this, created
      ensures log.Sized()
    {
      Log(Removed(), Items())
    }

    /** The entry getEntry finds for `k`, if any, is the first live one that matches. */
    ghost predicate Finds(k: K, x: int)
      reads this, created
    {
      FirstMatch(TheLog(), frozen, loose, k, x)
    }

    constructor (frozen: K -> bool, loose: (K, K) -> bool)
      requires forall k :: frozen(k) ==> loose(k, k)
      ensures Valid() && Bindings() == [] && created == [] && this.frozen == frozen && this.loose == loose
    {
      this.frozen, this.loose := frozen, loose;
      index, first, last, size, created, back := map[], null, null, 0, [], [];
    }

    /** Ordinary keys are found by the index, frozen ones along the list. */
    method GetEntry(k: K) returns (e: MapEntry?<K, V>, ghost x: int)
      requires Valid()
      ensures Finds(k, x) && e == TheChain().At(x)
      ensures var j := FindBinding(Bindings(), frozen, loose, k);
              if e == null then j == |Bindings()| else j < |Bindings()| && Bindings()[j] == (e.k, e.v)
    {
      hide NextLive, PrevLive, LiveCount, FindBinding;
      if frozen(k) {
        e, x := Scan(k);
      } else if k in index {
        e := index[k];
        assert Filed(created, Removed(), frozen, index, k);
        x :| 0 <= x < |created| && !Removed()[x] && created[x] == index[k] && created[x].k == k;
        BoundEntry(k, x);
      } else {
        e, x := null, -1;
        BoundEntry(k, x);
      }
    }

    /** The entry found holds the binding found. */
    lemma BoundEntry(k: K, x: int)
      requires Valid() && Finds(k, x)
      ensures var j, e := FindBinding(Bindings(), frozen, loose, k), TheChain().At(x);
              if e == null then j == |Bindings()| else j < |Bindings()| && Bindings()[j] == (e.k, e.v)
    {
      FoundBinding(k, x);
      if x >= 0 { LiveAt(Removed(), Items(), x); }
      hide Indexed, FindBinding, Live, LiveCount;
    }

    method Scan(k: K) returns (e: MapEntry?<K, V>, ghost x: int)
      requires Valid() && frozen(k)
      ensures Finds(k, x) && e == TheChain().At(x)
      ensures var j := FindBinding(Bindings(), frozen, loose, k);
              if e == null then j == |Bindings()| else j < |Bindings()| && Bindings()[j] == (e.k, e.v)
    {
      hide Indexed, NextLive, PrevLive, LiveCount, FindBinding;
      x := NextLive(Removed(), 0);
      e := first;
      while e != null
        invariant 0 <= x <= |created| && (x < |created| ==> !Removed()[x])
        invariant e == TheChain().At(x)
        invariant forall y :: 0 <= y < x && !Removed()[y] ==> !Matches(frozen, loose, created[y].k, k)
        decreases |created| - x
      {
        if loose(e.k, k) {
          BoundEntry(k, x);
          return;
        }
        assert TheChain().EntryOk(x);
        e, x := e.n, NextLive(Removed(), x + 1);
      }
      x := -1;
      BoundEntry(k, x);
    }

    lemma FoundBinding(k: K, x: int)
      requires Finds(k, x)
      ensures FindBinding(Bindings(), frozen, loose, k) == if x < 0 then |Bindings()| else LiveCount(Removed()[..x])
      ensures x >= 0 ==> LiveCount(Removed()[..x]) < |Bindings()|
    {
      if x >= 0 { LiveAt(Removed(), Items(), x); }
      FindIsFirst(Removed(), Items(), frozen, loose, k, x);
    }

    method Has(k: K) returns (found: bool)
      requires Valid()
      ensures found == (FindBinding(Bindings(), frozen, loose, k) < |Bindings()|)
    {
      ghost var x: int;
      var e: MapEntry?<K, V>;
      e, x := GetEntry(k);
      FoundBinding(k, x);
      found := e != null;
    }

    /** Unlinks the entry found for `k`; the bindings lose that one and keep their order. */
    method Delete(k: K) returns (found: bool, ghost at: int)
      requires Valid()
      modifies this, created
      ensures Valid() && created == old(created) && Items() == old(Items())
      ensures old(Finds(k, at)) && found == (at >= 0)
      ensures Removed() == if found then old(Removed())[at := true] else old(Removed())
      ensures var j := FindBinding(old(Bindings()), frozen, loose, k);
              found == (j < |old(Bindings())|) && Bindings() == if found then Without(old(Bindings()), j) else old(Bindings())
    {
      hide Indexed, NextLive, PrevLive, LiveCount, Live, FindBinding, Without;
      var e: MapEntry?<K, V>;
      e, at := GetEntry(k);
      FoundBinding(k, at);
      found := e != null;
      if found {
        assert 0 <= at < |created| && !Removed()[at];
        Unlink(e, at);
        LiveRemove(old(Removed()), Items(), at);
      }
    }

    method Unlink(e: MapEntry<K, V>, ghost at: nat)
      requires Valid() && at < |created| && !Removed()[at] && e == created[at]
      modifies this, created
      ensures Valid() && created == old(created) && Items() == old(Items())
      ensures Removed() == old(Removed())[at := true]
    {
      hide Indexed, NextLive, PrevLive, LiveCount, Chain.Linked, RemovedOf, PrevOf, NextOf, ItemsOf;
      ghost var c := TheChain();
      IndexDrop(created, Removed(), frozen, index, at);
      DropLinked(c, at);
      CountRemove(c.removed, at);
      index, size := index - {e.k}, size - 1;
      Splice(e, at);
    }

    /** The pointer surgery alone. */
    method Splice(e: MapEntry<K, V>, ghost at: nat)
      requires TheChain().Linked() && at < |created| && !Removed()[at] && e == created[at]
      modifies this`first, this`last, this`back, created
      ensures TheChain() == old(TheChain()).Drop(at) && Items() == old(Items())
    {
      hide NextLive, PrevLive, LiveCount, Chain.Linked, RemovedOf, PrevOf, NextOf, ItemsOf, Distinct;
      ghost var c := TheChain();
      LiveLinks(c, at);
      FieldsAt(created, at);
      var o, a := e.n, e.p;
      Detach(e, created, at, PrevLive(Removed(), at), NextLive(Removed(), at + 1));
      ghost var d := c.Drop(at);
      MoveEnds(if first == e then o else first, if last == e then a else last, d.back);
    }

    method MoveEnds(first: MapEntry?<K, V>, last: MapEntry?<K, V>, ghost back: seq<int>)
      modifies this`first, this`last, this`back
      ensures this.first == first && this.last == last && this.back == back
    {
      this.first, this.last, this.back := first, last, back;
    }

    /** Rebinds the entry found for `k`, or appends a new one; either way every other binding keeps its place. */
    method Def(k: K, v: V) returns (ghost at: int)
      requires Valid()
      modifies this, created
      ensures Valid() && old(Finds(k, at))
      ensures at >= 0 ==> created == old(created) && Removed() == old(Removed())
      ensures at < 0 ==> |created| == |old(created)| + 1 && fresh(created[|created| - 1]) && created[..|created| - 1] == old(created)
      ensures at < 0 ==> Removed() == old(Removed()) + [false] && Items() == old(Items()) + [(k, v)]
      ensures at >= 0 ==> Items() == old(Items())[at := (old(Items())[at].0, v)]
      ensures var j := FindBinding(old(Bindings()), frozen, loose, k);
              Bindings() == if j < |old(Bindings())| then old(Bindings())[j := (old(Bindings())[j].0, v)] else old(Bindings()) + [(k, v)]
    {
      hide Indexed, NextLive, PrevLive, LiveCount, Live, FindBinding, RemovedOf, PrevOf, NextOf, ItemsOf, Chain.Linked;
      var e: MapEntry?<K, V>;
      e, at := GetEntry(k);
      FoundBinding(k, at);
      if e != null {
        LiveAt(Removed(), Items(), at);
        Rebind(e, v, at);
        LiveUpdate(Removed(), old(Items()), at, (e.k, v));
      } else {
        Extend(k, v);
        LiveAppend(old(Removed()), old(Items()), (k, v));
      }
    }

    method Rebind(e: MapEntry<K, V>, v: V, ghost at: nat)
      requires Valid() && at < |created| && !Removed()[at] && e == created[at]
      modifies created
      ensures Valid() && Removed() == old(Removed())
      ensures Items() == old(Items())[at := (e.k, v)]
    {
      hide Indexed, NextLive, PrevLive, LiveCount, RemovedOf, PrevOf, NextOf, ItemsOf;
      SetValue(e, v, created, at);
    }

    /** Appends a new last entry. */
    method Extend(k: K, v: V)
      requires Valid() && forall i :: 0 <= i < |created| && !Removed()[i] ==> created[i].k != k
      modifies this, created
      ensures Valid() && |created| == |old(created)| + 1
      ensures fresh(created[|created| - 1]) && created[..|created| - 1] == old(created)
      ensures Removed() == old(Removed()) + [false] && Items() == old(Items()) + [(k, v)]
    {
      hide Consistent, Live, RemovedOf, PrevOf, NextOf, ItemsOf, Distinct, Chain.Linked;
      ghost var c := TheChain();
      IsLinked(c, frozen, loose, index, size);
      var e := Attach(k, v);
      AppendConsistent(c, e, frozen, loose, index, size);
      File(e, k);
    }

    /** The new entry enters the index, unless its key is frozen, and is counted. */
    method File(e: MapEntry<K, V>, k: K)
      modifies this`index, this`size
      ensures index == (if frozen(k) then old(index) else old(index)[k := e]) && size == old(size) + 1
    {
      if !frozen(k) { index := index[k := e]; }
      size := size + 1;
    }

    method Attach(k: K, v: V) returns (e: MapEntry<K, V>)
      requires TheChain().Linked()
      modifies this`first, this`last, this`back, this`created, created
      ensures fresh(e) && e.k == k && TheChain() == old(TheChain()).Append(e) && Items() == old(Items()) + [(k, v)]
    {
      hide NextLive, PrevLive, LiveCount, RemovedOf, PrevOf, NextOf, ItemsOf, Chain.EntryOk;
      ghost var c := TheChain();
      e := Follow(last, k, v, created, PrevLive(Removed(), |created|));
      AddLast(e, c.Append(e).back);
    }

    method AddLast(e: MapEntry<K, V>, ghost back: seq<int>)
      modifies this`first, this`last, this`back, this`created
      ensures this.first == (if old(first) == null then e else old(first)) && last == e && this.back == back && created == old(created) + [e]
    {
      this.last, this.back, created := e, back, created + [e];
      if first == null { first := e; }
    }

    /** Removes every entry, cutting the live ones loose from each other. */
    method Clear()
      requires Valid()
      modifies this, created
      ensures Valid() && created == old(created) && Items() == old(Items())
      ensures Removed() == seq(|created|, i => true) && Bindings() == []
    {
      hide Consistent, Live, RemovedOf, PrevOf, NextOf, ItemsOf;
      ghost var none := ClipAll();
      size := 0;
      MoveEnds(null, null, none);
    }

    method ClipAll() returns (ghost none: seq<int>)
      requires Valid()
      modifies this`index, created
      ensures Consistent(Chain(created, RemovedOf(created), PrevOf(created), NextOf(created), none, null, null), frozen, loose, map[], 0)
      ensures RemovedOf(created) == seq(|created|, i => true) && Live(RemovedOf(created), ItemsOf(created)) == []
      ensures ItemsOf(created) == old(Items()) && index == map[]
    {
      hide Consistent, Live, RemovedOf, PrevOf, NextOf, ItemsOf, Chain.ClearedFlags, Chain.ClearedPrev;
      ClipEach();
      none := ClearedConsistent(old(TheChain()), old(Items()), frozen, loose, old(index), size, NextOf(created));
    }

    method ClipEach()
      requires Valid()
      modifies this`index, created
      ensures old(TheChain()).Sized()
      ensures RemovedOf(created) == old(TheChain()).ClearedFlags(|created|) && PrevOf(created) == old(TheChain()).ClearedPrev(|created|)
      ensures ItemsOf(created) == old(Items()) && index == map[]
    {
      hide NextLive, PrevLive, LiveCount, RemovedOf, PrevOf, NextOf, ItemsOf, Clearing, Chain.EntryOk, Indexed,
        Chain.ClearedFlags, Chain.ClearedPrev;
      ghost var c := TheChain();
      ghost var items := Items();
      ghost var x := NextLive(Removed(), 0);
      var r := first;
      ClearingStart(c, frozen, index);
      while r != null
        invariant Clearing(c, x, index, RemovedOf(created), PrevOf(created), NextOf(created))
        invariant r == c.At(x) && ItemsOf(created) == items
        decreases |created| - x
      {
        ClearingAt(c, x, index, RemovedOf(created), PrevOf(created), NextOf(created));
        ghost var links := (index, RemovedOf(created), PrevOf(created), NextOf(created));
        index := index - {r.k};
        r := ClipOne(r, c, x);
        ClearingStep(c, x, links.0, links.1, links.2, links.3, NextOf(created));
        x := NextLive(c.removed, x + 1);
      }
      ClearingEnd(c, x, index, RemovedOf(created), PrevOf(created), NextOf(created));
    }

    static method ClipOne(r: MapEntry<K, V>, ghost c: Chain<K, V>, ghost x: nat) returns (n: MapEntry?<K, V>)
      requires c.Sized() && Distinct(c.es) && x < |c.es| && !c.removed[x] && r == c.es[x]
      requires PrevOf(c.es)[x] == c.At(PrevLive(c.removed, x)) && NextOf(c.es)[x] == c.next[x]
      modifies c.es
      ensures RemovedOf(c.es) == old(RemovedOf(c.es))[x := true] && PrevOf(c.es) == old(PrevOf(c.es))[x := null]
      ensures forall i :: x <= i < |c.es| ==> NextOf(c.es)[i] == old(NextOf(c.es))[i]
      ensures ItemsOf(c.es) == old(ItemsOf(c.es)) && n == c.next[x]
    {
      hide NextLive, PrevLive, RemovedOf, PrevOf, NextOf, ItemsOf;
      FieldsAt(c.es, x);
      Clip(r, c.es, x, PrevLive(c.removed, x));
      FieldsAt(c.es, x);
      n := r.n;
    }

    /** One edit by a callback. */
    method Perform(edit: Edit<K, V>)
      requires Valid()
      modifies this, created
      ensures Valid() && TheLog() == Apply(old(TheLog()), frozen, loose, edit)
      ensures old(created) <= created && forall i :: |old(created)| <= i < |created| ==> fresh(created[i])
    {
      hide Consistent, RemovedOf, ItemsOf, Live, FindBinding, FindFrom, FirstMatch;
      ghost var at: int;
      match edit
      case Define(k, v) =>
        at := Def(k, v);
        MatchFound(old(TheLog()), frozen, loose, k, at);
      case Remove(k) =>
        var found: bool;
        found, at := Delete(k);
        MatchFound(old(TheLog()), frozen, loose, k, at);
      case ClearAll => Clear();
    }

    method PerformAll(edits: seq<Edit<K, V>>)
      requires Valid()
      modifies this, created
      ensures Valid() && TheLog() == ApplyAll(old(TheLog()), frozen, loose, edits)
      ensures old(created) <= created && forall i :: |old(created)| <= i < |created| ==> fresh(created[i])
      decreases |edits|
    {
      hide Consistent, RemovedOf, ItemsOf, Apply;
      if edits != [] {
        Perform(edits[0]);
        PerformAll(edits[1..]);
      }
    }

    /** From the entry visited last (none at the start), back over removed entries and on to the next live one. */
    method Advance(visited: MapEntry?<K, V>, ghost pos: int) returns (n: MapEntry?<K, V>)
      requires Valid() && -1 <= pos < |created| && visited == TheChain().At(pos)
      ensures n == TheChain().At(NextLive(Removed(), pos + 1))
    {
      hide LiveCount, Indexed, NextLive, PrevLive;
      n := visited;
      ghost var x := pos;
      while n != null && n.r
        invariant PrevLive(Removed(), pos + 1) <= x <= pos && n == TheChain().At(x)
        decreases x + 1
      {
        assert TheChain().EntryOk(x);
        PrevBack(Removed(), pos + 1, x);
        n, x := n.p, back[x];
      }
      NextBack(Removed(), x, pos);
      if n != null {
        assert TheChain().EntryOk(x);
        n := n.n;
      } else {
        n := first;
      }
    }

    method CallAndAdvance(visited: MapEntry<K, V>, ghost pos: nat, edits: seq<Edit<K, V>>) returns (n: MapEntry?<K, V>)
      requires Valid() && pos < |created| && visited == created[pos]
      modifies this, created
      ensures Valid() && TheLog() == ApplyAll(old(TheLog()), frozen, loose, edits)
      ensures old(created) <= created && forall i :: |old(created)| <= i < |created| ==> fresh(created[i])
      ensures n == TheChain().At(NextLive(Removed(), pos + 1))
    {
      hide Consistent, RemovedOf, PrevOf, NextOf, ItemsOf, ApplyAll, NextLive;
      PerformAll(edits);
      n := Advance(visited, pos);
    }

    /** forEach under callbacks that edit the map: the bindings handed over, and the map left behind. */
    method ForEach(script: seq<seq<Edit<K, V>>>) returns (visits: seq<(K, V)>, ghost at: seq<nat>)
      requires Valid()
      modifies this, created
      ensures Valid() && Trip(at, visits, TheLog()) == Walk(old(TheLog()), frozen, loose, -1, script)
    {
      hide Consistent, RemovedOf, PrevOf, NextOf, ItemsOf, ApplyAll, NextLive, Walk, Onward, Rest, First;
      ghost var log := TheLog();
      ghost var pos := -1;
      var rest := script;
      visits, at := [], [];
      var n := Advance(null, pos);
      OnwardNone(Walk(log, frozen, loose, -1, script));
      while n != null
        invariant Valid() && -1 <= pos < |created| && old(created) <= created
        invariant forall i :: |old(created)| <= i < |created| ==> fresh(created[i])
        invariant n == TheChain().At(NextLive(Removed(), pos + 1))
        invariant Walk(log, frozen, loose, -1, script) == Onward(at, visits, Walk(TheLog(), frozen, loose, pos, rest))
        decreases |rest|, |created| - pos
      {
        WalkStep(TheLog(), frozen, loose, pos, rest, at, visits);
        pos := NextLive(Removed(), pos + 1);
        FieldsAt(created, pos);
        visits, at := visits + [(n.k, n.v)], at + [pos];
        n := CallAndAdvance(n, pos, First(rest));
        rest := Rest(rest);
      }
      WalkEnd(TheLog(), frozen, loose, pos, rest, at, visits);
    }
  }
}
