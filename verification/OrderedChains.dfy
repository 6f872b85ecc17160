/** The doubly linked list of the insertion-ordered map, as a value: removed entries still lead back to the entry
    an interrupted traversal must resume from. */
module OrderedChains {
  class MapEntry<K, V> {
    const k: K
    var v: V
    var p: MapEntry?<K, V>
    var n: MapEntry?<K, V>
    var r: bool  // removed

    constructor (k: K, v: V, p: MapEntry?<K, V>)
      ensures this.k == k && this.v == v && this.p == p && this.n == null && !r
    {
      this.k, this.v, this.p, this.n, this.r := k, v, p, null, false;
    }
  }

  // ----- the fields of a sequence of entries, as values

  ghost function RemovedOf<K, V>(es: seq<MapEntry<K, V>>): (s: seq<bool>)
    reads es
    ensures |s| == |es|
  {
    seq(|es|, i requires 0 <= i < |es| reads es => es[i].r)
  }

  ghost function PrevOf<K, V>(es: seq<MapEntry<K, V>>): (s: seq<MapEntry?<K, V>>)
    reads es
    ensures |s| == |es|
  {
    seq(|es|, i requires 0 <= i < |es| reads es => es[i].p)
  }

  ghost function NextOf<K, V>(es: seq<MapEntry<K, V>>): (s: seq<MapEntry?<K, V>>)
    reads es
    ensures |s| == |es|
  {
    seq(|es|, i requires 0 <= i < |es| reads es => es[i].n)
  }

  ghost function ItemsOf<K, V>(es: seq<MapEntry<K, V>>): (s: seq<(K, V)>)
    reads es
    ensures |s| == |es| && forall i :: 0 <= i < |es| ==> s[i].0 == es[i].k
  {
    seq(|es|, i requires 0 <= i < |es| reads es => (es[i].k, es[i].v))
  }

  ghost predicate Distinct<K, V>(es: seq<MapEntry<K, V>>) {
    forall i, j :: 0 <= i < j < |es| ==> es[i] != es[j]
  }

  lemma FieldsAt<K, V>(es: seq<MapEntry<K, V>>, x: nat)
    requires x < |es|
    ensures RemovedOf(es)[x] == es[x].r && PrevOf(es)[x] == es[x].p && NextOf(es)[x] == es[x].n && ItemsOf(es)[x].1 == es[x].v
  {
  }

  lemma FieldsAppended<K, V>(es: seq<MapEntry<K, V>>, e: MapEntry<K, V>)
    ensures RemovedOf(es + [e]) == RemovedOf(es) + [e.r] && PrevOf(es + [e]) == PrevOf(es) + [e.p]
    ensures NextOf(es + [e]) == NextOf(es) + [e.n] && ItemsOf(es + [e]) == ItemsOf(es) + [(e.k, e.v)]
  {
  }

  method SetRemoved<K, V>(e: MapEntry<K, V>, ghost es: seq<MapEntry<K, V>>, ghost x: nat)
    requires Distinct(es) && x < |es| && e == es[x]
    modifies e
    ensures RemovedOf(es) == old(RemovedOf(es))[x := true]
    ensures PrevOf(es) == old(PrevOf(es)) && NextOf(es) == old(NextOf(es)) && ItemsOf(es) == old(ItemsOf(es))
  {
    e.r := true;
  }

  method SetNext<K, V>(e: MapEntry<K, V>, n: MapEntry?<K, V>, ghost es: seq<MapEntry<K, V>>, ghost x: nat)
    requires Distinct(es) && x < |es| && e == es[x]
    modifies e
    ensures NextOf(es) == old(NextOf(es))[x := n]
    ensures RemovedOf(es) == old(RemovedOf(es)) && PrevOf(es) == old(PrevOf(es)) && ItemsOf(es) == old(ItemsOf(es))
  {
    e.n := n;
  }

  method SetPrev<K, V>(e: MapEntry<K, V>, p: MapEntry?<K, V>, ghost es: seq<MapEntry<K, V>>, ghost x: nat)
    requires Distinct(es) && x < |es| && e == es[x]
    modifies e
    ensures PrevOf(es) == old(PrevOf(es))[x := p]
    ensures RemovedOf(es) == old(RemovedOf(es)) && NextOf(es) == old(NextOf(es)) && ItemsOf(es) == old(ItemsOf(es))
  {
    e.p := p;
  }

  /** Unlinks `e`: its neighbours point past it, and its own links stay. */
  method Detach<K, V>(e: MapEntry<K, V>, ghost es: seq<MapEntry<K, V>>, ghost at: nat, ghost before: int, ghost after: nat)
    requires Distinct(es) && at < |es| && e == es[at] && -1 <= before < at < after <= |es|
    requires e.p == (if before >= 0 then es[before] else null) && e.n == if after < |es| then es[after] else null
    modifies es
    ensures RemovedOf(es) == old(RemovedOf(es))[at := true] && ItemsOf(es) == old(ItemsOf(es))
    ensures NextOf(es) == if before >= 0 then old(NextOf(es))[before := old(e.n)] else old(NextOf(es))
    ensures PrevOf(es) == if after < |es| then old(PrevOf(es))[after := old(e.p)] else old(PrevOf(es))
  {
    hide RemovedOf, PrevOf, NextOf, ItemsOf;
    var o, a := e.n, e.p;
    SetRemoved(e, es, at);
    if a != null { SetNext(a, o, es, before); }
    if o != null { SetPrev(o, a, es, after); }
  }

  /** Makes an entry that follows `r`. */
  method Follow<K, V>(r: MapEntry?<K, V>, k: K, v: V, ghost es: seq<MapEntry<K, V>>, ghost x: int) returns (e: MapEntry<K, V>)
    requires Distinct(es) && (r != null ==> 0 <= x < |es| && r == es[x])
    modifies es
    ensures fresh(e) && e.k == k && RemovedOf(es + [e]) == old(RemovedOf(es)) + [false]
    ensures ItemsOf(es + [e]) == old(ItemsOf(es)) + [(k, v)] && PrevOf(es + [e]) == old(PrevOf(es)) + [r]
    ensures NextOf(es + [e]) == (if r != null then old(NextOf(es))[x := e] else old(NextOf(es))) + [null]
  {
    hide RemovedOf, PrevOf, NextOf, ItemsOf;
    e := new MapEntry(k, v, r);
    if r != null { SetNext(r, e, es, x); }
    FieldsAppended(es, e);
  }

  /** Marks `e` removed and cuts it off from the entry before it. */
  method Clip<K, V>(e: MapEntry<K, V>, ghost es: seq<MapEntry<K, V>>, ghost x: nat, ghost before: int)
    requires Distinct(es) && x < |es| && e == es[x] && -1 <= before < x
    requires e.p == if before >= 0 then es[before] else null
    modifies es
    ensures RemovedOf(es) == old(RemovedOf(es))[x := true] && ItemsOf(es) == old(ItemsOf(es))
    ensures PrevOf(es) == old(PrevOf(es))[x := null]
    ensures NextOf(es) == if before >= 0 then old(NextOf(es))[before := null] else old(NextOf(es))
  {
    FieldsAt(es, x);
    hide RemovedOf, PrevOf, NextOf, ItemsOf;
    SetRemoved(e, es, x);
    if e.p != null {
      SetNext(e.p, null, es, before);
      SetPrev(e, null, es, x);
    }
  }

  method SetValue<K, V>(e: MapEntry<K, V>, v: V, ghost es: seq<MapEntry<K, V>>, ghost x: nat)
    requires Distinct(es) && x < |es| && e == es[x]
    modifies e
    ensures ItemsOf(es) == old(ItemsOf(es))[x := (e.k, v)]
    ensures RemovedOf(es) == old(RemovedOf(es)) && NextOf(es) == old(NextOf(es)) && PrevOf(es) == old(PrevOf(es))
  {
    e.v := v;
  }

  // ----- positions of live entries, from the removed flags in order of creation

  /** The first live position at or after `i`, or the length. */
  function NextLive(removed: seq<bool>, i: nat): (j: nat)
    requires i <= |removed|
    ensures i <= j <= |removed|
    ensures j < |removed| ==> !removed[j]
    ensures forall x :: i <= x < j ==> removed[x]
    decreases |removed| - i
  {
    if i == |removed| || !removed[i] then i else NextLive(removed, i + 1)
  }

  /** The last live position before `i`, or -1. */
  function PrevLive(removed: seq<bool>, i: nat): (j: int)
    requires i <= |removed|
    ensures -1 <= j < i
    ensures j >= 0 ==> !removed[j]
    ensures forall x :: j < x < i ==> removed[x]
  {
    if i == 0 then -1 else if !removed[i - 1] then i - 1 else PrevLive(removed, i - 1)
  }

  function LiveCount(removed: seq<bool>): nat {
    if removed == [] then 0 else LiveCount(removed[..|removed| - 1]) + if removed[|removed| - 1] then 0 else 1
  }

  /** The bindings, in order of first insertion. */
  function Live<T>(removed: seq<bool>, items: seq<T>): seq<T>
    requires |removed| == |items|
  {
    if items == [] then []
    else Live(removed[..|removed| - 1], items[..|items| - 1]) + if removed[|removed| - 1] then [] else [items[|items| - 1]]
  }

  lemma {:induction false} LiveSize<T>(removed: seq<bool>, items: seq<T>)
    requires |removed| == |items|
    ensures |Live(removed, items)| == LiveCount(removed)
  {
    if items != [] { LiveSize(removed[..|removed| - 1], items[..|items| - 1]); }
  }

  /** The live item at position `x` sits at the number of live positions before `x`. */
  lemma {:induction false} LiveAt<T>(removed: seq<bool>, items: seq<T>, x: nat)
    requires |removed| == |items| && x < |removed| && !removed[x]
    ensures var rank := LiveCount(removed[..x]); rank < |Live(removed, items)| && Live(removed, items)[rank] == items[x]
  {
    var last := |removed| - 1;
    LiveSize(removed[..last], items[..last]);
    if x == last {
      assert removed[..x] == removed[..last];
    } else {
      assert removed[..last][..x] == removed[..x];
      LiveAt(removed[..last], items[..last], x);
    }
  }

  lemma {:induction false} LiveSource<T>(removed: seq<bool>, items: seq<T>, j: nat) returns (x: nat)
    requires |removed| == |items| && j < |Live(removed, items)|
    ensures x < |removed| && !removed[x] && LiveCount(removed[..x]) == j && items[x] == Live(removed, items)[j]
  {
    var last := |removed| - 1;
    LiveSize(removed[..last], items[..last]);
    if j < |Live(removed[..last], items[..last])| {
      x := LiveSource(removed[..last], items[..last], j);
      assert removed[..last][..x] == removed[..x];
    } else {
      x := last;
    }
  }

  lemma {:induction false} LiveUpdate<T>(removed: seq<bool>, items: seq<T>, x: nat, item: T)
    requires |removed| == |items| && x < |removed| && !removed[x]
    ensures LiveCount(removed[..x]) < |Live(removed, items)|
    ensures Live(removed, items[x := item]) == Live(removed, items)[LiveCount(removed[..x]) := item]
  {
    LiveAt(removed, items, x);
    var last := |removed| - 1;
    LiveSize(removed[..last], items[..last]);
    if x == last {
      assert items[x := item][..last] == items[..last];
    } else {
      assert items[x := item][..last] == items[..last][x := item];
      assert removed[..last][..x] == removed[..x];
      LiveUpdate(removed[..last], items[..last], x, item);
    }
  }

  function Without<T>(s: seq<T>, j: nat): seq<T>
    requires j < |s|
  {
    s[..j] + s[j + 1..]
  }

  lemma WithoutOfAppend<T>(s: seq<T>, t: seq<T>, j: nat)
    requires j < |s|
    ensures Without(s + t, j) == Without(s, j) + t
  {
  }

  lemma {:induction false} LiveRemove<T>(removed: seq<bool>, items: seq<T>, x: nat)
    requires |removed| == |items| && x < |removed| && !removed[x]
    ensures LiveCount(removed[..x]) < |Live(removed, items)|
    ensures Live(removed[x := true], items) == Without(Live(removed, items), LiveCount(removed[..x]))
  {
    LiveAt(removed, items, x);
    var last := |removed| - 1;
    LiveSize(removed[..last], items[..last]);
    if x == last {
      assert removed[x := true][..last] == removed[..last];
    } else {
      hide Without;
      assert removed[x := true][..last] == removed[..last][x := true];
      assert removed[..last][..x] == removed[..x];
      LiveRemove(removed[..last], items[..last], x);
      WithoutOfAppend(Live(removed[..last], items[..last]), if removed[last] then [] else [items[last]], LiveCount(removed[..x]));
    }
  }

  lemma {:induction false} CountRemove(removed: seq<bool>, x: nat)
    requires x < |removed| && !removed[x]
    ensures LiveCount(removed[x := true]) == LiveCount(removed) - 1
  {
    var last := |removed| - 1;
    if x == last {
      assert removed[x := true][..last] == removed[..last];
    } else {
      assert removed[x := true][..last] == removed[..last][x := true];
      CountRemove(removed[..last], x);
    }
  }

  lemma LiveAppend<T>(removed: seq<bool>, items: seq<T>, item: T)
    requires |removed| == |items|
    ensures Live(removed + [false], items + [item]) == Live(removed, items) + [item]
    ensures LiveCount(removed + [false]) == LiveCount(removed) + 1
  {
    assert (removed + [false])[..|removed|] == removed;
    assert (items + [item])[..|items|] == items;
  }

  lemma {:induction false} NoneLive<T>(removed: seq<bool>, items: seq<T>)
    requires |removed| == |items| && forall x :: 0 <= x < |removed| ==> removed[x]
    ensures Live(removed, items) == [] && LiveCount(removed) == 0
  {
    if items != [] { NoneLive(removed[..|removed| - 1], items[..|items| - 1]); }
  }

  lemma {:induction false} RankMonotone(removed: seq<bool>, x: nat, y: nat)
    requires x < y <= |removed| && !removed[x]
    ensures LiveCount(removed[..x]) < LiveCount(removed[..y])
  {
    assert removed[..y][..y - 1] == removed[..y - 1];
    if x < y - 1 { RankMonotone(removed, x, y - 1); }
  }

  // ----- lookup

  predicate Matches<K(==)>(frozen: K -> bool, loose: (K, K) -> bool, stored: K, k: K) {
    if frozen(k) then loose(stored, k) else stored == k
  }

  /** getEntry on the live bindings: ordinary keys are found by the index; a frozen key is sought along the list
      with loose equality. */
  function FindBinding<K(==), V>(bindings: seq<(K, V)>, frozen: K -> bool, loose: (K, K) -> bool, k: K): (j: nat)
    ensures j <= |bindings|
    ensures j < |bindings| ==> Matches(frozen, loose, bindings[j].0, k)
    ensures forall i :: 0 <= i < j ==> !Matches(frozen, loose, bindings[i].0, k)
  {
    if bindings == [] || Matches(frozen, loose, bindings[0].0, k) then 0
    else
      var j := FindBinding(bindings[1..], frozen, loose, k);
      assert forall i :: 0 < i < j + 1 ==> bindings[i] == bindings[1..][i - 1];
      j + 1
  }

  /** The first live match is where FindBinding points; without one it points past the end. */
  lemma FindIsFirst<K, V>(removed: seq<bool>, items: seq<(K, V)>, frozen: K -> bool, loose: (K, K) -> bool, k: K, x: int)
    requires |removed| == |items| && -1 <= x < |removed|
    requires x >= 0 ==> !removed[x] && Matches(frozen, loose, items[x].0, k)
    requires forall y :: 0 <= y < (if x < 0 then |removed| else x) && !removed[y] ==> !Matches(frozen, loose, items[y].0, k)
    ensures FindBinding(Live(removed, items), frozen, loose, k)
         == if x < 0 then |Live(removed, items)| else LiveCount(removed[..x])
  {
    var live := Live(removed, items);
    var j := FindBinding(live, frozen, loose, k);
    if x >= 0 { LiveAt(removed, items, x); }
    if j < |live| {
      var y := LiveSource(removed, items, j);
      if x >= 0 && y > x { RankMonotone(removed, x, y); }
    }
  }

  // ----- the linked list as a value

  /** Every entry ever made, oldest first, with what its fields hold; `back` is the position `p` names, or -1. */
  datatype Chain<K, V> = Chain(es: seq<MapEntry<K, V>>, removed: seq<bool>, prev: seq<MapEntry?<K, V>>, next: seq<MapEntry?<K, V>>,
                               back: seq<int>, first: MapEntry?<K, V>, last: MapEntry?<K, V>)
  {
    function At(i: int): MapEntry?<K, V> {
      if 0 <= i < |es| then es[i] else null
    }

    ghost predicate Sized() {
      |removed| == |prev| == |next| == |back| == |es|
    }

    /** Live entries are linked in order; a removed entry leads back past removed entries only. */
    ghost predicate Linked() {
      && Sized() && Distinct(es)
      && first == At(NextLive(removed, 0)) && last == At(PrevLive(removed, |es|))
      && forall i :: 0 <= i < |es| ==> EntryOk(i)
    }

    ghost predicate EntryOk(i: nat)
      requires Sized() && i < |es|
    {
      BackOk(i) && (!removed[i] ==> next[i] == At(NextLive(removed, i + 1)))
    }

    ghost predicate BackOk(i: nat)
      requires Sized() && i < |es|
    {
      && -1 <= back[i] < i && PrevLive(removed, i) <= back[i] && prev[i] == At(back[i])
      && (!removed[i] ==> back[i] == PrevLive(removed, i))
    }

    /** The chain with the live entry at `x` unlinked. */
    ghost function Drop(x: nat): Chain<K, V>
      requires Sized() && x < |es|
    {
      var o, a := NextLive(removed, x + 1), PrevLive(removed, x);
      this.(removed := removed[x := true],
            next := if a >= 0 then next[a := next[x]] else next,
            prev := if o < |es| then prev[o := prev[x]] else prev,
            back := if o < |es| then back[o := a] else back,
            first := if first == es[x] then next[x] else first,
            last := if last == es[x] then prev[x] else last)
    }

    /** How far `clear` has got when it stands at the live position `x`. */
    ghost function ClearedFlags(x: nat): seq<bool>
      requires Sized()
    {
      seq(|es|, i requires 0 <= i < |es| => removed[i] || i < x)
    }

    ghost function ClearedPrev(x: nat): seq<MapEntry?<K, V>>
      requires Sized()
    {
      seq(|es|, i requires 0 <= i < |es| => if i < x && !removed[i] then null else prev[i])
    }

    /** The chain with a new last entry. */
    ghost function Append(e: MapEntry<K, V>): Chain<K, V>
      requires Sized()
    {
      var a := PrevLive(removed, |es|);
      Chain(es + [e], removed + [false], prev + [last], (if a >= 0 then next[a := e] else next) + [null], back + [a],
            if first == null then e else first, e)
    }
  }

  lemma NextIs(removed: seq<bool>, i: nat, j: nat)
    requires i <= j <= |removed| && (j < |removed| ==> !removed[j]) && forall x :: i <= x < j ==> removed[x]
    ensures NextLive(removed, i) == j
  {
  }

  lemma PrevIs(removed: seq<bool>, i: nat, j: int)
    requires -1 <= j < i <= |removed| && (j >= 0 ==> !removed[j]) && forall x :: j < x < i ==> removed[x]
    ensures PrevLive(removed, i) == j
  {
  }

  lemma NextDropped(removed: seq<bool>, x: nat, i: nat)
    requires x < |removed| && !removed[x] && i <= |removed|
    ensures NextLive(removed[x := true], i) == if NextLive(removed, i) == x then NextLive(removed, x + 1) else NextLive(removed, i)
  {
    hide NextLive;
    NextIs(removed[x := true], i, if NextLive(removed, i) == x then NextLive(removed, x + 1) else NextLive(removed, i));
  }

  lemma PrevDropped(removed: seq<bool>, x: nat, i: nat)
    requires x < |removed| && !removed[x] && i <= |removed|
    ensures PrevLive(removed[x := true], i) == if PrevLive(removed, i) == x then PrevLive(removed, x) else PrevLive(removed, i)
  {
    hide PrevLive;
    PrevIs(removed[x := true], i, if PrevLive(removed, i) == x then PrevLive(removed, x) else PrevLive(removed, i));
  }

  /** The neighbours of a live position point at each other. */
  lemma Neighbours(removed: seq<bool>, i: nat, x: nat)
    requires i < |removed| && x < |removed| && !removed[i] && !removed[x]
    ensures NextLive(removed, i + 1) == x <==> PrevLive(removed, x) == i
  {
    if PrevLive(removed, x) == i { NextIs(removed, i + 1, x); }
    if NextLive(removed, i + 1) == x { PrevIs(removed, x, i); }
  }

  lemma DropBack<K, V>(c: Chain<K, V>, x: nat, i: nat)
    requires c.Sized() && x < |c.es| && !c.removed[x] && i < |c.es| && c.BackOk(x) && c.BackOk(i)
    ensures c.Drop(x).Sized() && c.Drop(x).BackOk(i)
  {
    hide NextLive, PrevLive;
    PrevDropped(c.removed, x, i);
    if !c.removed[i] { Neighbours(c.removed, x, i); }
  }

  lemma DropNext<K, V>(c: Chain<K, V>, x: nat, i: nat)
    requires c.Sized() && x < |c.es| && !c.removed[x] && i < |c.es| && i != x && !c.removed[i] && c.EntryOk(x) && c.EntryOk(i)
    ensures c.Drop(x).Sized() && c.Drop(x).next[i] == c.At(NextLive(c.Drop(x).removed, i + 1))
  {
    hide NextLive, PrevLive;
    NextDropped(c.removed, x, i + 1);
    Neighbours(c.removed, i, x);
  }

  lemma DropEntry<K, V>(c: Chain<K, V>, x: nat, i: nat)
    requires c.Sized() && x < |c.es| && !c.removed[x] && i < |c.es| && c.EntryOk(x) && c.EntryOk(i)
    ensures c.Drop(x).Sized() && c.Drop(x).EntryOk(i)
  {
    hide NextLive, PrevLive, Chain.BackOk;
    DropBack(c, x, i);
    if i != x && !c.removed[i] { DropNext(c, x, i); }
  }

  /** A live entry's links name its live neighbours. */
  lemma LiveLinks<K, V>(c: Chain<K, V>, x: nat)
    requires c.Linked() && x < |c.es| && !c.removed[x]
    ensures c.Sized() && Distinct(c.es)
    ensures c.prev[x] == c.At(PrevLive(c.removed, x)) && c.next[x] == c.At(NextLive(c.removed, x + 1))
  {
    assert c.EntryOk(x);
  }

  lemma DropLinked<K, V>(c: Chain<K, V>, x: nat)
    requires c.Linked() && x < |c.es| && !c.removed[x]
    ensures c.Drop(x).Linked()
  {
    var d := c.Drop(x);
    forall i | 0 <= i < |c.es| ensures d.EntryOk(i) {
      DropEntry(c, x, i);
    }
    DropEnds(c, x);
  }

  lemma DropEnds<K, V>(c: Chain<K, V>, x: nat)
    requires c.Linked() && x < |c.es| && !c.removed[x]
    ensures var d := c.Drop(x); d.first == d.At(NextLive(d.removed, 0)) && d.last == d.At(PrevLive(d.removed, |d.es|))
  {
    hide NextLive, PrevLive;
    NextDropped(c.removed, x, 0);
    PrevDropped(c.removed, x, |c.es|);
    assert c.EntryOk(x);
  }

  lemma NextAppended(removed: seq<bool>, i: nat)
    requires i <= |removed|
    ensures NextLive(removed + [false], i) == NextLive(removed, i)
    ensures NextLive(removed + [false], |removed| + 1) == |removed| + 1
  {
    hide NextLive;
    NextIs(removed + [false], i, NextLive(removed, i));
  }

  lemma PrevAppended(removed: seq<bool>, i: nat)
    requires i <= |removed|
    ensures PrevLive(removed + [false], i) == PrevLive(removed, i)
    ensures PrevLive(removed + [false], |removed| + 1) == |removed|
  {
    hide PrevLive;
    PrevIs(removed + [false], i, PrevLive(removed, i));
    PrevIs(removed + [false], |removed| + 1, |removed|);
  }

  lemma LastLive(removed: seq<bool>, i: nat)
    requires i < |removed| && !removed[i]
    ensures NextLive(removed, i + 1) == |removed| <==> PrevLive(removed, |removed|) == i
  {
    if NextLive(removed, i + 1) == |removed| { PrevIs(removed, |removed|, i); }
    if PrevLive(removed, |removed|) == i { NextIs(removed, i + 1, |removed|); }
  }

  lemma AppendEntry<K, V>(c: Chain<K, V>, e: MapEntry<K, V>, i: nat)
    requires c.Sized() && c.last == c.At(PrevLive(c.removed, |c.es|)) && i <= |c.es| && (i < |c.es| ==> c.EntryOk(i))
    ensures c.Append(e).Sized() && c.Append(e).EntryOk(i)
  {
    hide NextLive, PrevLive;
    PrevAppended(c.removed, i);
    NextAppended(c.removed, if i < |c.es| then i + 1 else i);
    if i < |c.es| && !c.removed[i] { LastLive(c.removed, i); }
  }

  lemma AppendLinked<K, V>(c: Chain<K, V>, e: MapEntry<K, V>)
    requires c.Linked() && e !in c.es
    ensures c.Append(e).Linked()
  {
    hide NextLive, PrevLive;
    var d := c.Append(e);
    NextAppended(c.removed, 0);
    PrevAppended(c.removed, |c.es|);
    forall i | 0 <= i < |d.es| ensures d.EntryOk(i) {
      AppendEntry(c, e, i);
    }
  }

  lemma ClearedStart<K, V>(c: Chain<K, V>)
    requires c.Sized()
    ensures c.ClearedFlags(NextLive(c.removed, 0)) == c.removed && c.ClearedPrev(NextLive(c.removed, 0)) == c.prev
  {
  }

  lemma ClearedStep<K, V>(c: Chain<K, V>, x: nat)
    requires c.Sized() && x < |c.es| && !c.removed[x]
    ensures var y := NextLive(c.removed, x + 1);
            c.ClearedFlags(y) == c.ClearedFlags(x)[x := true] && c.ClearedPrev(y) == c.ClearedPrev(x)[x := null]
  {
  }

  /** After `clear` every entry is removed, and leads back to none or to an entry removed before it. */
  lemma ClearedLinked<K, V>(c: Chain<K, V>, next: seq<MapEntry?<K, V>>) returns (back: seq<int>)
    requires c.Linked() && |next| == |c.es|
    ensures c.Sized() && Chain(c.es, c.ClearedFlags(|c.es|), c.ClearedPrev(|c.es|), next, back, null, null).Linked()
  {
    back := seq(|c.es|, i requires 0 <= i < |c.es| => if c.removed[i] then c.back[i] else -1);
    var d := Chain(c.es, c.ClearedFlags(|c.es|), c.ClearedPrev(|c.es|), next, back, null, null);
    NextIs(d.removed, 0, |c.es|);
    PrevIs(d.removed, |c.es|, -1);
    forall i | 0 <= i < |c.es| ensures d.EntryOk(i) {
      assert c.EntryOk(i);
      PrevIs(d.removed, i, -1);
    }
  }
}
