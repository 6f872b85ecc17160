/** The least-recently-used queue: ids filed under ever larger ticks, and a scan for the oldest tick still in use. */
module LruQueues {
  import opened Options

  // ----- the order, as a sequence

  /** The ids without the first `id`. */
  function Dropped<Id(==)>(order: seq<Id>, id: Id): seq<Id> {
    if order == [] then [] else if order[0] == id then order[1..] else [order[0]] + Dropped(order[1..], id)
  }

  /** The order after `id` has been used, before anything is evicted. */
  function Touched<Id(==)>(order: seq<Id>, id: Id): seq<Id> {
    Dropped(order, id) + [id]
  }

  lemma {:induction false} DroppedAt<Id>(order: seq<Id>, p: nat)
    requires p < |order| && forall i :: 0 <= i < p ==> order[i] != order[p]
    ensures Dropped(order, order[p]) == order[..p] + order[p + 1..]
  {
    if p > 0 { DroppedAt(order[1..], p - 1); }
  }

  lemma {:induction false} DroppedAbsent<Id>(order: seq<Id>, id: Id)
    requires id !in order
    ensures Dropped(order, id) == order
  {
    if order != [] { DroppedAbsent(order[1..], id); }
  }

  // ----- the tables, as values

  ghost predicate Rising(ticks: seq<nat>) {
    forall i, j :: 0 <= i < j < |ticks| ==> ticks[i] < ticks[j]
  }

  /** `ticks` lists the keys of `queue` in order, and `index` is its inverse. */
  ghost predicate Filed<Id(!new)>(queue: map<nat, Id>, index: map<Id, nat>, ticks: seq<nat>) {
    && Rising(ticks)
    && (forall t :: t in queue <==> t in ticks)
    && (forall id :: id in index ==> index[id] in queue && queue[index[id]] == id)
    && (forall t :: t in queue ==> queue[t] in index && index[queue[t]] == t)
  }

  ghost function OrderOf<Id>(queue: map<nat, Id>, ticks: seq<nat>): (order: seq<Id>)
    requires forall t :: t in ticks ==> t in queue
    ensures |order| == |ticks|
  {
    seq(|ticks|, i requires 0 <= i < |ticks| => queue[ticks[i]])
  }

  /** The ids in the order are those in the index, each once. */
  lemma OrderIds<Id(!new)>(queue: map<nat, Id>, index: map<Id, nat>, ticks: seq<nat>)
    requires Filed(queue, index, ticks)
    ensures var order := OrderOf(queue, ticks);
            && (forall id :: id in index <==> id in order)
            && forall i, j :: 0 <= i < j < |order| ==> order[i] != order[j]
  {
    var order := OrderOf(queue, ticks);
    forall id | id in index ensures id in order {
      var i :| 0 <= i < |ticks| && ticks[i] == index[id];
      assert order[i] == id;
    }
    forall i, j | 0 <= i < j < |order| ensures order[i] != order[j] {
      assert ticks[i] in queue && ticks[j] in queue;
    }
  }

  /** Unfiling an id. */
  lemma Unfile<Id(!new)>(queue: map<nat, Id>, index: map<Id, nat>, ticks: seq<nat>, p: nat)
    requires Filed(queue, index, ticks) && p < |ticks|
    ensures var rest, id := ticks[..p] + ticks[p + 1..], queue[ticks[p]];
            && Filed(queue - {ticks[p]}, index - {id}, rest)
            && OrderOf(queue - {ticks[p]}, rest) == Dropped(OrderOf(queue, ticks), id)
  {
    OrderIds(queue, index, ticks);
    UnfileTicks(queue, index, ticks, p);
    var order, rest := OrderOf(queue, ticks), ticks[..p] + ticks[p + 1..];
    DroppedAt(order, p);
    hide Dropped;
    var after := OrderOf(queue - {ticks[p]}, rest);
    forall i | 0 <= i < |rest| ensures after[i] == (order[..p] + order[p + 1..])[i] {
      if i >= p { assert rest[i] == ticks[i + 1]; }
    }
  }

  lemma UnfileTicks<Id(!new)>(queue: map<nat, Id>, index: map<Id, nat>, ticks: seq<nat>, p: nat)
    requires Filed(queue, index, ticks) && p < |ticks|
    ensures Filed(queue - {ticks[p]}, index - {queue[ticks[p]]}, ticks[..p] + ticks[p + 1..])
  {
    var rest, t := ticks[..p] + ticks[p + 1..], ticks[p];
    assert forall i :: 0 <= i < |rest| ==> rest[i] == if i < p then ticks[i] else ticks[i + 1];
    forall x ensures x in queue - {t} <==> x in rest {
      if x in queue - {t} {
        var i :| 0 <= i < |ticks| && ticks[i] == x;
        assert x == rest[if i < p then i else i - 1];
      }
    }
  }

  /** Filing an id that is not there under a new tick. */
  lemma File<Id(!new)>(queue: map<nat, Id>, index: map<Id, nat>, ticks: seq<nat>, tick: nat, id: Id)
    requires Filed(queue, index, ticks) && id !in index && forall i :: 0 <= i < |ticks| ==> ticks[i] < tick
    ensures Filed(queue[tick := id], index[id := tick], ticks + [tick])
    ensures OrderOf(queue[tick := id], ticks + [tick]) == OrderOf(queue, ticks) + [id]
  {
    var more := ticks + [tick];
    assert more[|ticks|] == tick && forall i :: 0 <= i < |ticks| ==> more[i] == ticks[i];
    forall t ensures t in queue[tick := id] <==> t in more {
      if t in queue { assert t in ticks; }
      if t in more && t != tick {
        var i :| 0 <= i < |more| && more[i] == t;
        assert ticks[i] == t;
      }
    }
    assert Rising(more);
  }

  /** Filing a known id under a new tick. */
  lemma Refile<Id(!new)>(queue: map<nat, Id>, index: map<Id, nat>, ticks: seq<nat>, tick: nat, p: nat, id: Id)
    requires Filed(queue, index, ticks) && p < |ticks| && id in index && ticks[p] == index[id]
    requires forall i :: 0 <= i < |ticks| ==> ticks[i] < tick
    ensures var rest := ticks[..p] + ticks[p + 1..] + [tick];
            && Filed(queue[tick := id] - {ticks[p]}, index[id := tick], rest)
            && OrderOf(queue[tick := id] - {ticks[p]}, rest) == Touched(OrderOf(queue, ticks), id)
  {
    assert ticks[p] in queue && queue[ticks[p]] == id && forall t :: t in ticks ==> t in queue;
    hide Filed, OrderOf;
    Unfile(queue, index, ticks, p);
    File(queue - {ticks[p]}, index - {id}, ticks[..p] + ticks[p + 1..], tick, id);
    assert queue[tick := id] - {ticks[p]} == (queue - {ticks[p]})[tick := id];
    assert index[id := tick] == (index - {id})[id := tick];
  }

  class LruQueue<Id(==, !new)> {
    const limit: nat
    var size: nat
    var base: nat
    var tick: nat
    var queue: map<nat, Id>
    var index: map<Id, nat>
    ghost var ticks: seq<nat>

    ghost predicate Valid()
      reads this
    {
      && limit > 0 && size == |ticks| <= limit && Settled()
      && (size == 0 ==> tick == 0)
    }

    /** The tables fit, and `base` is the oldest tick in use. */
    ghost predicate Settled()
      reads this
    {
      && Filed(queue, index, ticks)
      && (forall i :: 0 <= i < |ticks| ==> ticks[i] <= tick)
      && base == if ticks == [] then 1 else ticks[0]
    }

    /** The ids, least recently used first. */
    ghost function Order(): seq<Id>
      requires Filed(queue, index, ticks)
      reads this
    {
      OrderOf(queue, ticks)
    }

    constructor (limit: nat)
      requires limit > 0
      ensures Valid() && Order() == [] && this.limit == limit
    {
      this.limit := limit;
      size, base, tick, queue, index, ticks := 0, 1, 0, map[], map[], [];
    }

    /** `for(;!has(queue,++base););` finds the oldest tick in use. */
    method Scan()
      requires Filed(queue, index, ticks) && ticks != [] && base < ticks[0]
      modifies this`base
      ensures base == ticks[0]
    {
      base := base + 1;
      while base !in queue
        invariant base <= ticks[0]
        decreases ticks[0] - base
      {
        base := base + 1;
      }
    }

    /** Forgets `id`. */
    method Delete(id: Id)
      requires limit > 0 && size == |ticks| && Settled() && (size == 0 ==> tick == 0)
      modifies this
      ensures limit > 0 && size == |ticks| && Settled() && (size == 0 ==> tick == 0)
      ensures Order() == Dropped(old(Order()), id) && tick <= old(tick)
    {
      hide Filed, OrderOf, Dropped;
      OrderIds(queue, index, ticks);
      if id !in index {
        DroppedAbsent(Order(), id);
        return;
      }
      var t := index[id];
      ghost var p := PlaceOf(queue, index, ticks, id);
      Remove(id, t, p);
      if base == t { Rebase(); }
    }

    static lemma PlaceOf(queue: map<nat, Id>, index: map<Id, nat>, ticks: seq<nat>, id: Id) returns (p: nat)
      requires Filed(queue, index, ticks) && id in index
      ensures p < |ticks| && ticks[p] == index[id]
    {
      p :| 0 <= p < |ticks| && ticks[p] == index[id];
    }

    /** The oldest tick has gone: start afresh, or look for the next one. */
    method Rebase()
      requires Filed(queue, index, ticks) && size == |ticks| && (ticks != [] ==> base < ticks[0])
      modifies this`tick, this`base
      ensures base == (if ticks == [] then 1 else ticks[0]) && tick == if ticks == [] then 0 else old(tick)
    {
      if size == 0 {
        tick, base := 0, 1;
      } else {
        Scan();
      }
    }

    method Remove(id: Id, t: nat, ghost p: nat)
      requires Filed(queue, index, ticks) && id in index && p < |ticks| == size && ticks[p] == t == index[id]
      modifies this`queue, this`index, this`size, this`ticks
      ensures Filed(queue, index, ticks) && Order() == Dropped(old(Order()), id)
      ensures size == |ticks| == |old(ticks)| - 1 && ticks == old(ticks)[..p] + old(ticks)[p + 1..]
      ensures Rising(old(ticks))
    {
      Unfile(queue, index, ticks, p);
      hide Filed, OrderOf, Dropped;
      queue, index, size := queue - {t}, index - {id}, size - 1;
      ticks := ticks[..p] + ticks[p + 1..];
    }

    /** `id` has been used: it is now the most recent, and when that makes one too many the least recent is evicted. */
    method Hit(id: Id) returns (evicted: Option<Id>)
      requires Valid()
      modifies this
      ensures Valid()
      ensures var touched := Touched(old(Order()), id);
              if |touched| <= limit then evicted == None && Order() == touched
              else evicted == Some(touched[0]) && Order() == touched[1..] && touched[0] != id && touched[0] in old(Order())
    {
      hide Filed, OrderOf, Dropped;
      OrderIds(queue, index, ticks);
      if id !in index {
        DroppedAbsent(Order(), id);
        Add(id);
        if size <= limit { return None; }
        evicted := Evict();
      } else {
        Refresh(id);
        evicted := None;
      }
    }

    /** Files a new id under the next tick. */
    method Add(id: Id)
      requires Settled() && id !in index && size == |ticks| && (size == 0 ==> tick == 0)
      modifies this
      ensures Settled() && size == |ticks| && Order() == old(Order()) + [id] && |ticks| == |old(ticks)| + 1
    {
      hide Filed, OrderOf;
      Store(id);
    }

    method Store(id: Id)
      requires Filed(queue, index, ticks) && id !in index && size == |ticks|
      requires forall i :: 0 <= i < |ticks| ==> ticks[i] <= tick
      modifies this`tick, this`queue, this`index, this`ticks, this`size
      ensures Filed(queue, index, ticks) && Order() == old(Order()) + [id] && size == |ticks|
      ensures tick == old(tick) + 1 && ticks == old(ticks) + [tick]
    {
      File(queue, index, ticks, tick + 1, id);
      hide Filed, OrderOf;
      tick := tick + 1;
      queue, index, ticks := queue[tick := id], index[id := tick], ticks + [tick];
      size := size + 1;
    }

    /** Deletes the id under the oldest tick. */
    method Evict() returns (evicted: Option<Id>)
      requires Settled() && size == |ticks| == limit + 1 && limit > 0
      modifies this
      ensures Valid() && evicted == Some(old(Order())[0]) && Order() == old(Order())[1..]
    {
      FirstOf(queue, ticks);
      var oldest := queue[base];
      hide Filed, OrderOf;
      Delete(oldest);
      evicted := Some(oldest);
    }

    static lemma FirstOf(queue: map<nat, Id>, ticks: seq<nat>)
      requires ticks != [] && forall t :: t in ticks ==> t in queue
      ensures OrderOf(queue, ticks)[0] == queue[ticks[0]]
    {
    }

    /** Files a known id under the next tick. */
    method Refresh(id: Id)
      requires Settled() && id in index && size == |ticks|
      modifies this`tick, this`queue, this`index, this`ticks, this`base
      ensures Settled() && size == |ticks| == |old(ticks)| && ticks != [] && Order() == Touched(old(Order()), id)
    {
      hide OrderOf, Touched, Filed;
      var t := index[id];
      ghost var p := PlaceOf(queue, index, ticks, id);
      MovedTicks(queue, index, ticks, tick, p);
      var stale := base == t;
      Move(id, t, p);
      if stale { Scan(); }
    }

    /** One tick moves to the end: the first one stays first, unless it is the one that moves. */
    static lemma MovedTicks(queue: map<nat, Id>, index: map<Id, nat>, ticks: seq<nat>, tick: nat, p: nat)
      requires Filed(queue, index, ticks) && p < |ticks| && forall i :: 0 <= i < |ticks| ==> ticks[i] <= tick
      ensures var moved := ticks[..p] + ticks[p + 1..] + [tick + 1];
              && |moved| == |ticks| && (forall i :: 0 <= i < |moved| ==> moved[i] <= tick + 1)
              && if ticks[0] == ticks[p] then moved[0] > ticks[0] else moved[0] == ticks[0]
    {
    }

    method Move(id: Id, t: nat, ghost p: nat)
      requires Filed(queue, index, ticks) && id in index && p < |ticks| && ticks[p] == t == index[id]
      requires forall i :: 0 <= i < |ticks| ==> ticks[i] <= tick
      modifies this`tick, this`queue, this`index, this`ticks
      ensures Filed(queue, index, ticks) && Order() == Touched(old(Order()), id)
      ensures tick == old(tick) + 1 && ticks == old(ticks)[..p] + old(ticks)[p + 1..] + [tick]
    {
      hide OrderOf, Touched;
      ghost var rest := ticks[..p] + ticks[p + 1..] + [tick + 1];
      var moved, found := queue[tick + 1 := id] - {t}, index[id := tick + 1];
      Refile(queue, index, ticks, tick + 1, p, id);
      assert Filed(moved, found, rest) && OrderOf(moved, rest) == Touched(OrderOf(queue, ticks), id);
      hide *;
      Become(tick + 1, moved, found, rest);
    }

    method Become(tick: nat, queue: map<nat, Id>, index: map<Id, nat>, ghost ticks: seq<nat>)
      modifies this`tick, this`queue, this`index, this`ticks
      ensures this.tick == tick && this.queue == queue && this.index == index && this.ticks == ticks
    {
      this.tick, this.queue, this.index, this.ticks := tick, queue, index, ticks;
    }

    method Clear()
      requires limit > 0
      modifies this
      ensures Valid() && Order() == []
    {
      size, base, tick, queue, index, ticks := 0, 1, 0, map[], map[], [];
    }
  }
}
