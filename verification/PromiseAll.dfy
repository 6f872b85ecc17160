/** Promise.all: one counter, one slot per element, and handlers that may be called early, late or repeatedly. */
module PromiseAll {
  import opened Options

  /** The iteration reaches an element; an element's handler is called; the iteration ends. */
  datatype Event<V> = Add | Report(k: nat, v: V) | Close

  /** What has been resolved so far, in `resolved`. */
  datatype Round<V> = Round(values: seq<Option<V>>, called: seq<bool>, remaining: int, open: bool, resolved: seq<seq<Option<V>>>)

  function Missing(called: seq<bool>): nat {
    if called == [] then 0 else Missing(called[..|called| - 1]) + if called[|called| - 1] then 0 else 1
  }

  function Down<V>(r: Round<V>): Round<V> {
    var s := r.(remaining := r.remaining - 1);
    if s.remaining == 0 then s.(resolved := s.resolved + [s.values]) else s
  }

  function Step<V>(r: Round<V>, e: Event<V>): Round<V> {
    match e
    case Add => if r.open then r.(values := r.values + [None], called := r.called + [false], remaining := r.remaining + 1) else r
    case Report(k, v) =>
      if k >= |r.called| || k >= |r.values| || r.called[k] then r
      else Down(r.(called := r.called[k := true], values := r.values[k := Some(v)]))
    case Close => if r.open then Down(r.(open := false)) else r
  }

  function Run<V>(events: seq<Event<V>>): Round<V> {
    if events == [] then Round([], [], 1, true, []) else Step(Run(events[..|events| - 1]), events[|events| - 1])
  }

  // ----- what the events say, read without the counter

  predicate Ended<V>(events: seq<Event<V>>) {
    events != [] && (events[|events| - 1].Close? || Ended(events[..|events| - 1]))
  }

  /** The elements reached before the iteration ended. */
  function Elements<V>(events: seq<Event<V>>): nat {
    if events == [] then 0
    else
      var front := events[..|events| - 1];
      Elements(front) + if events[|events| - 1].Add? && !Ended(front) then 1 else 0
  }

  /** The first value reported for element `k` once it had been reached. */
  function First<V>(events: seq<Event<V>>, k: nat): Option<V> {
    if events == [] then None
    else
      var front, e := events[..|events| - 1], events[|events| - 1];
      if First(front, k).None? && k < Elements(front) && e.Report? && e.k == k then Some(e.v) else First(front, k)
  }

  ghost predicate Settled<V>(events: seq<Event<V>>) {
    Ended(events) && forall k :: 0 <= k < Elements(events) ==> First(events, k).Some?
  }

  lemma {:induction false} MissingSet(called: seq<bool>, k: nat)
    requires k < |called| && !called[k]
    ensures Missing(called[k := true]) == Missing(called) - 1
  {
    var last := |called| - 1;
    if k == last {
      assert called[k := true][..last] == called[..last];
    } else {
      assert called[k := true][..last] == called[..last][k := true];
      MissingSet(called[..last], k);
    }
  }

  lemma {:induction false} MissingNone(called: seq<bool>)
    ensures Missing(called) == 0 <==> forall k :: 0 <= k < |called| ==> called[k]
  {
    if called != [] {
      MissingNone(called[..|called| - 1]);
    }
  }

  lemma MissingAdd(called: seq<bool>)
    ensures Missing(called + [false]) == Missing(called) + 1
  {
    assert (called + [false])[..|called|] == called;
  }

  /** The round's fields, read off the events. */
  ghost predicate Tracks<V>(r: Round<V>, events: seq<Event<V>>) {
    && (r.open <==> !Ended(events))
    && |r.values| == |r.called| == Elements(events)
    && (forall k :: 0 <= k < |r.values| ==> r.values[k] == First(events, k) && (r.called[k] <==> r.values[k].Some?))
    && r.remaining == Missing(r.called) + (if r.open then 1 else 0)
    && r.resolved == (if r.remaining == 0 then [r.values] else [])
  }

  lemma {:induction false} FirstBeyond<V>(events: seq<Event<V>>, k: nat)
    requires k >= Elements(events)
    ensures First(events, k) == None
  {
    if events != [] { FirstBeyond(events[..|events| - 1], k); }
  }

  /** How one more event changes what the events say. */
  lemma Extend<V>(events: seq<Event<V>>, e: Event<V>, k: nat)
    ensures Ended(events + [e]) == (e.Close? || Ended(events))
    ensures Elements(events + [e]) == Elements(events) + if e.Add? && !Ended(events) then 1 else 0
    ensures First(events + [e], k) ==
            if First(events, k).None? && k < Elements(events) && e.Report? && e.k == k then Some(e.v) else First(events, k)
  {
    assert (events + [e])[..|events|] == events;
  }

  lemma AddTracks<V>(r: Round<V>, events: seq<Event<V>>)
    requires Tracks(r, events)
    ensures Tracks(Step(r, Add), events + [Add])
  {
    hide Ended, Elements, First, Missing;
    var all := events + [Add];
    MissingAdd(r.called);
    FirstBeyond(events, Elements(events));
    Extend(events, Add, 0);
    forall k: nat ensures First(all, k) == First(events, k) {
      Extend(events, Add, k);
    }
  }

  lemma CloseTracks<V>(r: Round<V>, events: seq<Event<V>>)
    requires Tracks(r, events)
    ensures Tracks(Step(r, Close), events + [Close])
  {
    hide Ended, Elements, First, Missing;
    var all := events + [Close];
    Extend(events, Close, 0);
    forall k: nat ensures First(all, k) == First(events, k) {
      Extend(events, Close, k);
    }
  }

  lemma ReportTracks<V>(r: Round<V>, events: seq<Event<V>>, k: nat, v: V)
    requires Tracks(r, events)
    ensures Tracks(Step(r, Report(k, v)), events + [Report(k, v)])
  {
    hide Ended, Elements, First, Missing;
    var all := events + [Report(k, v)];
    if k < |r.called| && !r.called[k] { MissingSet(r.called, k); }
    MissingNone(r.called);
    Extend(events, Report(k, v), k);
    forall i: nat ensures First(all, i) == if i == k && First(events, i).None? && i < Elements(events) then Some(v) else First(events, i) {
      Extend(events, Report(k, v), i);
    }
  }

  lemma {:induction false} RunTracks<V>(events: seq<Event<V>>)
    ensures Tracks(Run(events), events)
  {
    hide Tracks, Step;
    if events == [] {
      NothingTracks<V>();
    } else {
      var front, e := events[..|events| - 1], events[|events| - 1];
      RunTracks(front);
      assert events == front + [e];
      match e
      case Add => AddTracks(Run(front), front);
      case Report(k, v) => ReportTracks(Run(front), front, k, v);
      case Close => CloseTracks(Run(front), front);
    }
  }

  lemma NothingTracks<V>()
    ensures Tracks(Run<V>([]), [])
  {
  }

  /** `all` resolves exactly when the iteration has ended and every element has reported; it does so once, and the
      value at index k is the first one element k reported, whatever is reported before, in between or afterwards. */
  lemma ResolvesOnce<V>(events: seq<Event<V>>)
    ensures Run(events).resolved != [] <==> Settled(events)
    ensures Settled(events) ==> |Run(events).resolved| == 1
    ensures Settled(events) ==>
              var result := Run(events).resolved[0];
              |result| == Elements(events) && forall k :: 0 <= k < |result| ==> result[k] == First(events, k) && result[k].Some?
  {
    RunTracks(events);
    var r := Run(events);
    MissingNone(r.called);
    hide Run, Missing;
  }

  /** The closure variables of one call of `all`. */
  class Combiner<V> {
    var values: seq<Option<V>>
    var called: seq<bool>
    var remaining: int
    ghost var open: bool
    ghost var resolved: seq<seq<Option<V>>>

    ghost function Now(): Round<V>
      reads this
    {
      Round(values, called, remaining, open, resolved)
    }

    constructor ()
      ensures Now() == Run([])
    {
      values, called, remaining, open, resolved := [], [], 1, true, [];
    }

    /** The iteration reaches an element, and learns its index. */
    method Reach() returns (k: nat)
      requires open && |called| == |values|
      modifies this
      ensures Now() == Step(old(Now()), Add) && k == |old(values)|
    {
      k := |values|;
      values, called := values + [None], called + [false];
      remaining := remaining + 1;
    }

    method OnFulfilled(k: nat, v: V)
      requires k < |called| == |values|
      modifies this
      ensures Now() == Step(old(Now()), Report(k, v))
    {
      if !called[k] {
        called, values := called[k := true], values[k := Some(v)];
        remaining := remaining - 1;
        if remaining == 0 { resolved := resolved + [values]; }
      }
    }

    method EndIteration()
      requires open
      modifies this
      ensures Now() == Step(old(Now()), Close)
    {
      open := false;
      remaining := remaining - 1;
      if remaining == 0 { resolved := resolved + [values]; }
    }
  }
}
