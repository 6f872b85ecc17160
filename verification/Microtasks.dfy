/** The microtask list behind promises: a linked list with a head and a last entry, flushed by a host callback that may be
    scheduled more than once. */
module Microtasks {

  // ----- the reference: what has been queued, how much of it has started, and what is scheduled

  datatype State<T> = State(enqueued: seq<T>, started: nat, busy: bool, flushes: nat)

  /** A task is queued; a scheduled flush begins; the running task returns or throws. */
  datatype Event<T> = Enqueue(task: T) | Flush | Returns | Throws

  predicate Left<T>(s: State<T>) {
    s.started < |s.enqueued|
  }

  /** The loop of a flush: the next task, or its end. */
  function Proceed<T>(s: State<T>): State<T> {
    if Left(s) then s.(started := s.started + 1, busy := true) else s.(busy := false)
  }

  function Step<T>(s: State<T>, e: Event<T>): State<T> {
    match e
    case Enqueue(task) => s.(enqueued := s.enqueued + [task], flushes := s.flushes + if Left(s) then 0 else 1)
    case Flush => if s.busy || s.flushes == 0 then s else Proceed(s.(flushes := s.flushes - 1))
    case Returns => if s.busy then Proceed(s) else s
    case Throws => if s.busy then s.(busy := false, flushes := s.flushes + if Left(s) then 1 else 0) else s
  }

  function Run<T>(events: seq<Event<T>>): State<T> {
    if events == [] then State([], 0, false, 0) else Step(Run(events[..|events| - 1]), events[|events| - 1])
  }

  /** The tasks that have been queued in a run. */
  function Queued<T>(events: seq<Event<T>>): seq<T> {
    if events == [] then []
    else
      var last := events[|events| - 1];
      Queued(events[..|events| - 1]) + if last.Enqueue? then [last.task] else []
  }

  /** How often a task has been handed control: once for each step of a flush that found one. */
  function Starts<T>(events: seq<Event<T>>): seq<T> {
    if events == [] then []
    else
      var s, t := Run(events[..|events| - 1]), Run(events);
      Starts(events[..|events| - 1]) + if t.started > s.started && s.started < |s.enqueued| then [s.enqueued[s.started]] else []
  }

  /** Tasks start in the order they were queued, none twice, whatever throws and whatever is queued meanwhile; when no
      flush is scheduled and no task runs, all have started. */
  lemma {:induction false} StartsInOrder<T>(events: seq<Event<T>>)
    ensures var s := Run(events);
            && s.enqueued == Queued(events) && s.started <= |s.enqueued| && Starts(events) == Queued(events)[..s.started]
            && (Left(s) ==> s.busy || s.flushes > 0)
            && (!s.busy && s.flushes == 0 ==> Starts(events) == Queued(events))
  {
    if events != [] {
      var front, last := events[..|events| - 1], events[|events| - 1];
      StartsInOrder(front);
      StartsStep(Queued(front), Run(front), last);
    }
  }

  lemma StartsStep<T>(queued: seq<T>, s: State<T>, e: Event<T>)
    requires s.enqueued == queued && s.started <= |queued| && (Left(s) ==> s.busy || s.flushes > 0)
    ensures var t := Step(s, e);
            && t.enqueued == queued + (if e.Enqueue? then [e.task] else [])
            && s.started <= t.started <= |t.enqueued| && (Left(t) ==> t.busy || t.flushes > 0)
            && t.enqueued[..t.started]
               == queued[..s.started] + if t.started > s.started && s.started < |s.enqueued| then [s.enqueued[s.started]] else []
  {
  }

  // ----- the list

  class Entry<T> {
    const fn: T
    var next: Entry?<T>

    constructor (fn: T)
      ensures this.fn == fn && next == null
    {
      this.fn := fn;
      next := null;
    }
  }

  function Fns<T>(entries: seq<Entry<T>>): (fns: seq<T>)
    ensures |fns| == |entries| && forall i :: 0 <= i < |entries| ==> fns[i] == entries[i].fn
  {
    seq(|entries|, i requires 0 <= i < |entries| => entries[i].fn)
  }

  function At<T>(entries: seq<Entry<T>>, i: nat): Entry?<T> {
    if i < |entries| then entries[i] else null
  }

  class Queue<T> {
    var head: Entry?<T>
    var last: Entry?<T>
    var busy: bool
    var scheduled: nat
    ghost var entries: seq<Entry<T>>
    ghost var started: nat

    /** The entries from `started` on hang on `head`; `last`, if set, is the newest entry, started or not. */
    ghost predicate Valid()
      reads this, entries
    {
      && started <= |entries|
      && (forall i, j :: 0 <= i < j < |entries| ==> entries[i] != entries[j])
      && head == At(entries, started)
      && (if last == null then started == |entries| else entries != [] && last == entries[|entries| - 1])
      && forall i :: started <= i < |entries| ==> entries[i].next == At(entries, i + 1)
    }

    ghost function Now(): State<T>
      reads this
    {
      State(Fns(entries), started, busy, scheduled)
    }

    constructor ()
      ensures Valid() && Now() == Run([])
    {
      head, last, busy, scheduled, entries, started := null, null, false, 0, [], 0;
    }

    /** Appends to the list; only an empty one schedules a flush. */
    method Enqueue(fn: T)
      requires Valid()
      modifies this, last
      ensures Valid() && Now() == Step(old(Now()), Event.Enqueue(fn))
    {
      var task := new Entry(fn);
      if last != null { last.next := task; }
      if head == null {
        head := task;
        scheduled := scheduled + 1;
      }
      last := task;
      entries := entries + [task];
    }

    /** The loop of a flush, up to the next task, which it returns. */
    method Loop() returns (next: Entry?<T>)
      requires Valid()
      modifies this
      ensures Valid() && entries == old(entries) && Now() == Proceed(old(Now()))
      ensures if busy then old(started) < |entries| && next == entries[old(started)] else next == null
    {
      hide Fns;
      next := head;
      if head != null {
        assert head == entries[started] && head.next == At(entries, started + 1);
        head := head.next;
        started, busy := started + 1, true;
      } else {
        last, busy := null, false;
      }
    }

    /** The host runs a scheduled flush. */
    method Flush() returns (next: Entry?<T>)
      requires Valid() && !busy && scheduled > 0
      modifies this
      ensures Valid() && Now() == Step(old(Now()), Event.Flush)
    {
      scheduled := scheduled - 1;
      next := Loop();
    }

    /** The running task throws: what is left is scheduled anew. */
    method Threw()
      requires Valid() && busy
      modifies this
      ensures Valid() && Now() == Step(old(Now()), Throws)
    {
      if head != null {
        scheduled := scheduled + 1;
      } else {
        last := null;
      }
      busy := false;
    }
  }
}
