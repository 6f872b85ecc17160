/** The task queue behind nextTick: a drain that tasks may extend, and that resumes behind a task that throws. */
module NextTicks {
  import opened Options

  /** The module's variables, the loop of a drain under way (`busy`), the timers it has set, and what has happened. */
  datatype State<T> = State(
    queue: seq<T>, draining: bool, current: Option<seq<T>>, index: int, busy: bool,
    drainTimers: nat, cleanupTimers: nat, enqueued: seq<T>, ran: seq<T>)

  /** A call of nextTick; the timer of a drain or of the clean-up fires; the running task returns or throws. */
  datatype Event<T> = Enqueue(task: T) | DrainTimer | CleanupTimer | Returns | Throws

  function Fresh<T>(): State<T> {
    State([], false, None, -1, false, 0, 0, [], [])
  }

  /** The loop of the drain, from where the last task ended: the next task, the next queue, or the end. */
  function Loop<T>(s: State<T>): State<T> {
    if s.current.None? then s
    else if -1 <= s.index && s.index + 1 < |s.current.value| then
      s.(index := s.index + 1, busy := true, ran := s.ran + [s.current.value[s.index + 1]])
    else if s.queue != [] then
      s.(current := Some(s.queue), queue := [], index := 0, busy := true, ran := s.ran + [s.queue[0]])
    else
      s.(index := -1, current := None, draining := false, busy := false,
         cleanupTimers := if s.cleanupTimers > 0 then s.cleanupTimers - 1 else 0)
  }

  /** drainQueue; it does not reset the index it finds. */
  function Drain<T>(s: State<T>): State<T> {
    if s.draining then s
    else
      var t := s.(cleanupTimers := s.cleanupTimers + 1, draining := true);
      if t.queue == [] then Loop(t.(current := Some([]), index := -1)) else Loop(t.(current := Some(t.queue), queue := []))
  }

  function Step<T>(s: State<T>, e: Event<T>): State<T> {
    match e
    case Enqueue(task) =>
      s.(queue := s.queue + [task], enqueued := s.enqueued + [task],
         drainTimers := if s.queue == [] && !s.draining then s.drainTimers + 1 else s.drainTimers)
    case DrainTimer => if s.busy || s.drainTimers == 0 then s else Drain(s.(drainTimers := s.drainTimers - 1))
    case CleanupTimer =>
      if s.busy || s.cleanupTimers == 0 then s
      else
        var t := s.(cleanupTimers := s.cleanupTimers - 1);
        if !t.draining || t.current.None? then t
        else
          var u := if t.current.value != [] then t.(draining := false, queue := t.current.value + t.queue)
                   else t.(draining := false, index := -1);
          if u.queue != [] then Drain(u) else u
    case Returns => if s.busy then Loop(s) else s
    case Throws => s.(busy := false)
  }

  function Run<T>(s: State<T>, events: seq<Event<T>>): State<T> {
    if events == [] then s else Step(Run(s, events[..|events| - 1]), events[|events| - 1])
  }

  // ----- the invariant

  /** What is still to run, in order. */
  function Remaining<T>(s: State<T>): seq<T> {
    if s.draining && s.current.Some? && -1 <= s.index < |s.current.value| then s.current.value[s.index + 1..] + s.queue
    else s.queue
  }

  ghost predicate Inv<T>(s: State<T>) {
    && s.enqueued == s.ran + Remaining(s)
    && s.cleanupTimers == (if s.draining then 1 else 0)
    && (s.busy ==> s.draining)
    && (s.draining ==> s.current.Some? && 0 <= s.index < |s.current.value|)
    && (!s.draining ==> s.current.None? && s.index == -1)
    && (!s.draining && s.queue != [] ==> s.drainTimers > 0)
  }

  /** Between tasks, with a queue in hand and the loop standing behind the task at `index`. */
  ghost predicate Mid<T>(s: State<T>) {
    && s.draining && s.current.Some? && -1 <= s.index < |s.current.value|
    && s.enqueued == s.ran + Remaining(s) && s.cleanupTimers == 1
  }

  lemma LoopInv<T>(s: State<T>)
    requires Mid(s)
    ensures Inv(Loop(s))
  {
    var t := Loop(s);
    if s.index + 1 < |s.current.value| {
      assert s.current.value[s.index + 1..] == [s.current.value[s.index + 1]] + s.current.value[s.index + 2..];
      assert s.enqueued == s.ran + [s.current.value[s.index + 1]] + (s.current.value[s.index + 2..] + s.queue);
    } else if s.queue != [] {
      assert s.current.value[s.index + 1..] == [];
      assert s.queue == [s.queue[0]] + s.queue[1..];
      assert t.enqueued == t.ran + (s.queue[1..] + []);
    } else {
      assert s.current.value[s.index + 1..] + s.queue == [];
    }
  }

  /** A drain of a nonempty queue that starts behind the task at `index`. */
  lemma DrainInv<T>(s: State<T>)
    requires !s.draining && s.queue != [] && -1 <= s.index < |s.queue| && s.cleanupTimers == 0
    requires s.enqueued == s.ran + s.queue[s.index + 1..]
    ensures Inv(Drain(s))
  {
    var t := s.(cleanupTimers := 1, draining := true, current := Some(s.queue), queue := []);
    assert s.queue[s.index + 1..] + [] == s.queue[s.index + 1..];
    LoopInv(t);
  }

  lemma DrainTimerInv<T>(s: State<T>)
    requires Inv(s)
    ensures Inv(Step(s, DrainTimer))
  {
    if !s.busy && s.drainTimers > 0 && !s.draining {
      var t := s.(drainTimers := s.drainTimers - 1);
      if t.queue == [] {
        assert t.ran + [] == t.ran;
      } else {
        assert t.queue[0..] == t.queue;
        DrainInv(t);
      }
    }
  }

  /** The clean-up puts the current queue back in front; the index still points at the task that threw. */
  lemma CleanupInv<T>(s: State<T>)
    requires Inv(s)
    ensures Inv(Step(s, CleanupTimer))
  {
    if !s.busy && s.draining {
      var current := s.current.value;
      var u := s.(cleanupTimers := 0, draining := false, queue := current + s.queue);
      assert u.queue[u.index + 1..] == current[s.index + 1..] + s.queue;
      DrainFromStale(u);
      DrainInv(u);
    }
  }

  /** What `current` holds before a drain of a nonempty queue does not matter. */
  lemma DrainFromStale<T>(s: State<T>)
    requires !s.draining && s.queue != []
    ensures Drain(s) == Drain(s.(current := None))
  {
  }

  lemma StepInv<T>(s: State<T>, e: Event<T>)
    requires Inv(s)
    ensures Inv(Step(s, e))
  {
    hide Loop, Drain;
    match e
    case Enqueue(task) =>
      if s.draining {
        var rest := s.current.value[s.index + 1..];
        assert rest + s.queue + [task] == rest + (s.queue + [task]);
      }
      assert s.ran + Remaining(s) + [task] == s.ran + (Remaining(s) + [task]);
    case DrainTimer => DrainTimerInv(s);
    case CleanupTimer => CleanupInv(s);
    case Returns => if s.busy { LoopInv(s); }
    case Throws =>
  }

  lemma {:induction false} RunInv<T>(events: seq<Event<T>>)
    ensures Inv(Run(Fresh(), events))
  {
    hide Inv, Step;
    if events == [] {
      FreshInv<T>();
    } else {
      RunInv(events[..|events| - 1]);
      StepInv(Run(Fresh(), events[..|events| - 1]), events[|events| - 1]);
    }
  }

  lemma FreshInv<T>()
    ensures Inv(Fresh<T>())
  {
  }

  /** Tasks start in the order they were queued and none starts twice; when no timer is pending and no task runs, all
      have started. A throwing task only delays the ones behind it. */
  lemma RunsInOrder<T>(events: seq<Event<T>>)
    ensures var s := Run(Fresh(), events);
            && s.ran <= s.enqueued
            && (!s.busy && s.drainTimers == 0 && s.cleanupTimers == 0 ==> s.ran == s.enqueued)
  {
    RunInv(events);
    hide Run;
    var s := Run(Fresh(), events);
    assert s.enqueued[..|s.ran|] == s.ran;
  }

  class TickQueue<T> {
    var queue: seq<T>
    var draining: bool
    var current: Option<seq<T>>
    var index: int
    ghost var busy: bool
    ghost var drainTimers: nat
    ghost var cleanupTimers: nat
    ghost var enqueued: seq<T>
    ghost var ran: seq<T>

    ghost function Now(): State<T>
      reads this
    {
      State(queue, draining, current, index, busy, drainTimers, cleanupTimers, enqueued, ran)
    }

    constructor ()
      ensures Now() == Fresh()
    {
      queue, draining, current, index, busy, drainTimers, cleanupTimers, enqueued, ran := [], false, None, -1, false, 0, 0, [], [];
    }

    method NextTick(task: T)
      modifies this
      ensures Now() == Step(old(Now()), Enqueue(task))
    {
      queue := queue + [task];
      enqueued := enqueued + [task];
      if |queue| == 1 && !draining { drainTimers := drainTimers + 1; }
    }

    /** Runs on to the next task, which it returns, or ends the drain. */
    method Loop() returns (next: Option<T>)
      requires Inv(Now()) && busy
      modifies this
      ensures Inv(Now()) && Now() == Step(old(Now()), Returns)
      ensures if busy then next.Some? && ran == old(ran) + [next.value] else next.None? && ran == old(ran)
    {
      StepInv(Now(), Event<T>.Returns);
      index := index + 1;
      if index < |current.value| {
        next := Some(current.value[index]);
        ran := ran + [current.value[index]];
      } else if queue != [] {
        current, queue, index := Some(queue), [], 0;
        next := Some(current.value[0]);
        ran := ran + [current.value[0]];
      } else {
        current, draining, index := None, false, -1;
        busy, cleanupTimers := false, cleanupTimers - 1;
        next := None;
      }
    }

    /** The running task throws: the drain is left as it stands. */
    method Threw()
      requires Inv(Now()) && busy
      modifies this`busy
      ensures Inv(Now()) && Now() == Step(old(Now()), Throws)
    {
      StepInv(Now(), Event<T>.Throws);
      hide Inv;
      busy := false;
    }

    /** drainQueue, up to the first task. */
    method DrainQueue()
      requires !busy && (!draining ==> cleanupTimers == 0 && -1 <= index && (queue == [] ==> index == -1))
      requires !draining && queue != [] ==> index < |queue|
      modifies this
      ensures Now() == Drain(old(Now()))
    {
      if draining { return; }
      draining, cleanupTimers := true, cleanupTimers + 1;
      if queue == [] {
        current, draining := None, false;
        cleanupTimers := cleanupTimers - 1;
        return;
      }
      current, queue := Some(queue), [];
      index := index + 1;
      if index < |current.value| {
        busy, ran := true, ran + [current.value[index]];
      } else {
        current, draining, index := None, false, -1;
        cleanupTimers := cleanupTimers - 1;
      }
    }

    /** The timer of a drain fires, no task running. */
    method OnDrainTimer()
      requires Inv(Now()) && !busy && drainTimers > 0
      modifies this
      ensures Inv(Now()) && Now() == Step(old(Now()), DrainTimer)
    {
      DrainTimerInv(Now());
      drainTimers := drainTimers - 1;
      DrainQueue();
    }

    /** The timer of the clean-up fires, no task running: after a throw the current queue goes back in front. */
    method OnCleanupTimer()
      requires Inv(Now()) && !busy && cleanupTimers > 0
      modifies this
      ensures Inv(Now()) && Now() == Step(old(Now()), CleanupTimer)
    {
      CleanupInv(Now());
      cleanupTimers := cleanupTimers - 1;
      if draining && current.Some? {
        draining := false;
        index := if current.value != [] then index else -1;
        queue := current.value + queue;
        if queue != [] { DrainQueue(); }
      }
    }
  }
}
