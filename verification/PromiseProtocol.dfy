/** Promises as a state machine: what each step of the library does between two moments at which user code runs. */
module PromiseProtocol {

  /** How resolving with a value treats it: as is, by calling its `then`, or failing because reading `then` threw. */
  datatype Kind<V> = Plain | Thenable | Poison(error: V)

  /** What the host decides about values: their kind, which of them are promises, and the error for a promise that is
      resolved with itself. */
  datatype Host<!V> = Host(kind: V -> Kind<V>, isPromise: (V, nat) -> bool, cycle: V)

  datatype Outcome<V> = Pending | Fulfilled(value: V) | Rejected(reason: V)

  /** Who may still settle a promise: a handle, a queued call of a thenable's `then`, or nobody. */
  datatype Holder = ByHandle(h: nat) | ByTask(at: nat) | Nobody

  /** The fields of a promise, and its history: the reactions registered and run, and where its flush was queued. */
  datatype Cell<V> = Cell(outcome: Outcome<V>, notified: bool, waiting: seq<nat>,
                          holder: Holder, registered: seq<nat>, ran: seq<nat>, flushAt: nat)

  /** A pair of resolving functions with its "already resolved" flag. */
  datatype Handle = Handle(target: nat, used: bool)

  /** What `then` registers: the handle of the derived promise, and which handlers were given. */
  datatype Reaction = Reaction(handle: nat, ok: bool, fail: bool)

  datatype Task<V> = Flush(p: nat) | CallThen(target: nat, value: V)

  /** The flush under way, if any: the next reaction to run, and the handle a running handler reports to. */
  datatype Progress = Idle | Flushing(p: nat, next: nat) | Calling(p: nat, next: nat, handle: nat)

  datatype State<V> = State(cells: seq<Cell<V>>, handles: seq<Handle>, reactions: seq<Reaction>,
                            tasks: seq<Task<V>>, head: nat, progress: Progress)   // tasks[..head] have run

  datatype Event<V> = New | Resolve(h: nat, v: V) | Reject(h: nat, v: V) | Then(p: nat, ok: bool, fail: bool)
                    | RunTask | Advance | Return(v: V) | Throw(v: V)

  function Fresh<V>(): State<V> {
    State([], [], [], [], 0, Idle)
  }

  // ----- the steps

  /** P: queue a flush unless one is queued or under way. */
  function Notify<V>(s: State<V>, p: nat): State<V>
    requires p < |s.cells|
  {
    if s.cells[p].notified then s
    else s.(cells := s.cells[p := s.cells[p].(notified := true, flushAt := |s.tasks|)], tasks := s.tasks + [Flush(p)])
  }

  function Settle<V>(s: State<V>, p: nat, outcome: Outcome<V>): State<V>
    requires p < |s.cells|
  {
    Notify(s.(cells := s.cells[p := s.cells[p].(outcome := outcome, holder := Nobody)]), p)
  }

  function Use<V>(s: State<V>, h: nat): State<V>
    requires h < |s.handles|
  {
    s.(handles := s.handles[h := s.handles[h].(used := true)])
  }

  predicate Live<V>(s: State<V>, h: nat) {
    h < |s.handles| && !s.handles[h].used && s.handles[h].target < |s.cells|
  }

  /** R. */
  function RejectStep<V>(s: State<V>, h: nat, v: V): State<V> {
    if !Live(s, h) then s else Settle(Use(s, h), s.handles[h].target, Rejected(v))
  }

  /** M. */
  function ResolveStep<V>(host: Host<V>, s: State<V>, h: nat, v: V): State<V> {
    if !Live(s, h) then s
    else
      var p, t := s.handles[h].target, Use(s, h);
      if host.isPromise(v, p) then Settle(t, p, Rejected(host.cycle))
      else
        match host.kind(v)
        case Poison(e) => Settle(t, p, Rejected(e))
        case Plain => Settle(t, p, Fulfilled(v))
        case Thenable =>
          t.(cells := t.cells[p := t.cells[p].(holder := ByTask(|t.tasks|))], tasks := t.tasks + [CallThen(p, v)])
  }

  /** A new promise and its own handle. */
  function NewStep<V>(s: State<V>): State<V> {
    s.(cells := s.cells + [Cell(Pending, false, [], ByHandle(|s.handles|), [], [], 0)],
       handles := s.handles + [Handle(|s.cells|, false)])
  }

  /** A reaction joins the queue of its promise; the flush of a settled promise will reach it. */
  function Registered<V>(s: State<V>, p: nat, reaction: Reaction): State<V>
    requires p < |s.cells|
  {
    var r, c := |s.reactions|, s.cells[p];
    var t := s.(reactions := s.reactions + [reaction],
                cells := s.cells[p := c.(waiting := c.waiting + [r], registered := c.registered + [r])]);
    if c.outcome.Pending? then t else Notify(t, p)
  }

  function ThenStep<V>(s: State<V>, p: nat, ok: bool, fail: bool): State<V> {
    if p >= |s.cells| then s
    else
      var t := NewStep(s);
      assert |t.cells| == |s.cells| + 1;
      Registered(t, p, Reaction(|s.handles|, ok, fail))
  }

  /** The next task, once no flush is under way; calling a thenable's `then` hands it a fresh handle. */
  function TaskStep<V>(s: State<V>): State<V> {
    if !s.progress.Idle? || s.head >= |s.tasks| then s
    else
      match s.tasks[s.head]
      case Flush(p) => s.(head := s.head + 1, progress := Flushing(p, 0))
      case CallThen(p, v) =>
        if p < |s.cells| then
          s.(head := s.head + 1, handles := s.handles + [Handle(p, false)],
             cells := s.cells[p := s.cells[p].(holder := ByHandle(|s.handles|))])
        else s
  }

  /** The result of a reaction for the derived promise: a thenable is asked at once to report to it. */
  function Deliver<V>(host: Host<V>, s: State<V>, h: nat, v: V): State<V> {
    if h < |s.handles| && host.isPromise(v, s.handles[h].target) then RejectStep(s, h, host.cycle)
    else
      match host.kind(v)
      case Poison(e) => RejectStep(s, h, e)
      case Plain => ResolveStep(host, s, h, v)
      case Thenable => s
  }

  /** The flush runs its next reaction, or ends. A reaction without a handler passes the outcome on at once. */
  function AdvanceStep<V>(host: Host<V>, s: State<V>): State<V> {
    match s.progress
    case Idle => s
    case Calling(_, _, _) => s
    case Flushing(p, next) =>
      if p >= |s.cells| then s
      else if next >= |s.cells[p].waiting| then
        s.(cells := s.cells[p := s.cells[p].(waiting := [], notified := false)], progress := Idle)
      else
        var c := s.cells[p];
        var r := c.waiting[next];
        if r >= |s.reactions| then s
        else
          var t := s.(cells := s.cells[p := c.(ran := c.ran + [r])], progress := Flushing(p, next + 1));
          var reaction := s.reactions[r];
          match c.outcome
          case Fulfilled(v) =>
            if reaction.ok then t.(progress := Calling(p, next + 1, reaction.handle)) else Deliver(host, t, reaction.handle, v)
          case Rejected(v) =>
            if reaction.fail then t.(progress := Calling(p, next + 1, reaction.handle)) else RejectStep(t, reaction.handle, v)
          case Pending => t
  }

  /** A handler has returned. */
  function ReturnStep<V>(host: Host<V>, s: State<V>, v: V): State<V> {
    match s.progress
    case Idle => s
    case Flushing(_, _) => s
    case Calling(p, next, h) => Deliver(host, s.(progress := Flushing(p, next)), h, v)
  }

  function ThrowStep<V>(s: State<V>, v: V): State<V> {
    match s.progress
    case Idle => s
    case Flushing(_, _) => s
    case Calling(p, next, h) => RejectStep(s.(progress := Flushing(p, next)), h, v)
  }

  /** A step that is not enabled changes nothing. */
  function Step<V>(host: Host<V>, s: State<V>, e: Event<V>): State<V> {
    match e
    case New => NewStep(s)
    case Resolve(h, v) => ResolveStep(host, s, h, v)
    case Reject(h, v) => RejectStep(s, h, v)
    case Then(p, ok, fail) => ThenStep(s, p, ok, fail)
    case RunTask => TaskStep(s)
    case Advance => AdvanceStep(host, s)
    case Return(v) => ReturnStep(host, s, v)
    case Throw(v) => ThrowStep(s, v)
  }

  function Run<V>(host: Host<V>, s: State<V>, events: seq<Event<V>>): State<V> {
    if events == [] then s else Step(host, Run(host, s, events[..|events| - 1]), events[|events| - 1])
  }

  // ----- the invariant

  /** A handle not yet used is the one its promise waits for. */
  ghost predicate HandleOk<V>(s: State<V>, h: nat)
    requires h < |s.handles|
  {
    s.handles[h].target < |s.cells| && (!s.handles[h].used ==> s.cells[s.handles[h].target].holder == ByHandle(h))
  }

  ghost predicate TaskOk<V>(s: State<V>, t: nat)
    requires t < |s.tasks|
  {
    match s.tasks[t]
    case Flush(p) => p < |s.cells| && s.cells[p].notified && s.cells[p].flushAt == t && !UnderFlush(s, p)
    case CallThen(p, _) => p < |s.cells| && s.cells[p].holder == ByTask(t)
  }

  predicate UnderFlush<V>(s: State<V>, p: nat) {
    !s.progress.Idle? && s.progress.p == p
  }

  ghost predicate FlushQueued<V>(s: State<V>, p: nat)
    requires p < |s.cells|
  {
    s.head <= s.cells[p].flushAt < |s.tasks| && s.tasks[s.cells[p].flushAt] == Flush(p)
  }

  ghost predicate CellOk<V>(s: State<V>, p: nat)
    requires p < |s.cells|
  {
    var c := s.cells[p];
    && (c.outcome.Pending? <==> !c.holder.Nobody?)
    && (c.outcome.Pending? ==> !c.notified && c.ran == [])
    && (!c.outcome.Pending? && c.waiting != [] ==> c.notified)
    && (c.notified <==> UnderFlush(s, p) || FlushQueued(s, p))
    && c.registered == c.ran + Rest(s, p)
    && (forall i :: 0 <= i < |c.registered| ==> c.registered[i] < |s.reactions|)
    && forall i, j :: 0 <= i < j < |c.registered| ==> c.registered[i] < c.registered[j]
  }

  /** The reactions still to run. */
  function Rest<V>(s: State<V>, p: nat): seq<nat>
    requires p < |s.cells|
  {
    if UnderFlush(s, p) && s.progress.next <= |s.cells[p].waiting| then s.cells[p].waiting[s.progress.next..]
    else s.cells[p].waiting
  }

  /** A pending promise can still be settled, by the one handle or task it waits for. */
  ghost predicate HolderOk<V>(s: State<V>, p: nat)
    requires p < |s.cells|
  {
    match s.cells[p].holder
    case ByHandle(h) => h < |s.handles| && s.handles[h] == Handle(p, false)
    case ByTask(at) => s.head <= at < |s.tasks| && s.tasks[at].CallThen? && s.tasks[at].target == p
    case Nobody => true
  }

  ghost predicate Inv<V>(s: State<V>) {
    && s.head <= |s.tasks|
    && (forall h :: 0 <= h < |s.handles| ==> HandleOk(s, h))
    && (forall t :: s.head <= t < |s.tasks| ==> TaskOk(s, t))
    && (forall p :: 0 <= p < |s.cells| ==> CellOk(s, p) && HolderOk(s, p))
    && (forall r :: 0 <= r < |s.reactions| ==> s.reactions[r].handle < |s.handles|)
    && (s.progress.Calling? ==> s.progress.handle < |s.handles|)
    && (!s.progress.Idle? ==> s.progress.p < |s.cells| && s.progress.next <= |s.cells[s.progress.p].waiting|)
  }
}
