/** Every run of the promise machine keeps its invariant. */
module PromiseSafety {
  import opened PromiseProtocol

  /** The holder of a promise settles it. */
  lemma SettleInv<V>(s: State<V>, h: nat, outcome: Outcome<V>)
    requires Inv(s) && Live(s, h) && !outcome.Pending?
    ensures Inv(Settle(Use(s, h), s.handles[h].target, outcome))
  {
    var p := s.handles[h].target;
    assert HandleOk(s, h) && CellOk(s, p);
    var t := Settle(Use(s, h), p, outcome);
    forall i | 0 <= i < |t.handles| ensures HandleOk(t, i) {
      assert HandleOk(s, i);
    }
    forall i | t.head <= i < |t.tasks| ensures TaskOk(t, i) {
      if i < |s.tasks| { assert TaskOk(s, i); }
    }
    forall q | 0 <= q < |t.cells| ensures CellOk(t, q) && HolderOk(t, q) {
      assert CellOk(s, q) && HolderOk(s, q);
    }
  }

  /** Resolving with a thenable hands the promise over to a task. */
  lemma AdoptInv<V>(s: State<V>, h: nat, v: V)
    requires Inv(s) && Live(s, h)
    ensures var p, t := s.handles[h].target, Use(s, h);
            Inv(t.(cells := t.cells[p := t.cells[p].(holder := ByTask(|t.tasks|))], tasks := t.tasks + [CallThen(p, v)]))
  {
    var p := s.handles[h].target;
    assert HandleOk(s, h) && CellOk(s, p);
    var t := Use(s, h).(cells := s.cells[p := s.cells[p].(holder := ByTask(|s.tasks|))], tasks := s.tasks + [CallThen(p, v)]);
    forall i | 0 <= i < |t.handles| ensures HandleOk(t, i) {
      assert HandleOk(s, i);
    }
    forall i | t.head <= i < |t.tasks| ensures TaskOk(t, i) {
      if i < |s.tasks| { assert TaskOk(s, i); }
    }
    forall q | 0 <= q < |t.cells| ensures CellOk(t, q) && HolderOk(t, q) {
      assert CellOk(s, q) && HolderOk(s, q);
    }
  }

  lemma RejectInv<V>(s: State<V>, h: nat, v: V)
    requires Inv(s)
    ensures Inv(RejectStep(s, h, v))
  {
    hide Inv, Settle, Use;
    if Live(s, h) { SettleInv(s, h, Rejected(v)); }
  }

  lemma ResolveInv<V>(host: Host<V>, s: State<V>, h: nat, v: V)
    requires Inv(s)
    ensures Inv(ResolveStep(host, s, h, v))
  {
    hide Inv, Settle;
    if Live(s, h) {
      if host.isPromise(v, s.handles[h].target) {
        SettleInv(s, h, Rejected(host.cycle));
      } else {
        match host.kind(v)
        case Poison(e) => SettleInv(s, h, Rejected(e));
        case Plain => SettleInv(s, h, Fulfilled(v));
        case Thenable => AdoptInv(s, h, v);
      }
    }
  }

  lemma DeliverInv<V>(host: Host<V>, s: State<V>, h: nat, v: V)
    requires Inv(s)
    ensures Inv(Deliver(host, s, h, v))
  {
    hide Inv, RejectStep, ResolveStep;
    if h < |s.handles| && host.isPromise(v, s.handles[h].target) {
      RejectInv(s, h, host.cycle);
    } else {
      match host.kind(v)
      case Poison(e) => RejectInv(s, h, e);
      case Plain => ResolveInv(host, s, h, v);
      case Thenable =>
    }
  }

  lemma NewInv<V>(s: State<V>)
    requires Inv(s)
    ensures Inv(NewStep(s))
  {
    var t := NewStep(s);
    forall i | 0 <= i < |t.handles| ensures HandleOk(t, i) {
      if i < |s.handles| { assert HandleOk(s, i); }
    }
    forall i | t.head <= i < |t.tasks| ensures TaskOk(t, i) {
      assert TaskOk(s, i);
    }
    if s.head == 0 < |s.tasks| { assert TaskOk(s, 0); }
    forall q | 0 <= q < |t.cells| ensures CellOk(t, q) && HolderOk(t, q) {
      if q < |s.cells| { assert CellOk(s, q) && HolderOk(s, q); }
    }
  }

  /** The promise at `p` with one more reaction. */
  function More<V>(s: State<V>, p: nat): Cell<V>
    requires p < |s.cells|
  {
    var c := s.cells[p];
    c.(waiting := c.waiting + [|s.reactions|], registered := c.registered + [|s.reactions|])
  }

  lemma RestMore<V>(s: State<V>, t: State<V>, p: nat)
    requires Inv(s) && p < |s.cells| == |t.cells| && t.progress == s.progress
    requires t.cells[p].waiting == More(s, p).waiting
    ensures Rest(t, p) == Rest(s, p) + [|s.reactions|]
  {
  }

  lemma JoinCell<V>(s: State<V>, t: State<V>, p: nat)
    requires Inv(s) && p < |s.cells| && (s.cells[p].outcome.Pending? || s.cells[p].notified)
    requires t.cells == s.cells[p := More(s, p)] && |t.reactions| == |s.reactions| + 1
    requires t.tasks == s.tasks && t.head == s.head && t.progress == s.progress
    ensures CellOk(t, p)
  {
    assert CellOk(s, p);
    RestMore(s, t, p);
    hide Rest, HandleOk, TaskOk, HolderOk;
  }

  /** A reaction joins the queue of a promise that is pending, or about to be flushed. */
  lemma JoinInv<V>(s: State<V>, p: nat, reaction: Reaction)
    requires Inv(s) && p < |s.cells| && (s.cells[p].outcome.Pending? || s.cells[p].notified) && reaction.handle < |s.handles|
    ensures Inv(s.(reactions := s.reactions + [reaction], cells := s.cells[p := More(s, p)]))
  {
    var t := s.(reactions := s.reactions + [reaction], cells := s.cells[p := More(s, p)]);
    JoinCell(s, t, p);
    forall i | 0 <= i < |t.handles| ensures HandleOk(t, i) {
      assert HandleOk(s, i);
    }
    forall i | t.head <= i < |t.tasks| ensures TaskOk(t, i) {
      assert TaskOk(s, i);
    }
    forall q | 0 <= q < |t.cells| ensures CellOk(t, q) && HolderOk(t, q) {
      assert CellOk(s, q) && HolderOk(s, q);
    }
  }

  /** A reaction joins a settled promise that has nothing to flush: a flush is queued. */
  lemma WakeInv<V>(s: State<V>, p: nat, reaction: Reaction)
    requires Inv(s) && p < |s.cells| && !s.cells[p].outcome.Pending? && !s.cells[p].notified && reaction.handle < |s.handles|
    ensures Inv(s.(reactions := s.reactions + [reaction], tasks := s.tasks + [Flush(p)],
                   cells := s.cells[p := More(s, p).(notified := true, flushAt := |s.tasks|)]))
  {
    var t := s.(reactions := s.reactions + [reaction], tasks := s.tasks + [Flush(p)],
                cells := s.cells[p := More(s, p).(notified := true, flushAt := |s.tasks|)]);
    RestMore(s, t, p);
    assert CellOk(s, p);
    forall i | 0 <= i < |t.handles| ensures HandleOk(t, i) {
      assert HandleOk(s, i);
    }
    forall i | t.head <= i < |t.tasks| ensures TaskOk(t, i) {
      if i < |s.tasks| { assert TaskOk(s, i); }
    }
    forall q | 0 <= q < |t.cells| ensures CellOk(t, q) && HolderOk(t, q) {
      assert CellOk(s, q) && HolderOk(s, q);
    }
  }

  lemma RegisterInv<V>(s: State<V>, p: nat, reaction: Reaction)
    requires Inv(s) && p < |s.cells| && reaction.handle < |s.handles|
    ensures Inv(Registered(s, p, reaction))
  {
    hide Inv;
    if s.cells[p].outcome.Pending? || s.cells[p].notified {
      JoinInv(s, p, reaction);
    } else {
      WakeInv(s, p, reaction);
      var c := More(s, p);
      assert s.cells[p := c][p := c.(notified := true, flushAt := |s.tasks|)] == s.cells[p := c.(notified := true, flushAt := |s.tasks|)];
    }
  }

  lemma ThenInv<V>(s: State<V>, p: nat, ok: bool, fail: bool)
    requires Inv(s)
    ensures Inv(ThenStep(s, p, ok, fail))
  {
    hide Inv, NewStep, Registered;
    if p < |s.cells| {
      NewInv(s);
      NewCells(s);
      RegisterInv(NewStep(s), p, Reaction(|s.handles|, ok, fail));
    }
  }

  lemma NewCells<V>(s: State<V>)
    ensures |NewStep(s).cells| == |s.cells| + 1 && |NewStep(s).handles| == |s.handles| + 1
  {
  }

  lemma TaskInv<V>(s: State<V>)
    requires Inv(s)
    ensures Inv(TaskStep(s))
  {
    if s.progress.Idle? && s.head < |s.tasks| {
      assert TaskOk(s, s.head);
      if s.tasks[s.head].Flush? { FlushInv(s); } else { CallThenInv(s); }
    }
  }

  lemma FlushInv<V>(s: State<V>)
    requires Inv(s) && s.progress.Idle? && s.head < |s.tasks| && s.tasks[s.head].Flush?
    ensures Inv(TaskStep(s))
  {
    var t := TaskStep(s);
    assert TaskOk(s, s.head);
    forall i | 0 <= i < |t.handles| ensures HandleOk(t, i) {
      assert HandleOk(s, i);
    }
    forall i | t.head <= i < |t.tasks| ensures TaskOk(t, i) {
      assert TaskOk(s, i);
    }
    forall q | 0 <= q < |t.cells| ensures CellOk(t, q) && HolderOk(t, q) {
      assert CellOk(s, q) && HolderOk(s, q);
    }
  }

  lemma CallThenInv<V>(s: State<V>)
    requires Inv(s) && s.progress.Idle? && s.head < |s.tasks| && s.tasks[s.head].CallThen?
    ensures Inv(TaskStep(s))
  {
    var t := TaskStep(s);
    assert TaskOk(s, s.head);
    forall i | 0 <= i < |t.handles| ensures HandleOk(t, i) {
      if i < |s.handles| { assert HandleOk(s, i); }
    }
    forall i | t.head <= i < |t.tasks| ensures TaskOk(t, i) {
      assert TaskOk(s, i);
    }
    forall q | 0 <= q < |t.cells| ensures CellOk(t, q) && HolderOk(t, q) {
      assert CellOk(s, q) && HolderOk(s, q);
    }
  }

  /** The flush has run its reactions: the promise waits for none, and may be notified again. */
  lemma FlushEndsInv<V>(s: State<V>)
    requires Inv(s) && s.progress.Flushing? && s.progress.next == |s.cells[s.progress.p].waiting|
    ensures var p := s.progress.p;
            Inv(s.(cells := s.cells[p := s.cells[p].(waiting := [], notified := false)], progress := Idle))
  {
    var p := s.progress.p;
    var t := s.(cells := s.cells[p := s.cells[p].(waiting := [], notified := false)], progress := Idle);
    assert CellOk(s, p);
    var at := s.cells[p].flushAt;
    if s.head <= at < |s.tasks| { assert TaskOk(s, at); }
    forall i | 0 <= i < |t.handles| ensures HandleOk(t, i) {
      assert HandleOk(s, i);
    }
    forall i | t.head <= i < |t.tasks| ensures TaskOk(t, i) {
      assert TaskOk(s, i);
    }
    forall q | 0 <= q < |t.cells| ensures CellOk(t, q) && HolderOk(t, q) {
      assert CellOk(s, q) && HolderOk(s, q);
    }
  }

  /** The flush takes its next reaction. */
  lemma TakeInv<V>(s: State<V>)
    requires Inv(s) && s.progress.Flushing? && s.progress.next < |s.cells[s.progress.p].waiting|
    ensures !s.cells[s.progress.p].outcome.Pending? && s.cells[s.progress.p].waiting[s.progress.next] < |s.reactions|
    ensures Inv(Taken(s))
  {
    var t, p := Taken(s), s.progress.p;
    assert CellOk(s, p);
    assert Rest(s, p) == [s.cells[p].waiting[s.progress.next]] + Rest(t, p);
    assert s.cells[p].registered[|s.cells[p].ran|] == s.cells[p].waiting[s.progress.next];
    forall i | 0 <= i < |t.handles| ensures HandleOk(t, i) {
      assert HandleOk(s, i);
    }
    forall i | t.head <= i < |t.tasks| ensures TaskOk(t, i) {
      assert TaskOk(s, i);
    }
    forall q | 0 <= q < |t.cells| ensures CellOk(t, q) && HolderOk(t, q) {
      assert CellOk(s, q) && HolderOk(s, q);
    }
  }

  function Taken<V>(s: State<V>): State<V>
    requires s.progress.Flushing? && s.progress.p < |s.cells| && s.progress.next < |s.cells[s.progress.p].waiting|
  {
    var p, next := s.progress.p, s.progress.next;
    var c := s.cells[p];
    s.(cells := s.cells[p := c.(ran := c.ran + [c.waiting[next]])], progress := Flushing(p, next + 1))
  }

  /** A handler starts or ends; the flush stands where it stood. */
  lemma ProgressInv<V>(s: State<V>, progress: Progress)
    requires Inv(s) && !s.progress.Idle? && !progress.Idle? && progress.p == s.progress.p && progress.next == s.progress.next
    requires progress.Calling? ==> progress.handle < |s.handles|
    ensures Inv(s.(progress := progress))
  {
    var t := s.(progress := progress);
    forall i | 0 <= i < |t.handles| ensures HandleOk(t, i) {
      assert HandleOk(s, i);
    }
    forall i | t.head <= i < |t.tasks| ensures TaskOk(t, i) {
      assert TaskOk(s, i);
    }
    forall q | 0 <= q < |t.cells| ensures CellOk(t, q) && HolderOk(t, q) {
      assert CellOk(s, q) && HolderOk(s, q);
    }
  }

  lemma AdvanceInv<V>(host: Host<V>, s: State<V>)
    requires Inv(s)
    ensures Inv(AdvanceStep(host, s))
  {
    hide CellOk, HandleOk, TaskOk, HolderOk, Deliver, RejectStep;
    if s.progress.Flushing? {
      var p, next := s.progress.p, s.progress.next;
      if next == |s.cells[p].waiting| {
        FlushEndsInv(s);
      } else {
        TakeInv(s);
        var t, reaction := Taken(s), s.reactions[s.cells[p].waiting[next]];
        assert reaction.handle < |t.handles|;
        hide Inv;
        ProgressInv(t, Calling(p, next + 1, reaction.handle));
        match s.cells[p].outcome
        case Fulfilled(v) => DeliverInv(host, t, reaction.handle, v);
        case Rejected(v) => RejectInv(t, reaction.handle, v);
      }
    }
  }

  lemma ReturnInv<V>(host: Host<V>, s: State<V>, v: V)
    requires Inv(s)
    ensures Inv(ReturnStep(host, s, v)) && Inv(ThrowStep(s, v))
  {
    hide Inv, Deliver, RejectStep;
    if s.progress.Calling? {
      var t := s.(progress := Flushing(s.progress.p, s.progress.next));
      ProgressInv(s, t.progress);
      DeliverInv(host, t, s.progress.handle, v);
      RejectInv(t, s.progress.handle, v);
    }
  }

  lemma StepInv<V>(host: Host<V>, s: State<V>, e: Event<V>)
    requires Inv(s)
    ensures Inv(Step(host, s, e))
  {
    hide Inv, NewStep, ResolveStep, RejectStep, ThenStep, TaskStep, AdvanceStep, ReturnStep, ThrowStep;
    match e
    case New => NewInv(s);
    case Resolve(h, v) => ResolveInv(host, s, h, v);
    case Reject(h, v) => RejectInv(s, h, v);
    case Then(p, ok, fail) => ThenInv(s, p, ok, fail);
    case RunTask => TaskInv(s);
    case Advance => AdvanceInv(host, s);
    case Return(v) => ReturnInv(host, s, v);
    case Throw(v) => ReturnInv(host, s, v);
  }

  /** Every reachable state keeps the invariant. */
  lemma {:induction false} RunInv<V>(host: Host<V>, events: seq<Event<V>>)
    ensures Inv(Run(host, Fresh(), events))
  {
    hide Inv, Step;
    if events == [] {
      FreshInv<V>();
    } else {
      RunInv(host, events[..|events| - 1]);
      StepInv(host, Run(host, Fresh(), events[..|events| - 1]), events[|events| - 1]);
    }
  }

  lemma FreshInv<V>()
    ensures Inv(Fresh<V>())
  {
  }
}
