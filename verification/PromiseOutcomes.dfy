/** What promises end up with: the outcome of a derived promise follows from what its handler does, and that of any other
    from the value its own functions are called with. */
module PromiseOutcomes {
  import opened PromiseProtocol
  import opened PromiseSafety
  import opened PromiseRuns
  import opened PromiseReactions

  /** What promise `d` ends up with when it is resolved with `v`: nothing yet if `v` is a thenable. */
  function Resolution<V>(host: Host<V>, v: V, d: nat): Outcome<V> {
    if host.isPromise(v, d) then Rejected(host.cycle)
    else
      match host.kind(v)
      case Plain => Fulfilled(v)
      case Poison(e) => Rejected(e)
      case Thenable => Pending
  }

  function After<V>(host: Host<V>, events: seq<Event<V>>, e: Event<V>, more: seq<Event<V>>): State<V> {
    Run(host, Fresh(), events + [e] + more)
  }

  /** Handle `h` was never used, and can settle promise `d`. */
  ghost predicate Open<V>(s: State<V>, h: nat, d: nat) {
    h < |s.handles| && s.handles[h] == Handle(d, false) && d < |s.cells|
  }

  lemma OpenPending<V>(s: State<V>, h: nat, d: nat)
    requires Inv(s) && Open(s, h, d)
    ensures Live(s, h) && s.cells[d].outcome.Pending?
  {
    assert HandleOk(s, h) && CellOk(s, d);
  }

  /** The promise has the outcome, or is still open where there is none. */
  ghost predicate Ends<V>(t: State<V>, h: nat, d: nat, outcome: Outcome<V>) {
    d < |t.cells| && if outcome.Pending? then Open(t, h, d) else t.cells[d].outcome == outcome
  }

  lemma RejectEnds<V>(s: State<V>, h: nat, d: nat, v: V)
    requires Inv(s) && Open(s, h, d)
    ensures Ends(RejectStep(s, h, v), h, d, Rejected(v))
  {
    OpenPending(s, h, d);
    hide Inv;
  }

  lemma DeliverEnds<V>(host: Host<V>, s: State<V>, h: nat, d: nat, v: V)
    requires Inv(s) && Open(s, h, d)
    ensures Ends(Deliver(host, s, h, v), h, d, Resolution(host, v, d))
  {
    OpenPending(s, h, d);
    RejectEnds(s, h, d, host.cycle);
    if host.kind(v).Poison? { RejectEnds(s, h, d, host.kind(v).error); }
    hide Inv, RejectStep;
  }

  lemma OneMore<V>(host: Host<V>, events: seq<Event<V>>, e: Event<V>)
    ensures Run(host, Fresh(), events + [e]) == Step(host, Run(host, Fresh(), events), e)
    ensures Inv(Run(host, Fresh(), events))
  {
    assert (events + [e])[..|events|] == events;
    RunInv(host, events);
    hide Step;
  }

  /** An outcome lasts. */
  lemma EndsForever<V>(host: Host<V>, events: seq<Event<V>>, e: Event<V>, more: seq<Event<V>>, h: nat, d: nat, outcome: Outcome<V>)
    requires Ends(Step(host, Run(host, Fresh(), events), e), h, d, outcome) && !outcome.Pending?
    ensures var t := After(host, events, e, more); d < |t.cells| && t.cells[d].outcome == outcome
  {
    hide Run, Step;
    OneMore(host, events, e);
    SettledForever(host, events + [e], more);
    assert CellEvolves(Run(host, Fresh(), events + [e]).cells[d], After(host, events, e, more).cells[d]);
  }

  // ----- the promise that `then` returns

  /** `then` returns a new pending promise, and its reaction comes last among those of the promise it was called on. */
  lemma Derived<V>(host: Host<V>, events: seq<Event<V>>, p: nat, ok: bool, fail: bool)
    requires p < |Run(host, Fresh(), events).cells|
    ensures var s, t := Run(host, Fresh(), events), Run(host, Fresh(), events + [Then(p, ok, fail)]);
            var h, d, r := |s.handles|, |s.cells|, |s.reactions|;
            && Open(t, h, d) && t.cells[d].outcome.Pending? && |t.cells| == d + 1
            && t.reactions == s.reactions + [Reaction(h, ok, fail)] && t.cells[p].registered == s.cells[p].registered + [r]
  {
    OneMore(host, events, Then(p, ok, fail));
    hide Run, Inv;
  }

  /** The handler for the outcome is called on behalf of the derived promise, if there is one. */
  lemma HandlerCalled<V>(host: Host<V>, events: seq<Event<V>>)
    requires Next(Run(host, Fresh(), events))
    ensures var s := Run(host, Fresh(), events);
            var c, reaction := s.cells[s.progress.p], s.reactions[s.cells[s.progress.p].waiting[s.progress.next]];
            (if c.outcome.Fulfilled? then reaction.ok else reaction.fail) ==>
              Run(host, Fresh(), events + [Advance]).progress == Calling(s.progress.p, s.progress.next + 1, reaction.handle)
  {
    OneMore(host, events, Advance);
    hide Run;
    TakeInv(Run(host, Fresh(), events));
    hide Inv;
  }

  /** A flush is about to run a reaction. */
  ghost predicate Next<V>(s: State<V>) {
    && s.progress.Flushing? && s.progress.p < |s.cells| && s.progress.next < |s.cells[s.progress.p].waiting|
    && s.cells[s.progress.p].waiting[s.progress.next] < |s.reactions|
  }

  /** What a handler returns resolves the promise derived, for the rest of the run. */
  lemma ReturnedOutcome<V>(host: Host<V>, events: seq<Event<V>>, v: V, more: seq<Event<V>>, d: nat)
    requires var s := Run(host, Fresh(), events); s.progress.Calling? && Open(s, s.progress.handle, d)
    ensures var t, outcome := After(host, events, Return(v), more), Resolution(host, v, d);
            !outcome.Pending? ==> d < |t.cells| && t.cells[d].outcome == outcome
    ensures Resolution(host, v, d).Pending? ==>
              Open(Run(host, Fresh(), events + [Return(v)]), Run(host, Fresh(), events).progress.handle, d)
  {
    var s := Run(host, Fresh(), events);
    OneMore(host, events, Return(v));
    hide Run, Deliver, Resolution;
    var u := s.(progress := Flushing(s.progress.p, s.progress.next));
    ProgressInv(s, u.progress);
    hide Inv;
    DeliverEnds(host, u, s.progress.handle, d, v);
    if !Resolution(host, v, d).Pending? { EndsForever(host, events, Return(v), more, s.progress.handle, d, Resolution(host, v, d)); }
  }

  /** What a handler throws rejects it. */
  lemma ThrownOutcome<V>(host: Host<V>, events: seq<Event<V>>, v: V, more: seq<Event<V>>, d: nat)
    requires var s := Run(host, Fresh(), events); s.progress.Calling? && Open(s, s.progress.handle, d)
    ensures var t := After(host, events, Throw(v), more); d < |t.cells| && t.cells[d].outcome == Rejected(v)
  {
    var s := Run(host, Fresh(), events);
    OneMore(host, events, Throw(v));
    hide Run, RejectStep;
    var u := s.(progress := Flushing(s.progress.p, s.progress.next));
    ProgressInv(s, u.progress);
    hide Inv;
    RejectEnds(u, s.progress.handle, d, v);
    EndsForever(host, events, Throw(v), more, s.progress.handle, d, Rejected(v));
  }

  /** Without a handler for it, the outcome is passed on. */
  lemma PassedOutcome<V>(host: Host<V>, events: seq<Event<V>>, more: seq<Event<V>>, d: nat)
    requires Next(Run(host, Fresh(), events))
    requires var s := Run(host, Fresh(), events);
             Open(s, s.reactions[s.cells[s.progress.p].waiting[s.progress.next]].handle, d)
    ensures var s, t := Run(host, Fresh(), events), After(host, events, Advance, more);
            var c, reaction := s.cells[s.progress.p], s.reactions[s.cells[s.progress.p].waiting[s.progress.next]];
            && (c.outcome.Fulfilled? && !reaction.ok && !Resolution(host, c.outcome.value, d).Pending? ==>
                  d < |t.cells| && t.cells[d].outcome == Resolution(host, c.outcome.value, d))
            && (c.outcome.Rejected? && !reaction.fail ==> d < |t.cells| && t.cells[d].outcome == c.outcome)
  {
    var s := Run(host, Fresh(), events);
    OneMore(host, events, Advance);
    hide Run, Deliver, RejectStep, Resolution;
    TakeInv(s);
    var u, reaction := Taken(s), s.reactions[s.cells[s.progress.p].waiting[s.progress.next]];
    hide Inv;
    assert Open(u, reaction.handle, d);
    match s.cells[s.progress.p].outcome
    case Fulfilled(v) =>
      DeliverEnds(host, u, reaction.handle, d, v);
      if !reaction.ok && !Resolution(host, v, d).Pending? {
        EndsForever(host, events, Advance, more, reaction.handle, d, Resolution(host, v, d));
      }
    case Rejected(v) =>
      RejectEnds(u, reaction.handle, d, v);
      if !reaction.fail { EndsForever(host, events, Advance, more, reaction.handle, d, Rejected(v)); }
  }

  /** Neither can touch a promise through a handle used before. */
  lemma UsedChangesNothing<V>(host: Host<V>, events: seq<Event<V>>, e: Event<V>)
    requires var s := Run(host, Fresh(), events);
             match e
             case Return(_) => s.progress.Calling? && s.progress.handle < |s.handles| && s.handles[s.progress.handle].used
             case Throw(_) => s.progress.Calling? && s.progress.handle < |s.handles| && s.handles[s.progress.handle].used
             case Resolve(h, _) => h < |s.handles| && s.handles[h].used
             case Reject(h, _) => h < |s.handles| && s.handles[h].used
             case _ => false
    ensures Run(host, Fresh(), events + [e]).cells == Run(host, Fresh(), events).cells
    ensures Run(host, Fresh(), events + [e]).tasks == Run(host, Fresh(), events).tasks
  {
    OneMore(host, events, e);
    hide Run, Inv;
  }

  /** A reaction and the promise it reports to stay what `then` made them. */
  lemma {:induction false} DerivedStays<V>(host: Host<V>, events: seq<Event<V>>, more: seq<Event<V>>)
    ensures Grows(Run(host, Fresh(), events), Run(host, Fresh(), events + more))
  {
    if more == [] {
      assert events + more == events;
    } else {
      var front, e := more[..|more| - 1], more[|more| - 1];
      assert events + more == events + front + [e];
      hide Run, Inv, Orderly, Step;
      DerivedStays(host, events, front);
      OneMore(host, events + front, e);
      RunOrderly(host, events + front);
      StepOrderly(host, Run(host, Fresh(), events + front), e);
    }
  }

  // ----- a promise by its own functions

  lemma ResolveEnds<V>(host: Host<V>, s: State<V>, h: nat, d: nat, v: V)
    requires Inv(s) && Open(s, h, d)
    ensures var t := ResolveStep(host, s, h, v);
            && (!Resolution(host, v, d).Pending? ==> Ends(t, h, d, Resolution(host, v, d)))
            && (Resolution(host, v, d).Pending? ==>
                  && |t.cells| == |s.cells| && t.cells[d].outcome.Pending? && t.handles == s.handles[h := Handle(d, true)]
                  && t.tasks == s.tasks + [CallThen(d, v)])
  {
    OpenPending(s, h, d);
    hide Inv;
  }

  /** Resolving settles at once, or queues the call of the thenable's `then`, with nobody else able to settle meanwhile. */
  lemma ResolvedOutcome<V>(host: Host<V>, events: seq<Event<V>>, h: nat, v: V, more: seq<Event<V>>, d: nat)
    requires Open(Run(host, Fresh(), events), h, d)
    ensures var t, outcome := After(host, events, Resolve(h, v), more), Resolution(host, v, d);
            !outcome.Pending? ==> d < |t.cells| && t.cells[d].outcome == outcome
    ensures Resolution(host, v, d).Pending? ==>
              var s, t := Run(host, Fresh(), events), Run(host, Fresh(), events + [Resolve(h, v)]);
              && t.tasks == s.tasks + [CallThen(d, v)] && d < |t.cells| && t.cells[d].outcome.Pending?
              && forall i :: 0 <= i < |t.handles| && t.handles[i].target == d ==> t.handles[i].used
  {
    var s := Run(host, Fresh(), events);
    OneMore(host, events, Resolve(h, v));
    hide Run, ResolveStep, Resolution;
    ResolveEnds(host, s, h, d, v);
    if Resolution(host, v, d).Pending? {
      forall i | 0 <= i < |s.handles| && s.handles[i].target == d ensures i == h || s.handles[i].used {
        assert HandleOk(s, i) && HandleOk(s, h);
      }
      hide Inv;
    } else {
      hide Inv;
      EndsForever(host, events, Resolve(h, v), more, h, d, Resolution(host, v, d));
    }
  }

  lemma RejectedOutcome<V>(host: Host<V>, events: seq<Event<V>>, h: nat, v: V, more: seq<Event<V>>, d: nat)
    requires Open(Run(host, Fresh(), events), h, d)
    ensures var t := After(host, events, Reject(h, v), more); d < |t.cells| && t.cells[d].outcome == Rejected(v)
  {
    OneMore(host, events, Reject(h, v));
    hide Run, RejectStep;
    RejectEnds(Run(host, Fresh(), events), h, d, v);
    hide Inv;
    EndsForever(host, events, Reject(h, v), more, h, d, Rejected(v));
  }

  /** The thenable's `then` is handed functions of its own, which are the only ones that settle the promise from now on. */
  lemma ThenableAsked<V>(host: Host<V>, events: seq<Event<V>>, d: nat, v: V)
    requires var s := Run(host, Fresh(), events); s.progress.Idle? && s.head < |s.tasks| && s.tasks[s.head] == CallThen(d, v)
    ensures var s, t := Run(host, Fresh(), events), Run(host, Fresh(), events + [RunTask]);
            Open(t, |s.handles|, d) && OnlyHandle(t, d, |s.handles|) && t.cells[d].outcome.Pending? && t.head == s.head + 1
  {
    var s := Run(host, Fresh(), events);
    OneMore(host, events, RunTask);
    hide Run;
    assert TaskOk(s, s.head) && CellOk(s, d);
    forall i | 0 <= i < |s.handles| ensures s.handles[i] != Handle(d, false) {
      assert HandleOk(s, i);
    }
  }

  // ----- one chain from end to end

  lemma RunOn<V>(host: Host<V>, s: State<V>, events: seq<Event<V>>, e: Event<V>)
    ensures Run(host, s, events + [e]) == Step(host, Run(host, s, events), e)
  {
    assert (events + [e])[..|events|] == events;
  }

  /** A new promise with one handler for success, resolved with a plain value: the handler is called, and the promise
      derived ends up with what it returns. */
  lemma ChainFulfilled<V>(host: Host<V>, x: V, y: V, more: seq<Event<V>>)
    requires host.kind(x).Plain? && !host.isPromise(x, 0) && host.kind(y).Plain? && !host.isPromise(y, 1)
    ensures var t := Run(host, Fresh(), [New, Then(0, true, false), Resolve(0, x), RunTask, Advance, Return(y)] + more);
            |t.cells| > 1 && t.cells[0].outcome == Fulfilled(x) && t.cells[1].outcome == Fulfilled(y)
  {
    var called := [New, Then(0, true, false), Resolve(0, x), RunTask, Advance];
    ChainCalled(host, x);
    hide Run;
    ReturnedOutcome(host, called, y, more, 1);
    SettledForever(host, called, [Return(y)] + more);
    assert called + ([Return(y)] + more) == called + [Return(y)] + more;
    assert called + [Return(y)] == [New, Then(0, true, false), Resolve(0, x), RunTask, Advance, Return(y)];
    assert CellEvolves(Run(host, Fresh(), called).cells[0], Run(host, Fresh(), called + [Return(y)] + more).cells[0]);
  }

  lemma ChainRegistered<V>(host: Host<V>)
    ensures var s := Run(host, Fresh(), [New, Then(0, true, false)]);
            && |s.cells| == 2 && s.handles == [Handle(0, false), Handle(1, false)] && s.reactions == [Reaction(1, true, false)]
            && s.cells[0].waiting == [0] && !s.cells[0].notified && s.tasks == [] && s.head == 0 && s.progress.Idle?
  {
    var f := Fresh<V>();
    var none: seq<Event<V>>, one: seq<Event<V>> := [], [New];
    RunOn(host, f, none, New);
    RunOn(host, f, one, Then(0, true, false));
    assert none + [New] == one && one + [Then(0, true, false)] == [New, Then(0, true, false)];
    hide Run;
    var s := Run(host, f, one);
    assert |s.cells| == 1 && s.handles == [Handle(0, false)] && s.reactions == [] && s.tasks == [] && s.head == 0;
  }

  lemma ChainSettled<V>(host: Host<V>, x: V)
    requires host.kind(x).Plain? && !host.isPromise(x, 0)
    ensures var s := Run(host, Fresh(), [New, Then(0, true, false)] + [Resolve(0, x)]);
            && |s.cells| == 2 && s.handles == [Handle(0, true), Handle(1, false)] && s.reactions == [Reaction(1, true, false)]
            && s.cells[0].outcome == Fulfilled(x) && s.cells[0].waiting == [0]
            && s.tasks == [Flush(0)] && s.head == 0 && s.progress.Idle?
  {
    ChainRegistered(host);
    RunOn(host, Fresh(), [New, Then(0, true, false)], Resolve(0, x));
    hide Run;
  }

  lemma ChainCalled<V>(host: Host<V>, x: V)
    requires host.kind(x).Plain? && !host.isPromise(x, 0)
    ensures var s := Run(host, Fresh(), [New, Then(0, true, false), Resolve(0, x), RunTask, Advance]);
            s.progress.Calling? && Open(s, s.progress.handle, 1) && s.cells[0].outcome == Fulfilled(x)
  {
    ChainSettled(host, x);
    var e := [New, Then(0, true, false)] + [Resolve(0, x)];
    RunOn(host, Fresh(), e, RunTask);
    RunOn(host, Fresh(), e + [RunTask], Advance);
    assert e + [RunTask] + [Advance] == [New, Then(0, true, false), Resolve(0, x), RunTask, Advance];
    hide Run;
    assert Run(host, Fresh(), e + [RunTask]).progress == Flushing(0, 0);
  }
}
