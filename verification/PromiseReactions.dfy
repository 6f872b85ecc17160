/** What one reaction goes through: it belongs to one promise, and is taken once, when its handler starts. */
module PromiseReactions {
  import opened PromiseProtocol
  import opened PromiseSafety
  import opened PromiseRuns

  /** Reactions and the promises of handles never change; both are only added to. */
  ghost predicate Grows<V>(s: State<V>, t: State<V>) {
    && |s.handles| <= |t.handles| && (forall h :: 0 <= h < |s.handles| ==> t.handles[h].target == s.handles[h].target)
    && s.reactions <= t.reactions && |s.cells| <= |t.cells|
  }

  /** Each reaction has a handle of its own. */
  ghost predicate OwnHandles<V>(s: State<V>) {
    forall i, j :: 0 <= i < j < |s.reactions| ==> s.reactions[i].handle < s.reactions[j].handle
  }

  /** Each reaction waits for one promise. */
  ghost predicate Separate<V>(s: State<V>) {
    forall p, q, r :: 0 <= p < |s.cells| && 0 <= q < |s.cells| && r in s.cells[p].registered && r in s.cells[q].registered ==> p == q
  }

  /** The running handler is that of the reaction taken last. */
  ghost predicate CallingLast<V>(s: State<V>) {
    s.progress.Calling? ==>
      && s.progress.p < |s.cells| && s.cells[s.progress.p].ran != [] && !s.cells[s.progress.p].outcome.Pending?
      && LastRan(s) < |s.reactions| && s.reactions[LastRan(s)].handle == s.progress.handle
  }

  function LastRan<V>(s: State<V>): nat
    requires s.progress.Calling? && s.progress.p < |s.cells| && s.cells[s.progress.p].ran != []
  {
    s.cells[s.progress.p].ran[|s.cells[s.progress.p].ran| - 1]
  }

  ghost predicate Orderly<V>(s: State<V>) {
    OwnHandles(s) && Separate(s) && CallingLast(s)
  }

  /** The step moves no reaction: registered and run are as they were, and so is the flush. */
  ghost predicate Still<V>(s: State<V>, t: State<V>) {
    && t.reactions == s.reactions && t.progress == s.progress && |t.cells| == |s.cells|
    && forall p :: 0 <= p < |s.cells| ==> t.cells[p].registered == s.cells[p].registered && t.cells[p].ran == s.cells[p].ran
                                          && (!s.cells[p].outcome.Pending? ==> !t.cells[p].outcome.Pending?)
  }

  lemma StillOrderly<V>(s: State<V>, t: State<V>)
    requires Orderly(s) && Still(s, t)
    ensures Orderly(t)
  {
  }

  lemma SettleStill<V>(s: State<V>, h: nat, outcome: Outcome<V>)
    requires Live(s, h) && !outcome.Pending?
    ensures var t := Settle(Use(s, h), s.handles[h].target, outcome); Still(s, t) && Grows(s, t)
  {
  }

  lemma RejectStill<V>(s: State<V>, h: nat, v: V)
    ensures Still(s, RejectStep(s, h, v)) && Grows(s, RejectStep(s, h, v))
  {
    if Live(s, h) { SettleStill(s, h, Rejected(v)); }
    hide Settle, Use;
  }

  lemma ResolveStill<V>(host: Host<V>, s: State<V>, h: nat, v: V)
    ensures Still(s, ResolveStep(host, s, h, v)) && Grows(s, ResolveStep(host, s, h, v))
  {
    if Live(s, h) {
      SettleStill(s, h, Rejected(host.cycle));
      if host.kind(v).Poison? { SettleStill(s, h, Rejected(host.kind(v).error)); }
      SettleStill(s, h, Fulfilled(v));
    }
    hide Settle;
  }

  lemma DeliverStill<V>(host: Host<V>, s: State<V>, h: nat, v: V)
    ensures Still(s, Deliver(host, s, h, v)) && Grows(s, Deliver(host, s, h, v))
  {
    hide RejectStep, ResolveStep;
    RejectStill(s, h, host.cycle);
    ResolveStill(host, s, h, v);
    if host.kind(v).Poison? { RejectStill(s, h, host.kind(v).error); }
  }

  lemma ThenOrderly<V>(s: State<V>, p: nat, ok: bool, fail: bool)
    requires Inv(s) && Orderly(s)
    ensures Orderly(ThenStep(s, p, ok, fail)) && Grows(s, ThenStep(s, p, ok, fail))
  {
    if p < |s.cells| {
      forall q | 0 <= q < |s.cells| ensures forall r :: r in s.cells[q].registered ==> r < |s.reactions| {
        assert CellOk(s, q);
      }
    }
  }

  lemma NewOrderly<V>(s: State<V>)
    requires Inv(s) && Orderly(s)
    ensures Orderly(NewStep(s)) && Grows(s, NewStep(s))
  {
    hide Inv;
  }

  lemma TaskOrderly<V>(s: State<V>)
    requires Inv(s) && Orderly(s)
    ensures Orderly(TaskStep(s)) && Grows(s, TaskStep(s))
  {
    hide CellOk, HandleOk, HolderOk;
    if s.head < |s.tasks| { assert TaskOk(s, s.head); }
  }

  /** The reaction a flush takes has not run before; it is one of the promise's own. */
  lemma TakenNew<V>(s: State<V>)
    requires Inv(s) && s.progress.Flushing? && s.progress.next < |s.cells[s.progress.p].waiting|
    ensures var c, r := s.cells[s.progress.p], s.cells[s.progress.p].waiting[s.progress.next];
            && !c.outcome.Pending? && r < |s.reactions| && r in c.registered && r !in c.ran
  {
    var c := s.cells[s.progress.p];
    assert CellOk(s, s.progress.p);
    assert c.registered[|c.ran|] == c.waiting[s.progress.next];
    forall i | 0 <= i < |c.ran| ensures c.ran[i] != c.waiting[s.progress.next] {
      assert c.registered[i] == c.ran[i];
    }
  }

  /** The flush takes a reaction; the handler for the outcome starts, if there is one. */
  function Started<V>(s: State<V>): State<V>
    requires s.progress.Flushing? && s.progress.p < |s.cells| && s.progress.next < |s.cells[s.progress.p].waiting|
    requires s.cells[s.progress.p].waiting[s.progress.next] < |s.reactions|
  {
    Taken(s).(progress := Calling(s.progress.p, s.progress.next + 1, s.reactions[s.cells[s.progress.p].waiting[s.progress.next]].handle))
  }

  lemma StartedOrderly<V>(s: State<V>)
    requires Inv(s) && Orderly(s) && s.progress.Flushing? && s.progress.next < |s.cells[s.progress.p].waiting|
    ensures s.cells[s.progress.p].waiting[s.progress.next] < |s.reactions| && !s.cells[s.progress.p].outcome.Pending?
    ensures Orderly(Started(s)) && Grows(s, Started(s)) && Orderly(Taken(s)) && Grows(s, Taken(s))
  {
    TakenNew(s);
    hide Inv;
  }

  lemma AdvanceOrderly<V>(host: Host<V>, s: State<V>)
    requires Inv(s) && Orderly(s)
    ensures Orderly(AdvanceStep(host, s)) && Grows(s, AdvanceStep(host, s))
  {
    hide CellOk, HandleOk, TaskOk, HolderOk, Deliver, RejectStep;
    if s.progress.Flushing? && s.progress.next < |s.cells[s.progress.p].waiting| {
      TakeInv(s);
      StartedOrderly(s);
      hide Inv, Orderly, Still;
      var t, reaction := Taken(s), s.reactions[s.cells[s.progress.p].waiting[s.progress.next]];
      match s.cells[s.progress.p].outcome
      case Fulfilled(v) =>
        DeliverStill(host, t, reaction.handle, v);
        StillOrderly(t, if reaction.ok then t else Deliver(host, t, reaction.handle, v));
      case Rejected(v) =>
        RejectStill(t, reaction.handle, v);
        StillOrderly(t, if reaction.fail then t else RejectStep(t, reaction.handle, v));
    }
  }

  lemma ReturnOrderly<V>(host: Host<V>, s: State<V>, v: V)
    requires Inv(s) && Orderly(s)
    ensures Orderly(ReturnStep(host, s, v)) && Grows(s, ReturnStep(host, s, v))
    ensures Orderly(ThrowStep(s, v)) && Grows(s, ThrowStep(s, v))
  {
    hide Inv, Deliver, RejectStep, Still;
    if s.progress.Calling? {
      var t := s.(progress := Flushing(s.progress.p, s.progress.next));
      ProgressInv(s, t.progress);
      DeliverStill(host, t, s.progress.handle, v);
      RejectStill(t, s.progress.handle, v);
      StillOrderly(t, Deliver(host, t, s.progress.handle, v));
      StillOrderly(t, RejectStep(t, s.progress.handle, v));
    }
  }

  lemma StepOrderly<V>(host: Host<V>, s: State<V>, e: Event<V>)
    requires Inv(s) && Orderly(s)
    ensures Orderly(Step(host, s, e)) && Grows(s, Step(host, s, e))
  {
    hide Inv, Orderly, Still, NewStep, ResolveStep, RejectStep, ThenStep, TaskStep, AdvanceStep, ReturnStep, ThrowStep;
    match e
    case New => NewOrderly(s);
    case Resolve(h, v) =>
      ResolveStill(host, s, h, v);
      StillOrderly(s, ResolveStep(host, s, h, v));
    case Reject(h, v) =>
      RejectStill(s, h, v);
      StillOrderly(s, RejectStep(s, h, v));
    case Then(p, ok, fail) => ThenOrderly(s, p, ok, fail);
    case RunTask => TaskOrderly(s);
    case Advance => AdvanceOrderly(host, s);
    case Return(v) => ReturnOrderly(host, s, v);
    case Throw(v) => ReturnOrderly(host, s, v);
  }

  lemma {:induction false} RunOrderly<V>(host: Host<V>, events: seq<Event<V>>)
    ensures Orderly(Run(host, Fresh(), events))
  {
    hide Orderly, Step;
    if events == [] {
      FreshOrderly<V>();
    } else {
      RunInv(host, events[..|events| - 1]);
      RunOrderly(host, events[..|events| - 1]);
      StepOrderly(host, Run(host, Fresh(), events[..|events| - 1]), events[|events| - 1]);
    }
  }

  lemma FreshOrderly<V>()
    ensures Orderly(Fresh<V>())
  {
  }

  // ----- one reaction with both handlers

  /** The handler of reaction `r` is running. */
  predicate Busy<V>(s: State<V>, r: nat) {
    s.progress.Calling? && r < |s.reactions| && s.progress.handle == s.reactions[r].handle
  }

  /** Reaction `r` of promise `p` was taken, and its handler has returned. */
  predicate Over<V>(s: State<V>, p: nat, r: nat) {
    p < |s.cells| && r in s.cells[p].ran && !Busy(s, r)
  }

  /** A reaction of `p` with a handler for either outcome. */
  ghost predicate Waits<V>(s: State<V>, p: nat, r: nat) {
    p < |s.cells| && r < |s.reactions| && s.reactions[r].ok && s.reactions[r].fail && r in s.cells[p].registered
  }

  lemma StillOver<V>(s: State<V>, t: State<V>, p: nat, r: nat)
    requires Still(s, t) && Waits(s, p, r)
    ensures Over(t, p, r) == Over(s, p, r) && Busy(t, r) == Busy(s, r)
  {
  }

  /** When `r` is being called, it is the reaction its promise took last. */
  lemma BusyIs<V>(s: State<V>, p: nat, r: nat)
    requires Inv(s) && Orderly(s) && Waits(s, p, r) && Busy(s, r)
    ensures s.progress.p == p && r in s.cells[p].ran && !s.cells[p].outcome.Pending?
  {
    assert CellOk(s, s.progress.p);
    var c, last := s.cells[s.progress.p], LastRan(s);
    assert c.registered[|c.ran| - 1] == last;
    assert last in c.registered;
  }

  lemma AdvanceOver<V>(host: Host<V>, s: State<V>, p: nat, r: nat)
    requires Inv(s) && Orderly(s) && Waits(s, p, r)
    ensures Over(AdvanceStep(host, s), p, r) == Over(s, p, r)
  {
    hide CellOk, HandleOk, TaskOk, HolderOk, Deliver, RejectStep;
    if s.progress.Flushing? && s.progress.next < |s.cells[s.progress.p].waiting| {
      TakenNew(s);
      hide Inv;
      var took := s.cells[s.progress.p].waiting[s.progress.next];
      var t, reaction := Taken(s), s.reactions[took];
      TakenOver(s, p, r);
      match s.cells[s.progress.p].outcome
      case Fulfilled(v) =>
        if !reaction.ok {
          DeliverStill(host, t, reaction.handle, v);
          StillOver(t, Deliver(host, t, reaction.handle, v), p, r);
        }
      case Rejected(v) =>
        if !reaction.fail {
          RejectStill(t, reaction.handle, v);
          StillOver(t, RejectStep(t, reaction.handle, v), p, r);
        }
    }
  }

  lemma TakenOver<V>(s: State<V>, p: nat, r: nat)
    requires Orderly(s) && Waits(s, p, r) && s.progress.Flushing? && s.progress.p < |s.cells| && s.progress.next < |s.cells[s.progress.p].waiting|
    requires var c, took := s.cells[s.progress.p], s.cells[s.progress.p].waiting[s.progress.next];
             took < |s.reactions| && took in c.registered && took !in c.ran
    ensures var took := s.cells[s.progress.p].waiting[s.progress.next];
            && Waits(Taken(s), p, r) && (r != took ==> Over(Taken(s), p, r) == Over(s, p, r) == Over(Started(s), p, r))
            && (r == took ==> !Over(Started(s), p, r) && !Over(s, p, r))
  {
    var took := s.cells[s.progress.p].waiting[s.progress.next];
    if took < r { assert s.reactions[took].handle < s.reactions[r].handle; }
    if r < took { assert s.reactions[r].handle < s.reactions[took].handle; }
  }

  lemma ReturnOver<V>(host: Host<V>, s: State<V>, v: V, p: nat, r: nat)
    requires Inv(s) && Orderly(s) && Waits(s, p, r)
    ensures Over(ReturnStep(host, s, v), p, r) == (Over(s, p, r) || (Busy(s, r) && r in s.cells[p].ran))
    ensures Over(ThrowStep(s, v), p, r) == (Over(s, p, r) || (Busy(s, r) && r in s.cells[p].ran))
  {
    hide Inv, Deliver, RejectStep;
    if s.progress.Calling? {
      var t := s.(progress := Flushing(s.progress.p, s.progress.next));
      DeliverStill(host, t, s.progress.handle, v);
      StillOver(t, Deliver(host, t, s.progress.handle, v), p, r);
      RejectStill(t, s.progress.handle, v);
      StillOver(t, RejectStep(t, s.progress.handle, v), p, r);
    }
  }

  /** A reaction is over only by the return of its own handler. */
  lemma StepOver<V>(host: Host<V>, s: State<V>, e: Event<V>, p: nat, r: nat)
    requires Inv(s) && Orderly(s) && Waits(s, p, r)
    ensures Waits(Step(host, s, e), p, r)
    ensures Over(Step(host, s, e), p, r) == (Over(s, p, r) || ((e.Return? || e.Throw?) && Busy(s, r)))
  {
    StepWaits(host, s, e, p, r);
    hide Inv, Orderly, Still, ResolveStep, RejectStep, AdvanceStep, ReturnStep, ThrowStep;
    match e
    case New =>
    case Resolve(h, v) =>
      ResolveStill(host, s, h, v);
      StillOver(s, ResolveStep(host, s, h, v), p, r);
    case Reject(h, v) =>
      RejectStill(s, h, v);
      StillOver(s, RejectStep(s, h, v), p, r);
    case Then(q, ok, fail) =>
    case RunTask =>
    case Advance => AdvanceOver(host, s, p, r);
    case Return(v) => ReturnOver(host, s, v, p, r);
      if Busy(s, r) { BusyIs(s, p, r); }
    case Throw(v) => ReturnOver(host, s, v, p, r);
      if Busy(s, r) { BusyIs(s, p, r); }
  }

  lemma StepWaits<V>(host: Host<V>, s: State<V>, e: Event<V>, p: nat, r: nat)
    requires Inv(s) && Orderly(s) && Waits(s, p, r)
    ensures Waits(Step(host, s, e), p, r)
  {
    hide Inv, Orderly, Step;
    StepOrderly(host, s, e);
    StepEvolves(host, s, e);
    assert CellEvolves(s.cells[p], Step(host, s, e).cells[p]);
  }

  // ----- a promise that only one handle can settle

  /** Promise `c` is pending and `own` its handle, which belongs to no reaction. */
  ghost predicate Kept<V>(s: State<V>, own: nat, c: nat) {
    own < |s.handles| && s.handles[own] == Handle(c, false) && c < |s.cells| && s.cells[c].outcome.Pending?
    && s.cells[c].holder == ByHandle(own)
  }

  /** No reaction reports to `own`. */
  ghost predicate Foreign<V>(s: State<V>, own: nat) {
    (forall r :: 0 <= r < |s.reactions| ==> s.reactions[r].handle != own) && (s.progress.Calling? ==> s.progress.handle != own)
  }

  lemma SettleKept<V>(s: State<V>, h: nat, outcome: Outcome<V>, own: nat, c: nat)
    requires Inv(s) && Kept(s, own, c) && h != own && Live(s, h)
    ensures Kept(Settle(Use(s, h), s.handles[h].target, outcome), own, c)
  {
    assert HandleOk(s, h);
  }

  lemma RejectKept<V>(s: State<V>, h: nat, v: V, own: nat, c: nat)
    requires Inv(s) && Kept(s, own, c) && h != own
    ensures Kept(RejectStep(s, h, v), own, c)
  {
    if Live(s, h) { SettleKept(s, h, Rejected(v), own, c); }
    hide Inv, Settle, Use, Kept;
  }

  lemma ResolveKept<V>(host: Host<V>, s: State<V>, h: nat, v: V, own: nat, c: nat)
    requires Inv(s) && Kept(s, own, c) && h != own
    ensures Kept(ResolveStep(host, s, h, v), own, c)
  {
    if Live(s, h) {
      assert HandleOk(s, h);
      SettleKept(s, h, Rejected(host.cycle), own, c);
      if host.kind(v).Poison? { SettleKept(s, h, Rejected(host.kind(v).error), own, c); }
      SettleKept(s, h, Fulfilled(v), own, c);
    }
    hide Inv, Settle;
  }

  lemma DeliverKept<V>(host: Host<V>, s: State<V>, h: nat, v: V, own: nat, c: nat)
    requires Inv(s) && Kept(s, own, c) && h != own
    ensures Kept(Deliver(host, s, h, v), own, c)
  {
    hide Inv, RejectStep, ResolveStep, Kept;
    RejectKept(s, h, host.cycle, own, c);
    ResolveKept(host, s, h, v, own, c);
    if host.kind(v).Poison? { RejectKept(s, h, host.kind(v).error, own, c); }
  }

  lemma AdvanceKept<V>(host: Host<V>, s: State<V>, own: nat, c: nat)
    requires Inv(s) && Kept(s, own, c) && Foreign(s, own)
    ensures Kept(AdvanceStep(host, s), own, c)
  {
    hide CellOk, HandleOk, TaskOk, HolderOk, Deliver, RejectStep;
    if s.progress.Flushing? && s.progress.next < |s.cells[s.progress.p].waiting| {
      TakeInv(s);
      hide Inv;
      var t, reaction := Taken(s), s.reactions[s.cells[s.progress.p].waiting[s.progress.next]];
      assert Kept(t, own, c);
      match s.cells[s.progress.p].outcome
      case Fulfilled(v) => DeliverKept(host, t, reaction.handle, v, own, c);
      case Rejected(v) => RejectKept(t, reaction.handle, v, own, c);
    }
  }

  lemma ReturnKept<V>(host: Host<V>, s: State<V>, v: V, own: nat, c: nat)
    requires Inv(s) && Kept(s, own, c) && Foreign(s, own)
    ensures Kept(ReturnStep(host, s, v), own, c) && Kept(ThrowStep(s, v), own, c)
  {
    hide Inv, Deliver, RejectStep;
    if s.progress.Calling? {
      var t := s.(progress := Flushing(s.progress.p, s.progress.next));
      ProgressInv(s, t.progress);
      DeliverKept(host, t, s.progress.handle, v, own, c);
      RejectKept(t, s.progress.handle, v, own, c);
    }
  }

  lemma TaskKept<V>(s: State<V>, own: nat, c: nat)
    requires Inv(s) && Kept(s, own, c)
    ensures Kept(TaskStep(s), own, c)
  {
    if s.head < |s.tasks| { assert TaskOk(s, s.head); }
    hide CellOk, HandleOk, HolderOk;
  }

  /** As long as nobody uses its handle, the promise stays pending. */
  lemma StepKept<V>(host: Host<V>, s: State<V>, e: Event<V>, own: nat, c: nat)
    requires Inv(s) && Kept(s, own, c) && Foreign(s, own)
    requires (e.Resolve? || e.Reject?) ==> e.h != own
    ensures Kept(Step(host, s, e), own, c)
  {
    hide Inv, ResolveStep, RejectStep, AdvanceStep, ReturnStep, ThrowStep, TaskStep;
    match e
    case New =>
    case Resolve(h, v) => ResolveKept(host, s, h, v, own, c);
    case Reject(h, v) => RejectKept(s, h, v, own, c);
    case Then(p, ok, fail) =>
    case RunTask => TaskKept(s, own, c);
    case Advance => AdvanceKept(host, s, own, c);
    case Return(v) => ReturnKept(host, s, v, own, c);
    case Throw(v) => ReturnKept(host, s, v, own, c);
  }

  lemma StillForeign<V>(s: State<V>, t: State<V>, own: nat)
    requires Foreign(s, own) && Still(s, t)
    ensures Foreign(t, own)
  {
  }

  lemma StepForeign<V>(host: Host<V>, s: State<V>, e: Event<V>, own: nat)
    requires Inv(s) && Orderly(s) && Foreign(s, own) && own < |s.handles|
    ensures Foreign(Step(host, s, e), own)
  {
    hide Deliver, RejectStep, ResolveStep, CellOk, TaskOk, HolderOk, HandleOk;
    match e
    case New =>
    case Resolve(h, v) => ResolveStill(host, s, h, v);
    case Reject(h, v) => RejectStill(s, h, v);
    case Then(p, ok, fail) =>
    case RunTask =>
    case Advance => AdvanceForeign(host, s, own);
    case Return(v) => ReturnForeign(host, s, v, own);
    case Throw(v) => ReturnForeign(host, s, v, own);
  }

  lemma AdvanceForeign<V>(host: Host<V>, s: State<V>, own: nat)
    requires Inv(s) && Foreign(s, own)
    ensures Foreign(AdvanceStep(host, s), own)
  {
    hide CellOk, HandleOk, TaskOk, HolderOk, Deliver, RejectStep;
    if s.progress.Flushing? && s.progress.next < |s.cells[s.progress.p].waiting| {
      TakenNew(s);
      hide Inv, Still;
      var t, reaction := Taken(s), s.reactions[s.cells[s.progress.p].waiting[s.progress.next]];
      match s.cells[s.progress.p].outcome
      case Fulfilled(v) =>
        DeliverStill(host, t, reaction.handle, v);
        StillForeign(t, Deliver(host, t, reaction.handle, v), own);
      case Rejected(v) =>
        RejectStill(t, reaction.handle, v);
        StillForeign(t, RejectStep(t, reaction.handle, v), own);
    }
  }

  lemma ReturnForeign<V>(host: Host<V>, s: State<V>, v: V, own: nat)
    requires Foreign(s, own)
    ensures Foreign(ReturnStep(host, s, v), own) && Foreign(ThrowStep(s, v), own)
  {
    hide Deliver, RejectStep, Still;
    if s.progress.Calling? {
      var t := s.(progress := Flushing(s.progress.p, s.progress.next));
      DeliverStill(host, t, s.progress.handle, v);
      StillForeign(t, Deliver(host, t, s.progress.handle, v), own);
      RejectStill(t, s.progress.handle, v);
      StillForeign(t, RejectStep(t, s.progress.handle, v), own);
    }
  }
}
