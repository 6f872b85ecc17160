/** What every run of the promise machine guarantees, whatever handles are called, how often, and by whom. */
module PromiseRuns {
  import opened PromiseProtocol
  import opened PromiseSafety

  /** Promises only move on: a settled one keeps its outcome, and reactions are only added to what is registered and run. */
  ghost predicate Evolves<V>(s: State<V>, t: State<V>) {
    |s.cells| <= |t.cells| && forall p :: 0 <= p < |s.cells| ==> CellEvolves(s.cells[p], t.cells[p])
  }

  ghost predicate CellEvolves<V>(c: Cell<V>, d: Cell<V>) {
    (!c.outcome.Pending? ==> d.outcome == c.outcome) && c.ran <= d.ran && c.registered <= d.registered
  }

  lemma EvolvesOn<V>(s: State<V>, t: State<V>, u: State<V>)
    requires Evolves(s, t) && Evolves(t, u)
    ensures Evolves(s, u)
  {
    forall p | 0 <= p < |s.cells| ensures CellEvolves(s.cells[p], u.cells[p]) {
      assert CellEvolves(s.cells[p], t.cells[p]) && CellEvolves(t.cells[p], u.cells[p]);
    }
  }

  lemma RejectEvolves<V>(s: State<V>, h: nat, v: V)
    requires Inv(s)
    ensures Evolves(s, RejectStep(s, h, v))
  {
    if Live(s, h) { assert HandleOk(s, h) && CellOk(s, s.handles[h].target); }
  }

  lemma ResolveEvolves<V>(host: Host<V>, s: State<V>, h: nat, v: V)
    requires Inv(s)
    ensures Evolves(s, ResolveStep(host, s, h, v))
  {
    if Live(s, h) { assert HandleOk(s, h) && CellOk(s, s.handles[h].target); }
  }

  lemma DeliverEvolves<V>(host: Host<V>, s: State<V>, h: nat, v: V)
    requires Inv(s)
    ensures Evolves(s, Deliver(host, s, h, v))
  {
    hide Inv, RejectStep, ResolveStep;
    RejectEvolves(s, h, host.cycle);
    ResolveEvolves(host, s, h, v);
    if host.kind(v).Poison? { RejectEvolves(s, h, host.kind(v).error); }
  }

  lemma AdvanceEvolves<V>(host: Host<V>, s: State<V>)
    requires Inv(s)
    ensures Evolves(s, AdvanceStep(host, s))
  {
    hide Deliver, RejectStep, CellOk, HandleOk, TaskOk, HolderOk;
    if s.progress.Flushing? && s.progress.next < |s.cells[s.progress.p].waiting| {
      TakeInv(s);
      hide Inv;
      var t, reaction := Taken(s), s.reactions[s.cells[s.progress.p].waiting[s.progress.next]];
      assert Evolves(s, t);
      match s.cells[s.progress.p].outcome
      case Fulfilled(v) =>
        DeliverEvolves(host, t, reaction.handle, v);
        EvolvesOn(s, t, Deliver(host, t, reaction.handle, v));
      case Rejected(v) =>
        RejectEvolves(t, reaction.handle, v);
        EvolvesOn(s, t, RejectStep(t, reaction.handle, v));
    }
  }

  lemma ReturnEvolves<V>(host: Host<V>, s: State<V>, v: V)
    requires Inv(s)
    ensures Evolves(s, ReturnStep(host, s, v)) && Evolves(s, ThrowStep(s, v))
  {
    hide Inv, Deliver, RejectStep;
    if s.progress.Calling? {
      var t := s.(progress := Flushing(s.progress.p, s.progress.next));
      ProgressInv(s, t.progress);
      DeliverEvolves(host, t, s.progress.handle, v);
      RejectEvolves(t, s.progress.handle, v);
    }
  }

  lemma StepEvolves<V>(host: Host<V>, s: State<V>, e: Event<V>)
    requires Inv(s)
    ensures Evolves(s, Step(host, s, e))
  {
    hide ResolveStep, RejectStep, AdvanceStep, ReturnStep, ThrowStep;
    match e
    case New =>
    case Resolve(h, v) => ResolveEvolves(host, s, h, v);
    case Reject(h, v) => RejectEvolves(s, h, v);
    case Then(p, ok, fail) =>
    case RunTask =>
    case Advance => AdvanceEvolves(host, s);
    case Return(v) => ReturnEvolves(host, s, v);
    case Throw(v) => ReturnEvolves(host, s, v);
  }

  /** Once settled, a promise keeps its outcome for the rest of every run. */
  lemma {:induction false} SettledForever<V>(host: Host<V>, before: seq<Event<V>>, after: seq<Event<V>>)
    ensures Evolves(Run(host, Fresh(), before), Run(host, Fresh(), before + after))
  {
    hide Evolves, Step;
    if after == [] {
      assert before + after == before;
      EvolvesSelf(Run(host, Fresh(), before));
    } else {
      var all, front := before + after, after[..|after| - 1];
      assert all[..|all| - 1] == before + front;
      SettledForever(host, before, front);
      RunInv(host, before + front);
      StepEvolves(host, Run(host, Fresh(), before + front), after[|after| - 1]);
      EvolvesOn(Run(host, Fresh(), before), Run(host, Fresh(), before + front), Run(host, Fresh(), all));
    }
  }

  lemma EvolvesSelf<V>(s: State<V>)
    ensures Evolves(s, s)
  {
  }

  /** Reactions run in the order they were registered, none twice, and none before the promise is settled. */
  lemma RunReactions<V>(host: Host<V>, events: seq<Event<V>>, p: nat)
    requires p < |Run(host, Fresh(), events).cells|
    ensures var c := Run(host, Fresh(), events).cells[p];
            && c.ran <= c.registered && (c.outcome.Pending? ==> c.ran == [])
            && forall i, j :: 0 <= i < j < |c.registered| ==> c.registered[i] < c.registered[j]
  {
    RunInv(host, events);
    hide Run;
    assert CellOk(Run(host, Fresh(), events), p);
  }

  /** When no task is queued and no flush is under way, every reaction of every settled promise has run, and every
      pending promise can still be settled, by exactly one handle. */
  lemma QuietRuns<V>(host: Host<V>, events: seq<Event<V>>, p: nat)
    requires var s := Run(host, Fresh(), events); s.progress.Idle? && s.head == |s.tasks| && p < |s.cells|
    ensures var s := Run(host, Fresh(), events);
            && (!s.cells[p].outcome.Pending? ==> s.cells[p].ran == s.cells[p].registered)
            && (s.cells[p].outcome.Pending? ==>
                  exists h :: OnlyHandle(s, p, h))
  {
    RunInv(host, events);
    hide Run;
    var s := Run(host, Fresh(), events);
    assert CellOk(s, p) && HolderOk(s, p);
    if s.cells[p].outcome.Pending? {
      var h := s.cells[p].holder.h;
      forall i | 0 <= i < |s.handles| ensures s.handles[i] == Handle(p, false) <==> i == h {
        assert HandleOk(s, i);
      }
      assert OnlyHandle(s, p, h);
    }
  }

  /** The unused handle `h` is the only one that can settle `p`. */
  ghost predicate OnlyHandle<V>(s: State<V>, p: nat, h: nat) {
    h < |s.handles| && forall i :: 0 <= i < |s.handles| ==> (s.handles[i] == Handle(p, false) <==> i == h)
  }

  /** Whoever holds an unused handle is the only one who does, and its promise is still pending. */
  lemma OneHandle<V>(host: Host<V>, events: seq<Event<V>>, g: nat, h: nat)
    requires var s := Run(host, Fresh(), events); g < |s.handles| && h < |s.handles| && !s.handles[g].used && !s.handles[h].used
    ensures var s := Run(host, Fresh(), events);
            && s.handles[h].target < |s.cells| && s.cells[s.handles[h].target].outcome.Pending?
            && (s.handles[g].target == s.handles[h].target ==> g == h)
  {
    RunInv(host, events);
    hide Run;
    var s := Run(host, Fresh(), events);
    assert HandleOk(s, g) && HandleOk(s, h) && CellOk(s, s.handles[h].target);
  }
}
