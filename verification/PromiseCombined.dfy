/** Promise.all on the promise machine: its element handlers are reactions of the elements, and its result is settled
    through the one handle that only they can use. */
module PromiseCombined {
  import opened Options
  import P = PromiseProtocol
  import A = PromiseAll
  import opened PromiseSafety
  import opened PromiseRuns
  import opened PromiseReactions

  /** The host, the array of values as a value, and `undefined`. */
  datatype Kit<!V> = Kit(host: P.Host<V>, pack: seq<Option<V>> -> V, undef: V)

  /** An element: its promise, and the reaction `all` registered there. */
  datatype Element = Element(p: nat, r: nat)

  /** One call of `all`: the machine's history, the handle and number of the combined promise, the elements reached, what the
      counter was told, and of the handlers which have returned, and what the first failure was. */
  datatype All<V> = All(trace: seq<P.Event<V>>, own: nat, c: nat, elements: seq<Element>, reports: seq<A.Event<V>>,
                        handled: seq<nat>, failed: Option<V>, thrown: Option<V>)

  /** Anything else happens; the iteration reaches an element whose promise is `p`, ends, or throws; the handler of element
      `k`, which the flush is calling, runs and returns. */
  datatype Move<V> = Outside(e: P.Event<V>) | Reach(p: nat) | End | Break(v: V) | Handler(k: nat)

  function Now<V>(kit: Kit<V>, trace: seq<P.Event<V>>): P.State<V> {
    P.Run(kit.host, P.Fresh(), trace)
  }

  function Start<V>(kit: Kit<V>, before: seq<P.Event<V>>): All<V> {
    All(before + [P.New], |Now(kit, before).handles|, |Now(kit, before).cells|, [], [], [], None, None)
  }

  ghost predicate Ours<V>(s: P.State<V>, elements: seq<Element>) {
    exists k :: 0 <= k < |elements| && Busy(s, elements[k].r)
  }

  /** The combined promise's functions are known to `all` alone, and its handlers return by themselves. */
  ghost predicate Allowed<V>(s: P.State<V>, a: All<V>, e: P.Event<V>) {
    ((e.Resolve? || e.Reject?) ==> e.h != a.own) && ((e.Return? || e.Throw?) ==> !Ours(s, a.elements))
  }

  /** The counter is told, and at zero the combined promise is resolved with the values. */
  function Tell<V>(kit: Kit<V>, a: All<V>, e: A.Event<V>): All<V> {
    var was, now := A.Run(a.reports).resolved, A.Run(a.reports + [e]).resolved;
    a.(reports := a.reports + [e],
       trace := if |now| > |was| then a.trace + [P.Resolve(a.own, kit.pack(now[|now| - 1]))] else a.trace)
  }

  function First<V>(failed: Option<V>, v: V): Option<V> {
    if failed.Some? then failed else Some(v)
  }

  predicate Iterating<V>(a: All<V>) {
    !A.Ended(a.reports) && a.thrown.None?
  }

  ghost function Step<V>(kit: Kit<V>, a: All<V>, m: Move<V>): All<V> {
    var s := Now(kit, a.trace);
    match m
    case Outside(e) => if Allowed(s, a, e) then a.(trace := a.trace + [e]) else a
    case Reach(p) =>
      if p < |s.cells| && Iterating(a) then
        a.(trace := a.trace + [P.Then(p, true, true)], elements := a.elements + [Element(p, |s.reactions|)], reports := a.reports + [A.Add])
      else a
    case End => if Iterating(a) then Tell(kit, a, A.Close) else a
    case Break(v) =>
      if Iterating(a) then a.(trace := a.trace + [P.Reject(a.own, v)], failed := First(a.failed, v), thrown := Some(v)) else a
    case Handler(k) =>
      if k < |a.elements| && Busy(s, a.elements[k].r) && a.elements[k].p < |s.cells| then
        match s.cells[a.elements[k].p].outcome
        case Fulfilled(v) =>
          var t := Tell(kit, a, A.Report(k, v));
          t.(trace := t.trace + [P.Return(kit.undef)], handled := t.handled + [k])
        case Rejected(v) =>
          a.(trace := a.trace + [P.Reject(a.own, v)] + [P.Return(kit.undef)], handled := a.handled + [k], failed := First(a.failed, v))
        case Pending => a
      else a
  }

  ghost function Run<V>(kit: Kit<V>, before: seq<P.Event<V>>, moves: seq<Move<V>>): All<V> {
    if moves == [] then Start(kit, before) else Step(kit, Run(kit, before, moves[..|moves| - 1]), moves[|moves| - 1])
  }

  lemma OneMore<V>(kit: Kit<V>, trace: seq<P.Event<V>>, e: P.Event<V>)
    ensures Now(kit, trace + [e]) == P.Step(kit.host, Now(kit, trace), e)
    ensures P.Inv(Now(kit, trace)) && Orderly(Now(kit, trace))
  {
    assert (trace + [e])[..|trace|] == trace;
    RunInv(kit.host, trace);
    RunOrderly(kit.host, trace);
  }

  // ----- what holds in every run

  ghost predicate Links<V>(s: P.State<V>, a: All<V>) {
    && a.own < |s.handles| && a.c < |s.cells| && s.handles[a.own].target == a.c && Foreign(s, a.own)
    && |a.elements| == A.Elements(a.reports)
    && (forall k :: 0 <= k < |a.elements| ==> Waits(s, a.elements[k].p, a.elements[k].r))
    && forall i, j :: 0 <= i < j < |a.elements| ==> a.elements[i].r < a.elements[j].r
  }

  /** How element `k` stands: handled exactly when its reaction is over, reported exactly when handled with a value. */
  ghost predicate Marked<V>(s: P.State<V>, a: All<V>, k: nat)
    requires k < |a.elements|
  {
    var p := a.elements[k].p;
    && p < |s.cells|
    && (k in a.handled <==> Over(s, p, a.elements[k].r))
    && (k in a.handled ==> !s.cells[p].outcome.Pending?)
    && (k in a.handled && s.cells[p].outcome.Rejected? ==> a.failed.Some?)
    && A.First(a.reports, k) == if k in a.handled && s.cells[p].outcome.Fulfilled? then Some(s.cells[p].outcome.value) else None
  }

  ghost predicate Cause<V>(s: P.State<V>, a: All<V>, v: V) {
    a.thrown == Some(v) || exists k: nat :: Failing(s, a, k, v)
  }

  ghost predicate Failing<V>(s: P.State<V>, a: All<V>, k: nat, v: V) {
    k < |a.elements| && a.elements[k].p < |s.cells| && s.cells[a.elements[k].p].outcome == P.Rejected(v)
  }

  ghost predicate Marks<V>(s: P.State<V>, a: All<V>) {
    && (forall k: nat :: k < |a.elements| ==> Marked(s, a, k))
    && (forall i :: 0 <= i < |a.handled| ==> a.handled[i] < |a.elements|)
    && (forall i, j :: 0 <= i < j < |a.handled| ==> a.handled[i] != a.handled[j])
    && (a.failed.Some? ==> Cause(s, a, a.failed.value))
    && (a.thrown.Some? ==> a.failed.Some? && !A.Ended(a.reports))
  }

  /** An array of values is no thenable, and not the combined promise. */
  predicate Ordinary<V>(kit: Kit<V>, a: All<V>) {
    var resolved := A.Run(a.reports).resolved;
    resolved != [] ==> kit.host.kind(kit.pack(resolved[0])).Plain? && !kit.host.isPromise(kit.pack(resolved[0]), a.c)
  }

  /** The combined promise: rejected with the first failure, or fulfilled with all values, or pending and ours to settle. */
  ghost predicate Decided<V>(kit: Kit<V>, s: P.State<V>, a: All<V>) {
    Ordinary(kit, a) ==>
      && a.c < |s.cells|
      && (a.failed.Some? ==> s.cells[a.c].outcome == P.Rejected(a.failed.value) && A.Run(a.reports).resolved == [])
      && (A.Run(a.reports).resolved != [] ==> s.cells[a.c].outcome == P.Fulfilled(kit.pack(A.Run(a.reports).resolved[0])))
      && (a.failed.None? && A.Run(a.reports).resolved == [] ==> Kept(s, a.own, a.c))
  }

  ghost predicate Consistent<V>(kit: Kit<V>, a: All<V>) {
    var s := Now(kit, a.trace);
    Links(s, a) && Marks(s, a) && Decided(kit, s, a)
  }

  // ----- one event of the machine

  lemma LinksOn<V>(kit: Kit<V>, a: All<V>, e: P.Event<V>)
    requires Links(Now(kit, a.trace), a)
    ensures Links(Now(kit, a.trace + [e]), a)
  {
    var s := Now(kit, a.trace);
    OneMore(kit, a.trace, e);
    StepOrderly(kit.host, s, e);
    StepForeign(kit.host, s, e, a.own);
    forall k | 0 <= k < |a.elements| ensures Waits(P.Step(kit.host, s, e), a.elements[k].p, a.elements[k].r) {
      StepWaits(kit.host, s, e, a.elements[k].p, a.elements[k].r);
    }
    hide Now, P.Step, Foreign, Waits, P.Inv, Orderly;
  }

  /** Element `k` stands as before, unless its own handler has just returned. */
  lemma MarkedOn<V>(kit: Kit<V>, a: All<V>, e: P.Event<V>, k: nat)
    requires Links(Now(kit, a.trace), a) && k < |a.elements| && Marked(Now(kit, a.trace), a, k)
    requires (e.Return? || e.Throw?) ==> !Busy(Now(kit, a.trace), a.elements[k].r)
    ensures Marked(Now(kit, a.trace + [e]), a, k)
  {
    var s := Now(kit, a.trace);
    OneMore(kit, a.trace, e);
    assert Waits(s, a.elements[k].p, a.elements[k].r);
    StepOver(kit.host, s, e, a.elements[k].p, a.elements[k].r);
    StepEvolves(kit.host, s, e);
    assert CellEvolves(s.cells[a.elements[k].p], P.Step(kit.host, s, e).cells[a.elements[k].p]);
    hide Now, P.Step, Links, P.Inv, Orderly, Over, Busy;
  }

  /** An event that does not touch the combined promise's own handle leaves it as it is. */
  lemma DecidedOn<V>(kit: Kit<V>, a: All<V>, e: P.Event<V>)
    requires Links(Now(kit, a.trace), a) && Decided(kit, Now(kit, a.trace), a)
    requires (e.Resolve? || e.Reject?) ==> e.h != a.own
    ensures Decided(kit, Now(kit, a.trace + [e]), a)
  {
    var s := Now(kit, a.trace);
    OneMore(kit, a.trace, e);
    if Kept(s, a.own, a.c) { StepKept(kit.host, s, e, a.own, a.c); }
    StepEvolves(kit.host, s, e);
    assert CellEvolves(s.cells[a.c], P.Step(kit.host, s, e).cells[a.c]);
    hide Now, P.Step, P.Inv, Orderly, Kept, A.Run;
  }

  /** Its handle settles it, the first time. */
  lemma OwnResolve<V>(kit: Kit<V>, trace: seq<P.Event<V>>, own: nat, c: nat, v: V)
    requires Kept(Now(kit, trace), own, c) && kit.host.kind(v).Plain? && !kit.host.isPromise(v, c)
    ensures var t := Now(kit, trace + [P.Resolve(own, v)]); c < |t.cells| && t.cells[c].outcome == P.Fulfilled(v)
  {
    OneMore(kit, trace, P.Resolve(own, v));
    hide Now, P.Inv, Orderly;
  }

  lemma OwnReject<V>(kit: Kit<V>, trace: seq<P.Event<V>>, own: nat, c: nat, v: V)
    requires c < |Now(kit, trace).cells| && own < |Now(kit, trace).handles|
    ensures var s, t := Now(kit, trace), Now(kit, trace + [P.Reject(own, v)]);
            && c < |t.cells| && (Kept(s, own, c) ==> t.cells[c].outcome == P.Rejected(v))
            && (!s.cells[c].outcome.Pending? ==> t.cells[c].outcome == s.cells[c].outcome)
  {
    var s := Now(kit, trace);
    OneMore(kit, trace, P.Reject(own, v));
    StepEvolves(kit.host, s, P.Reject(own, v));
    assert CellEvolves(s.cells[c], P.Step(kit.host, s, P.Reject(own, v)).cells[c]);
    hide Now, P.Inv, Orderly;
  }

  /** Once all elements are reported and the iteration is over, nothing has failed. */
  lemma NoFailure<V>(s: P.State<V>, a: All<V>)
    requires Marks(s, a) && |a.elements| == A.Elements(a.reports) && A.Run(a.reports).resolved != []
    ensures a.failed.None? && a.thrown.None?
  {
    A.ResolvesOnce(a.reports);
    hide A.Run, A.First, A.Elements, A.Ended;
    if a.failed.Some? && a.thrown.None? {
      var v := a.failed.value;
      if exists k: nat :: Failing(s, a, k, v) {
        var k: nat :| Failing(s, a, k, v);
        assert Marked(s, a, k);
      }
    }
  }

  lemma OutsideKeeps<V>(kit: Kit<V>, a: All<V>, e: P.Event<V>)
    requires Consistent(kit, a) && Allowed(Now(kit, a.trace), a, e)
    ensures Consistent(kit, a.(trace := a.trace + [e]))
  {
    var s, t := Now(kit, a.trace), Now(kit, a.trace + [e]);
    LinksOn(kit, a, e);
    forall k: nat | k < |a.elements| ensures Marked(t, a, k) { MarkedOn(kit, a, e, k); }
    DecidedOn(kit, a, e);
    CauseOn(kit, a, e);
    Retraced(kit, t, a, a.trace + [e]);
    hide Now, Links, Marked, Decided, Allowed;
  }

  lemma CauseOn<V>(kit: Kit<V>, a: All<V>, e: P.Event<V>)
    requires Links(Now(kit, a.trace), a) && (a.failed.Some? ==> Cause(Now(kit, a.trace), a, a.failed.value))
    ensures a.failed.Some? ==> Cause(Now(kit, a.trace + [e]), a, a.failed.value)
  {
    var s := Now(kit, a.trace);
    OneMore(kit, a.trace, e);
    StepEvolves(kit.host, s, e);
    if a.failed.Some? && a.thrown != a.failed {
      var k: nat :| Failing(s, a, k, a.failed.value);
      assert CellEvolves(s.cells[a.elements[k].p], P.Step(kit.host, s, e).cells[a.elements[k].p]);
      assert Failing(P.Step(kit.host, s, e), a, k, a.failed.value);
    }
    hide Now, P.Inv, Orderly, P.Step, Links;
  }

  /** What holds of the rest does not depend on how long the history is. */
  lemma Retraced<V>(kit: Kit<V>, s: P.State<V>, a: All<V>, trace: seq<P.Event<V>>)
    ensures Links(s, a.(trace := trace)) == Links(s, a) && Marks(s, a.(trace := trace)) == Marks(s, a)
    ensures Decided(kit, s, a.(trace := trace)) == Decided(kit, s, a)
  {
    var b := a.(trace := trace);
    forall v | true ensures Cause(s, b, v) == Cause(s, a, v) {
      if Cause(s, a, v) && a.thrown != Some(v) { var k: nat :| Failing(s, a, k, v); assert Failing(s, b, k, v); }
      if Cause(s, b, v) && a.thrown != Some(v) { var k: nat :| Failing(s, b, k, v); assert Failing(s, a, k, v); }
    }
    forall k: nat | k < |a.elements| ensures Marked(s, b, k) == Marked(s, a, k) {}
    hide A.Run, Kept;
  }

  // ----- the moves of `all`

  lemma AddedReports<V>(a: All<V>, k: nat)
    requires Iterating(a)
    ensures A.Elements(a.reports + [A.Add]) == A.Elements(a.reports) + 1 && !A.Ended(a.reports + [A.Add])
    ensures A.First(a.reports + [A.Add], k) == A.First(a.reports, k)
    ensures A.Run(a.reports + [A.Add]).resolved == A.Run(a.reports).resolved == []
  {
    A.Extend(a.reports, A.Add, k);
    A.ResolvesOnce(a.reports);
    A.ResolvesOnce(a.reports + [A.Add]);
    hide A.Run, A.First, A.Elements, A.Ended;
  }

  lemma ReachMarks<V>(s: P.State<V>, a: All<V>, x: Element)
    requires Links(s, a) && Marks(s, a) && Iterating(a) && Waits(s, x.p, x.r) && !Over(s, x.p, x.r)
    ensures Marks(s, a.(elements := a.elements + [x], reports := a.reports + [A.Add]))
  {
    var b := a.(elements := a.elements + [x], reports := a.reports + [A.Add]);
    A.FirstBeyond(a.reports, |a.elements|);
    AddedReports(a, 0);
    hide A.Run, A.First, A.Elements, A.Ended, Waits, Over, Foreign;
    forall k: nat | k < |b.elements| ensures Marked(s, b, k) {
      AddedReports(a, k);
      if k < |a.elements| { assert Marked(s, a, k); }
    }
    if a.failed.Some? && a.thrown != a.failed {
      var k: nat :| Failing(s, a, k, a.failed.value);
      assert Failing(s, b, k, a.failed.value);
    }
  }

  lemma ReachRest<V>(kit: Kit<V>, s: P.State<V>, a: All<V>, x: Element)
    requires Links(s, a) && Decided(kit, s, a) && Iterating(a) && Waits(s, x.p, x.r)
    requires forall k :: 0 <= k < |a.elements| ==> a.elements[k].r < x.r
    ensures var b := a.(elements := a.elements + [x], reports := a.reports + [A.Add]); Links(s, b) && Decided(kit, s, b)
  {
    AddedReports(a, 0);
    hide A.Run, A.First, A.Elements, A.Ended, Waits, Foreign, Kept;
  }

  lemma ReachKeeps<V>(kit: Kit<V>, a: All<V>, p: nat)
    requires Consistent(kit, a) && p < |Now(kit, a.trace).cells| && Iterating(a)
    ensures Consistent(kit, Step(kit, a, Reach(p)))
  {
    var s, e := Now(kit, a.trace), P.Then(p, true, true);
    var t, x := Now(kit, a.trace + [e]), Element(p, |Now(kit, a.trace).reactions|);
    OutsideKeeps(kit, a, e);
    Retraced(kit, t, a, a.trace + [e]);
    OneMore(kit, a.trace, e);
    NewReaction(kit.host, s, p);
    assert forall k :: 0 <= k < |a.elements| ==> a.elements[k].r < x.r by {
      assert forall k :: 0 <= k < |a.elements| ==> Waits(s, a.elements[k].p, a.elements[k].r);
    }
    hide Now, P.Step, P.Inv, Orderly, Links, Marks, Decided, Waits, Over, Iterating;
    ReachMarks(t, a, x);
    ReachRest(kit, t, a, x);
    Retraced(kit, t, a.(elements := a.elements + [x], reports := a.reports + [A.Add]), a.trace + [e]);
  }

  lemma NewReaction<V>(host: P.Host<V>, s: P.State<V>, p: nat)
    requires P.Inv(s) && p < |s.cells|
    ensures var t := P.Step(host, s, P.Then(p, true, true));
            && Waits(t, p, |s.reactions|) && !Over(t, p, |s.reactions|) && |t.reactions| == |s.reactions| + 1
  {
    assert P.CellOk(s, p);
    forall r | r in s.cells[p].ran ensures r < |s.reactions| { assert r in s.cells[p].registered; }
  }

  /** The counter was told at a moment when it had not reached zero. */
  lemma TellDecided<V>(kit: Kit<V>, a: All<V>, e: A.Event<V>)
    requires Links(Now(kit, a.trace), a) && Decided(kit, Now(kit, a.trace), a) && A.Run(a.reports).resolved == []
    requires A.Run(a.reports + [e]).resolved != [] ==> a.failed.None?
    ensures Decided(kit, Now(kit, Tell(kit, a, e).trace), a.(reports := a.reports + [e]))
  {
    var now := A.Run(a.reports + [e]).resolved;
    A.ResolvesOnce(a.reports + [e]);
    if now != [] && kit.host.kind(kit.pack(now[0])).Plain? && !kit.host.isPromise(kit.pack(now[0]), a.c) {
      OwnResolve(kit, a.trace, a.own, a.c, kit.pack(now[0]));
    }
    hide Now, Links, Kept, A.Run;
  }

  /** Telling the counter moves no reaction. */
  lemma TellMachine<V>(kit: Kit<V>, a: All<V>, e: A.Event<V>)
    requires Links(Now(kit, a.trace), a)
    ensures var s, t := Now(kit, a.trace), Now(kit, Tell(kit, a, e).trace);
            && Links(t, a) && (forall r: nat :: Busy(t, r) == Busy(s, r))
            && (forall k: nat :: k < |a.elements| && Marked(s, a, k) ==> Marked(t, a, k))
            && (a.failed.Some? && Cause(s, a, a.failed.value) ==> Cause(t, a, a.failed.value))
  {
    var s, t := Now(kit, a.trace), Tell(kit, a, e);
    if t.trace != a.trace {
      var x := t.trace[|a.trace|];
      assert t.trace == a.trace + [x];
      LinksOn(kit, a, x);
      OneMore(kit, a.trace, x);
      ResolveStill(kit.host, s, x.h, x.v);
      if a.failed.Some? && Cause(s, a, a.failed.value) { CauseOn(kit, a, x); }
      forall k: nat | k < |a.elements| && Marked(s, a, k) ensures Marked(Now(kit, t.trace), a, k) { MarkedOn(kit, a, x, k); }
    }
    hide Now, Links, Marked, Cause, P.Inv, Orderly, A.Run;
  }

  lemma ClosedReports<V>(reports: seq<A.Event<V>>, k: nat)
    ensures A.Elements(reports + [A.Close]) == A.Elements(reports) && A.First(reports + [A.Close], k) == A.First(reports, k)
  {
    A.Extend(reports, A.Close, k);
    hide A.First, A.Elements, A.Ended;
  }

  lemma ClosedMarks<V>(s: P.State<V>, a: All<V>)
    requires Marks(s, a) && a.thrown.None?
    ensures Marks(s, a.(reports := a.reports + [A.Close]))
  {
    var b := a.(reports := a.reports + [A.Close]);
    hide A.First, A.Elements, A.Ended, Over;
    forall k: nat | k < |b.elements| ensures Marked(s, b, k) {
      ClosedReports(a.reports, k);
      assert Marked(s, a, k);
    }
    if a.failed.Some? {
      var k: nat :| Failing(s, a, k, a.failed.value);
      assert Failing(s, b, k, a.failed.value);
    }
  }

  lemma EndKeeps<V>(kit: Kit<V>, a: All<V>)
    requires Consistent(kit, a) && Iterating(a)
    ensures Consistent(kit, Step(kit, a, End))
  {
    var t, b := Now(kit, Tell(kit, a, A.Close).trace), a.(reports := a.reports + [A.Close]);
    TellMachine(kit, a, A.Close);
    ClosedReports(a.reports, 0);
    A.ResolvesOnce(a.reports);
    assert Marks(t, a);
    ClosedMarks(t, a);
    assert Links(t, b);
    if A.Run(b.reports).resolved != [] { NoFailure(t, b); }
    hide Now, Links, Marks, Decided, A.Run, A.First, A.Elements, A.Ended;
    TellDecided(kit, a, A.Close);
    Retraced(kit, t, b, Tell(kit, a, A.Close).trace);
  }

  lemma BreakKeeps<V>(kit: Kit<V>, a: All<V>, v: V)
    requires Consistent(kit, a) && Iterating(a)
    ensures Consistent(kit, Step(kit, a, Break(v)))
  {
    var s, e := Now(kit, a.trace), P.Reject(a.own, v);
    var t, b := Now(kit, a.trace + [e]), a.(failed := First(a.failed, v), thrown := Some(v));
    LinksOn(kit, a, e);
    A.ResolvesOnce(a.reports);
    forall k: nat | k < |a.elements| ensures Marked(t, a, k) { MarkedOn(kit, a, e, k); }
    CauseOn(kit, a, e);
    OwnReject(kit, a.trace, a.own, a.c, v);
    hide Now, A.Run, A.First, A.Elements, A.Ended, Over, Foreign, Waits;
    BrokenMarks(t, a, v);
    Retraced(kit, t, b, a.trace + [e]);
    hide Marks, Marked;
    assert Decided(kit, t, b);
  }

  lemma BrokenMarks<V>(s: P.State<V>, a: All<V>, v: V)
    requires Iterating(a) && (forall k: nat :: k < |a.elements| ==> Marked(s, a, k))
    requires (forall i :: 0 <= i < |a.handled| ==> a.handled[i] < |a.elements|)
    requires (forall i, j :: 0 <= i < j < |a.handled| ==> a.handled[i] != a.handled[j])
    requires a.failed.Some? ==> Cause(s, a, a.failed.value)
    ensures Marks(s, a.(failed := First(a.failed, v), thrown := Some(v)))
  {
    var b := a.(failed := First(a.failed, v), thrown := Some(v));
    hide A.First, A.Elements, A.Ended, Over;
    forall k: nat | k < |b.elements| ensures Marked(s, b, k) { assert Marked(s, a, k); }
    if a.failed.Some? {
      var k: nat :| Failing(s, a, k, a.failed.value);
      assert Failing(s, b, k, a.failed.value);
    }
  }

  /** The handler of element `k` returns: its reaction is over, and no other. */
  lemma HandlerReturns<V>(kit: Kit<V>, a: All<V>, k: nat)
    requires Links(Now(kit, a.trace), a) && k < |a.elements| && Busy(Now(kit, a.trace), a.elements[k].r)
    ensures var s, t, x := Now(kit, a.trace), Now(kit, a.trace + [P.Return(kit.undef)]), a.elements[k];
            && Links(t, a) && x.p < |s.cells| && x.p < |t.cells| && !s.cells[x.p].outcome.Pending? && t.cells[x.p].outcome == s.cells[x.p].outcome
            && Over(t, x.p, x.r)
            && (forall i: nat :: i < |a.elements| && i != k && Marked(s, a, i) ==> Marked(t, a, i))
            && (a.failed.Some? && Cause(s, a, a.failed.value) ==> Cause(t, a, a.failed.value))
  {
    var s, e, x := Now(kit, a.trace), P.Return(kit.undef), a.elements[k];
    LinksOn(kit, a, e);
    OneMore(kit, a.trace, e);
    assert Waits(s, x.p, x.r);
    BusyIs(s, x.p, x.r);
    StepOver(kit.host, s, e, x.p, x.r);
    StepEvolves(kit.host, s, e);
    assert CellEvolves(s.cells[x.p], P.Step(kit.host, s, e).cells[x.p]);
    if a.failed.Some? && Cause(s, a, a.failed.value) { CauseOn(kit, a, e); }
    forall i: nat | i < |a.elements| && i != k && Marked(s, a, i) ensures Marked(Now(kit, a.trace + [e]), a, i) {
      NotBoth(s, a, k, i);
      MarkedOn(kit, a, e, i);
    }
    hide Now, Links, Marked, Cause, P.Inv, Orderly, P.Step;
  }

  lemma NotBoth<V>(s: P.State<V>, a: All<V>, k: nat, i: nat)
    requires Links(s, a) && Orderly(s) && k < |a.elements| && i < |a.elements| && i != k && Busy(s, a.elements[k].r)
    ensures !Busy(s, a.elements[i].r)
  {
    assert Waits(s, a.elements[k].p, a.elements[k].r) && Waits(s, a.elements[i].p, a.elements[i].r);
  }

  /** All marks but the one of `k`, which has just been handled. */
  ghost predicate HandledNow<V>(s: P.State<V>, a: All<V>, k: nat) {
    && k < |a.elements| && a.elements[k].p < |s.cells| && !s.cells[a.elements[k].p].outcome.Pending? && Over(s, a.elements[k].p, a.elements[k].r)
    && k !in a.handled && A.First(a.reports, k) == None && |a.elements| == A.Elements(a.reports)
    && (forall i: nat :: i < |a.elements| && i != k ==> Marked(s, a, i))
    && (forall i :: 0 <= i < |a.handled| ==> a.handled[i] < |a.elements|)
    && (forall i, j :: 0 <= i < j < |a.handled| ==> a.handled[i] != a.handled[j])
    && (a.failed.Some? ==> Cause(s, a, a.failed.value))
    && (a.thrown.Some? ==> a.failed.Some? && !A.Ended(a.reports))
  }

  lemma SameCause<V>(s: P.State<V>, a: All<V>, b: All<V>, v: V)
    requires Cause(s, a, v) && b.elements == a.elements && b.thrown == a.thrown
    ensures Cause(s, b, v)
  {
    if a.thrown != Some(v) {
      var k: nat :| Failing(s, a, k, v);
      assert Failing(s, b, k, v);
    }
  }

  lemma ReportedMarks<V>(s: P.State<V>, a: All<V>, k: nat, v: V)
    requires HandledNow(s, a, k) && s.cells[a.elements[k].p].outcome == P.Fulfilled(v)
    ensures Marks(s, a.(reports := a.reports + [A.Report(k, v)], handled := a.handled + [k]))
  {
    var b := a.(reports := a.reports + [A.Report(k, v)], handled := a.handled + [k]);
    A.Extend(a.reports, A.Report(k, v), k);
    if a.failed.Some? { SameCause(s, a, b, a.failed.value); }
    hide A.First, A.Elements, A.Ended, Over, Cause;
    forall i: nat | i < |b.elements| ensures Marked(s, b, i) {
      A.Extend(a.reports, A.Report(k, v), i);
      if i != k { assert Marked(s, a, i); }
    }
  }

  lemma FailedMarks<V>(s: P.State<V>, a: All<V>, k: nat, v: V)
    requires HandledNow(s, a, k) && s.cells[a.elements[k].p].outcome == P.Rejected(v)
    ensures Marks(s, a.(failed := First(a.failed, v), handled := a.handled + [k]))
  {
    var b := a.(failed := First(a.failed, v), handled := a.handled + [k]);
    if a.failed.Some? {
      SameCause(s, a, b, a.failed.value);
    } else {
      assert Failing(s, b, k, v);
    }
    hide A.First, A.Elements, A.Ended, Over, Cause;
    forall i: nat | i < |b.elements| ensures Marked(s, b, i) {
      if i != k { assert Marked(s, a, i); }
    }
  }

  /** The handler runs on a machine that may have moved on to `trace` by the counter's telling, and returns. */
  lemma HandledThen<V>(kit: Kit<V>, a: All<V>, k: nat, trace: seq<P.Event<V>>)
    requires var s := Now(kit, trace); Links(s, a) && k < |a.elements| && Busy(s, a.elements[k].r)
    requires forall i: nat :: i < |a.elements| ==> Marked(Now(kit, trace), a, i)
    requires k !in a.handled && A.First(a.reports, k) == None
    requires (forall i :: 0 <= i < |a.handled| ==> a.handled[i] < |a.elements|)
    requires (forall i, j :: 0 <= i < j < |a.handled| ==> a.handled[i] != a.handled[j])
    requires a.failed.Some? ==> Cause(Now(kit, trace), a, a.failed.value)
    requires a.thrown.Some? ==> a.failed.Some? && !A.Ended(a.reports)
    ensures var s, t := Now(kit, trace), Now(kit, trace + [P.Return(kit.undef)]);
            && Links(t, a) && HandledNow(t, a, k) && a.elements[k].p < |s.cells|
            && t.cells[a.elements[k].p].outcome == s.cells[a.elements[k].p].outcome
  {
    var b := a.(trace := trace);
    Retraced(kit, Now(kit, trace), a, trace);
    Rehandled(kit, Now(kit, trace), a, trace);
    HandlerReturns(kit, b, k);
    Retraced(kit, Now(kit, trace + [P.Return(kit.undef)]), a, trace);
    Rehandled(kit, Now(kit, trace + [P.Return(kit.undef)]), a, trace);
    assert |a.elements| == A.Elements(a.reports);
    hide Now, Marked, A.First, A.Elements, A.Ended, Cause, Busy, Over, Links, Marks;
  }

  lemma ReportKeeps<V>(kit: Kit<V>, a: All<V>, k: nat, v: V)
    requires Consistent(kit, a) && k < |a.elements| && Busy(Now(kit, a.trace), a.elements[k].r)
    requires a.elements[k].p < |Now(kit, a.trace).cells| && Now(kit, a.trace).cells[a.elements[k].p].outcome == P.Fulfilled(v)
    ensures Consistent(kit, a.(reports := a.reports + [A.Report(k, v)], handled := a.handled + [k],
                               trace := Tell(kit, a, A.Report(k, v)).trace + [P.Return(kit.undef)]))
  {
    var e, told := A.Report(k, v), Tell(kit, a, A.Report(k, v)).trace;
    var t, b := Now(kit, told + [P.Return(kit.undef)]), a.(reports := a.reports + [e], handled := a.handled + [k]);
    NotYet(kit, a, k);
    TellMachine(kit, a, e);
    SettledStays(kit, a, e, k);
    hide Now, Marked, A.Run, A.First, A.Elements, A.Ended, HandledNow, Cause, Busy, Over, Decided, Links;
    HandledThen(kit, a, k, told);
    ReportedMarks(t, a, k, v);
    hide Marks;
    ReportedLinks(t, a, k, v);
    if A.Run(b.reports).resolved != [] { NoFailure(t, b); }
    TellDecided(kit, a, e);
    ReportReturns(kit, a, b, told);
  }

  lemma ReportedLinks<V>(s: P.State<V>, a: All<V>, k: nat, v: V)
    requires Links(s, a)
    ensures var b := a.(reports := a.reports + [A.Report(k, v)], handled := a.handled + [k]); Links(s, b) && |b.elements| == A.Elements(b.reports)
  {
    A.Extend(a.reports, A.Report(k, v), k);
    hide A.Elements, A.First, A.Ended, Foreign, Waits;
  }

  lemma ReportReturns<V>(kit: Kit<V>, a: All<V>, b: All<V>, told: seq<P.Event<V>>)
    requires b == a.(reports := b.reports, handled := b.handled)
    requires Links(Now(kit, told), a) && Decided(kit, Now(kit, told), a.(reports := b.reports)) && |b.elements| == A.Elements(b.reports)
    requires var t := Now(kit, told + [P.Return(kit.undef)]); Links(t, b) && Marks(t, b)
    ensures Consistent(kit, b.(trace := told + [P.Return(kit.undef)]))
  {
    var s, t := Now(kit, told), Now(kit, told + [P.Return(kit.undef)]);
    Reindexed(kit, s, a.(reports := b.reports), b.(trace := told));
    assert Links(s, b.(trace := told));
    hide Now, Links, Marks, Decided;
    DecidedOn(kit, b.(trace := told), P.Return(kit.undef));
    Retraced(kit, t, b, told + [P.Return(kit.undef)]);
    Retraced(kit, t, b, told);
  }

  lemma FailKeeps<V>(kit: Kit<V>, a: All<V>, k: nat, v: V)
    requires Consistent(kit, a) && k < |a.elements| && Busy(Now(kit, a.trace), a.elements[k].r)
    requires a.elements[k].p < |Now(kit, a.trace).cells| && Now(kit, a.trace).cells[a.elements[k].p].outcome == P.Rejected(v)
    ensures Consistent(kit, a.(failed := First(a.failed, v), handled := a.handled + [k],
                               trace := a.trace + [P.Reject(a.own, v)] + [P.Return(kit.undef)]))
  {
    var e, told := P.Reject(a.own, v), a.trace + [P.Reject(a.own, v)];
    var s, t := Now(kit, a.trace), Now(kit, told + [P.Return(kit.undef)]);
    var b := a.(failed := First(a.failed, v), handled := a.handled + [k]);
    NotYet(kit, a, k);
    RejectMachine(kit, a, v);
    assert Links(s, a) && a.own < |s.handles| && a.c < |s.cells|;
    OwnReject(kit, a.trace, a.own, a.c, v);
    hide Now, Marked, A.Run, A.First, A.Elements, A.Ended, HandledNow, Cause, Busy, Over, Links;
    HandledThen(kit, a, k, told);
    FailedMarks(t, a, k, v);
    hide Marks;
    assert Decided(kit, Now(kit, told), b.(trace := told));
    hide Decided;
    FailReturns(kit, a, b, told);
  }

  lemma FailReturns<V>(kit: Kit<V>, a: All<V>, b: All<V>, told: seq<P.Event<V>>)
    requires b == a.(failed := b.failed, handled := b.handled)
    requires Links(Now(kit, told), a) && Decided(kit, Now(kit, told), b.(trace := told))
    requires var t := Now(kit, told + [P.Return(kit.undef)]); Links(t, a) && Marks(t, b)
    ensures Consistent(kit, b.(trace := told + [P.Return(kit.undef)]))
  {
    var s, t := Now(kit, told), Now(kit, told + [P.Return(kit.undef)]);
    assert Links(s, b.(trace := told)) && Links(t, b);
    hide Now, Links, Marks, Decided;
    DecidedOn(kit, b.(trace := told), P.Return(kit.undef));
    Retraced(kit, t, b, told + [P.Return(kit.undef)]);
    Retraced(kit, t, b, told);
  }

  /** Rejecting the combined promise moves no reaction. */
  lemma RejectMachine<V>(kit: Kit<V>, a: All<V>, v: V)
    requires Links(Now(kit, a.trace), a) && Marks(Now(kit, a.trace), a)
    ensures var s, t := Now(kit, a.trace), Now(kit, a.trace + [P.Reject(a.own, v)]);
            && Links(t, a) && (forall r: nat :: Busy(t, r) == Busy(s, r))
            && (forall k: nat :: k < |a.elements| ==> Marked(t, a, k))
            && (a.failed.Some? ==> Cause(t, a, a.failed.value))
            && (forall p :: 0 <= p < |s.cells| && !s.cells[p].outcome.Pending? ==> p < |t.cells| && t.cells[p].outcome == s.cells[p].outcome)
  {
    var s, x := Now(kit, a.trace), P.Reject(a.own, v);
    LinksOn(kit, a, x);
    OneMore(kit, a.trace, x);
    RejectStill(s, a.own, v);
    StepEvolves(kit.host, s, x);
    CauseOn(kit, a, x);
    forall k: nat | k < |a.elements| ensures Marked(Now(kit, a.trace + [x]), a, k) { MarkedOn(kit, a, x, k); }
    forall p | 0 <= p < |s.cells| && !s.cells[p].outcome.Pending?
      ensures p < |P.Step(kit.host, s, x).cells| && P.Step(kit.host, s, x).cells[p].outcome == s.cells[p].outcome
    {
      assert CellEvolves(s.cells[p], P.Step(kit.host, s, x).cells[p]);
    }
    hide Now, Links, Marked, Cause, P.Inv, Orderly, P.Step;
  }

  /** What `Decided` and `Links` say does not depend on which handlers are noted. */
  lemma Reindexed<V>(kit: Kit<V>, s: P.State<V>, a: All<V>, b: All<V>)
    requires b == a.(handled := b.handled, trace := b.trace)
    ensures Decided(kit, s, a) == Decided(kit, s, b) && Links(s, a) == Links(s, b)
  {
    hide A.Run, Kept;
  }

  lemma Rehandled<V>(kit: Kit<V>, s: P.State<V>, a: All<V>, trace: seq<P.Event<V>>)
    ensures forall k: nat :: k < |a.elements| ==> Marked(s, a.(trace := trace), k) == Marked(s, a, k)
    ensures a.failed.Some? ==> Cause(s, a.(trace := trace), a.failed.value) == Cause(s, a, a.failed.value)
  {
    if a.failed.Some? && Cause(s, a, a.failed.value) { SameCause(s, a, a.(trace := trace), a.failed.value); }
    if a.failed.Some? && Cause(s, a.(trace := trace), a.failed.value) { SameCause(s, a.(trace := trace), a, a.failed.value); }
  }

  lemma NotYet<V>(kit: Kit<V>, a: All<V>, k: nat)
    requires Consistent(kit, a) && k < |a.elements| && Busy(Now(kit, a.trace), a.elements[k].r)
    ensures k !in a.handled && A.First(a.reports, k) == None && A.Run(a.reports).resolved == []
  {
    assert Marked(Now(kit, a.trace), a, k);
    A.ResolvesOnce(a.reports);
    hide A.Run, Now;
  }

  lemma SettledStays<V>(kit: Kit<V>, a: All<V>, e: A.Event<V>, k: nat)
    requires Links(Now(kit, a.trace), a) && k < |a.elements| && a.elements[k].p < |Now(kit, a.trace).cells|
    requires !Now(kit, a.trace).cells[a.elements[k].p].outcome.Pending?
    ensures var s, t := Now(kit, a.trace), Now(kit, Tell(kit, a, e).trace);
            a.elements[k].p < |t.cells| && t.cells[a.elements[k].p].outcome == s.cells[a.elements[k].p].outcome
  {
    var s, t := Now(kit, a.trace), Tell(kit, a, e);
    if t.trace != a.trace {
      var x := t.trace[|a.trace|];
      assert t.trace == a.trace + [x];
      OneMore(kit, a.trace, x);
      StepEvolves(kit.host, s, x);
      assert CellEvolves(s.cells[a.elements[k].p], P.Step(kit.host, s, x).cells[a.elements[k].p]);
    }
    hide Now, Links, P.Inv, Orderly, P.Step, A.Run;
  }

  // ----- every run

  lemma TellIs<V>(kit: Kit<V>, a: All<V>, e: A.Event<V>)
    ensures Tell(kit, a, e) == a.(reports := a.reports + [e], trace := Tell(kit, a, e).trace)
  {
    hide A.Run;
  }

  lemma StepConsistent<V>(kit: Kit<V>, a: All<V>, m: Move<V>)
    requires Consistent(kit, a)
    ensures Consistent(kit, Step(kit, a, m))
  {
    hide Consistent, Now, Tell, Busy, Iterating, Allowed;
    var s := Now(kit, a.trace);
    match m
    case Outside(e) => if Allowed(s, a, e) { OutsideKeeps(kit, a, e); }
    case Reach(p) => if p < |s.cells| && Iterating(a) { ReachKeeps(kit, a, p); }
    case End => if Iterating(a) { EndKeeps(kit, a); }
    case Break(v) => if Iterating(a) { BreakKeeps(kit, a, v); }
    case Handler(k) =>
      if k < |a.elements| && Busy(s, a.elements[k].r) && a.elements[k].p < |s.cells| {
        match s.cells[a.elements[k].p].outcome
        case Fulfilled(v) =>
          ReportKeeps(kit, a, k, v);
          TellIs(kit, a, A.Report(k, v));
        case Rejected(v) => FailKeeps(kit, a, k, v);
        case Pending =>
      }
  }

  lemma StartConsistent<V>(kit: Kit<V>, before: seq<P.Event<V>>)
    ensures Consistent(kit, Start(kit, before))
  {
    var s := Now(kit, before);
    OneMore(kit, before, P.New);
    assert s.progress.Calling? ==> s.progress.handle < |s.handles|;
    hide Now, Orderly, P.CellOk, P.TaskOk, P.HandleOk, P.HolderOk;
  }

  lemma {:induction false} RunConsistent<V>(kit: Kit<V>, before: seq<P.Event<V>>, moves: seq<Move<V>>)
    ensures Consistent(kit, Run(kit, before, moves))
  {
    hide Consistent, Step, Start;
    if moves == [] {
      StartConsistent(kit, before);
    } else {
      RunConsistent(kit, before, moves[..|moves| - 1]);
      StepConsistent(kit, Run(kit, before, moves[..|moves| - 1]), moves[|moves| - 1]);
    }
  }

  /** What the promise of element `k` is. */
  function OutcomeOf<V>(s: P.State<V>, a: All<V>, k: nat): P.Outcome<V> {
    if k < |a.elements| && a.elements[k].p < |s.cells| then s.cells[a.elements[k].p].outcome else P.Pending
  }

  /** In every run of the machine and of `all`: an element is reported only once its promise is fulfilled, with its value; if
      the combined promise is fulfilled, the iteration has ended, every element's
      promise is fulfilled, and the values are theirs, in order; if it is rejected, it is with the first failure handled,
      an element's reason or what the iteration threw; and no element's handler has returned twice. */
  lemma AllOutcome<V>(kit: Kit<V>, before: seq<P.Event<V>>, moves: seq<Move<V>>)
    requires Ordinary(kit, Run(kit, before, moves))
    ensures var a := Run(kit, before, moves);
            var s := Now(kit, a.trace);
            && a.c < |s.cells|
            && (forall k: nat :: A.First(a.reports, k).Some? ==> OutcomeOf(s, a, k) == P.Fulfilled(A.First(a.reports, k).value))
            && (s.cells[a.c].outcome.Fulfilled? ==>
                  && A.Ended(a.reports) && A.Run(a.reports).resolved != []
                  && var values := A.Run(a.reports).resolved[0];
                     && s.cells[a.c].outcome.value == kit.pack(values) && |values| == |a.elements|
                     && forall k :: 0 <= k < |values| ==> values[k].Some? && OutcomeOf(s, a, k) == P.Fulfilled(values[k].value))
            && (s.cells[a.c].outcome.Rejected? ==>
                  a.failed == Some(s.cells[a.c].outcome.reason)
                  && (a.thrown == a.failed || exists k: nat :: OutcomeOf(s, a, k) == P.Rejected(a.failed.value)))
            && forall i, j :: 0 <= i < j < |a.handled| ==> a.handled[i] != a.handled[j]
  {
    RunConsistent(kit, before, moves);
    hide Run;
    var a := Run(kit, before, moves);
    var s := Now(kit, a.trace);
    A.ResolvesOnce(a.reports);
    hide Now, A.Run, A.First, A.Elements, A.Ended, Foreign, Waits, Over;
    forall k: nat | A.First(a.reports, k).Some? ensures OutcomeOf(s, a, k) == P.Fulfilled(A.First(a.reports, k).value) {
      if k >= |a.elements| { A.FirstBeyond(a.reports, k); }
      assert Marked(s, a, k);
    }
    if s.cells[a.c].outcome.Fulfilled? {
      var values := A.Run(a.reports).resolved[0];
      forall k | 0 <= k < |values| ensures values[k].Some? && OutcomeOf(s, a, k) == P.Fulfilled(values[k].value) {
        assert Marked(s, a, k);
      }
    }
    if s.cells[a.c].outcome.Rejected? && a.thrown != a.failed {
      var k: nat :| Failing(s, a, k, a.failed.value);
      assert OutcomeOf(s, a, k) == P.Rejected(a.failed.value);
    }
  }

  /** When nothing is queued or under way, the handler of every element whose promise is settled has returned. */
  lemma QuietHandled<V>(kit: Kit<V>, a: All<V>)
    requires Consistent(kit, a) && Now(kit, a.trace).progress.Idle? && Now(kit, a.trace).head == |Now(kit, a.trace).tasks|
    ensures forall k: nat :: k < |a.elements| && !OutcomeOf(Now(kit, a.trace), a, k).Pending? ==> k in a.handled
  {
    var s := Now(kit, a.trace);
    hide A.Run, A.First, A.Elements, A.Ended, Foreign, Decided;
    forall k: nat | k < |a.elements| && !OutcomeOf(s, a, k).Pending? ensures k in a.handled {
      assert Marked(s, a, k) && Waits(s, a.elements[k].p, a.elements[k].r);
      QuietRuns(kit.host, a.trace, a.elements[k].p);
    }
  }

  lemma QuietDecides<V>(kit: Kit<V>, s: P.State<V>, a: All<V>)
    requires Marks(s, a) && Decided(kit, s, a) && Ordinary(kit, a) && A.Ended(a.reports) && |a.elements| == A.Elements(a.reports)
    requires forall k: nat :: k < |a.elements| && !OutcomeOf(s, a, k).Pending? ==> k in a.handled
    ensures a.c < |s.cells|
    ensures s.cells[a.c].outcome.Fulfilled? <==> forall k: nat :: k < |a.elements| ==> OutcomeOf(s, a, k).Fulfilled?
    ensures s.cells[a.c].outcome.Rejected? <==> exists k: nat :: k < |a.elements| && OutcomeOf(s, a, k).Rejected?
  {
    A.ResolvesOnce(a.reports);
    hide A.Run, A.First, A.Elements, A.Ended, Over;
    forall k: nat | k < |a.elements|
      ensures OutcomeOf(s, a, k).Fulfilled? <==> A.First(a.reports, k).Some?
      ensures OutcomeOf(s, a, k).Rejected? ==> a.failed.Some?
    {
      assert Marked(s, a, k);
    }
    if a.failed.Some? {
      var k: nat :| Failing(s, a, k, a.failed.value);
      assert OutcomeOf(s, a, k) == P.Rejected(a.failed.value);
    }
    if exists k: nat :: k < |a.elements| && OutcomeOf(s, a, k).Rejected? { assert a.failed.Some?; }
  }

  /** When nothing is queued or under way, and the iteration has ended: the combined promise is fulfilled exactly if all
      element promises are, and rejected exactly if one of them is. */
  lemma AllQuiet<V>(kit: Kit<V>, before: seq<P.Event<V>>, moves: seq<Move<V>>)
    requires var a := Run(kit, before, moves); var s := Now(kit, a.trace);
             Ordinary(kit, a) && s.progress.Idle? && s.head == |s.tasks| && A.Ended(a.reports)
    ensures var a := Run(kit, before, moves);
            var s := Now(kit, a.trace);
            && a.c < |s.cells|
            && (s.cells[a.c].outcome.Fulfilled? <==> forall k: nat :: k < |a.elements| ==> OutcomeOf(s, a, k).Fulfilled?)
            && (s.cells[a.c].outcome.Rejected? <==> exists k: nat :: k < |a.elements| && OutcomeOf(s, a, k).Rejected?)
  {
    var a := Run(kit, before, moves);
    RunConsistent(kit, before, moves);
    hide Run;
    QuietHandled(kit, a);
    assert |a.elements| == A.Elements(a.reports);
    hide Now, Marks, Decided, Ordinary, OutcomeOf;
    QuietDecides(kit, Now(kit, a.trace), a);
  }

  /** Whatever happens afterwards, a settled combined promise keeps its outcome. */
  lemma {:induction false} AllSettlesOnce<V>(kit: Kit<V>, before: seq<P.Event<V>>, moves: seq<Move<V>>, more: seq<Move<V>>)
    ensures var a, b := Run(kit, before, moves), Run(kit, before, moves + more);
            && b.c == a.c && a.c < |Now(kit, a.trace).cells| && a.c < |Now(kit, b.trace).cells|
            && (!Now(kit, a.trace).cells[a.c].outcome.Pending? ==> Now(kit, b.trace).cells[a.c].outcome == Now(kit, a.trace).cells[a.c].outcome)
  {
    var a, b := Run(kit, before, moves), Run(kit, before, moves + more);
    RunConsistent(kit, before, moves);
    TraceGrows(kit, before, moves, more);
    var rest := b.trace[|a.trace|..];
    assert b.trace == a.trace + rest;
    SettledForever(kit.host, a.trace, rest);
    assert CellEvolves(Now(kit, a.trace).cells[a.c], Now(kit, b.trace).cells[a.c]);
    hide Run, P.Run;
  }

  lemma {:induction false} TraceGrows<V>(kit: Kit<V>, before: seq<P.Event<V>>, moves: seq<Move<V>>, more: seq<Move<V>>)
    ensures var a, b := Run(kit, before, moves), Run(kit, before, moves + more); a.trace <= b.trace && b.c == a.c
  {
    hide Now;
    if more == [] {
      assert moves + more == moves;
    } else {
      var all := moves + more;
      assert all[..|all| - 1] == moves + more[..|more| - 1];
      TraceGrows(kit, before, moves, more[..|more| - 1]);
      hide Run, Step;
      StepTrace(kit, Run(kit, before, all[..|all| - 1]), more[|more| - 1]);
    }
  }

  lemma StepTrace<V>(kit: Kit<V>, a: All<V>, m: Move<V>)
    ensures a.trace <= Step(kit, a, m).trace && Step(kit, a, m).c == a.c
  {
    hide Now, A.Run, Allowed, Iterating, Busy;
  }
}
