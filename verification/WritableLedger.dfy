/** The bookkeeping of a writable stream's callbacks: which transport call covers which writes, and where the callbacks
    of each call stand. */
module WritableLedger {

  /** The callbacks owed for one transport call: those of the writes lo..hi, behind a holder if the call was a batch. */
  datatype Payload = Payload(call: nat, lo: nat, hi: nat, batch: bool)

  /** Deferred to the next tick. */
  datatype Tick = After(done: Payload, finishing: bool) | Finalize

  /** Stream code waiting for user code to return: before the callbacks, between those of a batch, before the last check. */
  datatype Frame = Notify(done: Payload) | Callbacks(call: nat, from: nat, to: nat) | Check

  /** Where the callbacks of a transport call stand; `at` names the tick or the frame that holds them. */
  datatype Phase = InFlight | Ticked(at: nat) | Notifying(at: nat) | Calling(next: nat, at: nat) | Over

  datatype Call = Call(lo: nat, hi: nat, batch: bool, phase: Phase) {
    function CalledUpTo(): nat {
      match phase
      case Calling(next, _) => next
      case Over => hi
      case InFlight => lo
      case Ticked(_) => lo
      case Notifying(_) => lo
    }

    /** What the call still contributes to pendingcb: one for each callback, and one more for an open batch. */
    function Owed(): int {
      hi - CalledUpTo() + if batch && !phase.Calling? && !phase.Over? then 1 else 0
    }

    function Done(number: nat): Payload {
      Payload(number, lo, hi, batch)
    }
  }

  // ----- the calls

  function Start(calls: seq<Call>, c: nat): nat
    requires c <= |calls|
  {
    if c == 0 then 0 else calls[c - 1].hi
  }

  /** The calls take consecutive stretches of the first `n` writes. */
  ghost predicate Laid(calls: seq<Call>, n: nat) {
    && Start(calls, |calls|) == n
    && forall c :: 0 <= c < |calls| ==> CallOk(calls, c)
  }

  ghost predicate CallOk(calls: seq<Call>, c: nat)
    requires c < |calls|
  {
    var call := calls[c];
    && Start(calls, c) == call.lo < call.hi && call.lo <= call.CalledUpTo() <= call.hi
    && (call.phase.Calling? ==> call.batch) && (!call.batch ==> call.hi == call.lo + 1)
  }

  /** At most the last call is in flight. */
  ghost predicate Flying(calls: seq<Call>, writing: bool) {
    && (writing ==> |calls| > 0)
    && forall c :: 0 <= c < |calls| ==> (calls[c].phase.InFlight? <==> writing && c == |calls| - 1)
  }

  ghost predicate TickOk(ticks: seq<Tick>, calls: seq<Call>, t: nat)
    requires t < |ticks|
  {
    ticks[t].After? ==>
      var d := ticks[t].done;
      d.call < |calls| && calls[d.call] == Call(d.lo, d.hi, d.batch, Ticked(t))
  }

  ghost predicate FrameOk(stack: seq<Frame>, calls: seq<Call>, f: nat)
    requires f < |stack|
  {
    match stack[f]
    case Notify(d) => d.call < |calls| && calls[d.call] == Call(d.lo, d.hi, d.batch, Notifying(f))
    case Callbacks(c, from, to) => c < |calls| && calls[c].hi == to && calls[c].phase == Calling(from, f)
    case Check => true
  }

  ghost predicate PhaseOk(ticks: seq<Tick>, head: nat, stack: seq<Frame>, calls: seq<Call>, c: nat)
    requires c < |calls|
  {
    match calls[c].phase
    case Ticked(at) => head <= at < |ticks| && ticks[at].After? && ticks[at].done.call == c
    case Notifying(at) => at < |stack| && stack[at].Notify? && stack[at].done.call == c
    case Calling(_, at) => at < |stack| && stack[at].Callbacks? && stack[at].call == c
    case InFlight => true
    case Over => true
  }

  /** Ticks and frames stand for exactly the calls whose callbacks have not all run, each for one. */
  ghost predicate Held(ticks: seq<Tick>, head: nat, stack: seq<Frame>, calls: seq<Call>) {
    && head <= |ticks|
    && (forall t :: head <= t < |ticks| ==> TickOk(ticks, calls, t))
    && (forall f :: 0 <= f < |stack| ==> FrameOk(stack, calls, f))
    && forall c :: 0 <= c < |calls| ==> PhaseOk(ticks, head, stack, calls, c)
  }

  /** `ran` counts how often the callback of each write has run: once when its turn has come, else never. */
  ghost predicate Counted(calls: seq<Call>, ran: seq<nat>, n: nat) {
    && |ran| == n && Start(calls, |calls|) <= n
    && (forall c :: 0 <= c < |calls| ==> CallCounted(calls, ran, c))
    && forall w :: Start(calls, |calls|) <= w < n ==> ran[w] == 0
  }

  ghost predicate CallCounted(calls: seq<Call>, ran: seq<nat>, c: nat)
    requires c < |calls|
  {
    && calls[c].hi <= |ran|
    && forall w :: calls[c].lo <= w < calls[c].hi ==> ran[w] == if w < calls[c].CalledUpTo() then 1 else 0
  }

  function TotalOwed(calls: seq<Call>): int {
    if calls == [] then 0 else TotalOwed(calls[..|calls| - 1]) + calls[|calls| - 1].Owed()
  }

  /** The deferred tasks (ticks[..head] have run), the waiting frames, and the history of calls and callbacks. */
  datatype Ledger = Ledger(ticks: seq<Tick>, head: nat, stack: seq<Frame>, calls: seq<Call>, ran: seq<nat>) {
    ghost predicate Ok(sent: nat, accepted: nat, writing: bool) {
      Laid(calls, sent) && Flying(calls, writing) && Held(ticks, head, stack, calls) && Counted(calls, ran, accepted)
    }

    function Accept(): Ledger {
      this.(ran := ran + [0])
    }

    /** A transport call for the next `k` writes. */
    function Issue(k: nat, batch: bool): Ledger {
      var lo := Start(calls, |calls|);
      this.(calls := calls + [Call(lo, lo + k, batch, InFlight)])
    }

    function Last(): Payload
      requires |calls| > 0
    {
      calls[|calls| - 1].Done(|calls| - 1)
    }

    function Move(c: nat, phase: Phase): seq<Call>
      requires c < |calls|
    {
      calls[c := calls[c].(phase := phase)]
    }

    /** The call in flight has completed before it returned: its callbacks wait for a tick. */
    function Defer(finishing: bool): Ledger
      requires |calls| > 0
    {
      this.(ticks := ticks + [After(Last(), finishing)], calls := Move(|calls| - 1, Ticked(|ticks|)))
    }

    /** The call in flight has completed later on: its callbacks are due now. */
    function Raise(): Ledger
      requires |calls| > 0
    {
      this.(stack := stack + [Notify(Last())], calls := Move(|calls| - 1, Notifying(|stack|)))
    }

    /** The tick at `head` runs: the callbacks it holds are due now. */
    function Begin(): Ledger
      requires head < |ticks| && ticks[head].After? && ticks[head].done.call < |calls|
    {
      var d := ticks[head].done;
      this.(head := head + 1, stack := stack + [Notify(d)], calls := Move(d.call, Notifying(|stack|)))
    }

    /** The first callback of the call the top frame holds. */
    function Invoke(): Ledger
      requires stack != [] && stack[|stack| - 1].Notify?
      requires stack[|stack| - 1].done.call < |calls| && stack[|stack| - 1].done.lo < |ran|
    {
      var top, d := |stack| - 1, stack[|stack| - 1].done;
      this.(ran := ran[d.lo := ran[d.lo] + 1],
            stack := stack[top := if d.batch then Callbacks(d.call, d.lo + 1, d.hi) else Check],
            calls := Move(d.call, if d.batch then Calling(d.lo + 1, top) else Over))
    }

    /** The next callback of the batch the top frame holds. */
    function Continue(): Ledger
      requires stack != [] && stack[|stack| - 1].Callbacks?
      requires stack[|stack| - 1].call < |calls| && stack[|stack| - 1].from < |ran|
    {
      var top := |stack| - 1;
      var Callbacks(c, from, to) := stack[top];
      this.(ran := ran[from := ran[from] + 1], stack := stack[top := Callbacks(c, from + 1, to)],
            calls := Move(c, Calling(from + 1, top)))
    }

    /** The top frame is done. */
    function Pop(): Ledger
      requires stack != [] && (stack[|stack| - 1].Callbacks? ==> stack[|stack| - 1].call < |calls|)
    {
      var top := stack[|stack| - 1];
      this.(stack := stack[..|stack| - 1], calls := if top.Callbacks? then Move(top.call, Over) else calls)
    }
  }

  lemma {:induction false} OwedMove(calls: seq<Call>, c: nat, call: Call)
    requires c < |calls|
    ensures TotalOwed(calls[c := call]) == TotalOwed(calls) - calls[c].Owed() + call.Owed()
  {
    var last := |calls| - 1;
    if c == last {
      assert calls[c := call][..last] == calls[..last];
    } else {
      assert calls[c := call][..last] == calls[..last][c := call];
      OwedMove(calls[..last], c, call);
    }
  }

  lemma OwedIssue(calls: seq<Call>, call: Call)
    ensures TotalOwed(calls + [call]) == TotalOwed(calls) + call.Owed()
  {
    assert (calls + [call])[..|calls|] == calls;
  }

  /** Nothing is owed exactly when the callbacks of every call have run. */
  lemma {:induction false} OwedBounds(calls: seq<Call>)
    requires forall c :: 0 <= c < |calls| ==> CallOk(calls, c)
    ensures TotalOwed(calls) >= 0
    ensures TotalOwed(calls) == 0 <==> forall c :: 0 <= c < |calls| ==> calls[c].Owed() == 0
  {
    if calls != [] {
      var front := calls[..|calls| - 1];
      forall c | 0 <= c < |front| ensures CallOk(front, c) {
        assert CallOk(calls, c);
      }
      OwedBounds(front);
      assert CallOk(calls, |calls| - 1);
    }
  }

  // ----- every operation keeps the ledger in order

  lemma AcceptOk(l: Ledger, sent: nat, accepted: nat, writing: bool)
    requires l.Ok(sent, accepted, writing)
    ensures l.Accept().Ok(sent, accepted + 1, writing)
  {
    forall c | 0 <= c < |l.calls| ensures CallCounted(l.calls, l.Accept().ran, c) {
      assert CallCounted(l.calls, l.ran, c);
    }
  }

  lemma IssueOk(l: Ledger, sent: nat, accepted: nat, k: nat, batch: bool)
    requires l.Ok(sent, accepted, false) && 0 < k <= accepted - sent && (!batch ==> k == 1)
    ensures l.Issue(k, batch).Ok(sent + k, accepted, true)
    ensures TotalOwed(l.Issue(k, batch).calls) == TotalOwed(l.calls) + k + if batch then 1 else 0
  {
    var m := l.Issue(k, batch);
    OwedIssue(l.calls, m.calls[|l.calls|]);
    forall c | 0 <= c < |m.calls| ensures CallOk(m.calls, c) && PhaseOk(m.ticks, m.head, m.stack, m.calls, c) && CallCounted(m.calls, m.ran, c) {
      if c < |l.calls| {
        assert CallOk(l.calls, c) && PhaseOk(l.ticks, l.head, l.stack, l.calls, c) && CallCounted(l.calls, l.ran, c);
      }
    }
    forall t | m.head <= t < |m.ticks| ensures TickOk(m.ticks, m.calls, t) {
      assert TickOk(l.ticks, l.calls, t);
    }
    forall f | 0 <= f < |m.stack| ensures FrameOk(m.stack, m.calls, f) {
      assert FrameOk(l.stack, l.calls, f);
    }
  }

  /** Moving one call's callbacks on within bounds disturbs no other call. */
  lemma MoveOk(l: Ledger, sent: nat, accepted: nat, writing: bool, after: bool, c: nat, phase: Phase, ran: seq<nat>)
    requires l.Ok(sent, accepted, writing) && c < |l.calls| && (phase.Calling? ==> l.calls[c].batch) && !phase.InFlight?
    requires after == (writing && !l.calls[c].phase.InFlight?)
    requires var call := l.calls[c].(phase := phase);
             l.calls[c].CalledUpTo() <= call.CalledUpTo() && (call.lo < call.hi ==> call.CalledUpTo() <= call.hi)
    requires |ran| == |l.ran| && forall w :: 0 <= w < |ran| ==> ran[w] == l.ran[w] + if Newly(l.calls[c], phase, w) then 1 else 0
    ensures Laid(l.Move(c, phase), sent) && Flying(l.Move(c, phase), after) && Counted(l.Move(c, phase), ran, accepted)
    ensures TotalOwed(l.Move(c, phase)) == TotalOwed(l.calls) - l.calls[c].Owed() + l.calls[c].(phase := phase).Owed()
  {
    var calls := l.Move(c, phase);
    OwedMove(l.calls, c, l.calls[c].(phase := phase));
    assert CallOk(l.calls, c);
    forall d | 0 <= d < |calls| ensures CallOk(calls, d) {
      assert CallOk(l.calls, d) && CallOk(l.calls, c);
    }
    MoveCounted(l, sent, accepted, c, phase, ran);
  }

  /** The callbacks that run as the call moves to `phase`. */
  predicate Newly(call: Call, phase: Phase, w: nat) {
    call.CalledUpTo() <= w < call.(phase := phase).CalledUpTo()
  }

  lemma MoveCounted(l: Ledger, sent: nat, accepted: nat, c: nat, phase: Phase, ran: seq<nat>)
    requires Laid(l.calls, sent) && Counted(l.calls, l.ran, accepted) && c < |l.calls|
    requires |ran| == accepted && forall w :: 0 <= w < accepted ==> ran[w] == l.ran[w] + if Newly(l.calls[c], phase, w) then 1 else 0
    requires var call := l.calls[c].(phase := phase); call.lo <= l.calls[c].CalledUpTo() <= call.CalledUpTo() <= call.hi
    ensures Counted(l.Move(c, phase), ran, accepted)
  {
    var calls := l.Move(c, phase);
    forall d | 0 <= d < |calls| ensures CallCounted(calls, ran, d) {
      assert CallCounted(l.calls, l.ran, d);
      if d < c { Apart(l.calls, sent, d, c); }
      if c < d { Apart(l.calls, sent, c, d); }
    }
    EndsBefore(l.calls, sent, c);
  }

  /** The stretches of different calls do not meet. */
  lemma {:induction false} Apart(calls: seq<Call>, sent: nat, c: nat, d: nat)
    requires Laid(calls, sent) && c < d < |calls|
    ensures calls[c].hi <= calls[d].lo
  {
    assert CallOk(calls, d);
    if c < d - 1 {
      Apart(calls, sent, c, d - 1);
      assert CallOk(calls, d - 1);
    }
  }

  lemma EndsBefore(calls: seq<Call>, sent: nat, c: nat)
    requires Laid(calls, sent) && c < |calls|
    ensures calls[c].hi <= sent
  {
    assert CallOk(calls, |calls| - 1);
    if c < |calls| - 1 { Apart(calls, sent, c, |calls| - 1); }
  }

  lemma DeferOk(l: Ledger, sent: nat, accepted: nat, finishing: bool)
    requires l.Ok(sent, accepted, true)
    ensures l.Defer(finishing).Ok(sent, accepted, false) && TotalOwed(l.Defer(finishing).calls) == TotalOwed(l.calls)
  {
    hide Laid, Counted;
    var m, c := l.Defer(finishing), |l.calls| - 1;
    MoveOk(l, sent, accepted, true, false, c, Ticked(|l.ticks|), l.ran);
    forall d | 0 <= d < |m.calls| ensures PhaseOk(m.ticks, m.head, m.stack, m.calls, d) {
      assert PhaseOk(l.ticks, l.head, l.stack, l.calls, d);
    }
    forall t | m.head <= t < |m.ticks| ensures TickOk(m.ticks, m.calls, t) {
      if t < |l.ticks| { assert TickOk(l.ticks, l.calls, t); }
    }
    forall f | 0 <= f < |m.stack| ensures FrameOk(m.stack, m.calls, f) {
      assert FrameOk(l.stack, l.calls, f);
    }
  }

  lemma RaiseOk(l: Ledger, sent: nat, accepted: nat)
    requires l.Ok(sent, accepted, true)
    ensures l.Raise().Ok(sent, accepted, false) && TotalOwed(l.Raise().calls) == TotalOwed(l.calls)
  {
    hide Laid, Counted;
    var m, c := l.Raise(), |l.calls| - 1;
    MoveOk(l, sent, accepted, true, false, c, Notifying(|l.stack|), l.ran);
    forall d | 0 <= d < |m.calls| ensures PhaseOk(m.ticks, m.head, m.stack, m.calls, d) {
      assert PhaseOk(l.ticks, l.head, l.stack, l.calls, d);
    }
    forall t | m.head <= t < |m.ticks| ensures TickOk(m.ticks, m.calls, t) {
      assert TickOk(l.ticks, l.calls, t);
    }
    forall f | 0 <= f < |m.stack| ensures FrameOk(m.stack, m.calls, f) {
      if f < |l.stack| { assert FrameOk(l.stack, l.calls, f); }
    }
  }

  lemma BeginOk(l: Ledger, sent: nat, accepted: nat, writing: bool)
    requires l.Ok(sent, accepted, writing) && l.head < |l.ticks| && l.ticks[l.head].After?
    ensures l.ticks[l.head].done.call < |l.calls|
    ensures l.Begin().Ok(sent, accepted, writing) && TotalOwed(l.Begin().calls) == TotalOwed(l.calls)
  {
    hide Laid, Counted;
    assert TickOk(l.ticks, l.calls, l.head);
    var m, c := l.Begin(), l.ticks[l.head].done.call;
    MoveOk(l, sent, accepted, writing, writing, c, Notifying(|l.stack|), l.ran);
    forall d | 0 <= d < |m.calls| ensures PhaseOk(m.ticks, m.head, m.stack, m.calls, d) {
      assert PhaseOk(l.ticks, l.head, l.stack, l.calls, d);
    }
    forall t | m.head <= t < |m.ticks| ensures TickOk(m.ticks, m.calls, t) {
      assert TickOk(l.ticks, l.calls, t);
    }
    forall f | 0 <= f < |m.stack| ensures FrameOk(m.stack, m.calls, f) {
      if f < |l.stack| { assert FrameOk(l.stack, l.calls, f); }
    }
  }

  lemma InvokeOk(l: Ledger, sent: nat, accepted: nat, writing: bool)
    requires l.Ok(sent, accepted, writing) && l.stack != [] && l.stack[|l.stack| - 1].Notify?
    ensures var d := l.stack[|l.stack| - 1].done;
            && d.call < |l.calls| && d.lo < |l.ran| && l.ran[d.lo] == 0 && l.Invoke().Ok(sent, accepted, writing)
            && TotalOwed(l.Invoke().calls) == TotalOwed(l.calls) - 1 - if d.batch then 1 else 0
  {
    var d := l.stack[|l.stack| - 1].done;
    assert FrameOk(l.stack, l.calls, |l.stack| - 1);
    assert CallOk(l.calls, d.call) && CallCounted(l.calls, l.ran, d.call);
    InvokeMoves(l, sent, accepted, writing);
  }

  lemma InvokeMoves(l: Ledger, sent: nat, accepted: nat, writing: bool)
    requires l.Ok(sent, accepted, writing) && l.stack != [] && l.stack[|l.stack| - 1].Notify?
    requires var d := l.stack[|l.stack| - 1].done;
             && d.call < |l.calls| && l.calls[d.call] == Call(d.lo, d.hi, d.batch, Notifying(|l.stack| - 1))
             && d.lo < |l.ran| && d.lo < d.hi && (!d.batch ==> d.hi == d.lo + 1)
    ensures var d := l.stack[|l.stack| - 1].done;
            && l.Invoke().Ok(sent, accepted, writing)
            && TotalOwed(l.Invoke().calls) == TotalOwed(l.calls) - 1 - if d.batch then 1 else 0
  {
    hide Laid, Counted;
    var m, d := l.Invoke(), l.stack[|l.stack| - 1].done;
    MoveOk(l, sent, accepted, writing, writing, d.call, m.calls[d.call].phase, m.ran);
    forall c | 0 <= c < |m.calls| ensures PhaseOk(m.ticks, m.head, m.stack, m.calls, c) {
      assert PhaseOk(l.ticks, l.head, l.stack, l.calls, c);
    }
    forall t | m.head <= t < |m.ticks| ensures TickOk(m.ticks, m.calls, t) {
      assert TickOk(l.ticks, l.calls, t);
    }
    forall f | 0 <= f < |m.stack| ensures FrameOk(m.stack, m.calls, f) {
      assert FrameOk(l.stack, l.calls, f);
    }
  }

  lemma ContinueOk(l: Ledger, sent: nat, accepted: nat, writing: bool)
    requires l.Ok(sent, accepted, writing) && l.stack != [] && l.stack[|l.stack| - 1].Callbacks?
    requires var top := l.stack[|l.stack| - 1]; top.from < top.to
    ensures var top := l.stack[|l.stack| - 1];
            && top.call < |l.calls| && top.from < |l.ran| && l.ran[top.from] == 0 && l.Continue().Ok(sent, accepted, writing)
            && TotalOwed(l.Continue().calls) == TotalOwed(l.calls) - 1
  {
    var top := l.stack[|l.stack| - 1];
    assert FrameOk(l.stack, l.calls, |l.stack| - 1);
    assert CallOk(l.calls, top.call) && CallCounted(l.calls, l.ran, top.call);
    hide Laid, Counted;
    var m := l.Continue();
    MoveOk(l, sent, accepted, writing, writing, top.call, m.calls[top.call].phase, m.ran);
    forall c | 0 <= c < |m.calls| ensures PhaseOk(m.ticks, m.head, m.stack, m.calls, c) {
      assert PhaseOk(l.ticks, l.head, l.stack, l.calls, c);
    }
    forall t | m.head <= t < |m.ticks| ensures TickOk(m.ticks, m.calls, t) {
      assert TickOk(l.ticks, l.calls, t);
    }
    forall f | 0 <= f < |m.stack| ensures FrameOk(m.stack, m.calls, f) {
      assert FrameOk(l.stack, l.calls, f);
    }
  }

  lemma PopOk(l: Ledger, sent: nat, accepted: nat, writing: bool)
    requires l.Ok(sent, accepted, writing) && l.stack != [] && !l.stack[|l.stack| - 1].Notify?
    requires var top := l.stack[|l.stack| - 1]; top.Callbacks? ==> top.from >= top.to
    ensures var top := l.stack[|l.stack| - 1];
            && (top.Callbacks? ==> top.call < |l.calls|) && l.Pop().Ok(sent, accepted, writing)
            && TotalOwed(l.Pop().calls) == TotalOwed(l.calls)
  {
    var top := l.stack[|l.stack| - 1];
    assert FrameOk(l.stack, l.calls, |l.stack| - 1);
    if top.Callbacks? {
      assert CallOk(l.calls, top.call);
      MoveOk(l, sent, accepted, writing, writing, top.call, Over, l.ran);
    }
    PopHeld(l);
  }

  lemma PopHeld(l: Ledger)
    requires Held(l.ticks, l.head, l.stack, l.calls) && l.stack != [] && !l.stack[|l.stack| - 1].Notify?
    ensures var top := l.stack[|l.stack| - 1];
            (top.Callbacks? ==> top.call < |l.calls|) && Held(l.ticks, l.head, l.Pop().stack, l.Pop().calls)
  {
    assert FrameOk(l.stack, l.calls, |l.stack| - 1);
    var m := l.Pop();
    forall c | 0 <= c < |m.calls| ensures PhaseOk(m.ticks, m.head, m.stack, m.calls, c) {
      assert PhaseOk(l.ticks, l.head, l.stack, l.calls, c);
    }
    forall t | m.head <= t < |m.ticks| ensures TickOk(m.ticks, m.calls, t) {
      assert TickOk(l.ticks, l.calls, t);
    }
    forall f | 0 <= f < |m.stack| ensures FrameOk(m.stack, m.calls, f) {
      assert FrameOk(l.stack, l.calls, f);
    }
  }
}
