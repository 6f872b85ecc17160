/** The writable stream as a state machine: what each step does between two moments at which user code runs. */
module WritableProtocol {
  import opened WritableLedger

  datatype Req<C> = Req(chunk: C, size: nat)

  /** What the stream was made with, and whether the n-th transport call completes before it returns. */
  datatype Config = Config(highWaterMark: int, hasWritev: bool, hasFinal: bool, prompt: nat -> bool)

  datatype State<C> = State(
    writing: bool, corked: nat, length: int, writelen: int, needDrain: bool, ending: bool, finished: bool,
    prefinished: bool, finalCalled: bool, finalRunning: bool, pendingcb: int, buffered: seq<Req<C>>, ledger: Ledger,
    // history: the writes taken, those handed to the transport, how often each event fired, where _final was queued
    accepted: seq<Req<C>>, sent: seq<Req<C>>, finishes: nat, drains: nat, finalAt: nat)

  datatype Event<C> = Write(req: Req<C>) | Cork | Uncork | End | Complete | Tick | Resume | FinalDone

  function Fresh<C>(): State<C> {
    State(false, 0, 0, 0, false, false, false, false, false, false, 0, [], Ledger([], 0, [], [], []), [], [], 0, 0, 0)
  }

  function Sizes<C>(reqs: seq<Req<C>>): nat {
    if reqs == [] then 0 else Sizes(reqs[..|reqs| - 1]) + reqs[|reqs| - 1].size
  }

  // ----- the steps

  predicate NeedFinish<C>(s: State<C>) {
    s.ending && s.length == 0 && s.buffered == [] && !s.finished && !s.writing
  }

  function Issued<C>(s: State<C>, reqs: seq<Req<C>>, batch: bool, len: int): State<C> {
    s.(writing := true, writelen := len, sent := s.sent + reqs, ledger := s.ledger.Issue(|reqs|, batch))
  }

  function Settled<C>(s: State<C>): State<C> {
    s.(writing := false, length := s.length - s.writelen, writelen := 0)
  }

  function Deferred<C>(s: State<C>): State<C>
    requires |s.ledger.calls| > 0
  {
    s.(ledger := s.ledger.Defer(NeedFinish(s)))
  }

  /** One transport call: a prompt one completes at once and leaves its callbacks to a tick. */
  function Transport<C>(cfg: Config, s: State<C>, reqs: seq<Req<C>>, batch: bool, len: int): State<C> {
    var t := Issued(s, reqs, batch, len);
    if cfg.prompt(|s.ledger.calls|) then Deferred(Settled(t)) else t
  }

  /** clearBuffer without _writev: one call after another until one stays in flight. */
  function Drain<C>(cfg: Config, s: State<C>, rest: seq<Req<C>>): State<C>
    decreases |rest|
  {
    if rest == [] then s.(buffered := [])
    else
      var t := Transport(cfg, s, [rest[0]], false, rest[0].size);
      if t.writing then t.(buffered := rest[1..]) else Drain(cfg, t, rest[1..])
  }

  function ClearBuffer<C>(cfg: Config, s: State<C>): State<C> {
    if cfg.hasWritev && |s.buffered| >= 2 then
      var t := Transport(cfg, s, s.buffered, true, s.length);
      t.(pendingcb := t.pendingcb + 1, buffered := [])
    else Drain(cfg, s, s.buffered)
  }

  function Prefinish<C>(cfg: Config, s: State<C>): State<C> {
    if s.prefinished || s.finalCalled then s
    else if cfg.hasFinal then
      s.(pendingcb := s.pendingcb + 1, finalCalled := true, finalAt := |s.ledger.ticks|,
         ledger := s.ledger.(ticks := s.ledger.ticks + [Finalize]))
    else s.(prefinished := true)
  }

  function FinishMaybe<C>(cfg: Config, s: State<C>): (t: State<C>)
    ensures t.accepted == s.accepted && t.sent == s.sent
  {
    if !NeedFinish(s) then s
    else
      var t := Prefinish(cfg, s);
      if t.pendingcb == 0 then t.(finished := true, finishes := t.finishes + 1) else t
  }

  function WriteStep<C>(cfg: Config, s: State<C>, req: Req<C>): State<C> {
    if s.ending then s
    else
      var t := s.(accepted := s.accepted + [req], pendingcb := s.pendingcb + 1, length := s.length + req.size,
                  ledger := s.ledger.Accept(), needDrain := s.needDrain || s.length + req.size >= cfg.highWaterMark);
      if t.writing || t.corked > 0 then t.(buffered := t.buffered + [req]) else Transport(cfg, t, [req], false, req.size)
  }

  function UncorkStep<C>(cfg: Config, s: State<C>): State<C> {
    if s.corked == 0 then s
    else
      var t := s.(corked := s.corked - 1);
      if t.writing || t.corked > 0 || t.finished || t.buffered == [] then t else ClearBuffer(cfg, t)
  }

  function EndStep<C>(cfg: Config, s: State<C>): State<C> {
    var t := if s.corked > 0 then UncorkStep(cfg, s.(corked := 1)) else s;
    if t.ending || t.finished then t else FinishMaybe(cfg, t.(ending := true))
  }

  /** The callback of a single write is called, or the first of a batch. */
  function InvokeStep<C>(s: State<C>, d: Payload): (t: State<C>)
    requires s.ledger.stack != [] && s.ledger.stack[|s.ledger.stack| - 1] == Notify(d)
    ensures t.accepted == s.accepted && t.sent == s.sent
  {
    if d.call < |s.ledger.calls| && d.lo < |s.ledger.ran| then
      s.(pendingcb := s.pendingcb - 1 - if d.batch then 1 else 0, ledger := s.ledger.Invoke())
    else s
  }

  /** The next callback of a batch is called. */
  function ContinueStep<C>(s: State<C>, c: nat, from: nat): (t: State<C>)
    requires s.ledger.stack != [] && s.ledger.stack[|s.ledger.stack| - 1].Callbacks?
    requires s.ledger.stack[|s.ledger.stack| - 1].call == c && s.ledger.stack[|s.ledger.stack| - 1].from == from
    ensures t.accepted == s.accepted && t.sent == s.sent
  {
    if c < |s.ledger.calls| && from < |s.ledger.ran| then s.(pendingcb := s.pendingcb - 1, ledger := s.ledger.Continue()) else s
  }

  /** The frame is at its end. */
  function PopStep<C>(cfg: Config, s: State<C>): (t: State<C>)
    requires s.ledger.stack != []
    requires s.ledger.stack[|s.ledger.stack| - 1].Callbacks? ==> s.ledger.stack[|s.ledger.stack| - 1].call < |s.ledger.calls|
    ensures t.accepted == s.accepted && t.sent == s.sent
  {
    FinishMaybe(cfg, s.(ledger := s.ledger.Pop()))
  }

  /** The code a frame holds runs on until the next callback is called, or to its end. */
  function ResumeStep<C>(cfg: Config, s: State<C>): (t: State<C>)
    requires s.ledger.stack != []
    ensures t.accepted == s.accepted && t.sent == s.sent
  {
    match s.ledger.stack[|s.ledger.stack| - 1]
    case Notify(d) => InvokeStep(s, d)
    case Callbacks(c, from, to) =>
      if from < to then ContinueStep(s, c, from) else if c < |s.ledger.calls| then PopStep(cfg, s) else s
    case Check => PopStep(cfg, s)
  }

  /** afterWrite: `drain` first, when it is due. */
  function Proceed<C>(cfg: Config, s: State<C>, finishing: bool): (t: State<C>)
    requires s.ledger.stack != []
    ensures t.accepted == s.accepted && t.sent == s.sent
  {
    if !finishing && s.length == 0 && s.needDrain then s.(needDrain := false, drains := s.drains + 1) else ResumeStep(cfg, s)
  }

  function CompleteStep<C>(cfg: Config, s: State<C>): State<C> {
    if !s.writing || s.ledger.calls == [] then s
    else
      var t := Settled(s).(ledger := s.ledger.Raise());
      var finishing := NeedFinish(t);
      var u := if finishing || t.corked > 0 || t.buffered == [] then t else ClearBuffer(cfg, t);
      if u.ledger.stack != [] then Proceed(cfg, u, finishing) else u
  }

  function TickStep<C>(cfg: Config, s: State<C>): (t: State<C>)
    ensures t.accepted == s.accepted && t.sent == s.sent
  {
    if s.ledger.stack != [] || s.ledger.head >= |s.ledger.ticks| then s
    else
      match s.ledger.ticks[s.ledger.head]
      case Finalize => s.(finalRunning := true, ledger := s.ledger.(head := s.ledger.head + 1))
      case After(d, finishing) =>
        if d.call < |s.ledger.calls| then Proceed(cfg, s.(ledger := s.ledger.Begin()), finishing) else s
  }

  function FinalStep<C>(cfg: Config, s: State<C>): (t: State<C>)
    ensures t.accepted == s.accepted && t.sent == s.sent
  {
    if !s.finalRunning then s
    else FinishMaybe(cfg, s.(pendingcb := s.pendingcb - 1, prefinished := true, finalRunning := false))
  }

  /** A step that is not enabled leaves the stream as it is. */
  function Step<C>(cfg: Config, s: State<C>, e: Event<C>): State<C> {
    match e
    case Write(req) => WriteStep(cfg, s, req)
    case Cork => s.(corked := s.corked + 1)
    case Uncork => UncorkStep(cfg, s)
    case End => EndStep(cfg, s)
    case Complete => CompleteStep(cfg, s)
    case Tick => TickStep(cfg, s)
    case Resume => if s.ledger.stack == [] then s else ResumeStep(cfg, s)
    case FinalDone => FinalStep(cfg, s)
  }

  function Run<C>(cfg: Config, s: State<C>, events: seq<Event<C>>): State<C> {
    if events == [] then s else Step(cfg, Run(cfg, s, events[..|events| - 1]), events[|events| - 1])
  }

  // ----- the invariant

  /** What has been handed to the transport call in flight. */
  function InTransit<C>(s: State<C>): seq<Req<C>> {
    if s.writing && |s.ledger.calls| > 0 && s.ledger.calls[|s.ledger.calls| - 1].lo <= |s.sent|
    then s.sent[s.ledger.calls[|s.ledger.calls| - 1].lo..]
    else []
  }

  ghost predicate FinalQueued<C>(s: State<C>) {
    s.ledger.head <= s.finalAt < |s.ledger.ticks| && s.ledger.ticks[s.finalAt].Finalize?
  }

  predicate FinalOwed<C>(s: State<C>) {
    s.finalCalled && !s.prefinished
  }

  ghost predicate FinalOk<C>(s: State<C>) {
    && (s.finalRunning ==> FinalOwed(s))
    && (FinalOwed(s) && !s.finalRunning ==> FinalQueued(s))
    && forall t :: s.ledger.head <= t < |s.ledger.ticks| && s.ledger.ticks[t].Finalize? ==>
                     t == s.finalAt && FinalOwed(s) && !s.finalRunning
  }

  /** With `rest` still to be handed over, and `extra` callbacks of an open batch not yet entered in pendingcb. */
  ghost predicate Mid<C>(s: State<C>, rest: seq<Req<C>>, extra: int) {
    && s.sent + rest == s.accepted && s.ledger.Ok(|s.sent|, |s.accepted|, s.writing)
    && s.writelen == Sizes(InTransit(s)) && s.length == Sizes(rest) + s.writelen
    && s.pendingcb + extra == |rest| + TotalOwed(s.ledger.calls) + (if FinalOwed(s) then 1 else 0)
    && FinalOk(s)
    && s.finishes == (if s.finished then 1 else 0) && (s.finished ==> s.ending && s.pendingcb + extra == 0)
  }

  /** An idle uncorked stream has nothing buffered; an ended one that owes nothing has finished, or is about to check. */
  ghost predicate Inv<C>(s: State<C>) {
    && Mid(s, s.buffered, 0)
    && (!s.writing && s.corked == 0 ==> s.buffered == [])
    && (s.ending && !s.finished && s.pendingcb == 0 ==> s.ledger.stack != [])
  }
}
