/** What a writable stream does when: corks, callbacks, batches and the final call, told from the events alone. */
module WritableEvents {
  import opened WritableLedger
  import opened WritableProtocol
  import opened WritableSafety
  import opened WritableRuns
  import opened WritableDrains

  // ----- corks

  /** What an event makes of the number of corks. */
  function Corking<C>(n: nat, e: Event<C>): nat {
    match e
    case Cork => n + 1
    case Uncork => if n > 0 then n - 1 else 0
    case End => 0
    case _ => n
  }

  /** How often the stream is corked. */
  function Corks<C>(events: seq<Event<C>>): nat {
    if events == [] then 0 else Corking(Corks(events[..|events| - 1]), events[|events| - 1])
  }

  lemma {:induction false} DrainCorks<C>(cfg: Config, s: State<C>, rest: seq<Req<C>>)
    ensures Drain(cfg, s, rest).corked == s.corked
    decreases |rest|
  {
    hide Transport;
    if rest != [] {
      TransportKeeps(cfg, s, [rest[0]], false, rest[0].size);
      var t := Transport(cfg, s, [rest[0]], false, rest[0].size);
      if !t.writing { DrainCorks(cfg, t, rest[1..]); }
    }
  }

  lemma ClearCorks<C>(cfg: Config, s: State<C>)
    ensures ClearBuffer(cfg, s).corked == s.corked
  {
    hide Transport, Drain;
    TransportKeeps(cfg, s, s.buffered, true, s.length);
    DrainCorks(cfg, s, s.buffered);
  }

  /** The parts of a step that hand nothing over. */
  ghost predicate Calm<C>(s: State<C>, t: State<C>) {
    t.corked == s.corked && t.sent == s.sent
  }

  lemma FinishCalm<C>(cfg: Config, s: State<C>)
    ensures Calm(s, FinishMaybe(cfg, s))
  {
  }

  lemma PopCalm<C>(cfg: Config, s: State<C>)
    requires s.ledger.stack != []
    requires s.ledger.stack[|s.ledger.stack| - 1].Callbacks? ==> s.ledger.stack[|s.ledger.stack| - 1].call < |s.ledger.calls|
    ensures Calm(s, PopStep(cfg, s))
  {
    hide FinishMaybe, Ledger.Pop;
    FinishCalm(cfg, s.(ledger := s.ledger.Pop()));
  }

  lemma InvokeCalm<C>(s: State<C>, d: Payload)
    requires s.ledger.stack != [] && s.ledger.stack[|s.ledger.stack| - 1] == Notify(d)
    ensures Calm(s, InvokeStep(s, d))
  {
    hide Ledger.Invoke;
  }

  lemma ContinueCalm<C>(s: State<C>, c: nat, from: nat)
    requires s.ledger.stack != [] && s.ledger.stack[|s.ledger.stack| - 1].Callbacks?
    requires s.ledger.stack[|s.ledger.stack| - 1].call == c && s.ledger.stack[|s.ledger.stack| - 1].from == from
    ensures Calm(s, ContinueStep(s, c, from))
  {
    hide Ledger.Continue;
  }

  lemma ResumeCalm<C>(cfg: Config, s: State<C>)
    requires s.ledger.stack != []
    ensures Calm(s, ResumeStep(cfg, s))
  {
    hide PopStep, InvokeStep, ContinueStep;
    match s.ledger.stack[|s.ledger.stack| - 1]
    case Notify(d) => InvokeCalm(s, d);
    case Callbacks(c, from, to) => if from < to { ContinueCalm(s, c, from); } else if c < |s.ledger.calls| { PopCalm(cfg, s); }
    case Check => PopCalm(cfg, s);
  }

  lemma ProceedCalm<C>(cfg: Config, s: State<C>, finishing: bool)
    requires s.ledger.stack != []
    ensures Calm(s, Proceed(cfg, s, finishing))
  {
    hide ResumeStep;
    ResumeCalm(cfg, s);
  }

  lemma UncorkCorks<C>(cfg: Config, s: State<C>)
    ensures var t := UncorkStep(cfg, s);
            t.corked == (if s.corked > 0 then s.corked - 1 else 0) && (t.corked > 0 ==> t.sent == s.sent)
  {
    hide ClearBuffer;
    if s.corked > 0 { ClearCorks(cfg, s.(corked := s.corked - 1)); }
  }

  lemma WriteCorks<C>(cfg: Config, s: State<C>, req: Req<C>)
    ensures var t := WriteStep(cfg, s, req); t.corked == s.corked && (t.corked > 0 ==> t.sent == s.sent)
  {
    hide Transport, Ledger.Accept;
    var t := Taken(cfg, s, req);
    TransportKeeps(cfg, t, [req], false, req.size);
  }

  lemma CompleteCorks<C>(cfg: Config, s: State<C>)
    requires Inv(s)
    ensures var t := CompleteStep(cfg, s); t.corked == s.corked && (t.corked > 0 ==> t.sent == s.sent)
  {
    hide Mid, ClearBuffer, Proceed;
    if s.writing && s.ledger.calls != [] {
      var t := Settled(s).(ledger := s.ledger.Raise());
      RaisedAs(s);
      RaisedMid(s, s.buffered, 0);
      var finishing := NeedFinish(t);
      if finishing || t.corked > 0 || t.buffered == [] {
        ProceedCalm(cfg, t, finishing);
      } else {
        if t.finished { FinishedEmpty(t); }
        ClearMid(cfg, t);
        ProceedCalm(cfg, ClearBuffer(cfg, t), finishing);
      }
    }
  }

  lemma StepCorks<C>(cfg: Config, s: State<C>, e: Event<C>)
    requires Inv(s)
    ensures var t := Step(cfg, s, e);
            && (t.corked > 0 ==> t.sent == s.sent)
            && t.corked == Corking(s.corked, e)
  {
    hide Inv, WriteStep, UncorkStep, CompleteStep, ResumeStep, FinishMaybe, Proceed;
    match e
    case Write(req) => WriteCorks(cfg, s, req);
    case Cork =>
    case Uncork => UncorkCorks(cfg, s);
    case End =>
      UncorkCorks(cfg, s.(corked := 1));
      var t := if s.corked > 0 then UncorkStep(cfg, s.(corked := 1)) else s;
      FinishCalm(cfg, t.(ending := true));
    case Complete => CompleteCorks(cfg, s);
    case Tick => TickCalm(cfg, s);
    case Resume => if s.ledger.stack != [] { ResumeCalm(cfg, s); }
    case FinalDone => FinishCalm(cfg, s.(pendingcb := s.pendingcb - 1, prefinished := true, finalRunning := false));
  }

  lemma TickCalm<C>(cfg: Config, s: State<C>)
    ensures Calm(s, TickStep(cfg, s))
  {
    hide Proceed;
    if AfterNext(s) && s.ledger.ticks[s.ledger.head].done.call < |s.ledger.calls| {
      var u := s.(ledger := s.ledger.Begin());
      assert u.ledger.stack != [];
      ProceedCalm(cfg, u, s.ledger.ticks[s.ledger.head].finishing);
    }
  }

  /** The stream counts its corks, and while it is corked nothing is handed over. */
  lemma {:induction false} RunCorks<C>(cfg: Config, events: seq<Event<C>>)
    ensures Run(cfg, Fresh(), events).corked == Corks(events)
    ensures events != [] && Corks(events) > 0 ==> Run(cfg, Fresh(), events).sent == Run(cfg, Fresh(), events[..|events| - 1]).sent
  {
    hide Step;
    if events == [] {
      NoCorks<C>();
    } else {
      var front, e := events[..|events| - 1], events[|events| - 1];
      RunCorks(cfg, front);
      RunOn(cfg, front, e);
      assert front + [e] == events;
      hide Run, Inv, Corking;
      StepCorks(cfg, Run(cfg, Fresh(), front), e);
    }
  }

  lemma NoCorks<C>()
    ensures Fresh<C>().corked == 0
  {
  }

  // ----- callbacks

  /** The parts of a step that call nobody back. */
  ghost predicate Silent<C>(s: State<C>, t: State<C>) {
    t.ledger.ran == s.ledger.ran
  }

  lemma LedgerSilent(l: Ledger, k: nat, batch: bool, finishing: bool)
    ensures l.Issue(k, batch).ran == l.ran && |l.Issue(k, batch).calls| > 0
    ensures |l.calls| > 0 ==> l.Defer(finishing).ran == l.ran && l.Raise().ran == l.ran && l.Raise().stack != []
  {
  }

  lemma TransportSilent<C>(cfg: Config, s: State<C>, reqs: seq<Req<C>>, batch: bool, len: int)
    ensures Silent(s, Transport(cfg, s, reqs, batch, len))
  {
    hide Ledger.Issue, Ledger.Defer, NeedFinish;
    var t := Issued(s, reqs, batch, len);
    LedgerSilent(s.ledger, |reqs|, batch, false);
    LedgerSilent(t.ledger, |reqs|, batch, NeedFinish(Settled(t)));
  }

  lemma {:induction false} DrainSilent<C>(cfg: Config, s: State<C>, rest: seq<Req<C>>)
    ensures Silent(s, Drain(cfg, s, rest))
    decreases |rest|
  {
    hide Transport;
    if rest != [] {
      TransportSilent(cfg, s, [rest[0]], false, rest[0].size);
      var t := Transport(cfg, s, [rest[0]], false, rest[0].size);
      if !t.writing { DrainSilent(cfg, t, rest[1..]); }
    }
  }

  lemma ClearSilent<C>(cfg: Config, s: State<C>)
    ensures Silent(s, ClearBuffer(cfg, s))
  {
    hide Transport, Drain;
    TransportSilent(cfg, s, s.buffered, true, s.length);
    DrainSilent(cfg, s, s.buffered);
  }

  lemma UncorkSilent<C>(cfg: Config, s: State<C>)
    ensures Silent(s, UncorkStep(cfg, s))
  {
    hide ClearBuffer;
    if s.corked > 0 { ClearSilent(cfg, s.(corked := s.corked - 1)); }
  }

  lemma FinishSilent<C>(cfg: Config, s: State<C>)
    ensures Silent(s, FinishMaybe(cfg, s))
  {
  }

  lemma WriteSilent<C>(cfg: Config, s: State<C>, req: Req<C>)
    ensures WriteStep(cfg, s, req).ledger.ran == s.ledger.ran + if s.ending then [] else [0]
  {
    hide Transport;
    if !s.ending { TransportSilent(cfg, Taken(cfg, s, req), [req], false, req.size); }
  }

  lemma StepSilent<C>(cfg: Config, s: State<C>, e: Event<C>)
    requires !e.Complete? && !e.Tick? && !e.Resume?
    ensures Step(cfg, s, e).ledger.ran == s.ledger.ran + if e.Write? && !s.ending then [0] else []
  {
    hide WriteStep, UncorkStep, FinishMaybe;
    match e
    case Write(req) => WriteSilent(cfg, s, req);
    case Cork =>
    case Uncork => UncorkSilent(cfg, s);
    case End =>
      UncorkSilent(cfg, s.(corked := 1));
      var t := if s.corked > 0 then UncorkStep(cfg, s.(corked := 1)) else s;
      FinishSilent(cfg, t.(ending := true));
    case FinalDone => FinishSilent(cfg, s.(pendingcb := s.pendingcb - 1, prefinished := true, finalRunning := false));
  }

  /** Callbacks never run within the calls the user makes, and neither does `end` or the completion of _final run one. */
  lemma CallbacksLater<C>(cfg: Config, events: seq<Event<C>>, e: Event<C>)
    requires !e.Complete? && !e.Tick? && !e.Resume?
    ensures var s, t := Run(cfg, Fresh(), events), Run(cfg, Fresh(), events + [e]);
            t.ledger.ran == s.ledger.ran + if e.Write? && !s.ending then [0] else []
  {
    RunOn(cfg, events, e);
    hide Run, Inv, Step;
    StepSilent(cfg, Run(cfg, Fresh(), events), e);
  }

  // ----- batches

  /** A call is a batch only with _writev, and then for two writes or more. */
  ghost predicate Batches(cfg: Config, l: Ledger) {
    forall c :: 0 <= c < |l.calls| && l.calls[c].batch ==> cfg.hasWritev && l.calls[c].hi - l.calls[c].lo >= 2
  }

  lemma IssueBatches(cfg: Config, l: Ledger, k: nat, batch: bool)
    requires Batches(cfg, l) && (batch ==> cfg.hasWritev && k >= 2)
    ensures Batches(cfg, l.Issue(k, batch)) && |l.Issue(k, batch).calls| > 0
  {
  }

  lemma MoveBatches(cfg: Config, l: Ledger, finishing: bool)
    requires Batches(cfg, l)
    ensures |l.calls| > 0 ==> Batches(cfg, l.Defer(finishing)) && Batches(cfg, l.Raise())
    ensures l.head < |l.ticks| && l.ticks[l.head].After? && l.ticks[l.head].done.call < |l.calls| ==> Batches(cfg, l.Begin())
  {
  }

  lemma FrameBatches(cfg: Config, l: Ledger)
    requires Batches(cfg, l) && l.stack != []
    ensures var top := l.stack[|l.stack| - 1];
            && (top.Notify? && top.done.call < |l.calls| && top.done.lo < |l.ran| ==> Batches(cfg, l.Invoke()))
            && (top.Callbacks? && top.call < |l.calls| && top.from < |l.ran| ==> Batches(cfg, l.Continue()))
            && ((top.Callbacks? ==> top.call < |l.calls|) ==> Batches(cfg, l.Pop()))
  {
  }

  lemma TransportBatches<C>(cfg: Config, s: State<C>, reqs: seq<Req<C>>, batch: bool, len: int)
    requires Batches(cfg, s.ledger) && (batch ==> cfg.hasWritev && |reqs| >= 2)
    ensures Batches(cfg, Transport(cfg, s, reqs, batch, len).ledger)
  {
    hide Ledger.Issue, Ledger.Defer, NeedFinish, Batches;
    var t := Issued(s, reqs, batch, len);
    IssueBatches(cfg, s.ledger, |reqs|, batch);
    MoveBatches(cfg, t.ledger, NeedFinish(Settled(t)));
  }

  lemma {:induction false} DrainBatches<C>(cfg: Config, s: State<C>, rest: seq<Req<C>>)
    requires Batches(cfg, s.ledger)
    ensures Batches(cfg, Drain(cfg, s, rest).ledger)
    decreases |rest|
  {
    hide Transport, Batches;
    if rest != [] {
      TransportBatches(cfg, s, [rest[0]], false, rest[0].size);
      var t := Transport(cfg, s, [rest[0]], false, rest[0].size);
      if !t.writing { DrainBatches(cfg, t, rest[1..]); }
    }
  }

  lemma ClearBatches<C>(cfg: Config, s: State<C>)
    requires Batches(cfg, s.ledger)
    ensures Batches(cfg, ClearBuffer(cfg, s).ledger)
  {
    hide Transport, Drain, Batches;
    if cfg.hasWritev && |s.buffered| >= 2 {
      TransportBatches(cfg, s, s.buffered, true, s.length);
    } else {
      DrainBatches(cfg, s, s.buffered);
    }
  }

  lemma FinishBatches<C>(cfg: Config, s: State<C>)
    ensures FinishMaybe(cfg, s).ledger.calls == s.ledger.calls
  {
  }

  lemma PopBatches<C>(cfg: Config, s: State<C>)
    requires Batches(cfg, s.ledger) && s.ledger.stack != []
    requires s.ledger.stack[|s.ledger.stack| - 1].Callbacks? ==> s.ledger.stack[|s.ledger.stack| - 1].call < |s.ledger.calls|
    ensures Batches(cfg, PopStep(cfg, s).ledger)
  {
    FrameBatches(cfg, s.ledger);
    hide FinishMaybe, Ledger.Pop, Batches;
    var t := s.(ledger := s.ledger.Pop());
    FinishBatches(cfg, t);
    SameBatches(cfg, t.ledger, FinishMaybe(cfg, t).ledger);
  }

  lemma InvokeBatches<C>(cfg: Config, s: State<C>, d: Payload)
    requires Batches(cfg, s.ledger) && s.ledger.stack != [] && s.ledger.stack[|s.ledger.stack| - 1] == Notify(d)
    ensures Batches(cfg, InvokeStep(s, d).ledger)
  {
    FrameBatches(cfg, s.ledger);
    hide Ledger.Invoke, Batches;
  }

  lemma ContinueBatches<C>(cfg: Config, s: State<C>, c: nat, from: nat)
    requires Batches(cfg, s.ledger) && s.ledger.stack != [] && s.ledger.stack[|s.ledger.stack| - 1].Callbacks?
    requires s.ledger.stack[|s.ledger.stack| - 1].call == c && s.ledger.stack[|s.ledger.stack| - 1].from == from
    ensures Batches(cfg, ContinueStep(s, c, from).ledger)
  {
    FrameBatches(cfg, s.ledger);
    hide Ledger.Continue, Batches;
  }

  lemma ResumeBatches<C>(cfg: Config, s: State<C>)
    requires Batches(cfg, s.ledger) && s.ledger.stack != []
    ensures Batches(cfg, ResumeStep(cfg, s).ledger)
  {
    hide PopStep, InvokeStep, ContinueStep, Batches;
    match s.ledger.stack[|s.ledger.stack| - 1]
    case Notify(d) => InvokeBatches(cfg, s, d);
    case Callbacks(c, from, to) =>
      if from < to { ContinueBatches(cfg, s, c, from); } else if c < |s.ledger.calls| { PopBatches(cfg, s); }
    case Check => PopBatches(cfg, s);
  }

  lemma StepBatches<C>(cfg: Config, s: State<C>, e: Event<C>)
    requires Batches(cfg, s.ledger)
    ensures Batches(cfg, Step(cfg, s, e).ledger)
  {
    hide Transport, ClearBuffer, FinishMaybe, ResumeStep, Batches, Ledger.Begin, Ledger.Raise, UncorkStep, CompleteStep;
    match e
    case Write(req) =>
      if !s.ending {
        AcceptBatches(cfg, s.ledger);
        TransportBatches(cfg, Taken(cfg, s, req), [req], false, req.size);
      }
    case Cork =>
    case Uncork => UncorkBatches(cfg, s);
    case End =>
      UncorkBatches(cfg, s.(corked := 1));
      var t := if s.corked > 0 then UncorkStep(cfg, s.(corked := 1)) else s;
      FinishBatches(cfg, t.(ending := true));
      SameBatches(cfg, t.ledger, FinishMaybe(cfg, t.(ending := true)).ledger);
    case Complete => CompleteBatches(cfg, s);
    case Tick => TickBatches(cfg, s);
    case Resume => if s.ledger.stack != [] { ResumeBatches(cfg, s); }
    case FinalDone =>
      var t := s.(pendingcb := s.pendingcb - 1, prefinished := true, finalRunning := false);
      FinishBatches(cfg, t);
      SameBatches(cfg, s.ledger, FinishMaybe(cfg, t).ledger);
  }

  lemma AcceptBatches(cfg: Config, l: Ledger)
    requires Batches(cfg, l)
    ensures Batches(cfg, l.Accept())
  {
  }

  lemma SameBatches(cfg: Config, l: Ledger, m: Ledger)
    requires Batches(cfg, l) && m.calls == l.calls
    ensures Batches(cfg, m)
  {
  }

  lemma UncorkBatches<C>(cfg: Config, s: State<C>)
    requires Batches(cfg, s.ledger)
    ensures Batches(cfg, UncorkStep(cfg, s).ledger)
  {
    hide ClearBuffer, Batches;
    if s.corked > 0 { ClearBatches(cfg, s.(corked := s.corked - 1)); }
  }

  lemma ProceedBatches<C>(cfg: Config, s: State<C>, finishing: bool)
    requires Batches(cfg, s.ledger) && s.ledger.stack != []
    ensures Batches(cfg, Proceed(cfg, s, finishing).ledger)
  {
    hide ResumeStep, Batches;
    ResumeBatches(cfg, s);
  }

  lemma CompleteBatches<C>(cfg: Config, s: State<C>)
    requires Batches(cfg, s.ledger)
    ensures Batches(cfg, CompleteStep(cfg, s).ledger)
  {
    hide ClearBuffer, Proceed, Batches, Ledger.Raise;
    if s.writing && s.ledger.calls != [] {
      MoveBatches(cfg, s.ledger, false);
      var t := Settled(s).(ledger := s.ledger.Raise());
      var finishing := NeedFinish(t);
      ClearBatches(cfg, t);
      var u := if finishing || t.corked > 0 || t.buffered == [] then t else ClearBuffer(cfg, t);
      if u.ledger.stack != [] { ProceedBatches(cfg, u, finishing); }
    }
  }

  lemma TickBatches<C>(cfg: Config, s: State<C>)
    requires Batches(cfg, s.ledger)
    ensures Batches(cfg, TickStep(cfg, s).ledger)
  {
    hide Proceed;
    if AfterNext(s) && s.ledger.ticks[s.ledger.head].done.call < |s.ledger.calls| {
      MoveBatches(cfg, s.ledger, false);
      var u := s.(ledger := s.ledger.Begin());
      assert u.ledger.stack != [];
      ProceedBatches(cfg, u, s.ledger.ticks[s.ledger.head].finishing);
    }
  }

  /** Batches are for streams with _writev and for two writes or more; any other call is for one write. */
  lemma {:induction false} RunBatches<C>(cfg: Config, events: seq<Event<C>>)
    ensures Batches(cfg, Run(cfg, Fresh(), events).ledger)
  {
    hide Step, Batches;
    if events == [] {
      NoBatches<C>(cfg);
    } else {
      var front, e := events[..|events| - 1], events[|events| - 1];
      RunBatches(cfg, front);
      StepBatches(cfg, Run(cfg, Fresh(), front), e);
    }
  }

  lemma NoBatches<C>(cfg: Config)
    ensures Batches(cfg, Fresh<C>().ledger)
  {
  }

  lemma BatchTransport<C>(cfg: Config, s: State<C>, reqs: seq<Req<C>>, len: int)
    ensures var t := Transport(cfg, s, reqs, true, len);
            && |t.ledger.calls| == |s.ledger.calls| + 1
            && var call := t.ledger.calls[|s.ledger.calls|];
               call.batch && call.lo == Start(s.ledger.calls, |s.ledger.calls|) && call.hi == call.lo + |reqs|
  {
    hide NeedFinish;
  }

  lemma UncorkWhole<C>(cfg: Config, s: State<C>)
    requires Inv(s) && cfg.hasWritev && s.corked == 1 && !s.writing && |s.buffered| >= 2
    ensures var t := UncorkStep(cfg, s); WholeBatch(s, t)
  {
    if s.finished { FinishedEmpty(s); }
    StartIs(s.ledger, |s.sent|, |s.accepted|, s.writing);
    hide Mid, Transport, Ledger.Ok;
    BatchTransport(cfg, s.(corked := 0), s.buffered, s.length);
    TransportKeeps(cfg, s.(corked := 0), s.buffered, true, s.length);
  }

  /** One more call, a batch that hands over all there was to hand over. */
  ghost predicate WholeBatch<C>(s: State<C>, t: State<C>) {
    && t.buffered == [] && t.sent == s.sent + s.buffered && |t.ledger.calls| == |s.ledger.calls| + 1
    && var call := t.ledger.calls[|s.ledger.calls|];
       call.batch && call.lo == |s.sent| && call.hi == |t.sent|
  }

  /** With _writev, taking the last cork off an idle stream hands over all that is buffered in one call. */
  lemma UncorkBatch<C>(cfg: Config, events: seq<Event<C>>)
    requires var s := Run(cfg, Fresh(), events); cfg.hasWritev && s.corked == 1 && !s.writing && |s.buffered| >= 2
    ensures WholeBatch(Run(cfg, Fresh(), events), Run(cfg, Fresh(), events + [Uncork]))
  {
    RunOn(cfg, events, Uncork);
    hide Run, Inv, UncorkStep, WholeBatch;
    UncorkWhole(cfg, Run(cfg, Fresh(), events));
  }

  // ----- the final call

  /** _final is for streams that have one, and neither it nor `finish` comes before the stream is ended and empty. */
  ghost predicate Finals<C>(cfg: Config, s: State<C>) {
    && (s.finalCalled ==> cfg.hasFinal) && (s.finalRunning ==> s.finalCalled)
    && (s.prefinished || s.finalCalled ==> s.ending && s.length == 0 && s.buffered == [] && !s.writing && s.sent == s.accepted)
    && (s.finished ==> s.prefinished)
    && (cfg.hasFinal && s.prefinished ==> s.finalCalled && !s.finalRunning)
  }

  lemma FinishFinals<C>(cfg: Config, s: State<C>)
    requires Finals(cfg, s) && Mid(s, s.buffered, 0)
    ensures Finals(cfg, FinishMaybe(cfg, s))
  {
    OwedFinal(s);
    hide Mid;
  }

  /** While _final is owed a callback is pending; and everything taken has been sent when nothing is buffered. */
  lemma OwedFinal<C>(s: State<C>)
    requires Mid(s, s.buffered, 0)
    ensures s.pendingcb >= 0 && (FinalOwed(s) ==> s.pendingcb > 0)
    ensures s.buffered == [] ==> s.sent == s.accepted
  {
    OwedBounds(s.ledger.calls);
  }

  /** The parts of a step that have nothing to do with the end. */
  ghost predicate Endless<C>(s: State<C>, t: State<C>) {
    t.finalCalled == s.finalCalled && t.finalRunning == s.finalRunning && t.prefinished == s.prefinished && t.finished == s.finished
  }

  lemma TransportEndless<C>(cfg: Config, s: State<C>, reqs: seq<Req<C>>, batch: bool, len: int)
    ensures Endless(s, Transport(cfg, s, reqs, batch, len))
  {
    hide Ledger.Issue, Ledger.Defer, NeedFinish;
    LedgerKeeps(s.ledger, |reqs|, batch, false);
  }

  lemma {:induction false} DrainEndless<C>(cfg: Config, s: State<C>, rest: seq<Req<C>>)
    ensures Endless(s, Drain(cfg, s, rest))
    decreases |rest|
  {
    hide Transport;
    if rest != [] {
      TransportEndless(cfg, s, [rest[0]], false, rest[0].size);
      var t := Transport(cfg, s, [rest[0]], false, rest[0].size);
      if !t.writing { DrainEndless(cfg, t, rest[1..]); }
    }
  }

  lemma ClearEndless<C>(cfg: Config, s: State<C>)
    ensures Endless(s, ClearBuffer(cfg, s))
  {
    hide Transport, Drain;
    TransportEndless(cfg, s, s.buffered, true, s.length);
    DrainEndless(cfg, s, s.buffered);
  }

  lemma EndlessFinals<C>(cfg: Config, s: State<C>, t: State<C>)
    requires Finals(cfg, s) && Endless(s, t) && !s.prefinished && !s.finalCalled
    ensures Finals(cfg, t)
  {
  }

  lemma UncorkFinals<C>(cfg: Config, s: State<C>)
    requires Finals(cfg, s)
    ensures Finals(cfg, UncorkStep(cfg, s))
  {
    hide ClearBuffer;
    if s.corked > 0 {
      var t := s.(corked := s.corked - 1);
      assert Finals(cfg, t);
      if t.buffered != [] {
        ClearEndless(cfg, t);
        EndlessFinals(cfg, t, ClearBuffer(cfg, t));
      }
    }
  }

  lemma WriteFinals<C>(cfg: Config, s: State<C>, req: Req<C>)
    requires Finals(cfg, s)
    ensures Finals(cfg, WriteStep(cfg, s, req))
  {
    hide Transport;
    if !s.ending {
      var t := Taken(cfg, s, req);
      TransportEndless(cfg, t, [req], false, req.size);
      EndlessFinals(cfg, s, WriteStep(cfg, s, req));
    }
  }

  lemma ResumeFinals<C>(cfg: Config, s: State<C>)
    requires Finals(cfg, s) && Mid(s, s.buffered, 0) && s.ledger.stack != []
    ensures Finals(cfg, ResumeStep(cfg, s))
  {
    hide FinishMaybe, Mid, Ledger.Pop, Ledger.Invoke, Ledger.Continue;
    var top := s.ledger.stack[|s.ledger.stack| - 1];
    if !top.Notify? && (top.Callbacks? ==> top.from >= top.to) {
      PoppedMid(s);
      var t := s.(ledger := s.ledger.Pop());
      assert Finals(cfg, t);
      FinishFinals(cfg, t);
    }
  }

  lemma ProceedFinals<C>(cfg: Config, s: State<C>, finishing: bool)
    requires Finals(cfg, s) && Mid(s, s.buffered, 0) && s.ledger.stack != []
    ensures Finals(cfg, Proceed(cfg, s, finishing))
  {
    ResumeFinals(cfg, s);
    hide ResumeStep, Mid;
  }

  lemma CompleteFinals<C>(cfg: Config, s: State<C>)
    requires Finals(cfg, s) && Inv(s)
    ensures Finals(cfg, CompleteStep(cfg, s))
  {
    hide Mid, ClearBuffer, Proceed, Finals;
    if s.writing && s.ledger.calls != [] {
      var t := Settled(s).(ledger := s.ledger.Raise());
      RaisedMid(s, s.buffered, 0);
      FlyingFinals(cfg, s, t);
      var finishing := NeedFinish(t);
      if finishing || t.corked > 0 || t.buffered == [] {
        ProceedFinals(cfg, t, finishing);
      } else {
        if t.finished { FinishedEmpty(t); }
        ClearMid(cfg, t);
        ClearEndless(cfg, t);
        EndlessFinals(cfg, t, ClearBuffer(cfg, t));
        ProceedFinals(cfg, ClearBuffer(cfg, t), finishing);
      }
    }
  }

  /** A stream with a call in flight is not at its end. */
  lemma FlyingFinals<C>(cfg: Config, s: State<C>, t: State<C>)
    requires Finals(cfg, s) && s.writing && Endless(s, t)
    ensures Finals(cfg, t) && !t.prefinished && !t.finalCalled
  {
  }

  lemma TickFinals<C>(cfg: Config, s: State<C>)
    requires Finals(cfg, s) && Inv(s)
    ensures Finals(cfg, TickStep(cfg, s))
  {
    if s.ledger.stack == [] && s.ledger.head < |s.ledger.ticks| {
      if s.ledger.ticks[s.ledger.head].After? {
        BegunMid(s);
        hide Mid, Proceed;
        var t := s.(ledger := s.ledger.Begin());
        assert t.ledger.stack != [] && Finals(cfg, t);
        ProceedFinals(cfg, t, s.ledger.ticks[s.ledger.head].finishing);
      } else {
        StartedFinals(cfg, s);
      }
    }
  }

  lemma StartedFinals<C>(cfg: Config, s: State<C>)
    requires Finals(cfg, s) && Inv(s) && s.ledger.head < |s.ledger.ticks| && s.ledger.ticks[s.ledger.head].Finalize?
    ensures FinalOwed(s) && Finals(cfg, s.(finalRunning := true, ledger := s.ledger.(head := s.ledger.head + 1)))
  {
    assert FinalOk(s);
  }

  lemma EndFinals<C>(cfg: Config, s: State<C>)
    requires Finals(cfg, s) && Inv(s)
    ensures Finals(cfg, EndStep(cfg, s))
  {
    hide Mid, UncorkStep, FinishMaybe;
    if s.corked > 0 {
      CorkedMid(s, 1);
      UncorkInv(cfg, s.(corked := 1));
      UncorkFinals(cfg, s.(corked := 1));
    }
    var t := if s.corked > 0 then UncorkStep(cfg, s.(corked := 1)) else s;
    if !t.ending && !t.finished {
      EndingMid(t);
      FinishFinals(cfg, t.(ending := true));
    }
  }

  lemma DoneFinals<C>(cfg: Config, s: State<C>)
    requires Finals(cfg, s) && Inv(s)
    ensures Finals(cfg, FinalStep(cfg, s))
  {
    hide FinishMaybe, Mid;
    if s.finalRunning {
      var t := s.(pendingcb := s.pendingcb - 1, prefinished := true, finalRunning := false);
      FinalDoneMid(s, t);
      FinishFinals(cfg, t);
    }
  }

  lemma StepFinals<C>(cfg: Config, s: State<C>, e: Event<C>)
    requires Finals(cfg, s) && Inv(s)
    ensures Finals(cfg, Step(cfg, s, e))
  {
    InvMid(s);
    hide Inv, Mid, Finals, WriteStep, UncorkStep, EndStep, CompleteStep, TickStep, ResumeStep, FinalStep;
    match e
    case Write(req) => WriteFinals(cfg, s, req);
    case Cork => CorkFinals(cfg, s);
    case Uncork => UncorkFinals(cfg, s);
    case End => EndFinals(cfg, s);
    case Complete => CompleteFinals(cfg, s);
    case Tick => TickFinals(cfg, s);
    case Resume => if s.ledger.stack != [] { ResumeFinals(cfg, s); }
    case FinalDone => DoneFinals(cfg, s);
  }

  lemma InvMid<C>(s: State<C>)
    requires Inv(s)
    ensures Mid(s, s.buffered, 0)
  {
  }

  lemma CorkFinals<C>(cfg: Config, s: State<C>)
    requires Finals(cfg, s)
    ensures Finals(cfg, s.(corked := s.corked + 1))
  {
  }

  lemma NoFinals<C>(cfg: Config)
    ensures Finals(cfg, Fresh<C>())
  {
  }

  lemma {:induction false} RunFinals<C>(cfg: Config, events: seq<Event<C>>)
    ensures Finals(cfg, Run(cfg, Fresh(), events))
  {
    hide Step, Finals;
    if events == [] {
      NoFinals<C>(cfg);
    } else {
      var front, e := events[..|events| - 1], events[|events| - 1];
      RunFinals(cfg, front);
      RunInv(cfg, front);
      hide Inv;
      StepFinals(cfg, Run(cfg, Fresh(), front), e);
    }
  }

  /** A stream that has finished has prefinished before, by the completion of _final if it has one; and neither comes before
      the stream is ended, empty and idle. */
  lemma FinishAfterFinal<C>(cfg: Config, events: seq<Event<C>>)
    ensures var s := Run(cfg, Fresh(), events);
            && (s.finishes == 1 ==> s.prefinished && (cfg.hasFinal ==> s.finalCalled && !s.finalRunning))
            && (s.prefinished || s.finalCalled ==> s.ending && s.length == 0 && !s.writing && s.sent == s.accepted)
            && (!cfg.hasFinal ==> !s.finalCalled && !s.finalRunning)
  {
    RunFinals(cfg, events);
    RunInv(cfg, events);
    hide Run;
  }

  /** The parts of a step that neither start _final nor take note of its end. */
  ghost predicate Patient<C>(cfg: Config, s: State<C>, t: State<C>) {
    t.finalRunning == s.finalRunning && (cfg.hasFinal ==> t.prefinished == s.prefinished)
  }

  lemma FinishPatient<C>(cfg: Config, s: State<C>)
    ensures Patient(cfg, s, FinishMaybe(cfg, s))
  {
  }

  lemma PopPatient<C>(cfg: Config, s: State<C>)
    requires s.ledger.stack != []
    requires s.ledger.stack[|s.ledger.stack| - 1].Callbacks? ==> s.ledger.stack[|s.ledger.stack| - 1].call < |s.ledger.calls|
    ensures Patient(cfg, s, PopStep(cfg, s))
  {
    hide FinishMaybe, Ledger.Pop;
    FinishPatient(cfg, s.(ledger := s.ledger.Pop()));
  }

  lemma InvokePatient<C>(cfg: Config, s: State<C>, d: Payload)
    requires s.ledger.stack != [] && s.ledger.stack[|s.ledger.stack| - 1] == Notify(d)
    ensures Patient(cfg, s, InvokeStep(s, d))
  {
    hide Ledger.Invoke;
  }

  lemma ContinuePatient<C>(cfg: Config, s: State<C>, c: nat, from: nat)
    requires s.ledger.stack != [] && s.ledger.stack[|s.ledger.stack| - 1].Callbacks?
    requires s.ledger.stack[|s.ledger.stack| - 1].call == c && s.ledger.stack[|s.ledger.stack| - 1].from == from
    ensures Patient(cfg, s, ContinueStep(s, c, from))
  {
    hide Ledger.Continue;
  }

  lemma ResumePatient<C>(cfg: Config, s: State<C>)
    requires s.ledger.stack != []
    ensures Patient(cfg, s, ResumeStep(cfg, s))
  {
    hide PopStep, InvokeStep, ContinueStep;
    match s.ledger.stack[|s.ledger.stack| - 1]
    case Notify(d) => InvokePatient(cfg, s, d);
    case Callbacks(c, from, to) =>
      if from < to { ContinuePatient(cfg, s, c, from); } else if c < |s.ledger.calls| { PopPatient(cfg, s); }
    case Check => PopPatient(cfg, s);
  }

  lemma ProceedPatient<C>(cfg: Config, s: State<C>, finishing: bool)
    requires s.ledger.stack != []
    ensures Patient(cfg, s, Proceed(cfg, s, finishing))
  {
    hide ResumeStep;
    ResumePatient(cfg, s);
  }

  lemma UncorkPatient<C>(cfg: Config, s: State<C>)
    ensures Patient(cfg, s, UncorkStep(cfg, s))
  {
    hide ClearBuffer;
    if s.corked > 0 { ClearEndless(cfg, s.(corked := s.corked - 1)); }
  }

  lemma CompletePatient<C>(cfg: Config, s: State<C>)
    ensures Patient(cfg, s, CompleteStep(cfg, s))
  {
    hide ClearBuffer, Proceed;
    if s.writing && s.ledger.calls != [] {
      var t := Settled(s).(ledger := s.ledger.Raise());
      var finishing := NeedFinish(t);
      ClearEndless(cfg, t);
      var u := if finishing || t.corked > 0 || t.buffered == [] then t else ClearBuffer(cfg, t);
      if u.ledger.stack != [] { ProceedPatient(cfg, u, finishing); }
    }
  }

  lemma TickPatient<C>(cfg: Config, s: State<C>)
    ensures var t := TickStep(cfg, s); (cfg.hasFinal ==> t.prefinished == s.prefinished) && (s.finalRunning ==> t.finalRunning)
  {
    hide Proceed;
    if AfterNext(s) && s.ledger.ticks[s.ledger.head].done.call < |s.ledger.calls| {
      var u := s.(ledger := s.ledger.Begin());
      assert u.ledger.stack != [];
      ProceedPatient(cfg, u, s.ledger.ticks[s.ledger.head].finishing);
    }
  }

  lemma StepPatient<C>(cfg: Config, s: State<C>, e: Event<C>)
    ensures var t := Step(cfg, s, e);
            && (cfg.hasFinal && t.prefinished && !s.prefinished ==> e.FinalDone? && s.finalRunning)
            && (t.finalRunning && !s.finalRunning ==> e.Tick?) && (s.finalRunning && !t.finalRunning ==> e.FinalDone?)
  {
    hide WriteStep, UncorkStep, FinishMaybe, CompleteStep, TickStep, ResumeStep;
    match e
    case Write(req) => WritePatient(cfg, s, req);
    case Cork =>
    case Uncork => UncorkPatient(cfg, s);
    case End =>
      UncorkPatient(cfg, s.(corked := 1));
      var t := if s.corked > 0 then UncorkStep(cfg, s.(corked := 1)) else s;
      FinishPatient(cfg, t.(ending := true));
    case Complete => CompletePatient(cfg, s);
    case Tick => TickPatient(cfg, s);
    case Resume => if s.ledger.stack != [] { ResumePatient(cfg, s); }
    case FinalDone => FinishPatient(cfg, s.(pendingcb := s.pendingcb - 1, prefinished := true, finalRunning := false));
  }

  lemma WritePatient<C>(cfg: Config, s: State<C>, req: Req<C>)
    ensures Patient(cfg, s, WriteStep(cfg, s, req))
  {
    hide Transport;
    if !s.ending { TransportEndless(cfg, Taken(cfg, s, req), [req], false, req.size); }
  }

  /** _final is called from a tick, and only its completion makes a stream that has one prefinish. */
  lemma PrefinishByFinal<C>(cfg: Config, events: seq<Event<C>>, e: Event<C>)
    ensures var s, t := Run(cfg, Fresh(), events), Run(cfg, Fresh(), events + [e]);
            && (cfg.hasFinal && t.prefinished && !s.prefinished ==> e.FinalDone? && s.finalRunning)
            && (t.finalRunning && !s.finalRunning ==> e.Tick?) && (s.finalRunning && !t.finalRunning ==> e.FinalDone?)
  {
    RunOn(cfg, events, e);
    hide Run, Inv, Step;
    StepPatient(cfg, Run(cfg, Fresh(), events), e);
  }
}
