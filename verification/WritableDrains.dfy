/** When a writable stream asks its caller to wait, and when it says `drain`. */
module WritableDrains {
  import opened WritableLedger
  import opened WritableProtocol
  import opened WritableSafety
  import opened WritableRuns

  /** The write is taken, and answered by asking the caller to wait: what the stream holds then has reached the mark. */
  predicate AskedToWait<C>(cfg: Config, s: State<C>, e: Event<C>) {
    e.Write? && !s.ending && s.length + e.req.size >= cfg.highWaterMark
  }

  /** The caller was asked to wait, and no `drain` has come since. */
  function Waiting<C>(cfg: Config, events: seq<Event<C>>): bool {
    if events == [] then false
    else
      var front, e := events[..|events| - 1], events[|events| - 1];
      var s := Run(cfg, Fresh(), front);
      if AskedToWait(cfg, s, e) then true
      else if Run(cfg, Fresh(), events).drains != s.drains then false
      else Waiting(cfg, front)
  }

  // ----- what the parts of a step leave alone

  /** Neither asked to wait nor drained, and not ended. */
  ghost predicate Unasked<C>(s: State<C>, t: State<C>) {
    t.needDrain == s.needDrain && t.drains == s.drains && t.ending == s.ending
  }

  lemma IssuedUnasked<C>(s: State<C>, reqs: seq<Req<C>>, batch: bool, len: int)
    ensures var t := Issued(s, reqs, batch, len);
            && Unasked(s, t) && t.writing && t.ledger.ticks == s.ledger.ticks && t.ledger.head == s.ledger.head && |t.ledger.calls| > 0
            && t.buffered == s.buffered
  {
  }

  lemma DeferredUnasked<C>(s: State<C>)
    requires |s.ledger.calls| > 0
    ensures var t := Deferred(Settled(s));
            && Unasked(s, t) && !t.writing && t.ledger.head == s.ledger.head && t.buffered == s.buffered
            && t.ledger.ticks == s.ledger.ticks + [After(s.ledger.Last(), NeedFinish(Settled(s)))]
  {
    hide NeedFinish;
  }

  lemma TransportUnasked<C>(cfg: Config, s: State<C>, reqs: seq<Req<C>>, batch: bool, len: int)
    ensures Unasked(s, Transport(cfg, s, reqs, batch, len))
  {
    hide Issued, Deferred, Settled;
    IssuedUnasked(s, reqs, batch, len);
    DeferredUnasked(Issued(s, reqs, batch, len));
  }

  lemma {:induction false} DrainUnasked<C>(cfg: Config, s: State<C>, rest: seq<Req<C>>)
    ensures Unasked(s, Drain(cfg, s, rest))
    decreases |rest|
  {
    hide Transport;
    if rest != [] {
      TransportUnasked(cfg, s, [rest[0]], false, rest[0].size);
      var t := Transport(cfg, s, [rest[0]], false, rest[0].size);
      if !t.writing { DrainUnasked(cfg, t, rest[1..]); }
    }
  }

  lemma ClearUnasked<C>(cfg: Config, s: State<C>)
    ensures Unasked(s, ClearBuffer(cfg, s))
  {
    hide Transport, Drain;
    TransportUnasked(cfg, s, s.buffered, true, s.length);
    DrainUnasked(cfg, s, s.buffered);
  }

  lemma UncorkUnasked<C>(cfg: Config, s: State<C>)
    ensures Unasked(s, UncorkStep(cfg, s))
  {
    hide ClearBuffer;
    if s.corked > 0 { ClearUnasked(cfg, s.(corked := s.corked - 1)); }
  }

  /** A stream that was not ended goes on as it stood, but for the callbacks. */
  ghost predicate Aside<C>(s: State<C>, t: State<C>) {
    && Unasked(s, t) && t.length == s.length
    && t.writing == s.writing && t.buffered == s.buffered && t.ledger.head == s.ledger.head && s.ledger.ticks <= t.ledger.ticks
    && (forall i :: |s.ledger.ticks| <= i < |t.ledger.ticks| ==> t.ledger.ticks[i].Finalize?)
  }

  lemma PrefinishAside<C>(cfg: Config, s: State<C>)
    ensures Aside(s, Prefinish(cfg, s))
  {
  }

  lemma FinishAside<C>(cfg: Config, s: State<C>)
    ensures Aside(s, FinishMaybe(cfg, s))
  {
    PrefinishAside(cfg, s);
    hide Prefinish, NeedFinish;
  }

  lemma PopAside<C>(cfg: Config, s: State<C>)
    requires s.ledger.stack != []
    requires s.ledger.stack[|s.ledger.stack| - 1].Callbacks? ==> s.ledger.stack[|s.ledger.stack| - 1].call < |s.ledger.calls|
    ensures Aside(s, PopStep(cfg, s))
  {
    hide FinishMaybe;
    FinishAside(cfg, s.(ledger := s.ledger.Pop()));
  }

  lemma InvokeTicks(l: Ledger)
    requires l.stack != [] && l.stack[|l.stack| - 1].Notify?
    requires l.stack[|l.stack| - 1].done.call < |l.calls| && l.stack[|l.stack| - 1].done.lo < |l.ran|
    ensures l.Invoke().ticks == l.ticks && l.Invoke().head == l.head
  {
  }

  lemma ContinueTicks(l: Ledger)
    requires l.stack != [] && l.stack[|l.stack| - 1].Callbacks?
    requires l.stack[|l.stack| - 1].call < |l.calls| && l.stack[|l.stack| - 1].from < |l.ran|
    ensures l.Continue().ticks == l.ticks && l.Continue().head == l.head
  {
  }

  lemma InvokeAside<C>(s: State<C>, d: Payload)
    requires s.ledger.stack != [] && s.ledger.stack[|s.ledger.stack| - 1] == Notify(d)
    ensures Aside(s, InvokeStep(s, d))
  {
    hide Ledger.Invoke;
    if d.call < |s.ledger.calls| && d.lo < |s.ledger.ran| { InvokeTicks(s.ledger); }
  }

  lemma ContinueAside<C>(s: State<C>, c: nat, from: nat)
    requires s.ledger.stack != [] && s.ledger.stack[|s.ledger.stack| - 1].Callbacks?
    requires s.ledger.stack[|s.ledger.stack| - 1].call == c && s.ledger.stack[|s.ledger.stack| - 1].from == from
    ensures Aside(s, ContinueStep(s, c, from))
  {
    hide Ledger.Continue;
    if c < |s.ledger.calls| && from < |s.ledger.ran| { ContinueTicks(s.ledger); }
  }

  lemma ResumeAside<C>(cfg: Config, s: State<C>)
    requires s.ledger.stack != []
    ensures Aside(s, ResumeStep(cfg, s))
  {
    hide PopStep, InvokeStep, ContinueStep;
    match s.ledger.stack[|s.ledger.stack| - 1]
    case Notify(d) => InvokeAside(s, d);
    case Callbacks(c, from, to) =>
      if from < to { ContinueAside(s, c, from); } else if c < |s.ledger.calls| { PopAside(cfg, s); }
    case Check => PopAside(cfg, s);
  }

  // ----- a caller asked to wait is waited for

  /** A completed call whose callbacks, with `drain` in front, wait for a tick. */
  ghost predicate TickDue<C>(s: State<C>) {
    exists t :: s.ledger.head <= t < |s.ledger.ticks| && s.ledger.ticks[t].After?
  }

  /** No call whose callbacks wait for a tick is the last of an ended stream, and until the stream is ended a caller asked
      to wait has something to wait for. */
  ghost predicate Due<C>(s: State<C>) {
    && (forall t :: s.ledger.head <= t < |s.ledger.ticks| && s.ledger.ticks[t].After? ==> !s.ledger.ticks[t].finishing)
    && (!s.ending && s.needDrain ==> Awaited(s))
  }

  ghost predicate Awaited<C>(s: State<C>) {
    s.writing || s.buffered != [] || TickDue(s)
  }

  lemma AsideDue<C>(s: State<C>, t: State<C>)
    requires Due(s) && Aside(s, t)
    ensures Due(t)
  {
  }

  /** What a transport call leaves to wait for. */
  ghost predicate Under<C>(s: State<C>, t: State<C>) {
    && Unasked(s, t) && t.ledger.head == s.ledger.head && s.ledger.ticks <= t.ledger.ticks
    && (forall i :: |s.ledger.ticks| <= i < |t.ledger.ticks| && t.ledger.ticks[i].After? ==> !t.ledger.ticks[i].finishing)
    && (t.writing || (|t.ledger.ticks| > |s.ledger.ticks| && t.ledger.ticks[|s.ledger.ticks|].After?))
  }

  lemma TransportUnder<C>(cfg: Config, s: State<C>, reqs: seq<Req<C>>, batch: bool, len: int)
    requires !s.ending || s.buffered != []
    ensures Under(s, Transport(cfg, s, reqs, batch, len)) && Transport(cfg, s, reqs, batch, len).buffered == s.buffered
  {
    hide Issued, Deferred, Settled, NeedFinish;
    var t := Issued(s, reqs, batch, len);
    IssuedUnasked(s, reqs, batch, len);
    DeferredUnasked(t);
    SettledEnding(t);
    NotLast(Settled(t));
  }

  lemma NotLast<C>(s: State<C>)
    requires !s.ending || s.buffered != []
    ensures !NeedFinish(s)
  {
  }

  lemma SettledEnding<C>(s: State<C>)
    ensures Settled(s).ending == s.ending && Settled(s).buffered == s.buffered
  {
  }

  lemma {:induction false} DrainUnder<C>(cfg: Config, s: State<C>, rest: seq<Req<C>>)
    requires rest != [] && s.buffered != []
    ensures Under(s, Drain(cfg, s, rest))
    decreases |rest|
  {
    hide Transport;
    TransportUnder(cfg, s, [rest[0]], false, rest[0].size);
    var t := Transport(cfg, s, [rest[0]], false, rest[0].size);
    if !t.writing && |rest| > 1 { DrainUnder(cfg, t, rest[1..]); }
  }

  lemma ClearUnder<C>(cfg: Config, s: State<C>)
    requires s.buffered != []
    ensures Under(s, ClearBuffer(cfg, s))
  {
    hide Transport, Drain;
    TransportUnder(cfg, s, s.buffered, true, s.length);
    DrainUnder(cfg, s, s.buffered);
  }

  lemma UnderDue<C>(s: State<C>, t: State<C>)
    requires Due(s) && Under(s, t) && s.ledger.head <= |s.ledger.ticks|
    ensures Due(t)
  {
  }

  lemma HeadWithin<C>(s: State<C>)
    requires Inv(s)
    ensures s.ledger.head <= |s.ledger.ticks|
  {
  }

  function Taken<C>(cfg: Config, s: State<C>, req: Req<C>): State<C> {
    s.(accepted := s.accepted + [req], pendingcb := s.pendingcb + 1, length := s.length + req.size,
       ledger := s.ledger.Accept(), needDrain := s.needDrain || s.length + req.size >= cfg.highWaterMark)
  }

  lemma TakenFields<C>(cfg: Config, s: State<C>, req: Req<C>)
    ensures var t := Taken(cfg, s, req);
            && t.drains == s.drains && t.needDrain == (s.needDrain || s.length + req.size >= cfg.highWaterMark) && t.ending == s.ending
            && t.ledger.ticks == s.ledger.ticks && t.ledger.head == s.ledger.head && t.writing == s.writing && t.corked == s.corked
    ensures !s.ending ==>
              WriteStep(cfg, s, req) == var t := Taken(cfg, s, req);
                                        if t.writing || t.corked > 0 then t.(buffered := t.buffered + [req])
                                        else Transport(cfg, t, [req], false, req.size)
  {
    AcceptTicks(s.ledger);
    hide Transport, Ledger.Accept;
  }

  /** A write sets the flag exactly when it is answered by asking to wait. */
  lemma WriteDue<C>(cfg: Config, s: State<C>, req: Req<C>)
    requires Inv(s) && Due(s)
    ensures var t := WriteStep(cfg, s, req);
            && Due(t) && t.drains == s.drains && t.needDrain == (s.needDrain || AskedToWait(cfg, s, Write(req)))
  {
    HeadWithin(s);
    if !s.ending {
      TakenFields(cfg, s, req);
      var t := Taken(cfg, s, req);
      hide Inv, Transport, WriteStep, Taken;
      if !(t.writing || t.corked > 0) { TransportUnder(cfg, t, [req], false, req.size); }
    }
  }

  lemma AcceptTicks(l: Ledger)
    ensures l.Accept().ticks == l.ticks && l.Accept().head == l.head
  {
  }

  lemma UncorkDue<C>(cfg: Config, s: State<C>)
    requires Due(s) && s.ledger.head <= |s.ledger.ticks|
    ensures Due(UncorkStep(cfg, s)) && Unasked(s, UncorkStep(cfg, s))
  {
    hide ClearBuffer;
    if s.corked > 0 {
      var t := s.(corked := s.corked - 1);
      assert Due(t);
      if t.buffered != [] {
        ClearUnder(cfg, t);
        UnderDue(t, ClearBuffer(cfg, t));
      }
    }
  }

  lemma EndDue<C>(cfg: Config, s: State<C>)
    requires Inv(s) && Due(s)
    ensures Due(EndStep(cfg, s)) && EndStep(cfg, s).needDrain == s.needDrain && EndStep(cfg, s).drains == s.drains
  {
    HeadWithin(s);
    hide Inv, UncorkStep, FinishMaybe;
    UncorkDue(cfg, s.(corked := 1));
    var t := if s.corked > 0 then UncorkStep(cfg, s.(corked := 1)) else s;
    FinishAside(cfg, t.(ending := true));
  }

  lemma FinalDue<C>(cfg: Config, s: State<C>)
    requires Due(s)
    ensures Due(FinalStep(cfg, s)) && Unasked(s, FinalStep(cfg, s))
  {
    hide FinishMaybe;
    FinishAside(cfg, s.(pendingcb := s.pendingcb - 1, prefinished := true, finalRunning := false));
  }

  // ----- where `drain` comes

  /** The step says `drain`, which leaves nobody asked to wait. */
  ghost predicate Drains<C>(s: State<C>, t: State<C>) {
    t.drains == s.drains + 1 && s.needDrain && !t.needDrain && t.length == 0
  }

  lemma ProceedDrains<C>(cfg: Config, s: State<C>, finishing: bool)
    requires s.ledger.stack != []
    ensures var t := Proceed(cfg, s, finishing);
            if !finishing && s.length == 0 && s.needDrain then Drains(s, t) else Aside(s, t)
  {
    hide ResumeStep;
    ResumeAside(cfg, s);
  }

  /** What the stream holds is in flight or buffered. */
  lemma HeldAwaited<C>(s: State<C>)
    requires Mid(s, s.buffered, 0) && s.length != 0
    ensures s.writing || s.buffered != []
  {
    EmptySizes<C>();
    if !s.writing { InTransitIdle(s); }
  }

  lemma ProceedDue<C>(cfg: Config, s: State<C>, finishing: bool)
    requires s.ledger.stack != [] && Mid(s, s.buffered, 0) && (!s.ending ==> !finishing)
    requires forall t :: s.ledger.head <= t < |s.ledger.ticks| && s.ledger.ticks[t].After? ==> !s.ledger.ticks[t].finishing
    ensures Due(Proceed(cfg, s, finishing))
  {
    if s.length != 0 { HeldAwaited(s); }
    ProceedDrains(cfg, s, finishing);
    hide Mid, ResumeStep;
  }

  /** A completed call says `drain` exactly when somebody waits and nothing is left, unless it was the last of an ended stream. */
  lemma CompleteDrains<C>(cfg: Config, s: State<C>)
    requires Inv(s) && Due(s)
    ensures var t := CompleteStep(cfg, s);
            && Due(t)
            && if s.writing && s.needDrain && t.length == 0 && !(s.ending && s.buffered == []) then Drains(s, t)
               else t.drains == s.drains && t.needDrain == s.needDrain
  {
    hide Mid, ClearBuffer, Proceed, Due, Drains, Aside;
    if s.writing && s.ledger.calls != [] {
      var t := Settled(s).(ledger := s.ledger.Raise());
      RaisedMid(s, s.buffered, 0);
      RaisedAs(s);
      var finishing := NeedFinish(t);
      LastCall(s, t);
      var u := if finishing || t.corked > 0 || t.buffered == [] then t else ClearBuffer(cfg, t);
      if !(finishing || t.corked > 0 || t.buffered == []) {
        if t.finished { FinishedEmpty(t); }
        ClearMid(cfg, t);
        ClearUnder(cfg, t);
      }
      ClearedTicks(s, t, u);
      Completed(cfg, s, u, finishing);
    } else {
      MustFly(s);
    }
  }

  lemma MustFly<C>(s: State<C>)
    requires Inv(s)
    ensures s.writing ==> s.ledger.calls != []
  {
  }

  lemma RaisedAs<C>(s: State<C>)
    requires s.ledger.calls != []
    ensures var t := Settled(s).(ledger := s.ledger.Raise());
            && Unasked(s, t) && !t.writing && t.buffered == s.buffered && t.finished == s.finished && t.length == s.length - s.writelen
            && t.ledger.ticks == s.ledger.ticks && t.ledger.head == s.ledger.head && t.ledger.stack != []
  {
  }

  lemma LastCall<C>(s: State<C>, t: State<C>)
    requires Inv(s) && s.writing && t.length == s.length - s.writelen && t.buffered == s.buffered && t.finished == s.finished
    requires t.ending == s.ending && !t.writing
    ensures NeedFinish(t) <==> s.ending && s.buffered == []
  {
    EmptySizes<C>();
    if s.finished { NothingPending(s); }
  }

  lemma ClearedTicks<C>(s: State<C>, t: State<C>, u: State<C>)
    requires Inv(s) && Due(s) && t.ledger.ticks == s.ledger.ticks && t.ledger.head == s.ledger.head && t.ending == s.ending
    requires u == t || Under(t, u)
    ensures forall i :: u.ledger.head <= i < |u.ledger.ticks| && u.ledger.ticks[i].After? ==> !u.ledger.ticks[i].finishing
  {
    HeadWithin(s);
    hide Inv;
  }

  lemma Completed<C>(cfg: Config, s: State<C>, u: State<C>, finishing: bool)
    requires Mid(u, u.buffered, 0) && u.ledger.stack != [] && Unasked(s, u) && (finishing <==> s.ending && s.buffered == [])
    requires forall i :: u.ledger.head <= i < |u.ledger.ticks| && u.ledger.ticks[i].After? ==> !u.ledger.ticks[i].finishing
    ensures var t := Proceed(cfg, u, finishing);
            && Due(t)
            && if s.needDrain && t.length == 0 && !(s.ending && s.buffered == []) then Drains(s, t)
               else t.drains == s.drains && t.needDrain == s.needDrain
  {
    hide Mid, Proceed;
    ProceedDue(cfg, u, finishing);
    ProceedDrains(cfg, u, finishing);
  }

  /** The next task is that of a completed call. */
  predicate AfterNext<C>(s: State<C>) {
    s.ledger.stack == [] && s.ledger.head < |s.ledger.ticks| && s.ledger.ticks[s.ledger.head].After?
  }

  lemma BegunAs<C>(s: State<C>)
    requires AfterNext(s) && s.ledger.ticks[s.ledger.head].done.call < |s.ledger.calls| && Due(s)
    ensures var l := s.ledger.Begin();
            && l.stack != [] && !s.ledger.ticks[s.ledger.head].finishing
            && forall i :: l.head <= i < |l.ticks| && l.ticks[i].After? ==> !l.ticks[i].finishing
  {
  }

  lemma FinalizeDue<C>(s: State<C>)
    requires Due(s) && s.ledger.head < |s.ledger.ticks| && s.ledger.ticks[s.ledger.head].Finalize?
    ensures Due(s.(finalRunning := true, ledger := s.ledger.(head := s.ledger.head + 1)))
  {
  }

  lemma Ticked<C>(cfg: Config, s: State<C>, u: State<C>, finishing: bool)
    requires Mid(u, u.buffered, 0) && u.ledger.stack != [] && Unasked(s, u) && u.length == s.length && (!u.ending ==> !finishing)
    requires forall i :: u.ledger.head <= i < |u.ledger.ticks| && u.ledger.ticks[i].After? ==> !u.ledger.ticks[i].finishing
    ensures var t := Proceed(cfg, u, finishing);
            && Due(t)
            && if s.needDrain && s.length == 0 && !finishing then Drains(s, t) else t.drains == s.drains && t.needDrain == s.needDrain
  {
    hide Mid, Proceed;
    ProceedDue(cfg, u, finishing);
    ProceedDrains(cfg, u, finishing);
  }

  /** Behind a tick likewise, and there no call is the last. */
  lemma TickDrains<C>(cfg: Config, s: State<C>)
    requires Inv(s) && Due(s)
    ensures var t := TickStep(cfg, s);
            && Due(t)
            && if AfterNext(s) && s.needDrain && s.length == 0 then Drains(s, t)
               else t.drains == s.drains && t.needDrain == s.needDrain
  {
    hide Mid, Proceed, Drains;
    if s.ledger.stack == [] && s.ledger.head < |s.ledger.ticks| {
      if s.ledger.ticks[s.ledger.head].After? {
        BegunMid(s);
        BegunAs(s);
        hide Ledger.Begin, Due;
        Ticked(cfg, s, s.(ledger := s.ledger.Begin()), s.ledger.ticks[s.ledger.head].finishing);
      } else {
        FinalizeDue(s);
      }
    }
  }

  // ----- every run

  lemma StepDrains<C>(cfg: Config, s: State<C>, e: Event<C>)
    requires Inv(s) && Due(s)
    ensures var t := Step(cfg, s, e);
            && Due(t)
            && ((t.drains == s.drains && t.needDrain == (s.needDrain || AskedToWait(cfg, s, e))) || (Drains(s, t) && !e.Write?))
  {
    hide Inv, Due, WriteStep, UncorkStep, EndStep, CompleteStep, TickStep, ResumeStep, FinalStep;
    match e
    case Write(req) => WriteDue(cfg, s, req);
    case Cork => CorkDue(s);
    case Uncork =>
      HeadWithin(s);
      UncorkDue(cfg, s);
    case End => EndDue(cfg, s);
    case Complete => CompleteDrains(cfg, s);
    case Tick => TickDrains(cfg, s);
    case Resume => if s.ledger.stack != [] {
      ResumeAside(cfg, s);
      AsideDue(s, ResumeStep(cfg, s));
    }
    case FinalDone => FinalDue(cfg, s);
  }

  lemma CorkDue<C>(s: State<C>)
    requires Due(s)
    ensures Due(s.(corked := s.corked + 1))
  {
  }

  lemma FreshDue<C>()
    ensures Due(Fresh<C>()) && !Fresh<C>().needDrain && Fresh<C>().drains == 0
  {
  }

  lemma RunOn<C>(cfg: Config, events: seq<Event<C>>, e: Event<C>)
    ensures Run(cfg, Fresh(), events + [e]) == Step(cfg, Run(cfg, Fresh(), events), e) && Inv(Run(cfg, Fresh(), events))
  {
    assert (events + [e])[..|events|] == events;
    RunInv(cfg, events);
    hide Step, Inv;
  }

  lemma {:induction false} RunDue<C>(cfg: Config, events: seq<Event<C>>)
    ensures Due(Run(cfg, Fresh(), events)) && Run(cfg, Fresh(), events).needDrain == Waiting(cfg, events)
  {
    hide Due, Step;
    if events == [] {
      FreshDue<C>();
    } else {
      var front, e := events[..|events| - 1], events[|events| - 1];
      RunDue(cfg, front);
      RunOn(cfg, front, e);
      hide Inv, Run;
      assert front + [e] == events;
      StepDrains(cfg, Run(cfg, Fresh(), front), e);
    }
  }

  /** The flag stands exactly for a caller asked to wait. */
  lemma FlagMeansWaiting<C>(cfg: Config, events: seq<Event<C>>)
    ensures Run(cfg, Fresh(), events).needDrain <==> Waiting(cfg, events)
  {
    RunDue(cfg, events);
    hide Run, Waiting;
  }

  /** `drain` comes one at a time, only when the stream holds nothing and a caller was asked to wait, who then is no longer. */
  lemma DrainOnlyWhenDue<C>(cfg: Config, events: seq<Event<C>>, e: Event<C>)
    ensures var s, t := Run(cfg, Fresh(), events), Run(cfg, Fresh(), events + [e]);
            t.drains != s.drains ==>
              t.drains == s.drains + 1 && t.length == 0 && Waiting(cfg, events) && !Waiting(cfg, events + [e])
  {
    RunOn(cfg, events, e);
    RunDue(cfg, events);
    RunDue(cfg, events + [e]);
    hide Run, Waiting, Inv, Due, Step;
    StepDrains(cfg, Run(cfg, Fresh(), events), e);
  }

  /** When a call completes later on, `drain` comes if a caller waits and the stream then holds nothing, except for the
      last call of an ended stream. */
  lemma DrainOnComplete<C>(cfg: Config, events: seq<Event<C>>)
    requires Run(cfg, Fresh(), events).writing
    ensures var s, t := Run(cfg, Fresh(), events), Run(cfg, Fresh(), events + [Complete]);
            t.drains == s.drains + 1 <==> Waiting(cfg, events) && t.length == 0 && !(s.ending && s.buffered == [])
  {
    RunOn(cfg, events, Complete);
    RunDue(cfg, events);
    hide Run, Waiting, Inv, Due, CompleteStep;
    CompleteDrains(cfg, Run(cfg, Fresh(), events));
  }

  /** When its callbacks wait for a tick, `drain` comes with the tick, and there without exception. */
  lemma DrainOnTick<C>(cfg: Config, events: seq<Event<C>>)
    requires AfterNext(Run(cfg, Fresh(), events))
    ensures var s, t := Run(cfg, Fresh(), events), Run(cfg, Fresh(), events + [Tick]);
            t.drains == s.drains + 1 <==> Waiting(cfg, events) && s.length == 0
  {
    RunOn(cfg, events, Tick);
    RunDue(cfg, events);
    hide Run, Waiting, Inv, TickStep;
    TickDrains(cfg, Run(cfg, Fresh(), events));
  }

  /** Unless it was ended, a stream that has come to rest has told everyone it asked to wait. */
  lemma QuietNotWaiting<C>(cfg: Config, events: seq<Event<C>>)
    requires Quiet(Run(cfg, Fresh(), events)) && !Run(cfg, Fresh(), events).ending
    ensures !Waiting(cfg, events) && !Run(cfg, Fresh(), events).needDrain
  {
    RunDue(cfg, events);
    RunInv(cfg, events);
    hide Run, Waiting;
    HeadWithin(Run(cfg, Fresh(), events));
    hide Mid;
  }
}
