/** Every run of the writable stream keeps its invariant, and what follows from it. */
module WritableSafety {
  import opened WritableLedger
  import opened WritableProtocol

  lemma {:induction false} SizesConcat<C>(a: seq<Req<C>>, b: seq<Req<C>>)
    ensures Sizes(a + b) == Sizes(a) + Sizes(b)
  {
    if b == [] {
      assert a + b == a;
    } else {
      var c, d := a + b, b[..|b| - 1];
      assert c[..|c| - 1] == a + d;
      SizesConcat(a, d);
    }
  }

  lemma SizesOne<C>(req: Req<C>)
    ensures Sizes([req]) == req.size
  {
    assert [req][..0] == [];
  }

  // ----- the transport

  lemma IssuedMid<C>(s: State<C>, rest: seq<Req<C>>, k: nat, batch: bool, extra: int, len: int)
    requires Mid(s, rest, extra) && !s.writing && !s.finished && 0 < k <= |rest| && (!batch ==> k == 1) && len == Sizes(rest[..k])
    ensures Mid(Issued(s, rest[..k], batch, len), rest[k..], extra + if batch then 1 else 0)
  {
    hide Ledger.Ok, TotalOwed, Sizes;
    var t := Issued(s, rest[..k], batch, len);
    IssueOk(s.ledger, |s.sent|, |s.accepted|, k, batch);
    assert s.ledger.calls == t.ledger.calls[..|s.ledger.calls|];
    StartIs(s.ledger, |s.sent|, |s.accepted|, s.writing);
    assert rest[..k] + rest[k..] == rest;
    SizesConcat(rest[..k], rest[k..]);
    assert t.sent[|s.sent|..] == rest[..k];
    assert t.sent + rest[k..] == s.accepted;
    EmptySizes<C>();
  }

  lemma EmptySizes<C>()
    ensures Sizes<C>([]) == 0
  {
  }

  lemma StartIs(l: Ledger, sent: nat, accepted: nat, writing: bool)
    requires l.Ok(sent, accepted, writing)
    ensures Start(l.calls, |l.calls|) == sent && l.head <= |l.ticks|
    ensures writing ==> |l.calls| > 0
  {
  }

  lemma SettledOk<C>(s: State<C>, rest: seq<Req<C>>, extra: int)
    requires Mid(s, rest, extra) && s.writing
    ensures var t := Settled(s);
            && t.sent + rest == t.accepted && t.length == Sizes(rest) && |t.ledger.calls| > 0
            && t.writelen == Sizes(InTransit(t)) == 0
  {
    hide Ledger.Ok, TotalOwed;
    StartIs(s.ledger, |s.sent|, |s.accepted|, s.writing);
  }

  lemma DeferredMid<C>(s: State<C>, rest: seq<Req<C>>, extra: int)
    requires Mid(s, rest, extra) && s.writing
    ensures |s.ledger.calls| > 0 && Mid(Deferred(Settled(s)), rest, extra)
  {
    SettledOk(s, rest, extra);
    hide Ledger.Ok, TotalOwed, Sizes, InTransit;
    DeferOk(s.ledger, |s.sent|, |s.accepted|, NeedFinish(Settled(s)));
    InTransitIdle(Deferred(Settled(s)));
    InTransitIdle(Settled(s));
  }

  lemma InTransitIdle<C>(s: State<C>)
    requires !s.writing
    ensures InTransit(s) == []
  {
  }

  lemma RaisedMid<C>(s: State<C>, rest: seq<Req<C>>, extra: int)
    requires Mid(s, rest, extra) && s.writing
    ensures |s.ledger.calls| > 0 && Mid(Settled(s).(ledger := s.ledger.Raise()), rest, extra)
  {
    SettledOk(s, rest, extra);
    hide Ledger.Ok, TotalOwed, Sizes, InTransit;
    RaiseOk(s.ledger, |s.sent|, |s.accepted|);
    InTransitIdle(Settled(s).(ledger := s.ledger.Raise()));
    InTransitIdle(Settled(s));
  }

  lemma TransportMid<C>(cfg: Config, s: State<C>, rest: seq<Req<C>>, k: nat, batch: bool, extra: int, len: int)
    requires Mid(s, rest, extra) && !s.writing && !s.finished && 0 < k <= |rest| && (!batch ==> k == 1) && len == Sizes(rest[..k])
    ensures Mid(Transport(cfg, s, rest[..k], batch, len), rest[k..], extra + if batch then 1 else 0)
  {
    hide Mid, Deferred, Settled, Sizes;
    IssuedMid(s, rest, k, batch, extra, len);
    if cfg.prompt(|s.ledger.calls|) {
      DeferredMid(Issued(s, rest[..k], batch, len), rest[k..], extra + if batch then 1 else 0);
    }
  }

  /** What a transport call does not touch. */
  ghost predicate Kept<C>(s: State<C>, t: State<C>) {
    && t.ledger.stack == s.ledger.stack && t.finished == s.finished && t.ending == s.ending && t.corked == s.corked
    && t.pendingcb == s.pendingcb && t.accepted == s.accepted
  }

  lemma LedgerKeeps(l: Ledger, k: nat, batch: bool, finishing: bool)
    ensures l.Issue(k, batch).stack == l.stack && |l.Issue(k, batch).calls| > 0
    ensures |l.calls| > 0 ==> l.Defer(finishing).stack == l.stack
  {
  }

  lemma TransportKeeps<C>(cfg: Config, s: State<C>, reqs: seq<Req<C>>, batch: bool, len: int)
    ensures var t := Transport(cfg, s, reqs, batch, len); Kept(s, t) && t.sent == s.sent + reqs
  {
    hide Ledger.Issue, Ledger.Defer, NeedFinish;
    var t := Issued(s, reqs, batch, len);
    LedgerKeeps(s.ledger, |reqs|, batch, false);
    LedgerKeeps(t.ledger, |reqs|, batch, NeedFinish(Settled(t)));
  }

  lemma MidBuffer<C>(s: State<C>, rest: seq<Req<C>>, extra: int, buffered: seq<Req<C>>)
    requires Mid(s, rest, extra)
    ensures Mid(s.(buffered := buffered), rest, extra)
  {
    hide Ledger.Ok, TotalOwed, Sizes;
  }

  lemma {:induction false} DrainMid<C>(cfg: Config, s: State<C>, rest: seq<Req<C>>)
    requires Mid(s, rest, 0) && !s.writing && !s.finished
    ensures var t := Drain(cfg, s, rest);
            && Mid(t, t.buffered, 0) && (!t.writing ==> t.buffered == []) && !t.finished
            && Kept(s, t) && s.sent <= t.sent
    decreases |rest|
  {
    hide Mid, Transport, Sizes;
    if rest == [] {
      MidBuffer(s, rest, 0, []);
    } else {
      var len := rest[0].size;
      SizesOne(rest[0]);
      assert rest[..1] == [rest[0]];
      TransportMid(cfg, s, rest, 1, false, 0, len);
      TransportKeeps(cfg, s, [rest[0]], false, len);
      var t := Transport(cfg, s, [rest[0]], false, len);
      if t.writing {
        MidBuffer(t, rest[1..], 0, rest[1..]);
      } else {
        DrainMid(cfg, t, rest[1..]);
      }
    }
  }

  lemma BatchMid<C>(cfg: Config, s: State<C>)
    requires Mid(s, s.buffered, 0) && !s.writing && !s.finished && |s.buffered| >= 2
    ensures Mid(Transport(cfg, s, s.buffered, true, s.length).(pendingcb := s.pendingcb + 1, buffered := []), [], 0)
  {
    hide Mid, Transport, Sizes;
    var t := Transport(cfg, s, s.buffered, true, s.length);
    AllBuffered(s);
    assert s.buffered[..|s.buffered|] == s.buffered && s.buffered[|s.buffered|..] == [];
    TransportMid(cfg, s, s.buffered, |s.buffered|, true, 0, s.length);
    TransportKeeps(cfg, s, s.buffered, true, s.length);
    BatchEntered(t);
  }

  lemma AllBuffered<C>(s: State<C>)
    requires Mid(s, s.buffered, 0) && !s.writing
    ensures s.length == Sizes(s.buffered)
  {
    InTransitIdle(s);
    EmptySizes<C>();
  }

  lemma BatchEntered<C>(t: State<C>)
    requires Mid(t, [], 1) && !t.finished
    ensures Mid(t.(pendingcb := t.pendingcb + 1, buffered := []), [], 0)
  {
    hide Ledger.Ok, TotalOwed, Sizes;
  }

  lemma ClearMid<C>(cfg: Config, s: State<C>)
    requires Mid(s, s.buffered, 0) && !s.writing && !s.finished
    ensures var t := ClearBuffer(cfg, s);
            && Mid(t, t.buffered, 0) && (!t.writing ==> t.buffered == []) && !t.finished
            && t.ledger.stack == s.ledger.stack && t.ending == s.ending && t.corked == s.corked && t.accepted == s.accepted
            && t.pendingcb >= s.pendingcb && s.sent <= t.sent
  {
    hide Mid, Transport;
    if cfg.hasWritev && |s.buffered| >= 2 {
      BatchMid(cfg, s);
      TransportKeeps(cfg, s, s.buffered, true, s.length);
    } else {
      DrainMid(cfg, s, s.buffered);
    }
  }

  // ----- finishing

  /** With no callback pending there is nothing buffered and nothing in flight, and every callback has run. */
  lemma NothingPending<C>(s: State<C>)
    requires Mid(s, s.buffered, 0) && s.pendingcb == 0
    ensures s.buffered == [] && !s.writing && s.length == 0 && s.sent == s.accepted && !FinalOwed(s)
    ensures forall c :: 0 <= c < |s.ledger.calls| ==> s.ledger.calls[c].Owed() == 0
  {
    EmptySizes<C>();
    if s.writing { FlightOwed(s.ledger.calls, |s.sent|); }
    OwedBounds(s.ledger.calls);
  }

  lemma FlightOwed(calls: seq<Call>, sent: nat)
    requires Laid(calls, sent) && Flying(calls, true)
    ensures |calls| > 0 && calls[|calls| - 1].Owed() > 0
  {
    assert CallOk(calls, |calls| - 1);
  }

  lemma FinalizeQueued(l: Ledger, sent: nat, accepted: nat, writing: bool)
    requires l.Ok(sent, accepted, writing)
    ensures l.(ticks := l.ticks + [Finalize]).Ok(sent, accepted, writing)
  {
    var m := l.(ticks := l.ticks + [Finalize]);
    forall c | 0 <= c < |m.calls| ensures PhaseOk(m.ticks, m.head, m.stack, m.calls, c) {
      assert PhaseOk(l.ticks, l.head, l.stack, l.calls, c);
    }
    forall t | m.head <= t < |m.ticks| ensures TickOk(m.ticks, m.calls, t) {
      if t < |l.ticks| { assert TickOk(l.ticks, l.calls, t); }
    }
  }

  lemma PrefinishMid<C>(cfg: Config, s: State<C>)
    requires Mid(s, s.buffered, 0) && !s.finished
    ensures var t := Prefinish(cfg, s); Mid(t, t.buffered, 0)
  {
    hide Ledger.Ok, TotalOwed, Sizes, InTransit;
    FinalizeQueued(s.ledger, |s.sent|, |s.accepted|, s.writing);
    StartIs(s.ledger, |s.sent|, |s.accepted|, s.writing);
    SameTransit(s, Prefinish(cfg, s));
  }

  lemma SameTransit<C>(s: State<C>, t: State<C>)
    requires t.writing == s.writing && t.ledger.calls == s.ledger.calls && t.sent == s.sent
    ensures InTransit(t) == InTransit(s)
  {
  }

  lemma FinishedMid<C>(s: State<C>)
    requires Mid(s, s.buffered, 0) && s.pendingcb == 0 && !s.finished && s.ending
    ensures Mid(s.(finished := true, finishes := s.finishes + 1), s.buffered, 0)
  {
    hide Ledger.Ok, TotalOwed, Sizes;
  }

  ghost predicate Idle<C>(s: State<C>) {
    !s.writing && s.corked == 0 ==> s.buffered == []
  }

  lemma FinishMaybeInv<C>(cfg: Config, s: State<C>)
    requires Mid(s, s.buffered, 0) && Idle(s)
    ensures Inv(FinishMaybe(cfg, s))
  {
    hide Mid;
    if NeedFinish(s) {
      var t := Prefinish(cfg, s);
      PrefinishMid(cfg, s);
      if t.pendingcb == 0 { FinishedMid(t); }
    } else if s.ending && !s.finished && s.pendingcb == 0 {
      NothingPending(s);
    }
  }

  // ----- every step keeps the invariant

  lemma AcceptedMid<C>(s: State<C>, req: Req<C>, needDrain: bool)
    requires Mid(s, s.buffered, 0) && !s.ending
    ensures Mid(s.(accepted := s.accepted + [req], pendingcb := s.pendingcb + 1, length := s.length + req.size,
                   ledger := s.ledger.Accept(), needDrain := needDrain), s.buffered + [req], 0)
  {
    hide Ledger.Ok, TotalOwed, Sizes, InTransit;
    var t := s.(accepted := s.accepted + [req], pendingcb := s.pendingcb + 1, length := s.length + req.size,
                ledger := s.ledger.Accept(), needDrain := needDrain);
    AcceptOk(s.ledger, |s.sent|, |s.accepted|, s.writing);
    SizesConcat(s.buffered, [req]);
    SizesOne(req);
    SameTransit(s, t);
    assert s.sent + (s.buffered + [req]) == t.accepted;
  }

  lemma WriteInv<C>(cfg: Config, s: State<C>, req: Req<C>)
    requires Inv(s)
    ensures Inv(WriteStep(cfg, s, req))
  {
    hide Mid, Transport;
    if !s.ending {
      var needDrain := s.needDrain || s.length + req.size >= cfg.highWaterMark;
      var t := s.(accepted := s.accepted + [req], pendingcb := s.pendingcb + 1, length := s.length + req.size,
                  ledger := s.ledger.Accept(), needDrain := needDrain);
      AcceptedMid(s, req, needDrain);
      if t.writing || t.corked > 0 {
        MidBuffer(t, s.buffered + [req], 0, s.buffered + [req]);
      } else {
        NotEnding(s);
        assert s.buffered + [req] == [req] && [req][..1] == [req] && [req][1..] == [];
        SizesOne(req);
        TransportMid(cfg, t, [req], 1, false, 0, req.size);
        TransportKeeps(cfg, t, [req], false, req.size);
        MidBuffer(Transport(cfg, t, [req], false, req.size), [], 0, []);
        TransportBuffer(cfg, t, [req], false, req.size);
      }
    }
  }

  lemma TransportBuffer<C>(cfg: Config, s: State<C>, reqs: seq<Req<C>>, batch: bool, len: int)
    ensures Transport(cfg, s, reqs, batch, len).buffered == s.buffered
  {
    hide Ledger.Issue, Ledger.Defer, NeedFinish;
    LedgerKeeps(s.ledger, |reqs|, batch, false);
  }

  lemma NotEnding<C>(s: State<C>)
    requires Mid(s, s.buffered, 0) && !s.ending
    ensures !s.finished
  {
  }

  lemma CorkedMid<C>(s: State<C>, corked: nat)
    requires Mid(s, s.buffered, 0)
    ensures Mid(s.(corked := corked), s.buffered, 0)
  {
    hide Ledger.Ok, TotalOwed, Sizes, InTransit;
    SameTransit(s, s.(corked := corked));
  }

  lemma UncorkInv<C>(cfg: Config, s: State<C>)
    requires Mid(s, s.buffered, 0) && (s.corked == 0 ==> Inv(s))
    requires s.ending && !s.finished && s.pendingcb == 0 ==> s.ledger.stack != []
    ensures Inv(UncorkStep(cfg, s)) && UncorkStep(cfg, s).ending == s.ending && s.sent <= UncorkStep(cfg, s).sent
    ensures UncorkStep(cfg, s).accepted == s.accepted
  {
    hide Mid, ClearBuffer;
    if s.corked > 0 {
      var t := s.(corked := s.corked - 1);
      CorkedMid(s, s.corked - 1);
      if t.finished { FinishedEmpty(t); }
      if !(t.writing || t.corked > 0 || t.finished || t.buffered == []) {
        PendingPositive(t);
        ClearMid(cfg, t);
      }
    }
  }

  lemma FinishedEmpty<C>(s: State<C>)
    requires Mid(s, s.buffered, 0) && s.finished
    ensures s.buffered == []
  {
    NothingPending(s);
  }

  lemma PendingPositive<C>(s: State<C>)
    requires Mid(s, s.buffered, 0) && s.buffered != []
    ensures s.pendingcb > 0
  {
    OwedBounds(s.ledger.calls);
  }

  lemma EndingMid<C>(s: State<C>)
    requires Mid(s, s.buffered, 0)
    ensures Mid(s.(ending := true), s.buffered, 0)
  {
    hide Ledger.Ok, TotalOwed, Sizes, InTransit;
    SameTransit(s, s.(ending := true));
  }

  lemma EndInv<C>(cfg: Config, s: State<C>)
    requires Inv(s)
    ensures Inv(EndStep(cfg, s))
  {
    hide Mid, UncorkStep, FinishMaybe;
    if s.corked > 0 {
      CorkedMid(s, 1);
      UncorkInv(cfg, s.(corked := 1));
    }
    var t := if s.corked > 0 then UncorkStep(cfg, s.(corked := 1)) else s;
    if !t.ending && !t.finished {
      EndingMid(t);
      FinishMaybeInv(cfg, t.(ending := true));
    }
  }

  lemma FinalInv<C>(cfg: Config, s: State<C>)
    requires Inv(s)
    ensures Inv(FinalStep(cfg, s))
  {
    hide FinishMaybe;
    if s.finalRunning {
      var t := s.(pendingcb := s.pendingcb - 1, prefinished := true, finalRunning := false);
      FinalDoneMid(s, t);
      FinishMaybeInv(cfg, t);
    }
  }

  lemma FinalDoneMid<C>(s: State<C>, t: State<C>)
    requires Mid(s, s.buffered, 0) && s.finalRunning && t == s.(pendingcb := s.pendingcb - 1, prefinished := true, finalRunning := false)
    ensures Mid(t, t.buffered, 0)
  {
    OwedBounds(s.ledger.calls);
    hide Ledger.Ok, TotalOwed, Sizes, InTransit;
    SameTransit(s, t);
  }

  /** Callbacks move on: the ledger changes and pendingcb follows what it owes. */
  lemma MovedMid<C>(s: State<C>, l: Ledger, pendingcb: int)
    requires Mid(s, s.buffered, 0) && l.Ok(|s.sent|, |s.accepted|, s.writing)
    requires pendingcb - TotalOwed(l.calls) == s.pendingcb - TotalOwed(s.ledger.calls) && pendingcb <= s.pendingcb
    requires l.ticks == s.ledger.ticks && s.ledger.head <= l.head
    requires forall t :: s.ledger.head <= t < l.head && t < |l.ticks| ==> !l.ticks[t].Finalize?
    requires |l.calls| == |s.ledger.calls| && forall i :: 0 <= i < |l.calls| ==> l.calls[i].lo == s.ledger.calls[i].lo
    ensures Mid(s.(pendingcb := pendingcb, ledger := l), s.buffered, 0)
  {
    var t := s.(pendingcb := pendingcb, ledger := l);
    TransitMoved(s, t);
    OwedNonnegative(l, |s.sent|, |s.accepted|, s.writing);
    hide Ledger.Ok, TotalOwed, Sizes, InTransit;
  }

  lemma OwedNonnegative(l: Ledger, sent: nat, accepted: nat, writing: bool)
    requires l.Ok(sent, accepted, writing)
    ensures TotalOwed(l.calls) >= 0
  {
    OwedBounds(l.calls);
  }

  lemma TransitMoved<C>(s: State<C>, t: State<C>)
    requires t.writing == s.writing && t.sent == s.sent && |t.ledger.calls| == |s.ledger.calls|
    requires forall i :: 0 <= i < |s.ledger.calls| ==> t.ledger.calls[i].lo == s.ledger.calls[i].lo
    ensures InTransit(t) == InTransit(s)
  {
  }

  lemma LedgerOf<C>(s: State<C>)
    requires Mid(s, s.buffered, 0)
    ensures s.ledger.Ok(|s.sent|, |s.accepted|, s.writing)
  {
  }

  lemma InvokedMid<C>(s: State<C>)
    requires Mid(s, s.buffered, 0) && s.ledger.stack != [] && s.ledger.stack[|s.ledger.stack| - 1].Notify?
    ensures var d := s.ledger.stack[|s.ledger.stack| - 1].done;
            && d.call < |s.ledger.calls| && d.lo < |s.ledger.ran| && s.ledger.Invoke().stack != []
            && Mid(s.(pendingcb := s.pendingcb - 1 - if d.batch then 1 else 0, ledger := s.ledger.Invoke()), s.buffered, 0)
  {
    hide Mid, TotalOwed, Ledger.Ok;
    LedgerOf(s);
    InvokeOk(s.ledger, |s.sent|, |s.accepted|, s.writing);
    var d := s.ledger.stack[|s.ledger.stack| - 1].done;
    MovedMid(s, s.ledger.Invoke(), s.pendingcb - 1 - if d.batch then 1 else 0);
  }

  lemma ContinuedMid<C>(s: State<C>)
    requires Mid(s, s.buffered, 0) && s.ledger.stack != [] && s.ledger.stack[|s.ledger.stack| - 1].Callbacks?
    requires var top := s.ledger.stack[|s.ledger.stack| - 1]; top.from < top.to
    ensures var top := s.ledger.stack[|s.ledger.stack| - 1];
            && top.call < |s.ledger.calls| && top.from < |s.ledger.ran| && s.ledger.Continue().stack != []
            && Mid(s.(pendingcb := s.pendingcb - 1, ledger := s.ledger.Continue()), s.buffered, 0)
  {
    hide Mid, TotalOwed, Ledger.Ok;
    LedgerOf(s);
    ContinueOk(s.ledger, |s.sent|, |s.accepted|, s.writing);
    MovedMid(s, s.ledger.Continue(), s.pendingcb - 1);
  }

  lemma PoppedMid<C>(s: State<C>)
    requires Mid(s, s.buffered, 0) && s.ledger.stack != [] && !s.ledger.stack[|s.ledger.stack| - 1].Notify?
    requires var top := s.ledger.stack[|s.ledger.stack| - 1]; top.Callbacks? ==> top.from >= top.to
    ensures var top := s.ledger.stack[|s.ledger.stack| - 1];
            (top.Callbacks? ==> top.call < |s.ledger.calls|) && Mid(s.(ledger := s.ledger.Pop()), s.buffered, 0)
  {
    hide Mid, TotalOwed, Ledger.Ok;
    LedgerOf(s);
    PopOk(s.ledger, |s.sent|, |s.accepted|, s.writing);
    MovedMid(s, s.ledger.Pop(), s.pendingcb);
  }

  lemma InvokedInv<C>(cfg: Config, s: State<C>)
    requires Mid(s, s.buffered, 0) && Idle(s) && s.ledger.stack != [] && s.ledger.stack[|s.ledger.stack| - 1].Notify?
    ensures Inv(ResumeStep(cfg, s))
  {
    hide Mid, FinishMaybe, Ledger.Invoke;
    InvokedMid(s);
  }

  lemma ContinuedInv<C>(cfg: Config, s: State<C>)
    requires Mid(s, s.buffered, 0) && Idle(s) && s.ledger.stack != [] && s.ledger.stack[|s.ledger.stack| - 1].Callbacks?
    requires var top := s.ledger.stack[|s.ledger.stack| - 1]; top.from < top.to
    ensures Inv(ResumeStep(cfg, s))
  {
    hide Mid, FinishMaybe, Ledger.Continue;
    ContinuedMid(s);
  }

  lemma PoppedInv<C>(cfg: Config, s: State<C>)
    requires Mid(s, s.buffered, 0) && Idle(s) && s.ledger.stack != [] && !s.ledger.stack[|s.ledger.stack| - 1].Notify?
    requires var top := s.ledger.stack[|s.ledger.stack| - 1]; top.Callbacks? ==> top.from >= top.to
    ensures Inv(ResumeStep(cfg, s))
  {
    hide Mid, FinishMaybe, Ledger.Pop;
    PoppedMid(s);
    FinishMaybeInv(cfg, s.(ledger := s.ledger.Pop()));
  }

  lemma ResumeInv<C>(cfg: Config, s: State<C>)
    requires Mid(s, s.buffered, 0) && Idle(s) && s.ledger.stack != []
    ensures Inv(ResumeStep(cfg, s))
  {
    hide Mid, Inv, Idle, ResumeStep;
    var top := s.ledger.stack[|s.ledger.stack| - 1];
    if top.Notify? {
      InvokedInv(cfg, s);
    } else if top.Callbacks? && top.from < top.to {
      ContinuedInv(cfg, s);
    } else {
      PoppedInv(cfg, s);
    }
  }

  lemma ProceedInv<C>(cfg: Config, s: State<C>, finishing: bool)
    requires Mid(s, s.buffered, 0) && Idle(s) && s.ledger.stack != []
    ensures Inv(Proceed(cfg, s, finishing))
  {
    hide ResumeStep;
    ResumeInv(cfg, s);
    DrainedMid(s);
    hide Mid;
  }

  lemma DrainedMid<C>(s: State<C>)
    requires Mid(s, s.buffered, 0)
    ensures Mid(s.(needDrain := false, drains := s.drains + 1), s.buffered, 0)
  {
    hide Ledger.Ok, TotalOwed, Sizes, InTransit;
    SameTransit(s, s.(needDrain := false, drains := s.drains + 1));
  }

  lemma CompleteInv<C>(cfg: Config, s: State<C>)
    requires Inv(s)
    ensures Inv(CompleteStep(cfg, s))
  {
    hide Mid, ClearBuffer, Proceed;
    if s.writing && s.ledger.calls != [] {
      var t := Settled(s).(ledger := s.ledger.Raise());
      RaisedMid(s, s.buffered, 0);
      var finishing := NeedFinish(t);
      if finishing || t.corked > 0 || t.buffered == [] {
        ProceedInv(cfg, t, finishing);
      } else {
        if t.finished { FinishedEmpty(t); }
        ClearMid(cfg, t);
        ProceedInv(cfg, ClearBuffer(cfg, t), finishing);
      }
    }
  }

  lemma BegunMid<C>(s: State<C>)
    requires Mid(s, s.buffered, 0) && s.ledger.head < |s.ledger.ticks| && s.ledger.ticks[s.ledger.head].After?
    ensures s.ledger.ticks[s.ledger.head].done.call < |s.ledger.calls| && Mid(s.(ledger := s.ledger.Begin()), s.buffered, 0)
  {
    hide Mid, TotalOwed, Ledger.Ok;
    LedgerOf(s);
    BeginOk(s.ledger, |s.sent|, |s.accepted|, s.writing);
    MovedMid(s, s.ledger.Begin(), s.pendingcb);
  }

  lemma FinalStartedMid<C>(s: State<C>)
    requires Mid(s, s.buffered, 0) && s.ledger.head < |s.ledger.ticks| && s.ledger.ticks[s.ledger.head].Finalize?
    ensures Mid(s.(finalRunning := true, ledger := s.ledger.(head := s.ledger.head + 1)), s.buffered, 0)
  {
    HeadMoved(s.ledger, |s.sent|, |s.accepted|, s.writing);
    hide Ledger.Ok, TotalOwed, Sizes, InTransit;
    SameTransit(s, s.(finalRunning := true, ledger := s.ledger.(head := s.ledger.head + 1)));
  }

  lemma HeadMoved(l: Ledger, sent: nat, accepted: nat, writing: bool)
    requires l.Ok(sent, accepted, writing) && l.head < |l.ticks| && l.ticks[l.head].Finalize?
    ensures l.(head := l.head + 1).Ok(sent, accepted, writing)
  {
    var m := l.(head := l.head + 1);
    forall c | 0 <= c < |m.calls| ensures PhaseOk(m.ticks, m.head, m.stack, m.calls, c) {
      assert PhaseOk(l.ticks, l.head, l.stack, l.calls, c);
    }
  }

  lemma TickInv<C>(cfg: Config, s: State<C>)
    requires Inv(s)
    ensures Inv(TickStep(cfg, s))
  {
    hide Mid, Proceed;
    if s.ledger.stack == [] && s.ledger.head < |s.ledger.ticks| {
      if s.ledger.ticks[s.ledger.head].After? {
        BegunMid(s);
        ProceedInv(cfg, s.(ledger := s.ledger.Begin()), s.ledger.ticks[s.ledger.head].finishing);
      } else {
        FinalStartedMid(s);
      }
    }
  }

  lemma StepInv<C>(cfg: Config, s: State<C>, e: Event<C>)
    requires Inv(s)
    ensures Inv(Step(cfg, s, e))
  {
    hide Mid, WriteStep, UncorkStep, EndStep, CompleteStep, TickStep, ResumeStep, FinalStep;
    match e
    case Write(req) => WriteInv(cfg, s, req);
    case Cork => CorkedMid(s, s.corked + 1);
    case Uncork => UncorkInv(cfg, s);
    case End => EndInv(cfg, s);
    case Complete => CompleteInv(cfg, s);
    case Tick => TickInv(cfg, s);
    case Resume => if s.ledger.stack != [] { ResumeInv(cfg, s); }
    case FinalDone => FinalInv(cfg, s);
  }

  lemma FreshInv<C>()
    ensures Inv(Fresh<C>())
  {
    hide Inv;
    NothingYet(Fresh<C>());
  }

  lemma NothingYet<C>(s: State<C>)
    requires s == Fresh()
    ensures Inv(s)
  {
    hide Fresh, Ledger.Ok;
    FreshFields(s);
    LedgerEmpty(s.ledger);
    EmptySizes<C>();
    assert s.sent + s.buffered == s.accepted;
  }

  lemma FreshFields<C>(s: State<C>)
    requires s == Fresh()
    ensures !s.writing && s.length == s.writelen == s.pendingcb == 0 && !s.ending && !s.finished && !s.finalCalled && !s.finalRunning
    ensures s.buffered == s.accepted == s.sent == [] && s.finishes == 0
    ensures s.ledger.ticks == [] && s.ledger.head == 0 && s.ledger.stack == [] && s.ledger.calls == [] && s.ledger.ran == []
  {
  }

  lemma LedgerEmpty(l: Ledger)
    requires l.ticks == [] && l.head == 0 && l.stack == [] && l.calls == [] && l.ran == []
    ensures l.Ok(0, 0, false) && TotalOwed(l.calls) == 0
  {
  }

  /** Every reachable state keeps the invariant. */
  lemma {:induction false} RunInv<C>(cfg: Config, events: seq<Event<C>>)
    ensures Inv(Run(cfg, Fresh(), events))
  {
    hide Inv, Step;
    if events == [] {
      FreshInv<C>();
    } else {
      RunInv(cfg, events[..|events| - 1]);
      StepInv(cfg, Run(cfg, Fresh(), events[..|events| - 1]), events[|events| - 1]);
    }
  }
}
