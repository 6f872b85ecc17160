/** What every run of the writable stream guarantees. */
module WritableRuns {
  import opened WritableLedger
  import opened WritableProtocol
  import opened WritableSafety

  /** Every write below `n` belongs to a call. */
  lemma {:induction false} CallOf(calls: seq<Call>, n: nat, w: nat) returns (c: nat)
    requires Laid(calls, n) && w < n
    ensures c < |calls| && calls[c].lo <= w < calls[c].hi
  {
    c := |calls| - 1;
    assert CallOk(calls, c);
    while w < calls[c].lo
      invariant c < |calls| && w < calls[c].hi && CallOk(calls, c)
      decreases c
    {
      c := c - 1;
      assert CallOk(calls, c);
    }
  }

  /** When nothing is owed, every callback has run exactly once. */
  lemma AllRan(l: Ledger, n: nat)
    requires l.Ok(n, n, false) && forall c :: 0 <= c < |l.calls| ==> l.calls[c].Owed() == 0
    ensures |l.ran| == n && forall w :: 0 <= w < n ==> l.ran[w] == 1
  {
    forall w | 0 <= w < n ensures l.ran[w] == 1 {
      var c := CallOf(l.calls, n, w);
      assert CallOk(l.calls, c) && CallCounted(l.calls, l.ran, c);
    }
  }

  /** No callback runs twice. */
  lemma AtMostOnce(l: Ledger, sent: nat, accepted: nat, writing: bool)
    requires l.Ok(sent, accepted, writing)
    ensures |l.ran| == accepted && forall w :: 0 <= w < accepted ==> l.ran[w] <= 1
  {
    forall w | 0 <= w < accepted ensures l.ran[w] <= 1 {
      if w < sent {
        var c := CallOf(l.calls, sent, w);
        assert CallCounted(l.calls, l.ran, c);
      }
    }
  }

  /** Writes reach the transport once each, in the order they were made, one call at a time; `length` is what is in
      flight plus what is buffered, and an idle stream buffers nothing. */
  lemma RunDelivers<C>(cfg: Config, events: seq<Event<C>>)
    ensures var s := Run(cfg, Fresh(), events);
            && s.sent + s.buffered == s.accepted
            && Laid(s.ledger.calls, |s.sent|)
            && (forall c :: 0 <= c < |s.ledger.calls| ==> (s.ledger.calls[c].phase.InFlight? <==> s.writing && c == |s.ledger.calls| - 1))
            && s.length == Sizes(InTransit(s)) + Sizes(s.buffered)
            && (!s.writing && s.corked == 0 ==> s.buffered == [])
  {
    RunInv(cfg, events);
    hide Run;
  }

  /** No callback and no `finish` comes twice; once the stream has finished it has taken its last write, handed over
      everything, and called every callback exactly once. */
  lemma RunFinishes<C>(cfg: Config, events: seq<Event<C>>)
    ensures var s := Run(cfg, Fresh(), events);
            && s.finishes <= 1 && |s.ledger.ran| == |s.accepted|
            && (forall w :: 0 <= w < |s.accepted| ==> s.ledger.ran[w] <= 1)
            && (s.finishes == 1 ==> s.ending && s.sent == s.accepted && !s.writing && s.buffered == []
                                    && forall w :: 0 <= w < |s.accepted| ==> s.ledger.ran[w] == 1)
  {
    RunInv(cfg, events);
    hide Run;
    var s := Run(cfg, Fresh(), events);
    AtMostOnce(s.ledger, |s.sent|, |s.accepted|, s.writing);
    if s.finishes == 1 {
      NothingPending(s);
      AllRan(s.ledger, |s.sent|);
    }
  }

  /** No code of the stream is waiting, no tick is queued, nothing is in flight and nothing is held back by a cork. */
  ghost predicate Quiet<C>(s: State<C>) {
    s.ledger.stack == [] && s.ledger.head == |s.ledger.ticks| && !s.writing && !s.finalRunning && s.corked == 0
  }

  /** A quiet stream has called every callback exactly once, and has finished if and only if it was ended. */
  lemma QuietFinished<C>(cfg: Config, events: seq<Event<C>>)
    requires Quiet(Run(cfg, Fresh(), events))
    ensures var s := Run(cfg, Fresh(), events);
            && |s.ledger.ran| == |s.accepted| && (forall w :: 0 <= w < |s.accepted| ==> s.ledger.ran[w] == 1)
            && s.finishes == (if s.ending then 1 else 0)
  {
    RunInv(cfg, events);
    hide Run;
    QuietInv(Run(cfg, Fresh(), events));
  }

  lemma QuietInv<C>(s: State<C>)
    requires Inv(s) && Quiet(s)
    ensures |s.ledger.ran| == |s.accepted| && (forall w :: 0 <= w < |s.accepted| ==> s.ledger.ran[w] == 1)
    ensures s.finishes == (if s.ending then 1 else 0)
  {
    forall c | 0 <= c < |s.ledger.calls| ensures s.ledger.calls[c].Owed() == 0 {
      assert PhaseOk(s.ledger.ticks, s.ledger.head, s.ledger.stack, s.ledger.calls, c);
    }
    OwedBoundsOf(s);
    AllRan(s.ledger, |s.sent|);
  }

  lemma OwedBoundsOf<C>(s: State<C>)
    requires Inv(s) && s.buffered == [] && forall c :: 0 <= c < |s.ledger.calls| ==> s.ledger.calls[c].Owed() == 0
    ensures s.pendingcb == if FinalOwed(s) then 1 else 0
  {
    OwedBounds(s.ledger.calls);
  }

  /** The history only grows: a step takes at most the write it is given, and only before `end`. */
  lemma StepHistory<C>(cfg: Config, s: State<C>, e: Event<C>)
    requires Inv(s)
    ensures var t := Step(cfg, s, e);
            && t.accepted == (if e.Write? && !s.ending then s.accepted + [e.req] else s.accepted)
            && s.sent <= t.sent
  {
    hide Mid, WriteStep, CompleteStep, TickStep, FinalStep, EndStep, ResumeStep, UncorkStep;
    StepInv(cfg, s, e);
    match e
    case Write(req) => WriteHistory(cfg, s, req);
    case Cork =>
    case Uncork => UncorkInv(cfg, s);
    case End => EndHistory(cfg, s);
    case Complete => CompleteHistory(cfg, s);
    case Tick =>
    case Resume =>
    case FinalDone =>
  }

  lemma WriteHistory<C>(cfg: Config, s: State<C>, req: Req<C>)
    ensures var t := WriteStep(cfg, s, req);
            t.accepted == (if s.ending then s.accepted else s.accepted + [req]) && s.sent <= t.sent
  {
    hide Transport;
    if !s.ending {
      var t := s.(accepted := s.accepted + [req], pendingcb := s.pendingcb + 1, length := s.length + req.size,
                  ledger := s.ledger.Accept(), needDrain := s.needDrain || s.length + req.size >= cfg.highWaterMark);
      TransportKeeps(cfg, t, [req], false, req.size);
    }
  }

  lemma EndHistory<C>(cfg: Config, s: State<C>)
    requires Inv(s)
    ensures EndStep(cfg, s).accepted == s.accepted && s.sent <= EndStep(cfg, s).sent
  {
    hide Mid, UncorkStep, FinishMaybe;
    if s.corked > 0 {
      CorkedMid(s, 1);
      UncorkInv(cfg, s.(corked := 1));
    }
  }

  lemma CompleteHistory<C>(cfg: Config, s: State<C>)
    requires Inv(s)
    ensures CompleteStep(cfg, s).accepted == s.accepted && s.sent <= CompleteStep(cfg, s).sent
  {
    hide Mid, ClearBuffer, Proceed;
    if s.writing && s.ledger.calls != [] {
      var t := Settled(s).(ledger := s.ledger.Raise());
      RaisedMid(s, s.buffered, 0);
      var finishing := NeedFinish(t);
      if !(finishing || t.corked > 0 || t.buffered == []) {
        if t.finished { FinishedEmpty(t); }
        ClearMid(cfg, t);
      }
    }
  }
}
