/** The writable stream: its state is updated in place, and every method takes exactly the step the protocol allows. */
module WritableStreams {
  import opened WritableLedger
  import P = WritableProtocol
  import opened WritableSafety

  /** What has happened so far: the calls made and the callbacks run, the writes taken and handed over, the events fired. */
  datatype History<C> = History(calls: seq<Call>, ran: seq<nat>, accepted: seq<P.Req<C>>, sent: seq<P.Req<C>>,
                                finishes: nat, drains: nat, finalAt: nat)

  /** The counters and the callback of the call in flight fit the calls made. */
  ghost predicate Numbered(calls: seq<Call>, callCount: nat, handed: nat, writecb: Payload, writing: bool) {
    && callCount == |calls| && handed == Start(calls, |calls|)
    && (writing ==> |calls| > 0 && writecb == calls[|calls| - 1].Done(|calls| - 1))
  }

  /** Only the callbacks have moved on. */
  ghost predicate SameStretches(a: seq<Call>, b: seq<Call>) {
    |a| == |b| && forall c :: 0 <= c < |a| ==> a[c].lo == b[c].lo && a[c].hi == b[c].hi && a[c].batch == b[c].batch
  }

  lemma StillNumbered(a: seq<Call>, b: seq<Call>, callCount: nat, handed: nat, writecb: Payload, writing: bool)
    requires Numbered(a, callCount, handed, writecb, writing) && SameStretches(a, b)
    ensures Numbered(b, callCount, handed, writecb, writing)
  {
  }

  /** One more call, of the next `k` writes. */
  lemma OneCallMore(calls: seq<Call>, callCount: nat, handed: nat, writecb: Payload, k: nat, batch: bool, writing: bool)
    requires Numbered(calls, callCount, handed, writecb, false)
    ensures Numbered(calls + [Call(Start(calls, |calls|), Start(calls, |calls|) + k, batch, InFlight)],
                     callCount + 1, handed + k, Payload(callCount, handed, handed + k, batch), writing)
  {
  }

  class Writable<C> {
    const cfg: P.Config
    var writing: bool
    var corked: nat
    var length: int
    var writelen: int
    var writecb: Payload
    var sync: bool
    var needDrain: bool
    var ending: bool
    var ended: bool
    var finished: bool
    var prefinished: bool
    var finalCalled: bool
    var finalRunning: bool
    var pendingcb: int
    var bufferProcessing: bool
    var buffered: seq<P.Req<C>>
    var bufferedRequestCount: int
    // deferred tasks, of which ticks[..head] have run, and stream code waiting for user code to return
    var ticks: seq<Tick>
    var head: nat
    var stack: seq<Frame>
    var callCount: nat
    var handed: nat  // writes given to the transport
    ghost var past: History<C>

    ghost function Now(): P.State<C>
      reads this
    {
      P.State(writing, corked, length, writelen, needDrain, ending, finished, prefinished, finalCalled, finalRunning,
              pendingcb, buffered, Ledger(ticks, head, stack, past.calls, past.ran),
              past.accepted, past.sent, past.finishes, past.drains, past.finalAt)
    }

    ghost predicate Counters()
      reads this
    {
      Numbered(past.calls, callCount, handed, writecb, writing)
    }

    /** The fields that only matter inside a step are back at rest. */
    ghost predicate AtRest()
      reads this
    {
      && ended == ending && !sync && !bufferProcessing && bufferedRequestCount == |buffered| && Counters()
    }

    ghost predicate Valid()
      reads this
    {
      P.Inv(Now()) && AtRest()
    }

    constructor (cfg: P.Config)
      ensures Valid() && this.cfg == cfg && Now() == P.Fresh()
    {
      hide P.Inv, Start;
      NoCalls();
      this.cfg := cfg;
      writing, corked, length, writelen, writecb := false, 0, 0, 0, Payload(0, 0, 0, false);
      sync, needDrain, ending, ended, finished := false, false, false, false, false;
      prefinished, finalCalled, finalRunning, pendingcb, bufferProcessing := false, false, false, 0, false;
      buffered, bufferedRequestCount, ticks, head, stack, callCount, handed := [], 0, [], 0, [], 0, 0;
      past := History([], [], [], [], 0, 0, 0);
      new;
      FreshInv<C>();
    }

    static lemma NoCalls()
      ensures Start([], 0) == 0
    {
    }

    /** Hands `reqs` to the transport, which may complete before it returns. */
    method DoWrite(reqs: seq<P.Req<C>>, batch: bool, len: int)
      requires reqs != [] && Counters() && (bufferProcessing || buffered == [])
      modifies this
      ensures Now() == P.Transport(cfg, old(Now()), reqs, batch, len)
      ensures !sync && Counters()
      ensures bufferProcessing == old(bufferProcessing) && ended == old(ended) && bufferedRequestCount == old(bufferedRequestCount)
    {
      Launch(reqs, batch, len);
      if cfg.prompt(callCount - 1) { OnWriteSync(); }
      sync := false;
    }

    method Launch(reqs: seq<P.Req<C>>, batch: bool, len: int)
      requires Counters()
      modifies this`writelen, this`writing, this`sync, this`writecb, this`callCount, this`handed, this`past
      ensures Now() == P.Issued(old(Now()), reqs, batch, len)
      ensures sync && |past.calls| == |old(past.calls)| + 1 && Counters()
    {
      Occupy(len);
      Record(reqs, batch);
    }

    method Occupy(len: int)
      modifies this`writelen, this`writing, this`sync
      ensures sync && Now() == old(Now()).(writing := true, writelen := len)
    {
      writelen, writing, sync := len, true, true;
    }

    method Record(reqs: seq<P.Req<C>>, batch: bool)
      requires Numbered(past.calls, callCount, handed, writecb, false)
      modifies this`writecb, this`callCount, this`handed, this`past
      ensures Now() == old(Now()).(sent := past.sent, ledger := old(Now()).ledger.Issue(|reqs|, batch)) && past.sent == old(past.sent) + reqs
      ensures |past.calls| == |old(past.calls)| + 1 && Counters()
    {
      hide Numbered;
      OneCallMore(past.calls, callCount, handed, writecb, |reqs|, batch, writing);
      Log(reqs, batch);
      writecb := Payload(callCount, handed, handed + |reqs|, batch);
      callCount, handed := callCount + 1, handed + |reqs|;
    }

    ghost method Log(reqs: seq<P.Req<C>>, batch: bool)
      modifies this`past
      ensures Now() == old(Now()).(sent := past.sent, ledger := old(Now()).ledger.Issue(|reqs|, batch)) && past.sent == old(past.sent) + reqs
      ensures past.calls == old(Now()).ledger.Issue(|reqs|, batch).calls
    {
      past := past.(sent := past.sent + reqs, calls := Now().ledger.Issue(|reqs|, batch).calls);
    }

    predicate NeedFinish()
      reads this
    {
      ending && length == 0 && buffered == [] && !finished && !writing
    }

    method Settle()
      modifies this`writing, this`length, this`writelen
      ensures Now() == P.Settled(old(Now()))
    {
      writing := false;
      length := length - writelen;
      writelen := 0;
    }

    /** The call in flight completes while it is being made: its callbacks are put off to a tick. There is never a
        buffer to clear then, since the call was made from the loop that clears it or with nothing buffered. */
    method OnWriteSync()
      requires sync && writing && Counters()
      requires bufferProcessing || buffered == []
      modifies this`writing, this`length, this`writelen, this`ticks, this`past
      ensures Now() == P.Deferred(P.Settled(old(Now())))
      ensures Counters()
    {
      Settle();
      var finishing := NeedFinish();
      assert finishing || corked > 0 || bufferProcessing || buffered == [];
      ghost var calls := past.calls;
      Defer(writecb, finishing);
      StillNumbered(calls, past.calls, callCount, handed, writecb, writing);
    }

    method Defer(done: Payload, finishing: bool)
      requires |past.calls| > 0 && done == Now().ledger.Last()
      modifies this`ticks, this`past
      ensures Now() == old(Now()).(ledger := old(Now()).ledger.Defer(finishing)) && SameStretches(old(past.calls), past.calls)
    {
      past := past.(calls := Now().ledger.Defer(finishing).calls);
      ticks := ticks + [After(done, finishing)];
    }

    method Raise(done: Payload)
      requires |past.calls| > 0 && done == Now().ledger.Last()
      modifies this`stack, this`past
      ensures Now() == old(Now()).(ledger := old(Now()).ledger.Raise()) && SameStretches(old(past.calls), past.calls)
    {
      past := past.(calls := Now().ledger.Raise().calls);
      stack := stack + [Notify(done)];
    }

    /** Hands over what is buffered: as one batch, or call by call until one stays in flight. */
    method ClearBuffer()
      requires Counters() && buffered != [] && !writing && !bufferProcessing && bufferedRequestCount == |buffered|
      modifies this
      ensures Now() == P.ClearBuffer(cfg, old(Now()))
      ensures Counters() && !sync && !bufferProcessing && ended == old(ended) && bufferedRequestCount == |buffered|
    {
      hide P.Transport, P.Drain, Numbered;
      bufferProcessing := true;
      if cfg.hasWritev && |buffered| >= 2 {
        SendBatch();
      } else {
        DrainBuffer();
      }
      bufferProcessing := false;
    }

    method SendBatch()
      requires Counters() && |buffered| >= 2 && bufferProcessing
      modifies this
      ensures Now() == var t := P.Transport(cfg, old(Now()), old(buffered), true, old(length)); t.(pendingcb := t.pendingcb + 1, buffered := [])
      ensures Counters() && !sync && bufferProcessing && ended == old(ended) && bufferedRequestCount == |buffered|
    {
      hide P.Transport, Numbered;
      TransportKeeps(cfg, Now(), buffered, true, length);
      DoWrite(buffered, true, length);
      Emptied();
    }

    method Emptied()
      modifies this`pendingcb, this`bufferedRequestCount, this`buffered
      ensures Now() == old(Now()).(pendingcb := old(pendingcb) + 1, buffered := []) && bufferedRequestCount == 0
    {
      pendingcb, bufferedRequestCount, buffered := pendingcb + 1, 0, [];
    }

    method DrainBuffer()
      requires Counters() && buffered != [] && !writing && bufferProcessing && bufferedRequestCount == |buffered|
      modifies this
      ensures Now() == P.Drain(cfg, old(Now()), old(buffered))
      ensures Counters() && !sync && bufferProcessing && ended == old(ended) && bufferedRequestCount == |buffered|
    {
      hide P.Transport, Numbered;
      ghost var was := Now();
      var rest := buffered;
      while rest != [] && !writing
        invariant Counters() && bufferProcessing && ended == old(ended) && bufferedRequestCount == |rest|
        invariant buffered == was.buffered && ((rest == buffered && !writing) || !sync)
        invariant P.Drain(cfg, was, was.buffered) == if writing then Now().(buffered := rest) else P.Drain(cfg, Now(), rest)
        decreases |rest|
      {
        TransportBuffer(cfg, Now(), [rest[0]], false, rest[0].size);
        DoWrite([rest[0]], false, rest[0].size);
        rest, bufferedRequestCount := rest[1..], bufferedRequestCount - 1;
      }
      buffered := rest;
    }

    method FinishMaybe()
      modifies this`prefinished, this`finalCalled, this`past, this`pendingcb, this`ticks, this`finished
      ensures Now() == P.FinishMaybe(cfg, old(Now())) && past.calls == old(past.calls)
    {
      if NeedFinish() {
        Prefinish();
        if pendingcb == 0 {
          finished, past := true, past.(finishes := past.finishes + 1);
        }
      }
    }

    method Prefinish()
      modifies this`prefinished, this`finalCalled, this`past, this`pendingcb, this`ticks
      ensures Now() == P.Prefinish(cfg, old(Now())) && past.calls == old(past.calls)
    {
      if !prefinished && !finalCalled {
        if cfg.hasFinal {
          pendingcb, finalCalled, past := pendingcb + 1, true, past.(finalAt := |ticks|);
          ticks := ticks + [Finalize];
        } else {
          prefinished := true;
        }
      }
    }

    /** User code has returned to the topmost frame, which runs on to the next callback or to its end. */
    method Resume()
      requires P.Mid(Now(), buffered, 0) && Idle(Now()) && stack != [] && AtRest()
      modifies this
      ensures Valid() && Now() == P.ResumeStep(cfg, old(Now()))
    {
      hide P.Mid, P.FinishMaybe, P.Inv, P.ResumeStep, Idle, Ledger.Invoke, Ledger.Continue, Ledger.Pop, Numbered, SameStretches;
      ghost var calls := past.calls;
      ResumeInv(cfg, Now());
      ResumeFrame();
      StillNumbered(calls, past.calls, callCount, handed, writecb, writing);
    }

    method ResumeFrame()
      requires P.Mid(Now(), buffered, 0) && Idle(Now()) && stack != []
      modifies this`past, this`stack, this`pendingcb, this`prefinished, this`finalCalled, this`ticks, this`finished
      ensures Now() == P.ResumeStep(cfg, old(Now())) && SameStretches(old(past.calls), past.calls)
    {
      hide P.Mid, P.FinishMaybe, Idle, Ledger.Invoke, Ledger.Continue, Ledger.Pop, SameStretches;
      var top := stack[|stack| - 1];
      if top.Notify? {
        InvokedMid(Now());
        CallFirst();
      } else if top.Callbacks? && top.from < top.to {
        ContinuedMid(Now());
        CallNext();
      } else {
        PoppedMid(Now());
        Return();
      }
    }

    method CallFirst()
      requires stack != [] && stack[|stack| - 1].Notify?
      requires stack[|stack| - 1].done.call < |past.calls| && stack[|stack| - 1].done.lo < |past.ran|
      modifies this`past, this`stack, this`pendingcb
      ensures Now() == old(Now()).(ledger := old(Now()).ledger.Invoke(),
                                   pendingcb := old(pendingcb) - 1 - if old(stack)[|old(stack)| - 1].done.batch then 1 else 0)
      ensures SameStretches(old(past.calls), past.calls)
    {
      var top, d := |stack| - 1, stack[|stack| - 1].done;
      past := past.(calls := Now().ledger.Invoke().calls, ran := past.ran[d.lo := past.ran[d.lo] + 1]);
      pendingcb := pendingcb - 1 - if d.batch then 1 else 0;
      stack := stack[top := if d.batch then Callbacks(d.call, d.lo + 1, d.hi) else Check];
    }

    method CallNext()
      requires stack != [] && stack[|stack| - 1].Callbacks?
      requires stack[|stack| - 1].call < |past.calls| && stack[|stack| - 1].from < |past.ran|
      modifies this`past, this`stack, this`pendingcb
      ensures Now() == old(Now()).(ledger := old(Now()).ledger.Continue(), pendingcb := old(pendingcb) - 1)
      ensures SameStretches(old(past.calls), past.calls)
    {
      var top := |stack| - 1;
      var Callbacks(c, from, to) := stack[top];
      past := past.(calls := Now().ledger.Continue().calls, ran := past.ran[from := past.ran[from] + 1]);
      pendingcb := pendingcb - 1;
      stack := stack[top := Callbacks(c, from + 1, to)];
    }

    method Return()
      requires stack != [] && (stack[|stack| - 1].Callbacks? ==> stack[|stack| - 1].call < |past.calls|)
      modifies this`stack, this`past, this`prefinished, this`finalCalled, this`pendingcb, this`ticks, this`finished
      ensures Now() == P.FinishMaybe(cfg, old(Now()).(ledger := old(Now()).ledger.Pop()))
      ensures SameStretches(old(past.calls), past.calls)
    {
      hide P.FinishMaybe;
      PopFrame();
      FinishMaybe();
    }

    method PopFrame()
      requires stack != [] && (stack[|stack| - 1].Callbacks? ==> stack[|stack| - 1].call < |past.calls|)
      modifies this`stack, this`past
      ensures Now() == old(Now()).(ledger := old(Now()).ledger.Pop()) && SameStretches(old(past.calls), past.calls)
    {
      past := past.(calls := Now().ledger.Pop().calls);
      stack := stack[..|stack| - 1];
    }

    /** afterWrite: `drain` first, when it is due; then the callbacks. */
    method AfterWrite(finishing: bool)
      requires P.Mid(Now(), buffered, 0) && Idle(Now()) && stack != [] && AtRest()
      modifies this
      ensures Valid() && Now() == P.Proceed(cfg, old(Now()), finishing)
    {
      hide P.Mid, P.Inv, Idle, P.ResumeStep, Numbered;
      ProceedInv(cfg, Now(), finishing);
      if !finishing && length == 0 && needDrain {
        needDrain := false;
        past := past.(drains := past.drains + 1);
      } else {
        Resume();
      }
    }

    /** The transport reports that the call in flight has completed. */
    method OnWrite()
      requires Valid() && writing
      modifies this
      ensures Valid() && Now() == P.Step(cfg, old(Now()), P.Complete)
    {
      hide P.Mid, P.Proceed, P.ClearBuffer, Start;
      ghost var calls := past.calls;
      RaisedMid(Now(), buffered, 0);
      Settle();
      Raise(writecb);
      StillNumbered(calls, past.calls, callCount, handed, writecb, writing);
      var finishing := NeedFinish();
      if !(finishing || corked > 0 || bufferProcessing || buffered == []) {
        if finished { FinishedEmpty(Now()); }
        ClearMid(cfg, Now());
        ClearBuffer();
      }
      AfterWrite(finishing);
    }

    /** False tells the caller to wait for `drain`. */
    method Write(req: P.Req<C>) returns (ok: bool)
      requires Valid()
      modifies this
      ensures Valid() && Now() == P.Step(cfg, old(Now()), P.Write(req))
      ensures ok <==> !old(ended) && old(length) + req.size < cfg.highWaterMark
    {
      hide P.Inv, P.Mid, P.WriteStep, Numbered;
      WriteInv(cfg, Now(), req);
      IdleEmpty(Now());
      ok := Accept(req);
    }

    method Accept(req: P.Req<C>) returns (ok: bool)
      requires AtRest() && (!writing && corked == 0 ==> buffered == [])
      modifies this
      ensures AtRest() && Now() == P.WriteStep(cfg, old(Now()), req)
      ensures ok <==> !old(ended) && old(length) + req.size < cfg.highWaterMark
    {
      hide P.Transport, Numbered;
      if ended {
        ok := false;
      } else {
        ok := Take(req);
        Place(req);
      }
    }

    method Place(req: P.Req<C>)
      requires AtRest() && (!writing && corked == 0 ==> buffered == [])
      modifies this
      ensures AtRest()
      ensures Now() == if old(writing) || old(corked) > 0 then old(Now()).(buffered := old(buffered) + [req])
                       else P.Transport(cfg, old(Now()), [req], false, req.size)
    {
      hide P.Transport, Numbered;
      if writing || corked > 0 {
        buffered, bufferedRequestCount := buffered + [req], bufferedRequestCount + 1;
      } else {
        TransportBuffer(cfg, Now(), [req], false, req.size);
        TransportKeeps(cfg, Now(), [req], false, req.size);
        DoWrite([req], false, req.size);
      }
    }

    static lemma IdleEmpty(s: P.State<C>)
      requires P.Inv(s)
      ensures !s.writing && s.corked == 0 ==> s.buffered == []
    {
    }

    method Take(req: P.Req<C>) returns (ok: bool)
      modifies this`pendingcb, this`length, this`needDrain, this`past
      ensures var s := old(Now());
              Now() == s.(accepted := s.accepted + [req], pendingcb := s.pendingcb + 1, length := s.length + req.size,
                          ledger := s.ledger.Accept(), needDrain := s.needDrain || s.length + req.size >= cfg.highWaterMark)
      ensures past.calls == old(past.calls) && ok == (old(length) + req.size < cfg.highWaterMark)
    {
      past := past.(accepted := past.accepted + [req], ran := past.ran + [0]);
      pendingcb, length := pendingcb + 1, length + req.size;
      ok := length < cfg.highWaterMark;
      if !ok { needDrain := true; }
    }

    method Cork()
      requires Valid()
      modifies this`corked
      ensures Valid() && Now() == P.Step(cfg, old(Now()), P.Cork)
    {
      StepInv(cfg, Now(), P.Cork);
      hide P.Inv, Start;
      corked := corked + 1;
    }

    method Uncork()
      requires P.Mid(Now(), buffered, 0) && (corked == 0 ==> Valid()) && AtRest()
      requires ending && !finished && pendingcb == 0 ==> stack != []
      modifies this
      ensures Valid() && Now() == P.UncorkStep(cfg, old(Now()))
    {
      hide P.Mid, P.Inv, P.ClearBuffer, Numbered;
      UncorkInv(cfg, Now());
      if corked > 0 {
        corked := corked - 1;
        if !(writing || corked > 0 || finished || bufferProcessing || buffered == []) {
          ClearBuffer();
        }
      }
    }

    method End()
      requires Valid()
      modifies this
      ensures Valid() && Now() == P.Step(cfg, old(Now()), P.End)
    {
      hide P.Inv, P.UncorkStep, P.FinishMaybe, Numbered;
      EndInv(cfg, Now());
      UncorkFully();
      if !ending && !finished {
        EndWritable();
      }
    }

    method UncorkFully()
      requires Valid()
      modifies this
      ensures Valid() && Now() == if old(corked) > 0 then P.UncorkStep(cfg, old(Now()).(corked := 1)) else old(Now())
    {
      hide P.Mid, P.UncorkStep, Numbered;
      if corked > 0 {
        CorkedMid(Now(), 1);
        corked := 1;
        Uncork();
      }
    }

    method EndWritable()
      modifies this`ending, this`ended, this`past, this`prefinished, this`finalCalled, this`pendingcb, this`ticks, this`finished
      ensures Now() == P.FinishMaybe(cfg, old(Now()).(ending := true)) && ended == ending && past.calls == old(past.calls)
    {
      hide P.FinishMaybe;
      ending := true;
      FinishMaybe();
      ended := true;
    }

    /** The first deferred task runs, once no stream code is waiting. */
    method Tick()
      requires Valid() && stack == [] && head < |ticks|
      modifies this
      ensures Valid() && Now() == P.Step(cfg, old(Now()), P.Tick)
    {
      hide P.Mid, P.Inv, P.Proceed, Numbered, Ledger.Begin;
      TickInv(cfg, Now());
      BegunCall(Now());
      match ticks[head]
      case After(done, finishing) => RunAfter(finishing);
      case Finalize => StartFinal();
    }

    static lemma BegunCall(s: P.State<C>)
      requires P.Inv(s) && s.ledger.head < |s.ledger.ticks|
      ensures s.ledger.ticks[s.ledger.head].After? ==> s.ledger.ticks[s.ledger.head].done.call < |s.ledger.calls|
    {
      if s.ledger.ticks[s.ledger.head].After? { BegunMid(s); }
    }

    method RunAfter(finishing: bool)
      requires Valid() && head < |ticks| && ticks[head].After? && ticks[head].done.call < |past.calls|
      modifies this
      ensures Valid() && old(Now()).ledger.Begin().stack != []
      ensures Now() == P.Proceed(cfg, old(Now()).(ledger := old(Now()).ledger.Begin()), finishing)
    {
      hide P.Mid, P.Proceed, Numbered, SameStretches, Ledger.Begin;
      ghost var calls := past.calls;
      BegunMid(Now());
      Begin();
      StillNumbered(calls, past.calls, callCount, handed, writecb, writing);
      AfterWrite(finishing);
    }

    method StartFinal()
      requires head < |ticks|
      modifies this`finalRunning, this`head
      ensures Now() == old(Now()).(finalRunning := true, ledger := old(Now()).ledger.(head := old(head) + 1))
    {
      finalRunning, head := true, head + 1;
    }

    method Begin()
      requires head < |ticks| && ticks[head].After? && ticks[head].done.call < |past.calls|
      modifies this`stack, this`head, this`past
      ensures Now() == old(Now()).(ledger := old(Now()).ledger.Begin()) && SameStretches(old(past.calls), past.calls) && stack != []
    {
      past := past.(calls := Now().ledger.Begin().calls);
      stack, head := stack + [Notify(ticks[head].done)], head + 1;
    }

    /** `_final` reports that it is done. */
    method FinalDone()
      requires Valid() && finalRunning
      modifies this
      ensures Valid() && Now() == P.Step(cfg, old(Now()), P.FinalDone)
    {
      hide P.Inv, P.FinishMaybe, Numbered;
      FinalInv(cfg, Now());
      CloseFinal();
      FinishMaybe();
    }

    method CloseFinal()
      modifies this`pendingcb, this`prefinished, this`finalRunning
      ensures Now() == old(Now()).(pendingcb := old(pendingcb) - 1, prefinished := true, finalRunning := false)
    {
      pendingcb, prefinished, finalRunning := pendingcb - 1, true, false;
    }
  }
}
