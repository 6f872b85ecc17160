/** Promises as objects: resolving functions, `then`, the microtask loop and the flush, each taking exactly the step the
    protocol allows. */
module Promises {
  import P = PromiseProtocol
  import opened PromiseSafety

  class Promise<V> {
    const number: nat
    var outcome: P.Outcome<V>  // _s and _v
    var notified: bool         // _n
    var waiting: seq<nat>      // _c

    constructor (number: nat)
      ensures this.number == number && outcome == P.Pending && !notified && waiting == []
    {
      this.number, outcome, notified, waiting := number, P.Pending, false, [];
    }
  }

  /** What the two resolving functions of a promise share: the promise itself, or a wrapper made for a thenable. */
  class Resolver<V> {
    const w: Promise<V>
    var d: bool

    constructor (w: Promise<V>)
      ensures this.w == w && !d
    {
      this.w, d := w, false;
    }
  }

  /** The history of a promise. */
  datatype Mark = Mark(holder: P.Holder, registered: seq<nat>, ran: seq<nat>, flushAt: nat)

  ghost function CellsOf<V>(ps: seq<Promise<V>>, marks: seq<Mark>): (s: seq<P.Cell<V>>)
    requires |marks| == |ps|
    reads ps
    ensures |s| == |ps|
  {
    seq(|ps|, i requires 0 <= i < |ps| reads ps =>
      P.Cell(ps[i].outcome, ps[i].notified, ps[i].waiting, marks[i].holder, marks[i].registered, marks[i].ran, marks[i].flushAt))
  }

  ghost function HandlesOf<V>(rs: seq<Resolver<V>>): (s: seq<P.Handle>)
    reads rs
    ensures |s| == |rs|
  {
    seq(|rs|, i requires 0 <= i < |rs| reads rs => P.Handle(rs[i].w.number, rs[i].d))
  }

  ghost predicate Distinct<T>(s: seq<T>) {
    forall i, j :: 0 <= i < j < |s| ==> s[i] != s[j]
  }

  /** The loop that runs promise jobs, with the promises and resolvers made so far. */
  class Realm<!V> {
    const host: P.Host<V>
    var promises: seq<Promise<V>>
    var resolvers: seq<Resolver<V>>
    var reactions: seq<P.Reaction>
    var tasks: seq<P.Task<V>>
    var head: nat
    var progress: P.Progress
    ghost var marks: seq<Mark>

    /** Promises and resolvers are numbered, and no object is listed twice. */
    ghost predicate Wired()
      reads this
    {
      && |marks| == |promises| && Distinct(promises) && Distinct(resolvers)
      && (forall i :: 0 <= i < |promises| ==> promises[i].number == i)
      && forall i :: 0 <= i < |resolvers| ==> resolvers[i].w.number < |promises| && promises[resolvers[i].w.number] == resolvers[i].w
    }

    ghost function Now(): P.State<V>
      requires |marks| == |promises|
      reads this, promises, resolvers
    {
      P.State(CellsOf(promises, marks), HandlesOf(resolvers), reactions, tasks, head, progress)
    }

    ghost predicate Valid()
      reads this, promises, resolvers
    {
      Wired() && P.Inv(Now())
    }

    constructor (host: P.Host<V>)
      ensures Valid() && this.host == host && Now() == P.Fresh()
    {
      this.host := host;
      promises, resolvers, reactions, tasks, head, progress, marks := [], [], [], [], 0, P.Idle, [];
    }

    /** P. */
    method Notify(p: Promise<V>)
      requires Wired() && p.number < |promises| && promises[p.number] == p
      modifies p`notified, this`tasks, this`marks
      ensures Wired() && Now() == P.Notify(old(Now()), p.number)
    {
      if !p.notified {
        p.notified := true;
        marks := marks[p.number := marks[p.number].(flushAt := |tasks|)];
        tasks := tasks + [P.Flush(p.number)];
      }
    }

    method Settle(p: Promise<V>, outcome: P.Outcome<V>)
      requires Wired() && p.number < |promises| && promises[p.number] == p
      modifies p, this`tasks, this`marks
      ensures Wired() && Now() == P.Settle(old(Now()), p.number, outcome)
    {
      hide P.Notify;
      SetOutcome(p, outcome);
      Notify(p);
    }

    method SetOutcome(p: Promise<V>, outcome: P.Outcome<V>)
      requires Wired() && p.number < |promises| && promises[p.number] == p
      modifies p`outcome, this`marks
      ensures Wired() && p.number < |old(Now()).cells|
      ensures Now() == var s := old(Now()); s.(cells := s.cells[p.number := s.cells[p.number].(outcome := outcome, holder := P.Nobody)])
    {
      p.outcome := outcome;
      marks := marks[p.number := marks[p.number].(holder := P.Nobody)];
    }

    /** R. */
    method Reject(r: Resolver<V>, ghost h: nat, v: V)
      requires Valid() && h < |resolvers| && r == resolvers[h]
      modifies this`tasks, this`marks, promises, resolvers
      ensures Valid() && Now() == P.Step(host, old(Now()), P.Reject(h, v))
    {
      hide P.Inv, P.Settle;
      RejectInv(Now(), h, v);
      if !r.d {
        Use(r, h);
        Settle(r.w, P.Rejected(v));
      }
    }

    method Use(r: Resolver<V>, ghost h: nat)
      requires Wired() && h < |resolvers| && r == resolvers[h] && !r.d
      modifies r
      ensures Wired() && h < |old(Now()).handles| && Now() == P.Use(old(Now()), h) && P.Live(old(Now()), h)
    {
      r.d := true;
    }

    /** M. */
    method Resolve(r: Resolver<V>, ghost h: nat, v: V)
      requires Valid() && h < |resolvers| && r == resolvers[h]
      modifies this`tasks, this`marks, promises, resolvers
      ensures Valid() && Now() == P.Step(host, old(Now()), P.Resolve(h, v))
    {
      hide P.Inv, P.Settle;
      ResolveInv(host, Now(), h, v);
      if !r.d {
        Use(r, h);
        if host.isPromise(v, r.w.number) {
          Settle(r.w, P.Rejected(host.cycle));
        } else {
          match host.kind(v)
          case Poison(e) => Settle(r.w, P.Rejected(e));
          case Plain => Settle(r.w, P.Fulfilled(v));
          case Thenable => Adopt(r.w, v);
        }
      }
    }

    method Adopt(p: Promise<V>, v: V)
      requires Wired() && p.number < |promises| && promises[p.number] == p
      modifies this`tasks, this`marks
      ensures Wired() && p.number < |old(Now()).cells|
      ensures Now() == var s := old(Now());
                       s.(cells := s.cells[p.number := s.cells[p.number].(holder := P.ByTask(|s.tasks|))],
                          tasks := s.tasks + [P.CallThen(p.number, v)])
    {
      marks := marks[p.number := marks[p.number].(holder := P.ByTask(|tasks|))];
      tasks := tasks + [P.CallThen(p.number, v)];
    }

    /** A new promise, with the resolver its executor is given. */
    method New() returns (p: Promise<V>, r: Resolver<V>)
      requires Valid()
      modifies this`promises, this`resolvers, this`marks
      ensures Valid() && Now() == P.Step(host, old(Now()), P.New)
      ensures fresh(p) && fresh(r) && promises == old(promises) + [p] && resolvers == old(resolvers) + [r] && r.w == p
    {
      hide P.Inv;
      NewInv(Now());
      p := new Promise(|promises|);
      r := new Resolver(p);
      Enlist(p, r);
    }

    method Enlist(p: Promise<V>, r: Resolver<V>)
      requires Wired() && p !in promises && r !in resolvers && r.w == p && p.number == |promises|
      requires p.outcome.Pending? && !p.notified && p.waiting == [] && !r.d
      modifies this`promises, this`resolvers, this`marks
      ensures Wired() && Now() == P.NewStep(old(Now()))
      ensures promises == old(promises) + [p] && resolvers == old(resolvers) + [r]
    {
      marks := marks + [Mark(P.ByHandle(|resolvers|), [], [], 0)];
      promises, resolvers := promises + [p], resolvers + [r];
    }

    /** `then`: the reaction waits on `p`, and the derived promise is returned. */
    method Then(p: Promise<V>, ok: bool, fail: bool) returns (q: Promise<V>)
      requires Valid() && p.number < |promises| && promises[p.number] == p
      modifies this, promises
      ensures Valid() && Now() == P.Step(host, old(Now()), P.Then(p.number, ok, fail))
      ensures fresh(q) && promises == old(promises) + [q]
    {
      hide P.Inv, P.NewStep, P.Registered;
      ThenInv(Now(), p.number, ok, fail);
      var r: Resolver<V>;
      q, r := New();
      Register(p, P.Reaction(|resolvers| - 1, ok, fail));
    }

    method Register(p: Promise<V>, reaction: P.Reaction)
      requires Wired() && p.number < |promises| && promises[p.number] == p && reaction.handle < |resolvers|
      modifies this`reactions, this`tasks, this`marks, p
      ensures Wired() && Now() == P.Registered(old(Now()), p.number, reaction)
    {
      hide P.Notify;
      Append(p, reaction);
      if !p.outcome.Pending? { Notify(p); }
    }

    method Append(p: Promise<V>, reaction: P.Reaction)
      requires Wired() && p.number < |promises| && promises[p.number] == p
      modifies this`reactions, this`marks, p`waiting
      ensures Wired() && p.number < |old(Now()).cells|
      ensures Now() == var s := old(Now()); s.(reactions := s.reactions + [reaction], cells := s.cells[p.number := More(s, p.number)])
    {
      p.waiting := p.waiting + [|reactions|];
      marks := marks[p.number := marks[p.number].(registered := marks[p.number].registered + [|reactions|])];
      reactions := reactions + [reaction];
    }

    /** The next queued task. A thenable's `then` is given a fresh resolver for the promise it was passed to. */
    method RunTask() returns (given: Resolver?<V>)
      requires Valid() && progress.Idle? && head < |tasks|
      modifies this`head, this`progress, this`resolvers, this`marks
      ensures Valid() && Now() == P.Step(host, old(Now()), P.RunTask)
      ensures given != null <==> old(tasks[head]).CallThen?
      ensures given != null ==> fresh(given) && resolvers == old(resolvers) + [given] && given.w.number == old(tasks[head]).target
    {
      TaskInv(Now());
      assert P.TaskOk(Now(), head);
      hide P.Inv;
      match tasks[head]
      case Flush(p) =>
        head, progress := head + 1, P.Flushing(p, 0);
        given := null;
      case CallThen(p, v) =>
        given := new Resolver(promises[p]);
        Give(given);
    }

    method Give(r: Resolver<V>)
      requires Wired() && r !in resolvers && !r.d && r.w.number < |promises| && promises[r.w.number] == r.w
      modifies this`head, this`resolvers, this`marks
      ensures Wired() && resolvers == old(resolvers) + [r] && r.w.number < |old(Now()).cells|
      ensures Now() == var s, p := old(Now()), r.w.number;
                       s.(head := s.head + 1, handles := s.handles + [P.Handle(p, false)],
                          cells := s.cells[p := s.cells[p].(holder := P.ByHandle(|s.handles|))])
    {
      marks := marks[r.w.number := marks[r.w.number].(holder := P.ByHandle(|resolvers|))];
      head, resolvers := head + 1, resolvers + [r];
    }

    /** The flush under way runs its next reaction, or ends. */
    method Advance()
      requires Valid() && progress.Flushing?
      modifies this`progress, this`tasks, this`marks, promises, resolvers
      ensures Valid() && Now() == P.Step(host, old(Now()), P.Advance)
    {
      AdvanceInv(host, Now());
      var p := promises[progress.p];
      if progress.next == |p.waiting| {
        hide P.Inv;
        EndFlush(p);
      } else {
        TakeInv(Now());
        ReactionAt(Now());
        hide P.Inv, P.Deliver, P.RejectStep;
        var reaction, next := reactions[p.waiting[progress.next]], progress.next + 1;
        Take(p);
        React(p, reaction, next);
      }
    }

    static lemma ReactionAt(s: P.State<V>)
      requires P.Inv(s) && s.progress.Flushing? && s.progress.next < |s.cells[s.progress.p].waiting|
      requires s.cells[s.progress.p].waiting[s.progress.next] < |s.reactions|
      ensures s.reactions[s.cells[s.progress.p].waiting[s.progress.next]].handle < |s.handles|
    {
    }

    method EndFlush(p: Promise<V>)
      requires Wired() && p.number < |promises| && promises[p.number] == p
      modifies p, this`progress
      ensures Wired() && p.number < |old(Now()).cells|
      ensures Now() == var s := old(Now()); s.(cells := s.cells[p.number := s.cells[p.number].(waiting := [], notified := false)], progress := P.Idle)
    {
      p.waiting := [];
      p.notified := false;
      progress := P.Idle;
    }

    method Take(p: Promise<V>)
      requires Wired() && p.number < |promises| && promises[p.number] == p
      requires progress.Flushing? && progress.p == p.number && progress.next < |p.waiting|
      modifies this`progress, this`marks
      ensures Wired() && old(Now()).cells[p.number].waiting == p.waiting && Now() == Taken(old(Now()))
    {
      marks := marks[p.number := marks[p.number].(ran := marks[p.number].ran + [p.waiting[progress.next]])];
      progress := P.Flushing(p.number, progress.next + 1);
    }

    /** Calls the handler for the outcome of `p`, or passes the outcome on to the derived promise. */
    method React(p: Promise<V>, reaction: P.Reaction, next: nat)
      requires Valid() && p.number < |promises| && promises[p.number] == p && reaction.handle < |resolvers|
      requires progress == P.Flushing(p.number, next) && !p.outcome.Pending?
      modifies this`progress, this`tasks, this`marks, promises, resolvers
      ensures Wired()
      ensures Now() == var s := old(Now());
                       match old(p.outcome)
                       case Fulfilled(v) =>
                         if reaction.ok then s.(progress := P.Calling(p.number, next, reaction.handle)) else P.Deliver(host, s, reaction.handle, v)
                       case Rejected(v) =>
                         if reaction.fail then s.(progress := P.Calling(p.number, next, reaction.handle)) else P.RejectStep(s, reaction.handle, v)
                       case Pending => s
    {
      hide P.Inv, P.Deliver, P.RejectStep;
      match p.outcome
      case Fulfilled(v) =>
        if reaction.ok { progress := P.Calling(p.number, next, reaction.handle); } else { Deliver(reaction.handle, v); }
      case Rejected(v) =>
        if reaction.fail { progress := P.Calling(p.number, next, reaction.handle); }
        else { Reject(resolvers[reaction.handle], reaction.handle, v); }
    }

    /** The result of a reaction goes to the derived promise; a thenable is left to call its resolver. */
    method Deliver(h: nat, v: V)
      requires Valid() && h < |resolvers|
      modifies this`tasks, this`marks, promises, resolvers
      ensures Valid() && Now() == P.Deliver(host, old(Now()), h, v)
    {
      hide P.Inv, P.RejectStep, P.ResolveStep;
      if host.isPromise(v, resolvers[h].w.number) {
        Reject(resolvers[h], h, host.cycle);
      } else {
        match host.kind(v)
        case Poison(e) => Reject(resolvers[h], h, e);
        case Plain => Resolve(resolvers[h], h, v);
        case Thenable =>
      }
    }

    /** The running handler returns. */
    method Return(v: V)
      requires Valid() && progress.Calling?
      modifies this`progress, this`tasks, this`marks, promises, resolvers
      ensures Valid() && Now() == P.Step(host, old(Now()), P.Return(v))
    {
      var h := progress.handle;
      assert h < |resolvers|;
      ProgressInv(Now(), P.Flushing(progress.p, progress.next));
      hide P.Inv, P.Deliver;
      progress := P.Flushing(progress.p, progress.next);
      Deliver(h, v);
    }

    /** The running handler throws. */
    method Throw(v: V)
      requires Valid() && progress.Calling?
      modifies this`progress, this`tasks, this`marks, promises, resolvers
      ensures Valid() && Now() == P.Step(host, old(Now()), P.Throw(v))
    {
      var h := progress.handle;
      assert h < |resolvers|;
      ProgressInv(Now(), P.Flushing(progress.p, progress.next));
      hide P.Inv, P.RejectStep;
      progress := P.Flushing(progress.p, progress.next);
      Reject(resolvers[h], h, v);
    }
  }
}
