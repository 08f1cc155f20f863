/** Runs of the scheduler: what holds in every reachable state. */
module SchedulerRuns {
  import opened Marks
  import opened Scheduler
  import opened SchedulerBlock
  import opened SchedulerDrain
  import opened SchedulerSteps

  /** `now` is the clock as read by the `dill_wait` the call may end in. */
  datatype Op =
    | CallGo
    | CallYield(now: int)
    | CallChMake
    | CallSend(h: nat, val: Bytes, deadline: int, now: int)
    | CallRecv(h: nat, val: Bytes, deadline: int, now: int)
    | CallChoose(cls: seq<Choice>, deadline: int, now: int)
    | CallChDone(h: nat)
    | CallHClose(h: nat)
    | CallSleep(deadline: int, now: int)
    | CallFdWait(deadline: int, now: int)
    | CallNoBlocking(on: bool)
    | Finish(now: int)
    | PollOnce(now: int, evs: seq<nat>)
    | Jump

  function AndWait(r: (State, Ret), now: int): State {
    if r.1 == Blocks && r.0.mode == Suspending then EnterWait(r.0, now) else r.0
  }

  function Call(s: State, op: Op): State {
    match op
    case CallGo => Go(s).0
    case CallYield(now) => Yield(s, now).0
    case CallChMake => ChMake(s)
    case CallSend(h, val, deadline, now) => AndWait(Send(s, h, val, deadline), now)
    case CallRecv(h, val, deadline, now) => AndWait(Recv(s, h, val, deadline), now)
    case CallChoose(cls, deadline, now) => AndWait(Choose(s, cls, deadline), now)
    case CallChDone(h) => ChDone(s, h).0
    case CallHClose(h) => HClose(s, h).0
    case CallSleep(deadline, now) => if CanBlock(s) then EnterWait(Block(s, 1, [], deadline), now) else s
    case CallFdWait(deadline, now) =>
      if CanBlock(s) then EnterWait(Block(s, 1, [Request(Fds, [])], deadline), now) else s
    case CallNoBlocking(val) => NoBlocking(s, val)
    case Finish(now) => EnterWait(s, now)
    case _ => s
  }

  /** A coroutine calls while it runs; `dill_wait` polls and jumps. */
  function Step(s: State, op: Op): State {
    match s.mode
    case Running => Call(s, op)
    case Polling(_) => if op.PollOnce? then Poll(s, op.now, op.evs) else s
    case Dispatching => if op.Jump? then Dispatch(s).0 else s
    case Suspending => s
  }

  function Run(s: State, ops: seq<Op>): State {
    if ops == [] then s else Step(Run(s, ops[..|ops| - 1]), ops[|ops| - 1])
  }

  lemma InitialInv(now: int)
    ensures Inv(Initial(now))
  {
    Whole(Initial(now));
  }

  lemma BlockedInv(s: State, id: int, reqs: seq<Request>, deadline: int, now: int)
    requires Inv(s) && s.mode == Running && Requests(s.(mode := Suspending), reqs)
    ensures Inv(EnterWait(Block(s, id, reqs, deadline), now))
    ensures EnterWait(Block(s, id, reqs, deadline), now).mode != Suspending
  {
    BlockInv(s, id, reqs, deadline);
    BlockFrame(s, id, reqs, deadline);
    EnterWaitInv(Block(s, id, reqs, deadline), now);
  }

  lemma AndWaitInv(r: (State, Ret), now: int)
    requires Inv(r.0)
    ensures Inv(AndWait(r, now))
  {
    if r.1 == Blocks && r.0.mode == Suspending { EnterWaitInv(r.0, now); }
  }

  lemma CallInv(s: State, op: Op)
    requires Inv(s) && s.mode == Running
    ensures Inv(Call(s, op))
  {
    match op
    case CallGo => GoInv(s);
    case CallYield(now) => YieldInv(s, now);
    case CallChMake => ChMakeInv(s);
    case CallSend(h, val, deadline, now) =>
      ExchangeInv(s, Out(Other(h)), h, val, deadline);
      AndWaitInv(Send(s, h, val, deadline), now);
    case CallRecv(h, val, deadline, now) =>
      ExchangeInv(s, In(h), h, val, deadline);
      AndWaitInv(Recv(s, h, val, deadline), now);
    case CallChoose(cls, deadline, now) =>
      ChooseInv(s, cls, deadline);
      AndWaitInv(Choose(s, cls, deadline), now);
    case CallChDone(h) => ChDoneInv(s, h);
    case CallHClose(h) => HCloseInv(s, h);
    case CallSleep(deadline, now) =>
      if CanBlock(s) { BlockedInv(s, 1, [], deadline, now); }
    case CallFdWait(deadline, now) =>
      if CanBlock(s) {
        Parts(s);
        BlockedInv(s, 1, [Request(Fds, [])], deadline, now);
      }
    case CallNoBlocking(val) => NoBlockingInv(s, val);
    case Finish(now) => EndInv(s, now);
    case _ =>
  }

  lemma StepInv(s: State, op: Op)
    requires Inv(s)
    ensures Inv(Step(s, op))
  {
    match s.mode
    case Running => CallInv(s, op);
    case Polling(_) => if op.PollOnce? { PollInv(s, op.now, op.evs); }
    case Dispatching => if op.Jump? { DispatchInv(s); }
    case Suspending =>
  }

  /** The invariant holds in every state of every run. */
  lemma {:induction false} RunInv(s: State, ops: seq<Op>)
    requires Inv(s)
    ensures Inv(Run(s, ops))
  {
    if ops != [] {
      RunInv(s, ops[..|ops| - 1]);
      StepInv(Run(s, ops[..|ops| - 1]), ops[|ops| - 1]);
    }
  }

  // ------------------------------------------------------------------ channels

  /** No reachable state has a sender and a receiver waiting for each other, unless they are
      two clauses of one coroutine; a half-channel that is done has nobody waiting. */
  lemma NoMissedRendezvous(start: int, ops: seq<Op>, ch: nat, c: nat, d: nat)
    requires ch < |Run(Initial(start), ops).halves|
    requires var s := Run(Initial(start), ops); c in On(s, In(ch)) && d in On(s, Out(ch))
    ensures var s := Run(Initial(start), ops);
      && c < |s.store| && d < |s.store| && s.store[c].cr == s.store[d].cr
      && IsBlocked(s, s.store[c].cr) && !s.halves[ch].done
  {
    InitialInv(start);
    RunInv(Initial(start), ops);
    var s := Run(Initial(start), ops);
    Parts(s);
    assert ListOk(s, In(ch), c);
  }

  /** What `dill_wait` returns names the one clause that fired, and its error. */
  lemma WaitReturns(s: State, i: nat)
    requires Inv(s) && s.mode == Dispatching
    requires s.ready != [] && s.ready[0] < |s.crs| && i < |s.crs[s.ready[0]].clauses|
    ensures var cs, r := s.crs[s.ready[0]].clauses, Dispatch(s).1;
      && cs[i] < |s.store|
      && r == Returned(s.crs[s.ready[0]].id, s.crs[s.ready[0]].err)
      && (s.store[cs[i]].status.Fired? <==> s.store[cs[i]].id == r.rc)
      && (s.store[cs[i]].status.Fired? ==> s.store[cs[i]].status == Fired(r.errno))
  {
    Parts(s);
    var o := s.ready[0];
    assert Resumed(s, o) && Owned(s, o);
    var cs := s.crs[o].clauses;
    var f :| 0 <= f < |cs| && FiredBy(s, o, f);
    if i < f {
      assert s.store[cs[i]].id > s.store[cs[f]].id;
    } else if f < i {
      assert s.store[cs[f]].id > s.store[cs[i]].id;
    }
  }

  // ------------------------------------------------------------------ order

  /** The queue is only appended to, and `done` is never taken back. */
  ghost predicate Grows(s: State, t: State) {
    && s.ready <= t.ready && |s.halves| <= |t.halves|
    && forall ch :: 0 <= ch < |s.halves| && s.halves[ch].done ==> t.halves[ch].done
  }

  lemma ExchangeGrows(s: State, mine: Key, h: nat, val: Bytes, deadline: int, now: int)
    requires mine.In? || mine.Out?
    ensures Grows(s, AndWait(Exchange(s, mine, h, val, deadline), now))
  {
    BlockFrame(s, 0, [Request(mine, val)], deadline);
  }

  lemma {:induction false} ScanGrows(s: State, cls: seq<Choice>, i: nat)
    ensures Grows(s, Scan(s, cls, i).0)
    decreases |cls| - i
  {
    if i < |cls| && IsOpen(s, cls[i].h) && !cls[i].Malformed? {
      ScanGrows(s, cls, i + 1);
    }
  }

  lemma ChooseGrows(s: State, cls: seq<Choice>, deadline: int, now: int)
    ensures Grows(s, AndWait(Choose(s, cls, deadline), now))
  {
    ScanGrows(s, cls, 0);
    BlockFrame(s, 0, ToRequests(cls), deadline);
  }

  lemma DrainHalfGrows(s: State, ch: nat)
    ensures Grows(s, DrainHalf(s, ch)) && DrainHalf(s, ch).halves == s.halves
  {
    DrainQueues(s, In(ch), EPIPE);
    DrainQueues(Drain(s, In(ch), EPIPE), Out(ch), EPIPE);
  }

  lemma ChDoneGrows(s: State, h: nat)
    ensures Grows(s, ChDone(s, h).0)
  {
    var ch := Other(h);
    if IsOpen(s, h) && ch < |s.halves| {
      DrainHalfGrows(SetHalf(s, ch, s.halves[ch].(done := true)), ch);
    }
  }

  lemma GrowsTransitive(s: State, t: State, u: State)
    requires Grows(s, t) && Grows(t, u)
    ensures Grows(s, u)
  {
  }

  lemma HCloseGrows(s: State, h: nat)
    ensures Grows(s, HClose(s, h).0)
  {
    if IsOpen(s, h) {
      var t := SetHalf(s, h, s.halves[h].(closed := true));
      assert Grows(s, t);
      if !IsOpen(s, Other(h)) { LastCloseGrows(s, h, t, HClose(s, h).0); }
    }
  }

  lemma LastCloseGrows(s: State, h: nat, t: State, u: State)
    requires IsOpen(s, h) && !IsOpen(s, Other(h)) && t == SetHalf(s, h, s.halves[h].(closed := true)) &&
      u == HClose(s, h).0
    ensures Grows(t, u) && (Grows(s, t) ==> Grows(s, u))
  {
    var first := if h % 2 == 1 then h - 1 else h;
    CloseBothGrows(t, first);
    if Grows(s, t) { GrowsTransitive(s, t, u); }
  }

  lemma CloseBothGrows(s: State, first: nat)
    ensures Grows(s, DrainHalf(DrainHalf(s, first), first + 1))
  {
    var t := DrainHalf(s, first);
    DrainHalfGrows(s, first);
    DrainHalfGrows(t, first + 1);
    GrowsTransitive(s, t, DrainHalf(t, first + 1));
  }

  lemma CallGrows(s: State, op: Op)
    ensures Grows(s, Call(s, op))
  {
    match op
    case CallSend(h, val, deadline, now) => ExchangeGrows(s, Out(Other(h)), h, val, deadline, now);
    case CallRecv(h, val, deadline, now) => ExchangeGrows(s, In(h), h, val, deadline, now);
    case CallChoose(cls, deadline, now) => ChooseGrows(s, cls, deadline, now);
    case CallChDone(h) => ChDoneGrows(s, h);
    case CallHClose(h) => HCloseGrows(s, h);
    case CallSleep(deadline, now) => BlockFrame(s, 1, [], deadline);
    case CallFdWait(deadline, now) => BlockFrame(s, 1, [Request(Fds, [])], deadline);
    case _ =>
  }

  predicate Jumps(s: State, op: Op) {
    s.mode == Dispatching && op.Jump?
  }

  /** A jump takes the head of the queue; no other step disturbs the order. */
  lemma StepQueue(s: State, op: Op)
    requires Inv(s)
    ensures if Jumps(s, op) then s.ready != [] && Step(s, op).ready == s.ready[1..] && Step(s, op).running == s.ready[0]
            else s.ready <= Step(s, op).ready
    ensures |s.halves| <= |Step(s, op).halves|
    ensures forall ch :: 0 <= ch < |s.halves| && s.halves[ch].done ==> Step(s, op).halves[ch].done
  {
    match s.mode
    case Running => CallGrows(s, op);
    case Polling(_) =>
      if op.PollOnce? {
        FireAllQueues(s, op.evs);
        ExpireQueues(FireAll(s, op.evs), op.now);
      }
    case Dispatching =>
      DispatchInv(s);
      Parts(s);
    case Suspending =>
  }

  /** The step from `s` by `op` ends in `t`. What a step does is spelled out only in the proofs that
      mention `Open`. */
  ghost predicate Leads(s: State, op: Op, t: State) {
    forall x {:trigger Open(x)} :: Open(x) ==> t == Step(s, op)
  }

  /** A coroutine moves up by one place with a jump, and keeps its place otherwise. */
  lemma StepPosition(s: State, op: Op, j: nat, t: State)
    requires Inv(s) && j < |s.ready| && (Jumps(s, op) ==> j > 0) && Leads(s, op, t)
    ensures var i := if Jumps(s, op) then j - 1 else j; i < |t.ready| && t.ready[i] == s.ready[j]
  {
    assert Open(0);
    StepQueue(s, op);
  }

  /** The states of a run, the first one included. */
  ghost predicate IsRun(trace: seq<State>, ops: seq<Op>) {
    |trace| == |ops| + 1 && forall i {:trigger ops[i]} :: 0 <= i < |ops| ==> Leads(trace[i], ops[i], trace[i + 1])
  }

  function JumpCount(trace: seq<State>, ops: seq<Op>, n: nat): nat
    requires n <= |trace| && n <= |ops|
  {
    if n == 0 then 0 else JumpCount(trace, ops, n - 1) + if Jumps(trace[n - 1], ops[n - 1]) then 1 else 0
  }

  lemma LeadsOn(s: State, op: Op, t: State)
    requires Inv(s) && Leads(s, op, t)
    ensures Inv(t) && t == Step(s, op)
  {
    assert Open(0);
    StepInv(s, op);
  }

  lemma {:induction false} TraceRuns(trace: seq<State>, ops: seq<Op>, n: nat)
    requires IsRun(trace, ops) && Inv(trace[0]) && n <= |ops|
    ensures Inv(trace[n]) && trace[n] == Run(trace[0], ops[..n])
  {
    if n > 0 {
      TraceRuns(trace, ops, n - 1);
      assert ops[..n][..n - 1] == ops[..n - 1];
      LeadsOn(trace[n - 1], ops[n - 1], trace[n]);
    }
  }

  /** A coroutine queued behind k others is behind k - j others after j jumps. */
  lemma {:induction false} QueuePosition(trace: seq<State>, ops: seq<Op>, n: nat, k: nat)
    requires IsRun(trace, ops) && Inv(trace[0]) && n <= |ops| && k < |trace[0].ready| && JumpCount(trace, ops, n) <= k
    ensures var j := JumpCount(trace, ops, n); k - j < |trace[n].ready| && trace[n].ready[k - j] == trace[0].ready[k]
  {
    if n > 0 {
      QueuePosition(trace, ops, n - 1, k);
      TraceRuns(trace, ops, n - 1);
      StepPosition(trace[n - 1], ops[n - 1], k - JumpCount(trace, ops, n - 1), trace[n]);
    }
  }

  /** ... and so it runs at exactly the (k+1)-th jump. */
  lemma RunsInTurn(trace: seq<State>, ops: seq<Op>, n: nat, k: nat)
    requires IsRun(trace, ops) && Inv(trace[0]) && n < |ops| && k < |trace[0].ready|
    requires JumpCount(trace, ops, n) == k && Jumps(trace[n], ops[n])
    ensures trace[n + 1].running == trace[0].ready[k]
  {
    QueuePosition(trace, ops, n, k);
    TraceRuns(trace, ops, n);
    JumpRuns(trace[n], ops[n], trace[n + 1]);
  }

  lemma JumpRuns(s: State, op: Op, t: State)
    requires Inv(s) && Jumps(s, op) && Leads(s, op, t)
    ensures s.ready != [] && t.running == s.ready[0]
  {
    assert Open(0);
    StepQueue(s, op);
  }

  /** Once a half-channel is done, it stays so, and nobody waits on it any more. */
  lemma {:induction false} DoneForever(s: State, ops: seq<Op>, ch: nat)
    requires Inv(s) && ch < |s.halves| && s.halves[ch].done
    ensures var t := Run(s, ops); ch < |t.halves| && t.halves[ch].done && On(t, In(ch)) == [] && On(t, Out(ch)) == []
  {
    RunInv(s, ops);
    Parts(Run(s, ops));
    if ops != [] {
      var pre := ops[..|ops| - 1];
      RunInv(s, pre);
      DoneForever(s, pre, ch);
      StepQueue(Run(s, pre), ops[|ops| - 1]);
    }
  }

  // ------------------------------------------------------------------ results

  /** How `dill_chsend` and `dill_chrecv` read the result of `dill_wait`. */
  function ExchangeResult(id: int, err: int): Ret {
    if id < 0 then Returned(-1, err)
    else if id == 1 then Returned(-1, ETIMEDOUT)
    else if err != 0 then Returned(-1, err)
    else Returned(0, 0)
  }
}
