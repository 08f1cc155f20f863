/** Who runs when: polls, yields, new and finished coroutines, sleeping, and calls that are refused. */
module SchedulerTurns {
  import opened Scheduler
  import opened SchedulerBlock
  import opened SchedulerDrain
  import opened SchedulerSteps
  import opened SchedulerRuns
  import opened SchedulerBytes
  import opened SchedulerAside
  import opened SchedulerResults
  import opened SchedulerWakes
  import opened SchedulerEffects

  /** In the beginning the main coroutine runs, and may block; nobody is queued and nobody waits. */
  lemma InitialSays(now: int)
    ensures var s := Initial(now);
      && Runs(s, 0) && |s.crs| == 1 && MayBlock(s) && s.crs[0].clauses == [] && s.ready == [] && s.halves == []
      && s.store == [] && s.lastPoll == now && forall k :: k in s.lists ==> s.lists[k] == []
  {
  }

  // ------------------------------------------------------------------ polling

  /** A poll at `now` that reports `evs`: it resumes the owners of the descriptors reported, then those of
      the timers that are due, by deadline, and nobody else. */
  ghost predicate Polls(s: State, t: State, now: int, evs: seq<nat>) {
    var e := EventOwners(s.store, On(s, Fds), evs);
    var d := DueOwners(s.store, Sift(s.store, On(s, Timers), e), now);
    && t.ready == s.ready + e + d && |t.crs| == |s.crs| && Sorted(s.store, On(s, Timers))
    && (forall o :: o in e ==> Resumes(s, t, o, 0) && Owns(s.store, On(s, Fds), o))
    && (forall o :: o in d ==> Resumes(s, t, o, ETIMEDOUT) && Owns(s.store, On(s, Timers), o))
    && (forall c :: c in evs && c in On(s, Fds) ==> Owner(s.store, c) in e)
    && (forall c :: c in On(s, Timers) && c < |s.store| && s.store[c].deadline <= now ==>
          Owner(s.store, c) in e || Owner(s.store, c) in d)
    && (forall c: nat :: c in On(t, Timers) ==> c < |t.store| && t.store[c].deadline > now)
    && (forall o :: 0 <= o < |s.crs| && o !in e && o !in d ==> t.crs[o] == s.crs[o])
    && (forall k :: k in s.lists ==> k in t.lists && t.lists[k] == Sift(s.store, s.lists[k], e + d))
    && t.halves == s.halves && t.running == s.running
    && s.mode.Polling? && t.mode == (if s.mode.block && t.ready == s.ready then s.mode else Dispatching)
  }

  lemma {:induction false} EventFrom(store: seq<Clause>, l: seq<nat>, evs: seq<nat>, o: nat)
    requires o in EventOwners(store, l, evs)
    ensures Owns(store, l, o)
    decreases |evs|
  {
    if evs[0] in l {
      var p := Owner(store, evs[0]);
      if o == p {
        assert evs[0] in l;
      } else {
        EventFrom(store, Sift(store, l, [p]), evs[1..], o);
        var c :| c in Sift(store, l, [p]) && Owner(store, c) == o;
        SiftIn(store, l, [p], c);
      }
    } else {
      EventFrom(store, l, evs[1..], o);
    }
  }

  lemma {:induction false} DueFrom(store: seq<Clause>, l: seq<nat>, now: int, o: nat)
    requires o in DueOwners(store, l, now)
    ensures Owns(store, l, o)
  {
    if Deadline(store, l[0]) <= now && Owner(store, l[0]) == o {
      assert l[0] in l;
    } else {
      DueFrom(store, l[1..], now, o);
      var c :| c in l[1..] && Owner(store, c) == o;
      assert c in l;
    }
  }

  lemma OwnsWaits(s: State, k: Key, o: nat) returns (c: nat)
    requires k in s.lists && Owns(s.store, s.lists[k], o)
    ensures c in s.lists[k] && Owner(s.store, c) == o
  {
    c :| c in s.lists[k] && Owner(s.store, c) == o;
  }

  /** A poll is a poll of the descriptors and an expiry of timers. */
  lemma PollSays(s: State, now: int, evs: seq<nat>)
    requires Inv(s) && s.mode.Polling?
    ensures Polls(s, Poll(s, now, evs), now, evs)
    ensures Step(s, PollOnce(now, evs)) == Poll(s, now, evs)
  {
    var u := FireAll(s, evs);
    Parts(s);
    FireAllWakes(s, evs);
    FireAllKeeps(s, evs);
    Parts(u);
    ExpireWakes(u, now);
    ExpireKeeps(u, now);
    PollInv(s, now, evs);
    BothPoll(s, u, Expire(u, now), Poll(s, now, evs), now, evs);
  }

  lemma BothPoll(s: State, u: State, v: State, t: State, now: int, evs: seq<nat>)
    requires Inv(s) && Inv(u) && Inv(v) && Inv(t) && s.mode.Polling? && Fds in s.lists && Timers in s.lists
    requires Wakes(s, u, EventOwners(s.store, s.lists[Fds], evs), 0)
    requires Timers in u.lists && Wakes(u, v, DueOwners(u.store, u.lists[Timers], now), ETIMEDOUT) && !Due(v, now)
    requires t == if !s.mode.block || v.ready != s.ready then v.(mode := Dispatching, lastPoll := now) else v
    ensures Polls(s, t, now, evs)
  {
    var e := EventOwners(s.store, s.lists[Fds], evs);
    var l := Sift(s.store, s.lists[Timers], e);
    var d := DueOwners(s.store, l, now);
    DueSame(s.store, u.store, l, now);
    Parts(s);
    Parts(u);
    Parts(t);
    PollTimers(s, u, v, t, e, d, l, now);
    PollEvents(s, u, v, t, e, d, evs);
    PollRest(s, u, v, e, d);
    LaterOf(v, t, now);
  }

  lemma LaterOf(v: State, t: State, now: int)
    requires Inv(v) && !Due(v, now) && t.store == v.store && t.lists == v.lists
    ensures forall c: nat :: c in On(t, Timers) ==> c < |t.store| && t.store[c].deadline > now
  {
    Parts(v);
    LaterTimers(v, now);
  }

  /** Everything else stays. */
  lemma PollRest(s: State, u: State, v: State, e: seq<nat>, d: seq<nat>)
    requires Wakes(s, u, e, 0) && Wakes(u, v, d, ETIMEDOUT)
    ensures v.ready == s.ready + e + d && |v.crs| == |s.crs| && v.halves == s.halves && v.running == s.running
    ensures v.mode == s.mode
    ensures forall o :: 0 <= o < |s.crs| && o !in e && o !in d ==> v.crs[o] == s.crs[o]
    ensures forall k :: k in s.lists ==> k in v.lists && v.lists[k] == Sift(s.store, s.lists[k], e + d)
  {
    forall k | k in s.lists ensures k in v.lists && v.lists[k] == Sift(s.store, s.lists[k], e + d) {
      SiftTwice(s.store, u.store, s.lists[k], e, d);
    }
    forall o | 0 <= o < |s.crs| && o !in e && o !in d ensures v.crs[o] == s.crs[o] {
      assert Told(s.crs[o], u.crs[o], o in e, 0) && Told(u.crs[o], v.crs[o], o in d, ETIMEDOUT);
    }
  }

  lemma PollEvents(s: State, u: State, v: State, t: State, e: seq<nat>, d: seq<nat>, evs: seq<nat>)
    requires Base(s) && Clauses(s) && Base(u) && Clauses(u) && Base(t) && Clauses(t) && Fds in s.lists
    requires e == EventOwners(s.store, s.lists[Fds], evs) && Wakes(s, u, e, 0) && Wakes(u, v, d, ETIMEDOUT)
    requires t.ready == v.ready && t.crs == v.crs && (forall o :: o in d ==> o !in u.ready)
    ensures forall o :: o in e ==> Resumes(s, t, o, 0) && Owns(s.store, s.lists[Fds], o)
    ensures forall c :: c in evs && c in s.lists[Fds] ==> Owner(s.store, c) in e
  {
    forall o | o in e ensures Resumes(s, t, o, 0) && Owns(s.store, s.lists[Fds], o) {
      EventFrom(s.store, s.lists[Fds], evs, o);
      var c := OwnsWaits(s, Fds, o);
      WokenResumes(s, t, o, Fds, c);
      assert Told(s.crs[o], u.crs[o], o in e, 0) && Told(u.crs[o], v.crs[o], o in d, ETIMEDOUT);
    }
    forall c | c in evs && c in s.lists[Fds] ensures Owner(s.store, c) in e {
      EventIn(s.store, s.lists[Fds], evs, c);
    }
  }

  lemma PollTimers(s: State, u: State, v: State, t: State, e: seq<nat>, d: seq<nat>, l: seq<nat>, now: int)
    requires Base(s) && Clauses(s) && Base(u) && Clauses(u) && Base(t) && Clauses(t)
    requires l == Sift(s.store, s.lists[Timers], e) && d == DueOwners(s.store, l, now)
    requires Wakes(s, u, e, 0) && Wakes(u, v, d, ETIMEDOUT) && t.ready == v.ready && t.crs == v.crs
    ensures forall o :: o in d ==> o !in u.ready && Resumes(s, t, o, ETIMEDOUT) && Owns(s.store, s.lists[Timers], o)
    ensures forall c :: c in s.lists[Timers] && c < |s.store| && s.store[c].deadline <= now ==>
      Owner(s.store, c) in e || Owner(s.store, c) in d
  {
    forall o | o in d
      ensures o !in u.ready && Resumes(s, t, o, ETIMEDOUT) && Owns(s.store, s.lists[Timers], o)
    {
      DueFrom(s.store, l, now, o);
      var c :| c in l && Owner(s.store, c) == o;
      SiftIn(s.store, s.lists[Timers], e, c);
      assert ListOk(u, Timers, c);
      WokenResumes(s, t, o, Timers, c);
      assert Told(u.crs[o], v.crs[o], o in d, ETIMEDOUT);
    }
    forall c | c in s.lists[Timers] && c < |s.store| && s.store[c].deadline <= now && Owner(s.store, c) !in e
      ensures Owner(s.store, c) in d
    {
      SiftIn(s.store, s.lists[Timers], e, c);
      DueIn(s.store, l, now, c);
    }
  }

  /** When the first timer is not due, none is. */
  lemma LaterTimers(v: State, now: int)
    requires Base(v) && Clauses(v) && !Due(v, now)
    ensures forall c: nat :: c in On(v, Timers) ==> c < |v.store| && v.store[c].deadline > now
  {
    var l := v.lists[Timers];
    forall c: nat | c in l ensures c < |v.store| && v.store[c].deadline > now {
      assert ListOk(v, Timers, l[0]) && Sorted(v.store, l);
      var i :| 0 <= i < |l| && l[i] == c;
      if i > 0 { assert Before(v.store, l[0], l[i]); }
    }
  }

  /** A wait jumps without a poll only if somebody is queued and the last poll is not a second ago. */
  lemma PollsOften(s: State, now: int)
    ensures var t := EnterWait(s, now);
      && (t.mode == Dispatching <==> s.ready != [] && now - s.lastPoll <= 1000)
      && (t.mode == Polling(true) <==> s.ready == []) && t == s.(mode := t.mode)
  {
  }

  // ------------------------------------------------------------------ yielding

  /** A coroutine that may block is queued behind all others, with result 0, and does not run. */
  ghost predicate Yields(s: State, t: State, r: Ret) {
    if MayBlock(s) then
      && r == Blocks && t.ready == s.ready + [s.running] && t.mode != Running && s.running < |s.crs| == |t.crs|
      && t.crs[s.running].id == 0 && t.crs[s.running].err == 0
      && (forall o :: 0 <= o < |s.crs| && o != s.running ==> t.crs[o] == s.crs[o])
      && t.lists == s.lists && t.store == s.store && t.halves == s.halves
    else r == Returned(-1, ECANCELED) && t == s
  }

  /** `dill_yield` up to its jump. */
  lemma YieldSays(s: State, now: int)
    requires Inv(s) && s.mode == Running
    ensures Yields(s, Step(s, CallYield(now)), Yield(s, now).1)
  {
    Parts(s);
  }

  /** The record of a queued coroutine does not change until it is jumped to. */
  lemma StepRecord(s: State, op: Op, t: State, o: nat)
    requires Inv(s) && Leads(s, op, t) && o in s.ready && !JumpsTo(s, op, o)
    ensures o < |s.crs| && o < |t.crs| && t.crs[o] == s.crs[o]
  {
    LeadsOn(s, op, t);
    Parts(s);
    StepAside(s, op, o, 0);
  }

  /** Behind the head of the queue. */
  lemma NotYet(s: State, op: Op, j: nat)
    requires Inv(s) && j < |s.ready| && (Jumps(s, op) ==> j > 0)
    ensures !JumpsTo(s, op, s.ready[j])
  {
    Parts(s);
  }

  lemma {:induction false} QueuedRecord(trace: seq<State>, ops: seq<Op>, n: nat, k: nat)
    requires IsRun(trace, ops) && Inv(trace[0]) && n <= |ops| && k < |trace[0].ready| && JumpCount(trace, ops, n) <= k
    ensures var o := trace[0].ready[k]; o < |trace[0].crs| && o < |trace[n].crs| && trace[n].crs[o] == trace[0].crs[o]
  {
    if n == 0 {
      Parts(trace[0]);
    } else {
      var j := k - JumpCount(trace, ops, n - 1);
      QueuedRecord(trace, ops, n - 1, k);
      QueuePosition(trace, ops, n - 1, k);
      TraceInv(trace, ops, n - 1);
      RecordOn(trace[n - 1], ops[n - 1], trace[n], trace[0].ready[k], j);
    }
  }

  lemma TraceInv(trace: seq<State>, ops: seq<Op>, n: nat)
    requires IsRun(trace, ops) && Inv(trace[0]) && n <= |ops|
    ensures Inv(trace[n])
  {
    TraceRuns(trace, ops, n);
  }

  lemma RecordOn(s: State, op: Op, t: State, o: nat, j: nat)
    requires Inv(s) && Leads(s, op, t) && j < |s.ready| && s.ready[j] == o && (Jumps(s, op) ==> j > 0)
    ensures o < |s.crs| && o < |t.crs| && t.crs[o] == s.crs[o]
  {
    NotYet(s, op, j);
    StepRecord(s, op, t, o);
  }

  /** A coroutine that yields runs again at the jump behind those for everybody queued before it, and its
      call returns 0. The run begins when it has yielded. */
  lemma YieldReturns(s: State, now: int, trace: seq<State>, ops: seq<Op>, m: nat)
    requires Inv(s) && s.mode == Running && MayBlock(s)
    requires IsRun(trace, ops) && trace[0] == Step(s, CallYield(now)) && m < |ops|
    requires Jumps(trace[m], ops[m]) && JumpCount(trace, ops, m) == |s.ready|
    ensures trace[m + 1].running == s.running && Dispatch(trace[m]).1 == Returned(0, 0)
  {
    YieldSays(s, now);
    StepInv(s, CallYield(now));
    var k := |s.ready|;
    assert trace[0].ready[k] == s.running;
    RunsInTurn(trace, ops, m, k);
    QueuedRecord(trace, ops, m, k);
    QueuePosition(trace, ops, m, k);
    assert trace[m].ready[0] == s.running;
  }

  // ------------------------------------------------------------------ new and finished coroutines, new channels

  /** The child runs, and its parent is queued behind all others, with result 0. */
  ghost predicate Goes(s: State, t: State, r: Ret) {
    if MayBlock(s) then
      && r == Returned(0, 0) && t.mode == Running && t.running == |s.crs| && t.ready == s.ready + [s.running]
      && |t.crs| == |s.crs| + 1 && t.crs[|s.crs|].clauses == [] && !t.crs[|s.crs|].noBlocking
      && s.running < |s.crs| && t.crs[s.running].id == 0 && t.crs[s.running].err == 0
      && (forall o :: 0 <= o < |s.crs| && o != s.running ==> t.crs[o] == s.crs[o])
      && t.lists == s.lists && t.store == s.store && t.halves == s.halves
    else r == Returned(-1, ECANCELED) && t == s
  }

  lemma GoSays(s: State)
    requires Inv(s) && s.mode == Running
    ensures Goes(s, Step(s, CallGo), Go(s).1)
  {
    Parts(s);
  }

  /** A new channel has two ends that are open and not done, with nobody waiting at either; they are the
      ends of one channel. */
  lemma ChMakeSays(s: State)
    requires Inv(s) && s.mode == Running
    ensures var t, n := Step(s, CallChMake), |s.halves|;
      && |t.halves| == n + 2 && t.halves[..n] == s.halves && Pair(n, n + 1) && Pair(n + 1, n)
      && (forall h :: n <= h < n + 2 ==> !t.halves[h].done && !t.halves[h].closed && NobodyAt(t, h))
      && (forall k :: k in s.lists ==> k in t.lists && t.lists[k] == s.lists[k])
      && t == s.(halves := t.halves, lists := t.lists)
  {
    Parts(s);
  }

  /** A coroutine that has finished never runs again. */
  lemma {:induction false} FinishedForGood(s: State, now: int, ops: seq<Op>)
    requires Inv(s) && s.mode == Running
    ensures var t := Run(Step(s, Finish(now)), ops);
      !Runs(t, s.running) && s.running !in t.ready && s.running < |t.crs| && t.crs[s.running].clauses == []
    decreases |ops|
  {
    var u := Step(s, Finish(now));
    Parts(s);
    if ops != [] {
      var pre, op := ops[..|ops| - 1], ops[|ops| - 1];
      FinishedForGood(s, now, pre);
      StepInv(s, Finish(now));
      RunInv(u, pre);
      StepAside(Run(u, pre), op, s.running, 0);
    }
  }

  // ------------------------------------------------------------------ waiting for time and descriptors

  /** The running coroutine waits: it is neither queued nor does it run. */
  ghost predicate Sleeps(s: State, t: State) {
    && t.mode != Running && t.ready == s.ready && s.running < |s.crs| == |t.crs| && s.running !in s.ready
    && t.halves == s.halves
  }

  /** A coroutine that sleeps waits for nothing but a timer with its deadline, or for nothing at all. */
  ghost predicate WaitsForTime(s: State, t: State, deadline: int) {
    && Sleeps(s, t)
    && var n, o := |s.store|, s.running;
      if deadline < 0 then t.crs[o].clauses == [] && t.store == s.store
      else
        && t.store == s.store + [Clause(o, 1, Timers, deadline, [], Unfired)]
        && t.crs[o].clauses == [n] && n in On(t, Timers)
  }

  /** A coroutine that waits for a descriptor waits for it and for a timer with its deadline. */
  ghost predicate WaitsForFd(s: State, t: State, deadline: int) {
    && Sleeps(s, t)
    && var n, o := |s.store|, s.running;
      && |t.store| == n + (if deadline < 0 then 1 else 2) && t.store[..n] == s.store
      && t.store[n] == Clause(o, 1, Fds, 0, [], Unfired) && n in On(t, Fds)
      && (deadline >= 0 ==> t.store[n + 1] == Clause(o, 2, Timers, deadline, [], Unfired) && n + 1 in On(t, Timers))
      && t.crs[o].clauses == if deadline < 0 then [n] else [n + 1, n]
  }

  lemma SleepSays(s: State, deadline: int, now: int)
    requires Inv(s) && s.mode == Running
    ensures var t := Step(s, CallSleep(deadline, now)); if MayBlock(s) then WaitsForTime(s, t, deadline) else t == s
  {
    StepInv(s, CallSleep(deadline, now));
    if MayBlock(s) { SleepWaits(s, deadline, now, Step(s, CallSleep(deadline, now))); }
  }

  lemma FdWaitSays(s: State, deadline: int, now: int)
    requires Inv(s) && s.mode == Running
    ensures var t := Step(s, CallFdWait(deadline, now)); if MayBlock(s) then WaitsForFd(s, t, deadline) else t == s
  {
    StepInv(s, CallFdWait(deadline, now));
    if MayBlock(s) { FdWaits(s, deadline, now, Step(s, CallFdWait(deadline, now))); }
  }

  lemma SleepWaits(s: State, deadline: int, now: int, t: State)
    requires Inv(s) && s.mode == Running && Inv(t) && t == EnterWait(Block(s, 1, [], deadline), now)
    ensures WaitsForTime(s, t, deadline)
  {
    Parts(s);
    SleepBlocks(s, deadline);
    if deadline >= 0 { Listed(t, s.running, |s.store|); }
  }

  lemma FdWaits(s: State, deadline: int, now: int, t: State)
    requires Inv(s) && s.mode == Running && Inv(t) && t == EnterWait(Block(s, 1, [Request(Fds, [])], deadline), now)
    ensures WaitsForFd(s, t, deadline)
  {
    Parts(s);
    FdBlocks(s, deadline);
    Listed(t, s.running, |s.store|);
    if deadline >= 0 { Listed(t, s.running, |s.store| + 1); }
  }

  lemma SleepBlocks(s: State, deadline: int)
    requires s.running < |s.crs| && s.crs[s.running].clauses == []
    ensures var t, n, o := Block(s, 1, [], deadline), |s.store|, s.running;
      && t.mode == Suspending && t.ready == s.ready && t.halves == s.halves && |t.crs| == |s.crs| && t.running == o
      && if deadline < 0 then t.crs[o].clauses == [] && t.store == s.store
         else t.crs[o].clauses == [n] && t.store == s.store + [Clause(o, 1, Timers, deadline, [], Unfired)]
  {
    BlockOwns(s, 1, [], deadline);
    BlockStores(s, 1, [], deadline);
    BlockFrame(s, 1, [], deadline);
    var t, n := Block(s, 1, [], deadline), |s.store|;
    assert t.crs[s.running].clauses == if deadline < 0 then [] else [n];
  }

  lemma FdBlocks(s: State, deadline: int)
    requires s.running < |s.crs| && s.crs[s.running].clauses == []
    ensures var t, n, o := Block(s, 1, [Request(Fds, [])], deadline), |s.store|, s.running;
      && t.mode == Suspending && t.ready == s.ready && t.halves == s.halves && |t.crs| == |s.crs| && t.running == o
      && |t.store| == n + (if deadline < 0 then 1 else 2) && t.store[..n] == s.store
      && t.store[n] == Clause(o, 1, Fds, 0, [], Unfired)
      && (deadline >= 0 ==> t.store[n + 1] == Clause(o, 2, Timers, deadline, [], Unfired))
      && t.crs[o].clauses == if deadline < 0 then [n] else [n + 1, n]
  {
    var reqs := [Request(Fds, [])];
    BlockOwns(s, 1, reqs, deadline);
    BlockStores(s, 1, reqs, deadline);
    BlockFrame(s, 1, reqs, deadline);
    var t, n := Block(s, 1, reqs, deadline), |s.store|;
    assert t.store[n + 0] == Clause(s.running, 1 + 0, reqs[0].key, 0, reqs[0].val, Unfired);
    assert t.crs[s.running].clauses == if deadline < 0 then [n] else [n + 1, n];
  }

  /** A clause of a blocked coroutine is on its list. */
  lemma Listed(t: State, o: nat, c: nat)
    requires Inv(t) && IsBlocked(t, o) && c in t.crs[o].clauses
    ensures c < |t.store| && c in On(t, t.store[c].key)
  {
    Parts(t);
    assert Waiting(t, c);
  }

  // ------------------------------------------------------------------ calls that are refused

  /** The calls that may block. */
  ghost predicate Blocking(op: Op) {
    Channel(op) || op.CallGo? || op.CallYield? || op.CallSleep? || op.CallFdWait?
  }

  /** Where blocking is switched off all of them are refused, and do nothing. */
  lemma Refused(s: State, op: Op)
    requires s.mode == Running && s.running < |s.crs| && s.crs[s.running].noBlocking && Blocking(op)
    ensures Step(s, op) == s
    ensures Channel(op) ==> Answer(s, op) == Returned(-1, ECANCELED)
    ensures op.CallGo? ==> Go(s).1 == Returned(-1, ECANCELED)
    ensures op.CallYield? ==> Yield(s, op.now).1 == Returned(-1, ECANCELED)
  {
  }

  /** Blocking is switched for the running coroutine, and nothing else happens. */
  lemma NoBlockingSays(s: State, on: bool)
    requires Inv(s) && s.mode == Running
    ensures var t := Step(s, CallNoBlocking(on));
      && (MayBlock(t) <==> !on) && t == s.(crs := t.crs) && |t.crs| == |s.crs|
      && (forall o :: 0 <= o < |s.crs| && o != s.running ==> t.crs[o] == s.crs[o])
  {
    Parts(s);
  }
}
