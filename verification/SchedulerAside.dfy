/** What a step leaves alone: the clauses of a coroutine that does not run, and the clauses that are on
    no list any more. */
module SchedulerAside {
  import opened Scheduler
  import opened SchedulerTrigger
  import opened SchedulerMeet
  import opened SchedulerBlock
  import opened SchedulerDrain
  import opened SchedulerSteps
  import opened SchedulerRuns

  /** Clause `c` is on no list. */
  ghost predicate Off(s: State, c: nat) {
    c < |s.store| && forall k :: k in s.lists ==> c !in s.lists[k]
  }

  /** What happens between `s` and `t` does not concern coroutine `o`, unless it waits and a clause of
      its fires, nor a clause `c` that is on no list. */
  ghost predicate Aside(s: State, t: State, o: nat, c: nat) {
    && (o < |s.crs| ==> o < |t.crs| && t.crs[o].clauses == s.crs[o].clauses)
    && (o < |s.crs| && o != s.running ==> o != t.running)
    && (o < |s.crs| && o !in s.ready && s.crs[o].clauses == [] ==> o !in t.ready)
    && (o < |s.crs| && o in s.ready ==> o in t.ready && t.crs[o] == s.crs[o])
    && (Off(s, c) ==> Off(t, c) && t.store[c] == s.store[c])
  }

  lemma AsideTwice(s: State, t: State, u: State, o: nat, c: nat)
    requires Aside(s, t, o, c) && Aside(t, u, o, c)
    ensures Aside(s, u, o, c)
  {
  }

  lemma TriggerAside(s: State, d: nat, err: int, o: nat, c: nat)
    requires d < |s.store| && ListOk(s, s.store[d].key, d) && (Off(s, c) ==> c != d)
    ensures Aside(s, Trigger(s, d, err), o, c)
  {
    var t, cs := Trigger(s, d, err), ToSet(s.crs[s.store[d].cr].clauses);
    forall k | k in t.lists && Off(s, c) ensures c !in t.lists[k] {
      DropIn(s.lists[k], cs);
    }
  }

  lemma FireAside(s: State, k: Key, d: nat, err: int, o: nat, c: nat)
    requires Firing(s) && k in s.lists && d in s.lists[k]
    ensures Firing(Trigger(s, d, err)) && Aside(s, Trigger(s, d, err), o, c)
    ensures Trigger(s, d, err).lists.Keys == s.lists.Keys
    ensures |Trigger(s, d, err).lists[k]| < |s.lists[k]|
  {
    TriggerFiring(s, k, d, err);
    TriggerAside(s, d, err, o, c);
  }

  lemma {:induction false} DrainAside(s: State, k: Key, err: int, o: nat, c: nat)
    requires Firing(s) && k in s.lists
    ensures Aside(s, Drain(s, k, err), o, c)
    decreases |On(s, k)|
  {
    if On(s, k) != [] {
      var t := Trigger(s, On(s, k)[0], err);
      FireAside(s, k, On(s, k)[0], err, o, c);
      DrainAside(t, k, err, o, c);
      AsideTwice(s, t, Drain(t, k, err), o, c);
    }
  }

  lemma {:induction false} ExpireAside(s: State, now: int, o: nat, c: nat)
    requires Firing(s) && Timers in s.lists
    ensures Aside(s, Expire(s, now), o, c)
    decreases |On(s, Timers)|
  {
    if Due(s, now) {
      var t := Trigger(s, On(s, Timers)[0], ETIMEDOUT);
      FireAside(s, Timers, On(s, Timers)[0], ETIMEDOUT, o, c);
      ExpireAside(t, now, o, c);
      AsideTwice(s, t, Expire(t, now), o, c);
    }
  }

  lemma {:induction false} FireAllAside(s: State, evs: seq<nat>, o: nat, c: nat)
    requires Firing(s) && Fds in s.lists
    ensures Aside(s, FireAll(s, evs), o, c)
    decreases |evs|
  {
    if evs != [] {
      var t := if evs[0] in On(s, Fds) then Trigger(s, evs[0], 0) else s;
      if evs[0] in On(s, Fds) { FireAside(s, Fds, evs[0], 0, o, c); }
      FireAllAside(t, evs[1..], o, c);
      AsideTwice(s, t, FireAll(t, evs[1..]), o, c);
    }
  }

  lemma DrainHalfAside(s: State, ch: nat, o: nat, c: nat)
    requires Draining(s) && In(ch) in s.lists && Out(ch) in s.lists
    ensures Aside(s, DrainHalf(s, ch), o, c)
  {
    DrainingParts(s);
    DrainKeeps(s, In(ch), EPIPE);
    DrainAside(s, In(ch), EPIPE, o, c);
    var t := Drain(s, In(ch), EPIPE);
    DrainingParts(t);
    DrainAside(t, Out(ch), EPIPE, o, c);
    AsideTwice(s, t, DrainHalf(s, ch), o, c);
  }

  lemma MeetAside(s: State, d: nat, mine: Key, id: int, val: Bytes, o: nat, c: nat)
    requires d < |s.store| && ListOk(s, s.store[d].key, d) && (Off(s, c) ==> c != d)
    ensures Aside(s, Meet(s, d, mine, id, val), o, c)
  {
    var s1 := s.(store := s.store[d := s.store[d].(val := val)]);
    assert Off(s, c) ==> Off(s1, c);
    TriggerAside(s1, d, 0, o, c);
  }

  lemma TryNowAside(s: State, mine: Key, id: int, val: Bytes, o: nat, c: nat)
    requires Base(s) && Clauses(s) && (mine.In? || mine.Out?)
    ensures Aside(s, TryNow(s, mine, id, val).0, o, c)
  {
    if !IsDone(s, mine.ch) && On(s, Peer(mine)) != [] {
      var d := On(s, Peer(mine))[0];
      assert ListOk(s, Peer(mine), d);
      if |val| != Len(s, d) {
        TriggerAside(s, d, EMSGSIZE, o, c);
      } else {
        MeetAside(s, d, mine, id, if mine.Out? then val else Val(s, d), o, c);
      }
    }
  }

  lemma {:induction false} ScanAside(s: State, cls: seq<Choice>, i: nat, o: nat, c: nat)
    requires Base(s) && Clauses(s)
    ensures Aside(s, Scan(s, cls, i).0, o, c)
    decreases |cls| - i
  {
    if i < |cls| && IsOpen(s, cls[i].h) && !cls[i].Malformed? {
      TryNowAside(s, ChoiceKey(cls[i]), i, cls[i].val, o, c);
      if TryNow(s, ChoiceKey(cls[i]), i, cls[i].val).1 == Blocks { ScanAside(s, cls, i + 1, o, c); }
    }
  }

  lemma AddAside(s: State, id: int, key: Key, deadline: int, val: Bytes, o: nat, c: nat)
    requires o != s.running
    ensures Aside(s, AddClause(s, id, key, deadline, val), o, c)
  {
    var t := AddClause(s, id, key, deadline, val);
    if key == Timers { TimerInsertIn(t.store, On(s, key), |s.store|); }
  }

  lemma {:induction false} AddAllAside(s: State, id: int, reqs: seq<Request>, o: nat, c: nat)
    requires o != s.running
    ensures Aside(s, AddAll(s, id, reqs), o, c) && AddAll(s, id, reqs).running == s.running
    decreases |reqs|
  {
    if reqs != [] {
      var t := AddClause(s, id, reqs[0].key, 0, reqs[0].val);
      AddAside(s, id, reqs[0].key, 0, reqs[0].val, o, c);
      AddAllAside(t, id + 1, reqs[1..], o, c);
      AsideTwice(s, t, AddAll(s, id, reqs), o, c);
    }
  }

  lemma BlockAside(s: State, id: int, reqs: seq<Request>, deadline: int, now: int, o: nat, c: nat)
    requires o != s.running
    ensures Aside(s, EnterWait(Block(s, id, reqs, deadline), now), o, c)
  {
    var s1 := s.(mode := Suspending);
    var t := AddAll(s1, id, reqs);
    AddAllAside(s1, id, reqs, o, c);
    AsideTwice(s, s1, t, o, c);
    var u := AddTimer(t, id + |reqs|, deadline);
    if deadline >= 0 { AddAside(t, id + |reqs|, Timers, deadline, [], o, c); }
    AsideTwice(s, t, u, o, c);
    AsideTwice(s, u, EnterWait(u, now), o, c);
  }

  lemma ExchangeAside(s: State, mine: Key, h: nat, val: Bytes, deadline: int, now: int, o: nat, c: nat)
    requires Inv(s) && (mine.In? || mine.Out?) && o != s.running
    ensures Aside(s, AndWait(Exchange(s, mine, h, val, deadline), now), o, c)
  {
    Parts(s);
    var r := Exchange(s, mine, h, val, deadline);
    if r.1 == Blocks {
      BlockFrame(s, 0, [Request(mine, val)], deadline);
      BlockAside(s, 0, [Request(mine, val)], deadline, now, o, c);
    } else {
      TryNowAside(s, mine, 0, val, o, c);
    }
  }

  lemma ChooseAside(s: State, cls: seq<Choice>, deadline: int, now: int, o: nat, c: nat)
    requires Inv(s) && s.mode == Running && o != s.running
    ensures Aside(s, AndWait(Choose(s, cls, deadline), now), o, c)
  {
    Parts(s);
    var r := Choose(s, cls, deadline);
    if r.1 == Blocks {
      BlockFrame(s, 0, ToRequests(cls), deadline);
      BlockAside(s, 0, ToRequests(cls), deadline, now, o, c);
    } else {
      ScanAside(s, cls, 0, o, c);
    }
  }

  lemma ChDoneAside(s: State, h: nat, o: nat, c: nat)
    requires Inv(s) && s.mode == Running
    ensures Aside(s, ChDone(s, h).0, o, c)
  {
    var ch := Other(h);
    if IsOpen(s, h) && !IsDone(s, ch) && ch < |s.halves| {
      FlagsKeep(s, ch, s.halves[ch].(done := true));
      HalfKeys(s, ch);
      DrainHalfAside(SetHalf(s, ch, s.halves[ch].(done := true)), ch, o, c);
    }
  }

  lemma HCloseAside(s: State, h: nat, o: nat, c: nat)
    requires Inv(s) && s.mode == Running
    ensures Aside(s, HClose(s, h).0, o, c)
  {
    if IsOpen(s, h) && !IsOpen(s, Other(h)) {
      FlagsKeep(s, h, s.halves[h].(closed := true));
      HalfKeys(s, h);
      HalfKeys(s, Other(h));
      var first := if h % 2 == 1 then h - 1 else h;
      var t := SetHalf(s, h, s.halves[h].(closed := true));
      FlagsAside(s, h, s.halves[h].(closed := true), o, c);
      DrainBothAside(t, first, o, c);
      LastClose(s, h, t, first, o, c);
    }
  }

  lemma FlagsAside(s: State, h: nat, half: Half, o: nat, c: nat)
    ensures Aside(s, SetHalf(s, h, half), o, c)
  {
  }

  lemma LastClose(s: State, h: nat, t: State, first: nat, o: nat, c: nat)
    requires IsOpen(s, h) && !IsOpen(s, Other(h)) && t == SetHalf(s, h, s.halves[h].(closed := true))
    requires first == (if h % 2 == 1 then h - 1 else h) && Aside(s, t, o, c)
    requires Aside(t, DrainHalf(DrainHalf(t, first), first + 1), o, c)
    ensures Aside(s, HClose(s, h).0, o, c)
  {
    AsideTwice(s, t, DrainHalf(DrainHalf(t, first), first + 1), o, c);
  }

  lemma DrainBothAside(t: State, ch: nat, o: nat, c: nat)
    requires Draining(t) && In(ch) in t.lists && Out(ch) in t.lists && In(ch + 1) in t.lists && Out(ch + 1) in t.lists
    ensures Aside(t, DrainHalf(DrainHalf(t, ch), ch + 1), o, c)
  {
    var u := DrainHalf(t, ch);
    DrainHalfAside(t, ch, o, c);
    DrainHalfKeeps(t, ch);
    DrainHalfAside(u, ch + 1, o, c);
    AsideTwice(t, u, DrainHalf(u, ch + 1), o, c);
  }

  lemma GoAside(s: State, o: nat, c: nat)
    requires o != s.running
    ensures Aside(s, Go(s).0, o, c)
  {
  }

  lemma CallAside(s: State, op: Op, o: nat, c: nat)
    requires Inv(s) && s.mode == Running && o != s.running
    ensures Aside(s, Call(s, op), o, c)
  {
    match op
    case CallGo => GoAside(s, o, c);
    case CallSend(h, val, deadline, now) => ExchangeAside(s, Out(Other(h)), h, val, deadline, now, o, c);
    case CallRecv(h, val, deadline, now) => ExchangeAside(s, In(h), h, val, deadline, now, o, c);
    case CallChoose(cls, deadline, now) => ChooseAside(s, cls, deadline, now, o, c);
    case CallChDone(h) => ChDoneAside(s, h, o, c);
    case CallHClose(h) => HCloseAside(s, h, o, c);
    case CallSleep(deadline, now) => BlockAside(s, 1, [], deadline, now, o, c);
    case CallFdWait(deadline, now) => BlockAside(s, 1, [Request(Fds, [])], deadline, now, o, c);
    case _ =>
  }

  predicate Runs(s: State, o: nat) {
    s.mode == Running && s.running == o
  }

  /** The step jumps to coroutine `o`. */
  predicate JumpsTo(s: State, op: Op, o: nat) {
    Jumps(s, op) && s.ready != [] && s.ready[0] == o
  }

  lemma PollAside(s: State, now: int, evs: seq<nat>, o: nat, c: nat)
    requires Inv(s) && s.mode.Polling?
    ensures Aside(s, Poll(s, now, evs), o, c)
  {
    Parts(s);
    FireAllAside(s, evs, o, c);
    FireAllKeeps(s, evs);
    var t := FireAll(s, evs);
    Parts(t);
    ExpireAside(t, now, o, c);
    AsideTwice(s, t, Expire(t, now), o, c);
  }

  lemma DispatchAside(s: State, o: nat, c: nat)
    requires Inv(s) && s.mode == Dispatching && (s.ready != [] ==> s.ready[0] != o)
    ensures Aside(s, Dispatch(s).0, o, c) && !Runs(Dispatch(s).0, o)
  {
    Parts(s);
  }

  /** A coroutine that does not run keeps its clauses until it is jumped to, and what is on no list
      stays as it is. */
  lemma StepAside(s: State, op: Op, o: nat, c: nat)
    requires Inv(s) && !Runs(s, o) && !JumpsTo(s, op, o)
    ensures Aside(s, Step(s, op), o, c) && (o < |s.crs| ==> !Runs(Step(s, op), o))
  {
    match s.mode
    case Running => CallAside(s, op, o, c);
    case Polling(_) =>
      if op.PollOnce? {
        PollAside(s, op.now, op.evs, o, c);
        PollInv(s, op.now, op.evs);
      }
    case Dispatching => if op.Jump? { DispatchAside(s, o, c); }
    case Suspending =>
  }
}
