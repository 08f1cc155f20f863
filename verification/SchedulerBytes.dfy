/** What becomes of the bytes: a send carries what its caller passed until it is completed, and nothing
    but a completed transfer fills a buffer. */
module SchedulerBytes {
  import opened Scheduler
  import opened SchedulerMeet
  import opened SchedulerBlock
  import opened SchedulerDrain
  import opened SchedulerSteps
  import opened SchedulerRuns

  /** A clause keeps its owner, number, list and deadline; what has happened to it is final; and its
      bytes change only when a waiting receive is completed. */
  ghost predicate Stays(was: Clause, now: Clause) {
    && now.cr == was.cr && now.id == was.id && now.key == was.key && now.deadline == was.deadline
    && |now.val| == |was.val| && (was.status.Fired? ==> now.status == was.status)
    && (now.val != was.val ==> was.key.In? && was.status == Unfired && now.status == Fired(0))
  }

  ghost predicate Keeps(was: seq<Clause>, now: seq<Clause>) {
    |was| <= |now| && forall c :: 0 <= c < |was| ==> Stays(was[c], now[c])
  }

  predicate OnChannel(k: Key) {
    k.In? || k.Out?
  }

  /** The clauses issued in between are those of coroutine `o`, and the sends and receives among them
      have the numbers, the lists and the bytes that were `asked` for. */
  ghost predicate Issued(was: seq<Clause>, now: seq<Clause>, o: nat, asked: (int, Key, Bytes) -> bool) {
    && Keeps(was, now)
    && forall c :: |was| <= c < |now| ==>
        now[c].cr == o && (OnChannel(now[c].key) ==> asked(now[c].id, now[c].key, now[c].val))
  }

  lemma KeepsTwice(a: seq<Clause>, b: seq<Clause>, c: seq<Clause>)
    requires Keeps(a, b) && Keeps(b, c)
    ensures Keeps(a, c)
  {
    forall i | 0 <= i < |a| ensures Stays(a[i], c[i]) {
      assert Stays(a[i], b[i]) && Stays(b[i], c[i]);
    }
  }

  // ------------------------------------------------------------------ firing

  lemma TriggerKeeps(s: State, c: nat, err: int)
    requires c < |s.store| && s.store[c].status == Unfired
    ensures Keeps(s.store, Trigger(s, c, err).store) && |Trigger(s, c, err).store| == |s.store|
  {
  }

  lemma {:induction false} DrainKept(s: State, k: Key, err: int)
    requires Firing(s) && k in s.lists
    ensures Keeps(s.store, Drain(s, k, err).store) && |Drain(s, k, err).store| == |s.store|
    decreases |On(s, k)|
  {
    if On(s, k) != [] {
      var c := On(s, k)[0];
      TriggerFiring(s, k, c, err);
      TriggerKeeps(s, c, err);
      var t := Trigger(s, c, err);
      DrainKept(t, k, err);
      KeepsTwice(s.store, t.store, Drain(t, k, err).store);
    }
  }

  lemma {:induction false} ExpireKept(s: State, now: int)
    requires Firing(s) && Timers in s.lists
    ensures Keeps(s.store, Expire(s, now).store) && |Expire(s, now).store| == |s.store|
    decreases |On(s, Timers)|
  {
    if Due(s, now) {
      var c := On(s, Timers)[0];
      TriggerFiring(s, Timers, c, ETIMEDOUT);
      TriggerKeeps(s, c, ETIMEDOUT);
      var t := Trigger(s, c, ETIMEDOUT);
      ExpireKept(t, now);
      KeepsTwice(s.store, t.store, Expire(t, now).store);
    }
  }

  lemma {:induction false} FireAllKept(s: State, evs: seq<nat>)
    requires Firing(s) && Fds in s.lists
    ensures Keeps(s.store, FireAll(s, evs).store) && |FireAll(s, evs).store| == |s.store|
    decreases |evs|
  {
    if evs != [] {
      if evs[0] in On(s, Fds) {
        TriggerFiring(s, Fds, evs[0], 0);
        TriggerKeeps(s, evs[0], 0);
        var t := Trigger(s, evs[0], 0);
        FireAllKept(t, evs[1..]);
        KeepsTwice(s.store, t.store, FireAll(t, evs[1..]).store);
      } else {
        FireAllKept(s, evs[1..]);
      }
    }
  }

  lemma DrainHalfKept(s: State, ch: nat)
    requires Draining(s) && In(ch) in s.lists && Out(ch) in s.lists
    ensures Keeps(s.store, DrainHalf(s, ch).store) && |DrainHalf(s, ch).store| == |s.store|
  {
    DrainingParts(s);
    DrainKept(s, In(ch), EPIPE);
    DrainKeeps(s, In(ch), EPIPE);
    var t := Drain(s, In(ch), EPIPE);
    DrainingParts(t);
    DrainKept(t, Out(ch), EPIPE);
    KeepsTwice(s.store, t.store, DrainHalf(s, ch).store);
  }

  // ------------------------------------------------------------------ serving and registering

  /** A rendezvous in which the sender's bytes go to the receiver. */
  lemma MeetBytes(s: State, c: nat, mine: Key, id: int, val: Bytes)
    requires (mine.In? || mine.Out?) && ListOk(s, Peer(mine), c) && |val| == |s.store[c].val|
    requires mine.In? ==> val == s.store[c].val
    ensures Issued(s.store, Meet(s, c, mine, id, val).store, s.running, (i, k, v) => i == id && k == mine && v == val)
    ensures Completed(s.store, Meet(s, c, mine, id, val).store, c, mine, val)
  {
    var t := Meet(s, c, mine, id, val).store;
    MeetCompletes(s, c, mine, id, val);
    assert t[|s.store|] == Clause(s.running, id, mine, 0, val, Fired(0));
  }

  /** What the `id`-th clause of a call has done that was served at once: it and the first clause
      waiting on the other side are completed with the bytes of the sender, which are those its caller
      passed if it did not wait; no other clause has changed. */
  ghost predicate Delivered(s: State, t: State, mine: Key, id: int, val: Bytes)
    requires mine.In? || mine.Out?
  {
    && On(s, Peer(mine)) != []
    && var c := On(s, Peer(mine))[0];
      && c < |s.store| && |s.store[c].val| == |val|
      && Completed(s.store, t.store, c, mine, if mine.Out? then val else s.store[c].val)
      && t.store[|s.store|].id == id && t.store[|s.store|].cr == s.running
  }

  /** One clause was asked for: a send carries its bytes, a receive has a buffer of that length. */
  ghost function Asked(id: int, mine: Key, val: Bytes): (int, Key, Bytes) -> bool {
    (i, k, v) => i == id && k == mine && |v| == |val| && (mine.Out? ==> v == val)
  }

  lemma TryNowBytes(s: State, mine: Key, id: int, val: Bytes)
    requires Inv(s) && s.mode == Running && (mine.In? || mine.Out?) && mine.ch < |s.halves|
    ensures Issued(s.store, TryNow(s, mine, id, val).0.store, s.running, Asked(id, mine, val))
    ensures TryNow(s, mine, id, val).1 == Returned(0, 0) ==> Delivered(s, TryNow(s, mine, id, val).0, mine, id, val)
  {
    if !IsDone(s, mine.ch) && On(s, Peer(mine)) != [] {
      var c := On(s, Peer(mine))[0];
      HeadWaits(s, Peer(mine));
      if |val| != Len(s, c) {
        TriggerKeeps(s, c, EMSGSIZE);
      } else {
        MeetDelivers(s, c, mine, id, val);
      }
    }
  }

  lemma HeadWaits(s: State, k: Key)
    requires Inv(s) && On(s, k) != []
    ensures ListOk(s, k, On(s, k)[0])
  {
    Parts(s);
  }

  lemma MeetDelivers(s: State, c: nat, mine: Key, id: int, val: Bytes)
    requires (mine.In? || mine.Out?) && On(s, Peer(mine)) != [] && c == On(s, Peer(mine))[0]
    requires ListOk(s, Peer(mine), c) && |val| == |s.store[c].val|
    ensures var t := Meet(s, c, mine, id, if mine.Out? then val else Val(s, c));
      Issued(s.store, t.store, s.running, Asked(id, mine, val)) && Delivered(s, t, mine, id, val)
  {
    var v := if mine.Out? then val else Val(s, c);
    MeetBytes(s, c, mine, id, v);
  }

  /** Registering stores the bytes of every request. */
  lemma {:induction false} AddAllStores(s: State, id: int, reqs: seq<Request>)
    requires s.running < |s.crs|
    ensures var t := AddAll(s, id, reqs);
      && |t.store| == |s.store| + |reqs| && t.store[..|s.store|] == s.store && t.running == s.running
      && |t.crs| == |s.crs|
      && forall i :: 0 <= i < |reqs| ==>
          t.store[|s.store| + i] == Clause(s.running, id + i, reqs[i].key, 0, reqs[i].val, Unfired)
    decreases |reqs|
  {
    if reqs != [] {
      var t := AddClause(s, id, reqs[0].key, 0, reqs[0].val);
      AddAllStores(t, id + 1, reqs[1..]);
      var u := AddAll(s, id, reqs);
      assert u.store[..|s.store|] == t.store[..|s.store|];
      forall i | 0 <= i < |reqs|
        ensures u.store[|s.store| + i] == Clause(s.running, id + i, reqs[i].key, 0, reqs[i].val, Unfired)
      {
        if i == 0 {
          assert u.store[..|t.store|][|s.store|] == t.store[|s.store|];
        } else {
          assert u.store[|t.store| + (i - 1)] ==
            Clause(s.running, id + 1 + (i - 1), reqs[1..][i - 1].key, 0, reqs[1..][i - 1].val, Unfired);
        }
      }
    }
  }

  /** Blocking stores the bytes of every request, and a timer behind them. */
  lemma BlockStores(s: State, id: int, reqs: seq<Request>, deadline: int)
    requires s.running < |s.crs|
    ensures var n, t := |s.store|, Block(s, id, reqs, deadline);
      && |t.store| == n + |reqs| + (if deadline < 0 then 0 else 1) && t.store[..n] == s.store
      && (forall i :: 0 <= i < |reqs| ==>
            t.store[n + i] == Clause(s.running, id + i, reqs[i].key, 0, reqs[i].val, Unfired))
      && (deadline >= 0 ==> t.store[n + |reqs|] == Clause(s.running, id + |reqs|, Timers, deadline, [], Unfired))
  {
    var u := AddAll(s.(mode := Suspending), id, reqs);
    AddAllStores(s.(mode := Suspending), id, reqs);
    assert Block(s, id, reqs, deadline).store[..|u.store|] == u.store;
  }

  lemma KeepsPrefix(was: seq<Clause>, now: seq<Clause>)
    requires |was| <= |now| && now[..|was|] == was
    ensures Keeps(was, now)
  {
    forall c | 0 <= c < |was| ensures Stays(was[c], now[c]) {
      assert now[..|was|][c] == now[c];
    }
  }

  lemma BlockBytes(s: State, mine: Key, val: Bytes, deadline: int)
    requires s.running < |s.crs|
    ensures Issued(s.store, Block(s, 0, [Request(mine, val)], deadline).store, s.running, Asked(0, mine, val))
  {
    var reqs := [Request(mine, val)];
    var t := Block(s, 0, reqs, deadline);
    BlockStores(s, 0, reqs, deadline);
    KeepsPrefix(s.store, t.store);
    assert t.store[|s.store| + 0] == Clause(s.running, 0, reqs[0].key, 0, reqs[0].val, Unfired);
  }

  // ------------------------------------------------------------------ the calls

  lemma ExchangeBytes(s: State, mine: Key, h: nat, val: Bytes, deadline: int)
    requires Inv(s) && s.mode == Running && (mine.In? || mine.Out?) && (mine.ch == h || mine.ch == Other(h))
    ensures Issued(s.store, Exchange(s, mine, h, val, deadline).0.store, s.running, Asked(0, mine, val))
  {
    if CanBlock(s) && IsOpen(s, h) {
      Parts(s);
      OtherHalf(s, h);
      TryNowBytes(s, mine, 0, val);
      BlockBytes(s, mine, val, deadline);
    }
  }

  /** The choice with number `i` is a send of `v` on `k`, or a receive of so many bytes. */
  ghost predicate Offered(cls: seq<Choice>, i: int, k: Key, v: Bytes) {
    && 0 <= i < |cls| && !cls[i].Malformed? && k == ChoiceKey(cls[i])
    && |v| == |cls[i].val| && (cls[i].SendOn? ==> v == cls[i].val)
  }

  ghost function Offers(cls: seq<Choice>): (int, Key, Bytes) -> bool {
    (i, k, v) => Offered(cls, i, k, v)
  }

  lemma IssuedMore(was: seq<Clause>, now: seq<Clause>, o: nat, a: (int, Key, Bytes) -> bool,
      b: (int, Key, Bytes) -> bool)
    requires Issued(was, now, o, a) && forall i, k, v :: a(i, k, v) ==> b(i, k, v)
    ensures Issued(was, now, o, b)
  {
  }

  lemma {:induction false} ScanBytes(s: State, cls: seq<Choice>, i: nat)
    requires Inv(s) && s.mode == Running && i <= |cls|
    ensures Issued(s.store, Scan(s, cls, i).0.store, s.running, Offers(cls))
    decreases |cls| - i
  {
    if i < |cls| && IsOpen(s, cls[i].h) && !cls[i].Malformed? {
      Parts(s);
      OtherHalf(s, cls[i].h);
      var mine := ChoiceKey(cls[i]);
      TryNowBytes(s, mine, i, cls[i].val);
      if TryNow(s, mine, i, cls[i].val).1 == Blocks {
        ScanBytes(s, cls, i + 1);
      } else {
        IssuedMore(s.store, TryNow(s, mine, i, cls[i].val).0.store, s.running, Asked(i, mine, cls[i].val), Offers(cls));
      }
    }
  }

  lemma ChooseBytes(s: State, cls: seq<Choice>, deadline: int)
    requires Inv(s) && s.mode == Running
    ensures Issued(s.store, Choose(s, cls, deadline).0.store, s.running, Offers(cls))
  {
    if CanBlock(s) {
      ScanBytes(s, cls, 0);
      if Scan(s, cls, 0).1 == Blocks && deadline != 0 {
        ScanBlocks(s, cls, 0);
        BlockAllBytes(s, cls, deadline);
      }
    }
  }

  lemma BlockAllBytes(s: State, cls: seq<Choice>, deadline: int)
    requires s.running < |s.crs| && forall i :: 0 <= i < |cls| ==> !cls[i].Malformed?
    ensures Issued(s.store, Block(s, 0, ToRequests(cls), deadline).store, s.running, Offers(cls))
  {
    var reqs := ToRequests(cls);
    var t := Block(s, 0, reqs, deadline);
    BlockStores(s, 0, reqs, deadline);
    KeepsPrefix(s.store, t.store);
    forall c | |s.store| <= c < |t.store|
      ensures t.store[c].cr == s.running
      ensures OnChannel(t.store[c].key) ==> Offered(cls, t.store[c].id, t.store[c].key, t.store[c].val)
    {
      var j := c - |s.store|;
      if j < |reqs| {
        assert t.store[|s.store| + j] == Clause(s.running, 0 + j, reqs[j].key, 0, reqs[j].val, Unfired);
        assert !cls[j].Malformed?;
      }
    }
  }

  /** Choices that all have to wait are well-formed. */
  lemma {:induction false} ScanBlocks(s: State, cls: seq<Choice>, i: nat)
    requires Scan(s, cls, i).1 == Blocks
    ensures forall j :: i <= j < |cls| ==> !cls[j].Malformed?
    decreases |cls| - i
  {
    if i < |cls| { ScanBlocks(s, cls, i + 1); }
  }

  lemma ChDoneBytes(s: State, h: nat)
    requires Inv(s) && s.mode == Running
    ensures Keeps(s.store, ChDone(s, h).0.store) && |ChDone(s, h).0.store| == |s.store|
  {
    if IsOpen(s, h) && !IsDone(s, Other(h)) && Other(h) < |s.halves| {
      var ch := Other(h);
      FlagsKeep(s, ch, s.halves[ch].(done := true));
      HalfKeys(s, ch);
      DrainHalfKept(SetHalf(s, ch, s.halves[ch].(done := true)), ch);
    }
  }

  lemma HCloseBytes(s: State, h: nat)
    requires Inv(s) && s.mode == Running
    ensures Keeps(s.store, HClose(s, h).0.store) && |HClose(s, h).0.store| == |s.store|
  {
    if IsOpen(s, h) && !IsOpen(s, Other(h)) {
      var t := SetHalf(s, h, s.halves[h].(closed := true));
      var first := if h % 2 == 1 then h - 1 else h;
      FlagsKeep(s, h, s.halves[h].(closed := true));
      HalfKeys(s, h);
      HalfKeys(s, Other(h));
      DrainBothKept(t, first);
      LastCloseKept(s, h, t, first);
    }
  }

  lemma LastCloseKept(s: State, h: nat, t: State, first: nat)
    requires IsOpen(s, h) && !IsOpen(s, Other(h)) && t == SetHalf(s, h, s.halves[h].(closed := true))
    requires first == if h % 2 == 1 then h - 1 else h
    requires var v := DrainHalf(DrainHalf(t, first), first + 1); Keeps(t.store, v.store) && |v.store| == |t.store|
    ensures Keeps(s.store, HClose(s, h).0.store) && |HClose(s, h).0.store| == |s.store|
  {
  }

  lemma DrainBothKept(t: State, ch: nat)
    requires Draining(t) && In(ch) in t.lists && Out(ch) in t.lists && In(ch + 1) in t.lists && Out(ch + 1) in t.lists
    ensures var v := DrainHalf(DrainHalf(t, ch), ch + 1); Keeps(t.store, v.store) && |v.store| == |t.store|
  {
    var u := DrainHalf(t, ch);
    DrainHalfKept(t, ch);
    DrainHalfKeeps(t, ch);
    DrainHalfKept(u, ch + 1);
    KeepsTwice(t.store, u.store, DrainHalf(u, ch + 1).store);
  }

  // ------------------------------------------------------------------ steps and runs

  /** The clauses of a call, in the order of their numbers. */
  function Wants(op: Op): seq<Choice> {
    match op
    case CallSend(h, val, _, _) => [SendOn(h, val)]
    case CallRecv(h, val, _, _) => [RecvOn(h, val)]
    case CallChoose(cls, _, _) => cls
    case _ => []
  }

  ghost predicate IssuedBy(was: seq<Clause>, now: seq<Clause>, o: nat, op: Op) {
    Issued(was, now, o, Offers(Wants(op)))
  }

  /** A send or a receive is a choice of one. */
  lemma OneBytes(s: State, cl: Choice, deadline: int)
    requires Inv(s) && s.mode == Running && !cl.Malformed?
    ensures Issued(s.store, Exchange(s, ChoiceKey(cl), cl.h, cl.val, deadline).0.store, s.running, Offers([cl]))
  {
    var mine := ChoiceKey(cl);
    var now := Exchange(s, mine, cl.h, cl.val, deadline).0.store;
    ExchangeBytes(s, mine, cl.h, cl.val, deadline);
    IssuedMore(s.store, now, s.running, Asked(0, mine, cl.val), Offers([cl]));
  }

  lemma CallBytes(s: State, op: Op)
    requires Inv(s) && s.mode == Running
    ensures IssuedBy(s.store, Call(s, op).store, s.running, op)
  {
    match op
    case CallSend(h, val, deadline, now) => OneBytes(s, SendOn(h, val), deadline);
    case CallRecv(h, val, deadline, now) => OneBytes(s, RecvOn(h, val), deadline);
    case CallChoose(cls, deadline, now) => ChooseBytes(s, cls, deadline);
    case CallChDone(h) => ChDoneBytes(s, h);
    case CallHClose(h) => HCloseBytes(s, h);
    case CallSleep(deadline, now) =>
      Parts(s);
      BlockStores(s, 1, [], deadline);
      KeepsPrefix(s.store, Block(s, 1, [], deadline).store);
    case CallFdWait(deadline, now) =>
      Parts(s);
      FdWaitBytes(s, deadline);
    case _ =>
  }

  lemma FdWaitBytes(s: State, deadline: int)
    requires s.running < |s.crs|
    ensures var t := Block(s, 1, [Request(Fds, [])], deadline).store;
      Keeps(s.store, t) && forall c :: |s.store| <= c < |t| ==> t[c].cr == s.running && !OnChannel(t[c].key)
  {
    var reqs := [Request(Fds, [])];
    BlockStores(s, 1, reqs, deadline);
    KeepsPrefix(s.store, Block(s, 1, reqs, deadline).store);
    assert Block(s, 1, reqs, deadline).store[|s.store| + 0] ==
      Clause(s.running, 1 + 0, reqs[0].key, 0, reqs[0].val, Unfired);
  }

  /** No step changes what a clause carries, but for the buffer of a receive that it completes; and
      the sends and receives it issues are those of the call, with their numbers and bytes. */
  lemma StepBytes(s: State, op: Op)
    requires Inv(s)
    ensures IssuedBy(s.store, Step(s, op).store, s.running, op)
  {
    match s.mode
    case Running => CallBytes(s, op);
    case Polling(_) =>
      if op.PollOnce? {
        Parts(s);
        FireAllKept(s, op.evs);
        FireAllKeeps(s, op.evs);
        var t := FireAll(s, op.evs);
        Parts(t);
        ExpireKept(t, op.now);
        KeepsTwice(s.store, t.store, Expire(t, op.now).store);
      }
    case Dispatching =>
    case Suspending =>
  }

  /** Over every run, what was sent stays what was sent, and what has happened stays as it was. */
  lemma {:induction false} RunBytes(s: State, ops: seq<Op>, n: nat)
    requires Inv(s) && n <= |ops|
    ensures Keeps(Run(s, ops[..n]).store, Run(s, ops).store)
    decreases |ops|
  {
    if n == |ops| {
      assert ops[..n] == ops;
    } else {
      var pre := ops[..|ops| - 1];
      assert pre[..n] == ops[..n];
      RunBytes(s, pre, n);
      RunInv(s, pre);
      StepBytes(Run(s, pre), ops[|ops| - 1]);
      KeepsTwice(Run(s, ops[..n]).store, Run(s, pre).store, Run(s, ops).store);
    }
  }

  /** Clause `c` was issued by the `n`-th operation of the run. */
  ghost predicate IssuedAt(s: State, ops: seq<Op>, n: nat, c: nat) {
    n < |ops| && |Run(s, ops[..n]).store| <= c < |Run(s, ops[..n + 1]).store|
  }

  /** Clause `c` is the `i`-th of the `n`-th operation, which has the list `k` and the bytes `v`. */
  ghost predicate AskedAt(s: State, ops: seq<Op>, n: nat, c: nat, i: int, k: Key, v: Bytes) {
    IssuedAt(s, ops, n, c) && Offered(Wants(ops[n]), i, k, v)
  }

  lemma LastBytes(s: State, ops: seq<Op>)
    requires Inv(s) && ops != []
    ensures var pre := ops[..|ops| - 1];
      IssuedBy(Run(s, pre).store, Run(s, ops).store, Run(s, pre).running, ops[|ops| - 1])
  {
    RunInv(s, ops[..|ops| - 1]);
    StepBytes(Run(s, ops[..|ops| - 1]), ops[|ops| - 1]);
  }

  /** What was asked in the first part of a run was asked in the run. */
  lemma AskedBefore(s: State, ops: seq<Op>, n: nat, c: nat, i: int, k: Key, v: Bytes)
    requires ops != [] && AskedAt(s, ops[..|ops| - 1], n, c, i, k, v)
    ensures AskedAt(s, ops, n, c, i, k, v)
  {
    var pre := ops[..|ops| - 1];
    assert pre[..n] == ops[..n] && pre[..n + 1] == ops[..n + 1];
  }

  /** Every send carries what the caller passed for the clause of that number to the call that issued
      it, and every receive is a clause of a call, with a buffer of that length. */
  lemma {:induction false} ClauseCarries(s: State, ops: seq<Op>, store: seq<Clause>, c: nat)
    requires Inv(s) && store == Run(s, ops).store && |s.store| <= c < |store| && OnChannel(store[c].key)
    ensures exists n: nat :: AskedAt(s, ops, n, c, store[c].id, store[c].key, store[c].val)
    decreases |ops|
  {
    var n := |ops| - 1;
    var pre := ops[..n];
    var before := Run(s, pre).store;
    LastBytes(s, ops);
    if c < |before| {
      assert Stays(before[c], store[c]);
      ClauseCarries(s, pre, before, c);
      var m: nat :| AskedAt(s, pre, m, c, before[c].id, before[c].key, before[c].val);
      AskedBefore(s, ops, m, c, store[c].id, before[c].key, before[c].val);
      assert AskedAt(s, ops, m, c, store[c].id, store[c].key, store[c].val);
    } else {
      assert ops[..n + 1] == ops;
      assert AskedAt(s, ops, n, c, store[c].id, store[c].key, store[c].val);
    }
  }

  lemma {:induction false} OkListOrdered(store: seq<Clause>, k: Key, n: nat, i: nat, j: nat)
    requires n <= |store| && i < j < |OkList(store, k, n)|
    ensures OkList(store, k, n)[i] < OkList(store, k, n)[j] < n
  {
    OkListIn(store, k, n);
    if j < |OkList(store, k, n - 1)| {
      OkListOrdered(store, k, n - 1, i, j);
    } else {
      OkListIn(store, k, n - 1);
    }
  }

  /** Over every run there are as many completed sends on a half-channel as completed receives. The
      i-th receive, in the order they were issued, has the bytes that the caller of the i-th send, in
      the order these were issued, passed for that clause. */
  lemma SendsMatchReceives(start: int, ops: seq<Op>, ch: nat, i: nat)
    requires ch < |Run(Initial(start), ops).halves|
    ensures var store := Run(Initial(start), ops).store;
      var sends, recvs := OkList(store, Out(ch), |store|), OkList(store, In(ch), |store|);
      && |sends| == |recvs|
      && (forall j, k :: 0 <= j < k < |sends| ==> sends[j] < sends[k] && recvs[j] < recvs[k])
      && (i < |sends| ==>
            && sends[i] < |store| && recvs[i] < |store|
            && exists n: nat ::
                AskedAt(Initial(start), ops, n, sends[i], store[sends[i]].id, Out(ch), store[recvs[i]].val))
  {
    InitialInv(start);
    RunInv(Initial(start), ops);
    Parts(Run(Initial(start), ops));
    var store := Run(Initial(start), ops).store;
    var sends, recvs := OkList(store, Out(ch), |store|), OkList(store, In(ch), |store|);
    assert Matched(store, ch);
    forall j, k | 0 <= j < k < |sends| ensures sends[j] < sends[k] && recvs[j] < recvs[k] {
      OkListOrdered(store, Out(ch), |store|, j, k);
      OkListOrdered(store, In(ch), |store|, j, k);
    }
    if i < |sends| {
      OkListIn(store, Out(ch), |store|);
      ClauseCarries(Initial(start), ops, store, sends[i]);
    }
  }
}
