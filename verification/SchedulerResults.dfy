/** What the channel calls tell their callers: whether they return at once or after a wait, a call
    reports success with the number of a clause if and only if that clause was completed. */
module SchedulerResults {
  import opened Marks
  import opened Scheduler
  import opened SchedulerMeet
  import opened SchedulerBlock
  import opened SchedulerSteps
  import opened SchedulerRuns
  import opened SchedulerBytes
  import opened SchedulerAside

  // ------------------------------------------------------------------ calls that return at once

  /** No send and no receive is completed, and no bytes change. */
  ghost predicate NothingMoved(was: seq<Clause>, now: seq<Clause>) {
    && |now| == |was|
    && forall c :: 0 <= c < |was| ==>
        && now[c] == was[c].(status := now[c].status)
        && (OnChannel(was[c].key) ==> (now[c].status == Fired(0) <==> was[c].status == Fired(0)))
  }

  /** What a call with these clauses has done when it returns `r` at once: with errno 0 it has completed
      the clause whose number it returns, together with the peer's, and no other; otherwise none. */
  ghost predicate AtOnce(s: State, t: State, cls: seq<Choice>, r: Ret)
    requires r.Returned?
  {
    if r.errno == 0 then
      && 0 <= r.rc < |cls| && !cls[r.rc].Malformed?
      && Delivered(s, t, ChoiceKey(cls[r.rc]), r.rc, cls[r.rc].val)
    else NothingMoved(s.store, t.store)
  }

  /** What is true of a call that has these clauses, if it does not wait. */
  ghost predicate Tells(s: State, cls: seq<Choice>, r: (State, Ret)) {
    r.1.Returned? ==> AtOnce(s, r.0, cls, r.1)
  }

  lemma TryNowTells(s: State, mine: Key, id: int, val: Bytes)
    requires Inv(s) && s.mode == Running && (mine.In? || mine.Out?) && mine.ch < |s.halves|
    ensures var (t, r) := TryNow(s, mine, id, val);
      if r == Blocks then t == s
      else if r.errno == 0 then r.rc == 0 && Delivered(s, t, mine, id, val)
      else r.rc == -1 && NothingMoved(s.store, t.store)
  {
    Parts(s);
    TryNowBytes(s, mine, id, val);
    if !IsDone(s, mine.ch) && On(s, Peer(mine)) != [] {
      assert ListOk(s, Peer(mine), On(s, Peer(mine))[0]);
    }
  }

  /** `dill_chsend` and `dill_chrecv` that do not wait. */
  lemma ExchangeTells(s: State, cl: Choice, deadline: int)
    requires Inv(s) && s.mode == Running && !cl.Malformed?
    ensures var r := Exchange(s, ChoiceKey(cl), cl.h, cl.val, deadline);
      Tells(s, [cl], r) && (r.1.Returned? ==> r.1.rc == if r.1.errno == 0 then 0 else -1)
  {
    Parts(s);
    if CanBlock(s) && IsOpen(s, cl.h) {
      OtherHalf(s, cl.h);
      TryNowTells(s, ChoiceKey(cl), 0, cl.val);
    }
  }

  lemma {:induction false} ScanTells(s: State, cls: seq<Choice>, i: nat)
    requires Inv(s) && Base(s) && s.mode == Running && i <= |cls|
    ensures var r := Scan(s, cls, i);
      Tells(s, cls, r) && (r.1.Returned? ==> i <= r.1.rc < |cls|)
    decreases |cls| - i
  {
    if i < |cls| && IsOpen(s, cls[i].h) && !cls[i].Malformed? {
      OtherHalf(s, cls[i].h);
      TryNowTells(s, ChoiceKey(cls[i]), i, cls[i].val);
      if TryNow(s, ChoiceKey(cls[i]), i, cls[i].val).1 == Blocks { ScanTells(s, cls, i + 1); }
    }
  }

  /** `dill_choose` that does not wait. */
  lemma ChooseTells(s: State, cls: seq<Choice>, deadline: int)
    requires Inv(s) && s.mode == Running
    ensures var r := Choose(s, cls, deadline);
      Tells(s, cls, r) && (r.1.Returned? ==> -1 <= r.1.rc < |cls|)
  {
    Parts(s);
    if CanBlock(s) { ScanTells(s, cls, 0); }
  }

  predicate Channel(op: Op) {
    op.CallSend? || op.CallRecv? || op.CallChoose?
  }

  /** What the call returns at once, if it does not wait. */
  function Answer(s: State, op: Op): Ret
    requires Channel(op)
  {
    match op
    case CallSend(h, val, deadline, _) => Send(s, h, val, deadline).1
    case CallRecv(h, val, deadline, _) => Recv(s, h, val, deadline).1
    case CallChoose(cls, deadline, _) => Choose(s, cls, deadline).1
  }

  /** Every channel call that does not wait. */
  lemma ServedAtOnce(s: State, op: Op)
    requires Inv(s) && s.mode == Running && Channel(op) && Answer(s, op).Returned?
    ensures AtOnce(s, Call(s, op), Wants(op), Answer(s, op))
  {
    match op
    case CallSend(h, val, deadline, _) => ExchangeTells(s, SendOn(h, val), deadline);
    case CallRecv(h, val, deadline, _) => ExchangeTells(s, RecvOn(h, val), deadline);
    case CallChoose(cls, deadline, _) => ChooseTells(s, cls, deadline);
  }

  // ------------------------------------------------------------------ calls that wait

  /** The numbers from `n + k - 1` down to `n`. */
  function Down(n: nat, k: nat): (r: seq<nat>)
    ensures |r| == k
  {
    seq(k, i requires 0 <= i < k => n + k - 1 - i)
  }

  lemma DownLess(n: nat, k: nat, rest: seq<nat>)
    requires k > 0
    ensures Down(n + 1, k - 1) + ([n] + rest) == Down(n, k) + rest
  {
  }

  function Timer(deadline: int): nat {
    if deadline < 0 then 0 else 1
  }

  lemma {:induction false} AddAllOwns(s: State, id: int, reqs: seq<Request>)
    requires s.running < |s.crs|
    ensures var t := AddAll(s, id, reqs);
      && t.running == s.running && |t.crs| == |s.crs| && |t.store| == |s.store| + |reqs|
      && t.crs[s.running].clauses == Down(|s.store|, |reqs|) + s.crs[s.running].clauses
    decreases |reqs|
  {
    if reqs != [] {
      var t := AddClause(s, id, reqs[0].key, 0, reqs[0].val);
      AddAllOwns(t, id + 1, reqs[1..]);
      DownLess(|s.store|, |reqs|, s.crs[s.running].clauses);
    } else {
      assert Down(|s.store|, 0) + s.crs[s.running].clauses == s.crs[s.running].clauses;
    }
  }

  lemma BlockOwns(s: State, id: int, reqs: seq<Request>, deadline: int)
    requires s.running < |s.crs| && s.crs[s.running].clauses == []
    ensures var t := Block(s, id, reqs, deadline);
      && s.running < |t.crs| && t.crs[s.running].clauses == Down(|s.store|, |reqs| + Timer(deadline))
  {
    var n := |s.store|;
    AddAllOwns(s.(mode := Suspending), id, reqs);
    assert Down(n, |reqs|) + [] == Down(n, |reqs|);
    assert [n + |reqs|] + Down(n, |reqs|) == Down(n, |reqs| + 1);
  }

  /** The clauses from serial number `n` on are those of a call of `o`, numbered from 0, and its timer. */
  ghost predicate Posted(store: seq<Clause>, o: nat, n: nat, cls: seq<Choice>, deadline: int) {
    && n + |cls| + Timer(deadline) <= |store|
    && (forall c :: n <= c < n + |cls| ==> PostedAs(store[c], o, cls, c - n))
    && (deadline >= 0 ==>
          var t := store[n + |cls|]; t.cr == o && t.key == Timers && t.id == |cls| && t.deadline == deadline)
  }

  ghost predicate PostedAs(cl: Clause, o: nat, cls: seq<Choice>, i: int) {
    cl.cr == o && cl.id == i && OnChannel(cl.key) && Offered(cls, i, cl.key, cl.val)
  }

  lemma PostedStays(was: seq<Clause>, now: seq<Clause>, o: nat, n: nat, cls: seq<Choice>, deadline: int)
    requires Posted(was, o, n, cls, deadline) && Keeps(was, now)
    ensures Posted(now, o, n, cls, deadline)
  {
    forall c | n <= c < n + |cls| ensures PostedAs(now[c], o, cls, c - n) {
      assert PostedAs(was[c], o, cls, c - n) && Stays(was[c], now[c]);
    }
    if deadline >= 0 { assert Stays(was[n + |cls|], now[n + |cls|]); }
  }

  lemma BlockPosts(s: State, cls: seq<Choice>, deadline: int)
    requires s.running < |s.crs| && forall i :: 0 <= i < |cls| ==> !cls[i].Malformed?
    ensures var t, n := Block(s, 0, ToRequests(cls), deadline).store, |s.store|;
      |t| == n + |cls| + Timer(deadline) && Posted(t, s.running, n, cls, deadline)
  {
    var reqs, n := ToRequests(cls), |s.store|;
    BlockStores(s, 0, reqs, deadline);
    var t := Block(s, 0, reqs, deadline).store;
    forall c | n <= c < n + |cls| ensures PostedAs(t[c], s.running, cls, c - n) {
      var i := c - n;
      assert t[n + i] == Clause(s.running, 0 + i, reqs[i].key, 0, reqs[i].val, Unfired);
    }
  }

  /** A send or receive asks as a choice of one does. */
  lemma OneRequest(cl: Choice)
    requires !cl.Malformed?
    ensures ToRequests([cl]) == [Request(ChoiceKey(cl), cl.val)]
  {
  }

  /** A call that waits has registered its clauses, and a timer if it has a deadline. */
  lemma CallBlocks(s: State, op: Op)
    requires Inv(s) && s.mode == Running && Channel(op) && Answer(s, op) == Blocks
    ensures Call(s, op) == EnterWait(Block(s, 0, ToRequests(Wants(op)), op.deadline), op.now)
    ensures op.deadline != 0 && forall i :: 0 <= i < |Wants(op)| ==> !Wants(op)[i].Malformed?
  {
    BlockFrame(s, 0, ToRequests(Wants(op)), op.deadline);
    match op
    case CallSend(h, val, _, _) => OneRequest(SendOn(h, val));
    case CallRecv(h, val, _, _) => OneRequest(RecvOn(h, val));
    case CallChoose(cls, _, _) => ScanBlocks(s, cls, 0);
  }

  /** The state of a coroutine that waits in such a call. */
  ghost predicate Waits(t: State, o: nat, n: nat, cls: seq<Choice>, deadline: int) {
    && o < |t.crs| && t.crs[o].clauses == Down(n, |cls| + Timer(deadline))
    && Posted(t.store, o, n, cls, deadline)
  }

  lemma CallWaits(s: State, op: Op)
    requires Inv(s) && s.mode == Running && Channel(op) && Answer(s, op) == Blocks
    ensures var t := Call(s, op);
      && Waits(t, s.running, |s.store|, Wants(op), op.deadline) && !Runs(t, s.running)
      && |t.store| == |s.store| + |Wants(op)| + Timer(op.deadline) && s.running !in t.ready
  {
    Parts(s);
    CallBlocks(s, op);
    BlockWaits(s, Wants(op), op.deadline);
    EntersWait(Block(s, 0, ToRequests(Wants(op)), op.deadline), op.now, s.running, |s.store|, Wants(op), op.deadline);
  }

  lemma BlockWaits(s: State, cls: seq<Choice>, deadline: int)
    requires s.running < |s.crs| && s.crs[s.running].clauses == []
    requires forall i :: 0 <= i < |cls| ==> !cls[i].Malformed?
    ensures var t := Block(s, 0, ToRequests(cls), deadline);
      && Waits(t, s.running, |s.store|, cls, deadline)
      && |t.store| == |s.store| + |cls| + Timer(deadline) && t.ready == s.ready
  {
    BlockPosts(s, cls, deadline);
    BlockOwns(s, 0, ToRequests(cls), deadline);
    BlockFrame(s, 0, ToRequests(cls), deadline);
  }

  lemma EntersWait(t: State, now: int, o: nat, n: nat, cls: seq<Choice>, deadline: int)
    requires Waits(t, o, n, cls, deadline)
    ensures var u := EnterWait(t, now);
      Waits(u, o, n, cls, deadline) && !Runs(u, o) && u.store == t.store && u.ready == t.ready
  {
  }

  /** The `j`-th operation does not jump to `o`. The definition is spelled out only in the proofs that
      mention `Open`. */
  ghost predicate Passes(s: State, ops: seq<Op>, j: nat, o: nat) {
    forall x {:trigger Open(x)} :: Open(x) ==> j < |ops| && !JumpsTo(Run(s, ops[..j]), ops[j], o)
  }

  /** There is no jump to `o` from the `a`-th operation up to the `b`-th. */
  ghost predicate NoJump(s: State, ops: seq<Op>, a: nat, b: nat, o: nat) {
    forall j: nat :: a <= j < b ==> Passes(s, ops, j, o)
  }

  lemma RunMore(s: State, ops: seq<Op>, n: nat)
    requires n < |ops|
    ensures Run(s, ops[..n + 1]) == Step(Run(s, ops[..n]), ops[n])
  {
    assert ops[..n + 1][..n] == ops[..n];
  }

  /** From the `a`-th operation up to the `b`-th nothing has happened to `o`, except that a clause of its
      may have fired. */
  ghost predicate Undisturbed(s: State, ops: seq<Op>, a: nat, b: nat, o: nat) {
    forall x {:trigger Open(x)} :: Open(x) ==>
      && a <= |ops| && b <= |ops| && o < |Run(s, ops[..a]).crs|
      && Aside(Run(s, ops[..a]), Run(s, ops[..b]), o, 0) && !Runs(Run(s, ops[..b]), o)
  }

  lemma WaitBegins(s: State, ops: seq<Op>, a: nat, o: nat)
    requires a <= |ops| && o < |Run(s, ops[..a]).crs| && !Runs(Run(s, ops[..a]), o)
    ensures Undisturbed(s, ops, a, a, o)
  {
  }

  lemma WaitGoesOn(s: State, ops: seq<Op>, a: nat, j: nat, b: nat, o: nat)
    requires Inv(s) && Undisturbed(s, ops, a, j, o) && Passes(s, ops, j, o) && b == j + 1
    ensures Undisturbed(s, ops, a, b, o)
  {
    assert Open(0);
    RunInv(s, ops[..j]);
    RunMore(s, ops, j);
    StepOn(Run(s, ops[..a]), Run(s, ops[..j]), ops[j], o);
  }

  lemma StepOn(t: State, u: State, op: Op, o: nat)
    requires Inv(u) && Aside(t, u, o, 0) && o < |t.crs| && !Runs(u, o) && !JumpsTo(u, op, o)
    ensures Aside(t, Step(u, op), o, 0) && !Runs(Step(u, op), o)
  {
    StepAside(u, op, o, 0);
    AsideTwice(t, u, Step(u, op), o, 0);
  }

  lemma {:induction false} WaitLasts(s: State, ops: seq<Op>, a: nat, b: nat, o: nat)
    requires Inv(s) && a <= b && NoJump(s, ops, a, b, o) && Undisturbed(s, ops, a, a, o)
    ensures Undisturbed(s, ops, a, b, o)
    decreases b
  {
    if a < b {
      WaitLasts(s, ops, a, b - 1, o);
      WaitGoesOn(s, ops, a, b - 1, b, o);
    }
  }

  lemma WaitAside(s: State, ops: seq<Op>, a: nat, b: nat, o: nat)
    requires Inv(s) && a <= b <= |ops| && NoJump(s, ops, a, b, o)
    requires o < |Run(s, ops[..a]).crs| && !Runs(Run(s, ops[..a]), o)
    ensures Aside(Run(s, ops[..a]), Run(s, ops[..b]), o, 0)
  {
    WaitBegins(s, ops, a, o);
    WaitLasts(s, ops, a, b, o);
    assert Open(0);
  }

  /** A coroutine still waits in its call when it is jumped to. */
  lemma WaitsOn(s: State, ops: seq<Op>, a: nat, b: nat, o: nat, n: nat, cls: seq<Choice>, deadline: int)
    requires Inv(s) && a <= b <= |ops| && NoJump(s, ops, a, b, o)
    requires var t := Run(s, ops[..a]); Waits(t, o, n, cls, deadline) && !Runs(t, o) && o !in t.ready
    ensures Waits(Run(s, ops[..b]), o, n, cls, deadline)
    ensures o in Run(s, ops[..b]).ready ==> |cls| + Timer(deadline) > 0
  {
    WaitAside(s, ops, a, b, o);
    RunBytes(s, ops[..b], a);
    assert ops[..b][..a] == ops[..a];
    PostedStays(Run(s, ops[..a]).store, Run(s, ops[..b]).store, o, n, cls, deadline);
  }

  lemma OneFired(s: State, o: nat, f: nat, n: nat, k: nat) returns (d: nat)
    requires o < |s.crs| && s.crs[o].clauses == Down(n, k) && f < k && FiredBy(s, o, f) && n + k <= |s.store|
    ensures n <= d < n + k && s.store[d].status == Fired(s.crs[o].err) && s.store[d].id == s.crs[o].id
    ensures forall c :: n <= c < n + k && c != d ==> s.store[c].status == Unfired
  {
    var cs := s.crs[o].clauses;
    d := cs[f];
    forall c | n <= c < n + k && c != d ensures s.store[c].status == Unfired {
      var i := n + k - 1 - c;
      assert i != f && cs[i] == c;
    }
  }

  /** When the coroutine is jumped to, exactly one clause of its call has fired, and its number and
      error are what `dill_wait` returns. */
  lemma Woken(s: State, o: nat, n: nat, cls: seq<Choice>, deadline: int)
    requires Inv(s) && s.mode == Dispatching && s.ready != [] && s.ready[0] == o
    requires Waits(s, o, n, cls, deadline) && |cls| + Timer(deadline) > 0
    ensures var r := Dispatch(s).1;
      && r.Returned? && 0 <= r.rc < |cls| + Timer(deadline)
      && s.store[n + r.rc].status == Fired(r.errno)
      && forall c :: n <= c < n + |cls| + Timer(deadline) && c != n + r.rc ==> s.store[c].status == Unfired
  {
    var d := WokenBy(s, o, n, |cls| + Timer(deadline));
    NumberOf(s.store, o, n, cls, deadline, d);
  }

  lemma WokenBy(s: State, o: nat, n: nat, k: nat) returns (d: nat)
    requires Inv(s) && s.ready != [] && s.ready[0] == o && o < |s.crs|
    requires s.crs[o].clauses == Down(n, k) && k > 0 && n + k <= |s.store|
    ensures n <= d < n + k && s.store[d].status == Fired(s.crs[o].err) && s.store[d].id == s.crs[o].id
    ensures forall c :: n <= c < n + k && c != d ==> s.store[c].status == Unfired
  {
    Parts(s);
    assert Resumed(s, o);
    var f :| 0 <= f < |s.crs[o].clauses| && FiredBy(s, o, f);
    d := OneFired(s, o, f, n, k);
  }

  /** The number of a clause, and whether it is the timer. */
  lemma NumberOf(store: seq<Clause>, o: nat, n: nat, cls: seq<Choice>, deadline: int, c: nat)
    requires Posted(store, o, n, cls, deadline) && n <= c < n + |cls| + Timer(deadline)
    ensures store[c].cr == o && store[c].id == c - n
    ensures if c < n + |cls| then PostedAs(store[c], o, cls, c - n) else store[c].key == Timers
  {
    assert c < n + |cls| || c == n + |cls|;
  }

  /** What has left the lists stays as it is. */
  lemma {:induction false} Settled(s: State, ops: seq<Op>, m: nat, c: nat)
    requires Inv(s) && m <= |ops| && Off(Run(s, ops[..m]), c)
    ensures Off(Run(s, ops), c) && Run(s, ops).store[c] == Run(s, ops[..m]).store[c]
    decreases |ops|
  {
    if m == |ops| {
      assert ops[..m] == ops;
    } else {
      var pre := ops[..|ops| - 1];
      assert pre[..m] == ops[..m];
      Settled(s, pre, m, c);
      RunInv(s, pre);
      var t := Run(s, pre);
      Parts(t);
      StepAside(t, ops[|ops| - 1], |t.crs|, c);
    }
  }

  /** The clauses of a coroutine that is queued are on no list. */
  lemma QueuedOff(s: State, o: nat, c: nat)
    requires Inv(s) && o in s.ready && c < |s.store| && s.store[c].cr == o
    ensures Off(s, c)
  {
    Parts(s);
    forall k | k in s.lists ensures c !in s.lists[k] {
      assert c in s.lists[k] ==> ListOk(s, k, c);
    }
  }

  // ------------------------------------------------------------------ what callers are told, over runs

  /** How `dill_choose` reads the result of `dill_wait`. */
  function ChooseResult(n: nat, id: int, err: int): Ret {
    if id < 0 then Returned(-1, err) else if id == n then Returned(-1, ETIMEDOUT) else Returned(id, err)
  }

  function WaitResult(op: Op, r: Ret): Ret
    requires Channel(op)
  {
    if r == Blocks then Blocks
    else if op.CallChoose? then ChooseResult(|op.cls|, r.rc, r.errno)
    else ExchangeResult(r.rc, r.errno)
  }

  /** The result that says that clause `i` of the call was completed. */
  function Success(op: Op, i: int): Ret {
    if op.CallChoose? then Returned(i, 0) else Returned(0, 0)
  }

  /** The `n`-th operation of the run is a channel call and returns `r`: at once, or when its coroutine is
      jumped to by the `m`-th. */
  ghost predicate Returns(s: State, ops: seq<Op>, n: nat, m: nat, r: Ret) {
    && n <= m < |ops| && Channel(ops[n])
    && var t := Run(s, ops[..n]);
      && t.mode == Running
      && if n == m then r.Returned? && r == Answer(t, ops[n])
         else
           && Answer(t, ops[n]) == Blocks && NoJump(s, ops, n + 1, m, t.running)
           && JumpsTo(Run(s, ops[..m]), ops[m], t.running)
           && r == WaitResult(ops[n], Dispatch(Run(s, ops[..m])).1)
  }

  /** The clauses from `a` up to `b` are what `r` says: the number and list of each, whether it was
      completed, and whether there was a timeout. */
  ghost predicate Truly(store: seq<Clause>, a: nat, b: nat, op: Op, r: Ret) {
    && a <= b <= |store|
    && (forall c :: a <= c < b && OnChannel(store[c].key) ==>
          && Offered(Wants(op), store[c].id, store[c].key, store[c].val)
          && (IsOk(store[c], store[c].key) <==> r == Success(op, store[c].id)))
    && (forall c, d :: a <= c < d < b && OnChannel(store[c].key) && OnChannel(store[d].key) ==>
          store[c].id < store[d].id)
    && (forall c :: a <= c < b && store[c].key == Timers && store[c].status.Fired? ==> r == Returned(-1, ETIMEDOUT))
    && (r.Returned? && r.errno == 0 ==> exists c :: a <= c < b && IsDoneBy(store[c], op, r))
  }

  ghost predicate IsDoneBy(cl: Clause, op: Op, r: Ret) {
    OnChannel(cl.key) && IsOk(cl, cl.key) && r == Success(op, cl.id)
  }

  /** A call that returned at once. */
  lemma AnswerTruly(s: State, op: Op)
    requires Inv(s) && s.mode == Running && Channel(op) && Answer(s, op).Returned?
    ensures Truly(Call(s, op).store, |s.store|, |Call(s, op).store|, op, Answer(s, op))
    ensures forall c :: |s.store| <= c < |Call(s, op).store| ==> Call(s, op).store[c].status.Fired?
  {
    ServedAtOnce(s, op);
    AnswerNumber(s, op);
    AtOnceTruly(s, Call(s, op), op, Answer(s, op));
  }

  lemma AtOnceTruly(s: State, t: State, op: Op, r: Ret)
    requires Channel(op) && r.Returned? && AtOnce(s, t, Wants(op), r)
    requires !op.CallChoose? && r.errno == 0 ==> r.rc == 0
    ensures Truly(t.store, |s.store|, |t.store|, op, r)
    ensures forall c :: |s.store| <= c < |t.store| ==> t.store[c].status.Fired?
  {
    if r.errno == 0 {
      var cl := t.store[|s.store|];
      assert cl.id == r.rc && OnChannel(cl.key) && IsOk(cl, cl.key);
      assert IsDoneBy(cl, op, r);
    }
  }

  /** A send or receive that succeeds returns 0. */
  lemma AnswerNumber(s: State, op: Op)
    requires Inv(s) && s.mode == Running && Channel(op) && Answer(s, op).Returned?
    ensures !op.CallChoose? && Answer(s, op).errno == 0 ==> Answer(s, op).rc == 0
  {
    match op
    case CallSend(h, val, deadline, _) => ExchangeTells(s, SendOn(h, val), deadline);
    case CallRecv(h, val, deadline, _) => ExchangeTells(s, RecvOn(h, val), deadline);
    case CallChoose(cls, deadline, _) =>
  }

  /** A call whose coroutine is jumped to. */
  lemma WakeTruly(s: State, o: nat, n: nat, op: Op)
    requires Inv(s) && s.mode == Dispatching && s.ready != [] && s.ready[0] == o && Channel(op)
    requires Waits(s, o, n, Wants(op), op.deadline) && |Wants(op)| + Timer(op.deadline) > 0
    ensures Truly(s.store, n, n + |Wants(op)| + Timer(op.deadline), op, WaitResult(op, Dispatch(s).1))
  {
    var cls, b, w := Wants(op), n + |Wants(op)| + Timer(op.deadline), Dispatch(s).1;
    var r := WaitResult(op, w);
    Woken(s, o, n, cls, op.deadline);
    forall c | n <= c < b && OnChannel(s.store[c].key)
      ensures c < n + |cls| && PostedAs(s.store[c], o, cls, c - n)
      ensures IsOk(s.store[c], s.store[c].key) <==> r == Success(op, c - n)
    {
      NumberOf(s.store, o, n, cls, op.deadline, c);
    }
    forall c | n <= c < b && s.store[c].key == Timers && s.store[c].status.Fired?
      ensures r == Returned(-1, ETIMEDOUT)
    {
      NumberOf(s.store, o, n, cls, op.deadline, c);
    }
    if r.errno == 0 {
      assert PostedAs(s.store[n + w.rc], o, cls, w.rc);
      assert IsDoneBy(s.store[n + w.rc], op, r);
    }
  }

  /** What is true of clauses that do not change stays true. */
  lemma TrulyStays(was: seq<Clause>, now: seq<Clause>, a: nat, b: nat, op: Op, r: Ret)
    requires Truly(was, a, b, op, r) && Keeps(was, now)
    requires forall c :: a <= c < b ==> now[c].status == was[c].status
    ensures Truly(now, a, b, op, r)
  {
    forall c | a <= c < b
      ensures now[c].id == was[c].id && now[c].key == was[c].key && IsOk(now[c], now[c].key) == IsOk(was[c], was[c].key)
      ensures OnChannel(now[c].key) ==> Offered(Wants(op), now[c].id, now[c].key, now[c].val)
    {
      assert Stays(was[c], now[c]);
    }
    if r.Returned? && r.errno == 0 {
      var c :| a <= c < b && IsDoneBy(was[c], op, r);
      assert IsDoneBy(now[c], op, r);
    }
  }

  /** A call that returned at once, seen from the end of the run. */
  lemma ToldAtOnce(s: State, ops: seq<Op>, n: nat, r: Ret)
    requires Inv(s) && Returns(s, ops, n, n, r)
    ensures Truly(Run(s, ops).store, |Run(s, ops[..n]).store|, |Run(s, ops[..n + 1]).store|, ops[n], r)
  {
    var t, u := Run(s, ops[..n]), Run(s, ops[..n + 1]);
    RunInv(s, ops[..n]);
    RunMore(s, ops, n);
    AnswerTruly(t, ops[n]);
    RunBytes(s, ops, n + 1);
    forall c | |t.store| <= c < |u.store| ensures Run(s, ops).store[c].status == u.store[c].status {
      assert Stays(u.store[c], Run(s, ops).store[c]);
    }
    TrulyStays(u.store, Run(s, ops).store, |t.store|, |u.store|, ops[n], r);
  }

  /** A call that had to wait: its clauses when the coroutine is jumped to. */
  lemma WaitedTill(s: State, ops: seq<Op>, n: nat, m: nat, r: Ret)
    requires Inv(s) && Returns(s, ops, n, m, r) && n < m
    ensures var t, u, z := Run(s, ops[..n]), Run(s, ops[..n + 1]), Run(s, ops[..m]);
      && |u.store| == |t.store| + |Wants(ops[n])| + Timer(ops[n].deadline)
      && Waits(z, t.running, |t.store|, Wants(ops[n]), ops[n].deadline)
      && |Wants(ops[n])| + Timer(ops[n].deadline) > 0
  {
    var t := Run(s, ops[..n]);
    RunInv(s, ops[..n]);
    RunMore(s, ops, n);
    CallWaits(t, ops[n]);
    WaitsOn(s, ops, n + 1, m, t.running, |t.store|, Wants(ops[n]), ops[n].deadline);
  }

  lemma ToldAfterWait(s: State, ops: seq<Op>, n: nat, m: nat, r: Ret)
    requires Inv(s) && Returns(s, ops, n, m, r) && n < m
    ensures Truly(Run(s, ops).store, |Run(s, ops[..n]).store|, |Run(s, ops[..n + 1]).store|, ops[n], r)
  {
    var t, u, z := Run(s, ops[..n]), Run(s, ops[..n + 1]), Run(s, ops[..m]);
    var a, b, o := |t.store|, |u.store|, t.running;
    WaitedTill(s, ops, n, m, r);
    RunInv(s, ops[..m]);
    WakeTruly(z, o, a, ops[n]);
    RunBytes(s, ops, m);
    forall c | a <= c < b ensures Run(s, ops).store[c].status == z.store[c].status {
      WaitsOwner(z, o, a, Wants(ops[n]), ops[n].deadline, c);
      QueuedOff(z, o, c);
      Settled(s, ops, m, c);
    }
    TrulyStays(z.store, Run(s, ops).store, a, b, ops[n], r);
  }

  lemma WaitsOwner(z: State, o: nat, n: nat, cls: seq<Choice>, deadline: int, c: nat)
    requires Waits(z, o, n, cls, deadline) && n <= c < n + |cls| + Timer(deadline)
    ensures z.store[c].cr == o
  {
    NumberOf(z.store, o, n, cls, deadline, c);
  }

  /** Over every run, what a channel call returns is true for ever: it has issued clauses with its own
      numbers, lists and bytes, of which exactly one is completed if it returns that number with errno 0
      (0, for a send or receive), and none otherwise. */
  lemma ResultsTrue(s: State, ops: seq<Op>, n: nat, m: nat, r: Ret)
    requires Inv(s) && Returns(s, ops, n, m, r)
    ensures r.Returned?
    ensures Truly(Run(s, ops).store, |Run(s, ops[..n]).store|, |Run(s, ops[..n + 1]).store|, ops[n], r)
  {
    if n == m {
      ToldAtOnce(s, ops, n, r);
    } else {
      ToldAfterWait(s, ops, n, m, r);
      RunInv(s, ops[..m]);
      Parts(Run(s, ops[..m]));
    }
  }
}
