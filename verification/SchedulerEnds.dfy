/** Which ends of a channel meet: what is sent with one handle is received with the other. */
module SchedulerEnds {
  import opened Scheduler
  import opened SchedulerMeet
  import opened SchedulerSteps
  import opened SchedulerRuns
  import opened SchedulerBytes
  import opened SchedulerResults
  import opened SchedulerEffects

  lemma StoreGrows(s: State, ops: seq<Op>, a: nat, b: nat)
    requires Inv(s) && a <= b <= |ops|
    ensures |Run(s, ops[..a]).store| <= |Run(s, ops[..b]).store|
  {
    RunBytes(s, ops[..b], a);
    assert ops[..b][..a] == ops[..a];
  }

  /** A clause is issued by one operation. */
  lemma IssuedOnce(s: State, ops: seq<Op>, n: nat, m: nat, c: nat)
    requires Inv(s) && IssuedAt(s, ops, n, c) && IssuedAt(s, ops, m, c)
    ensures n == m
  {
    if n < m {
      StoreGrows(s, ops, n + 1, m);
    } else if m < n {
      StoreGrows(s, ops, m + 1, n);
    }
  }

  /** The clause with number `i` of the `n`-th operation sends, or receives, with handle `h`. */
  ghost predicate With(ops: seq<Op>, n: nat, i: int, h: nat, sends: bool) {
    && n < |ops| && 0 <= i < |Wants(ops[n])|
    && var w := Wants(ops[n])[i]; w.h == h && (if sends then w.SendOn? else w.RecvOn?)
  }

  lemma ClauseWith(s: State, ops: seq<Op>, store: seq<Clause>, c: nat) returns (n: nat, h: nat)
    requires Inv(s) && store == Run(s, ops).store && |s.store| <= c < |store| && OnChannel(store[c].key)
    ensures IssuedAt(s, ops, n, c) && With(ops, n, store[c].id, h, store[c].key.Out?)
    ensures store[c].key.ch == if store[c].key.Out? then Other(h) else h
    ensures |store[c].val| == |Wants(ops[n])[store[c].id].val|
    ensures store[c].key.Out? ==> store[c].val == Wants(ops[n])[store[c].id].val
  {
    ClauseCarries(s, ops, store, c);
    n :| AskedAt(s, ops, n, c, store[c].id, store[c].key, store[c].val);
    h := Wants(ops[n])[store[c].id].h;
  }

  lemma OtherPair(h: nat)
    ensures Pair(h, Other(h)) && Other(h) != h && Other(h) / 2 == h / 2 && Other(Other(h)) == h
  {
  }

  /** Over every run the i-th completed send on a half-channel and the i-th completed receive were issued,
      each by one operation, with the two handles of one channel, and the receiver has the sender's bytes. */
  lemma EndsMeet(start: int, ops: seq<Op>, ch: nat, i: nat) returns (n: nat, m: nat, k: nat, h: nat)
    requires ch < |Run(Initial(start), ops).halves|
    requires var store := Run(Initial(start), ops).store; i < |OkList(store, Out(ch), |store|)|
    ensures var store := Run(Initial(start), ops).store;
      var sends, recvs := OkList(store, Out(ch), |store|), OkList(store, In(ch), |store|);
      && i < |recvs| && sends[i] < |store| && recvs[i] < |store|
      && IssuedAt(Initial(start), ops, n, sends[i]) && With(ops, n, store[sends[i]].id, k, true)
      && IssuedAt(Initial(start), ops, m, recvs[i]) && With(ops, m, store[recvs[i]].id, h, false)
      && store[recvs[i]].val == Wants(ops[n])[store[sends[i]].id].val
    ensures k != h && k / 2 == h / 2
  {
    var store := Run(Initial(start), ops).store;
    var sends, recvs := OkList(store, Out(ch), |store|), OkList(store, In(ch), |store|);
    SendsMatchReceives(start, ops, ch, i);
    InitialInv(start);
    RunInv(Initial(start), ops);
    Parts(Run(Initial(start), ops));
    assert Matched(store, ch);
    OkListIn(store, Out(ch), |store|);
    OkListIn(store, In(ch), |store|);
    n, k := ClauseWith(Initial(start), ops, store, sends[i]);
    m, h := ClauseWith(Initial(start), ops, store, recvs[i]);
    OtherPair(k);
  }

  // ------------------------------------------------------------------ who meets whom

  /** Clause `c` waits: it was issued with handle `h` by an operation in which its coroutine still waits. */
  ghost predicate Pending(s: State, ops: seq<Op>, c: nat, h: nat, sends: bool) {
    var t := Run(s, ops);
    && c < |t.store| && OnChannel(t.store[c].key) && t.store[c].status == Unfired
    && IsBlocked(t, t.store[c].cr) && c in t.crs[t.store[c].cr].clauses
    && exists n: nat :: IssuedAt(s, ops, n, c) && With(ops, n, t.store[c].id, h, sends)
  }

  /** The list on which clauses with handle `h` wait. */
  function Place(h: nat, sends: bool): Key {
    if sends then Out(Other(h)) else In(h)
  }

  lemma PendingListed(start: int, ops: seq<Op>, c: nat, h: nat, sends: bool)
    requires Pending(Initial(start), ops, c, h, sends)
    ensures c in On(Run(Initial(start), ops), Place(h, sends))
  {
    var s, t := Initial(start), Run(Initial(start), ops);
    InitialInv(start);
    RunInv(s, ops);
    Parts(t);
    assert Waiting(t, c);
    var n: nat :| IssuedAt(s, ops, n, c) && With(ops, n, t.store[c].id, h, sends);
    var m, g := ClauseWith(s, ops, t.store, c);
    IssuedOnce(s, ops, n, m, c);
  }

  lemma ListedPending(start: int, ops: seq<Op>, c: nat, h: nat, sends: bool)
    requires c in On(Run(Initial(start), ops), Place(h, sends))
    ensures Pending(Initial(start), ops, c, h, sends)
  {
    var s, t := Initial(start), Run(Initial(start), ops);
    InitialInv(start);
    RunInv(s, ops);
    Parts(t);
    assert ListOk(t, Place(h, sends), c);
    var n, g := ClauseWith(s, ops, t.store, c);
    OtherPair(h);
    OtherPair(g);
  }

  /** The first clause that waits is the head of its list. */
  lemma FirstPending(start: int, ops: seq<Op>, c: nat, h: nat, sends: bool)
    requires Pending(Initial(start), ops, c, h, sends)
    requires forall d: nat :: Pending(Initial(start), ops, d, h, sends) ==> c <= d
    ensures var l := On(Run(Initial(start), ops), Place(h, sends)); l != [] && l[0] == c
  {
    var t, k := Run(Initial(start), ops), Place(h, sends);
    InitialInv(start);
    RunInv(Initial(start), ops);
    Parts(t);
    PendingListed(start, ops, c, h, sends);
    var l := t.lists[k];
    ListedPending(start, ops, l[0], h, sends);
    assert ListOk(t, k, c) && ListOk(t, k, l[0]);
    if l[0] != c { HeadFirst(t, k, c); }
  }

  /** The call consists of the clause `cl`. */
  ghost predicate Single(op: Op, cl: Choice) {
    Channel(op) && Wants(op) == [cl] && !cl.Malformed?
  }

  /** What a call returns whose clause fails with `err`. */
  function Failure(op: Op, err: int): Ret {
    Returned(if op.CallChoose? then 0 else -1, err)
  }

  /** The first clause `c` waiting at the other end is served: its owner is queued with the error, and the
      bytes go from the sender to the receiver, unless their sizes differ. */
  ghost predicate Serves(t: State, u: State, c: nat, cl: Choice, r: Ret, op: Op)
    requires !cl.Malformed?
  {
    && c < |t.store| && c < |u.store| && t.store[c].cr < |u.crs| && u.ready == t.ready + [t.store[c].cr]
    && if |t.store[c].val| == |cl.val| then
         && r == Returned(0, 0) && u.store[c].status == Fired(0) && u.crs[t.store[c].cr].err == 0
         && |u.store| == |t.store| + 1 && u.store[|t.store|].status == Fired(0)
         && u.store[c].val == u.store[|t.store|].val == if cl.SendOn? then cl.val else t.store[c].val
       else
         && r == Failure(op, EMSGSIZE) && u.store[c].status == Fired(EMSGSIZE)
         && u.crs[t.store[c].cr].err == EMSGSIZE && |u.store| == |t.store|
  }

  lemma TryNowServes(t: State, c: nat, cl: Choice, id: int)
    requires Inv(t) && t.mode == Running && !cl.Malformed? && cl.h < |t.halves|
    requires var mine := ChoiceKey(cl); On(t, Peer(mine)) != [] && On(t, Peer(mine))[0] == c
    ensures var (u, r) := TryNow(t, ChoiceKey(cl), id, cl.val);
      && r.Returned? && Serves(t, u, c, cl, Returned(0, r.errno), CallChoose([cl], 0, 0))
      && r == (if r.errno == 0 then Returned(0, 0) else Returned(-1, EMSGSIZE)) && (r.errno == 0 || r.errno == EMSGSIZE)
  {
    Parts(t);
    var mine := ChoiceKey(cl);
    OtherHalf(t, cl.h);
    assert ListOk(t, Peer(mine), c);
    assert !IsDone(t, mine.ch);
  }

  /** A send or receive, or a choose of one clause, meets the first clause that waits at the other end of
      the channel, whatever its deadline; `peer` says whether that is a send. */
  lemma MeetsAtOnce(start: int, ops: seq<Op>, c: nat, k: nat, h: nat, cl: Choice, op: Op, peer: bool)
    requires var t := Run(Initial(start), ops); t.mode == Running && MayBlock(t) && Usable(t, k)
    requires Single(op, cl) && cl.h == k && Pair(k, h) && peer == !cl.SendOn?
    requires Pending(Initial(start), ops, c, h, peer)
    requires forall d: nat :: Pending(Initial(start), ops, d, h, peer) ==> c <= d
    ensures var t := Run(Initial(start), ops); Serves(t, Step(t, op), c, cl, Answer(t, op), op)
  {
    var t := Run(Initial(start), ops);
    InitialInv(start);
    RunInv(Initial(start), ops);
    FirstPending(start, ops, c, h, peer);
    OtherPair(k);
    TryNowServes(t, c, cl, 0);
    SingleTries(t, op, cl);
  }

  /** What a call of one clause does first. */
  lemma SingleTries(t: State, op: Op, cl: Choice)
    requires t.mode == Running && MayBlock(t) && Single(op, cl) && Usable(t, cl.h)
    ensures var (u, r) := TryNow(t, ChoiceKey(cl), 0, cl.val);
      r.Returned? ==> Step(t, op) == u && Answer(t, op) == if op.CallChoose? then Returned(0, r.errno) else r
    ensures TryNow(t, ChoiceKey(cl), 0, cl.val).1 == Blocks ==>
      Answer(t, op) == if op.deadline == 0 then Returned(-1, ETIMEDOUT) else Blocks
  {
    match op
    case CallSend(_, _, _, _) =>
    case CallRecv(_, _, _, _) =>
    case CallChoose(cls, _, _) => assert Scan(t, cls, 1) == (t, Blocks);
  }

  /** If nobody waits at the other end, it fails at once where the channel is done or there is no time to
      wait, and waits otherwise. */
  lemma NobodyToMeet(start: int, ops: seq<Op>, k: nat, h: nat, cl: Choice, op: Op, peer: bool)
    requires var t := Run(Initial(start), ops); t.mode == Running && MayBlock(t) && Usable(t, k)
    requires Single(op, cl) && cl.h == k && Pair(k, h) && peer == !cl.SendOn?
    requires forall d: nat :: !Pending(Initial(start), ops, d, h, peer)
    ensures h < |Run(Initial(start), ops).halves|
    ensures var t := Run(Initial(start), ops);
      Answer(t, op) ==
        if t.halves[if cl.SendOn? then h else k].done then Failure(op, EPIPE)
        else if op.deadline == 0 then Returned(-1, ETIMEDOUT) else Blocks
  {
    var t := Run(Initial(start), ops);
    InitialInv(start);
    RunInv(Initial(start), ops);
    Parts(t);
    OtherHalf(t, k);
    OtherPair(k);
    var l := On(t, Place(h, peer));
    if l != [] { ListedPending(start, ops, l[0], h, peer); }
    SingleTries(t, op, cl);
  }

  /** Nothing is possible with a handle that is not open. */
  lemma BadHandle(t: State, op: Op, cl: Choice)
    requires t.mode == Running && MayBlock(t) && Single(op, cl) && !Usable(t, cl.h)
    ensures Answer(t, op) == Failure(op, EBADF) && Step(t, op) == t
  {
  }

  /** Alone and without time to wait, the clause could not be served. */
  ghost predicate MustWait(s: State, cl: Choice) {
    Choose(s, [cl], 0) == (s, Returned(-1, ETIMEDOUT))
  }

  /** The same but for the number of a clause. */
  ghost predicate SameButNumber(t: State, u: State) {
    && t == u.(store := t.store) && |t.store| == |u.store|
    && forall c :: 0 <= c < |t.store| ==> t.store[c] == u.store[c].(id := t.store[c].id)
  }

  lemma TryNowNumber(s: State, mine: Key, i: int, j: int, val: Bytes)
    requires mine.In? || mine.Out?
    ensures SameButNumber(TryNow(s, mine, i, val).0, TryNow(s, mine, j, val).0)
    ensures TryNow(s, mine, i, val).1 == TryNow(s, mine, j, val).1
    ensures TryNow(s, mine, i, val).1 == Blocks ==> TryNow(s, mine, i, val).0 == s
  {
  }

  /** A choose is decided by the first of its clauses that could be served, or would fail, alone, and ends
      as that clause does; if there is none, it times out or waits. */
  lemma ChooseFirst(s: State, cls: seq<Choice>, deadline: int)
    requires MayBlock(s)
    ensures var (t, r) := Choose(s, cls, deadline);
      if r.Returned? && r.rc >= 0 then
        && r.rc < |cls| && (forall j :: 0 <= j < r.rc ==> MustWait(s, cls[j]))
        && var (u, q) := Choose(s, [cls[r.rc]], 0); q == Returned(0, r.errno) && SameButNumber(t, u)
      else
        && (forall j :: 0 <= j < |cls| ==> MustWait(s, cls[j]))
        && if deadline == 0 then r == Returned(-1, ETIMEDOUT) && t == s else r == Blocks
  {
    ScanDecides(s, cls, 0);
  }

  lemma {:induction false} ScanDecides(s: State, cls: seq<Choice>, i: nat)
    requires MayBlock(s) && i <= |cls|
    ensures var (t, r) := Scan(s, cls, i);
      if r.Returned? then
        && i <= r.rc < |cls| && (forall j :: i <= j < r.rc ==> MustWait(s, cls[j]))
        && (var (u, q) := Choose(s, [cls[r.rc]], 0); q == Returned(0, r.errno) && SameButNumber(t, u))
      else t == s && forall j :: i <= j < |cls| ==> MustWait(s, cls[j])
    decreases |cls| - i
  {
    if i < |cls| {
      OneScan(s, cls, i);
      ScanDecides(s, cls, i + 1);
    }
  }

  lemma OneScan(s: State, cls: seq<Choice>, i: nat)
    requires MayBlock(s) && i < |cls|
    ensures var (u, q), r := Choose(s, [cls[i]], 0), Scan(s, cls, i);
      if MustWait(s, cls[i]) then r == Scan(s, cls, i + 1)
      else q.Returned? && q.rc == 0 && r.1 == Returned(i, q.errno) && SameButNumber(r.0, u)
  {
    if IsOpen(s, cls[i].h) && !cls[i].Malformed? { TryNowNumber(s, ChoiceKey(cls[i]), i, 0, cls[i].val); }
    assert Scan(s, [cls[i]], 1) == (s, Blocks);
  }
}
