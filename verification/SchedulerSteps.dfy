/** The API calls as steps of a state machine, and the runs of that machine. */
module SchedulerSteps {
  import opened Scheduler
  import opened SchedulerMeet
  import opened SchedulerBlock
  import opened SchedulerDrain

  predicate IsOpen(s: State, h: nat) {
    h < |s.halves| && !s.halves[h].closed
  }

  predicate CanBlock(s: State) {
    s.running < |s.crs| && !s.crs[s.running].noBlocking
  }

  predicate IsDone(s: State, ch: nat) {
    ch < |s.halves| && s.halves[ch].done
  }

  function Len(s: State, c: nat): nat {
    if c < |s.store| then |s.store[c].val| else 0
  }

  function Val(s: State, c: nat): Bytes {
    if c < |s.store| then s.store[c].val else []
  }

  /** One send (`mine` is an `Out` list) or receive, if it need not wait. */
  function TryNow(s: State, mine: Key, id: int, val: Bytes): (State, Ret)
    requires mine.In? || mine.Out?
  {
    if IsDone(s, mine.ch) then (s, Returned(-1, EPIPE))
    else if On(s, Peer(mine)) == [] then (s, Blocks)
    else
      var c := On(s, Peer(mine))[0];
      if |val| != Len(s, c) then (Trigger(s, c, EMSGSIZE), Returned(-1, EMSGSIZE))
      else (Meet(s, c, mine, id, if mine.Out? then val else Val(s, c)), Returned(0, 0))
  }

  /** `dill_chsend` and `dill_chrecv`; sending is done to the opposite half. */
  function Exchange(s: State, mine: Key, h: nat, val: Bytes, deadline: int): (State, Ret)
    requires mine.In? || mine.Out?
  {
    if !CanBlock(s) then (s, Returned(-1, ECANCELED))
    else if !IsOpen(s, h) then (s, Returned(-1, EBADF))
    else
      var r := TryNow(s, mine, 0, val);
      if r.1 != Blocks then r
      else if deadline == 0 then (s, Returned(-1, ETIMEDOUT))
      else (Block(s, 0, [Request(mine, val)], deadline), Blocks)
  }

  function Send(s: State, h: nat, val: Bytes, deadline: int): (State, Ret) {
    Exchange(s, Out(Other(h)), h, val, deadline)
  }

  function Recv(s: State, h: nat, buf: Bytes, deadline: int): (State, Ret) {
    Exchange(s, In(h), h, buf, deadline)
  }

  datatype Choice = SendOn(h: nat, val: Bytes) | RecvOn(h: nat, val: Bytes) | Malformed(h: nat)

  function ChoiceKey(c: Choice): Key {
    if c.SendOn? then Out(Other(c.h)) else In(c.h)
  }

  function ToRequests(cls: seq<Choice>): seq<Request> {
    seq(|cls|, i requires 0 <= i < |cls| =>
      Request(ChoiceKey(cls[i]), if cls[i].Malformed? then [] else cls[i].val))
  }

  /** The first clause from `i` on that can be served, or is in error, decides. */
  function Scan(s: State, cls: seq<Choice>, i: nat): (State, Ret)
    decreases |cls| - i
  {
    if i >= |cls| then (s, Blocks)
    else if !IsOpen(s, cls[i].h) then (s, Returned(i, EBADF))
    else if cls[i].Malformed? then (s, Returned(i, EINVAL))
    else
      var r := TryNow(s, ChoiceKey(cls[i]), i, cls[i].val);
      if r.1 == Blocks then Scan(s, cls, i + 1) else (r.0, Returned(i, r.1.errno))
  }

  function Choose(s: State, cls: seq<Choice>, deadline: int): (State, Ret) {
    if !CanBlock(s) then (s, Returned(-1, ECANCELED))
    else
      var r := Scan(s, cls, 0);
      if r.1 != Blocks then r
      else if deadline == 0 then (s, Returned(-1, ETIMEDOUT))
      else (Block(s, 0, ToRequests(cls), deadline), Blocks)
  }

  function SetHalf(s: State, h: nat, half: Half): State {
    if h < |s.halves| then s.(halves := s.halves[h := half]) else s
  }

  function DrainHalf(s: State, ch: nat): State {
    Drain(Drain(s, In(ch), EPIPE), Out(ch), EPIPE)
  }

  function ChDone(s: State, h: nat): (State, Ret) {
    if !IsOpen(s, h) then (s, Returned(-1, EBADF))
    else
      var ch := Other(h);
      if IsDone(s, ch) then (s, Returned(-1, EPIPE))
      else if ch >= |s.halves| then (s, Returned(0, 0))
      else (DrainHalf(SetHalf(s, ch, s.halves[ch].(done := true)), ch), Returned(0, 0))
  }

  /** The second handle of a channel to be closed ends everyone's wait. */
  function HClose(s: State, h: nat): (State, Ret) {
    if !IsOpen(s, h) then (s, Returned(-1, EBADF))
    else
      var t := SetHalf(s, h, s.halves[h].(closed := true));
      var first := if h % 2 == 1 then h - 1 else h;
      if IsOpen(s, Other(h)) then (t, Returned(0, 0))
      else (DrainHalf(DrainHalf(t, first), first + 1), Returned(0, 0))
  }

  function ChMake(s: State): State {
    var n := |s.halves|;
    s.(halves := s.halves + [Half(false, false), Half(false, false)],
       lists := s.lists[In(n) := []][Out(n) := []][In(n + 1) := []][Out(n + 1) := []])
  }

  /** `dill_prologue`: the new coroutine runs at once, its parent is queued. */
  function Go(s: State): (State, Ret) {
    if !CanBlock(s) then (s, Returned(-1, ECANCELED))
    else
      var t := Resume(s, s.running, 0, 0);
      (t.(crs := t.crs + [Cr(0, 0, [], false)], running := |t.crs|), Returned(0, 0))
  }

  /** `dill_wait` up to its first poll or its jump. */
  function EnterWait(s: State, now: int): State {
    s.(mode := if s.ready == [] || now > s.lastPoll + 1000 then Polling(s.ready == []) else Dispatching)
  }

  function Yield(s: State, now: int): (State, Ret) {
    if !CanBlock(s) then (s, Returned(-1, ECANCELED))
    else (EnterWait(Resume(s, s.running, 0, 0), now), Blocks)
  }

  /** One poll: descriptors first, then expired timers. A blocking wait polls until somebody is queued. */
  function Poll(s: State, now: int, evs: seq<nat>): State
    requires s.mode.Polling?
  {
    var t := Expire(FireAll(s, evs), now);
    if !s.mode.block || t.ready != s.ready then t.(mode := Dispatching, lastPoll := now) else t
  }

  /** The jump at the end of `dill_wait`: the head of the queue runs with the result of its wait. */
  function Dispatch(s: State): (State, Ret) {
    if s.ready == [] || s.ready[0] >= |s.crs| then (s, Blocks)
    else
      var o := s.ready[0];
      (s.(ready := s.ready[1..], running := o, mode := Running, crs := s.crs[o := s.crs[o].(clauses := [])]),
       Returned(s.crs[o].id, s.crs[o].err))
  }

  // ------------------------------------------------------------------ every step keeps the invariant

  lemma TryNowInv(s: State, mine: Key, id: int, val: Bytes)
    requires Inv(s) && s.mode == Running && (mine.In? || mine.Out?) && mine.ch < |s.halves|
    ensures Inv(TryNow(s, mine, id, val).0)
  {
    Parts(s);
    if !IsDone(s, mine.ch) && On(s, Peer(mine)) != [] {
      var c := On(s, Peer(mine))[0];
      assert ListOk(s, Peer(mine), c);
      if |val| != Len(s, c) {
        TriggerInv(s, c, EMSGSIZE);
      } else {
        MeetInv(s, c, mine, id, if mine.Out? then val else Val(s, c));
      }
    }
  }

  /** A send or receive that cannot be served at once may be registered. */
  lemma TryNowJoinable(s: State, mine: Key, id: int, val: Bytes)
    requires Base(s) && s.mode == Running && (mine.In? || mine.Out?) && mine.ch < |s.halves|
    requires TryNow(s, mine, id, val).1 == Blocks
    ensures Joinable(s.(mode := Suspending), mine)
  {
  }

  lemma OtherBelow(n: nat, h: nat)
    requires n % 2 == 0 && h < n
    ensures Other(h) < n
  {
  }

  lemma OtherHalf(s: State, h: nat)
    requires Base(s) && h < |s.halves|
    ensures Other(h) < |s.halves|
  {
    OtherBelow(|s.halves|, h);
  }

  lemma ExchangeInv(s: State, mine: Key, h: nat, val: Bytes, deadline: int)
    requires Inv(s) && s.mode == Running && (mine.In? || mine.Out?) && (mine.ch == h || mine.ch == Other(h))
    ensures Inv(Exchange(s, mine, h, val, deadline).0)
  {
    if CanBlock(s) && IsOpen(s, h) {
      Parts(s);
      OtherHalf(s, h);
      TryNowInv(s, mine, 0, val);
      if TryNow(s, mine, 0, val).1 == Blocks && deadline != 0 {
        TryNowJoinable(s, mine, 0, val);
        BlockInv(s, 0, [Request(mine, val)], deadline);
      }
    }
  }

  lemma {:induction false} ScanInv(s: State, cls: seq<Choice>, i: nat)
    requires Inv(s) && Base(s) && s.mode == Running && i <= |cls|
    ensures Inv(Scan(s, cls, i).0)
    ensures Scan(s, cls, i).1 == Blocks ==>
      forall j :: i <= j < |cls| ==> Joinable(s.(mode := Suspending), ChoiceKey(cls[j]))
    decreases |cls| - i
  {
    if i < |cls| && IsOpen(s, cls[i].h) && !cls[i].Malformed? {
      OtherHalf(s, cls[i].h);
      TryNowInv(s, ChoiceKey(cls[i]), i, cls[i].val);
      if TryNow(s, ChoiceKey(cls[i]), i, cls[i].val).1 == Blocks {
        TryNowJoinable(s, ChoiceKey(cls[i]), i, cls[i].val);
        ScanInv(s, cls, i + 1);
      }
    }
  }

  lemma ChooseInv(s: State, cls: seq<Choice>, deadline: int)
    requires Inv(s) && s.mode == Running
    ensures Inv(Choose(s, cls, deadline).0)
  {
    if CanBlock(s) {
      Parts(s);
      ScanInv(s, cls, 0);
      if Scan(s, cls, 0).1 == Blocks && deadline != 0 {
        BlockInv(s, 0, ToRequests(cls), deadline);
      }
    }
  }

  /** A step that moves coroutines between running, queued and blocked, but no clauses. */
  ghost predicate Moves(s: State, t: State) {
    && t.lists == s.lists && t.store == s.store && t.halves == s.halves && |s.crs| <= |t.crs|
    && (forall o :: 0 <= o < |t.crs| ==>
          t.crs[o].clauses == [] || (o < |s.crs| && t.crs[o].clauses == s.crs[o].clauses))
    && (forall o: nat :: IsBlocked(s, o) && s.crs[o].clauses != [] ==>
          IsBlocked(t, o) && t.crs[o].clauses == s.crs[o].clauses)
    && (forall o: nat :: IsBlocked(t, o) && t.crs[o].clauses != [] ==> IsBlocked(s, o))
    && (forall i :: 0 <= i < |t.ready| ==> t.ready[i] < |t.crs| && Resumed(t, t.ready[i]))
  }

  lemma MovesClauses(s: State, t: State)
    requires Clauses(s) && Moves(s, t)
    ensures Clauses(t)
  {
    forall k, c: nat | k in t.lists && c in t.lists[k] ensures ListOk(t, k, c) {
      assert ListOk(s, k, c);
    }
    forall o: nat, c: nat | IsBlocked(t, o) && c in t.crs[o].clauses ensures Waiting(t, c) {
      assert t.crs[o].clauses != [] && IsBlocked(s, o) && Waiting(s, c);
    }
    forall o | 0 <= o < |t.crs| ensures Owned(t, o) {
      assert o >= |s.crs| || Owned(s, o);
    }
  }

  lemma MovesInv(s: State, t: State)
    requires Inv(s) && Base(t) && Moves(s, t)
    ensures Inv(t)
  {
    Parts(s);
    MovesClauses(s, t);
    forall ch | 0 <= ch < |t.halves| ensures Matched(t.store, ch) && Overdue(t, In(ch)) && Overdue(t, Out(ch)) {
      assert Matched(s.store, ch) && Overdue(s, In(ch)) && Overdue(s, Out(ch));
    }
    Whole(t);
  }

  lemma EnterWaitInv(s: State, now: int)
    requires Inv(s) && s.mode == Suspending
    ensures Inv(EnterWait(s, now))
  {
    Parts(s);
    var t := EnterWait(s, now);
    forall i | 0 <= i < |t.ready| ensures t.ready[i] < |t.crs| && Resumed(t, t.ready[i]) {
      RelabelResumed(s, t, t.ready[i]);
    }
    MovesInv(s, t);
  }

  /** A coroutine that ends, or waits for nothing, leaves the processor for good. */
  lemma EndInv(s: State, now: int)
    requires Inv(s) && s.mode == Running
    ensures Inv(EnterWait(s, now))
  {
    Parts(s);
    var t := EnterWait(s, now);
    forall i | 0 <= i < |t.ready| ensures t.ready[i] < |t.crs| && Resumed(t, t.ready[i]) {
      RelabelResumed(s, t, t.ready[i]);
    }
    MovesInv(s, t);
  }

  lemma YieldInv(s: State, now: int)
    requires Inv(s) && s.mode == Running
    ensures Inv(Yield(s, now).0)
  {
    if CanBlock(s) {
      Parts(s);
      var t := Yield(s, now).0;
      forall i | 0 <= i < |t.ready| ensures t.ready[i] < |t.crs| && Resumed(t, t.ready[i]) {
        if i < |s.ready| { QueuedResumed(s, t, i); }
      }
      MovesInv(s, t);
    }
  }

  /** A queued coroutine keeps its result while others move. */
  lemma QueuedResumed(s: State, t: State, i: nat)
    requires Clauses(s) && i < |s.ready| && s.ready[i] < |t.crs| && t.store == s.store
    requires s.ready[i] < |s.crs| ==> t.crs[s.ready[i]] == s.crs[s.ready[i]]
    ensures Resumed(t, s.ready[i])
  {
    var o := s.ready[i];
    var cs := s.crs[o].clauses;
    assert Resumed(s, o);
    if cs != [] {
      var f :| 0 <= f < |cs| && FiredBy(s, o, f);
      assert FiredBy(t, o, f);
    }
  }

  lemma GoInv(s: State)
    requires Inv(s) && s.mode == Running
    ensures Inv(Go(s).0) && Go(s).0.mode == Running
  {
    if CanBlock(s) {
      Parts(s);
      var t := Go(s).0;
      forall i | 0 <= i < |t.ready| ensures t.ready[i] < |t.crs| && Resumed(t, t.ready[i]) {
        if i < |s.ready| { QueuedResumed(s, t, i); }
      }
      MovesInv(s, t);
    }
  }

  lemma DispatchBase(s: State)
    requires Base(s) && s.mode == Dispatching
    ensures Base(Dispatch(s).0)
  {
    var t := Dispatch(s).0;
    assert forall i :: 0 <= i < |t.ready| ==> t.ready[i] == s.ready[i + 1];
  }

  lemma DispatchMoves(s: State)
    requires Base(s) && Clauses(s) && s.mode == Dispatching
    ensures Moves(s, Dispatch(s).0)
  {
    var t := Dispatch(s).0;
    forall i | 0 <= i < |t.ready| ensures t.ready[i] < |t.crs| && Resumed(t, t.ready[i]) {
      DispatchResumed(s, i);
    }
    DispatchBlocked(s, t);
  }

  lemma DispatchResumed(s: State, i: nat)
    requires Base(s) && Clauses(s) && i + 1 < |s.ready|
    ensures var t := Dispatch(s).0; i < |t.ready| && t.ready[i] < |t.crs| && Resumed(t, t.ready[i])
  {
    QueuedResumed(s, Dispatch(s).0, i + 1);
  }

  /** The head of the queue runs; who is blocked stays so. */
  lemma DispatchBlocked(s: State, t: State)
    requires Base(s) && s.mode == Dispatching && t == Dispatch(s).0
    ensures forall o: nat :: o < |s.crs| && o != t.running ==>
      t.crs[o] == s.crs[o] && (IsBlocked(t, o) <==> IsBlocked(s, o))
    ensures t.running < |s.crs| && t.crs[t.running].clauses == [] && t.running in s.ready
    ensures t.mode == Running && |t.crs| == |s.crs|
  {
    assert s.ready == [t.running] + t.ready;
  }

  lemma DispatchInv(s: State)
    requires Inv(s) && s.mode == Dispatching
    ensures Inv(Dispatch(s).0) && Dispatch(s).0.mode == Running && s.ready != [] && Dispatch(s).0.running == s.ready[0]
  {
    Parts(s);
    DispatchBase(s);
    DispatchMoves(s);
    MovesInv(s, Dispatch(s).0);
  }

  lemma PollInv(s: State, now: int, evs: seq<nat>)
    requires Inv(s) && s.mode.Polling?
    ensures Inv(Poll(s, now, evs)) && (Poll(s, now, evs).mode == s.mode || Poll(s, now, evs).mode == Dispatching)
  {
    FireAllKeeps(s, evs);
    FireAllQueues(s, evs);
    var u := FireAll(s, evs);
    ExpireKeeps(u, now);
    ExpireQueues(u, now);
    var t := Expire(u, now);
    if !s.mode.block || t.ready != s.ready {
      PolledInv(s, t, now);
    }
  }

  lemma PolledInv(s: State, t: State, now: int)
    requires Inv(s) && Inv(t) && s.mode.Polling? && t.mode == s.mode && s.ready <= t.ready
    requires !s.mode.block || t.ready != s.ready
    ensures Inv(t.(mode := Dispatching, lastPoll := now))
  {
    Parts(s);
    Parts(t);
    var u := t.(mode := Dispatching, lastPoll := now);
    forall i | 0 <= i < |u.ready| ensures u.ready[i] < |u.crs| && Resumed(u, u.ready[i]) {
      RelabelResumed(t, u, u.ready[i]);
    }
    MovesInv(t, u);
  }

  /** Flags matter to nobody but new arrivals. */
  lemma FlagsKeep(s: State, h: nat, half: Half)
    requires Inv(s) && s.mode == Running && h < |s.halves|
    ensures var t := SetHalf(s, h, half);
      Draining(t) && (half.done == s.halves[h].done ==> DoneEmpty(t))
  {
    Parts(s);
    var t := SetHalf(s, h, half);
    forall k, c: nat | k in t.lists && c in t.lists[k] ensures ListOk(t, k, c) {
      assert ListOk(s, k, c);
    }
    forall o: nat, c: nat | IsBlocked(t, o) && c in t.crs[o].clauses ensures Waiting(t, c) {
      assert IsBlocked(s, o) && Waiting(s, c);
    }
    forall o | 0 <= o < |t.crs| ensures Owned(t, o) {
      assert Owned(s, o);
    }
    forall i | 0 <= i < |t.ready| ensures t.ready[i] < |t.crs| && Resumed(t, t.ready[i]) {
      RelabelResumed(s, t, t.ready[i]);
    }
    forall ch | 0 <= ch < |t.halves| ensures Matched(t.store, ch) && Overdue(t, In(ch)) && Overdue(t, Out(ch)) {
      assert Matched(s.store, ch) && Overdue(s, In(ch)) && Overdue(s, Out(ch));
    }
  }

  /** Draining a half-channel empties both of its lists. */
  lemma DrainHalfKeeps(s: State, ch: nat)
    requires Draining(s) && In(ch) in s.lists && Out(ch) in s.lists
    ensures var t := DrainHalf(s, ch);
      && Draining(t) && t.halves == s.halves && t.mode == s.mode && t.lists.Keys == s.lists.Keys
      && On(t, In(ch)) == [] && On(t, Out(ch)) == []
    ensures DoneEmpty(s) ==> DoneEmpty(DrainHalf(s, ch))
  {
    DrainKeeps(s, In(ch), EPIPE);
    DrainQueues(s, In(ch), EPIPE);
    var u := Drain(s, In(ch), EPIPE);
    DrainKeeps(u, Out(ch), EPIPE);
    DrainQueues(u, Out(ch), EPIPE);
    DrainEmpty(u, Out(ch), EPIPE, In(ch));
  }

  lemma DrainHalfEmpty(s: State, ch: nat, k: Key)
    requires On(s, k) == []
    ensures On(DrainHalf(s, ch), k) == []
  {
    DrainEmpty(s, In(ch), EPIPE, k);
    DrainEmpty(Drain(s, In(ch), EPIPE), Out(ch), EPIPE, k);
  }

  lemma ChDoneInv(s: State, h: nat)
    requires Inv(s) && s.mode == Running
    ensures Inv(ChDone(s, h).0) && ChDone(s, h).0.mode == Running
  {
    if IsOpen(s, h) && !IsDone(s, Other(h)) && Other(h) < |s.halves| {
      var ch := Other(h);
      var t := SetHalf(s, ch, s.halves[ch].(done := true));
      FlagsKeep(s, ch, s.halves[ch].(done := true));
      HalfKeys(s, ch);
      DrainHalfKeeps(t, ch);
      var u := DrainHalf(t, ch);
      forall c | 0 <= c < |u.halves| && u.halves[c].done
        ensures In(c) in u.lists && Out(c) in u.lists && u.lists[In(c)] == [] && u.lists[Out(c)] == []
      {
        HalfKeys(s, c);
        if c != ch {
          Parts(s);
          DrainHalfEmpty(t, ch, In(c));
          DrainHalfEmpty(t, ch, Out(c));
        }
      }
      Drained(u);
    }
  }

  lemma HalfKeys(s: State, ch: nat)
    requires Inv(s) && ch < |s.halves|
    ensures In(ch) in s.lists && Out(ch) in s.lists && Other(ch) < |s.halves|
  {
    assert Holds(Scheduling, s);
    OtherBelow(|s.halves|, ch);
  }

  lemma HCloseInv(s: State, h: nat)
    requires Inv(s) && s.mode == Running
    ensures Inv(HClose(s, h).0) && HClose(s, h).0.mode == Running
  {
    if IsOpen(s, h) {
      var t := SetHalf(s, h, s.halves[h].(closed := true));
      FlagsKeep(s, h, s.halves[h].(closed := true));
      if IsOpen(s, Other(h)) {
        Drained(t);
      } else {
        HalfKeys(s, h);
        HalfKeys(s, Other(h));
        CloseBoth(t, if h % 2 == 1 then h - 1 else h);
      }
    }
  }

  lemma CloseBoth(s: State, first: nat)
    requires Draining(s) && DoneEmpty(s) && first + 1 < |s.halves|
    requires In(first) in s.lists && Out(first) in s.lists && In(first + 1) in s.lists && Out(first + 1) in s.lists
    ensures var t := DrainHalf(DrainHalf(s, first), first + 1); Inv(t) && t.mode == s.mode && t.halves == s.halves
    ensures var t := DrainHalf(DrainHalf(s, first), first + 1);
      On(t, In(first)) == [] && On(t, Out(first)) == [] && On(t, In(first + 1)) == [] && On(t, Out(first + 1)) == []
  {
    DrainHalfKeeps(s, first);
    var u := DrainHalf(s, first);
    DrainHalfKeeps(u, first + 1);
    DrainHalfEmpty(u, first + 1, In(first));
    DrainHalfEmpty(u, first + 1, Out(first));
    Drained(DrainHalf(u, first + 1));
  }

  lemma {:induction false} OkListNone(store: seq<Clause>, k: Key, n: nat)
    requires n <= |store| && forall c :: 0 <= c < n ==> store[c].key != k
    ensures OkList(store, k, n) == []
  {
    if n > 0 { OkListNone(store, k, n - 1); }
  }

  lemma ChMakeBase(s: State)
    requires Base(s)
    ensures Base(ChMake(s))
  {
  }

  lemma ChMakeMeeting(s: State)
    requires Rendezvous(s) && Base(s)
    ensures Rendezvous(ChMake(s))
  {
  }

  lemma ChMakeHistory(s: State, ch: nat)
    requires Base(s) && History(s) && ch < |s.halves| + 2
    ensures var t := ChMake(s); Matched(t.store, ch) && Overdue(t, In(ch)) && Overdue(t, Out(ch))
  {
    var t := ChMake(s);
    if ch < |s.halves| {
      assert Matched(s.store, ch) && Overdue(s, In(ch)) && Overdue(s, Out(ch));
    } else {
      OkListNone(t.store, In(ch), |t.store|);
      OkListNone(t.store, Out(ch), |t.store|);
    }
  }

  lemma ChMakeInv(s: State)
    requires Inv(s) && s.mode == Running
    ensures Inv(ChMake(s))
  {
    Parts(s);
    var t := ChMake(s);
    ChMakeBase(s);
    ChMakeClauses(s);
    ChMakeMeeting(s);
    forall ch | 0 <= ch < |t.halves| ensures Matched(t.store, ch) && Overdue(t, In(ch)) && Overdue(t, Out(ch)) {
      ChMakeHistory(s, ch);
    }
    Whole(t);
  }

  lemma ChMakeClauses(s: State)
    requires Base(s) && Clauses(s)
    ensures Clauses(ChMake(s))
  {
    var t := ChMake(s);
    forall k, c: nat | k in t.lists && c in t.lists[k] ensures ListOk(t, k, c) {
      assert k in s.lists && ListOk(s, k, c);
    }
    forall o: nat, c: nat | IsBlocked(t, o) && c in t.crs[o].clauses ensures Waiting(t, c) {
      assert IsBlocked(s, o) && Waiting(s, c) && Owned(s, o);
      assert s.store[c].key in s.lists;
    }
    forall o | 0 <= o < |t.crs| ensures Owned(t, o) {
      assert Owned(s, o);
    }
    forall i | 0 <= i < |t.ready| ensures t.ready[i] < |t.crs| && Resumed(t, t.ready[i]) {
      RelabelResumed(s, t, t.ready[i]);
    }
  }

  /** `dill_no_blocking`. */
  function NoBlocking(s: State, val: bool): State {
    if s.running < |s.crs| then s.(crs := s.crs[s.running := s.crs[s.running].(noBlocking := val)]) else s
  }

  lemma NoBlockingInv(s: State, val: bool)
    requires Inv(s) && s.mode == Running
    ensures Inv(NoBlocking(s, val))
  {
    Parts(s);
    var t := NoBlocking(s, val);
    forall i | 0 <= i < |t.ready| ensures t.ready[i] < |t.crs| && Resumed(t, t.ready[i]) {
      QueuedResumed(s, t, i);
    }
    MovesInv(s, t);
  }
}
