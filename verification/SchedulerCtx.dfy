/** The scheduler as it is written: fields updated in place, lists searched and emptied in
    loops. Every method is proved to do what the corresponding step does. */
module SchedulerCtx {
  import opened Scheduler
  import opened SchedulerMeet
  import opened SchedulerBlock
  import opened SchedulerDrain
  import opened SchedulerSteps
  import opened SchedulerRuns
  import opened SchedulerResults
  import opened SchedulerEffects
  import opened SchedulerTurns

  /** Taking one clause off the one list it is on withdraws it. */
  lemma {:induction false} DropOneMore(l: seq<nat>, cs: set<nat>, c: nat)
    ensures Drop(Drop(l, cs), {c}) == Drop(l, cs + {c})
  {
    if l != [] {
      var d := Drop(l[1..], cs);
      DropOneMore(l[1..], cs, c);
      if l[0] in cs {
        assert Drop(l, cs) == d;
      } else {
        assert Drop(l, cs) == [l[0]] + d && ([l[0]] + d)[1..] == d;
      }
    }
  }

  lemma {:induction false} DropAbsent(l: seq<nat>, cs: set<nat>, c: nat)
    requires c !in l
    ensures Drop(l, cs + {c}) == Drop(l, cs)
  {
    if l != [] {
      DropAbsent(l[1..], cs, c);
    }
  }

  /** A clause is on no list but the one it waits on. */
  ghost predicate Keyed(s: State) {
    forall k, c: nat :: k in s.lists && c in s.lists[k] ==> c < |s.store| && s.store[c].key == k
  }

  class Ctx {
    var mode: Mode
    var running: nat
    var ready: seq<nat>
    var crs: seq<Cr>
    var halves: seq<Half>
    var lists: map<Key, seq<nat>>
    var store: seq<Clause>
    var lastPoll: int

    ghost function View(): State
      reads this
    {
      State(mode, running, ready, crs, halves, lists, store, lastPoll)
    }

    constructor (now: int)
      ensures View() == Initial(now) && Inv(View())
    {
      mode, running, ready, crs, halves := Running, 0, [], [Cr(0, 0, [], false)], [];
      lists, store, lastPoll := map[Timers := [], Fds := []], [], now;
      InitialInv(now);
    }

    /** The `cancel` function of a clause: it leaves the list it waits on. */
    method Cancel(c: nat)
      requires c < |store| && store[c].key in lists
      modifies `lists
      ensures lists == old(lists)[store[c].key := Drop(old(lists[store[c].key]), {c})]
    {
      var k := store[c].key;
      lists := lists[k := Drop(lists[k], {c})];
    }

    /** `dill_docancel`. The precondition on `o` is the assertion at its start. */
    method DoCancel(o: nat, id: int, err: int)
      requires Base(View()) && o < |crs| && o !in ready
      requires forall i :: 0 <= i < |crs[o].clauses| ==> crs[o].clauses[i] < |store|
      requires Keyed(View())
      modifies `lists, `crs, `ready
      ensures View() == Resume(Withdraw(old(View()), ToSet(old(crs)[o].clauses)), o, id, err)
    {
      var cs := crs[o].clauses;
      ghost var s := View();
      assert Withdraw(s, ToSet(cs[..0])).lists == lists by {
        forall k | k in lists ensures Drop(lists[k], ToSet(cs[..0])) == lists[k] {
          DropNone(lists[k], ToSet(cs[..0]));
        }
      }
      for i := 0 to |cs|
        invariant lists == Withdraw(s, ToSet(cs[..i])).lists && crs == s.crs && ready == s.ready
      {
        CancelWithdraws(s, cs, i);
        Cancel(cs[i]);
      }
      assert cs[..|cs|] == cs;
      crs := crs[o := crs[o].(id := id, err := err)];
      ready := ready + [o];
    }

    /** `dill_trigger` on a clause that waits. */
    method TriggerClause(c: nat, err: int)
      requires Firing(View()) && c < |store| && ListOk(View(), store[c].key, c)
      modifies `lists, `crs, `ready, `store
      ensures View() == Trigger(old(View()), c, err)
    {
      FiringParts(View());
      CanCancel(View(), c);
      ghost var s := View();
      store := store[c := store[c].(status := Fired(err))];
      assert Base(View()) && Keyed(View());
      DoCancel(store[c].cr, store[c].id, err);
    }

    /** The loops of `dill_chdone` and `dill_halfchan_term`. */
    method DrainList(k: Key, err: int)
      requires Firing(View()) && k in lists
      modifies `lists, `crs, `ready, `store
      ensures View() == Drain(old(View()), k, err) && Firing(View()) && k in lists && lists[k] == []
    {
      while lists[k] != []
        invariant Firing(View()) && k in lists && Drain(View(), k, err) == Drain(old(View()), k, err)
        decreases |lists[k]|
      {
        TriggerFiring(View(), k, lists[k][0], err);
        TriggerClause(lists[k][0], err);
      }
    }

    /** The expired-timer loop of `dill_wait`. */
    method ExpireTimers(now: int)
      requires Firing(View())
      modifies `lists, `crs, `ready, `store
      ensures View() == Expire(old(View()), now) && Firing(View()) && !Due(View(), now)
    {
      FiringParts(View());
      while lists[Timers] != [] && store[lists[Timers][0]].deadline <= now
        invariant Firing(View()) && Timers in lists && Expire(View(), now) == Expire(old(View()), now)
        invariant lists[Timers] != [] ==> lists[Timers][0] < |store|
        decreases |lists[Timers]|
      {
        TriggerFiring(View(), Timers, lists[Timers][0], ETIMEDOUT);
        TriggerClause(lists[Timers][0], ETIMEDOUT);
        FiringParts(View());
      }
    }

    /** `dill_waitfor` for a clause that has been put on its list, `dill_timer` if it is a timer. */
    method WaitFor(id: int, key: Key, deadline: int, val: Bytes)
      requires running < |crs| && key in lists
      modifies `lists, `crs, `store
      ensures View() == AddClause(old(View()), id, key, deadline, val)
    {
      var c := |store|;
      store := store + [Clause(running, id, key, deadline, val, Unfired)];
      if key == Timers {
        lists := lists[key := TimerInsert(store, lists[key], c)];
      } else {
        lists := lists[key := lists[key] + [c]];
      }
      crs := crs[running := crs[running].(clauses := [c] + crs[running].clauses)];
    }

    /** Serves a send or a receive if somebody waits on the other side. */
    method Serve(mine: Key, id: int, val: Bytes) returns (ret: Ret)
      requires Inv(View()) && mode == Running && (mine.In? || mine.Out?) && mine.ch < |halves|
      modifies `lists, `crs, `ready, `store
      ensures (View(), ret) == TryNow(old(View()), mine, id, val) && Inv(View())
    {
      TryNowInv(View(), mine, id, val);
      Parts(View());
      if halves[mine.ch].done { return Returned(-1, EPIPE); }
      var theirs := Peer(mine);
      if lists[theirs] == [] { return Blocks; }
      var c := lists[theirs][0];
      assert ListOk(View(), theirs, c);
      if |val| != |store[c].val| {
        TriggerClause(c, EMSGSIZE);
        return Returned(-1, EMSGSIZE);
      }
      Transfer(c, mine, id, if mine.Out? then val else store[c].val);
      return Returned(0, 0);
    }

    /** The bytes are copied, and the peer is resumed. */
    method Transfer(c: nat, mine: Key, id: int, msg: Bytes)
      requires Base(View()) && Clauses(View()) && mode == Running && c < |store| && ListOk(View(), store[c].key, c)
      modifies `lists, `crs, `ready, `store
      ensures View() == Meet(old(View()), c, mine, id, msg)
    {
      ExtendsClauses(View(), store[c := store[c].(val := msg)]);
      store := store[c := store[c].(val := msg)];
      TriggerClause(c, 0);
      store := store + [Clause(running, id, mine, 0, msg, Fired(0))];
    }

    method WaitForOne(mine: Key, val: Bytes, deadline: int)
      requires Inv(View()) && mode == Running && mine in lists
      modifies `lists, `crs, `store, `mode
      ensures View() == Block(old(View()), 0, [Request(mine, val)], deadline)
    {
      Parts(View());
      mode := Suspending;
      WaitFor(0, mine, 0, val);
      ghost var s := View();
      assert s == AddAll(old(View()).(mode := Suspending), 0, [Request(mine, val)]) by {
        assert [Request(mine, val)][1..] == [];
        assert AddAll(s, 1, []) == s;
      }
      if deadline >= 0 { WaitFor(1, Timers, deadline, []); }
    }

    method ChSend(h: nat, val: Bytes, deadline: int) returns (ret: Ret)
      requires Inv(View()) && mode == Running
      modifies this
      ensures (View(), ret) == Send(old(View()), h, val, deadline) && Inv(View())
      ensures Tells(old(View()), [SendOn(h, val)], (View(), ret))
    {
      ExchangeTells(View(), SendOn(h, val), deadline);
      ExchangeInv(View(), Out(Other(h)), h, val, deadline);
      Parts(View());
      if crs[running].noBlocking { return Returned(-1, ECANCELED); }
      if h >= |halves| || halves[h].closed { return Returned(-1, EBADF); }
      ret := Serve(Out(Other(h)), 0, val);
      if ret != Blocks { return; }
      if deadline == 0 { return Returned(-1, ETIMEDOUT); }
      WaitForOne(Out(Other(h)), val, deadline);
    }

    method ChRecv(h: nat, buf: Bytes, deadline: int) returns (ret: Ret)
      requires Inv(View()) && mode == Running
      modifies this
      ensures (View(), ret) == Recv(old(View()), h, buf, deadline) && Inv(View())
      ensures Tells(old(View()), [RecvOn(h, buf)], (View(), ret))
    {
      ExchangeTells(View(), RecvOn(h, buf), deadline);
      ExchangeInv(View(), In(h), h, buf, deadline);
      Parts(View());
      if crs[running].noBlocking { return Returned(-1, ECANCELED); }
      if h >= |halves| || halves[h].closed { return Returned(-1, EBADF); }
      ret := Serve(In(h), 0, buf);
      if ret != Blocks { return; }
      if deadline == 0 { return Returned(-1, ETIMEDOUT); }
      WaitForOne(In(h), buf, deadline);
    }

    /** The first loop of `dill_choose`. */
    method ScanChoices(cls: seq<Choice>) returns (ret: Ret)
      requires Inv(View()) && mode == Running
      modifies `lists, `crs, `ready, `store
      ensures (View(), ret) == Scan(old(View()), cls, 0) && Inv(View())
      ensures Tells(old(View()), cls, (View(), ret))
    {
      ScanInv'(View(), cls);
      var i := 0;
      while i != |cls|
        invariant 0 <= i <= |cls| && View() == old(View()) && Scan(View(), cls, i) == Scan(old(View()), cls, 0)
      {
        var cl := cls[i];
        if cl.h >= |halves| || halves[cl.h].closed { return Returned(i, EBADF); }
        if cl.Malformed? { return Returned(i, EINVAL); }
        HalfKeys(View(), cl.h);
        ret := Serve(ChoiceKey(cl), i, cl.val);
        if ret != Blocks { return Returned(i, ret.errno); }
        i := i + 1;
      }
      return Blocks;
    }

    /** The second loop of `dill_choose`. */
    method RegisterAll(reqs: seq<Request>)
      requires Inv(View()) && Below(View(), 0) && Requests(View(), reqs) && mode == Suspending
      modifies `lists, `crs, `store
      ensures View() == AddAll(old(View()), 0, reqs) && Inv(View()) && Below(View(), |reqs|)
    {
      AddAllInv(View(), 0, reqs);
      var i := 0;
      assert reqs[0..] == reqs;
      while i != |reqs|
        invariant 0 <= i <= |reqs| && running == old(running) && |crs| == old(|crs|)
        invariant Inv(View()) && Below(View(), i) && Requests(View(), reqs[i..]) && mode == Suspending
        invariant AddAll(View(), i, reqs[i..]) == AddAll(old(View()), 0, reqs)
      {
        ghost var s, rest := View(), reqs[i..];
        assert Joinable(s, rest[0].key) && rest[1..] == reqs[i + 1..];
        AddOne(s, i, rest);
        WaitFor(i, reqs[i].key, 0, reqs[i].val);
        i := i + 1;
      }
    }

    method ChChoose(cls: seq<Choice>, deadline: int) returns (ret: Ret)
      requires Inv(View()) && mode == Running
      modifies this
      ensures (View(), ret) == Choose(old(View()), cls, deadline) && Inv(View())
      ensures Tells(old(View()), cls, (View(), ret))
    {
      ChooseTells(View(), cls, deadline);
      ChooseInv(View(), cls, deadline);
      ChooseReady(View(), cls);
      if crs[running].noBlocking { return Returned(-1, ECANCELED); }
      ret := ScanChoices(cls);
      if ret != Blocks { return; }
      ScanBlocked(old(View()), cls, 0);
      if deadline == 0 { return Returned(-1, ETIMEDOUT); }
      SuspendInv(View(), 0);
      mode := Suspending;
      RegisterAll(ToRequests(cls));
      Parts(View());
      if deadline >= 0 { WaitFor(|cls|, Timers, deadline, []); }
    }

    method DrainBoth(ch: nat)
      requires Draining(View()) && In(ch) in lists && Out(ch) in lists
      modifies `lists, `crs, `ready, `store
      ensures View() == DrainHalf(old(View()), ch) && Draining(View()) && lists.Keys == old(lists.Keys)
    {
      DrainHalfKeeps(View(), ch);
      DrainKeeps(View(), In(ch), EPIPE);
      DrainingParts(View());
      DrainList(In(ch), EPIPE);
      DrainList(Out(ch), EPIPE);
    }

    method ChanDone(h: nat) returns (ret: Ret)
      requires Inv(View()) && mode == Running
      modifies this
      ensures (View(), ret) == ChDone(old(View()), h) && Inv(View())
      ensures ChDoneIs(old(View()), h, if h % 2 == 0 then h + 1 else h - 1, View(), ret)
    {
      ChDoneSays(View(), h, if h % 2 == 0 then h + 1 else h - 1);
      ChDoneInv(View(), h);
      if h >= |halves| || halves[h].closed { return Returned(-1, EBADF); }
      var ch := Other(h);
      HalfKeys(View(), h);
      HalfKeys(View(), ch);
      if halves[ch].done { return Returned(-1, EPIPE); }
      FlagsKeep(View(), ch, halves[ch].(done := true));
      halves := halves[ch := halves[ch].(done := true)];
      DrainBoth(ch);
      return Returned(0, 0);
    }

    /** `dill_hclose` on a channel handle. */
    method Close(h: nat) returns (ret: Ret)
      requires Inv(View()) && mode == Running
      modifies this
      ensures (View(), ret) == HClose(old(View()), h) && Inv(View())
      ensures HCloseIs(old(View()), h, if h % 2 == 0 then h + 1 else h - 1, View(), ret)
    {
      HCloseSays(View(), h, if h % 2 == 0 then h + 1 else h - 1);
      ret := CloseHalf(h);
    }

    /** `dill_halfchan_close`. */
    method CloseHalf(h: nat) returns (ret: Ret)
      requires Inv(View()) && mode == Running
      modifies this
      ensures (View(), ret) == HClose(old(View()), h) && Inv(View())
    {
      HCloseInv(View(), h);
      if h >= |halves| || halves[h].closed { return Returned(-1, EBADF); }
      HalfKeys(View(), h);
      HalfKeys(View(), Other(h));
      FlagsKeep(View(), h, halves[h].(closed := true));
      var other := halves[Other(h)].closed;
      halves := halves[h := halves[h].(closed := true)];
      if other {
        var first := if h % 2 == 1 then h - 1 else h;
        DrainBoth(first);
        DrainBoth(first + 1);
      }
      return Returned(0, 0);
    }

    /** The descriptors a poll reports. */
    method FireEvents(evs: seq<nat>)
      requires Inv(View()) && mode.Polling?
      modifies `lists, `crs, `ready, `store
      ensures View() == FireAll(old(View()), evs) && Inv(View())
    {
      FireAllKeeps(View(), evs);
      var i := 0;
      assert evs[0..] == evs;
      while i != |evs|
        invariant 0 <= i <= |evs| && Inv(View()) && FireAll(View(), evs[i..]) == FireAll(old(View()), evs)
      {
        Parts(View());
        assert evs[i..][1..] == evs[i + 1..];
        if evs[i] in lists[Fds] {
          TriggerFiring(View(), Fds, evs[i], 0);
          TriggerInv(View(), evs[i], 0);
          TriggerClause(evs[i], 0);
        }
        i := i + 1;
      }
    }

    method PollStep(now: int, evs: seq<nat>)
      requires Inv(View()) && mode.Polling?
      modifies this
      ensures View() == Poll(old(View()), now, evs) && Inv(View())
      ensures Polls(old(View()), View(), now, evs)
      ensures mode == Dispatching || (mode == old(mode) && ready == old(ready))
    {
      PollInv(View(), now, evs);
      PollSays(View(), now, evs);
      FireAllQueues(View(), evs);
      ExpireQueues(FireAll(View(), evs), now);
      var queued := ready;
      FireEvents(evs);
      FiringInv(View());
      ExpireTimers(now);
      if !mode.block || ready != queued {
        mode, lastPoll := Dispatching, now;
      }
    }

    /** The poll loop of `dill_wait`. The list of polls is what the environment does. */
    method PollUntilReady(polls: seq<Op>) returns (ghost ops: seq<Op>)
      requires Inv(View()) && mode.Polling? && (mode.block ==> ready == [])
      requires forall i :: 0 <= i < |polls| ==> polls[i].PollOnce?
      modifies this
      ensures View() == Run(old(View()), ops) && Inv(View())
      ensures mode == Dispatching || (mode.Polling? && (mode.block ==> ready == []))
    {
      ops := [];
      var i := 0;
      while mode.Polling? && i < |polls|
        invariant i <= |polls| && Inv(View()) && View() == Run(old(View()), ops)
        invariant mode == Dispatching || (mode.Polling? && (mode.block ==> ready == []))
        decreases |polls| - i
      {
        RunPoll(old(View()), ops, polls[i]);
        PollStep(polls[i].now, polls[i].evs);
        ops := ops + [polls[i]];
        i := i + 1;
      }
    }

    /** The end of `dill_wait`. */
    method JumpToNext() returns (ret: Ret)
      requires Inv(View()) && mode == Dispatching
      modifies this
      ensures (View(), ret) == Dispatch(old(View())) && Inv(View()) && mode == Running
    {
      DispatchInv(View());
      Parts(View());
      var o := ready[0];
      ret := Returned(crs[o].id, crs[o].err);
      ready, running, mode := ready[1..], o, Running;
      crs := crs[o := crs[o].(clauses := [])];
    }

    /** `dill_wait`: polls, as many times as it takes to have somebody to run, and jumps. `woken` is
        false if the polls end before anybody is queued. */
    method Wait(now: int, polls: seq<Op>) returns (woken: bool, ret: Ret, ghost ops: seq<Op>)
      requires Inv(View()) && mode == Suspending && forall i :: 0 <= i < |polls| ==> polls[i].PollOnce?
      modifies this
      ensures Inv(View())
      ensures if woken then (View(), ret) == Dispatch(Run(EnterWait(old(View()), now), ops)) && mode == Running
              else View() == Run(EnterWait(old(View()), now), ops) && mode.Polling? && (mode.block ==> ready == [])
    {
      EnterWaitInv(View(), now);
      ops := [];
      if ready == [] || now > lastPoll + 1000 {
        mode := Polling(ready == []);
        ops := PollUntilReady(polls);
      } else {
        mode := Dispatching;
      }
      if mode.Polling? { return false, Blocks, ops; }
      ret := JumpToNext();
      woken := true;
    }
  }

  lemma RunPoll(s: State, ops: seq<Op>, op: Op)
    requires Run(s, ops).mode.Polling? && op.PollOnce?
    ensures Run(s, ops + [op]) == Poll(Run(s, ops), op.now, op.evs)
  {
    assert (ops + [op])[..|ops|] == ops;
  }

  lemma CancelWithdraws(s: State, cs: seq<nat>, i: nat)
    requires i < |cs| && cs[i] < |s.store| && s.store[cs[i]].key in s.lists
    requires Keyed(s)
    ensures var l, k := Withdraw(s, ToSet(cs[..i])).lists, s.store[cs[i]].key;
      l[k := Drop(l[k], {cs[i]})] == Withdraw(s, ToSet(cs[..i + 1])).lists
  {
    var c := cs[i];
    assert ToSet(cs[..i + 1]) == ToSet(cs[..i]) + {c};
    forall k | k in s.lists
      ensures var left := Drop(s.lists[k], ToSet(cs[..i]));
        Drop(s.lists[k], ToSet(cs[..i + 1])) == if k == s.store[c].key then Drop(left, {c}) else left
    {
      if k == s.store[c].key {
        DropOneMore(s.lists[k], ToSet(cs[..i]), c);
      } else {
        DropAbsent(s.lists[k], ToSet(cs[..i]), c);
      }
    }
  }

  lemma CanCancel(s: State, c: nat)
    requires Base(s) && Clauses(s) && c < |s.store| && ListOk(s, s.store[c].key, c)
    ensures Keyed(s) && s.store[c].cr < |s.crs| && s.store[c].cr !in s.ready
    ensures var o := s.store[c].cr; forall i :: 0 <= i < |s.crs[o].clauses| ==> s.crs[o].clauses[i] < |s.store|
  {
    assert Owned(s, s.store[c].cr);
    forall k, d: nat | k in s.lists && d in s.lists[k] ensures d < |s.store| && s.store[d].key == k {
      assert ListOk(s, k, d);
    }
  }

  lemma ScanInv'(s: State, cls: seq<Choice>)
    requires Inv(s) && s.mode == Running
    ensures Inv(Scan(s, cls, 0).0) && Tells(s, cls, Scan(s, cls, 0))
  {
    Parts(s);
    ScanInv(s, cls, 0);
    ScanTells(s, cls, 0);
  }

  /** A scan that serves nobody changes nothing. */
  lemma {:induction false} ScanBlocked(s: State, cls: seq<Choice>, i: nat)
    requires Scan(s, cls, i).1 == Blocks
    ensures Scan(s, cls, i).0 == s
    decreases |cls| - i
  {
    if i < |cls| { ScanBlocked(s, cls, i + 1); }
  }

  lemma ChooseReady(s: State, cls: seq<Choice>)
    requires Inv(s) && s.mode == Running
    ensures s.running < |s.crs|
    ensures Scan(s, cls, 0).1 == Blocks ==> Requests(s.(mode := Suspending), ToRequests(cls))
  {
    Parts(s);
    ScanInv(s, cls, 0);
  }

  lemma AddOne(s: State, id: int, reqs: seq<Request>)
    requires Inv(s) && Below(s, id) && Requests(s, reqs) && reqs != [] && s.mode == Suspending
    ensures s.running < |s.crs| && reqs[0].key in s.lists
    ensures var t := AddClause(s, id, reqs[0].key, 0, reqs[0].val);
      Inv(t) && Below(t, id + 1) && Requests(t, reqs[1..]) && AddAll(s, id, reqs) == AddAll(t, id + 1, reqs[1..])
  {
    var t := AddClause(s, id, reqs[0].key, 0, reqs[0].val);
    assert Joinable(s, reqs[0].key);
    AddClauseInv(s, id, reqs[0].key, 0, reqs[0].val);
    AddBelow(s, id, reqs[0].key, 0, reqs[0].val);
    forall i | 1 <= i < |reqs| ensures Joinable(t, reqs[i].key) {
      Parts(s);
      AddJoinable(s, id, reqs[0].key, 0, reqs[0].val, reqs[i].key);
    }
  }

  lemma FiringInv(s: State)
    requires Inv(s) && s.mode != Suspending
    ensures Firing(s)
  {
  }
}
