/** The loops that resume many coroutines: draining a list, expiring timers, polling. */
module SchedulerDrain {
  import opened Scheduler
  import opened SchedulerTrigger
  import opened SchedulerMeet

  /** Enough of the invariant for clauses to fire: who is queued and who owns which clauses. */
  ghost predicate Firing(s: State) {
    s.mode != Suspending && forall a :: a == Scheduling || a == Registration ==> Holds(a, s)
  }

  /** The invariant, but a half-channel that is done may still have to be drained. */
  ghost predicate Draining(s: State) {
    s.mode != Suspending && forall a :: a != Finishing ==> Holds(a, s)
  }

  lemma FiringParts(s: State)
    requires Firing(s)
    ensures Base(s) && Clauses(s)
  {
    assert Holds(Scheduling, s) && Holds(Registration, s);
  }

  lemma DrainingParts(s: State)
    requires Draining(s)
    ensures Base(s) && Clauses(s) && Exclusive(s) && History(s) && Firing(s)
  {
    assert Holds(Scheduling, s) && Holds(Registration, s) && Holds(Meeting, s) && Holds(Past, s);
  }

  lemma Drained(s: State)
    requires Draining(s) && DoneEmpty(s)
    ensures Inv(s)
  {
  }

  lemma TriggerFiring(s: State, k: Key, c: nat, err: int)
    requires Firing(s) && k in s.lists && c in s.lists[k]
    ensures ListOk(s, k, c) && Firing(Trigger(s, c, err))
    ensures Trigger(s, c, err).lists.Keys == s.lists.Keys
    ensures |Trigger(s, c, err).lists[k]| < |s.lists[k]|
  {
    FiringParts(s);
    assert ListOk(s, k, c);
    TriggerBase(s, c, err);
    TriggerClauses(s, c, err);
    DropShorter(s.lists[k], ToSet(s.crs[s.store[c].cr].clauses), c);
  }

  lemma {:induction false} DropLength(l: seq<nat>, cs: set<nat>)
    ensures |Drop(l, cs)| <= |l|
  {
    if l != [] { DropLength(l[1..], cs); }
  }

  lemma {:induction false} DropShorter(l: seq<nat>, cs: set<nat>, c: nat)
    requires c in l && c in cs
    ensures |Drop(l, cs)| < |l|
  {
    if l[0] == c {
      DropLength(l[1..], cs);
    } else {
      DropShorter(l[1..], cs, c);
    }
  }

  /** Every clause on list `k` fails with `err`, from the front. The length shrinks at every
      step while the invariant holds. */
  function Drain(s: State, k: Key, err: int): State
    decreases |On(s, k)|
  {
    if On(s, k) == [] then s
    else
      var t := Trigger(s, On(s, k)[0], err);
      if |On(t, k)| < |On(s, k)| then Drain(t, k, err) else t
  }

  predicate Due(s: State, now: int) {
    On(s, Timers) != [] && On(s, Timers)[0] < |s.store| && s.store[On(s, Timers)[0]].deadline <= now
  }

  /** The expired timers fire, the earliest first. */
  function Expire(s: State, now: int): State
    decreases |On(s, Timers)|
  {
    if !Due(s, now) then s
    else
      var t := Trigger(s, On(s, Timers)[0], ETIMEDOUT);
      if |On(t, Timers)| < |On(s, Timers)| then Expire(t, now) else t
  }

  /** The file descriptors reported by a poll; a clause withdrawn meanwhile is not fired. */
  function FireAll(s: State, evs: seq<nat>): State
    decreases |evs|
  {
    if evs == [] then s
    else FireAll(if evs[0] in On(s, Fds) then Trigger(s, evs[0], 0) else s, evs[1..])
  }

  // ------------------------------------------------------------------ what they keep

  lemma {:induction false} DrainKeeps(s: State, k: Key, err: int)
    requires Draining(s) && k in s.lists && err != 0
    ensures Draining(Drain(s, k, err)) && On(Drain(s, k, err), k) == [] && Drain(s, k, err).lists.Keys == s.lists.Keys
    ensures DoneEmpty(s) ==> DoneEmpty(Drain(s, k, err))
    decreases |On(s, k)|
  {
    if On(s, k) != [] {
      var c := On(s, k)[0];
      TriggerDraining(s, k, c, err);
      if DoneEmpty(s) { TriggerDone(s, c, err); }
      DrainKeeps(Trigger(s, c, err), k, err);
    }
  }

  lemma TriggerDraining(s: State, k: Key, c: nat, err: int)
    requires Draining(s) && k in s.lists && c in s.lists[k] && err != 0
    ensures ListOk(s, k, c) && Draining(Trigger(s, c, err)) && Trigger(s, c, err).lists.Keys == s.lists.Keys
    ensures |Trigger(s, c, err).lists[k]| < |s.lists[k]|
  {
    DrainingParts(s);
    TriggerFiring(s, k, c, err);
    FiringParts(Trigger(s, c, err));
    TriggerExclusive(s, c, err);
    TriggerHistory(s, c, err);
  }

  /** A list that is empty stays empty. */
  lemma {:induction false} DrainEmpty(s: State, k: Key, err: int, k': Key)
    requires On(s, k') == []
    ensures On(Drain(s, k, err), k') == []
    decreases |On(s, k)|
  {
    if On(s, k) != [] {
      var t := Trigger(s, On(s, k)[0], err);
      assert On(t, k') == [];
      if |On(t, k)| < |On(s, k)| { DrainEmpty(t, k, err, k'); }
    }
  }

  lemma {:induction false} ExpireKeeps(s: State, now: int)
    requires Inv(s) && s.mode != Suspending
    ensures Inv(Expire(s, now)) && Expire(s, now).mode == s.mode && !Due(Expire(s, now), now)
    decreases |On(s, Timers)|
  {
    if Due(s, now) {
      var c := On(s, Timers)[0];
      Parts(s);
      TriggerFiring(s, Timers, c, ETIMEDOUT);
      TriggerInv(s, c, ETIMEDOUT);
      ExpireKeeps(Trigger(s, c, ETIMEDOUT), now);
    }
  }

  lemma {:induction false} FireAllKeeps(s: State, evs: seq<nat>)
    requires Inv(s) && s.mode != Suspending
    ensures Inv(FireAll(s, evs)) && FireAll(s, evs).mode == s.mode
    decreases |evs|
  {
    if evs != [] {
      if evs[0] in On(s, Fds) {
        Parts(s);
        TriggerFiring(s, Fds, evs[0], 0);
        TriggerInv(s, evs[0], 0);
        FireAllKeeps(Trigger(s, evs[0], 0), evs[1..]);
      } else {
        FireAllKeeps(s, evs[1..]);
      }
    }
  }

  // ------------------------------------------------------------------ who is resumed

  function Owner(store: seq<Clause>, c: nat): nat {
    if c < |store| then store[c].cr else 0
  }

  function Owners(store: seq<Clause>, l: seq<nat>): seq<nat> {
    if l == [] then [] else [Owner(store, l[0])] + Owners(store, l[1..])
  }

  /** The first `n` timers are those that are not later than `now`. */
  ghost predicate Expired(store: seq<Clause>, l: seq<nat>, now: int, n: nat) {
    && n <= |l|
    && (forall i :: 0 <= i < n ==> l[i] < |store| && store[l[i]].deadline <= now)
    && (forall i :: n <= i < |l| ==> l[i] < |store| && store[l[i]].deadline > now)
  }

  /** A coroutine has one timer at most, so firing the first one withdraws no other timer. */
  lemma OneTimer(s: State, err: int)
    requires Base(s) && Clauses(s) && On(s, Timers) != []
    ensures On(Trigger(s, On(s, Timers)[0], err), Timers) == On(s, Timers)[1..]
  {
    var l := s.lists[Timers];
    assert ListOk(s, Timers, l[0]);
    var o := s.store[l[0]].cr;
    var cs := ToSet(s.crs[o].clauses);
    forall i | 1 <= i < |l| ensures l[i] !in cs {
      assert ListOk(s, Timers, l[i]);
      assert Sorted(s.store, l) && Before(s.store, l[0], l[i]) && l[0] != l[i];
      assert Owned(s, o);
    }
    DropTail(l, cs);
  }

  lemma DropTail(l: seq<nat>, cs: set<nat>)
    requires l != [] && l[0] in cs && forall i :: 1 <= i < |l| ==> l[i] !in cs
    ensures Drop(l, cs) == l[1..]
  {
    DropNone(l[1..], cs);
  }

  lemma {:induction false} DropNone(l: seq<nat>, cs: set<nat>)
    requires forall i :: 0 <= i < |l| ==> l[i] !in cs
    ensures Drop(l, cs) == l
  {
    if l != [] { DropNone(l[1..], cs); }
  }

  lemma NoneExpired(store: seq<Clause>, l: seq<nat>, now: int)
    requires Sorted(store, l) && (l == [] || store[l[0]].deadline > now)
    ensures Expired(store, l, now, 0)
  {
    forall i | 0 < i < |l| ensures store[l[i]].deadline > now {
      assert Before(store, l[0], l[i]);
    }
  }

  lemma OneMoreExpired(store: seq<Clause>, store': seq<Clause>, l: seq<nat>, now: int, m: nat)
    requires l != [] && |store'| == |store|
    requires forall c :: 0 <= c < |store| ==> store'[c].deadline == store[c].deadline && store'[c].cr == store[c].cr
    requires l[0] < |store| && store[l[0]].deadline <= now && Expired(store', l[1..], now, m)
    ensures Expired(store, l, now, m + 1)
    ensures l[m + 1..] == l[1..][m..]
    ensures Owners(store, l[..m + 1]) == [Owner(store, l[0])] + Owners(store', l[1..][..m])
  {
    assert forall i :: 1 <= i < |l| ==> l[i] == l[1..][i - 1];
    assert l[..m + 1][1..] == l[1..][..m];
    OwnersSame(store, store', l[1..][..m]);
  }

  lemma FireTimer(s: State, now: int) returns (t: State)
    requires Firing(s) && Due(s, now)
    ensures Firing(t) && Expire(s, now) == Expire(t, now) && On(t, Timers) == On(s, Timers)[1..]
    ensures t.ready == s.ready + [Owner(s.store, On(s, Timers)[0])] && |t.store| == |s.store|
    ensures forall c :: 0 <= c < |s.store| ==>
      t.store[c].deadline == s.store[c].deadline && t.store[c].cr == s.store[c].cr
  {
    var c := On(s, Timers)[0];
    t := Trigger(s, c, ETIMEDOUT);
    TriggerFiring(s, Timers, c, ETIMEDOUT);
    FiringParts(s);
    OneTimer(s, ETIMEDOUT);
  }

  /** Expiry leaves exactly the later timers and queues the owners of the others in the order
      of their deadlines, ties in the order of registration. */
  lemma {:induction false} ExpireExact(s: State, now: int) returns (n: nat)
    requires Firing(s)
    ensures Expired(s.store, On(s, Timers), now, n)
    ensures On(Expire(s, now), Timers) == On(s, Timers)[n..]
    ensures Expire(s, now).ready == s.ready + Owners(s.store, On(s, Timers)[..n])
    decreases |On(s, Timers)|
  {
    var l := On(s, Timers);
    FiringParts(s);
    if !Due(s, now) {
      n := 0;
      NoneExpired(s.store, l, now);
    } else {
      var t := FireTimer(s, now);
      var m := ExpireExact(t, now);
      n := m + 1;
      OneMoreExpired(s.store, t.store, l, now, m);
      Associative(s.ready, [Owner(s.store, l[0])], Owners(t.store, l[1..][..m]));
    }
  }

  lemma Associative(a: seq<nat>, b: seq<nat>, c: seq<nat>)
    ensures a + b + c == a + (b + c)
  {
  }

  lemma {:induction false} OwnersSame(store: seq<Clause>, store': seq<Clause>, l: seq<nat>)
    requires |store| == |store'| && forall c :: 0 <= c < |store| ==> store[c].cr == store'[c].cr
    ensures Owners(store, l) == Owners(store', l)
  {
    if l != [] { OwnersSame(store, store', l[1..]); }
  }

  function Without(store: seq<Clause>, l: seq<nat>, o: nat): seq<nat> {
    if l == [] then [] else (if Owner(store, l[0]) == o then [] else [l[0]]) + Without(store, l[1..], o)
  }

  lemma {:induction false} WithoutLength(store: seq<Clause>, l: seq<nat>, o: nat)
    ensures |Without(store, l, o)| <= |l|
  {
    if l != [] { WithoutLength(store, l[1..], o); }
  }

  /** The owners of the clauses of `l`, each once, in the order of their first clause. */
  function OwnersOnce(store: seq<Clause>, l: seq<nat>): seq<nat>
    decreases |l|
  {
    if l == [] then []
    else
      var o := Owner(store, l[0]);
      WithoutLength(store, l[1..], o);
      [o] + OwnersOnce(store, Without(store, l[1..], o))
  }

  lemma {:induction false} OwnersOnceSame(store: seq<Clause>, store': seq<Clause>, l: seq<nat>)
    requires |store| == |store'| && forall c :: 0 <= c < |store| ==> store[c].cr == store'[c].cr
    ensures OwnersOnce(store, l) == OwnersOnce(store', l)
    decreases |l|
  {
    if l != [] {
      var o := Owner(store, l[0]);
      WithoutLength(store, l[1..], o);
      WithoutSame(store, store', l[1..], o);
      OwnersOnceSame(store, store', Without(store, l[1..], o));
    }
  }

  lemma {:induction false} WithoutSame(store: seq<Clause>, store': seq<Clause>, l: seq<nat>, o: nat)
    requires |store| == |store'| && forall c :: 0 <= c < |store| ==> store[c].cr == store'[c].cr
    ensures Without(store, l, o) == Without(store', l, o)
  {
    if l != [] { WithoutSame(store, store', l[1..], o); }
  }

  lemma {:induction false} DropIsWithout(store: seq<Clause>, l: seq<nat>, cs: set<nat>, o: nat)
    requires forall i :: 0 <= i < |l| ==> (Owner(store, l[i]) == o <==> l[i] in cs)
    ensures Drop(l, cs) == Without(store, l, o)
  {
    if l != [] {
      assert forall i :: 0 <= i < |l[1..]| ==> l[1..][i] == l[i + 1];
      DropIsWithout(store, l[1..], cs, o);
    }
  }

  /** Firing a clause takes its owner's clauses, and no others, off every list. */
  lemma TriggerWithout(s: State, k: Key, c: nat, err: int, k': Key)
    requires Firing(s) && k in s.lists && c in s.lists[k] && k' in s.lists
    ensures On(Trigger(s, c, err), k') == Without(s.store, s.lists[k'], Owner(s.store, c))
  {
    FiringParts(s);
    assert ListOk(s, k, c);
    var o := s.store[c].cr;
    var cs := ToSet(s.crs[o].clauses);
    var l := s.lists[k'];
    forall i | 0 <= i < |l| ensures Owner(s.store, l[i]) == o <==> l[i] in cs {
      assert ListOk(s, k', l[i]) && Owned(s, o);
    }
    DropIsWithout(s.store, l, cs, o);
  }

  lemma OwnersOnceStep(store: seq<Clause>, l: seq<nat>)
    requires l != []
    ensures var o := Owner(store, l[0]); OwnersOnce(store, l) == [o] + OwnersOnce(store, Without(store, l, o))
  {
    assert Without(store, l, Owner(store, l[0])) == Without(store, l[1..], Owner(store, l[0]));
  }

  lemma DrainStep(s: State, k: Key, err: int) returns (t: State)
    requires Firing(s) && On(s, k) != []
    ensures Firing(t) && k in t.lists && |On(t, k)| < |On(s, k)| && Drain(s, k, err) == Drain(t, k, err)
    ensures On(t, k) == Without(s.store, On(s, k), Owner(s.store, On(s, k)[0]))
    ensures t.ready == s.ready + [Owner(s.store, On(s, k)[0])] && |t.store| == |s.store|
    ensures forall c :: 0 <= c < |s.store| ==> t.store[c].cr == s.store[c].cr
  {
    var c := On(s, k)[0];
    t := Trigger(s, c, err);
    TriggerFiring(s, k, c, err);
    TriggerWithout(s, k, c, err, k);
  }

  /** Draining a list queues each of the owners of its clauses once, in order. */
  lemma {:induction false} DrainExact(s: State, k: Key, err: int)
    requires Firing(s)
    ensures Drain(s, k, err).ready == s.ready + OwnersOnce(s.store, On(s, k))
    decreases |On(s, k)|
  {
    if On(s, k) != [] {
      var t := DrainStep(s, k, err);
      DrainExact(t, k, err);
      OwnersOnceSame(s.store, t.store, On(t, k));
      OwnersOnceStep(s.store, On(s, k));
      Associative(s.ready, [Owner(s.store, On(s, k)[0])], OwnersOnce(s.store, On(t, k)));
    }
  }

  /** What a queued coroutine will see is not changed by what happens to the others. */
  lemma {:induction false} DrainResult(s: State, k: Key, err: int, o: nat)
    requires Firing(s) && o < |s.crs| && o in s.ready
    ensures var t := Drain(s, k, err); o < |t.crs| && o in t.ready && t.crs[o] == s.crs[o]
    decreases |On(s, k)|
  {
    if On(s, k) != [] {
      TriggerFiring(s, k, On(s, k)[0], err);
      DrainResult(Trigger(s, On(s, k)[0], err), k, err, o);
    }
  }

  /** The owner of every drained clause is queued with the error. */
  lemma {:induction false} DrainError(s: State, k: Key, err: int, c: nat)
    requires Firing(s) && k in s.lists && c in s.lists[k] && c < |s.store|
    ensures var t, o := Drain(s, k, err), s.store[c].cr; o < |t.crs| && o in t.ready && t.crs[o].err == err
    decreases |On(s, k)|
  {
    var h := On(s, k)[0];
    TriggerFiring(s, k, h, err);
    TriggerFiring(s, k, c, err);
    var t, o := Trigger(s, h, err), s.store[c].cr;
    if s.store[h].cr == o {
      DrainResult(t, k, err, o);
    } else {
      FiringParts(s);
      TriggerLists(s, h, err, k);
      DrainError(t, k, err, c);
    }
  }

  // ------------------------------------------------------------------ frames

  /** Firing clauses only appends to the queue and touches neither flags nor the mode. */
  ghost predicate Queues(s: State, t: State) {
    && s.ready <= t.ready && t.mode == s.mode && t.running == s.running && t.halves == s.halves
    && |t.crs| == |s.crs| && t.lastPoll == s.lastPoll
  }

  lemma {:induction false} DrainQueues(s: State, k: Key, err: int)
    ensures Queues(s, Drain(s, k, err))
    decreases |On(s, k)|
  {
    if On(s, k) != [] {
      var t := Trigger(s, On(s, k)[0], err);
      if |On(t, k)| < |On(s, k)| { DrainQueues(t, k, err); }
    }
  }

  lemma {:induction false} ExpireQueues(s: State, now: int)
    ensures Queues(s, Expire(s, now))
    decreases |On(s, Timers)|
  {
    if Due(s, now) {
      var t := Trigger(s, On(s, Timers)[0], ETIMEDOUT);
      if |On(t, Timers)| < |On(s, Timers)| { ExpireQueues(t, now); }
    }
  }

  lemma {:induction false} FireAllQueues(s: State, evs: seq<nat>)
    ensures Queues(s, FireAll(s, evs))
    decreases |evs|
  {
    if evs != [] {
      FireAllQueues(if evs[0] in On(s, Fds) then Trigger(s, evs[0], 0) else s, evs[1..]);
    }
  }
}
