/** Whom the loops that fire clauses wake: the queue grows by the coroutines woken, in order, with the
    error, and their clauses leave every list. */
module SchedulerWakes {
  import opened Scheduler
  import opened SchedulerDrain
  import opened SchedulerSteps

  /** The clauses whose owners are not in `w`. */
  function Sift(store: seq<Clause>, l: seq<nat>, w: seq<nat>): seq<nat> {
    if l == [] then [] else (if Owner(store, l[0]) in w then [] else [l[0]]) + Sift(store, l[1..], w)
  }

  lemma {:induction false} SiftIn(store: seq<Clause>, l: seq<nat>, w: seq<nat>, c: nat)
    ensures c in Sift(store, l, w) <==> c in l && Owner(store, c) !in w
  {
    if l != [] {
      SiftIn(store, l[1..], w, c);
      assert l == [l[0]] + l[1..];
    }
  }

  lemma {:induction false} SiftAll(store: seq<Clause>, l: seq<nat>, w: seq<nat>)
    requires forall c :: c in l ==> Owner(store, c) in w
    ensures Sift(store, l, w) == []
  {
    if l != [] { SiftAll(store, l[1..], w); }
  }

  lemma {:induction false} SiftNone(store: seq<Clause>, l: seq<nat>)
    ensures Sift(store, l, []) == l
  {
    if l != [] { SiftNone(store, l[1..]); }
  }

  lemma {:induction false} SiftOne(store: seq<Clause>, l: seq<nat>, o: nat)
    ensures Sift(store, l, [o]) == Without(store, l, o)
  {
    if l != [] { SiftOne(store, l[1..], o); }
  }

  lemma {:induction false} SiftTwice(store: seq<Clause>, now: seq<Clause>, l: seq<nat>, w: seq<nat>, v: seq<nat>)
    requires |now| == |store| && forall c :: 0 <= c < |store| ==> now[c].cr == store[c].cr
    ensures Sift(now, Sift(store, l, w), v) == Sift(store, l, w + v)
  {
    if l != [] {
      SiftTwice(store, now, l[1..], w, v);
      var o, r := Owner(store, l[0]), Sift(store, l[1..], w);
      assert o in w + v <==> o in w || o in v;
      if o in w {
        assert Sift(store, l, w) == r;
      } else {
        var d := Sift(store, l, w);
        assert d == [l[0]] + r && d[0] == l[0] && d[1..] == r;
      }
    }
  }

  /** What else stays. */
  ghost predicate SameFrame(s: State, t: State) {
    && t.halves == s.halves && t.mode == s.mode && t.running == s.running && t.lastPoll == s.lastPoll
    && |t.crs| == |s.crs| && t.lists.Keys == s.lists.Keys && |t.store| == |s.store|
    && forall c :: 0 <= c < |s.store| ==> t.store[c] == s.store[c].(status := t.store[c].status)
  }

  /** The record of a coroutine that was woken with `err`, or was not. */
  ghost predicate Told(was: Cr, now: Cr, woken: bool, err: int) {
    if woken then now == was.(id := now.id, err := err) else now == was
  }

  /** Between `s` and `t` the coroutines `w` are woken, in this order, and nothing else happens. */
  ghost predicate Wakes(s: State, t: State, w: seq<nat>, err: int) {
    && SameFrame(s, t) && t.ready == s.ready + w
    && (forall o :: 0 <= o < |s.crs| ==> Told(s.crs[o], t.crs[o], o in w, err))
    && (forall k :: k in s.lists ==> t.lists[k] == Sift(s.store, s.lists[k], w))
  }

  lemma WakesNone(s: State, err: int)
    ensures Wakes(s, s, [], err)
  {
    forall k | k in s.lists ensures s.lists[k] == Sift(s.store, s.lists[k], []) {
      SiftNone(s.store, s.lists[k]);
    }
  }

  lemma WakesTwice(s: State, t: State, u: State, w: seq<nat>, v: seq<nat>, all: seq<nat>, err: int)
    requires Wakes(s, t, w, err) && Wakes(t, u, v, err) && all == w + v
    ensures Wakes(s, u, all, err)
  {
    forall o | 0 <= o < |s.crs| ensures Told(s.crs[o], u.crs[o], o in all, err) {
      assert Told(s.crs[o], t.crs[o], o in w, err) && Told(t.crs[o], u.crs[o], o in v, err);
    }
    forall k | k in s.lists ensures u.lists[k] == Sift(s.store, s.lists[k], all) {
      SiftTwice(s.store, t.store, s.lists[k], w, v);
    }
  }

  lemma TriggerWakes(s: State, k: Key, c: nat, err: int)
    requires Firing(s) && k in s.lists && c in s.lists[k]
    ensures Wakes(s, Trigger(s, c, err), [Owner(s.store, c)], err)
  {
    var t, o := Trigger(s, c, err), Owner(s.store, c);
    FiringParts(s);
    TriggerFiring(s, k, c, err);
    forall j | j in s.lists ensures t.lists[j] == Sift(s.store, s.lists[j], [o]) {
      TriggerWithout(s, k, c, err, j);
      SiftOne(s.store, s.lists[j], o);
    }
  }

  lemma {:induction false} DrainWakes(s: State, k: Key, err: int)
    requires Firing(s) && k in s.lists
    ensures Wakes(s, Drain(s, k, err), OwnersOnce(s.store, On(s, k)), err)
    decreases |On(s, k)|
  {
    if On(s, k) == [] {
      WakesNone(s, err);
    } else {
      var c := On(s, k)[0];
      var t, o := Trigger(s, c, err), Owner(s.store, c);
      TriggerFiring(s, k, c, err);
      TriggerWakes(s, k, c, err);
      TriggerWithout(s, k, c, err, k);
      DrainWakes(t, k, err);
      OwnersOnceSame(s.store, t.store, On(t, k));
      OwnersOnceStep(s.store, On(s, k));
      WakesTwice(s, t, Drain(t, k, err), [o], OwnersOnce(s.store, On(t, k)), OwnersOnce(s.store, On(s, k)), err);
    }
  }

  lemma {:induction false} WithoutIn(store: seq<Clause>, l: seq<nat>, o: nat, c: nat)
    ensures c in Without(store, l, o) <==> c in l && Owner(store, c) != o
  {
    if l != [] {
      WithoutIn(store, l[1..], o, c);
      assert l == [l[0]] + l[1..];
    }
  }

  ghost predicate Owns(store: seq<Clause>, l: seq<nat>, o: nat) {
    exists c :: c in l && Owner(store, c) == o
  }

  /** The coroutines of `OwnersOnce` are those that own clauses of the list. */
  lemma {:induction false} OwnersAre(store: seq<Clause>, l: seq<nat>, o: nat)
    ensures o in OwnersOnce(store, l) <==> Owns(store, l, o)
    decreases |l|
  {
    if l != [] {
      var p := Owner(store, l[0]);
      var r := Without(store, l, p);
      WithoutLength(store, l[1..], p);
      OwnersOnceStep(store, l);
      assert r == Without(store, l[1..], p);
      OwnersAre(store, r, o);
      if c :| c in l && Owner(store, c) == o && o != p { WithoutIn(store, l, p, c); }
      if c :| c in r && Owner(store, c) == o { WithoutIn(store, l, p, c); }
    }
  }

  /** The clauses that wait on half-channel `ch`: one of its lists, as both hold clauses only if one
      coroutine owns them all. */
  function Waiters(s: State, ch: nat): seq<nat> {
    if On(s, In(ch)) != [] then On(s, In(ch)) else On(s, Out(ch))
  }

  /** Ending a half-channel wakes everybody who waits on it. */
  lemma DrainHalfWakes(s: State, ch: nat)
    requires Draining(s) && In(ch) in s.lists && Out(ch) in s.lists && ch < |s.halves|
    ensures Wakes(s, DrainHalf(s, ch), OwnersOnce(s.store, Waiters(s, ch)), EPIPE)
  {
    DrainingParts(s);
    var ins, outs := s.lists[In(ch)], s.lists[Out(ch)];
    DrainWakes(s, In(ch), EPIPE);
    if ins == [] {
      DrainWakes(s, Out(ch), EPIPE);
    } else {
      var u, w := Drain(s, In(ch), EPIPE), OwnersOnce(s.store, ins);
      OwnersAre(s.store, ins, Owner(s.store, ins[0]));
      forall c | c in outs ensures Owner(s.store, c) in w {
        assert s.store[ins[0]].cr == s.store[c].cr;
      }
      SiftAll(s.store, outs, w);
      assert Drain(u, Out(ch), EPIPE) == u;
    }
  }

  /** Who waits on a half-channel. */
  lemma WaitersAre(s: State, ch: nat, o: nat)
    requires Exclusive(s) && ch < |s.halves| && In(ch) in s.lists && Out(ch) in s.lists
    ensures o in OwnersOnce(s.store, Waiters(s, ch)) <==>
      Owns(s.store, s.lists[In(ch)], o) || Owns(s.store, s.lists[Out(ch)], o)
  {
    OwnersAre(s.store, Waiters(s, ch), o);
    var ins, outs := s.lists[In(ch)], s.lists[Out(ch)];
    if c :| c in outs && Owner(s.store, c) == o && ins != [] {
      assert ins[0] in ins && s.store[ins[0]].cr == s.store[c].cr;
    }
  }

  // ------------------------------------------------------------------ timers and events

  /** The owners of the timers that are due, in the order of the list. */
  function DueOwners(store: seq<Clause>, l: seq<nat>, now: int): seq<nat> {
    if l == [] then []
    else (if Deadline(store, l[0]) <= now then [Owner(store, l[0])] else []) + DueOwners(store, l[1..], now)
  }

  lemma {:induction false} DueSame(store: seq<Clause>, now: seq<Clause>, l: seq<nat>, clock: int)
    requires |store| == |now|
    requires forall c :: 0 <= c < |store| ==> store[c].cr == now[c].cr && store[c].deadline == now[c].deadline
    ensures DueOwners(now, l, clock) == DueOwners(store, l, clock)
  {
    if l != [] { DueSame(store, now, l[1..], clock); }
  }

  lemma {:induction false} NoneDue(store: seq<Clause>, l: seq<nat>, now: int)
    requires forall i :: 0 <= i < |l| ==> Deadline(store, l[i]) > now
    ensures DueOwners(store, l, now) == []
  {
    if l != [] {
      assert forall i :: 0 <= i < |l[1..]| ==> l[1..][i] == l[i + 1];
      NoneDue(store, l[1..], now);
    }
  }

  lemma {:induction false} DueIn(store: seq<Clause>, l: seq<nat>, now: int, c: nat)
    requires c in l && Deadline(store, c) <= now
    ensures Owner(store, c) in DueOwners(store, l, now)
  {
    if l[0] != c { DueIn(store, l[1..], now, c); }
  }

  /** Expiry wakes the owners of the timers that are due. */
  lemma {:induction false} ExpireWakes(s: State, now: int)
    requires Firing(s) && Timers in s.lists
    ensures Wakes(s, Expire(s, now), DueOwners(s.store, s.lists[Timers], now), ETIMEDOUT)
    decreases |On(s, Timers)|
  {
    var l := s.lists[Timers];
    FiringParts(s);
    if !Due(s, now) {
      if l != [] { assert Sorted(s.store, l); }
      NoneExpired(s.store, l, now);
      NoneDue(s.store, l, now);
      WakesNone(s, ETIMEDOUT);
    } else {
      var t, o := Trigger(s, l[0], ETIMEDOUT), Owner(s.store, l[0]);
      TriggerFiring(s, Timers, l[0], ETIMEDOUT);
      TriggerWakes(s, Timers, l[0], ETIMEDOUT);
      OneTimer(s, ETIMEDOUT);
      ExpireWakes(t, now);
      DueSame(s.store, t.store, l[1..], now);
      WakesTwice(s, t, Expire(t, now), [o], DueOwners(s.store, l[1..], now), DueOwners(s.store, l, now), ETIMEDOUT);
    }
  }

  /** The owners of the events on the list, each once. */
  function EventOwners(store: seq<Clause>, l: seq<nat>, evs: seq<nat>): seq<nat>
    decreases |evs|
  {
    if evs == [] then []
    else if evs[0] in l then
      [Owner(store, evs[0])] + EventOwners(store, Sift(store, l, [Owner(store, evs[0])]), evs[1..])
    else EventOwners(store, l, evs[1..])
  }

  lemma {:induction false} EventsSame(store: seq<Clause>, now: seq<Clause>, l: seq<nat>, evs: seq<nat>)
    requires |store| == |now| && forall c :: 0 <= c < |store| ==> store[c].cr == now[c].cr
    ensures EventOwners(now, l, evs) == EventOwners(store, l, evs)
    decreases |evs|
  {
    if evs != [] {
      var o := Owner(store, evs[0]);
      SiftSame(store, now, l, [o]);
      EventsSame(store, now, if evs[0] in l then Sift(store, l, [o]) else l, evs[1..]);
    }
  }

  lemma {:induction false} SiftSame(store: seq<Clause>, now: seq<Clause>, l: seq<nat>, w: seq<nat>)
    requires |store| == |now| && forall c :: 0 <= c < |store| ==> store[c].cr == now[c].cr
    ensures Sift(now, l, w) == Sift(store, l, w)
  {
    if l != [] { SiftSame(store, now, l[1..], w); }
  }

  /** Events wake the owners of the descriptors they are about. */
  lemma {:induction false} FireAllWakes(s: State, evs: seq<nat>)
    requires Firing(s) && Fds in s.lists
    ensures Wakes(s, FireAll(s, evs), EventOwners(s.store, s.lists[Fds], evs), 0)
    decreases |evs|
  {
    if evs == [] {
      WakesNone(s, 0);
    } else if evs[0] in s.lists[Fds] {
      var t, o := Trigger(s, evs[0], 0), Owner(s.store, evs[0]);
      TriggerFiring(s, Fds, evs[0], 0);
      TriggerWakes(s, Fds, evs[0], 0);
      FireAllWakes(t, evs[1..]);
      EventsSame(s.store, t.store, t.lists[Fds], evs[1..]);
      var v, all := EventOwners(t.store, t.lists[Fds], evs[1..]), EventOwners(s.store, s.lists[Fds], evs);
      WakesTwice(s, t, FireAll(t, evs[1..]), [o], v, all, 0);
    } else {
      FireAllWakes(s, evs[1..]);
    }
  }

  /** An event about a clause on the list wakes its owner, unless an earlier event has. */
  lemma {:induction false} EventIn(store: seq<Clause>, l: seq<nat>, evs: seq<nat>, c: nat)
    requires c in l && c in evs
    ensures Owner(store, c) in EventOwners(store, l, evs)
    decreases |evs|
  {
    var o := Owner(store, evs[0]);
    if evs[0] != c {
      if evs[0] in l {
        SiftIn(store, l, [o], c);
        if Owner(store, c) != o { EventIn(store, Sift(store, l, [o]), evs[1..], c); }
      } else {
        EventIn(store, l, evs[1..], c);
      }
    }
  }
}
