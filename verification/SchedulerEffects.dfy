/** What the calls that are not sends or receives do, and what a poll does, in terms of the flags, the
    queue and the lists alone. */
module SchedulerEffects {
  import opened Scheduler
  import opened SchedulerDrain
  import opened SchedulerSteps
  import opened SchedulerRuns
  import opened SchedulerWakes

  /** The handle is that of an open half-channel. */
  ghost predicate Usable(s: State, h: nat) {
    h < |s.halves| && !s.halves[h].closed
  }

  /** The handles of the two ends of one channel. */
  ghost predicate Pair(h: nat, n: nat) {
    n == if h % 2 == 0 then h + 1 else h - 1
  }

  ghost predicate MayBlock(s: State) {
    s.running < |s.crs| && !s.crs[s.running].noBlocking
  }

  /** `o` is queued exactly once. */
  ghost predicate QueuedOnce(t: State, o: nat) {
    exists i :: 0 <= i < |t.ready| && t.ready[i] == o && forall j :: 0 <= j < |t.ready| && t.ready[j] == o ==> j == i
  }

  /** No list holds a clause of `o`, no timer list either. */
  ghost predicate Listless(t: State, o: nat) {
    forall k, c: nat :: k in t.lists && c in t.lists[k] ==> c < |t.store| && t.store[c].cr != o
  }

  /** `o` was waiting and is resumed with `err`: it is queued once, and has left every list. */
  ghost predicate Resumes(s: State, t: State, o: nat, err: int) {
    o !in s.ready && o < |t.crs| && t.crs[o].err == err && QueuedOnce(t, o) && Listless(t, o)
  }

  lemma WokenResumes(s: State, t: State, o: nat, k: Key, c: nat)
    requires Base(s) && Clauses(s) && Base(t) && Clauses(t)
    requires k in s.lists && c in s.lists[k] && Owner(s.store, c) == o && o in t.ready
    ensures o !in s.ready && o < |s.crs| && QueuedOnce(t, o) && Listless(t, o)
  {
    assert ListOk(s, k, c);
    var i :| 0 <= i < |t.ready| && t.ready[i] == o;
    forall j | 0 <= j < |t.ready| && t.ready[j] == o ensures j == i {
    }
    forall j, d: nat | j in t.lists && d in t.lists[j] ensures d < |t.store| && t.store[d].cr != o {
      assert ListOk(t, j, d);
    }
  }

  /** `o` has a clause on one of the lists of half-channel `n`. */
  ghost predicate WaitsAt(s: State, n: nat, o: nat) {
    Owns(s.store, On(s, In(n)), o) || Owns(s.store, On(s, Out(n)), o)
  }

  ghost predicate NobodyAt(t: State, n: nat) {
    In(n) in t.lists && Out(n) in t.lists && t.lists[In(n)] == [] && t.lists[Out(n)] == []
  }

  lemma WaitsSomewhere(s: State, n: nat, o: nat) returns (k: Key, c: nat)
    requires WaitsAt(s, n, o)
    ensures k in s.lists && c in s.lists[k] && Owner(s.store, c) == o
  {
    if Owns(s.store, On(s, In(n)), o) {
      k := In(n);
    } else {
      k := Out(n);
    }
    c :| c in On(s, k) && Owner(s.store, c) == o;
  }

  // ------------------------------------------------------------------ ending a half-channel

  /** `n` is done: everybody who waited there is resumed with EPIPE, in order, and nobody else. */
  ghost predicate Finishes(s: State, t: State, n: nat) {
    && n < |s.halves| && t.halves == s.halves[n := s.halves[n].(done := true)] && NobodyAt(t, n)
    && (forall o: nat :: WaitsAt(s, n, o) ==> Resumes(s, t, o, EPIPE))
    && t.ready == s.ready + OwnersOnce(s.store, Waiters(s, n))
    && (forall o :: o in t.ready ==> o in s.ready || WaitsAt(s, n, o))
    && (forall o :: 0 <= o < |s.crs| && !WaitsAt(s, n, o) ==> o < |t.crs| && t.crs[o] == s.crs[o])
    && t.mode == s.mode && t.running == s.running
  }

  ghost predicate ChDoneIs(s: State, h: nat, n: nat, t: State, r: Ret) {
    && (!Usable(s, h) ==> r == Returned(-1, EBADF) && t == s)
    && (Usable(s, h) ==> n < |s.halves|)
    && (Usable(s, h) && n < |s.halves| && s.halves[n].done ==> r == Returned(-1, EPIPE) && t == s)
    && (Usable(s, h) && n < |s.halves| && !s.halves[n].done ==> r == Returned(0, 0) && Finishes(s, t, n))
  }

  /** `dill_chdone`. */
  lemma ChDoneSays(s: State, h: nat, n: nat)
    requires Inv(s) && s.mode == Running && Pair(h, n)
    ensures ChDoneIs(s, h, n, ChDone(s, h).0, ChDone(s, h).1)
    ensures Step(s, CallChDone(h)) == ChDone(s, h).0
  {
    if Usable(s, h) {
      HalfKeys(s, h);
      if !s.halves[n].done { ChDoneFinishes(s, h, n); }
    }
  }

  lemma ChDoneFinishes(s: State, h: nat, n: nat)
    requires Inv(s) && s.mode == Running && Pair(h, n) && Usable(s, h) && n < |s.halves| && !s.halves[n].done
    ensures ChDone(s, h).1 == Returned(0, 0) && Finishes(s, ChDone(s, h).0, n)
  {
    var half := s.halves[n].(done := true);
    var u, t := SetHalf(s, n, half), ChDone(s, h).0;
    Parts(s);
    FlagsKeep(s, n, half);
    HalfKeys(s, n);
    DrainHalfKeeps(u, n);
    DrainHalfWakes(u, n);
    ChDoneInv(s, h);
    Parts(t);
    HalfFinishes(s, u, t, n);
  }

  lemma HalfFinishes(s: State, u: State, t: State, n: nat)
    requires Base(s) && Clauses(s) && Exclusive(s) && Base(t) && Clauses(t) && n < |s.halves|
    requires u == s.(halves := s.halves[n := s.halves[n].(done := true)])
    requires Wakes(u, t, OwnersOnce(s.store, Waiters(s, n)), EPIPE) && NobodyAt(t, n)
    ensures Finishes(s, t, n)
  {
    var w := OwnersOnce(s.store, Waiters(s, n));
    forall o: nat ensures o in w <==> WaitsAt(s, n, o) {
      WaitersAre(s, n, o);
    }
    forall o: nat | WaitsAt(s, n, o) ensures Resumes(s, t, o, EPIPE) {
      var k, c := WaitsSomewhere(s, n, o);
      WokenResumes(s, t, o, k, c);
      assert Told(u.crs[o], t.crs[o], o in w, EPIPE);
    }
    forall o | 0 <= o < |s.crs| && !WaitsAt(s, n, o) ensures o < |t.crs| && t.crs[o] == s.crs[o] {
      assert Told(u.crs[o], t.crs[o], o in w, EPIPE);
    }
  }

  // ------------------------------------------------------------------ closing

  /** The last handle of a channel is closed: everybody who waited at either end is resumed with EPIPE,
      and nobody else. */
  ghost predicate Closes(s: State, t: State, h: nat, n: nat) {
    && h < |s.halves| && n < |s.halves| && t.halves == s.halves[h := s.halves[h].(closed := true)]
    && NobodyAt(t, h) && NobodyAt(t, n) && s.ready <= t.ready
    && (forall o: nat :: WaitsAt(s, h, o) || WaitsAt(s, n, o) ==> Resumes(s, t, o, EPIPE))
    && (forall o :: o in t.ready ==> o in s.ready || WaitsAt(s, h, o) || WaitsAt(s, n, o))
    && (forall o :: 0 <= o < |s.crs| && !WaitsAt(s, h, o) && !WaitsAt(s, n, o) ==>
          o < |t.crs| && t.crs[o] == s.crs[o])
    && t.mode == s.mode && t.running == s.running
  }

  ghost predicate HCloseIs(s: State, h: nat, n: nat, t: State, r: Ret) {
    && (!Usable(s, h) ==> r == Returned(-1, EBADF) && t == s)
    && (Usable(s, h) ==> n < |s.halves| && r == Returned(0, 0))
    && (Usable(s, h) && Usable(s, n) ==> t == s.(halves := s.halves[h := s.halves[h].(closed := true)]))
    && (Usable(s, h) && !Usable(s, n) ==> Closes(s, t, h, n))
  }

  /** `dill_hclose` on a channel handle. */
  lemma HCloseSays(s: State, h: nat, n: nat)
    requires Inv(s) && s.mode == Running && Pair(h, n)
    ensures HCloseIs(s, h, n, HClose(s, h).0, HClose(s, h).1)
    ensures Step(s, CallHClose(h)) == HClose(s, h).0
  {
    if Usable(s, h) {
      HalfKeys(s, h);
      if !Usable(s, n) { HCloseEnds(s, h, n, if h < n then h else n); }
    }
  }

  lemma HCloseEnds(s: State, h: nat, n: nat, e: nat)
    requires Inv(s) && s.mode == Running && Pair(h, n) && Usable(s, h) && n < |s.halves| && !Usable(s, n)
    requires e == if h < n then h else n
    ensures Closes(s, HClose(s, h).0, h, n)
  {
    var half := s.halves[h].(closed := true);
    var u := SetHalf(s, h, half);
    FlagsKeep(s, h, half);
    HalfKeys(s, h);
    HalfKeys(s, n);
    HCloseInv(s, h);
    Parts(s);
    LastHandle(s, h, n, u, e);
    EndsBoth(s, u, HClose(s, h).0, h, n, e);
  }

  lemma LastHandle(s: State, h: nat, n: nat, u: State, e: nat)
    requires Pair(h, n) && Usable(s, h) && !Usable(s, n) && u == SetHalf(s, h, s.halves[h].(closed := true))
    requires e == (if h < n then h else n) && n < |s.halves|
    ensures HClose(s, h).0 == DrainHalf(DrainHalf(u, e), e + 1)
  {
    Lower(h, n, e);
    var first := if h % 2 == 1 then h - 1 else h;
    assert first == e && Other(h) == n;
  }

  lemma Lower(h: nat, n: nat, e: nat)
    requires Pair(h, n) && e == if h < n then h else n
    ensures e == (if h % 2 == 1 then h - 1 else h) && n == Other(h)
  {
  }

  lemma EndsBoth(s: State, u: State, t: State, h: nat, n: nat, e: nat)
    requires Inv(s) && Inv(t) && h < |s.halves| && n < |s.halves| && Pair(h, n) && e == if h < n then h else n
    requires u == s.(halves := s.halves[h := s.halves[h].(closed := true)]) && Draining(u) && DoneEmpty(u)
    requires In(h) in s.lists && Out(h) in s.lists && In(n) in s.lists && Out(n) in s.lists
    requires t == DrainHalf(DrainHalf(u, e), e + 1)
    ensures Closes(s, t, h, n)
  {
    Lower(h, n, e);
    BothEmpty(u, t, e);
    var w := BothWake(u, t, e);
    EitherEnd(u, t, h, n, e, w);
    ClosesWith(s, u, t, h, n, w);
  }

  lemma BothEmpty(u: State, t: State, e: nat)
    requires Draining(u) && DoneEmpty(u) && e + 1 < |u.halves| && t == DrainHalf(DrainHalf(u, e), e + 1)
    requires In(e) in u.lists && Out(e) in u.lists && In(e + 1) in u.lists && Out(e + 1) in u.lists && Inv(t)
    ensures NobodyAt(t, e) && NobodyAt(t, e + 1)
  {
    CloseBoth(u, e);
    HalfKeys(t, e);
    HalfKeys(t, e + 1);
  }

  /** The lower half-channel and the one behind it are those of `h` and `n`. */
  lemma EitherEnd(u: State, t: State, h: nat, n: nat, e: nat, w: seq<nat>)
    requires Pair(h, n) && e == if h < n then h else n
    requires NobodyAt(t, e) && NobodyAt(t, e + 1)
    requires forall o: nat :: o in w <==> WaitsAt(u, e, o) || WaitsAt(u, e + 1, o)
    ensures NobodyAt(t, h) && NobodyAt(t, n)
    ensures forall o: nat :: o in w <==> WaitsAt(u, h, o) || WaitsAt(u, n, o)
  {
    if h < n {
      assert e == h && e + 1 == n;
    } else {
      assert e == n && e + 1 == h;
    }
  }

  lemma ClosesWith(s: State, u: State, t: State, h: nat, n: nat, w: seq<nat>)
    requires Inv(s) && Inv(t) && h < |s.halves| && n < |s.halves|
    requires u == s.(halves := s.halves[h := s.halves[h].(closed := true)])
    requires Wakes(u, t, w, EPIPE) && NobodyAt(t, h) && NobodyAt(t, n)
    requires forall o: nat :: o in w <==> WaitsAt(u, h, o) || WaitsAt(u, n, o)
    ensures Closes(s, t, h, n)
  {
    Parts(s);
    Parts(t);
    PairCloses(s, u, t, h, n, w);
  }

  /** Ending both half-channels of a pair. */
  lemma BothWake(u: State, t: State, e: nat) returns (w: seq<nat>)
    requires Draining(u) && e + 1 < |u.halves| && t == DrainHalf(DrainHalf(u, e), e + 1)
    requires In(e) in u.lists && Out(e) in u.lists && In(e + 1) in u.lists && Out(e + 1) in u.lists
    ensures Wakes(u, t, w, EPIPE)
    ensures forall o: nat :: o in w <==> WaitsAt(u, e, o) || WaitsAt(u, e + 1, o)
  {
    var v := DrainHalf(u, e);
    DrainHalfKeeps(u, e);
    DrainHalfWakes(u, e);
    DrainHalfWakes(v, e + 1);
    var a, b := OwnersOnce(u.store, Waiters(u, e)), OwnersOnce(v.store, Waiters(v, e + 1));
    w := a + b;
    WakesTwice(u, v, t, a, b, w, EPIPE);
    DrainingParts(u);
    DrainingParts(v);
    BothOwners(u, v, a, b, e);
  }

  lemma BothOwners(u: State, v: State, a: seq<nat>, b: seq<nat>, e: nat)
    requires Exclusive(u) && Exclusive(v) && e + 1 < |u.halves| && Wakes(u, v, a, EPIPE)
    requires In(e) in u.lists && Out(e) in u.lists && In(e + 1) in u.lists && Out(e + 1) in u.lists
    requires a == OwnersOnce(u.store, Waiters(u, e)) && b == OwnersOnce(v.store, Waiters(v, e + 1))
    ensures forall o: nat :: o in a + b <==> WaitsAt(u, e, o) || WaitsAt(u, e + 1, o)
  {
    forall o: nat ensures o in a + b <==> WaitsAt(u, e, o) || WaitsAt(u, e + 1, o) {
      WaitersAre(u, e, o);
      WaitersAre(v, e + 1, o);
      SiftedOwns(u, v, a, In(e + 1), o);
      SiftedOwns(u, v, a, Out(e + 1), o);
    }
  }

  /** Who has a clause left on a list when `a` were woken. */
  lemma SiftedOwns(u: State, v: State, a: seq<nat>, k: Key, o: nat)
    requires Wakes(u, v, a, EPIPE) && k in u.lists
    ensures Owns(v.store, On(v, k), o) <==> o !in a && Owns(u.store, On(u, k), o)
  {
    if c :| c in On(v, k) && Owner(v.store, c) == o {
      SiftIn(u.store, u.lists[k], a, c);
      assert Owner(u.store, c) == o;
    }
    if c :| c in On(u, k) && Owner(u.store, c) == o {
      SiftIn(u.store, u.lists[k], a, c);
      assert Owner(v.store, c) == o;
    }
  }

  lemma PairCloses(s: State, u: State, t: State, h: nat, n: nat, w: seq<nat>)
    requires Base(s) && Clauses(s) && Base(t) && Clauses(t) && h < |s.halves| && n < |s.halves|
    requires u == s.(halves := s.halves[h := s.halves[h].(closed := true)])
    requires Wakes(u, t, w, EPIPE) && NobodyAt(t, h) && NobodyAt(t, n)
    requires forall o: nat :: o in w <==> WaitsAt(u, h, o) || WaitsAt(u, n, o)
    ensures Closes(s, t, h, n)
  {
    forall o: nat ensures o in w <==> WaitsAt(s, h, o) || WaitsAt(s, n, o) {
      assert WaitsAt(u, h, o) == WaitsAt(s, h, o) && WaitsAt(u, n, o) == WaitsAt(s, n, o);
    }
    forall o: nat | WaitsAt(s, h, o) || WaitsAt(s, n, o) ensures Resumes(s, t, o, EPIPE) {
      var k, c := WaitsSomewhere(s, if WaitsAt(s, h, o) then h else n, o);
      WokenResumes(s, t, o, k, c);
      assert Told(u.crs[o], t.crs[o], o in w, EPIPE);
    }
    forall o | 0 <= o < |s.crs| && !WaitsAt(s, h, o) && !WaitsAt(s, n, o) ensures o < |t.crs| && t.crs[o] == s.crs[o] {
      assert Told(u.crs[o], t.crs[o], o in w, EPIPE);
    }
  }
}
