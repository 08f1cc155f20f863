/** What a rendezvous keeps: the histories of the two ends of a half-channel grow together. */
module SchedulerMeet {
  import opened Scheduler
  import opened SchedulerTrigger

  /** The list of the other end of a half-channel. */
  function Peer(k: Key): Key
    requires k.In? || k.Out?
  {
    if k.In? then Out(k.ch) else In(k.ch)
  }

  /** The running coroutine, on the list `mine`, meets the waiting clause `c`: the bytes go
      from one to the other, and the owner of `c` is resumed. */
  function Meet(s: State, c: nat, mine: Key, id: int, val: Bytes): State {
    if c < |s.store| then
      var t := Trigger(s.(store := s.store[c := s.store[c].(val := val)]), c, 0);
      t.(store := t.store + [Clause(s.running, id, mine, 0, val, Fired(0))])
    else s
  }

  // ------------------------------------------------------------------ histories

  lemma {:induction false} OkListIn(store: seq<Clause>, k: Key, n: nat)
    requires n <= |store|
    ensures forall i :: 0 <= i < |OkList(store, k, n)| ==>
      OkList(store, k, n)[i] < n && IsOk(store[OkList(store, k, n)[i]], k)
  {
    if n > 0 { OkListIn(store, k, n - 1); }
  }

  /** Clauses that are completed or not in both stores alike give the same list. */
  lemma {:induction false} OkListSame(store: seq<Clause>, store': seq<Clause>, k: Key, n: nat)
    requires n <= |store| && n <= |store'|
    requires forall t :: 0 <= t < n ==> (IsOk(store[t], k) <==> IsOk(store'[t], k))
    ensures OkList(store, k, n) == OkList(store', k, n)
  {
    if n > 0 { OkListSame(store, store', k, n - 1); }
  }

  /** A clause completed after all those completed before it comes last. */
  lemma {:induction false} OkListMore(store: seq<Clause>, store': seq<Clause>, k: Key, c: nat, n: nat)
    requires c < n <= |store| && n <= |store'|
    requires !IsOk(store[c], k) && IsOk(store'[c], k)
    requires forall t :: 0 <= t < n && t != c ==> (IsOk(store[t], k) <==> IsOk(store'[t], k))
    requires forall t :: c < t < n ==> !IsOk(store[t], k)
    ensures OkList(store', k, n) == OkList(store, k, n) + [c]
  {
    if n == c + 1 {
      OkListSame(store, store', k, c);
    } else {
      OkListMore(store, store', k, c, n - 1);
    }
  }

  /** A failure completes no send and no receive, and no bytes change. */
  lemma TriggerHistory(s: State, c: nat, err: int)
    requires Base(s) && Clauses(s) && History(s) && c < |s.store| && ListOk(s, s.store[c].key, c)
    requires err != 0 || s.store[c].key == Fds
    ensures History(Trigger(s, c, err))
    ensures var t := Trigger(s, c, err).store;
      && |t| == |s.store|
      && forall d, k :: 0 <= d < |t| && k != Fds ==>
           (IsOk(t[d], k) <==> IsOk(s.store[d], k)) && t[d].val == s.store[d].val
  {
    var s' := Trigger(s, c, err);
    forall ch | 0 <= ch < |s'.halves|
      ensures Matched(s'.store, ch) && Overdue(s', In(ch)) && Overdue(s', Out(ch))
    {
      TriggerMatched(s, c, err, ch);
    }
  }

  lemma TriggerMatched(s: State, c: nat, err: int, ch: nat)
    requires Base(s) && Clauses(s) && History(s) && c < |s.store| && ListOk(s, s.store[c].key, c)
    requires (err != 0 || s.store[c].key == Fds) && ch < |s.halves|
    ensures var t := Trigger(s, c, err); Matched(t.store, ch) && Overdue(t, In(ch)) && Overdue(t, Out(ch))
  {
    var s' := Trigger(s, c, err);
    assert Matched(s.store, ch) && Overdue(s, In(ch)) && Overdue(s, Out(ch));
    OkListSame(s.store, s'.store, In(ch), |s.store|);
    OkListSame(s.store, s'.store, Out(ch), |s.store|);
    TriggerLists(s, c, err, In(ch));
    TriggerLists(s, c, err, Out(ch));
  }

  lemma TriggerInv(s: State, c: nat, err: int)
    requires Inv(s) && s.mode != Suspending && c < |s.store| && ListOk(s, s.store[c].key, c)
    requires err != 0 || s.store[c].key == Fds
    ensures Inv(Trigger(s, c, err))
  {
    Parts(s);
    TriggerBase(s, c, err);
    TriggerClauses(s, c, err);
    TriggerExclusive(s, c, err);
    TriggerDone(s, c, err);
    TriggerHistory(s, c, err);
    Whole(Trigger(s, c, err));
  }

  /** The stores around a rendezvous: `c` is completed with `val`, and so is a new clause. */
  ghost predicate Completed(store: seq<Clause>, store': seq<Clause>, c: nat, mine: Key, val: Bytes) {
    && (mine.In? || mine.Out?)
    && c < |store| && |store'| == |store| + 1
    && store[c].key == Peer(mine) && store[c].status == Unfired
    && store'[c] == store[c].(val := val, status := Fired(0))
    && IsOk(store'[|store|], mine) && store'[|store|].val == val
    && forall t :: 0 <= t < |store| && t != c ==> store'[t] == store[t]
  }

  /** Both histories of the half-channel grow by one, with the same bytes. */
  lemma CompletedMatched(store: seq<Clause>, store': seq<Clause>, c: nat, mine: Key, val: Bytes)
    requires Completed(store, store', c, mine, val) && Matched(store, mine.ch)
    requires forall t :: 0 <= t < |store| && IsOk(store[t], Peer(mine)) ==> t < c
    ensures Matched(store', mine.ch)
  {
    var n, theirs := |store|, Peer(mine);
    OkListMore(store, store', theirs, c, n);
    OkListSame(store, store', mine, n);
    OkListIn(store, mine, n);
    OkListIn(store, theirs, n);
    assert OkList(store', mine, n + 1) == OkList(store, mine, n) + [n];
    assert OkList(store', theirs, n + 1) == OkList(store, theirs, n) + [c];
  }

  /** The other half-channels do not notice. */
  lemma CompletedElsewhere(store: seq<Clause>, store': seq<Clause>, c: nat, mine: Key, val: Bytes, ch: nat)
    requires Completed(store, store', c, mine, val) && ch != mine.ch && Matched(store, ch)
    ensures Matched(store', ch)
  {
    OkListSame(store, store', In(ch), |store|);
    OkListSame(store, store', Out(ch), |store|);
    OkListIn(store, In(ch), |store|);
    OkListIn(store, Out(ch), |store|);
    assert OkList(store', In(ch), |store'|) == OkList(store', In(ch), |store|);
    assert OkList(store', Out(ch), |store'|) == OkList(store', Out(ch), |store|);
  }

  /** The store has grown, and old clauses differ in their bytes at most. */
  ghost predicate Extends(s: State, store: seq<Clause>) {
    && |s.store| <= |store|
    && (forall c :: 0 <= c < |s.store| ==> store[c] == s.store[c].(val := store[c].val))
    && (forall c :: |s.store| <= c < |store| ==>
        store[c].cr < |s.crs| && store[c].key in s.lists && store[c].deadline == 0)
  }

  lemma ExtendsResumed(s: State, store: seq<Clause>, o: nat)
    requires Extends(s, store) && o < |s.crs| && Owned(s, o)
    ensures Owned(s.(store := store), o)
    ensures Resumed(s, o) ==> Resumed(s.(store := store), o)
  {
    var t := s.(store := store);
    var cs := s.crs[o].clauses;
    assert t.crs[o].clauses == cs;
    if Resumed(s, o) && cs != [] {
      var f :| 0 <= f < |cs| && FiredBy(s, o, f);
      assert FiredBy(t, o, f);
    }
  }

  lemma ExtendsClauses(s: State, store: seq<Clause>)
    requires Base(s) && Clauses(s) && Extends(s, store)
    ensures Base(s.(store := store)) && Clauses(s.(store := store))
  {
    var t := s.(store := store);
    forall k | k in t.lists ensures Sorted(t.store, t.lists[k]) {
      SortedStays(s.store, t.store, t.lists[k]);
    }
    forall k, d: nat | k in t.lists && d in t.lists[k] ensures ListOk(t, k, d) {
      assert ListOk(s, k, d);
    }
    forall o: nat, d: nat | IsBlocked(t, o) && d in t.crs[o].clauses ensures Waiting(t, d) {
      assert IsBlocked(s, o) && Waiting(s, d);
    }
    forall o | 0 <= o < |t.crs| ensures Owned(t, o) {
      ExtendsResumed(s, store, o);
    }
    forall i | 0 <= i < |t.ready| ensures t.ready[i] < |t.crs| && Resumed(t, t.ready[i]) {
      ExtendsResumed(s, store, s.ready[i]);
    }
  }

  lemma ExtendsRendezvous(s: State, store: seq<Clause>)
    requires Rendezvous(s) && Extends(s, store)
    ensures Rendezvous(s.(store := store))
  {
  }

  /** What remains on a list after a rendezvous was there before and is not the peer's. */
  lemma MeetLists(s: State, c: nat, mine: Key, id: int, val: Bytes, k: Key)
    requires Base(s) && Clauses(s) && c < |s.store| && ListOk(s, s.store[c].key, c) && k in s.lists
    ensures k in Meet(s, c, mine, id, val).lists
    ensures forall d: nat :: d in Meet(s, c, mine, id, val).lists[k] ==>
      d in s.lists[k] && s.store[d].cr != s.store[c].cr
  {
    var s1 := s.(store := s.store[c := s.store[c].(val := val)]);
    ExtendsClauses(s, s1.store);
    TriggerLists(s1, c, 0, k);
  }

  /** The head of a list was issued before the others; lists of channels carry no deadlines. */
  lemma HeadFirst(s: State, k: Key, d: nat)
    requires Clauses(s) && k in s.lists && k != Timers && d in s.lists[k] && d != s.lists[k][0]
    requires ListOk(s, k, d) && ListOk(s, k, s.lists[k][0])
    ensures s.lists[k][0] < d
  {
    var l := s.lists[k];
    var i :| 0 <= i < |l| && l[i] == d;
    assert Sorted(s.store, l);
    assert Before(s.store, l[0], l[i]);
  }

  lemma OneOwner(s: State, mine: Key, c: nat, d: nat)
    requires Base(s) && Clauses(s) && Rendezvous(s) && (mine.In? || mine.Out?) && Peer(mine) in s.lists &&
      mine in s.lists
    requires c in s.lists[Peer(mine)] && d in s.lists[mine] && c < |s.store| && d < |s.store|
    ensures s.store[c].cr == s.store[d].cr
  {
  }

  lemma MeetCompletes(s: State, c: nat, mine: Key, id: int, val: Bytes)
    requires (mine.In? || mine.Out?) && ListOk(s, Peer(mine), c)
    ensures Completed(s.store, Meet(s, c, mine, id, val).store, c, mine, val)
  {
  }

  lemma MeetOverdue(s: State, c: nat, mine: Key, id: int, val: Bytes, k: Key)
    requires Base(s) && Clauses(s) && Rendezvous(s) && Overdue(s, k)
    requires (mine.In? || mine.Out?) && Peer(mine) in s.lists && (k.In? || k.Out?) && k in s.lists
    requires s.lists[Peer(mine)] != [] && c == s.lists[Peer(mine)][0] && ListOk(s, Peer(mine), c)
    ensures Overdue(Meet(s, c, mine, id, val), k)
  {
    MeetLists(s, c, mine, id, val, k);
    var s' := Meet(s, c, mine, id, val);
    forall d: nat, t | d in s'.lists[k] && 0 <= t < |s'.store| && IsOk(s'.store[t], k) ensures t < d {
      assert d in s.lists[k] && ListOk(s, k, d);
      if k == mine {
        OneOwner(s, mine, c, d);
        assert false;
      } else if t == c {
        HeadFirst(s, k, d);
      } else {
        assert t < |s.store| && IsOk(s.store[t], k);
      }
    }
  }

  lemma MeetCore(s: State, c: nat, mine: Key, id: int, val: Bytes)
    requires Base(s) && Clauses(s) && Rendezvous(s) && s.mode == Running && mine in s.lists
    requires c < |s.store| && ListOk(s, s.store[c].key, c) && (mine.In? || mine.Out?)
    ensures var s' := Meet(s, c, mine, id, val); Base(s') && Clauses(s') && Rendezvous(s')
  {
    var s1 := s.(store := s.store[c := s.store[c].(val := val)]);
    ExtendsClauses(s, s1.store);
    ExtendsRendezvous(s, s1.store);
    var s2 := Trigger(s1, c, 0);
    TriggerBase(s1, c, 0);
    TriggerClauses(s1, c, 0);
    TriggerExclusive(s1, c, 0);
    TriggerDone(s1, c, 0);
    var cl := Clause(s.running, id, mine, 0, val, Fired(0));
    ExtendsByOne(s2, cl);
    ExtendsClauses(s2, s2.store + [cl]);
    ExtendsRendezvous(s2, s2.store + [cl]);
  }

  lemma ExtendsByOne(s: State, cl: Clause)
    requires cl.cr < |s.crs| && cl.key in s.lists && cl.deadline == 0
    ensures Extends(s, s.store + [cl])
  {
  }

  lemma MeetMatched(s: State, c: nat, mine: Key, id: int, val: Bytes, ch: nat)
    requires (mine.In? || mine.Out?) && Peer(mine) in s.lists && c in s.lists[Peer(mine)] && ListOk(s, Peer(mine), c)
    requires Matched(s.store, ch) && Overdue(s, Peer(mine))
    ensures Matched(Meet(s, c, mine, id, val).store, ch)
  {
    var s' := Meet(s, c, mine, id, val);
    MeetCompletes(s, c, mine, id, val);
    if ch == mine.ch {
      CompletedMatched(s.store, s'.store, c, mine, val);
    } else {
      CompletedElsewhere(s.store, s'.store, c, mine, val, ch);
    }
  }

  lemma MeetInv(s: State, c: nat, mine: Key, id: int, val: Bytes)
    requires Inv(s) && s.mode == Running && (mine.In? || mine.Out?) && mine in s.lists && Peer(mine) in s.lists
    requires s.lists[Peer(mine)] != [] && c == s.lists[Peer(mine)][0]
    ensures c < |s.store| && s.store[c].cr < |s.crs| && Inv(Meet(s, c, mine, id, val))
  {
    Parts(s);
    assert ListOk(s, Peer(mine), c);
    MeetCore(s, c, mine, id, val);
    var s' := Meet(s, c, mine, id, val);
    forall ch | 0 <= ch < |s'.halves|
      ensures Matched(s'.store, ch) && Overdue(s', In(ch)) && Overdue(s', Out(ch))
    {
      assert Matched(s.store, ch) && Overdue(s, In(ch)) && Overdue(s, Out(ch)) && mine.ch < |s.halves| &&
        Overdue(s, Peer(mine));
      MeetMatched(s, c, mine, id, val, ch);
      MeetOverdue(s, c, mine, id, val, In(ch));
      MeetOverdue(s, c, mine, id, val, Out(ch));
    }
    Whole(s');
  }
}
