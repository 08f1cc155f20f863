/** What registering clauses keeps. */
module SchedulerBlock {
  import opened Scheduler
  import opened SchedulerTrigger
  import opened SchedulerMeet

  lemma {:induction false} TimerInsertIn(store: seq<Clause>, l: seq<nat>, c: nat)
    ensures forall d: nat :: d in TimerInsert(store, l, c) <==> d in l || d == c
  {
    if l != [] {
      TimerInsertIn(store, l[1..], c);
      assert l == [l[0]] + l[1..];
    }
  }

  /** The place that inserting into the timer tree promises, behind everything that is not later and
      before everything that is, is the place of a new timer here. */
  lemma {:induction false} TimerInsertIs(store: seq<Clause>, a: seq<nat>, b: seq<nat>, c: nat)
    requires forall i :: 0 <= i < |a| ==> Deadline(store, a[i]) <= Deadline(store, c)
    requires forall i :: 0 <= i < |b| ==> Deadline(store, b[i]) > Deadline(store, c)
    ensures TimerInsert(store, a + b, c) == a + [c] + b
  {
    if a == [] {
      assert a + b == b && a + [c] + b == [c] + b;
      if b != [] { assert Deadline(store, b[0]) > Deadline(store, c); }
    } else {
      var r := a[1..];
      assert forall i :: 0 <= i < |r| ==> r[i] == a[i + 1];
      TimerInsertIs(store, r, b, c);
      assert a == [a[0]] + r && Deadline(store, a[0]) <= Deadline(store, c);
      TimerInsertPast(store, a[0], r + b, c);
      Ahead(a[0], r, b, c);
    }
  }

  lemma TimerInsertPast(store: seq<Clause>, d: nat, l: seq<nat>, c: nat)
    requires Deadline(store, d) <= Deadline(store, c)
    ensures TimerInsert(store, [d] + l, c) == [d] + TimerInsert(store, l, c)
  {
    assert ([d] + l)[1..] == l;
  }

  lemma Ahead(d: nat, r: seq<nat>, b: seq<nat>, c: nat)
    ensures [d] + (r + [c] + b) == ([d] + r) + [c] + b && [d] + (r + b) == ([d] + r) + b
  {
  }

  lemma {:induction false} TimerInsertSorted(store: seq<Clause>, l: seq<nat>, c: nat)
    requires Sorted(store, l) && c < |store| && forall i :: 0 <= i < |l| ==> l[i] < c
    ensures Sorted(store, TimerInsert(store, l, c))
  {
    var t := TimerInsert(store, l, c);
    if l == [] {
    } else if store[l[0]].deadline > store[c].deadline {
      assert t == [c] + l;
      forall i | 0 < i < |t| ensures Before(store, c, t[i]) {
        assert t[i] == l[i - 1];
        if i > 1 { assert Before(store, l[0], l[i - 1]); }
      }
    } else {
      var r := l[1..];
      assert forall i :: 0 <= i < |r| ==> r[i] == l[i + 1];
      TimerInsertSorted(store, r, c);
      TimerInsertIn(store, r, c);
      var u := TimerInsert(store, r, c);
      forall i | 0 <= i < |u| ensures Before(store, l[0], u[i]) {
        assert u[i] in u;
        if u[i] != c {
          var j :| 0 <= j < |r| && r[j] == u[i];
          assert Before(store, l[0], l[j + 1]);
        }
      }
    }
  }

  /** The running coroutine, about to block, may register on list `key`: it has found nobody on the
      other side, except possibly itself. */
  ghost predicate Joinable(s: State, key: Key) {
    && s.mode == Suspending && s.running < |s.crs| && key in s.lists
    && (key.In? || key.Out? ==>
        && key.ch < |s.halves| && !s.halves[key.ch].done && Peer(key) in s.lists
        && forall d :: d in s.lists[Peer(key)] ==> d < |s.store| && s.store[d].cr == s.running)
  }

  /** The identifiers of the clauses registered so far are below `id`, and there is no timer yet. */
  ghost predicate Below(s: State, id: int) {
    && s.running < |s.crs|
    && forall i :: 0 <= i < |s.crs[s.running].clauses| ==>
        var c := s.crs[s.running].clauses[i];
        c < |s.store| && s.store[c].id < id && s.store[c].key != Timers
  }

  /** The conditions under which a clause is registered. */
  ghost predicate Adds(s: State, id: int, key: Key, deadline: int) {
    && Base(s) && Clauses(s) && Joinable(s, key) && Below(s, id) && (key == Timers || deadline == 0)
  }

  lemma AddBase(s: State, id: int, key: Key, deadline: int, val: Bytes)
    requires Adds(s, id, key, deadline)
    ensures Base(AddClause(s, id, key, deadline, val))
  {
  }

  lemma AddIn(s: State, id: int, key: Key, deadline: int, val: Bytes)
    requires Adds(s, id, key, deadline)
    ensures forall d: nat :: d in AddClause(s, id, key, deadline, val).lists[key] <==>
      d in s.lists[key] || d == |s.store|
  {
    if key == Timers {
      TimerInsertIn(AddClause(s, id, key, deadline, val).store, s.lists[key], |s.store|);
    }
  }

  lemma AddSorted(s: State, id: int, key: Key, deadline: int, val: Bytes, k: Key)
    requires Adds(s, id, key, deadline) && k in s.lists
    ensures Sorted(AddClause(s, id, key, deadline, val).store, AddClause(s, id, key, deadline, val).lists[k])
  {
    var store' := s.store + [Clause(s.running, id, key, deadline, val, Unfired)];
    var c := |s.store|;
    SortedStays(s.store, store', s.lists[k]);
    if k == key {
      var l := s.lists[key];
      if key == Timers {
        TimerInsertSorted(store', l, c);
      } else {
        forall i | 0 <= i < |l| ensures Before(store', l[i], c) {
          assert ListOk(s, key, l[i]);
        }
        assert Sorted(store', l + [c]);
      }
    }
  }

  lemma AddListOk(s: State, id: int, key: Key, deadline: int, val: Bytes, k: Key, d: nat)
    requires Adds(s, id, key, deadline) && k in s.lists && d in AddClause(s, id, key, deadline, val).lists[k]
    ensures ListOk(AddClause(s, id, key, deadline, val), k, d)
  {
    AddIn(s, id, key, deadline, val);
    if d != |s.store| { assert d in s.lists[k] && ListOk(s, k, d); }
  }

  lemma AddWaiting(s: State, id: int, key: Key, deadline: int, val: Bytes, o: nat, d: nat)
    requires Adds(s, id, key, deadline)
    requires var s' := AddClause(s, id, key, deadline, val); IsBlocked(s', o) && d in s'.crs[o].clauses
    ensures Waiting(AddClause(s, id, key, deadline, val), d)
  {
    AddIn(s, id, key, deadline, val);
    if d != |s.store| { assert IsBlocked(s, o) && Waiting(s, d); }
  }

  lemma AddOwned(s: State, id: int, key: Key, deadline: int, val: Bytes, o: nat)
    requires Adds(s, id, key, deadline) && o < |s.crs|
    ensures Owned(AddClause(s, id, key, deadline, val), o)
  {
    var t := AddClause(s, id, key, deadline, val);
    assert Owned(s, o);
    if o == s.running {
      OwnedMore(s, t, o, |s.store|);
    } else {
      OwnedSame(s, t, o);
    }
  }

  lemma OwnedSame(s: State, t: State, o: nat)
    requires o < |s.crs| && o < |t.crs| && Owned(s, o) && t.crs[o].clauses == s.crs[o].clauses
    requires |s.store| <= |t.store| && forall d :: 0 <= d < |s.store| ==> t.store[d] == s.store[d]
    ensures Owned(t, o)
  {
  }

  /** A clause with a higher number joins others that are no timers. */
  lemma OwnedMore(s: State, t: State, o: nat, c: nat)
    requires o < |s.crs| && o < |t.crs| && Owned(s, o) && t.crs[o].clauses == [c] + s.crs[o].clauses
    requires |s.store| <= c < |t.store| && t.store[c].cr == o
    requires forall d :: 0 <= d < |s.store| ==> t.store[d] == s.store[d]
    requires forall i :: 0 <= i < |s.crs[o].clauses| ==>
      var d := s.crs[o].clauses[i]; d < |s.store| && s.store[d].id < t.store[c].id && s.store[d].key != Timers
    ensures Owned(t, o)
  {
    var cs := t.crs[o].clauses;
    forall i | 0 < i < |cs| ensures cs[i] == s.crs[o].clauses[i - 1] && cs[i] < |s.store| {
    }
  }

  lemma AddResumed(s: State, id: int, key: Key, deadline: int, val: Bytes, i: nat)
    requires Adds(s, id, key, deadline) && i < |s.ready|
    ensures s.ready[i] < |s.crs| && Resumed(AddClause(s, id, key, deadline, val), s.ready[i])
  {
    var s', o := AddClause(s, id, key, deadline, val), s.ready[i];
    var cs := s.crs[o].clauses;
    assert Owned(s, o) && Resumed(s, o) && s'.crs[o].clauses == cs;
    if cs != [] {
      var f :| 0 <= f < |cs| && FiredBy(s, o, f);
      assert FiredBy(s', o, f);
    }
  }

  lemma AddClauses(s: State, id: int, key: Key, deadline: int, val: Bytes)
    requires Adds(s, id, key, deadline)
    ensures Clauses(AddClause(s, id, key, deadline, val))
  {
    var s' := AddClause(s, id, key, deadline, val);
    forall k | k in s'.lists ensures Sorted(s'.store, s'.lists[k]) {
      AddSorted(s, id, key, deadline, val, k);
    }
    forall k, d: nat | k in s'.lists && d in s'.lists[k] ensures ListOk(s', k, d) {
      AddListOk(s, id, key, deadline, val, k, d);
    }
    forall o: nat, d: nat | IsBlocked(s', o) && d in s'.crs[o].clauses ensures Waiting(s', d) {
      AddWaiting(s, id, key, deadline, val, o, d);
    }
    forall o | 0 <= o < |s'.crs| ensures Owned(s', o) {
      AddOwned(s, id, key, deadline, val, o);
    }
    forall i | 0 <= i < |s'.ready| ensures s'.ready[i] < |s'.crs| && Resumed(s', s'.ready[i]) {
      AddResumed(s, id, key, deadline, val, i);
    }
  }

  lemma AddRendezvous(s: State, id: int, key: Key, deadline: int, val: Bytes)
    requires Adds(s, id, key, deadline) && Rendezvous(s)
    ensures Rendezvous(AddClause(s, id, key, deadline, val))
  {
    AddIn(s, id, key, deadline, val);
  }

  lemma AddMatched(store: seq<Clause>, cl: Clause, ch: nat)
    requires Matched(store, ch) && cl.status == Unfired
    ensures Matched(store + [cl], ch)
  {
    OkListSame(store, store + [cl], In(ch), |store|);
    OkListSame(store, store + [cl], Out(ch), |store|);
  }

  lemma AddOverdue(s: State, id: int, key: Key, deadline: int, val: Bytes, k: Key)
    requires Adds(s, id, key, deadline) && Overdue(s, k)
    ensures Overdue(AddClause(s, id, key, deadline, val), k)
  {
    AddIn(s, id, key, deadline, val);
  }

  lemma AddHistory(s: State, id: int, key: Key, deadline: int, val: Bytes, ch: nat)
    requires Adds(s, id, key, deadline)
    requires Matched(s.store, ch) && Overdue(s, In(ch)) && Overdue(s, Out(ch))
    ensures var s' := AddClause(s, id, key, deadline, val);
      Matched(s'.store, ch) && Overdue(s', In(ch)) && Overdue(s', Out(ch))
  {
    AddMatched(s.store, Clause(s.running, id, key, deadline, val, Unfired), ch);
    AddOverdue(s, id, key, deadline, val, In(ch));
    AddOverdue(s, id, key, deadline, val, Out(ch));
  }

  lemma AddJoinable(s: State, id: int, key: Key, deadline: int, val: Bytes, k: Key)
    requires Adds(s, id, key, deadline) && Joinable(s, k)
    ensures Joinable(AddClause(s, id, key, deadline, val), k)
  {
    AddIn(s, id, key, deadline, val);
  }

  lemma AddBelow(s: State, id: int, key: Key, deadline: int, val: Bytes)
    requires Below(s, id) && key != Timers
    ensures Below(AddClause(s, id, key, deadline, val), id + 1)
  {
  }

  lemma AddClauseInv(s: State, id: int, key: Key, deadline: int, val: Bytes)
    requires Inv(s) && Joinable(s, key) && Below(s, id) && (key == Timers || deadline == 0)
    ensures Inv(AddClause(s, id, key, deadline, val))
  {
    Parts(s);
    AddBase(s, id, key, deadline, val);
    AddClauses(s, id, key, deadline, val);
    AddRendezvous(s, id, key, deadline, val);
    var s' := AddClause(s, id, key, deadline, val);
    forall ch | 0 <= ch < |s'.halves|
      ensures Matched(s'.store, ch) && Overdue(s', In(ch)) && Overdue(s', Out(ch))
    {
      AddHistory(s, id, key, deadline, val, ch);
    }
    Whole(s');
  }

  /** One thing to wait for. */
  datatype Request = Request(key: Key, val: Bytes)

  /** Registers the requests in order, numbered from `id`. */
  function AddAll(s: State, id: int, reqs: seq<Request>): State
    decreases |reqs|
  {
    if reqs == [] then s
    else AddAll(AddClause(s, id, reqs[0].key, 0, reqs[0].val), id + 1, reqs[1..])
  }

  /** Registers a timer, unless the deadline is infinite. */
  function AddTimer(s: State, id: int, deadline: int): State {
    if deadline < 0 then s else AddClause(s, id, Timers, deadline, [])
  }

  /** The running coroutine registers its requests and a timer. */
  function Block(s: State, id: int, reqs: seq<Request>, deadline: int): State {
    AddTimer(AddAll(s.(mode := Suspending), id, reqs), id + |reqs|, deadline)
  }

  ghost predicate Requests(s: State, reqs: seq<Request>) {
    forall i :: 0 <= i < |reqs| ==> reqs[i].key != Timers && Joinable(s, reqs[i].key)
  }

  lemma {:induction false} AddAllInv(s: State, id: int, reqs: seq<Request>)
    requires Inv(s) && Below(s, id) && Requests(s, reqs) && s.mode == Suspending
    ensures Inv(AddAll(s, id, reqs)) && Below(AddAll(s, id, reqs), id + |reqs|) &&
      AddAll(s, id, reqs).mode == Suspending
    decreases |reqs|
  {
    if reqs != [] {
      var t := AddClause(s, id, reqs[0].key, 0, reqs[0].val);
      AddClauseInv(s, id, reqs[0].key, 0, reqs[0].val);
      AddBelow(s, id, reqs[0].key, 0, reqs[0].val);
      forall i | 1 <= i < |reqs| ensures Joinable(t, reqs[i].key) {
        Parts(s);
        AddJoinable(s, id, reqs[0].key, 0, reqs[0].val, reqs[i].key);
      }
      AddAllInv(t, id + 1, reqs[1..]);
    }
  }

  lemma BlockInv(s: State, id: int, reqs: seq<Request>, deadline: int)
    requires Inv(s) && s.mode == Running && Requests(s.(mode := Suspending), reqs)
    ensures Inv(Block(s, id, reqs, deadline))
  {
    SuspendInv(s, id);
    AddAllInv(s.(mode := Suspending), id, reqs);
    AddTimerInv(AddAll(s.(mode := Suspending), id, reqs), id + |reqs|, deadline);
  }

  lemma AddTimerInv(s: State, id: int, deadline: int)
    requires Inv(s) && s.mode == Suspending && Below(s, id)
    ensures Inv(AddTimer(s, id, deadline))
  {
    Parts(s);
    if deadline >= 0 { AddClauseInv(s, id, Timers, deadline, []); }
  }

  /** Registering changes neither the queue nor the channels' flags. */
  lemma {:induction false} AddAllFrame(s: State, id: int, reqs: seq<Request>)
    ensures var r := AddAll(s, id, reqs);
      r.mode == s.mode && r.running == s.running && r.ready == s.ready && r.halves == s.halves && |r.crs| == |s.crs|
    decreases |reqs|
  {
    if reqs != [] {
      AddAllFrame(AddClause(s, id, reqs[0].key, 0, reqs[0].val), id + 1, reqs[1..]);
    }
  }

  lemma BlockFrame(s: State, id: int, reqs: seq<Request>, deadline: int)
    ensures var r := Block(s, id, reqs, deadline);
      r.mode == Suspending && r.running == s.running && r.ready == s.ready && r.halves == s.halves && |r.crs| == |s.crs|
  {
    AddAllFrame(s.(mode := Suspending), id, reqs);
  }

  lemma SuspendInv(s: State, id: int)
    requires Inv(s) && s.mode == Running
    ensures Inv(s.(mode := Suspending)) && Below(s.(mode := Suspending), id)
  {
    Parts(s);
    var t := s.(mode := Suspending);
    forall k, c: nat | k in t.lists && c in t.lists[k] ensures ListOk(t, k, c) {
      assert ListOk(s, k, c);
    }
    forall o: nat, c: nat | IsBlocked(t, o) && c in t.crs[o].clauses ensures Waiting(t, c) {
      assert IsBlocked(s, o) && Waiting(s, c);
    }
    forall o | 0 <= o < |t.crs| ensures Owned(t, o) {
      assert Owned(s, o);
    }
    forall i | 0 <= i < |t.ready| ensures t.ready[i] < |t.crs| && Resumed(t, t.ready[i]) {
      RelabelResumed(s, t, t.ready[i]);
    }
    forall ch | 0 <= ch < |t.halves|
      ensures Matched(t.store, ch) && Overdue(t, In(ch)) && Overdue(t, Out(ch))
    {
      assert Matched(s.store, ch) && Overdue(s, In(ch)) && Overdue(s, Out(ch));
    }
    Whole(t);
  }

  /** Whether a coroutine was resumed does not depend on the mode. */
  lemma RelabelResumed(s: State, t: State, o: nat)
    requires s.crs == t.crs && s.store == t.store && o < |s.crs| && Resumed(s, o)
    ensures Resumed(t, o)
  {
    var cs := s.crs[o].clauses;
    if cs != [] {
      var f :| 0 <= f < |cs| && FiredBy(s, o, f);
      assert FiredBy(t, o, f);
    }
  }
}
