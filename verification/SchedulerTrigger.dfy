/** What firing a clause keeps. */
module SchedulerTrigger {
  import opened Scheduler

  lemma {:induction false} DropIn(l: seq<nat>, cs: set<nat>)
    ensures forall c :: c in Drop(l, cs) <==> c in l && c !in cs
  {
    if l != [] {
      DropIn(l[1..], cs);
      assert l == [l[0]] + l[1..];
    }
  }

  lemma {:induction false} DropSorted(store: seq<Clause>, l: seq<nat>, cs: set<nat>)
    requires Sorted(store, l)
    ensures Sorted(store, Drop(l, cs))
  {
    if l != [] {
      var r := l[1..];
      assert forall i :: 0 <= i < |r| ==> r[i] == l[i + 1];
      DropSorted(store, r, cs);
      DropIn(r, cs);
      var d := Drop(r, cs);
      forall i | 0 <= i < |d| ensures Before(store, l[0], d[i]) {
        assert d[i] in r;
        var j :| 0 <= j < |r| && r[j] == d[i];
        assert Before(store, l[0], l[j + 1]);
      }
    }
  }

  /** Changing what a clause carries and whether it has fired keeps lists in order. */
  lemma SortedStays(store: seq<Clause>, store': seq<Clause>, l: seq<nat>)
    requires Sorted(store, l) && |store| <= |store'|
    requires forall c :: 0 <= c < |store| ==> store'[c].deadline == store[c].deadline
    ensures Sorted(store', l)
  {
  }

  /** The owner of a waiting clause is queued, behind those that are, and once. */
  lemma TriggerBase(s: State, c: nat, err: int)
    requires Base(s) && c < |s.store| && IsBlocked(s, s.store[c].cr) && s.mode != Suspending
    ensures Base(Trigger(s, c, err))
    ensures s.store[c].cr !in s.ready && Trigger(s, c, err).ready == s.ready + [s.store[c].cr]
  {
  }

  lemma TriggerLists(s: State, c: nat, err: int, k: Key)
    requires Base(s) && Clauses(s) && c < |s.store| && ListOk(s, s.store[c].key, c) && k in s.lists
    ensures Sorted(Trigger(s, c, err).store, Trigger(s, c, err).lists[k])
    ensures forall d: nat :: d in Trigger(s, c, err).lists[k] ==> ListOk(Trigger(s, c, err), k, d)
    ensures forall d: nat :: d in Trigger(s, c, err).lists[k] ==> d in s.lists[k] && s.store[d].cr != s.store[c].cr
    ensures forall d: nat :: d in s.lists[k] && d < |s.store| && s.store[d].cr != s.store[c].cr ==>
      d in Trigger(s, c, err).lists[k]
  {
    var o := s.store[c].cr;
    var s' := Trigger(s, c, err);
    var cs := ToSet(s.crs[o].clauses);
    DropSorted(s.store, s.lists[k], cs);
    SortedStays(s.store, s'.store, s'.lists[k]);
    DropIn(s.lists[k], cs);
    forall d: nat | d in s.lists[k] ensures s.store[d].cr != o <==> d !in cs {
      assert ListOk(s, k, d) && Owned(s, o);
    }
    forall d: nat | d in s'.lists[k] ensures ListOk(s', k, d) {
      assert ListOk(s, k, d);
    }
  }

  lemma TriggerResumed(s: State, c: nat, err: int, i: nat)
    requires Base(s) && Clauses(s) && c < |s.store| && ListOk(s, s.store[c].key, c) && i <= |s.ready|
    ensures var s' := Trigger(s, c, err); s'.ready[i] < |s'.crs| && Resumed(s', s'.ready[i])
  {
    var s' := Trigger(s, c, err);
    if i < |s.ready| {
      var p := s.ready[i];
      assert Resumed(s, p) && Owned(s, p);
      var cs := s.crs[p].clauses;
      assert s'.crs[p].clauses == cs;
      if cs != [] {
        var f :| 0 <= f < |cs| && FiredBy(s, p, f);
        assert FiredBy(s', p, f);
      }
    } else {
      TriggerFired(s, c, err);
    }
  }

  /** The clause that fires is the one the owner will see. */
  lemma TriggerFired(s: State, c: nat, err: int)
    requires Base(s) && Clauses(s) && c < |s.store| && ListOk(s, s.store[c].key, c)
    ensures Resumed(Trigger(s, c, err), s.store[c].cr)
  {
    var s', o := Trigger(s, c, err), s.store[c].cr;
    var cs := s.crs[o].clauses;
    assert Owned(s, o);
    var f :| 0 <= f < |cs| && cs[f] == c;
    forall i | 0 <= i < |cs| && i != f ensures cs[i] < |s'.store| && s'.store[cs[i]].status == Unfired {
      assert Waiting(s, cs[i]);
      assert cs[i] != cs[f];
    }
    assert FiredBy(s', o, f);
  }

  lemma TriggerClauses(s: State, c: nat, err: int)
    requires Base(s) && Clauses(s) && c < |s.store| && ListOk(s, s.store[c].key, c)
    ensures Clauses(Trigger(s, c, err))
  {
    var s' := Trigger(s, c, err);
    forall k | k in s'.lists ensures Sorted(s'.store, s'.lists[k]) {
      TriggerLists(s, c, err, k);
    }
    forall k, d: nat | k in s'.lists && d in s'.lists[k] ensures ListOk(s', k, d) {
      TriggerLists(s, c, err, k);
    }
    forall p: nat, d: nat | IsBlocked(s', p) && d in s'.crs[p].clauses ensures Waiting(s', d) {
      assert IsBlocked(s, p) && d in s.crs[p].clauses && Waiting(s, d) && Owned(s, p);
      TriggerLists(s, c, err, s.store[d].key);
    }
    forall p | 0 <= p < |s'.crs| ensures Owned(s', p) {
      assert Owned(s, p);
    }
    forall i | 0 <= i < |s'.ready| ensures s'.ready[i] < |s'.crs| && Resumed(s', s'.ready[i]) {
      TriggerResumed(s, c, err, i);
    }
  }

  lemma TriggerExclusive(s: State, c: nat, err: int)
    requires Base(s) && Clauses(s) && Exclusive(s) && c < |s.store| && ListOk(s, s.store[c].key, c)
    ensures Exclusive(Trigger(s, c, err))
  {
    var s' := Trigger(s, c, err);
    forall k, d: nat | k in s'.lists && d in s'.lists[k] ensures d in s.lists[k] {
      DropIn(s.lists[k], ToSet(s.crs[s.store[c].cr].clauses));
    }
  }

  lemma TriggerDone(s: State, c: nat, err: int)
    requires DoneEmpty(s) && c < |s.store| && s.store[c].cr < |s.crs|
    ensures DoneEmpty(Trigger(s, c, err))
  {
  }
}
