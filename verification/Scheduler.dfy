/** The state of the coroutine scheduler and of the channels, and what each API call does to
    it up to the point where it returns or calls `dill_wait`.

    A clause is identified by its serial number, its position in `store`, which is the
    order in which clauses were issued. Clauses stay in the store after they are done,
    so the store is also the history of the run: a send or receive that has been
    completed is a clause that fired with error 0, whether it had to wait or not. */
module Scheduler {
  const EINVAL := 22
  const EBADF := 9
  const EPIPE := 32
  const EMSGSIZE := 90
  const ETIMEDOUT := 110
  const ECANCELED := 125

  type Bytes = seq<int>

  /** The lists a clause can wait on: those of a half-channel, the timers, the pollset. */
  datatype Key = In(ch: nat) | Out(ch: nat) | Timers | Fds

  datatype Status = Unfired | Fired(err: int)

  /** `val` is the message of a send clause, the buffer of a receive clause. */
  datatype Clause = Clause(cr: nat, id: int, key: Key, deadline: int, val: Bytes, status: Status)

  datatype Half = Half(done: bool, closed: bool)

  /** `clauses` holds the clauses of the last wait, the latest first. */
  datatype Cr = Cr(id: int, err: int, clauses: seq<nat>, noBlocking: bool)

  /** `Suspending` is the time between the first clause registered and `dill_wait`, the next
      two are the phases of `dill_wait`. */
  datatype Mode = Running | Suspending | Polling(block: bool) | Dispatching

  datatype State = State(
    mode: Mode,
    running: nat,
    ready: seq<nat>,
    crs: seq<Cr>,
    halves: seq<Half>,
    lists: map<Key, seq<nat>>,
    store: seq<Clause>,
    lastPoll: int)

  /** What an API call returns at once, or that it blocks. */
  datatype Ret = Returned(rc: int, errno: int) | Blocks

  function Other(h: nat): nat {
    if h % 2 == 0 then h + 1 else h - 1
  }

  function Initial(now: int): State {
    State(Running, 0, [], [Cr(0, 0, [], false)], [], map[Timers := [], Fds := []], [], now)
  }

  predicate IsBlocked(s: State, o: nat) {
    o < |s.crs| && o !in s.ready && !(s.mode == Running && o == s.running)
  }

  // ------------------------------------------------------------------ suspend and resume

  function Drop(l: seq<nat>, cs: set<nat>): seq<nat> {
    if l == [] then [] else (if l[0] in cs then [] else [l[0]]) + Drop(l[1..], cs)
  }

  function ToSet(l: seq<nat>): set<nat> {
    set c | c in l
  }

  /** The clauses of `cs` are on no list any more. */
  function Withdraw(s: State, cs: set<nat>): State {
    s.(lists := map k | k in s.lists :: Drop(s.lists[k], cs))
  }

  function Resume(s: State, o: nat, id: int, err: int): State
    requires o < |s.crs|
  {
    s.(crs := s.crs[o := s.crs[o].(id := id, err := err)], ready := s.ready + [o])
  }

  /** Clause `c` fires: its owner leaves every list and is queued. */
  function Trigger(s: State, c: nat, err: int): State {
    if c < |s.store| && s.store[c].cr < |s.crs| then
      var cl := s.store[c];
      var fired := s.(store := s.store[c := cl.(status := Fired(err))]);
      Resume(Withdraw(fired, ToSet(s.crs[cl.cr].clauses)), cl.cr, cl.id, err)
    else s
  }

  /** The clauses on list `k`. */
  function On(s: State, k: Key): seq<nat> {
    if k in s.lists then s.lists[k] else []
  }

  function Deadline(store: seq<Clause>, c: nat): int {
    if c < |store| then store[c].deadline else 0
  }

  /** The position of a new timer: behind every timer that is not later. */
  function TimerInsert(store: seq<Clause>, l: seq<nat>, c: nat): seq<nat> {
    if l == [] || Deadline(store, l[0]) > Deadline(store, c) then [c] + l
    else [l[0]] + TimerInsert(store, l[1..], c)
  }

  /** The running coroutine waits for one more thing. */
  function AddClause(s: State, id: int, key: Key, deadline: int, val: Bytes): State {
    if s.running < |s.crs| then
      var c := |s.store|;
      var store := s.store + [Clause(s.running, id, key, deadline, val, Unfired)];
      var cr := s.crs[s.running];
      s.(store := store,
         crs := s.crs[s.running := cr.(clauses := [c] + cr.clauses)],
         lists := s.lists[key := if key == Timers then TimerInsert(store, On(s, key), c) else On(s, key) + [c]])
    else s
  }

  // ------------------------------------------------------------------ invariants

  /** Earlier deadline first, then earlier issued; only timers have deadlines other than 0. */
  ghost predicate Before(store: seq<Clause>, a: nat, b: nat)
    requires a < |store| && b < |store|
  {
    store[a].deadline < store[b].deadline || (store[a].deadline == store[b].deadline && a < b)
  }

  ghost predicate Sorted(store: seq<Clause>, l: seq<nat>) {
    && (forall i :: 0 <= i < |l| ==> l[i] < |store|)
    && (forall i, j :: 0 <= i < j < |l| ==> Before(store, l[i], l[j]))
  }

  /** A clause on a list waits for that list, has not fired, and belongs to a blocked coroutine. */
  ghost predicate ListOk(s: State, k: Key, c: nat) {
    && c < |s.store| && s.store[c].key == k && s.store[c].status == Unfired
    && IsBlocked(s, s.store[c].cr) && c in s.crs[s.store[c].cr].clauses
  }

  /** The clauses of a blocked coroutine are all on their lists. */
  ghost predicate Waiting(s: State, c: nat) {
    && c < |s.store| && s.store[c].status == Unfired
    && s.store[c].key in s.lists && c in s.lists[s.store[c].key]
  }

  /** The clauses of the last wait of `o`, numbered upwards from the oldest; a timer comes last. */
  ghost predicate Owned(s: State, o: nat)
    requires o < |s.crs|
  {
    var cs := s.crs[o].clauses;
    && (forall i :: 0 <= i < |cs| ==> cs[i] < |s.store| && s.store[cs[i]].cr == o)
    && (forall i, j :: 0 <= i < j < |cs| ==> s.store[cs[i]].id > s.store[cs[j]].id)
    && (forall i :: 0 < i < |cs| ==> s.store[cs[i]].key != Timers)
  }

  /** A queued coroutine was resumed by a yield, or by exactly one of its clauses. */
  ghost predicate Resumed(s: State, o: nat)
    requires o < |s.crs|
  {
    var cs := s.crs[o].clauses;
    cs == [] || exists f :: 0 <= f < |cs| && FiredBy(s, o, f)
  }

  ghost predicate FiredBy(s: State, o: nat, f: nat)
    requires o < |s.crs| && f < |s.crs[o].clauses|
  {
    var cs := s.crs[o].clauses;
    && cs[f] < |s.store| && s.store[cs[f]].status == Fired(s.crs[o].err) && s.store[cs[f]].id == s.crs[o].id
    && forall i :: 0 <= i < |cs| && i != f ==> cs[i] < |s.store| && s.store[cs[i]].status == Unfired
  }

  /** The scheduler: who runs, who is queued, who owns which clauses. */
  ghost predicate Base(s: State) {
    && s.running < |s.crs| && |s.halves| % 2 == 0
    && (forall i :: 0 <= i < |s.ready| ==> s.ready[i] < |s.crs|)
    && (forall i, j :: 0 <= i < j < |s.ready| ==> s.ready[i] != s.ready[j])
    && (s.mode == Running || s.mode == Suspending ==> s.running !in s.ready)
    && (s.mode == Running ==> s.crs[s.running].clauses == [])
    && (s.mode == Dispatching || s.mode == Polling(false) ==> s.ready != [])
    && (forall c :: 0 <= c < |s.store| ==> s.store[c].cr < |s.crs| && s.store[c].key in s.lists)
    && Timers in s.lists && Fds in s.lists
    && (forall ch :: 0 <= ch < |s.halves| ==> In(ch) in s.lists && Out(ch) in s.lists)
    && (forall ch: nat :: In(ch) in s.lists || Out(ch) in s.lists ==> ch < |s.halves|)
  }

  ghost predicate Clauses(s: State) {
    && (forall k :: k in s.lists ==> Sorted(s.store, s.lists[k]))
    && (forall k, c: nat :: k in s.lists && c in s.lists[k] ==> ListOk(s, k, c))
    && (forall o :: 0 <= o < |s.crs| ==> Owned(s, o))
    && (forall o: nat, c: nat :: IsBlocked(s, o) && c in s.crs[o].clauses ==> Waiting(s, c))
    && (forall i :: 0 <= i < |s.ready| ==> s.ready[i] < |s.crs| && Resumed(s, s.ready[i]))
    && (forall c :: 0 <= c < |s.store| && s.store[c].key != Timers ==> s.store[c].deadline == 0)
  }

  /** A rendezvous is never missed: the two lists of a half-channel are both non-empty
      only if all their clauses belong to one coroutine. */
  ghost predicate Exclusive(s: State) {
    forall ch, c: nat, d: nat ::
      0 <= ch < |s.halves| && In(ch) in s.lists && Out(ch) in s.lists && c in s.lists[In(ch)] &&
      d in s.lists[Out(ch)] ==>
      c < |s.store| && d < |s.store| && s.store[c].cr == s.store[d].cr
  }

  /** Nobody waits on a half-channel that is done. */
  ghost predicate DoneEmpty(s: State) {
    forall ch :: 0 <= ch < |s.halves| && s.halves[ch].done ==>
      In(ch) in s.lists && Out(ch) in s.lists && s.lists[In(ch)] == [] && s.lists[Out(ch)] == []
  }

  ghost predicate Rendezvous(s: State) {
    Exclusive(s) && DoneEmpty(s)
  }

  predicate IsOk(cl: Clause, k: Key) {
    cl.key == k && cl.status == Fired(0)
  }

  /** The completed sends (or receives) on `k` among the first `n` clauses, in the order issued. */
  function OkList(store: seq<Clause>, k: Key, n: nat): seq<nat>
    requires n <= |store|
  {
    if n == 0 then [] else OkList(store, k, n - 1) + if IsOk(store[n - 1], k) then [n - 1] else []
  }

  /** The i-th completed send and the i-th completed receive carry the same bytes. */
  ghost predicate Matched(store: seq<Clause>, ch: nat) {
    var sends, recvs := OkList(store, Out(ch), |store|), OkList(store, In(ch), |store|);
    && |sends| == |recvs|
    && forall i :: 0 <= i < |sends| ==>
        sends[i] < |store| && recvs[i] < |store| && store[sends[i]].val == store[recvs[i]].val
  }

  /** A clause that still waits was issued after every completed one. */
  ghost predicate Overdue(s: State, k: Key) {
    k in s.lists ==> forall c, t :: c in s.lists[k] && 0 <= t < |s.store| && IsOk(s.store[t], k) ==> t < c
  }

  ghost predicate History(s: State) {
    forall ch :: 0 <= ch < |s.halves| ==> Matched(s.store, ch) && Overdue(s, In(ch)) && Overdue(s, Out(ch))
  }

  /** The parts of the invariant. */
  datatype Aspect = Scheduling | Registration | Meeting | Finishing | Past

  ghost predicate Holds(a: Aspect, s: State) {
    match a
    case Scheduling => Base(s)
    case Registration => Clauses(s)
    case Meeting => Exclusive(s)
    case Finishing => DoneEmpty(s)
    case Past => History(s)
  }

  /** The invariant of every reachable state. */
  ghost predicate Inv(s: State) {
    forall a :: Holds(a, s)
  }

  lemma Parts(s: State)
    requires Inv(s)
    ensures Base(s) && Clauses(s) && Rendezvous(s) && History(s)
  {
    assert Holds(Scheduling, s) && Holds(Registration, s) && Holds(Meeting, s) && Holds(Finishing, s) && Holds(Past, s);
  }

  lemma Whole(s: State)
    requires Base(s) && Clauses(s) && Rendezvous(s) && History(s)
    ensures Inv(s)
  {
  }
}
