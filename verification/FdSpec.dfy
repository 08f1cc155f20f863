/** What a socket's loops keep: how far sending, filling, skipping and copying have got. */
module FdSpec {
  import opened Marks
  import opened Iolists
  import opened Kernel
  import opened DirectPath

  /** Memory, incoming bytes and script. */
  datatype View = View(mem: seq<bv8>, input: seq<bv8>, ev: Script)

  /** `k` bytes went to where `list` says. */
  ghost predicate Consumed(was: View, list: Iols, k: nat, now: View) {
    k <= |was.input| && |now.input| == |was.input| - k && |now.mem| == |was.mem| && Moved(was, list, k, now)
  }

  ghost predicate Moved(was: View, list: Iols, k: nat, now: View)
    requires k <= |was.input|
  {
    forall x {:trigger Open(x)} :: Open(x) ==>
      now.input == was.input[k..] && now.mem == Scatter(was.mem, list, was.input[..k])
  }

  lemma ConsumedNone(was: View, list: Iols, now: View)
    requires Consumed(was, list, 0, now)
    ensures now.mem == was.mem && now.input == was.input
  {
    assert Open(0);
    assert was.input[..0] == [];
  }

  // ------------------------------------------------------------------ vectors

  /** The elements of a vector from `h` on, as a list. */
  function Vec(s: seq<Iol>, h: nat): Iols
    requires h <= |s|
    decreases |s| - h
  {
    if h == |s| then Nil else Cons(s[h], Vec(s, h + 1))
  }

  lemma {:induction false} VecSame(s: seq<Iol>, t: seq<Iol>, h: nat)
    requires h <= |s| == |t| && forall i :: h <= i < |s| ==> s[i] == t[i]
    ensures Vec(s, h) == Vec(t, h)
    decreases |s| - h
  {
    if h < |s| { VecSame(s, t, h + 1); }
  }

  function Nth(list: Iols, j: nat): Iol
    requires j < Length(list)
  {
    if j == 0 then list.e else Nth(list.next, j - 1)
  }

  lemma {:induction false} DropLength(list: Iols, h: nat)
    requires h <= Length(list)
    ensures Length(Drop(list, h)) == Length(list) - h
    ensures h < Length(list) ==> Drop(list, h) == Cons(Nth(list, h), Drop(list, h + 1))
  {
    if h > 0 { DropLength(list.next, h - 1); }
  }

  lemma {:induction false} VecIs(s: seq<Iol>, list: Iols, h: nat)
    requires h <= |s| == Length(list) && forall j :: h <= j < |s| ==> s[j] == Nth(list, j)
    ensures Vec(s, h) == Drop(list, h)
    decreases |s| - h
  {
    DropLength(list, h);
    if h < |s| { VecIs(s, list, h + 1); }
  }

  // ------------------------------------------------------------------ sending

  ghost predicate Sends(mem: seq<bv8>, list: Iols) {
    Fits(list, |mem|) && Buffers(list)
  }

  /** What was sent and what the vector still holds make up the whole list. */
  ghost predicate Sending(mem: seq<bv8>, iov: Iols, sent: seq<bv8>, list: Iols, before: seq<bv8>) {
    forall x {:trigger Open(x)} :: Open(x) ==>
      && Sends(mem, list) && Sends(mem, iov) && before <= sent
      && sent + Gather(mem, iov) == before + Gather(mem, list)
  }

  lemma SendingStarts(mem: seq<bv8>, list: Iols, sent: seq<bv8>)
    requires Sends(mem, list)
    ensures Sending(mem, list, sent, list, sent)
  {
  }

  lemma SendingEnds(mem: seq<bv8>, iov: Iols, sent: seq<bv8>, list: Iols, before: seq<bv8>)
    requires Sending(mem, iov, sent, list, before)
    ensures Sends(mem, list) && Sends(mem, iov) && before <= sent <= before + Gather(mem, list)
    ensures |sent| + Total(iov) == |before| + Total(list)
    ensures iov == Nil ==> sent == before + Gather(mem, list)
  {
    assert Open(0);
    var all := before + Gather(mem, list);
    assert all[..|sent|] == (sent + Gather(mem, iov))[..|sent|] == sent;
  }

  lemma SendingPast(mem: seq<bv8>, iov: Iols, sent: seq<bv8>, list: Iols, before: seq<bv8>)
    requires Sending(mem, iov, sent, list, before) && iov.Cons? && iov.e.len == 0
    ensures Sending(mem, iov.next, sent, list, before)
  {
    assert Open(0);
    assert Gather(mem, iov) == Gather(mem, iov.next);
  }

  lemma SendingMore(mem: seq<bv8>, iov: Iols, sent: seq<bv8>, list: Iols, before: seq<bv8>, sz: nat)
    requires Sending(mem, iov, sent, list, before) && sz <= Total(iov)
    ensures Sends(mem, iov) && Sending(mem, Shift(iov, sz), sent + Gather(mem, iov)[..sz], list, before)
  {
    assert Open(0);
    GatherShift(mem, iov, sz);
    MoveOver(sent, Gather(mem, iov), sz);
  }

  lemma MoveOver(a: seq<bv8>, b: seq<bv8>, n: nat)
    requires n <= |b|
    ensures (a + b[..n]) + b[n..] == a + b
  {
  }

  // ------------------------------------------------------------------ reading buffers

  /** Reading `list` went as foreseen. */
  ghost predicate Ends(was: View, list: Iols, f: Flow, s: Status, now: View) {
    s == f.status && now.ev == f.ev && f.left <= |was.input| && Consumed(was, list, |was.input| - f.left, now)
  }

  /** `n` bytes have been read and `iov` is still to be filled. */
  ghost predicate Filled(was: View, list: Iols, now: View, iov: Iols, n: nat) {
    && n <= Total(list) && iov == Shift(list, n) && Consumed(was, list, n, now)
    && Solid(list) && Fits(list, |was.mem|)
  }

  ghost predicate Reading(goal: Flow, was: View, list: Iols, now: View, iov: Iols, n: nat) {
    forall x {:trigger Open(x)} :: Open(x) ==>
      Filled(was, list, now, iov, n) && goal == Pump(Total(list) - n, |now.input|, now.ev)
  }

  /** Everything has been read, or the next thing is to wait. */
  ghost predicate Pausing(goal: Flow, was: View, list: Iols, now: View, iov: Iols, n: nat) {
    forall x {:trigger Open(x)} :: Open(x) ==>
      && Filled(was, list, now, iov, n)
      && goal ==
        if n == Total(list) then Flow(Done, |now.input|, now.ev) else Pause(Total(list) - n, |now.input|, now.ev)
  }

  lemma ReadStarts(was: View, list: Iols)
    requires Solid(list) && Fits(list, |was.mem|)
    ensures Reading(Pump(Total(list), |was.input|, was.ev), was, list, was, list, 0)
  {
    assert was.input[..0] == [];
  }

  lemma ReadFails(goal: Flow, was: View, list: Iols, now: View, iov: Iols, n: nat, s: Status, next: View)
    requires Reading(goal, was, list, now, iov, n)
    requires var r := Offer(Total(iov), |now.input|, now.ev);
      if r.Error? then s == Failed(Reset(r.e)) else r == Got(0) && s == Failed(EPIPE)
    requires next == View(now.mem, now.input, Tail(now.ev))
    ensures Ends(was, list, goal, s, next)
  {
    ReadKnows(goal, was, list, now, iov, n);
    PumpBroken(Total(iov), |now.input|, now.ev);
    EndsHere(goal, was, list, now, n, s, next);
  }

  lemma ReadKnows(goal: Flow, was: View, list: Iols, now: View, iov: Iols, n: nat)
    requires Reading(goal, was, list, now, iov, n)
    ensures Filled(was, list, now, iov, n) && Total(iov) == Total(list) - n &&
      goal == Pump(Total(iov), |now.input|, now.ev)
    ensures iov.Cons? ==> Total(iov) > 0
  {
    assert Open(0);
    ShiftKeeps(list, n, |was.mem|);
  }

  lemma EndsHere(goal: Flow, was: View, list: Iols, now: View, n: nat, s: Status, next: View)
    requires Consumed(was, list, n, now) && goal == Flow(s, |now.input|, Tail(now.ev))
    requires next == View(now.mem, now.input, Tail(now.ev))
    ensures Ends(was, list, goal, s, next)
  {
    assert |was.input| - goal.left == n;
  }

  lemma ReadMore(goal: Flow, was: View, list: Iols, now: View, iov: Iols, n: nat, k: nat, next: View)
    requires Reading(goal, was, list, now, iov, n) && iov.Cons?
    requires var r := Offer(Total(iov), |now.input|, now.ev); if k == 0 then r == WouldBlock else r == Got(k)
    requires Consumed(now, iov, k, next) && next.ev == Tail(now.ev)
    ensures k <= Total(iov) && Pausing(goal, was, list, next, Shift(iov, k), n + k)
  {
    ReadKnows(goal, was, list, now, iov, n);
    ReadGoal(goal, Total(iov), |now.input|, now.ev, k);
    FillMore(was, list, now, iov, n, k, next);
    assert Total(list) - (n + k) == Total(iov) - k && |next.input| == |now.input| - k;
  }

  lemma FillMore(was: View, list: Iols, now: View, iov: Iols, n: nat, k: nat, next: View)
    requires Filled(was, list, now, iov, n) && n + k <= Total(list) && Consumed(now, iov, k, next)
    ensures k <= Total(iov) && Filled(was, list, next, Shift(iov, k), n + k)
  {
    ShiftShift(list, n, k);
    var d, e := was.input[..n], now.input[..k];
    ScatterShift(was.mem, list, d, e);
    Slices(was.input, n, k);
  }

  lemma ReadGoal(goal: Flow, need: nat, avail: nat, ev: Script, k: nat)
    requires goal == Pump(need, avail, ev) && need > 0
    requires var r := Offer(need, avail, ev); if k == 0 then r == WouldBlock else r == Got(k)
    ensures k <= need && k <= avail
    ensures goal == if k == need then Flow(Done, avail - k, Tail(ev)) else Pause(need - k, avail - k, Tail(ev))
  {
    if k == 0 {
      PumpBlocked(need, avail, ev);
    } else if k < need {
      PumpSome(need, avail, ev, k);
    } else {
      PumpAll(need, avail, ev);
    }
  }

  lemma PauseNone(goal: Flow, was: View, list: Iols, now: View, n: nat)
    requires Pausing(goal, was, list, now, Nil, n)
    ensures Ends(was, list, goal, Done, now)
  {
    assert Open(0);
    ShiftKeeps(list, n, |was.mem|);
  }

  lemma PauseOver(goal: Flow, was: View, list: Iols, now: View, iov: Iols, n: nat, next: View)
    requires Pausing(goal, was, list, now, iov, n) && iov.Cons?
    requires next == View(now.mem, now.input, Tail(now.ev))
    ensures Waited(now.ev).Failed? ==> Ends(was, list, goal, Waited(now.ev), next)
    ensures Waited(now.ev).Done? ==> Reading(goal, was, list, next, iov, n)
  {
    assert Open(0);
    ShiftKeeps(list, n, |was.mem|);
  }

  // ------------------------------------------------------------------ skipping

  ghost predicate Skips(f: Flow, was: View, s: Status, now: View) {
    s == f.status && now.ev == f.ev && f.left <= |was.input| && now.input == was.input[|was.input| - f.left..]
  }

  /** `n` bytes have been dropped and `left` more are to be. */
  ghost predicate Skipping(goal: Flow, was: View, now: View, left: int, n: nat) {
    forall x {:trigger Open(x)} :: Open(x) ==>
      && n <= |was.input| && now.input == was.input[n..] && goal == SkipFlow(left, |now.input|, now.ev)
  }

  lemma SkipStarts(goal: Flow, was: View, now: View, left: int)
    requires now.input == was.input && goal == SkipFlow(left, |now.input|, now.ev)
    ensures Skipping(goal, was, now, left, 0)
  {
  }

  lemma SkipStep(goal: Flow, was: View, now: View, left: int, n: nat, s: Status, next: View)
    requires Skipping(goal, was, now, left, n) && left != 0
    requires Skips(Pump(Part(left), |now.input|, now.ev), now, s, next)
    ensures s.Failed? ==> Skips(goal, was, s, next)
    ensures s.Done? ==> |next.input| <= |now.input| && Size(next.ev) < Size(now.ev)
    ensures s.Done? ==>
      Skipping(goal, was, next, if left < 0 then left else left - Part(left), n + (|now.input| - |next.input|))
  {
    assert Open(0);
    var f := Pump(Part(left), |now.input|, now.ev);
    Slices(was.input, n, |now.input| - f.left);
    if s.Done? {
      PumpShrinks(Part(left), |now.input|, now.ev, f);
      SkipOn(left, |now.input|, now.ev, f);
    } else {
      SkipBroken(left, |now.input|, now.ev, f);
    }
  }

  lemma SkipEnds(goal: Flow, was: View, now: View, n: nat)
    requires Skipping(goal, was, now, 0, n)
    ensures Skips(goal, was, Done, now)
  {
    assert Open(0);
  }

  /** What is written above a place leaves what is below. */
  lemma Above(mem: seq<bv8>, base: nat, len: nat, d: seq<bv8>)
    requires base + len <= |mem| && |d| <= len
    ensures Scatter(mem, Cons(Buffer(base, len), Nil), d)[..base] == mem[..base]
  {
  }

  // ------------------------------------------------------------------ copying from the receive buffer

  /** Copying the buffered bytes `all` to the list leaves `rest` of it and the bytes `left`. */
  ghost predicate Copied(mem: seq<bv8>, list: Iols, all: seq<bv8>, now: seq<bv8>, rest: Iols, left: seq<bv8>) {
    var k := Min(|all|, Total(list));
    rest == Cut(list, k) && left == all[k..] && now == Scatter(mem, list, all[..k])
  }

  ghost predicate CopyDone(mem: seq<bv8>, list: Iols, all: seq<bv8>, now: seq<bv8>, rest: Iols, left: seq<bv8>) {
    forall x {:trigger Open(x)} :: Open(x) ==> Copied(mem, list, all, now, rest, left)
  }

  /** Copying goes on behind the elements that are filled. */
  ghost predicate Copying(mem: seq<bv8>, list: Iols, all: seq<bv8>, now: seq<bv8>, rest: Iols, left: seq<bv8>) {
    forall x {:trigger Open(x)} :: Open(x) ==>
      && |now| == |mem| && Fits(rest, |mem|)
      && (forall end, r, l {:trigger Copied(now, rest, left, end, r, l)} ::
            Copied(now, rest, left, end, r, l) ==> Copied(mem, list, all, end, r, l))
  }

  lemma CopyStarts(mem: seq<bv8>, list: Iols, all: seq<bv8>)
    requires Fits(list, |mem|)
    ensures Copying(mem, list, all, mem, list, all)
  {
  }

  lemma CopyFits(mem: seq<bv8>, list: Iols, all: seq<bv8>, now: seq<bv8>, rest: Iols, left: seq<bv8>)
    requires Copying(mem, list, all, now, rest, left) && rest.Cons?
    ensures |now| == |mem| && Within(rest.e, |mem|)
  {
    assert Open(0);
  }

  /** An element that is filled. */
  lemma CopyPast(mem: seq<bv8>, list: Iols, all: seq<bv8>, end: seq<bv8>, r: Iols, l: seq<bv8>)
    requires list.Cons? && |all| >= list.e.len
    requires Copied(Put(mem, list.e, all[..list.e.len]), list.next, all[list.e.len..], end, r, l)
    ensures Copied(mem, list, all, end, r, l)
  {
    var n := list.e.len;
    var k := Min(|all| - n, Total(list.next));
    ScatterPast(mem, list, all[..n], all[n..][..k]);
    Slices(all, n, k);
  }

  lemma CopyStep(mem: seq<bv8>, list: Iols, all: seq<bv8>, now: seq<bv8>, rest: Iols, left: seq<bv8>)
    requires Copying(mem, list, all, now, rest, left) && rest.Cons? && |left| >= rest.e.len
    ensures Copying(mem, list, all, Put(now, rest.e, left[..rest.e.len]), rest.next, left[rest.e.len..])
  {
    assert Open(0);
    forall end, r, l | Copied(Put(now, rest.e, left[..rest.e.len]), rest.next, left[rest.e.len..], end, r, l)
      ensures Copied(mem, list, all, end, r, l)
    {
      CopyPast(now, rest, left, end, r, l);
    }
  }

  /** An element that there are too few bytes for. */
  lemma CopyLast(mem: seq<bv8>, list: Iols, all: seq<bv8>, now: seq<bv8>, rest: Iols, left: seq<bv8>)
    requires Copying(mem, list, all, now, rest, left) && rest.Cons? && |left| < rest.e.len
    ensures CopyDone(mem, list, all, Put(now, rest.e, left), Cons(Advance(rest.e, |left|), rest.next), [])
  {
    assert Open(0);
    ScatterFew(now, rest, left);
    assert left[..|left|] == left;
    assert Copied(now, rest, left, Put(now, rest.e, left), Cons(Advance(rest.e, |left|), rest.next), []);
  }

  lemma CopyAll(mem: seq<bv8>, list: Iols, all: seq<bv8>, now: seq<bv8>, left: seq<bv8>)
    requires Copying(mem, list, all, now, Nil, left)
    ensures CopyDone(mem, list, all, now, Nil, left)
  {
    assert Open(0);
    assert Copied(now, Nil, left, now, Nil, left);
  }

  // ------------------------------------------------------------------ the direct path

  /** Reading a list directly ended as foreseen. */
  ghost predicate Directed(was: View, o: Outcome, s: Status, now: View) {
    s == o.status && now.ev == o.ev && o.left <= |was.input| && Consumed(was, o.served, |was.input| - o.left, now)
  }

  /** `done` stands for the elements that are dealt with. */
  ghost predicate Dealt(was: View, now: View, done: Iols) {
    forall x {:trigger Open(x)} :: Open(x) ==> Consumed(was, done, Total(done), now)
  }

  /** With them done, `o` is what remains of the goal. */
  ghost predicate Remains(goal: Outcome, done: Iols, o: Outcome) {
    forall x {:trigger Open(x)} :: Open(x) ==> goal == Behind(done, o)
  }

  ghost predicate Directing(goal: Outcome, was: View, now: View, done: Iols, rest: Iols) {
    Dealt(was, now, done) && Remains(goal, done, Direct(rest, |now.input|, now.ev))
  }

  lemma DealtNone(was: View, goal: Outcome)
    ensures Dealt(was, was, Nil) && Remains(goal, Nil, goal)
  {
    assert was.input[..0] == [];
  }

  lemma DealtAll(was: View, now: View, done: Iols, goal: Outcome)
    requires Dealt(was, now, done) && Remains(goal, done, Outcome(Done, Nil, |now.input|, now.ev))
    ensures Directed(was, goal, Done, now)
  {
    assert Open(0);
    AppendNil(done);
  }

  lemma ConsumedTwice(was: View, a: Iols, now: View, b: Iols, all: Iols, n: nat, k: nat, m: nat, next: View)
    requires n == Total(a) && m == n + k && all == Append(a, b)
    requires Consumed(was, a, n, now) && Consumed(now, b, k, next)
    ensures Consumed(was, all, m, next)
  {
    assert Open(0);
    SlicesTo(was.input, n, k, m);
    ScatterTwice(was.mem, a, b, was.input[..n], now.input[..k], was.input[..m]);
  }

  lemma SlicesTo(s: seq<bv8>, n: nat, k: nat, m: nat)
    requires m == n + k <= |s|
    ensures s[..n] + s[n..][..k] == s[..m] && s[n..][k..] == s[m..]
  {
  }

  lemma ScatterTwice(mem: seq<bv8>, a: Iols, b: Iols, d: seq<bv8>, x: seq<bv8>, all: seq<bv8>)
    requires |d| == Total(a) && all == d + x
    ensures Scatter(mem, Append(a, b), all) == Scatter(Scatter(mem, a, d), b, x)
  {
    ScatterAppend(mem, a, b, d, x);
  }

  /** One more part of the list, served as `part`. */
  lemma DealtMore(was: View, now: View, done: Iols, part: Iols, next: View)
    requires Dealt(was, now, done) && Consumed(now, part, Total(part), next)
    ensures Dealt(was, next, Append(done, part))
  {
    assert Open(0);
    var n := Total(done);
    ConsumedTwice(was, done, now, part, Append(done, part), n, Total(part), n + Total(part), next);
    TotalAppend(done, part);
  }

  lemma RemainsLess(goal: Outcome, done: Iols, part: Iols, o: Outcome)
    requires Remains(goal, done, Behind(part, o))
    ensures Remains(goal, Append(done, part), o)
  {
    assert Open(0);
    AppendAppend(done, part, o.served);
  }

  lemma DirectFails(goal: Outcome, was: View, now: View, done: Iols, rest: Iols, f: Flow, next: View)
    requires Dealt(was, now, done) && Remains(goal, done, Outcome(f.status, rest, f.left, f.ev))
    requires Ends(now, rest, f, f.status, next)
    ensures Directed(was, goal, f.status, next)
  {
    DealtMeans(was, now, done);
    RemainsMeans(goal, done, Outcome(f.status, rest, f.left, f.ev));
    FailsBehind(goal, was, now, done, rest, f, next);
  }

  lemma DealtMeans(was: View, now: View, done: Iols)
    requires Dealt(was, now, done)
    ensures Consumed(was, done, Total(done), now)
  {
    assert Open(0);
  }

  lemma RemainsMeans(goal: Outcome, done: Iols, o: Outcome)
    requires Remains(goal, done, o)
    ensures goal == Outcome(o.status, Append(done, o.served), o.left, o.ev)
  {
    assert Open(0);
  }

  lemma FailsBehind(goal: Outcome, was: View, now: View, done: Iols, rest: Iols, f: Flow, next: View)
    requires Consumed(was, done, Total(done), now) && Ends(now, rest, f, f.status, next)
    requires goal == Outcome(f.status, Append(done, rest), f.left, f.ev)
    ensures Directed(was, goal, f.status, next)
  {
    ConsumedTwice(was, done, now, rest, goal.served, Total(done), |now.input| - f.left, |was.input| - goal.left, next);
  }

  /** A run of `k` buffers. */
  lemma RunGoal(goal: Outcome, was: View, now: View, done: Iols, begin: Iols, k: nat, f: Flow, s: Status, next: View)
    requires Directing(goal, was, now, done, begin) && begin.Cons? && IsSolid(begin.e) && k == SegLen(begin)
    requires f == Pump(Total(Take(begin, k)), |now.input|, now.ev) && Ends(now, Take(begin, k), f, s, next)
    ensures s.Failed? ==> Directed(was, goal, s, next)
    ensures s.Done? ==> Directing(goal, was, next, Append(done, Take(begin, k)), Drop(begin, k))
  {
    DirectRun(begin, |now.input|, now.ev, k, f);
    if s.Failed? {
      ScatterFront(now.mem, begin, k, now.input[..|now.input| - f.left]);
      DirectFails(goal, was, now, done, begin, f, next);
    } else {
      RunDone(goal, was, now, done, Take(begin, k), Direct(Drop(begin, k), f.left, f.ev), f, next);
    }
  }

  lemma RunDone(goal: Outcome, was: View, now: View, done: Iols, part: Iols, o: Outcome, f: Flow, next: View)
    requires Dealt(was, now, done) && Remains(goal, done, Behind(part, o))
    requires Ends(now, part, f, Done, next) && |now.input| == f.left + Total(part)
    ensures Dealt(was, next, Append(done, part)) && Remains(goal, Append(done, part), o) && |next.input| == f.left
  {
    DealtMore(was, now, done, part, next);
    RemainsLess(goal, done, part, o);
  }

  /** An element that is not read into: it is served as `e`. */
  lemma PassGoal(goal: Outcome, was: View, now: View, done: Iols, e: Iol, next: View, o: Outcome)
    requires Dealt(was, now, done) && Remains(goal, done, First(e, o))
    requires !IsSolid(e) && e.len <= |now.input| && next.mem == now.mem && next.input == now.input[e.len..]
    ensures Dealt(was, next, Append(done, Cons(e, Nil))) && Remains(goal, Append(done, Cons(e, Nil)), o)
  {
    assert Total(Cons(e, Nil)) == e.len + Total(Nil) == e.len;
    FirstBehind(e, o);
    ConsumedOne(now, e, next);
    DealtMore(was, now, done, Cons(e, Nil), next);
    RemainsLess(goal, done, Cons(e, Nil), o);
  }

  lemma PassEmpty(goal: Outcome, was: View, now: View, done: Iols, rest: Iols)
    requires Directing(goal, was, now, done, rest) && rest.Cons? && rest.e.len == 0
    ensures Directing(goal, was, now, Append(done, Cons(rest.e, Nil)), rest.next)
  {
    DirectEmpty(rest, |now.input|, now.ev);
    PassGoal(goal, was, now, done, rest.e, now, Direct(rest.next, |now.input|, now.ev));
  }

  lemma HoleGoal(goal: Outcome, was: View, now: View, done: Iols, rest: Iols, f: Flow, s: Status, next: View)
    requires Directing(goal, was, now, done, rest) && rest.Cons? && rest.e.Hole? && rest.e.len > 0
    requires f == SkipFlow(rest.e.len, |now.input|, now.ev) && Skips(f, now, s, next) && next.mem == now.mem
    ensures Directing(goal, was, next, Append(done, Cons(Hole(|now.input| - f.left), Nil)), rest.next)
  {
    DirectHole(rest, |now.input|, now.ev, f);
    var e := Hole(|now.input| - f.left);
    PassGoal(goal, was, now, done, e, next, Direct(rest.next, |next.input|, next.ev));
  }

  lemma FirstBehind(e: Iol, o: Outcome)
    ensures First(e, o) == Behind(Cons(e, Nil), o)
  {
    assert Append(Nil, o.served) == o.served;
  }

  /** Nothing is written for a hole or an empty buffer. */
  lemma ConsumedOne(now: View, e: Iol, next: View)
    requires !IsSolid(e) && e.len <= |now.input| && next.mem == now.mem && next.input == now.input[e.len..]
    ensures Consumed(now, Cons(e, Nil), e.len, next)
  {
    PutNothing(now.mem, e);
  }

  /** `it` stands behind `k` buffers with room. */
  ghost predicate Segment(begin: Iols, k: nat, it: Iols) {
    it.Cons? && k <= SegLen(begin) && it == Drop(begin, k)
  }

  lemma SegmentMore(begin: Iols, k: nat, it: Iols)
    requires Segment(begin, k, it) && IsSolid(it.e)
    ensures k + 1 <= SegLen(begin) && it.next == Drop(begin, k + 1)
  {
    SegSolid(begin, k);
    DropNext(begin, k);
  }

  lemma {:induction false} DropNext(list: Iols, k: nat)
    requires Drop(list, k).Cons?
    ensures Drop(list, k + 1) == Drop(list, k).next
  {
    if k > 0 { DropNext(list.next, k - 1); }
  }

  lemma SegmentFits(begin: Iols, k: nat, it: Iols, size: nat)
    requires Segment(begin, k, it) && Fits(begin, size)
    ensures Fits(it, size)
  {
    TakeFits(begin, k, size);
  }

  lemma SegmentEnds(begin: Iols, k: nat, it: Iols, size: nat)
    requires Segment(begin, k, it) && IsSolid(it.e) && (it.next.Nil? || !IsSolid(it.next.e)) && Fits(begin, size)
    ensures SegLen(begin) == k + 1 && it.next == Drop(begin, k + 1) && Solid(Take(begin, k + 1)) &&
      Take(begin, k + 1).Cons?
    ensures Fits(Take(begin, k + 1), size)
  {
    SegmentMore(begin, k, it);
    SegSolid(begin, k + 1);
    TakeFits(begin, k + 1, size);
  }

  // ------------------------------------------------------------------ buffered bytes, then a list read directly

  /** The list of which `k` bytes came from the buffer and whose rest was served as `served`. */
  function Joined(list: Iols, k: nat, served: Iols): Iols {
    if list.Nil? then served
    else if k >= list.e.len then Cons(list.e, Joined(list.next, k - list.e.len, served))
    else if served.Nil? then list
    else Cons(if list.e.Buffer? then list.e else Hole(k + served.e.len), served.next)
  }

  lemma {:induction false} JoinedServed(list: Iols, k: nat, served: Iols)
    requires k <= Total(list) && Served(Cut(list, k), served)
    ensures Served(list, Joined(list, k, served)) && Total(Joined(list, k, served)) == k + Total(served)
    ensures served == Cut(list, k) <==> Joined(list, k, served) == list
  {
    if list.Cons? && k >= list.e.len { JoinedServed(list.next, k - list.e.len, served); }
  }

  lemma {:induction false} JoinedScatter(mem: seq<bv8>, list: Iols, d: seq<bv8>, served: Iols, x: seq<bv8>)
    requires Fits(list, |mem|) && |d| <= Total(list) && Served(Cut(list, |d|), served)
    ensures Scatter(mem, Joined(list, |d|, served), d + x) == Scatter(Scatter(mem, list, d), served, x)
    decreases list
  {
    if list.Nil? {
      assert d + x == x;
    } else if |d| < list.e.len {
      ScatterInto(mem, Joined(list, |d|, served), d, x);
      ScatterFew(mem, list, d);
    } else {
      var e := list.e;
      var d0, d1 := d[..e.len], d[e.len..];
      assert d == d0 + d1 && d + x == d0 + (d1 + x);
      ScatterPast(mem, Joined(list, |d|, served), d0, d1 + x);
      ScatterPast(mem, list, d0, d1);
      JoinedScatter(Put(mem, e, d0), list.next, d1, served, x);
    }
  }

  // ------------------------------------------------------------------ the whole of receiving

  const BUFSIZE := 1984

  /** What the bytes in the receive buffer leave of a list. */
  ghost function Missing(buffered: bool, list: Iols, pending: nat): Iols {
    if buffered then Cut(list, Min(pending, Total(list))) else list
  }

  ghost predicate Directly(buffered: bool, rest: Iols) {
    !buffered || Total(rest) > BUFSIZE
  }

  /** When a list is served as it is: on the direct path every NULL buffer has to be skipped to its end. */
  ghost predicate Exact(buffered: bool, rest: Iols, avail: nat, ev: Script) {
    Directly(buffered, rest) ==> SkipsDone(rest, avail, ev)
  }

  /** Enough bytes are to come, and nothing fails for long enough. */
  ghost predicate Plenty(rest: Iols, avail: nat, ev: Script) {
    Total(rest) <= avail && Ample(ev, Total(rest))
  }

  /** The same for `want` bytes, with `k` events to spare. */
  ghost predicate Supplied(ev: Script, want: nat, avail: nat, k: int) {
    forall x {:trigger Open(x)} :: Open(x) ==> want <= avail && Spare(ev, want, k)
  }

  lemma SupplyStarts(list: Iols, avail: nat, ev: Script)
    requires Plenty(list, avail, ev)
    ensures Supplied(ev, Total(list), avail, 0)
  {
  }

  /** Allocating, or waiting. */
  lemma SupplyLess(ev: Script, want: nat, avail: nat, k: int)
    requires Supplied(ev, want, avail, k) && want + k > 0
    ensures ev.Then? && !ev.event.Fail? && Waited(ev).Done? && Supplied(Tail(ev), want, avail, k - 1)
  {
    assert Open(0);
    SpareLess(ev, want, k);
  }

  /** Reading ahead. */
  lemma SupplyRead(ev: Script, want: nat, avail: nat, cap: nat, k: int)
    requires Supplied(ev, want, avail, k) && want > 0 && cap > 0 && -2 <= k
    ensures var r := Offer(cap, avail, ev);
      && !r.Error? && r != Got(0)
      && var got := if r.Got? then r.k else 0;
        Supplied(Tail(ev), want - Min(got, want), avail - got, k + 2)
  {
    assert Open(0);
    SpareRead(ev, want, cap, avail, k);
  }

  lemma SupplyWrite(ev: Script, want: nat, k: int)
    requires Supplied(ev, want, want, k) && want > 0 && -2 <= k
    ensures var r := Accept(want, ev);
      && !r.Error?
      && var rest := want - (if r.Got? then r.k else 0); Supplied(Tail(ev), rest, rest, k + 2)
  {
    assert Open(0);
    SpareWrite(ev, want, k);
  }

  lemma SupplyEnough(ev: Script, want: nat, avail: nat, k: nat)
    requires Supplied(ev, want, avail, k)
    ensures Supplied(ev, want, avail, 0)
  {
    assert Open(0);
  }

  /** What the direct path makes of a list. */
  lemma ReceivedDirectly(was: View, cur: Iols, buffered: bool, o: Outcome, s: Status, now: View)
    requires o == Direct(cur, |was.input|, was.ev) && Directed(was, o, s, now) && Directly(buffered, cur)
    ensures o.left <= |was.input| && Served(cur, o.served)
    ensures Received(was.mem, o.served, was.input, |was.input| - o.left, s, now.mem, now.input)
    ensures o.served == cur <==> Exact(buffered, cur, |was.input|, was.ev)
    ensures Plenty(cur, |was.input|, was.ev) ==> s.Done? && o.served == cur
  {
    assert Open(0);
    DirectServes(cur, |was.input|, was.ev);
    if Plenty(cur, |was.input|, was.ev) { DirectSucceeds(cur, |was.input|, was.ev); }
  }

  /** A list without NULL buffers is always served as it is. */
  lemma WholeExact(buffered: bool, list: Iols, pending: nat, avail: nat, ev: Script)
    requires Whole(list)
    ensures Exact(buffered, Missing(buffered, list, pending), avail, ev)
  {
    CutWhole(list, Min(pending, Total(list)));
    WholeSkips(Missing(buffered, list, pending), avail, ev);
  }

  lemma {:induction false} CutWhole(list: Iols, k: nat)
    requires Whole(list)
    ensures Whole(Cut(list, k))
  {
    if list.Cons? && k >= list.e.len { CutWhole(list.next, k - list.e.len); }
  }

  /** The first `n` bytes of `stream` went to where `served` says, and `left` are the others. */
  ghost predicate Received(mem: seq<bv8>, served: Iols, stream: seq<bv8>, n: nat, s: Status, now: seq<bv8>,
      left: seq<bv8>) {
    && n <= |stream| && n <= Total(served) && (s.Done? ==> n == Total(served))
    && now == Scatter(mem, served, stream[..n]) && left == stream[n..]
  }

  /** Buffered bytes were copied to the front of the list and the rest of it was received. */
  lemma ReceivedBoth(mem: seq<bv8>, list: Iols, p: seq<bv8>, mid: seq<bv8>, rest: Iols,
      served: Iols, input: seq<bv8>, n: nat, s: Status, now: seq<bv8>, left: seq<bv8>)
    requires Fits(list, |mem|) && CopyDone(mem, list, p, mid, rest, []) && Served(rest, served)
    requires Received(mid, served, input, n, s, now, left)
    ensures |p| <= Total(list) && Served(list, Joined(list, |p|, served))
    ensures served == rest <==> Joined(list, |p|, served) == list
    ensures Received(mem, Joined(list, |p|, served), p + input, |p| + n, s, now, left)
  {
    assert Open(0);
    var k := |p|;
    assert p[..k] == p;
    JoinedServed(list, k, served);
    JoinedScatter(mem, list, p, served, input[..n]);
    JoinPrefix(p, input, n);
  }

  lemma JoinPrefix(p: seq<bv8>, input: seq<bv8>, n: nat)
    requires n <= |input|
    ensures p + input[..n] == (p + input)[..|p| + n] && (p + input)[|p| + n..] == input[n..]
  {
  }

  /** There were too few bytes in the buffer. */
  lemma CopyShort(mem: seq<bv8>, list: Iols, p: seq<bv8>, now: seq<bv8>, rest: Iols, left: seq<bv8>)
    requires Fits(list, |mem|) && CopyDone(mem, list, p, now, rest, left) && rest.Cons?
    ensures left == [] && |p| < Total(list) && rest == Cut(list, |p|) == Missing(true, list, |p|) && rest.e.len > 0
    ensures Fits(rest, |now|) && Total(rest) == Total(list) - |p|
  {
    assert Open(0);
    var k := Min(|p|, Total(list));
    CutKeeps(list, k, |mem|);
    CutFirst(list, k);
  }

  lemma {:induction false} CutFirst(list: Iols, k: nat)
    ensures Cut(list, k).Cons? ==> Cut(list, k).e.len > 0
  {
    if list.Cons? && k >= list.e.len { CutFirst(list.next, k - list.e.len); }
  }

  /** The list was filled from the buffer alone. */
  lemma ReceivedFront(mem: seq<bv8>, list: Iols, p: seq<bv8>, now: seq<bv8>, left: seq<bv8>, input: seq<bv8>)
    requires Fits(list, |mem|) && CopyDone(mem, list, p, now, Nil, left)
    ensures Total(list) <= |p| && Received(mem, list, p + input, Total(list), Done, now, left + input)
    ensures Missing(true, list, |p|) == Nil
  {
    assert Open(0);
    var k := Min(|p|, Total(list));
    CutKeeps(list, k, |mem|);
    SplitPrefix(p, input, k);
  }

  lemma SplitPrefix(p: seq<bv8>, input: seq<bv8>, n: nat)
    requires n <= |p|
    ensures p[..n] == (p + input)[..n] && (p + input)[n..] == p[n..] + input
  {
  }

  /** The buffered path: `n` bytes have been read and copied, nothing is left in the buffer. */
  ghost predicate Refilling(was: View, list: Iols, mem: seq<bv8>, input: seq<bv8>, rest: Iols, n: nat) {
    forall x {:trigger Open(x)} :: Open(x) ==>
      && Fits(list, |was.mem|) && n <= Total(list) && rest == Cut(list, n)
      && Consumed(was, list, n, View(mem, input, was.ev))
  }

  lemma RefillStarts(was: View, list: Iols)
    requires Fits(list, |was.mem|) && list.Cons? && list.e.len > 0
    ensures Refilling(was, list, was.mem, was.input, list, 0) && Total(list) > 0
  {
    assert was.input[..0] == [];
  }

  lemma RefillFits(was: View, list: Iols, mem: seq<bv8>, input: seq<bv8>, rest: Iols, n: nat)
    requires Refilling(was, list, mem, input, rest, n)
    ensures Fits(rest, |mem|) && Received(was.mem, list, was.input, n, Failed(EPIPE), mem, input)
  {
    assert Open(0);
    CutKeeps(list, n, |was.mem|);
  }

  /** `j` more bytes have been put into the list. */
  lemma RefillData(was: View, list: Iols, mem: seq<bv8>, input: seq<bv8>, rest: Iols, n: nat, j: nat,
      now: seq<bv8>, left: seq<bv8>, next: Iols)
    requires Refilling(was, list, mem, input, rest, n) && j <= |input| && j <= Total(rest)
    requires now == Scatter(mem, rest, input[..j]) && left == input[j..] && next == Cut(rest, j)
    ensures Refilling(was, list, now, left, next, n + j)
    ensures next.Nil? <==> j == Total(rest)
    ensures n + Total(rest) == Total(list)
  {
    assert Open(0);
    CutKeeps(list, n, |was.mem|);
    CutKeeps(rest, j, |was.mem|);
    CutCut(list, n, j);
    ScatterCut(was.mem, list, was.input[..n], input[..j]);
    Slices(was.input, n, j);
  }

  /** `k` more bytes were read and copied as far as there was room. */
  lemma RefillMore(was: View, list: Iols, mem: seq<bv8>, input: seq<bv8>, rest: Iols, n: nat,
      k: nat, now: seq<bv8>, next: Iols, left: seq<bv8>)
    requires Refilling(was, list, mem, input, rest, n) && k <= |input| &&
      CopyDone(mem, rest, input[..k], now, next, left)
    ensures next.Nil? ==> Received(was.mem, list, was.input, Total(list), Done, now, left + input[k..])
    ensures next.Cons? ==> left == [] && Refilling(was, list, now, input[k..], next, n + k) && n + k < Total(list)
  {
    if next.Nil? {
      RefillLast(was, list, mem, input, rest, n, k, now, left);
    } else {
      RefillPart(was, list, mem, input, rest, n, k, now, next, left);
    }
  }

  lemma RefillLast(was: View, list: Iols, mem: seq<bv8>, input: seq<bv8>, rest: Iols, n: nat,
      k: nat, now: seq<bv8>, left: seq<bv8>)
    requires Refilling(was, list, mem, input, rest, n) && k <= |input|
    requires CopyDone(mem, rest, input[..k], now, Nil, left)
    ensures Received(was.mem, list, was.input, Total(list), Done, now, left + input[k..])
  {
    var j := Min(k, Total(rest));
    CopyPieces(mem, rest, input, k, now, Nil, left, j);
    RefillData(was, list, mem, input, rest, n, j, now, input[j..], Nil);
    RefillAll(was, list, now, input[j..], Nil, n + j, Total(list), left + input[k..]);
  }

  lemma RefillPart(was: View, list: Iols, mem: seq<bv8>, input: seq<bv8>, rest: Iols, n: nat,
      k: nat, now: seq<bv8>, next: Iols, left: seq<bv8>)
    requires Refilling(was, list, mem, input, rest, n) && k <= |input| && next.Cons?
    requires CopyDone(mem, rest, input[..k], now, next, left)
    ensures left == [] && Refilling(was, list, now, input[k..], next, n + k) && n + k < Total(list)
  {
    var j := Min(k, Total(rest));
    CopyPieces(mem, rest, input, k, now, next, left, j);
    RefillFits(was, list, mem, input, rest, n);
    CutKeeps(rest, j, |mem|);
    RefillData(was, list, mem, input, rest, n, k, now, input[k..], next);
  }

  lemma RefillAll(was: View, list: Iols, now: seq<bv8>, input: seq<bv8>, rest: Iols, n: nat, m: nat, left: seq<bv8>)
    requires Refilling(was, list, now, input, rest, n) && n == m == Total(list) && left == input
    ensures Received(was.mem, list, was.input, m, Done, now, left)
  {
    assert Open(0);
  }

  lemma CopyPieces(mem: seq<bv8>, rest: Iols, input: seq<bv8>, k: nat, now: seq<bv8>, next: Iols, left: seq<bv8>,
      j: nat)
    requires k <= |input| && CopyDone(mem, rest, input[..k], now, next, left) && j == Min(k, Total(rest))
    ensures now == Scatter(mem, rest, input[..j]) && next == Cut(rest, j)
    ensures left + input[k..] == input[j..] && (j == k ==> left == [])
  {
    assert Open(0);
    Pieces(input, k, j);
  }

  lemma Pieces(s: seq<bv8>, k: nat, j: nat)
    requires j <= k <= |s|
    ensures s[..k][..j] == s[..j] && s[..k][j..] + s[k..] == s[j..]
  {
  }
}
