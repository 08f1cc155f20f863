/** What the kernel may answer: an arbitrary finite script of replies, one for each call. When the
    script ends nothing more arrives and the deadline expires. */
module Kernel {
  import opened Iolists

  datatype Errno = EPIPE | ECONNRESET | ETIMEDOUT | ENOMEM | Other(code: int)

  datatype Status = Done | Failed(errno: Errno)

  /** Ready for `k` bytes, not ready, or failing. A call that waits succeeds unless it fails. */
  datatype Event = Ready(k: nat) | Again | Fail(e: Errno)

  datatype Script = End | Then(event: Event, later: Script)

  function Size(ev: Script): nat {
    if ev.End? then 0 else 1 + Size(ev.later)
  }

  datatype Reply = Got(k: nat) | WouldBlock | Error(e: Errno)

  function Tail(ev: Script): Script {
    if ev.End? then End else ev.later
  }

  /** A read of at most `cap` bytes when `avail` bytes are still to come; none left is the end of the stream. */
  function Offer(cap: nat, avail: nat, ev: Script): (r: Reply)
    ensures r.Got? ==> r.k <= cap && r.k <= avail && ev.Then?
  {
    if ev.End? then WouldBlock
    else match ev.event
      case Ready(k) => Got(Min(k, Min(cap, avail)))
      case Again => WouldBlock
      case Fail(e) => Error(e)
  }

  /** A write of `cap` bytes, of which at least one is taken. */
  function Accept(cap: nat, ev: Script): (r: Reply)
    requires cap > 0
    ensures r.Got? ==> 0 < r.k <= cap && ev.Then?
  {
    if ev.End? then WouldBlock
    else match ev.event
      case Ready(k) => Got(if k == 0 then 1 else Min(k, cap))
      case Again => WouldBlock
      case Fail(e) => Error(e)
  }

  /** Waiting until the socket is ready. */
  function Waited(ev: Script): (r: Status)
    ensures r.Done? ==> ev.Then?
  {
    if ev.End? then Failed(ETIMEDOUT) else if ev.event.Fail? then Failed(ev.event.e) else Done
  }

  function Reset(e: Errno): Errno {
    if e == EPIPE then ECONNRESET else e
  }

  /** How an operation ended, how many bytes of the stream it left and what is left of the script. */
  datatype Flow = Flow(status: Status, left: nat, ev: Script)

  /** Reading exactly `need` bytes. */
  function Pump(need: nat, avail: nat, ev: Script): (f: Flow)
    ensures f.left <= avail <= f.left + need
    ensures f.status.Done? ==> avail == f.left + need
    decreases ev, 1, need, avail
  {
    match Offer(need, avail, ev)
    case Error(e) => Flow(Failed(Reset(e)), avail, Tail(ev))
    case WouldBlock => Pause(need, avail, Tail(ev))
    case Got(k) =>
      if k == 0 then Flow(Failed(EPIPE), avail, Tail(ev))
      else if k == need then Flow(Done, avail - k, Tail(ev))
      else Pause(need - k, avail - k, Tail(ev))
  }

  /** Waiting, and going on. */
  function Pause(need: nat, avail: nat, ev: Script): (f: Flow)
    ensures f.left <= avail <= f.left + need
    ensures f.status.Done? ==> avail == f.left + need
    decreases ev, 0, need, avail
  {
    match Waited(ev)
    case Failed(e) => Flow(Failed(e), avail, Tail(ev))
    case Done => Pump(need, avail, Tail(ev))
  }

  lemma PumpBlocked(need: nat, avail: nat, ev: Script)
    requires Offer(need, avail, ev) == WouldBlock
    ensures Pump(need, avail, ev) == Pause(need, avail, Tail(ev))
  {
  }

  lemma PumpAll(need: nat, avail: nat, ev: Script)
    requires need > 0 && Offer(need, avail, ev) == Got(need)
    ensures need <= avail && Pump(need, avail, ev) == Flow(Done, avail - need, Tail(ev))
  {
  }

  lemma PumpBroken(need: nat, avail: nat, ev: Script)
    requires Offer(need, avail, ev).Error? || Offer(need, avail, ev) == Got(0)
    ensures var r := Offer(need, avail, ev);
      Pump(need, avail, ev) == Flow(Failed(if r.Error? then Reset(r.e) else EPIPE), avail, Tail(ev))
  {
  }

  lemma PumpSome(need: nat, avail: nat, ev: Script, k: nat)
    requires 0 < k < need && Offer(need, avail, ev) == Got(k)
    ensures k <= avail && Pump(need, avail, ev) == Pause(need - k, avail - k, Tail(ev))
  {
  }

  /** The end of the stream is reported as EPIPE, a broken pipe as ECONNRESET, and the end of the script as a
      timeout. */
  lemma ReadErrors(need: nat, avail: nat, k: nat, e: Errno, rest: Script)
    requires need > 0
    ensures Pump(need, 0, Then(Ready(k), rest)).status == Failed(EPIPE)
    ensures Pump(need, avail, Then(Fail(e), rest)).status == Failed(if e == EPIPE then ECONNRESET else e)
    ensures Pump(need, avail, End).status == Failed(ETIMEDOUT)
  {
  }

  /** A read that goes on after `k` more bytes. */
  lemma PumpGoesOn(need: nat, avail: nat, ev: Script) returns (k: nat)
    requires Offer(need, avail, ev) != Got(0) && !Offer(need, avail, ev).Error? && Offer(need, avail, ev) != Got(need)
    ensures (k < need || need == 0) && (Offer(need, avail, ev).Got? ==> k == Offer(need, avail, ev).k)
    ensures k <= need && k <= avail && Pump(need, avail, ev) == Pause(need - k, avail - k, Tail(ev))
  {
    var r := Offer(need, avail, ev);
    if r.Got? {
      k := r.k;
      PumpSome(need, avail, ev, k);
    } else {
      k := 0;
      PumpBlocked(need, avail, ev);
    }
  }

  /** A read that succeeds has made some calls, and one that fails has not used all the bytes. */
  lemma {:induction false} PumpShrinks(need: nat, avail: nat, ev: Script, f: Flow)
    requires f == Pump(need, avail, ev)
    ensures f.status.Done? ==> Size(f.ev) < Size(ev)
    ensures f.status.Failed? && need > 0 ==> avail < f.left + need
    decreases ev
  {
    var r := Offer(need, avail, ev);
    if r.Error? || r == Got(0) {
      PumpBroken(need, avail, ev);
    } else if r == Got(need) {
      PumpAll(need, avail, ev);
    } else {
      var k := PumpGoesOn(need, avail, ev);
      if Waited(Tail(ev)).Done? { PumpShrinks(need - k, avail - k, Tail(Tail(ev)), f); }
    }
  }

  const CHUNK := 512

  /** The size of the next piece to drop. */
  function Part(len: int): nat
    requires len != 0
  {
    if len < 0 || len > CHUNK then CHUNK else len
  }

  /** Dropping `len` bytes in chunks; a negative length means all bytes until an error occurs. */
  function SkipFlow(len: int, avail: nat, ev: Script): (f: Flow)
    ensures f.left <= avail && (len >= 0 ==> avail <= f.left + len)
    ensures f.status.Done? ==> avail == f.left + len
    decreases Size(ev)
  {
    if len == 0 then Flow(Done, avail, ev)
    else
      var f := Pump(Part(len), avail, ev);
      if f.status.Failed? then f
      else
        PumpShrinks(Part(len), avail, ev, f);
        SkipFlow(if len < 0 then len else len - Part(len), f.left, f.ev)
  }

  lemma SkipBroken(len: int, avail: nat, ev: Script, f: Flow)
    requires len != 0 && f == Pump(Part(len), avail, ev) && f.status.Failed?
    ensures SkipFlow(len, avail, ev) == f
  {
  }

  lemma SkipOn(len: int, avail: nat, ev: Script, f: Flow)
    requires len != 0 && f == Pump(Part(len), avail, ev) && f.status.Done?
    ensures SkipFlow(len, avail, ev) == SkipFlow(if len < 0 then len else len - Part(len), f.left, f.ev)
  {
  }

  lemma {:induction false} SkipFailsShort(len: nat, avail: nat, ev: Script, s: Flow)
    requires len > 0 && s == SkipFlow(len, avail, ev)
    ensures s.status.Failed? ==> avail < s.left + len
    decreases len
  {
    var c := Part(len);
    var f := Pump(c, avail, ev);
    PumpShrinks(c, avail, ev, f);
    if f.status.Failed? {
      SkipBroken(len, avail, ev, f);
    } else {
      SkipOn(len, avail, ev, f);
      if len > c { SkipFailsShort(len - c, f.left, f.ev, s); }
    }
  }

  // ------------------------------------------------------------------ scripts on which nothing fails

  /** Nothing fails and the stream does not end. */
  ghost predicate Lively(ev: Script) {
    ev.Then? ==> !ev.event.Fail? && ev.event != Ready(0) && Lively(ev.later)
  }

  /** How often the socket is not ready. */
  ghost function Delays(ev: Script): nat {
    if ev.End? then 0 else (if ev.event.Again? then 1 else 0) + Delays(ev.later)
  }

  /** The script goes on for long enough to transfer `n` bytes, one at a time, in spite of its delays:
      there are at most three calls for each of them. */
  ghost predicate Ample(ev: Script, n: nat) {
    Spare(ev, n, 0)
  }

  /** The same with `k` events to spare. */
  ghost predicate Spare(ev: Script, n: nat, k: int) {
    Lively(ev) && Size(ev) >= 3 * (n + Delays(ev)) + k
  }

  /** One event is used for something else. */
  lemma SpareLess(ev: Script, n: nat, k: int)
    requires Spare(ev, n, k) && n + k > 0
    ensures ev.Then? && !ev.event.Fail? && Waited(ev).Done? && Spare(ev.later, n, k - 1)
  {
    assert Size(ev) == 1 + Size(ev.later) && Delays(ev) >= Delays(ev.later);
  }

  /** A write, or a delay. */
  lemma SpareWrite(ev: Script, n: nat, k: int)
    requires Spare(ev, n, k) && n > 0 && -2 <= k
    ensures var r := Accept(n, ev);
      && ev.Then? && !r.Error? && Spare(ev.later, if r.Got? then n - r.k else n, k + 2)
  {
    assert Size(ev) == 1 + Size(ev.later);
    assert Delays(ev) == (if ev.event.Again? then 1 else 0) + Delays(ev.later);
  }

  /** A read, or a delay. */
  lemma SpareRead(ev: Script, n: nat, cap: nat, avail: nat, k: int)
    requires Spare(ev, n, k) && 0 < n <= avail && cap > 0 && -2 <= k
    ensures var r := Offer(cap, avail, ev);
      && ev.Then? && !r.Error? && (r.Got? ==> r.k > 0)
      && Spare(ev.later, if r.Got? then n - Min(r.k, n) else n, k + 2)
  {
    assert Size(ev) == 1 + Size(ev.later);
    assert Delays(ev) == (if ev.event.Again? then 1 else 0) + Delays(ev.later);
  }

  lemma AmpleNext(ev: Script, n: nat)
    requires Ample(ev, n) && n > 0
    ensures ev.Then? && ev.later.Then? && Lively(ev.later) && Waited(ev.later).Done? && Lively(ev.later.later)
    ensures ev.event.Again? ==> Ample(ev.later.later, n)
    ensures Ample(ev.later, n - 1) && Ample(ev.later.later, n - 1)
  {
    assert Size(ev) == 1 + Size(ev.later) && Size(ev.later) == 1 + Size(ev.later.later);
    assert Delays(ev) >= Delays(ev.later) >= Delays(ev.later.later);
  }

  /** With enough bytes to come and such a script, reading succeeds. */
  lemma {:induction false} PumpSucceeds(need: nat, avail: nat, ev: Script, n: nat, f: Flow)
    requires 0 < need <= avail && need <= n && Ample(ev, n) && f == Pump(need, avail, ev)
    ensures f.status.Done? && Ample(f.ev, n - need)
    decreases ev
  {
    AmpleNext(ev, n);
    assert ev.event.Again? || (Offer(need, avail, ev) == Got(Min(ev.event.k, need)) && ev.event.k > 0);
    if Offer(need, avail, ev) == Got(need) {
      PumpAll(need, avail, ev);
      AmpleLess(ev.later, n - 1, n - need);
    } else if ev.event.Again? {
      PumpBlocked(need, avail, ev);
      PumpSucceeds(need, avail, ev.later.later, n, f);
    } else {
      var k := PumpGoesOn(need, avail, ev);
      AmpleLess(ev.later.later, n - 1, n - k);
      PumpSucceeds(need - k, avail - k, ev.later.later, n - k, f);
    }
  }

  lemma AmpleLess(ev: Script, n: nat, m: nat)
    requires Ample(ev, n) && m <= n
    ensures Ample(ev, m)
  {
  }

  lemma {:induction false} SkipSucceeds(len: nat, avail: nat, ev: Script, n: nat, s: Flow)
    requires 0 < len <= avail && len <= n && Ample(ev, n) && s == SkipFlow(len, avail, ev)
    ensures s.status.Done? && Ample(s.ev, n - len)
    decreases len
  {
    var c := Part(len);
    var f := Pump(c, avail, ev);
    PumpSucceeds(c, avail, ev, n, f);
    SkipOn(len, avail, ev, f);
    if len > c { SkipSucceeds(len - c, f.left, f.ev, n - c, s); }
  }
}
