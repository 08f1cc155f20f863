/** Sending to and receiving from a byte stream socket. */
module Fd {
  import opened Marks
  import opened Iolists
  import opened Kernel
  import opened FdSpec
  import opened DirectPath

  /** The local vector of the list's elements. */
  method ToVector(list: Iols) returns (iov: array<Iol>)
    ensures fresh(iov) && Vec(iov[..], 0) == list
  {
    iov := new Iol[Length(list)](_ => Hole(0));
    var it, i := list, 0;
    while it.Cons?
      invariant i <= iov.Length == Length(list) && it == Drop(list, i) && Length(it) == iov.Length - i
      invariant forall j :: 0 <= j < i ==> iov[j] == Nth(list, j)
      decreases it
    {
      DropLength(list, i);
      iov[i] := it.e;
      i, it := i + 1, it.next;
    }
    VecIs(iov[..], list, 0);
  }

  /** Removing the first `sz` bytes from the vector, whose elements start at `h`. */
  method Adjust(iov: array<Iol>, h: nat, sz: nat) returns (k: nat)
    requires h <= iov.Length && sz <= Total(Vec(iov[..], h))
    modifies iov
    ensures h <= k <= iov.Length && Vec(iov[..], k) == Shift(old(Vec(iov[..], h)), sz)
  {
    k := h;
    var left: nat := sz;
    while left > 0
      invariant h <= k <= iov.Length && iov[..] == old(iov[..]) && left <= Total(Vec(iov[..], k))
      invariant Shift(Vec(iov[..], k), left) == Shift(old(Vec(iov[..], h)), sz)
      decreases iov.Length - k
    {
      if iov[k].len > left {
        iov[k] := Advance(iov[k], left);
        VecSame(old(iov[..]), iov[..], k + 1);
        return;
      }
      left := left - iov[k].len;
      k := k + 1;
    }
  }

  class Socket {
    /** The memory that lists refer to. */
    var mem: seq<bv8>
    /** The bytes still to come from the peer. */
    var input: seq<bv8>
    /** The bytes passed to the kernel. */
    var sent: seq<bv8>
    var events: Script
    /** The receive buffer; an empty sequence stands for a NULL pointer. */
    var len: nat
    var pos: nat
    var buf: seq<bv8>
    /** Whether there is a receive buffer at all. */
    const buffered: bool

    ghost predicate Valid()
      reads this`len, this`pos, this`buf
    {
      pos <= len <= |buf| && (|buf| == 0 || |buf| == BUFSIZE) && (!buffered ==> |buf| == 0)
    }

    ghost function Pending(): seq<bv8>
      requires Valid()
      reads this`len, this`pos, this`buf
    {
      buf[pos..len]
    }

    ghost function Now(): View
      reads this`mem, this`input, this`events
    {
      View(mem, input, events)
    }

    constructor (mem: seq<bv8>, input: seq<bv8>, events: Script, buffered: bool)
      ensures Valid() && Pending() == [] && this.mem == mem && this.input == input && this.events == events &&
        sent == []
      ensures this.buffered == buffered
    {
      this.mem, this.input, this.events, this.buffered := mem, input, events, buffered;
      len, pos, buf, sent := 0, 0, [], [];
    }

    // ---------------------------------------------------------------- system calls

    method Wait() returns (s: Status)
      modifies this`events
      ensures s == Waited(old(events)) && events == Tail(old(events))
      ensures s.Done? ==> Size(events) < Size(old(events))
    {
      s := Waited(events);
      events := Tail(events);
    }

    method RecvMsg(iov: Iols) returns (r: Reply)
      modifies this`mem, this`input, this`events
      ensures r == Offer(Total(iov), |old(input)|, old(events)) && events == Tail(old(events))
      ensures r.Got? ==> Consumed(old(Now()), iov, r.k, Now())
      ensures !r.Got? ==> mem == old(mem) && input == old(input)
    {
      r := Offer(Total(iov), |input|, events);
      events := Tail(events);
      if r.Got? {
        mem, input := Scatter(mem, iov, input[..r.k]), input[r.k..];
      }
    }

    method SendMsg(iov: Iols) returns (r: Reply)
      requires Sends(mem, iov) && Total(iov) > 0
      modifies this`sent, this`events
      ensures r == Accept(Total(iov), old(events)) && events == Tail(old(events))
      ensures sent == if r.Got? then old(sent) + Gather(mem, iov)[..r.k] else old(sent)
    {
      r := Accept(Total(iov), events);
      events := Tail(events);
      if r.Got? {
        sent := sent + Gather(mem, iov)[..r.k];
      }
    }

    // ---------------------------------------------------------------- sending

    /** On success exactly the bytes of the list have been passed on, otherwise a prefix of them; it
        succeeds if nothing fails for long enough. */
    method Send(list: Iols) returns (s: Status)
      requires Sends(mem, list)
      modifies this`sent, this`events
      ensures old(sent) <= sent <= old(sent) + Gather(mem, list)
      ensures s.Done? ==> sent == old(sent) + Gather(mem, list)
      ensures Ample(old(events), Total(list)) ==> s.Done?
    {
      var iov := ToVector(list);
      var h := 0;
      ghost var want, ample := Total(list), Ample(events, Total(list));
      SendingStarts(mem, list, sent);
      while true
        invariant h <= iov.Length && Sending(mem, Vec(iov[..], h), sent, list, old(sent))
        invariant |sent| + want == |old(sent)| + Total(list) && (ample ==> Supplied(events, want, want, 0))
        decreases Size(events)
      {
        h := SkipEmpty(iov, h, list, old(sent));
        SendingEnds(mem, Vec(iov[..], h), sent, list, old(sent));
        if h == iov.Length { return Done; }
        var sz;
        sz, s := SendSome(Vec(iov[..], h), list, old(sent));
        if s.Failed? { return; }
        h := Adjust(iov, h, sz);
        SendingEnds(mem, Vec(iov[..], h), sent, list, old(sent));
        if sz > 0 && h == iov.Length { return Done; }
        want := want - sz;
        if ample { SupplyLess(events, want, want, 2); }
        s := Wait();
        if s.Failed? { return; }
        if ample { SupplyEnough(events, want, want, 1); }
      }
    }

    method SkipEmpty(iov: array<Iol>, h: nat, ghost list: Iols, ghost before: seq<bv8>) returns (k: nat)
      requires h <= iov.Length && Sending(mem, Vec(iov[..], h), sent, list, before)
      ensures h <= k <= iov.Length && Sending(mem, Vec(iov[..], k), sent, list, before)
      ensures k < iov.Length ==> iov[k].len > 0
    {
      k := h;
      while k < iov.Length && iov[k].len == 0
        invariant h <= k <= iov.Length && Sending(mem, Vec(iov[..], k), sent, list, before)
      {
        SendingPast(mem, Vec(iov[..], k), sent, list, before);
        k := k + 1;
      }
    }

    /** One system call. */
    method SendSome(iov: Iols, ghost list: Iols, ghost before: seq<bv8>) returns (sz: nat, s: Status)
      requires Sending(mem, iov, sent, list, before) && iov.Cons? && iov.e.len > 0
      modifies this`sent, this`events
      ensures events == Tail(old(events)) && Size(events) <= Size(old(events)) && sz <= Total(iov)
      ensures s.Failed? ==> sent == old(sent)
      ensures s.Done? ==> Sending(mem, Shift(iov, sz), sent, list, before) && |sent| == |old(sent)| + sz
      ensures var want := Total(iov);
        Supplied(old(events), want, want, 0) ==> s.Done? && Supplied(events, want - sz, want - sz, 2)
    {
      SendingEnds(mem, iov, sent, list, before);
      ghost var want := Total(iov);
      if Supplied(events, want, want, 0) { SupplyWrite(events, want, 0); }
      var r := SendMsg(iov);
      sz, s := 0, Done;
      if r.Error? {
        s := Failed(Reset(r.e));
      } else if r.Got? {
        assert r.k != 0;
        sz := r.k;
      }
      SendingMore(mem, iov, old(sent), list, before, sz);
    }

    // ---------------------------------------------------------------- receiving

    /** `dill_fd_recv_`: fills the buffers, without the receive buffer. */
    method RecvRaw(list: Iols) returns (s: Status)
      requires list.Cons? && Solid(list) && Fits(list, |mem|)
      modifies this`mem, this`input, this`events
      ensures Ends(old(Now()), list, Pump(Total(list), |old(input)|, old(events)), s, Now())
    {
      ghost var goal := Pump(Total(list), |input|, events);
      var iov := ToVector(list);
      ReadStarts(Now(), list);
      s := RecvVector(iov, goal, list);
    }

    method RecvVector(iov: array<Iol>, ghost goal: Flow, ghost list: Iols) returns (s: Status)
      requires iov.Length > 0 && Reading(goal, Now(), list, Now(), Vec(iov[..], 0), 0)
      modifies this`mem, this`input, this`events, iov
      ensures Ends(old(Now()), list, goal, s, Now())
    {
      ghost var was, n := Now(), 0;
      var h: nat, over := 0, false;
      while true
        invariant h < iov.Length && Reading(goal, was, list, Now(), Vec(iov[..], h), n)
        decreases Size(events)
      {
        h, over, s, n := RecvRound(iov, h, goal, was, list, n);
        if over || s.Failed? { return; }
      }
    }

    /** One round of the loop: a system call and, if there is more to come, waiting for it. */
    method RecvRound(iov: array<Iol>, h: nat, ghost goal: Flow, ghost was: View, ghost list: Iols, ghost n: nat)
      returns (k: nat, over: bool, s: Status, ghost n': nat)
      requires h < iov.Length && Reading(goal, was, list, Now(), Vec(iov[..], h), n)
      modifies this`mem, this`input, this`events, iov
      ensures over || s.Failed? ==> Ends(was, list, goal, s, Now())
      ensures !over && s.Done? ==> k < iov.Length && Reading(goal, was, list, Now(), Vec(iov[..], k), n')
      ensures !over && s.Done? ==> Size(events) < Size(old(events))
    {
      k, over := h, false;
      var sz, vec := 0, Vec(iov[..], h);
      sz, s := RecvSome(vec, goal, was, list, n);
      n' := n + sz;
      if s.Failed? { return; }
      ghost var rest, now := Shift(vec, sz), Now();
      k := Adjust(iov, h, sz);
      assert Now() == now && (k == iov.Length <==> rest == Nil);
      if sz > 0 && k == iov.Length {
        PauseNone(goal, was, list, now, n');
        over := true;
        return;
      }
      s := WaitMore(goal, was, list, rest, n');
    }

    /** One system call. */
    method RecvSome(iov: Iols, ghost goal: Flow, ghost was: View, ghost list: Iols, ghost n: nat)
      returns (sz: nat, s: Status)
      requires Reading(goal, was, list, Now(), iov, n) && iov.Cons?
      modifies this`mem, this`input, this`events
      ensures events == Tail(old(events)) && Size(events) <= Size(old(events))
      ensures s.Failed? ==> Ends(was, list, goal, s, Now())
      ensures s.Done? ==> sz <= Total(iov) && Pausing(goal, was, list, Now(), Shift(iov, sz), n + sz)
      ensures s.Done? && sz == 0 ==> Shift(iov, sz) == iov
    {
      var r := RecvMsg(iov);
      sz, s := 0, Done;
      if r.Error? || r == Got(0) {
        s := Failed(if r.Error? then Reset(r.e) else EPIPE);
        if r.Got? { ConsumedNone(old(Now()), iov, Now()); }
        ReadFails(goal, was, list, old(Now()), iov, n, s, Now());
        return;
      }
      if r.Got? { sz := r.k; }
      ReadMore(goal, was, list, old(Now()), iov, n, sz, Now());
    }

    method WaitMore(ghost goal: Flow, ghost was: View, ghost list: Iols, ghost rest: Iols, ghost n: nat)
      returns (s: Status)
      requires Pausing(goal, was, list, Now(), rest, n) && rest.Cons?
      modifies this`events
      ensures s.Failed? ==> Ends(was, list, goal, s, Now())
      ensures s.Done? ==> Reading(goal, was, list, Now(), rest, n) && Size(events) < Size(old(events))
    {
      s := Wait();
      PauseOver(goal, was, list, old(Now()), rest, n, Now());
    }

    /** `dill_fd_skip`: the bytes go into a buffer on the stack, above everything else in memory. */
    method Skip(len: int) returns (s: Status)
      modifies this`mem, this`input, this`events
      ensures mem == old(mem) && Skips(SkipFlow(len, |old(input)|, old(events)), old(Now()), s, Now())
    {
      var base := |mem|;
      ghost var goal := SkipFlow(len, |input|, events);
      mem := mem + seq(CHUNK, _ => 0);
      SkipStarts(goal, Now(), Now(), len);
      s := SkipInto(base, len, goal);
      mem := mem[..base];
    }

    method SkipInto(base: nat, len: int, ghost goal: Flow) returns (s: Status)
      requires |mem| == base + CHUNK && Skipping(goal, Now(), Now(), len, 0)
      modifies this`mem, this`input, this`events
      ensures |mem| == |old(mem)| && mem[..base] == old(mem)[..base]
      ensures Skips(goal, old(Now()), s, Now())
    {
      ghost var was, n := Now(), 0;
      var left := len;
      while left != 0
        invariant |mem| == base + CHUNK && mem[..base] == was.mem[..base] && n >= 0 &&
          Skipping(goal, was, Now(), left, n)
        decreases Size(events)
      {
        var chunk := Part(left);
        ghost var mid := Now();
        s := SkipChunk(base, chunk);
        SkipStep(goal, was, mid, left, n, s, Now());
        if s.Failed? { return; }
        n := n + (|mid.input| - |input|);
        if left >= 0 { left := left - chunk; }
      }
      SkipEnds(goal, was, Now(), n);
      return Done;
    }

    method SkipChunk(base: nat, chunk: nat) returns (s: Status)
      requires |mem| == base + CHUNK && 0 < chunk <= CHUNK
      modifies this`mem, this`input, this`events
      ensures |mem| == |old(mem)| && mem[..base] == old(mem)[..base]
      ensures Skips(Pump(chunk, |old(input)|, old(events)), old(Now()), s, Now())
    {
      Above(mem, base, chunk, input[..|input| - Pump(chunk, |input|, events).left]);
      assert Total(Cons(Buffer(base, chunk), Nil)) == chunk + Total(Nil) == chunk;
      s := RecvRaw(Cons(Buffer(base, chunk), Nil));
      assert Open(0);
    }

    /** `dill_fd_copy`: from the receive buffer to one element. */
    method Copy(e: Iol) returns (n: nat)
      requires Valid() && Within(e, |mem|)
      modifies this`mem, this`len, this`pos, this`buf
      ensures Valid() && n == Min(e.len, |old(Pending())|)
      ensures mem == Put(old(mem), e, old(Pending())[..n]) && Pending() == old(Pending())[n..]
    {
      var rmn := len - pos;
      if rmn == 0 {
        PutNothing(mem, e);
        return 0;
      }
      if rmn < e.len {
        mem := Put(mem, e, buf[pos..pos + rmn]);
        len, pos, buf := 0, 0, [];
        assert old(Pending())[..rmn] == old(Pending());
        return rmn;
      }
      assert buf[pos..pos + e.len] == Pending()[..e.len];
      mem := Put(mem, e, buf[pos..pos + e.len]);
      pos := pos + e.len;
      return e.len;
    }

    /** Copies to one element after another; `rest` is what could not be filled. */
    method CopyList(list: Iols) returns (rest: Iols)
      requires Valid() && Fits(list, |mem|)
      modifies this`mem, this`len, this`pos, this`buf
      ensures Valid() && CopyDone(old(mem), list, old(Pending()), mem, rest, Pending())
    {
      rest := list;
      CopyStarts(mem, list, Pending());
      while rest.Cons?
        invariant Valid() && Copying(old(mem), list, old(Pending()), mem, rest, Pending())
        decreases rest
      {
        var full;
        full, rest := CopyNext(rest, old(mem), list, old(Pending()));
        if !full { return; }
      }
      CopyAll(old(mem), list, old(Pending()), mem, Pending());
    }

    method CopyNext(rest: Iols, ghost was: seq<bv8>, ghost list: Iols, ghost all: seq<bv8>)
      returns (full: bool, next: Iols)
      requires Valid() && rest.Cons? && Copying(was, list, all, mem, rest, Pending())
      modifies this`mem, this`len, this`pos, this`buf
      ensures Valid()
      ensures full ==> next == rest.next && Copying(was, list, all, mem, next, Pending())
      ensures !full ==> CopyDone(was, list, all, mem, next, Pending())
    {
      ghost var m, p := mem, Pending();
      CopyFits(was, list, all, mem, rest, Pending());
      var sz := Copy(rest.e);
      if sz < rest.e.len {
        CopyLast(was, list, all, m, rest, p);
        assert p[..sz] == p;
        return false, Cons(Advance(rest.e, sz), rest.next);
      }
      CopyStep(was, list, all, m, rest, p);
      return true, rest.next;
    }

    /** The direct path: runs of buffers are read with one call each, NULL buffers are skipped and
        empty ones passed over. The run from `begin` to `it` has `k` elements before `it`. */
    method RecvDirect(cur: Iols) returns (s: Status)
      requires cur.Cons? && Fits(cur, |mem|)
      modifies this`mem, this`input, this`events
      ensures Directed(old(Now()), Direct(cur, |old(input)|, old(events)), s, Now())
    {
      ghost var was, goal, done := Now(), Direct(cur, |input|, events), Nil;
      var begin, it, k := cur, cur, 0;
      DealtNone(was, goal);
      while true
        invariant |mem| == |was.mem| && Fits(begin, |mem|) && Segment(begin, k, it) && (k > 0 ==> IsSolid(it.e))
        invariant Directing(goal, was, Now(), done, begin)
        decreases it
      {
        if it.e.len == 0 {
          assert it == begin;
          PassEmpty(goal, was, Now(), done, it);
          done := Append(done, Cons(it.e, Nil));
        } else if it.e.Hole? {
          assert it == begin;
          s, done := SkipHole(it, goal, was, done);
        } else if it.next.Nil? || !IsSolid(it.next.e) {
          s, done := ReadSegment(begin, it, k, goal, was, done);
          if s.Failed? { return; }
        } else {
          SegmentMore(begin, k, it);
          it, k := it.next, k + 1;
          continue;
        }
        SegmentFits(begin, k, it, |mem|);
        if it.next.Nil? {
          DealtAll(was, Now(), done, goal);
          return Done;
        }
        it := it.next;
        begin, k := it, 0;
      }
    }

    method SkipHole(rest: Iols, ghost goal: Outcome, ghost was: View, ghost done: Iols)
      returns (s: Status, ghost done': Iols)
      requires rest.Cons? && rest.e.Hole? && rest.e.len > 0 && Directing(goal, was, Now(), done, rest)
      modifies this`mem, this`input, this`events
      ensures |mem| == |old(mem)| && Directing(goal, was, Now(), done', rest.next)
    {
      ghost var now, f := Now(), SkipFlow(rest.e.len, |input|, events);
      done' := Append(done, Cons(Hole(|input| - f.left), Nil));
      s := Skip(rest.e.len);
      HoleGoal(goal, was, now, done, rest, f, s, Now());
    }

    method ReadSegment(begin: Iols, it: Iols, k: nat, ghost goal: Outcome, ghost was: View, ghost done: Iols)
      returns (s: Status, ghost done': Iols)
      requires Segment(begin, k, it) && IsSolid(it.e) && (it.next.Nil? || !IsSolid(it.next.e)) && Fits(begin, |mem|)
      requires Directing(goal, was, Now(), done, begin)
      modifies this`mem, this`input, this`events
      ensures |mem| == |old(mem)|
      ensures s.Failed? ==> Directed(was, goal, s, Now())
      ensures s.Done? ==> Directing(goal, was, Now(), done', it.next)
    {
      SegmentEnds(begin, k, it, |mem|);
      var seg := Take(begin, k + 1);
      ghost var now, f := Now(), Pump(Total(seg), |input|, events);
      s := RecvRaw(seg);
      done' := Append(done, seg);
      RunGoal(goal, was, now, done, begin, k + 1, f, s, Now());
    }

    method Alloc(ghost want: nat) returns (s: Status)
      requires Valid() && buffered && Pending() == []
      modifies this`events, this`buf
      ensures Size(events) <= Size(old(events))
      ensures s.Done? ==> |buf| == BUFSIZE
      ensures s.Failed? ==> buf == old(buf)
      ensures Supplied(old(events), want, |input|, 0) && want > 0 ==> s.Done? && Supplied(events, want, |input|, -1)
    {
      s := Done;
      if buf == [] {
        if Supplied(events, want, |input|, 0) && want > 0 { SupplyLess(events, want, |input|, 0); }
        if Waited(events).Failed? && events.Then? {
          s := Failed(ENOMEM);
        } else {
          buf := seq(BUFSIZE, _ => 0);
        }
        events := Tail(events);
      }
    }

    /** Reads into the empty receive buffer as much as there is. */
    method Refill(ghost want: nat) returns (s: Status, ghost k: nat)
      requires Valid() && buffered && Pending() == []
      modifies this`input, this`events, this`len, this`pos, this`buf
      ensures Valid() && Size(events) <= Size(old(events))
      ensures s.Failed? ==> Pending() == [] && input == old(input)
      ensures s.Done? ==> k <= |old(input)| && Pending() == old(input)[..k] && input == old(input)[k..]
      ensures Supplied(old(events), want, |old(input)|, 0) && want > 0 ==>
        s.Done? && Supplied(events, want - Min(k, want), |input|, 1)
    {
      k := 0;
      s := Alloc(want);
      if s.Failed? { return; }
      if Supplied(events, want, |input|, -1) && want > 0 { SupplyRead(events, want, |input|, BUFSIZE, -1); }
      var r := Offer(BUFSIZE, |input|, events);
      events := Tail(events);
      if r.Error? { return Failed(Reset(r.e)), 0; }
      if r == Got(0) { return Failed(EPIPE), 0; }
      var sz := if r.Got? then r.k else 0;
      buf := input[..sz] + buf[sz..];
      input := input[sz..];
      len, pos, k := sz, 0, sz;
    }

    /** The buffered path. */
    method RecvBuffered(cur: Iols) returns (s: Status, ghost n: nat)
      requires Valid() && buffered && Pending() == [] && cur.Cons? && cur.e.len > 0 && Fits(cur, |mem|)
      modifies this`mem, this`input, this`events, this`len, this`pos, this`buf
      ensures Valid() && Received(old(mem), cur, old(input), n, s, mem, Pending() + input)
      ensures Plenty(cur, |old(input)|, old(events)) ==> s.Done?
    {
      ghost var was, want, plenty := Now(), Total(cur), Plenty(cur, |input|, events);
      var rest := cur;
      n := 0;
      RefillStarts(was, cur);
      if plenty { SupplyStarts(cur, |input|, events); }
      while true
        invariant Valid() && Pending() == [] && Refilling(was, cur, mem, input, rest, n)
        invariant n + want == Total(cur) && want > 0 && (plenty ==> Supplied(events, want, |input|, 0))
        decreases Size(events)
      {
        s, rest, n := RefillAndCopy(was, cur, rest, n, want);
        if s.Failed? || rest.Nil? { return; }
        want := Total(cur) - n;
        RefillFits(was, cur, mem, input, rest, n);
        if plenty { SupplyLess(events, want, |input|, 1); }
        s := Wait();
        if s.Failed? { return; }
      }
    }

    /** One round of the loop, up to waiting for more. */
    method RefillAndCopy(ghost was: View, ghost cur: Iols, rest: Iols, ghost n: nat, ghost want: nat)
      returns (s: Status, next: Iols, ghost n': nat)
      requires Valid() && buffered && Pending() == [] && Refilling(was, cur, mem, input, rest, n)
      requires n + want == Total(cur) && want > 0
      modifies this`mem, this`input, this`events, this`len, this`pos, this`buf
      ensures Valid() && Size(events) <= Size(old(events))
      ensures s.Failed? || next.Nil? ==> Received(was.mem, cur, was.input, n', s, mem, Pending() + input)
      ensures s.Done? && next.Cons? ==>
        Pending() == [] && Refilling(was, cur, mem, input, next, n') && n <= n' < Total(cur)
      ensures Supplied(old(events), want, |old(input)|, 0) ==> s.Done?
      ensures Supplied(old(events), want, |old(input)|, 0) && next.Cons? ==>
        n' <= Total(cur) && Supplied(events, Total(cur) - n', |input|, 1)
    {
      ghost var k, in0 := 0, input;
      RefillFits(was, cur, mem, input, rest, n);
      s, k := Refill(want);
      next, n' := rest, n;
      if s.Failed? { return; }
      ghost var m := mem;
      next := CopyList(rest);
      RefillMore(was, cur, m, in0, rest, n, k, mem, next, Pending());
      n' := if next.Nil? then Total(cur) else n + k;
    }

    /** The bytes that are still missing. */
    method Miss(list: Iols) returns (miss: nat)
      ensures miss == Total(list)
    {
      miss := 0;
      var it := list;
      while it.Cons?
        invariant miss + Total(it) == Total(list)
        decreases it
      {
        miss := miss + it.e.len;
        it := it.next;
      }
    }

    /** `dill_fd_recv`: whatever the kernel does, the list as it was served holds the next bytes of
        what was buffered and what was to come, and the rest is still there. The list is served as
        it is if and only if no NULL buffer was left unskipped on the direct path. */
    method Recv(list: Iols) returns (s: Status, ghost served: Iols, ghost n: nat)
      requires Valid() && Fits(list, |mem|)
      modifies this`mem, this`input, this`events, this`len, this`pos, this`buf
      ensures Valid() && Served(list, served)
      ensures list.Nil? ==>
        s.Failed? && mem == old(mem) && Pending() == old(Pending()) && n <= |old(input)| && input == old(input)[n..]
      ensures list.Cons? ==> Received(old(mem), served, old(Pending()) + old(input), n, s, mem, Pending() + input)
      ensures var rest := Missing(buffered, list, |old(Pending())|);
        list.Cons? ==>
          && (served == list <==> Exact(buffered, rest, |old(input)|, old(events)))
          && (Plenty(rest, |old(input)|, old(events)) ==> s.Done? && served == list)
    {
      if list.Nil? {
        served := Nil;
        s, n := SkipAll();
      } else if buffered {
        s, served, n := RecvFromBuffer(list);
      } else {
        assert Pending() + input == input;
        s, served, n := RecvMissing(list);
      }
    }

    /** All bytes until an error occurs; what is in the receive buffer stays. */
    method SkipAll() returns (s: Status, ghost n: nat)
      modifies this`mem, this`input, this`events
      ensures s.Failed? && mem == old(mem) && n <= |old(input)| && input == old(input)[n..]
    {
      n := |input| - SkipFlow(-1, |input|, events).left;
      s := Skip(-1);
    }

    /** Receiving when some bytes may be buffered. */
    method RecvFromBuffer(list: Iols) returns (s: Status, ghost served: Iols, ghost n: nat)
      requires Valid() && buffered && Fits(list, |mem|)
      modifies this`mem, this`input, this`events, this`len, this`pos, this`buf
      ensures Valid() && Served(list, served)
      ensures Received(old(mem), served, old(Pending()) + old(input), n, s, mem, Pending() + input)
      ensures var rest := Missing(true, list, |old(Pending())|);
        && (served == list <==> Exact(true, rest, |old(input)|, old(events)))
        && (Plenty(rest, |old(input)|, old(events)) ==> s.Done? && served == list)
    {
      ghost var p := Pending();
      var rest := CopyList(list);
      if rest.Nil? {
        ServedSelf(list);
        ReceivedFront(old(mem), list, p, mem, Pending(), input);
        return Done, list, Total(list);
      }
      s, served, n := RecvBehind(list, rest, old(mem), p);
    }

    /** Receiving what the buffered bytes `p` have left of a list. */
    method RecvBehind(ghost list: Iols, rest: Iols, ghost was: seq<bv8>, ghost p: seq<bv8>)
      returns (s: Status, ghost served: Iols, ghost n: nat)
      requires Valid() && buffered && rest.Cons? && Fits(list, |was|) && CopyDone(was, list, p, mem, rest, Pending())
      modifies this`mem, this`input, this`events, this`len, this`pos, this`buf
      ensures Valid() && Served(list, served) && rest == Missing(true, list, |p|)
      ensures Received(was, served, p + old(input), n, s, mem, Pending() + input)
      ensures served == list <==> Exact(true, rest, |old(input)|, old(events))
      ensures Plenty(rest, |old(input)|, old(events)) ==> s.Done? && served == list
    {
      ghost var mid := mem;
      CopyShort(was, list, p, mid, rest, Pending());
      s, served, n := RecvMissing(rest);
      ReceivedBoth(was, list, p, mid, rest, served, old(input), n, s, mem, Pending() + input);
      served, n := Joined(list, |p|, served), |p| + n;
    }

    /** Receiving with nothing buffered. */
    method RecvMissing(cur: Iols) returns (s: Status, ghost served: Iols, ghost n: nat)
      requires Valid() && Pending() == [] && cur.Cons? && Fits(cur, |mem|) && (buffered ==> cur.e.len > 0)
      modifies this`mem, this`input, this`events, this`len, this`pos, this`buf
      ensures Valid() && Served(cur, served) && Received(old(mem), served, old(input), n, s, mem, Pending() + input)
      ensures served == cur <==> Exact(buffered, cur, |old(input)|, old(events))
      ensures Plenty(cur, |old(input)|, old(events)) ==> s.Done? && served == cur
    {
      var miss := Miss(cur);
      if !buffered || miss > BUFSIZE {
        s, served, n := RecvPastBuffer(cur);
        assert Pending() + input == input;
      } else {
        ServedSelf(cur);
        served := cur;
        s, n := RecvBuffered(cur);
      }
    }

    /** What the direct path makes of a list. */
    method RecvPastBuffer(cur: Iols) returns (s: Status, ghost served: Iols, ghost n: nat)
      requires Directly(buffered, cur) && cur.Cons? && Fits(cur, |mem|)
      modifies this`mem, this`input, this`events
      ensures Served(cur, served) && Received(old(mem), served, old(input), n, s, mem, input)
      ensures served == cur <==> Exact(buffered, cur, |old(input)|, old(events))
      ensures Plenty(cur, |old(input)|, old(events)) ==> s.Done? && served == cur
    {
      ghost var was, o := Now(), Direct(cur, |input|, events);
      s := RecvDirect(cur);
      ReceivedDirectly(was, cur, buffered, o, s, Now());
      served, n := o.served, |was.input| - o.left;
    }
  }
}
