/** Messages preceded by their size, over a byte stream. */
module Prefix {
  import opened Marks
  import opened Powers
  import opened Numerals

  /** The sizes that a 64-bit number holds. */
  const LIMIT := 0x1_0000_0000_0000_0000

  // ------------------------------------------------------------------ the header

  /** The size without its lowest `i` bytes. */
  function Upper(sz: nat, i: nat): nat {
    if i == 0 then sz else Upper(sz, i - 1) / 256
  }

  /** The lowest `n` bytes of the size, the most significant first. */
  function Header(sz: nat, n: nat): (r: seq<nat>)
    ensures |r| == n
  {
    if n == 0 then [] else Header(sz / 256, n - 1) + [sz % 256]
  }

  lemma {:induction false} UpperHalf(sz: nat, i: nat)
    ensures Upper(sz / 256, i) == Upper(sz, i + 1)
  {
    if i > 0 { UpperHalf(sz, i - 1); }
  }

  lemma {:induction false} HeaderAt(sz: nat, n: nat, i: nat)
    requires i < n
    ensures Header(sz, n)[n - 1 - i] == Upper(sz, i) % 256
    decreases n
  {
    if i > 0 {
      HeaderAt(sz / 256, n - 1, i - 1);
      UpperHalf(sz, i - 1);
    }
  }

  /** The header stands for the size as far as it fits. */
  lemma {:induction false} HeaderValue(sz: nat, n: nat)
    ensures Digits(256, Header(sz, n)) && Num(256, Header(sz, n)) == sz % Pow2(8 * n)
    decreases n
  {
    if n > 0 {
      HeaderValue(sz / 256, n - 1);
      NumMore(256, Header(sz / 256, n - 1), sz % 256);
      TakeOut(sz, 256, Pow2(8 * (n - 1)));
      Wider(n);
    } else {
      assert Pow2(0) == 1;
      NoRemainder(sz);
    }
  }

  lemma NoRemainder(sz: nat)
    ensures sz % 1 == 0
  {
  }

  lemma Wider(n: nat)
    requires n > 0
    ensures Pow2(8 * n) == Pow2(8 * (n - 1)) * 256
  {
    assert Pow2(8) == 256;
    Pow2Sum(8 * (n - 1), 8);
    assert 8 * (n - 1) + 8 == 8 * n;
  }

  /** The place in the header of the byte with index `i`, counted from the most significant. */
  function Place(big: bool, n: nat, i: nat): nat
    requires i < n
  {
    if big then i else n - 1 - i
  }

  /** The bytes of a header in the other order, or in the same one if it is big-endian. */
  function Turned(hdr: seq<nat>, big: bool): (r: seq<nat>)
    ensures |r| == |hdr|
  {
    seq(|hdr|, i requires 0 <= i < |hdr| => hdr[Place(big, |hdr|, i)])
  }

  lemma TurnedTwice(hdr: seq<nat>, big: bool)
    ensures Turned(Turned(hdr, big), big) == hdr
  {
  }

  /** The header that is sent. */
  function Wire(sz: nat, n: nat, big: bool): (r: seq<nat>)
    ensures |r| == n
  {
    Turned(Header(sz, n), big)
  }

  /** In network order the first byte is the most significant one; in the other order the last one is. */
  lemma WireOrder(sz: nat, n: nat)
    ensures Num(256, Wire(sz, n, true)) == sz % Pow2(8 * n) && Digits(256, Wire(sz, n, true))
    ensures forall i :: 0 <= i < n ==> Wire(sz, n, false)[i] == Wire(sz, n, true)[n - 1 - i]
  {
    HeaderValue(sz, n);
    assert Wire(sz, n, true) == Header(sz, n);
  }

  method PutHeader(size: nat, n: nat, big: bool) returns (hdr: array<nat>)
    ensures fresh(hdr) && hdr[..] == Wire(size, n, big)
  {
    hdr := new nat[n](_ => 0);
    var sz := size;
    for i := 0 to n
      invariant sz == Upper(size, i)
      invariant forall j :: 0 <= j < i ==> hdr[Place(big, n, n - 1 - j)] == Upper(size, j) % 256
    {
      hdr[if big then n - i - 1 else i] := sz % 256;
      sz := sz / 256;
    }
    forall i | 0 <= i < n ensures hdr[i] == Wire(size, n, big)[i] {
      HeaderAt(size, n, n - 1 - Place(big, n, i));
    }
  }

  lemma ModStep(x: nat, c: nat)
    ensures (x % LIMIT * 256 + c) % LIMIT == (x * 256 + c) % LIMIT
  {
    var q, r := x / LIMIT, x % LIMIT;
    assert x * 256 + c == r * 256 + c + (q * 256) * LIMIT;
    ModAdd(r * 256 + c, q * 256, LIMIT);
  }

  /** The size that a header stands for, in 64 bits. */
  function SizeOf(hdr: seq<nat>, big: bool): nat {
    Num(256, Turned(hdr, big)) % LIMIT
  }

  method GetHeader(hdr: seq<nat>, big: bool) returns (sz: nat)
    ensures sz == SizeOf(hdr, big)
  {
    ghost var h := Turned(hdr, big);
    sz := 0;
    for i := 0 to |hdr|
      invariant sz == Num(256, h[..i]) % LIMIT
    {
      var c := hdr[if big then i else |hdr| - i - 1];
      NextValue(h, i);
      sz := (sz * 256 + c) % LIMIT;
    }
    assert h[..|hdr|] == h;
  }

  lemma NextValue(h: seq<nat>, i: nat)
    requires i < |h|
    ensures (Num(256, h[..i]) % LIMIT * 256 + h[i]) % LIMIT == Num(256, h[..i + 1]) % LIMIT
  {
    NumMore(256, h[..i], h[i]);
    assert h[..i] + [h[i]] == h[..i + 1];
    ModStep(Num(256, h[..i]), h[i]);
  }

  /** A size survives its header if and only if it fits there. */
  lemma FitsExact(size: nat, n: nat, big: bool)
    requires size < LIMIT
    ensures SizeOf(Wire(size, n, big), big) == size <==> size < Pow2(8 * n)
  {
    TurnedTwice(Header(size, n), big);
    HeaderValue(size, n);
    var m := Pow2(8 * n);
    if size < m {
      SmallMod(size, m);
      SmallMod(size, LIMIT);
    } else {
      Below(size, m);
      SmallMod(size % m, LIMIT);
    }
  }

  lemma Below(x: nat, m: nat)
    requires m > 0 && x >= m
    ensures x % m < m <= x
  {
  }

  // ------------------------------------------------------------------ a series of messages

  /** What is sent for one message. */
  function Framed(m: seq<nat>, n: nat, big: bool): seq<nat> {
    Wire(|m|, n, big) + m
  }

  /** What is sent for a series of messages. */
  ghost function Stream(ms: seq<seq<nat>>, n: nat, big: bool): seq<nat> {
    if ms == [] then [] else Framed(ms[0], n, big) + Stream(ms[1..], n, big)
  }

  lemma {:induction false} StreamMore(ms: seq<seq<nat>>, m: seq<nat>, n: nat, big: bool)
    ensures Stream(ms + [m], n, big) == Stream(ms, n, big) + Framed(m, n, big)
  {
    if ms == [] {
      assert Stream([m], n, big) == Framed(m, n, big) + Stream([], n, big) == Framed(m, n, big);
      assert ms + [m] == [m];
    } else {
      assert (ms + [m])[1..] == ms[1..] + [m];
      StreamMore(ms[1..], m, n, big);
    }
  }

  lemma {:induction false} StreamPart(ms: seq<seq<nat>>, i: nat, cut: seq<nat>, n: nat, big: bool)
    requires i < |ms| && cut <= Framed(ms[i], n, big)
    ensures Stream(ms[..i], n, big) + cut <= Stream(ms, n, big)
  {
    if i > 0 {
      StreamPart(ms[1..], i - 1, cut, n, big);
      assert ms[..i][1..] == ms[1..][..i - 1];
      Behind(Framed(ms[0], n, big), Stream(ms[1..][..i - 1], n, big), cut, Stream(ms[1..], n, big));
    }
  }

  lemma Behind(a: seq<nat>, b: seq<nat>, cut: seq<nat>, all: seq<nat>)
    requires b + cut <= all
    ensures a + b + cut <= a + all
  {
    assert all == b + cut + all[|b + cut|..];
    assert a + all == a + b + cut + all[|b + cut|..];
  }

  /** How many messages lie within the first `b` bytes of their stream. */
  function Arrived(ms: seq<seq<nat>>, n: nat, b: nat): (k: nat)
    ensures k <= |ms|
  {
    if ms == [] || b < n + |ms[0]| then 0 else 1 + Arrived(ms[1..], n, b - n - |ms[0]|)
  }

  lemma {:induction false} ArrivedAll(ms: seq<seq<nat>>, n: nat, big: bool)
    ensures Arrived(ms, n, |Stream(ms, n, big)|) == |ms|
  {
    if ms != [] { ArrivedAll(ms[1..], n, big); }
  }

  /** The size of the message is a 64-bit number that the header can hold. */
  predicate Sized(m: seq<nat>, n: nat) {
    |m| < LIMIT && |m| < Pow2(8 * n)
  }

  /** A message that was read, or the size of one that was skipped. */
  datatype Receipt = Taken(m: seq<nat>) | Skipped(size: nat)

  function ReceiptOf(m: seq<nat>, keep: bool): Receipt {
    if keep then Taken(m) else Skipped(|m|)
  }

  function Receipts(ms: seq<seq<nat>>, keep: seq<bool>): (r: seq<Receipt>)
    ensures |r| == if |ms| < |keep| then |ms| else |keep|
    ensures forall i :: 0 <= i < |r| ==> r[i] == ReceiptOf(ms[i], keep[i])
  {
    if ms == [] || keep == [] then [] else [ReceiptOf(ms[0], keep[0])] + Receipts(ms[1..], keep[1..])
  }

  // ------------------------------------------------------------------ the socket

  class Socket {
    const hdrlen: nat
    const big: bool
    var inerr: bool
    var outerr: bool
    /** The bytes still to come and the bytes sent through the underlying socket. */
    var input: seq<nat>
    var sent: seq<nat>
    /** The messages that were sent, and what was sent of one that could not be. */
    ghost var messages: seq<seq<nat>>
    ghost var cut: seq<nat>

    /** The bytes sent are those of the messages; only once sending has failed is there more. */
    ghost predicate Sound()
      reads this`sent, this`outerr, this`messages, this`cut
    {
      sent == Stream(messages, hdrlen, big) + cut && (!outerr ==> cut == [])
    }

    constructor (hdrlen: nat, big: bool, input: seq<nat>)
      requires hdrlen > 0
      ensures this.hdrlen == hdrlen && this.big == big && this.input == input && sent == [] && !inerr && !outerr
      ensures Sound() && messages == []
    {
      this.hdrlen, this.big, this.input, sent, inerr, outerr := hdrlen, big, input, [], false, false;
      messages, cut := [], [];
    }

    method Frame(m: seq<nat>) returns (frame: seq<nat>)
      ensures frame == Framed(m, hdrlen, big) && |frame| == hdrlen + |m|
    {
      var hdr := PutHeader(|m|, hdrlen, big);
      frame := hdr[..] + m;
    }

    /** `dill_prefix_msendl`; `down` says whether the underlying socket fails, and `taken` how many bytes it
        takes before that: perhaps all, because behind the header of an empty message the sending loop still
        waits. A message is sent as a whole, or in part and nothing after it. */
    method MSend(m: seq<nat>, down: bool, taken: nat) returns (ok: bool)
      requires Sound() && (down ==> taken <= hdrlen + |m|)
      modifies this`sent, this`outerr, this`messages, this`cut
      ensures Sound() && ok == (!old(outerr) && !down) && outerr == !ok && old(sent) <= sent
      ensures messages == if ok then old(messages) + [m] else old(messages)
      ensures !ok ==> if old(outerr) then cut == old(cut) else cut <= Framed(m, hdrlen, big)
    {
      if outerr { return false; }
      var frame := Frame(m);
      assert sent == Stream(messages, hdrlen, big);
      if down {
        outerr := true;
        sent := sent + frame[..taken];
        cut := frame[..taken];
        return false;
      }
      StreamMore(messages, m, hdrlen, big);
      sent := sent + frame;
      messages := messages + [m];
      ok := true;
    }

    /** A series of messages, of which the one with index `fails` cannot be sent. */
    method SendAll(ms: seq<seq<nat>>, fails: nat, taken: nat)
      requires Sound() && !outerr && messages == [] && (fails < |ms| ==> taken <= hdrlen + |ms[fails]|)
      modifies this`sent, this`outerr, this`messages, this`cut
      ensures Sound() && messages == ms[..if fails < |ms| then fails else |ms|]
      ensures sent <= Stream(ms, hdrlen, big) && (fails >= |ms| ==> sent == Stream(ms, hdrlen, big))
    {
      var n := 0;
      while n < |ms|
        invariant n <= |ms| && n <= fails && Sound() && !outerr && messages == ms[..n]
      {
        var ok := MSend(ms[n], n == fails, taken);
        if !ok {
          StreamPart(ms, n, cut, hdrlen, big);
          return;
        }
        n := n + 1;
      }
      assert ms[..n] == ms;
    }

    method Read(n: nat) returns (ok: bool, s: seq<nat>)
      modifies this`input
      ensures ok == (|old(input)| >= n)
      ensures ok ==> s == old(input)[..n] && input == old(input)[n..]
    {
      ok := |input| >= n;
      if ok {
        s, input := input[..n], input[n..];
      } else {
        s, input := [], [];
      }
    }

    /** `dill_prefix_mrecvl` with one buffer of the given size, or without any. */
    method MRecv(buffer: bool, room: nat) returns (r: int, s: seq<nat>)
      modifies this`input, this`inerr
      ensures old(inerr) ==> r == -1 && inerr && input == old(input)
      ensures !old(inerr) && |old(input)| < hdrlen ==> r == -1 && inerr
      ensures !old(inerr) && |old(input)| >= hdrlen ==>
        Got(old(input), SizeOf(old(input)[..hdrlen], big), buffer, room, r, s)
    {
      s := [];
      if inerr { return -1, []; }
      var ok, hdr := Read(hdrlen);
      if !ok {
        inerr := true;
        return -1, [];
      }
      var sz := GetHeader(hdr, big);
      if buffer && room < sz {
        inerr := true;
        return -1, [];
      }
      ok, s := Read(sz);
      if !ok {
        inerr := true;
        return -1, [];
      }
      if !buffer { s := []; }
      r := sz;
    }

    /** The message of `n` bytes was taken from the stream, or could not be. */
    ghost predicate Got(before: seq<nat>, n: nat, buffer: bool, room: nat, r: int, s: seq<nat>)
      requires |before| >= hdrlen
      reads this`input, this`inerr
    {
      && (r == -1 <==> (buffer && room < n) || |before| < hdrlen + n) && inerr == (r == -1)
      && (r != -1 ==> r == n && input == before[hdrlen + n..] && s == if buffer then before[hdrlen..hdrlen + n] else [])
    }

    /** A message comes back as it was sent, or is skipped as a whole, if and only if its size fits in the header. */
    method Receive(ghost m: seq<nat>, ghost rest: seq<nat>, buffer: bool, room: nat) returns (r: int, s: seq<nat>)
      requires !inerr && |m| < LIMIT && (buffer ==> |m| <= room) && input == Framed(m, hdrlen, big) + rest
      modifies this`input, this`inerr
      ensures r == |m| && s == (if buffer then m else []) && input == rest <==> Sized(m, hdrlen)
      ensures inerr == (r == -1) && (Sized(m, hdrlen) ==> !inerr)
    {
      FitsExact(|m|, hdrlen, big);
      Framing(m, hdrlen, big, rest);
      r, s := MRecv(buffer, room);
    }

    /** A series of messages is received, some of them being skipped, when the first `b` bytes of their
        stream have arrived. */
    method ReceiveAll(ghost ms: seq<seq<nat>>, ghost b: nat, keep: seq<bool>, room: nat) returns (rs: seq<Receipt>)
      requires !inerr && hdrlen > 0 && b <= |Stream(ms, hdrlen, big)| && input == Stream(ms, hdrlen, big)[..b]
      requires forall i :: 0 <= i < |ms| ==> Sized(ms[i], hdrlen) && |ms[i]| <= room
      modifies this`input, this`inerr
      ensures rs == Receipts(ms[..Arrived(ms, hdrlen, b)], keep)
    {
      rs := [];
      ghost var left := b;
      ComingStarts(ms, hdrlen, big, b, input);
      while |rs| < |keep|
        invariant !inerr && |rs| <= |keep| && Coming(ms, hdrlen, big, b, |rs|, left, input)
        invariant |rs| <= Arrived(ms, hdrlen, b) && forall i :: 0 <= i < |rs| ==> rs[i] == ReceiptOf(ms[i], keep[i])
      {
        var ok, receipt;
        ok, receipt, left := ReceiveNext(ms, b, |rs|, left, keep[|rs|], room);
        if !ok { return; }
        rs := rs + [receipt];
      }
    }

    method ReceiveNext(ghost ms: seq<seq<nat>>, ghost b: nat, ghost done: nat, ghost left: nat, keep: bool, room: nat)
      returns (ok: bool, receipt: Receipt, ghost left': nat)
      requires !inerr && hdrlen > 0 && Coming(ms, hdrlen, big, b, done, left, input)
      requires forall i :: 0 <= i < |ms| ==> Sized(ms[i], hdrlen) && |ms[i]| <= room
      modifies this`input, this`inerr
      ensures inerr == !ok && if ok then done < Arrived(ms, hdrlen, b) else done == Arrived(ms, hdrlen, b)
      ensures ok ==> receipt == ReceiptOf(ms[done], keep) && Coming(ms, hdrlen, big, b, done + 1, left', input)
    {
      ghost var s := input;
      ComingFront(ms, hdrlen, big, b, done, left, s);
      if done < |ms| { FitsExact(|ms[done]|, hdrlen, big); }
      var r, m := MRecv(keep, room);
      ok := r != -1;
      receipt := if keep then Taken(m) else Skipped(if ok then r else 0);
      left' := left;
      if ok {
        left' := left - hdrlen - |ms[done]|;
        ComingNext(ms, hdrlen, big, b, done, left, s, done + 1, left', input);
      }
    }
  }

  /** `done` messages have been received and `left` bytes of the others have arrived. */
  ghost predicate Coming(ms: seq<seq<nat>>, n: nat, big: bool, b: nat, done: nat, left: nat, input: seq<nat>) {
    forall x {:trigger Open(x)} :: Open(x) ==>
      && done <= |ms| && left <= |Stream(ms[done..], n, big)| && input == Stream(ms[done..], n, big)[..left]
      && done + Arrived(ms[done..], n, left) == Arrived(ms, n, b)
  }

  lemma ComingStarts(ms: seq<seq<nat>>, n: nat, big: bool, b: nat, input: seq<nat>)
    requires b <= |Stream(ms, n, big)| && input == Stream(ms, n, big)[..b]
    ensures Coming(ms, n, big, b, 0, b, input)
  {
    assert ms[0..] == ms;
  }

  lemma ComingFront(ms: seq<seq<nat>>, n: nat, big: bool, b: nat, done: nat, left: nat, s: seq<nat>)
    requires Coming(ms, n, big, b, done, left, s) && n > 0
    ensures done <= |ms| && (done == |ms| || left < n ==> |s| < n && done == Arrived(ms, n, b))
    ensures done < |ms| && left >= n ==> |s| == left && s[..n] == Wire(|ms[done]|, n, big)
    ensures done < |ms| && left >= n ==> (left < n + |ms[done]| <==> done == Arrived(ms, n, b))
    ensures done <= Arrived(ms, n, b)
    ensures done < |ms| && left >= n + |ms[done]| ==> s[n..n + |ms[done]|] == ms[done]
  {
    assert done <= |ms| by { assert Open(0); }
    ComingMeans(ms, n, big, b, done, left, s, ms[done..]);
    Front(ms[done..], n, big, left, s);
  }

  lemma ComingNext(ms: seq<seq<nat>>, n: nat, big: bool, b: nat, done: nat, left: nat, s: seq<nat>,
      more: nat, rest: nat, next: seq<nat>)
    requires Coming(ms, n, big, b, done, left, s) && n > 0 && done < |ms| && left >= n + |ms[done]|
    requires left == |s| && more == done + 1 && rest == left - n - |ms[done]| && next == s[n + |ms[done]|..]
    ensures Coming(ms, n, big, b, more, rest, next)
  {
    ComingMeans(ms, n, big, b, done, left, s, ms[done..]);
    Front(ms[done..], n, big, left, s);
    assert ms[done..][1..] == ms[done + 1..];
    ComingMore(ms, n, big, b, done, rest, next, ms[done + 1..]);
  }

  lemma ComingMeans(ms: seq<seq<nat>>, n: nat, big: bool, b: nat, done: nat, left: nat, s: seq<nat>,
      more: seq<seq<nat>>)
    requires Coming(ms, n, big, b, done, left, s) && done <= |ms| && more == ms[done..]
    ensures left <= |Stream(more, n, big)| && s == Stream(more, n, big)[..left]
    ensures done + Arrived(more, n, left) == Arrived(ms, n, b)
  {
    assert Open(0);
  }

  lemma ComingMore(ms: seq<seq<nat>>, n: nat, big: bool, b: nat, done: nat, left: nat, s: seq<nat>,
      more: seq<seq<nat>>)
    requires done < |ms| && more == ms[done + 1..] && left <= |Stream(more, n, big)|
    requires s == Stream(more, n, big)[..left] && done + 1 + Arrived(more, n, left) == Arrived(ms, n, b)
    ensures Coming(ms, n, big, b, done + 1, left, s)
  {
  }

  /** The parts of what was sent for a message. */
  lemma Framing(m: seq<nat>, n: nat, big: bool, rest: seq<nat>)
    ensures var s := Framed(m, n, big) + rest;
      |s| == n + |m| + |rest| && s[..n] == Wire(|m|, n, big) && s[n..n + |m|] == m && s[n + |m|..] == rest
  {
  }

  lemma Front(ms: seq<seq<nat>>, n: nat, big: bool, b: nat, s: seq<nat>)
    requires n > 0 && b <= |Stream(ms, n, big)| && s == Stream(ms, n, big)[..b]
    ensures ms == [] || b < n ==> |s| < n
    ensures ms != [] && b >= n ==> |s| == b && s[..n] == Wire(|ms[0]|, n, big)
    ensures Arrived(ms, n, b) > 0 ==> |s| == b >= n + |ms[0]| && s[n..n + |ms[0]|] == ms[0]
    ensures Arrived(ms, n, b) > 0 ==>
      b - n - |ms[0]| <= |Stream(ms[1..], n, big)| && s[n + |ms[0]|..] == Stream(ms[1..], n, big)[..b - n - |ms[0]|]
  {
    if ms != [] {
      Framing(ms[0], n, big, Stream(ms[1..], n, big));
    }
  }

  /** A series of messages is sent, perhaps not to its end, and the first `n` bytes of what was sent
      arrive: the messages that arrived as a whole are received or skipped as the receiver wishes. */
  method Exchange(ms: seq<seq<nat>>, hdrlen: nat, big: bool, fails: nat, taken: nat, n: nat, keep: seq<bool>, room: nat)
    returns (rs: seq<Receipt>, sent: seq<nat>)
    requires hdrlen > 0 && (fails < |ms| ==> taken <= hdrlen + |ms[fails]|)
    requires forall i :: 0 <= i < |ms| ==> Sized(ms[i], hdrlen) && |ms[i]| <= room
    ensures sent <= Stream(ms, hdrlen, big) && (fails >= |ms| ==> sent == Stream(ms, hdrlen, big))
    ensures rs == Receipts(ms[..Arrived(ms, hdrlen, if n < |sent| then n else |sent|)], keep)
    ensures fails >= |ms| && n >= |sent| ==> rs == Receipts(ms, keep)
  {
    var a := new Socket(hdrlen, big, []);
    a.SendAll(ms, fails, taken);
    sent := a.sent;
    var arrived := if n < |a.sent| then a.sent[..n] else a.sent;
    var b := new Socket(hdrlen, big, arrived);
    assert arrived == Stream(ms, hdrlen, big)[..|arrived|];
    rs := b.ReceiveAll(ms, |arrived|, keep, room);
    ArrivedAll(ms, hdrlen, big);
    assert ms[..|ms|] == ms;
  }
}
