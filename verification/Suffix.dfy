/** Messages that end with a suffix, over a byte stream. */
module Suffix {
  import opened Marks

  /** The suffix stands at place `i` of the stream. */
  ghost predicate At(s: seq<nat>, suf: seq<nat>, i: nat) {
    i + |suf| <= |s| && s[i..i + |suf|] == suf
  }

  ghost predicate Absent(s: seq<nat>, suf: seq<nat>) {
    forall j: nat :: !At(s, suf, j)
  }

  ghost predicate NotBefore(s: seq<nat>, suf: seq<nat>, n: nat) {
    forall j: nat :: j < n ==> !At(s, suf, j)
  }

  /** Its first occurrence. */
  ghost predicate FirstAt(s: seq<nat>, suf: seq<nat>, i: nat) {
    At(s, suf, i) && NotBefore(s, suf, i)
  }

  /** The first occurrence of the suffix in a message with its terminator is the terminator. */
  ghost predicate Clean(m: seq<nat>, suf: seq<nat>) {
    FirstAt(m + suf, suf, |m|)
  }

  ghost predicate AllClean(ms: seq<seq<nat>>, suf: seq<nat>) {
    forall i :: 0 <= i < |ms| ==> Clean(ms[i], suf)
  }

  /** The first `n` bytes of the stream, as far as there is room. */
  ghost predicate Delivered(s: seq<nat>, out: seq<nat>, n: nat) {
    n <= |s| && forall k :: 0 <= k < n && k < |out| ==> out[k] == s[k]
  }

  /** What is sent for a series of messages. */
  function Stream(ms: seq<seq<nat>>, suf: seq<nat>): seq<nat> {
    if ms == [] then [] else ms[0] + suf + Stream(ms[1..], suf)
  }

  lemma AtFront(s: seq<nat>, t: seq<nat>, suf: seq<nat>, i: nat)
    requires i + |suf| <= |s|
    ensures At(s + t, suf, i) <==> At(s, suf, i)
  {
    assert (s + t)[i..i + |suf|] == s[i..i + |suf|];
  }

  /** What follows a message does not matter. */
  lemma CleanExact(m: seq<nat>, suf: seq<nat>, rest: seq<nat>)
    ensures FirstAt(m + suf + rest, suf, |m|) <==> Clean(m, suf)
  {
    forall j: nat | j <= |m| ensures At(m + suf + rest, suf, j) <==> At(m + suf, suf, j) {
      AtFront(m + suf, rest, suf, j);
    }
  }

  lemma {:induction false} StreamPart(ms: seq<seq<nat>>, n: nat, cut: seq<nat>, suf: seq<nat>)
    requires n < |ms| && cut <= ms[n] + suf
    ensures Stream(ms[..n], suf) + cut <= Stream(ms, suf)
  {
    if n > 0 {
      StreamPart(ms[1..], n - 1, cut, suf);
      assert ms[..n][1..] == ms[1..][..n - 1];
      var all, part := Stream(ms[1..], suf), Stream(ms[1..][..n - 1], suf) + cut;
      assert Stream(ms[..n], suf) + cut == ms[0] + suf + part;
      assert part == all[..|part|];
      assert (ms[0] + suf + all)[..|ms[0] + suf + part|] == ms[0] + suf + part;
    }
  }

  lemma FirstUnique(s: seq<nat>, suf: seq<nat>, i: nat, j: nat)
    requires FirstAt(s, suf, i) && FirstAt(s, suf, j)
    ensures i == j
  {
  }

  lemma {:induction false} StreamMore(ms: seq<seq<nat>>, m: seq<nat>, suf: seq<nat>)
    ensures Stream(ms + [m], suf) == Stream(ms, suf) + m + suf
  {
    if ms == [] {
      assert Stream([m], suf) == m + suf + Stream([], suf) == m + suf;
      assert ms + [m] == [m];
    } else {
      assert (ms + [m])[1..] == ms[1..] + [m];
      StreamMore(ms[1..], m, suf);
      assert ms[0] + suf + (Stream(ms[1..], suf) + m + suf) == (ms[0] + suf + Stream(ms[1..], suf)) + m + suf;
    }
  }

  // ------------------------------------------------------------------ what a receiver makes of a stream

  lemma {:induction false} SomeFirst(s: seq<nat>, suf: seq<nat>, j: nat)
    requires At(s, suf, j)
    ensures exists i: nat :: FirstAt(s, suf, i)
  {
    if NotBefore(s, suf, j) {
      assert FirstAt(s, suf, j);
    } else {
      var k: nat :| k < j && At(s, suf, k);
      SomeFirst(s, suf, k);
    }
  }

  /** The first occurrence. */
  ghost function First(s: seq<nat>, suf: seq<nat>): (r: nat)
    requires !Absent(s, suf)
    ensures FirstAt(s, suf, r)
  {
    var j: nat :| At(s, suf, j);
    SomeFirst(s, suf, j);
    var i: nat :| FirstAt(s, suf, i);
    i
  }

  /** The pieces of a stream that end with the suffix, without it. */
  ghost function Split(s: seq<nat>, suf: seq<nat>): seq<seq<nat>>
    requires |suf| > 0
    decreases |s|
  {
    if Absent(s, suf) then []
    else
      var i := First(s, suf);
      [s[..i]] + Split(s[i + |suf|..], suf)
  }

  lemma {:induction false} SplitIs(s: seq<nat>, suf: seq<nat>, i: nat)
    requires |suf| > 0 && FirstAt(s, suf, i)
    ensures Split(s, suf) == [s[..i]] + Split(s[i + |suf|..], suf)
  {
    assert At(s, suf, i);
    FirstUnique(s, suf, i, First(s, suf));
  }

  /** What a buffer of `size` bytes shows of a message. */
  function Front(m: seq<nat>, size: nat): seq<nat> {
    if |m| <= size then m else m[..size]
  }

  function Fronts(ms: seq<seq<nat>>, size: nat): (r: seq<seq<nat>>)
    ensures |r| == |ms| && forall i :: 0 <= i < |ms| ==> r[i] == Front(ms[i], size)
  {
    if ms == [] then [] else [Front(ms[0], size)] + Fronts(ms[1..], size)
  }

  lemma FrontsMore(ms: seq<seq<nat>>, m: seq<nat>, size: nat)
    ensures Fronts(ms + [m], size) == Fronts(ms, size) + [Front(m, size)]
  {
  }

  /** Messages that there is room for come back if and only if all of them are clean and nothing
      received behind them ends with the suffix. */
  lemma {:induction false} SplitExact(ms: seq<seq<nat>>, cut: seq<nat>, suf: seq<nat>, size: nat)
    requires |suf| > 0 && forall i :: 0 <= i < |ms| ==> |ms[i]| <= size
    ensures Fronts(Split(Stream(ms, suf) + cut, suf), size) == ms <==> AllClean(ms, suf) && Absent(cut, suf)
  {
    var s := Stream(ms, suf) + cut;
    if ms == [] {
      assert s == cut;
      assert Absent(cut, suf) <==> |Split(cut, suf)| == 0;
    } else {
      var m, more := ms[0], Stream(ms[1..], suf) + cut;
      assert s == m + suf + more;
      CleanExact(m, suf, more);
      assert At(s, suf, |m|);
      var i := First(s, suf);
      SplitIs(s, suf, i);
      var pieces := Fronts(Split(s, suf), size);
      if i == |m| {
        SplitExact(ms[1..], cut, suf, size);
        assert s[..i] == m && s[i + |suf|..] == more;
        assert pieces == [m] + Fronts(Split(more, suf), size);
        CleanFirst(ms, suf);
        assert ms == [m] + ms[1..];
      } else {
        assert !Clean(m, suf);
        assert |pieces[0]| < |m|;
      }
    }
  }

  lemma CleanFirst(ms: seq<seq<nat>>, suf: seq<nat>)
    requires ms != []
    ensures AllClean(ms, suf) <==> Clean(ms[0], suf) && AllClean(ms[1..], suf)
  {
    assert forall i :: 1 <= i < |ms| ==> ms[i] == ms[1..][i - 1];
  }

  /** A part of a clean message and its suffix. */
  lemma PartAbsent(m: seq<nat>, suf: seq<nat>, n: nat)
    requires Clean(m, suf) && n < |m + suf|
    ensures Absent((m + suf)[..n], suf)
  {
    var s := m + suf;
    assert s[..n] + s[n..] == s;
    forall j: nat | j + |suf| <= n ensures !At(s[..n], suf, j) {
      AtFront(s[..n], s[n..], suf, j);
    }
  }

  /** How many messages lie within the first `n` bytes of their stream. */
  function Arrived(ms: seq<seq<nat>>, suf: seq<nat>, n: nat): (k: nat)
    ensures k <= |ms|
  {
    if ms == [] || n < |ms[0]| + |suf| then 0 else 1 + Arrived(ms[1..], suf, n - |ms[0]| - |suf|)
  }

  /** A stream that breaks off somewhere. */
  lemma {:induction false} BreaksOff(ms: seq<seq<nat>>, suf: seq<nat>, n: nat) returns (cut: seq<nat>)
    requires n <= |Stream(ms, suf)| && AllClean(ms, suf) && |suf| > 0
    ensures Stream(ms, suf)[..n] == Stream(ms[..Arrived(ms, suf, n)], suf) + cut && Absent(cut, suf)
  {
    var s := Stream(ms, suf);
    if ms == [] {
      cut := [];
    } else if n < |ms[0]| + |suf| {
      cut := (ms[0] + suf)[..n];
      assert s[..n] == cut;
      PartAbsent(ms[0], suf, n);
    } else {
      var l, more := |ms[0]| + |suf|, Stream(ms[1..], suf);
      CleanFirst(ms, suf);
      cut := BreaksOff(ms[1..], suf, n - l);
      var k := Arrived(ms[1..], suf, n - l);
      assert ms[..k + 1][1..] == ms[1..][..k];
      assert s[..n] == (ms[0] + suf) + more[..n - l];
      assert Stream(ms[..k + 1], suf) == ms[0] + suf + Stream(ms[1..][..k], suf);
    }
  }

  lemma StreamOne(m: seq<nat>, suf: seq<nat>)
    ensures Stream([m], suf) == m + suf
  {
    assert Stream([m], suf) == m + suf + Stream([], suf);
  }

  lemma AtMiddle(a: seq<nat>, suf: seq<nat>, b: seq<nat>)
    ensures At(a + suf + b, suf, |a|)
  {
  }

  /** A message with the suffix inside is not clean, and its stream cannot be told from that of two. */
  lemma {:induction false} TwoMessages(a: seq<nat>, b: seq<nat>, suf: seq<nat>)
    ensures Stream([a + suf + b], suf) == Stream([a, b], suf)
    ensures |suf| > 0 ==> !Clean(a + suf + b, suf)
  {
    StreamOne(a + suf + b, suf);
    StreamMore([a], b, suf);
    StreamOne(a, suf);
    assert [a] + [b] == [a, b];
    AtMiddle(a, suf, b);
    AtFront(a + suf + b, suf, suf, |a|);
    Unclean(a + suf + b, suf, |a|);
  }

  lemma Unclean(m: seq<nat>, suf: seq<nat>, i: nat)
    requires At(m + suf, suf, i)
    ensures i < |m| ==> !Clean(m, suf)
  {
  }

  /** A message without the suffix inside that is not clean either: its last byte and the first byte of
      the suffix make up an earlier occurrence. */
  lemma Overlapping()
    ensures Absent([1], [1, 1]) && !Clean([1], [1, 1])
  {
    assert At([1] + [1, 1], [1, 1], 0) by { assert ([1] + [1, 1])[0..2] == [1, 1]; }
  }

  /** `cut` is a part of `s`, but not the whole of it. */
  ghost predicate Part(cut: seq<nat>, s: seq<nat>) {
    cut < s
  }

  // ------------------------------------------------------------------ the socket

  class Socket {
    const suffix: seq<nat>
    /** The window of the stream that is compared with the suffix. */
    const buf: array<nat>
    var inerr: bool
    var outerr: bool
    /** The bytes still to come and the bytes sent through the underlying socket. */
    var input: seq<nat>
    var sent: seq<nat>
    /** The messages that were sent, and what was sent of one that could not be. */
    ghost var messages: seq<seq<nat>>
    ghost var cut: seq<nat>

    /** The bytes sent are those of the messages; only once sending has failed is there more. */
    ghost predicate Sound()
      reads this`sent, this`outerr, this`messages, this`cut
    {
      sent == Stream(messages, suffix) + cut && (!outerr ==> cut == [])
    }

    ghost predicate Valid() {
      |suffix| > 0 && buf.Length == |suffix|
    }

    constructor (suffix: seq<nat>, input: seq<nat>)
      requires 0 < |suffix| <= 32
      ensures Valid() && fresh(buf) && this.suffix == suffix && this.input == input && sent == [] && !inerr && !outerr
      ensures Sound() && messages == []
    {
      this.suffix, this.input, sent, inerr, outerr := suffix, input, [], false, false;
      buf := new nat[|suffix|](_ => 0);
      messages, cut := [], [];
    }

    /** `dill_suffix_msendl`; `down` says whether the underlying socket fails, and `taken` how many bytes it
        takes before that. A message is sent as a whole, or in part and nothing after it. */
    method MSend(m: seq<nat>, down: bool, taken: nat) returns (ok: bool)
      requires Sound() && (down ==> taken < |m + suffix|)
      modifies this`sent, this`outerr, this`messages, this`cut
      ensures Sound() && ok == (!old(outerr) && !down) && outerr == !ok && old(sent) <= sent
      ensures messages == if ok then old(messages) + [m] else old(messages)
      ensures !ok ==> if old(outerr) then cut == old(cut) else Part(cut, m + suffix)
    {
      if outerr { return false; }
      if down {
        outerr := true;
        sent := sent + (m + suffix)[..taken];
        cut := (m + suffix)[..taken];
        return false;
      }
      StreamMore(messages, m, suffix);
      sent := sent + m + suffix;
      messages := messages + [m];
      ok := true;
    }

    /** A series of messages, of which the one with index `fails` cannot be sent. */
    method SendAll(ms: seq<seq<nat>>, fails: nat, taken: nat)
      requires Sound() && !outerr && messages == [] && (fails < |ms| ==> taken < |ms[fails] + suffix|)
      modifies this`sent, this`outerr, this`messages, this`cut
      ensures Sound() && messages == ms[..if fails < |ms| then fails else |ms|]
      ensures sent <= Stream(ms, suffix) && (fails >= |ms| ==> sent == Stream(ms, suffix))
    {
      var n := 0;
      while n < |ms|
        invariant n <= |ms| && n <= fails && Sound() && !outerr && messages == ms[..n]
      {
        var ok := MSend(ms[n], n == fails, taken);
        if !ok {
          StreamPart(ms, n, cut, suffix);
          return;
        }
        n := n + 1;
      }
      assert ms[..n] == ms;
    }

    /** Reads into the window, from place `at` on. */
    method Fill(at: nat) returns (ok: bool)
      requires Valid() && at <= buf.Length
      modifies this`input, buf
      ensures ok == (|old(input)| >= buf.Length - at)
      ensures ok ==> buf[..] == old(buf[..at]) + old(input)[..buf.Length - at] && input == old(input)[buf.Length - at..]
    {
      ok := |input| >= buf.Length - at;
      if ok {
        for i := at to buf.Length
          invariant input == old(input) && buf[..at] == old(buf[..at]) &&
            forall j :: at <= j < i ==> buf[j] == input[j - at]
        {
          buf[i] := input[i - at];
        }
        assert buf[..] == old(buf[..at]) + input[..buf.Length - at];
        input := input[buf.Length - at..];
      } else {
        input := [];
      }
    }

    /** The window moves on by one byte. */
    method Shift()
      requires Valid()
      modifies buf
      ensures buf[..buf.Length - 1] == old(buf[1..])
    {
      for i := 0 to buf.Length - 1
        invariant forall j :: 0 <= j < buf.Length ==> buf[j] == if j < i then old(buf[j + 1]) else old(buf[j])
      {
        buf[i] := buf[i + 1];
      }
    }

    /** `dill_suffix_mrecvl` with a single buffer: bytes that it has no room for are dropped, unless it
        has no room at all. */
    method MRecv(out: array<nat>) returns (r: int)
      requires Valid() && out != buf
      modifies this`input, this`inerr, buf, out
      ensures old(inerr) ==> r == -1 && inerr && input == old(input)
      ensures !old(inerr) ==> inerr == (r == -1) && -1 <= r
      ensures !old(inerr) && r >= 0 ==> FirstAt(old(input), suffix, r) && input == old(input)[r + |suffix|..]
      ensures !old(inerr) && r >= 0 ==> Delivered(old(input), out[..], r)
      ensures !old(inerr) ==> (r == -1 <==>
        (out.Length == 0 && !At(old(input), suffix, 0)) || forall i: nat :: !At(old(input), suffix, i))
    {
      if inerr { return -1; }
      ghost var s := input;
      var ok := Fill(0);
      if !ok {
        inerr := true;
        return -1;
      }
      var sz := 0;
      while true
        invariant 0 <= sz && Scanning(s, sz, buf[..], input) && !inerr && (sz > 0 ==> out.Length > 0)
        invariant Delivered(s, out[..], sz)
        decreases |input|
      {
        ScanAt(s, sz, buf[..], input);
        if buf[..] == suffix { break; }
        if out.Length == 0 {
          inerr := true;
          return -1;
        }
        if sz < out.Length { out[sz] := buf[0]; }
        ok := Step(s, sz);
        if !ok {
          inerr := true;
          return -1;
        }
        sz := sz + 1;
      }
      r := sz;
    }

    /** One byte more. */
    method Step(ghost s: seq<nat>, ghost p: nat) returns (ok: bool)
      requires Valid() && Scanning(s, p, buf[..], input) && buf[..] != suffix
      modifies this`input, buf
      ensures ok ==> Scanning(s, p + 1, buf[..], input) && |input| < |old(input)|
      ensures !ok ==> forall i: nat :: !At(s, suffix, i)
    {
      ScanAt(s, p, buf[..], input);
      Shift();
      ok := Fill(buf.Length - 1);
      assert forall i: nat :: i <= p ==> !At(s, suffix, i);
    }

    /** The window shows the stream from place `p` on, and the suffix is not before it. */
    ghost predicate Scanning(s: seq<nat>, p: nat, window: seq<nat>, left: seq<nat>) {
      forall x {:trigger Open(x)} :: Open(x) ==>
        && |window| == |suffix| && p + |suffix| <= |s| && window == s[p..p + |suffix|] && left == s[p + |suffix|..]
        && NotBefore(s, suffix, p)
    }

    lemma ScanAt(s: seq<nat>, p: nat, window: seq<nat>, left: seq<nat>)
      requires Valid() && Scanning(s, p, window, left)
      ensures |window| == |suffix| && p + |suffix| <= |s| && window == s[p..p + |suffix|] && left == s[p + |suffix|..]
      ensures NotBefore(s, suffix, p) && (window == suffix <==> At(s, suffix, p)) && window[0] == s[p]
    {
      assert Open(0);
    }

    /** A message comes back as it was sent if and only if it is clean. */
    method ReceiveOne(ghost m: seq<nat>, ghost rest: seq<nat>, size: nat) returns (r: int, got: seq<nat>)
      requires Valid() && !inerr && input == m + suffix + rest && |m| <= size && size > 0
      modifies this`input, this`inerr, buf
      ensures r == |m| && got == m <==> Clean(m, suffix)
      ensures 0 <= r <= |m| && got == m[..r] && input == (m + suffix + rest)[r + |suffix|..] && !inerr
    {
      ghost var s := input;
      CleanExact(m, suffix, rest);
      assert At(s, suffix, |m|);
      var out := new nat[size](_ => 0);
      r := MRecv(out);
      assert r <= |m|;
      got := out[..r];
      assert got == m[..r];
    }

    /** All messages until there are no more: the pieces of the stream, each as far as there is room. */
    method ReceiveAll(size: nat) returns (rs: seq<seq<nat>>)
      requires Valid() && !inerr && size > 0
      modifies this`input, this`inerr, buf
      ensures rs == Fronts(Split(old(input), suffix), size) && inerr
    {
      rs := [];
      ghost var pieces := Split(input, suffix);
      while true
        invariant !inerr && |rs| <= |pieces| && rs == Fronts(pieces[..|rs|], size)
        invariant Split(input, suffix) == pieces[|rs|..]
        decreases |input|
      {
        var r, piece := ReceiveNext(size);
        if r < 0 {
          assert pieces[..|rs|] == pieces;
          return;
        }
        FrontsMore(pieces[..|rs|], pieces[|rs|], size);
        assert pieces[..|rs| + 1] == pieces[..|rs|] + [pieces[|rs|]];
        rs := rs + [piece];
      }
    }

    method ReceiveNext(size: nat) returns (r: int, piece: seq<nat>)
      requires Valid() && !inerr && size > 0
      modifies this`input, this`inerr, buf
      ensures inerr == (r < 0) && (r < 0 <==> Split(old(input), suffix) == [])
      ensures r >= 0 ==> var pieces := Split(old(input), suffix);
        r == |pieces[0]| && piece == Front(pieces[0], size) && Split(input, suffix) == pieces[1..] &&
        |input| < |old(input)|
    {
      ghost var s := input;
      var out := new nat[size](_ => 0);
      r := MRecv(out);
      piece := [];
      if r < 0 { return; }
      SplitIs(s, suffix, r);
      piece := if r <= size then out[..r] else out[..];
      assert piece == Front(s[..r], size);
    }
  }

  /** A series of messages is sent, perhaps not to its end, and the first `n` bytes of what was sent
      arrive: if the messages are clean, those that arrived as a whole are received, and if everything
      arrives, the messages come back if and only if they are clean. */
  method Exchange(ms: seq<seq<nat>>, suffix: seq<nat>, fails: nat, taken: nat, n: nat, size: nat)
    returns (rs: seq<seq<nat>>, sent: seq<nat>)
    requires 0 < |suffix| <= 32 && (fails < |ms| ==> taken < |ms[fails] + suffix|)
    requires size > 0 && forall i :: 0 <= i < |ms| ==> |ms[i]| <= size
    ensures sent <= Stream(ms, suffix) && (fails >= |ms| ==> sent == Stream(ms, suffix))
    ensures AllClean(ms, suffix) ==> rs == ms[..Arrived(ms, suffix, if n < |sent| then n else |sent|)]
    ensures fails >= |ms| && n >= |sent| ==> (rs == ms <==> AllClean(ms, suffix))
  {
    var a := new Socket(suffix, []);
    a.SendAll(ms, fails, taken);
    sent := a.sent;
    var arrived := if n < |a.sent| then a.sent[..n] else a.sent;
    var b := new Socket(suffix, arrived);
    rs := b.ReceiveAll(size);
    if AllClean(ms, suffix) {
      assert arrived == Stream(ms, suffix)[..|arrived|];
      var cut := BreaksOff(ms, suffix, |arrived|);
      SplitExact(ms[..Arrived(ms, suffix, |arrived|)], cut, suffix, size);
    }
    if fails >= |ms| && n >= |sent| {
      assert arrived == Stream(ms, suffix) + [];
      SplitExact(ms, [], suffix, size);
    }
  }
}
