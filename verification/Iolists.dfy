/** Scatter/gather lists over a flat memory. */
module Iolists {
  /** An element of a list: a buffer in memory, or a NULL buffer, whose bytes are skipped. */
  datatype Iol = Buffer(base: nat, len: nat) | Hole(len: nat)

  datatype Iols = Nil | Cons(e: Iol, next: Iols)

  function Min(a: nat, b: nat): nat {
    if a < b then a else b
  }

  function Total(list: Iols): nat {
    if list.Nil? then 0 else list.e.len + Total(list.next)
  }

  function Length(list: Iols): nat {
    if list.Nil? then 0 else 1 + Length(list.next)
  }

  function Append(a: Iols, b: Iols): Iols {
    if a.Nil? then b else Cons(a.e, Append(a.next, b))
  }

  function Take(list: Iols, k: nat): Iols {
    if k == 0 || list.Nil? then Nil else Cons(list.e, Take(list.next, k - 1))
  }

  function Drop(list: Iols, k: nat): Iols {
    if k == 0 || list.Nil? then list else Drop(list.next, k - 1)
  }

  ghost predicate Within(e: Iol, size: nat) {
    e.Buffer? ==> e.base + e.len <= size
  }

  ghost predicate Fits(list: Iols, size: nat) {
    list.Cons? ==> Within(list.e, size) && Fits(list.next, size)
  }

  /** The list holds bytes: a NULL buffer in it has no length. */
  ghost predicate Buffers(list: Iols) {
    list.Cons? ==> (list.e.Buffer? || list.e.len == 0) && Buffers(list.next)
  }

  predicate IsSolid(e: Iol) {
    e.Buffer? && e.len > 0
  }

  /** The list holds buffers with room only. */
  predicate Solid(list: Iols) {
    list.Cons? ==> IsSolid(list.e) && Solid(list.next)
  }

  /** What is left of an element when its first `n` bytes are used up. */
  function Advance(e: Iol, n: nat): Iol
    requires n <= e.len
  {
    if e.Buffer? then Buffer(e.base + n, e.len - n) else Hole(e.len - n)
  }

  function Write(mem: seq<bv8>, at: nat, data: seq<bv8>): (r: seq<bv8>)
    ensures |r| == |mem|
  {
    if at + |data| <= |mem| then mem[..at] + data + mem[at + |data|..] else mem
  }

  function Put(mem: seq<bv8>, e: Iol, data: seq<bv8>): (r: seq<bv8>)
    ensures |r| == |mem|
  {
    if e.Buffer? then Write(mem, e.base, data) else mem
  }

  /** The memory after `data` has been spread over the list. */
  function Scatter(mem: seq<bv8>, list: Iols, data: seq<bv8>): (r: seq<bv8>)
    ensures |r| == |mem|
    decreases list
  {
    if list.Nil? || data == [] then mem
    else if |data| <= list.e.len then Put(mem, list.e, data)
    else Scatter(Put(mem, list.e, data[..list.e.len]), list.next, data[list.e.len..])
  }

  /** The bytes of one element. */
  function Piece(mem: seq<bv8>, e: Iol): (r: seq<bv8>)
    requires Within(e, |mem|) && (e.Buffer? || e.len == 0)
    ensures |r| == e.len
  {
    if e.Buffer? then mem[e.base..e.base + e.len] else []
  }

  /** The bytes the list holds, in order. */
  function Gather(mem: seq<bv8>, list: Iols): (r: seq<bv8>)
    requires Fits(list, |mem|) && Buffers(list)
    ensures |r| == Total(list)
  {
    if list.Nil? then [] else Piece(mem, list.e) + Gather(mem, list.next)
  }

  /** The list without its first `n` bytes. */
  function Shift(list: Iols, n: nat): Iols
    requires n <= Total(list)
  {
    if n == 0 then list
    else if n < list.e.len then Cons(Advance(list.e, n), list.next)
    else Shift(list.next, n - list.e.len)
  }

  /** The same, empty elements in front being left out as well. */
  function Cut(list: Iols, n: nat): Iols {
    if list.Nil? then Nil
    else if n < list.e.len then Cons(Advance(list.e, n), list.next)
    else Cut(list.next, n - list.e.len)
  }

  lemma {:induction false} TotalAppend(a: Iols, b: Iols)
    ensures Total(Append(a, b)) == Total(a) + Total(b)
  {
    if a.Cons? { TotalAppend(a.next, b); }
  }

  lemma {:induction false} AppendNil(a: Iols)
    ensures Append(a, Nil) == a
  {
    if a.Cons? { AppendNil(a.next); }
  }

  lemma {:induction false} AppendAppend(a: Iols, b: Iols, c: Iols)
    ensures Append(a, Append(b, c)) == Append(Append(a, b), c)
  {
    if a.Cons? { AppendAppend(a.next, b, c); }
  }

  lemma {:induction false} TakeDrop(list: Iols, k: nat)
    ensures Append(Take(list, k), Drop(list, k)) == list
    ensures Total(list) == Total(Take(list, k)) + Total(Drop(list, k))
  {
    if k > 0 && list.Cons? { TakeDrop(list.next, k - 1); }
  }

  lemma {:induction false} TakeFits(list: Iols, k: nat, size: nat)
    requires Fits(list, size)
    ensures Fits(Take(list, k), size) && Fits(Drop(list, k), size)
  {
    if k > 0 && list.Cons? { TakeFits(list.next, k - 1, size); }
  }

  /** Writing in two pieces. */
  lemma WriteTwice(mem: seq<bv8>, at: nat, d: seq<bv8>, e: seq<bv8>)
    requires at + |d| + |e| <= |mem|
    ensures Write(mem, at, d + e) == Write(Write(mem, at, d), at + |d|, e)
  {
    var x, y := Write(mem, at, d + e), Write(Write(mem, at, d), at + |d|, e);
    forall i | 0 <= i < |mem| ensures x[i] == y[i] {
    }
  }

  lemma PutTwice(mem: seq<bv8>, e: Iol, d: seq<bv8>, x: seq<bv8>)
    requires |d| + |x| <= e.len && Within(e, |mem|)
    ensures Put(mem, e, d + x) == Put(Put(mem, e, d), Advance(e, |d|), x)
  {
    if e.Buffer? { WriteTwice(mem, e.base, d, x); }
  }

  lemma PutNothing(mem: seq<bv8>, e: Iol)
    ensures Put(mem, e, []) == mem
  {
  }

  // ------------------------------------------------------------------ spreading in pieces

  /** The first element, when all of it is used. */
  lemma ScatterPast(mem: seq<bv8>, list: Iols, d: seq<bv8>, x: seq<bv8>)
    requires list.Cons? && |d| == list.e.len
    ensures Scatter(mem, list, d + x) == Scatter(Put(mem, list.e, d), list.next, x)
  {
    if x == [] {
      assert d + x == d;
      PutNothing(mem, list.e);
    } else {
      assert (d + x)[..list.e.len] == d && (d + x)[list.e.len..] == x;
    }
  }

  /** Taking `k` more bytes behind the first `n`. */
  lemma Slices(s: seq<bv8>, n: nat, k: nat)
    requires n + k <= |s|
    ensures s[..n] + s[n..][..k] == s[..n + k] && s[n..][k..] == s[n + k..]
  {
  }

  lemma SplitConcat(d: seq<bv8>, x: seq<bv8>, n: nat)
    requires |d| <= n <= |d| + |x|
    ensures (d + x)[..n] == d + x[..n - |d|] && (d + x)[n..] == x[n - |d|..]
  {
  }

  lemma ScatterMore(mem: seq<bv8>, list: Iols, d: seq<bv8>)
    requires list.Cons? && |d| > list.e.len
    ensures Scatter(mem, list, d) == Scatter(Put(mem, list.e, d[..list.e.len]), list.next, d[list.e.len..])
  {
  }

  lemma ScatterFew(mem: seq<bv8>, list: Iols, d: seq<bv8>)
    requires list.Cons? && |d| <= list.e.len
    ensures Scatter(mem, list, d) == Put(mem, list.e, d)
  {
    PutNothing(mem, list.e);
  }

  /** The first element, when part of it is used. */
  lemma ScatterInto(mem: seq<bv8>, list: Iols, d: seq<bv8>, x: seq<bv8>)
    requires list.Cons? && |d| <= list.e.len && Within(list.e, |mem|)
    ensures Scatter(mem, list, d + x) == Scatter(Put(mem, list.e, d), Cons(Advance(list.e, |d|), list.next), x)
  {
    var e, f := list.e, Advance(list.e, |d|);
    if |x| <= f.len {
      PutTwice(mem, e, d, x);
      ScatterFew(mem, list, d + x);
      ScatterFew(Put(mem, e, d), Cons(f, list.next), x);
    } else {
      ScatterIntoMore(mem, list, d, x, Put(mem, e, d), f);
    }
  }

  lemma ScatterIntoMore(mem: seq<bv8>, list: Iols, d: seq<bv8>, x: seq<bv8>, now: seq<bv8>, f: Iol)
    requires list.Cons? && |d| <= list.e.len && Within(list.e, |mem|)
    requires now == Put(mem, list.e, d) && f == Advance(list.e, |d|) && |x| > f.len
    ensures Scatter(mem, list, d + x) == Scatter(now, Cons(f, list.next), x)
  {
    var e := list.e;
    calc {
      Scatter(mem, list, d + x);
      { ScatterMore(mem, list, d + x); }
      Scatter(Put(mem, e, (d + x)[..e.len]), list.next, (d + x)[e.len..]);
      { SplitConcat(d, x, e.len); }
      Scatter(Put(mem, e, d + x[..f.len]), list.next, x[f.len..]);
      { PutTwice(mem, e, d, x[..f.len]); }
      Scatter(Put(now, f, x[..f.len]), list.next, x[f.len..]);
      { ScatterMore(now, Cons(f, list.next), x); }
      Scatter(now, Cons(f, list.next), x);
    }
  }

  /** What comes later ends up where it would have, had it come together with `d`. */
  lemma {:induction false} ScatterShift(mem: seq<bv8>, list: Iols, d: seq<bv8>, x: seq<bv8>)
    requires Fits(list, |mem|) && |d| <= Total(list)
    ensures Scatter(mem, list, d + x) == Scatter(Scatter(mem, list, d), Shift(list, |d|), x)
    decreases list
  {
    if d == [] {
      assert d + x == x;
    } else if |d| < list.e.len {
      ScatterInto(mem, list, d, x);
    } else {
      var e := list.e;
      var d0, d1 := d[..e.len], d[e.len..];
      assert d == d0 + d1 && d + x == d0 + (d1 + x);
      ScatterPast(mem, list, d0, d1 + x);
      ScatterPast(mem, list, d0, d1);
      ScatterShift(Put(mem, e, d0), list.next, d1, x);
    }
  }

  lemma {:induction false} ScatterCut(mem: seq<bv8>, list: Iols, d: seq<bv8>, x: seq<bv8>)
    requires Fits(list, |mem|) && |d| <= Total(list)
    ensures Scatter(mem, list, d + x) == Scatter(Scatter(mem, list, d), Cut(list, |d|), x)
    decreases list
  {
    if list.Nil? {
    } else if |d| < list.e.len {
      ScatterInto(mem, list, d, x);
      PutNothing(mem, list.e);
    } else {
      var e := list.e;
      var d0, d1 := d[..e.len], d[e.len..];
      assert d == d0 + d1 && d + x == d0 + (d1 + x);
      ScatterPast(mem, list, d0, d1 + x);
      ScatterPast(mem, list, d0, d1);
      ScatterCut(Put(mem, e, d0), list.next, d1, x);
    }
  }

  /** One list behind another. */
  lemma {:induction false} ScatterAppend(mem: seq<bv8>, a: Iols, b: Iols, d: seq<bv8>, x: seq<bv8>)
    requires |d| == Total(a)
    ensures Scatter(mem, Append(a, b), d + x) == Scatter(Scatter(mem, a, d), b, x)
    decreases a
  {
    if a.Nil? {
      assert d + x == x;
    } else {
      var e := a.e;
      var d0, d1 := d[..e.len], d[e.len..];
      assert d == d0 + d1 && d + x == d0 + (d1 + x);
      ScatterPast(mem, Append(a, b), d0, d1 + x);
      ScatterPast(mem, a, d0, d1);
      ScatterAppend(Put(mem, e, d0), a.next, b, d1, x);
    }
  }

  /** Only the front of the list matters while it has room. */
  lemma {:induction false} ScatterFront(mem: seq<bv8>, list: Iols, k: nat, d: seq<bv8>)
    requires |d| <= Total(Take(list, k))
    ensures Scatter(mem, Take(list, k), d) == Scatter(mem, list, d)
    decreases list
  {
    if k > 0 && list.Cons? && |d| > list.e.len {
      ScatterFront(Put(mem, list.e, d[..list.e.len]), list.next, k - 1, d[list.e.len..]);
    }
  }

  lemma {:induction false} ShiftKeeps(list: Iols, n: nat, size: nat)
    requires n <= Total(list) && Fits(list, size)
    ensures Fits(Shift(list, n), size) && Total(Shift(list, n)) == Total(list) - n
    ensures Solid(list) ==> Solid(Shift(list, n))
    ensures Buffers(list) ==> Buffers(Shift(list, n))
  {
    if n > 0 && n >= list.e.len { ShiftKeeps(list.next, n - list.e.len, size); }
  }

  lemma {:induction false} ShiftShift(list: Iols, n: nat, k: nat)
    requires n + k <= Total(list)
    ensures k <= Total(Shift(list, n)) && Shift(Shift(list, n), k) == Shift(list, n + k)
    decreases list
  {
    if n > 0 && n >= list.e.len { ShiftShift(list.next, n - list.e.len, k); }
  }

  lemma {:induction false} CutKeeps(list: Iols, n: nat, size: nat)
    requires n <= Total(list) && Fits(list, size)
    ensures Fits(Cut(list, n), size) && Total(Cut(list, n)) == Total(list) - n
    ensures Cut(list, n).Nil? <==> n == Total(list)
  {
    if list.Cons? && n >= list.e.len { CutKeeps(list.next, n - list.e.len, size); }
  }

  lemma {:induction false} CutCut(list: Iols, n: nat, k: nat)
    ensures Cut(Cut(list, n), k) == Cut(list, n + k)
    decreases list
  {
    if list.Cons? && n >= list.e.len { CutCut(list.next, n - list.e.len, k); }
  }

  lemma {:induction false} GatherShift(mem: seq<bv8>, list: Iols, n: nat)
    requires Fits(list, |mem|) && Buffers(list) && n <= Total(list)
    ensures Fits(Shift(list, n), |mem|) && Buffers(Shift(list, n))
    ensures Gather(mem, Shift(list, n)) == Gather(mem, list)[n..]
  {
    if n > 0 {
      var e := list.e;
      DropFront(Piece(mem, e), Gather(mem, list.next), n);
      if n < e.len {
        PieceShift(mem, e, n);
      } else {
        GatherShift(mem, list.next, n - e.len);
      }
    }
  }

  lemma DropFront(a: seq<bv8>, b: seq<bv8>, n: nat)
    requires n <= |a| + |b|
    ensures (a + b)[n..] == if n <= |a| then a[n..] + b else b[n - |a|..]
    ensures n == |a| ==> (a + b)[n..] == b
  {
  }

  lemma PieceShift(mem: seq<bv8>, e: Iol, n: nat)
    requires Within(e, |mem|) && n <= e.len && e.Buffer?
    ensures Within(Advance(e, n), |mem|) && Piece(mem, Advance(e, n)) == Piece(mem, e)[n..]
  {
  }

  // ------------------------------------------------------------------ what spreading means

  ghost predicate Apart(a: Iol, b: Iol) {
    a.Buffer? && b.Buffer? ==> a.base + a.len <= b.base || b.base + b.len <= a.base
  }

  ghost predicate ApartFromAll(a: Iol, list: Iols) {
    list.Cons? ==> Apart(a, list.e) && ApartFromAll(a, list.next)
  }

  ghost predicate Disjoint(list: Iols) {
    list.Cons? ==> ApartFromAll(list.e, list.next) && Disjoint(list.next)
  }

  ghost predicate Covered(list: Iols, a: nat) {
    list.Cons? && ((list.e.Buffer? && list.e.base <= a < list.e.base + list.e.len) || Covered(list.next, a))
  }

  /** Memory outside the list's buffers is not touched. */
  lemma {:induction false} ScatterOutside(mem: seq<bv8>, list: Iols, d: seq<bv8>, a: nat)
    requires a < |mem| && !Covered(list, a)
    ensures Scatter(mem, list, d)[a] == mem[a]
    decreases list
  {
    if list.Cons? && |d| > list.e.len {
      ScatterOutside(Put(mem, list.e, d[..list.e.len]), list.next, d[list.e.len..], a);
    }
  }

  lemma {:induction false} NotCovered(e: Iol, list: Iols, a: nat)
    requires e.Buffer? && e.base <= a < e.base + e.len && ApartFromAll(e, list)
    ensures !Covered(list, a)
  {
    if list.Cons? { NotCovered(e, list.next, a); }
  }

  /** A buffer apart from the others keeps what was put into it. */
  lemma Keeps(mem: seq<bv8>, e: Iol, x: seq<bv8>, tail: Iols, y: seq<bv8>)
    requires (e.Buffer? || e.len == 0) && Within(e, |mem|) && |x| == e.len && ApartFromAll(e, tail)
    ensures Piece(Scatter(Put(mem, e, x), tail, y), e) == x
  {
    if e.Buffer? {
      var now := Put(mem, e, x);
      var end := Scatter(now, tail, y);
      forall k | 0 <= k < e.len ensures end[e.base + k] == x[k] {
        NotCovered(e, tail, e.base + k);
        ScatterOutside(now, tail, y, e.base + k);
      }
    }
  }

  /** What was spread over separate buffers is found in them. */
  lemma {:induction false} GatherScatter(mem: seq<bv8>, list: Iols, d: seq<bv8>)
    requires Fits(list, |mem|) && Buffers(list) && Disjoint(list) && |d| == Total(list)
    ensures Gather(Scatter(mem, list, d), list) == d
    decreases list
  {
    if list.Cons? {
      var e := list.e;
      var x, y := d[..e.len], d[e.len..];
      assert d == x + y;
      ScatterPast(mem, list, x, y);
      GatherScatter(Put(mem, e, x), list.next, y);
      Keeps(mem, e, x, list.next, y);
    }
  }
}
