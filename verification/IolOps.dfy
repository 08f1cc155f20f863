/** Copying to and from scatter/gather lists, and cutting off their front. */
module IolOps {
  import opened Iolists

  /** `dill_iolto`: as much as there is room for is copied; it fails if that is not everything. */
  method IolTo(mem0: seq<bv8>, src: seq<bv8>, list: Iols) returns (ok: bool, mem: seq<bv8>)
    ensures ok <==> |src| <= Total(list)
    ensures mem == Scatter(mem0, list, src)
  {
    mem := mem0;
    var p, first := src, list;
    while true
      invariant Scatter(mem, first, p) == Scatter(mem0, list, src) && (|p| <= Total(first) <==> |src| <= Total(list))
      decreases first
    {
      if p == [] { return true, mem; }
      if first.Nil? { return false, mem; }
      if first.e.len >= |p| { break; }
      mem := Put(mem, first.e, p[..first.e.len]);
      p := p[first.e.len..];
      first := first.next;
    }
    mem := Put(mem, first.e, p);
    ok := true;
  }

  /** `dill_iolfrom`: copies everything to a buffer that is large enough. */
  method IolFrom(mem: seq<bv8>, dst: array<bv8>, list: Iols) returns (ok: bool)
    requires Fits(list, |mem|) && Buffers(list)
    modifies dst
    ensures ok <==> Total(list) <= dst.Length
    ensures ok ==> dst[..] == Gather(mem, list) + old(dst[..])[Total(list)..]
  {
    var at: nat, first := 0, list;
    while first.Cons?
      invariant at <= dst.Length && Fits(first, |mem|) && Buffers(first) && at + Total(first) == Total(list)
      invariant dst[..at] + Gather(mem, first) == Gather(mem, list) && dst[at..] == old(dst[..])[at..]
      decreases first
    {
      if dst.Length - at < first.e.len { return false; }
      CopyInto(dst, at, Piece(mem, first.e));
      MoreGathered(dst[..at], Piece(mem, first.e), Gather(mem, first.next));
      assert dst[..at + first.e.len] == dst[..at] + Piece(mem, first.e);
      at := at + first.e.len;
      first := first.next;
    }
    assert dst[..] == dst[..at] + dst[at..];
    ok := true;
  }

  lemma MoreGathered(a: seq<bv8>, b: seq<bv8>, c: seq<bv8>)
    ensures (a + b) + c == a + (b + c)
  {
  }

  method CopyInto(dst: array<bv8>, at: nat, d: seq<bv8>)
    requires at + |d| <= dst.Length
    modifies dst
    ensures dst[..] == Write(old(dst[..]), at, d)
    ensures dst[..at] == old(dst[..at]) && dst[at + |d|..] == old(dst[at + |d|..])
  {
    for i := 0 to |d|
      invariant forall j :: 0 <= j < dst.Length ==> dst[j] == if at <= j < at + i then d[j - at] else old(dst[j])
    {
      dst[at + i] := d[i];
    }
  }

  /** What is left of a list without its first `n` bytes: the element that holds the last of them stays,
      be it empty. */
  function Trimmed(list: Iols, n: nat): Iols {
    if list.Nil? then Nil
    else if list.e.len >= n then Cons(Advance(list.e, n), list.next)
    else Trimmed(list.next, n - list.e.len)
  }

  /** `dill_ioltrim`; with no bytes to cut off it needs a first element. */
  method IolTrim(list: Iols, n: nat) returns (ok: bool, result: Iols)
    requires n == 0 ==> list.Cons?
    ensures ok <==> n <= Total(list)
    ensures ok ==> result == Trimmed(list, n)
  {
    var k, first := n, list;
    while k > 0
      invariant k >= 0 && (k == 0 ==> first.Cons?) && (n <= Total(list) <==> k <= Total(first)) &&
        Trimmed(first, k) == Trimmed(list, n)
      decreases first
    {
      if first.Nil? { return false, Nil; }
      if first.e.len >= k { break; }
      k := k - first.e.len;
      first := first.next;
    }
    return true, Cons(Advance(first.e, k), first.next);
  }

  /** What is spread over a trimmed list ends up where it would have, behind the bytes cut off. */
  lemma {:induction false} TrimmedScatter(mem: seq<bv8>, list: Iols, d: seq<bv8>, x: seq<bv8>)
    requires Fits(list, |mem|) && |d| <= Total(list)
    ensures Total(Trimmed(list, |d|)) == Total(list) - |d|
    ensures Scatter(mem, list, d + x) == Scatter(Scatter(mem, list, d), Trimmed(list, |d|), x)
    decreases list
  {
    if list.Nil? {
    } else if |d| <= list.e.len {
      ScatterInto(mem, list, d, x);
      ScatterFew(mem, list, d);
    } else {
      var e := list.e;
      var d0, d1 := d[..e.len], d[e.len..];
      assert d == d0 + d1 && d + x == d0 + (d1 + x);
      ScatterPast(mem, list, d0, d1 + x);
      ScatterPast(mem, list, d0, d1);
      TrimmedScatter(Put(mem, e, d0), list.next, d1, x);
    }
  }
}
