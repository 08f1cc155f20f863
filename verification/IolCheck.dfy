/** Checking a scatter/gather list that the caller built out of linked elements. */
module IolCheck {
  class Element {
    var next: Element?
    /** The mark that the check sets and clears. */
    var rsvd: bool
    const len: nat

    constructor (len: nat)
      ensures this.len == len && next == null && !rsvd
    {
      this.len, next, rsvd := len, null, false;
    }
  }

  /** Elements linked one to the next, none of them twice. */
  ghost predicate Chain(p: seq<Element>, first: Element)
    reads p`next
  {
    && p != [] && p[0] == first
    && (forall i :: 0 <= i < |p| - 1 ==> p[i].next != null && p[i].next == p[i + 1])
    && (forall i, j :: 0 <= i < j < |p| ==> p[i] != p[j])
  }

  /** The elements of a well-formed list. */
  ghost predicate IsList(p: seq<Element>, first: Element?, last: Element?)
    reads p`next
  {
    first != null && Chain(p, first) && p[|p| - 1].next == null && p[|p| - 1] == last
  }

  function Sum(p: seq<Element>): nat {
    if p == [] then 0 else Sum(p[..|p| - 1]) + p[|p| - 1].len
  }

  lemma SumMore(p: seq<Element>, e: Element)
    ensures Sum(p + [e]) == Sum(p) + e.len
  {
    assert (p + [e])[..|p|] == p;
  }

  /** Two chains from the same element agree as far as they go. */
  lemma {:induction false} SameChain(p: seq<Element>, q: seq<Element>, first: Element, i: nat)
    requires Chain(p, first) && Chain(q, first) && i < |p| && q[|q| - 1].next == null
    ensures i < |q| && q[i] == p[i]
    decreases i
  {
    if i > 0 {
      SameChain(p, q, first, i - 1);
      assert p[i - 1].next == p[i];
    }
  }

  /** The element behind a chain belongs to the list, if there is one. */
  lemma Behind(p: seq<Element>, q: seq<Element>, first: Element, it: Element)
    requires Chain(p, first) && Chain(q, first) && p[|p| - 1].next == it && q[|q| - 1].next == null
    ensures |p| < |q| && q[|p|] == it
  {
    SameChain(p, q, first, |p| - 1);
  }

  lemma EndsHere(q: seq<Element>, first: Element, n: nat)
    requires Chain(q, first) && n < |q| && q[n].next == null
    ensures n == |q| - 1
  {
  }

  /** What makes the check give up. */
  lemma NoList(p: seq<Element>, first: Element, last: Element, it: Element)
    requires if p == [] then it == first else Chain(p, first) && p[|p| - 1].next == it
    requires it in p || (it.next == null && it != last)
    ensures forall q: seq<Element> :: !IsList(q, first, last)
  {
    forall q: seq<Element> | IsList(q, first, last) ensures false {
      if p != [] { Behind(p, q, first, it); }
      if it in p {
        var k :| 0 <= k < |p| && p[k] == it;
        SameChain(p, q, first, k);
      } else {
        EndsHere(q, first, |p|);
      }
    }
  }

  /** Only the elements of `p` are marked. */
  ghost predicate Marked(nodes: set<Element>, p: seq<Element>)
    reads nodes`rsvd
  {
    forall n :: n in nodes ==> (n.rsvd <==> n in p)
  }

  ghost predicate Closed(nodes: set<Element>, e: Element?)
    reads nodes`next
  {
    (e != null ==> e in nodes) && forall n :: n in nodes && n.next != null ==> n.next in nodes
  }

  /** The elements before `it`, marked and counted. */
  ghost predicate Visited(nodes: set<Element>, p: seq<Element>, first: Element, last: Element, it: Element?)
    reads nodes`next
  {
    && (forall e :: e in p ==> e in nodes) && (it != null ==> it in nodes)
    && (if p == [] then it == first else Chain(p, first) && p[|p| - 1].next == it)
    && (it == null ==> p != [] && p[|p| - 1] == last)
  }

  lemma VisitMore(nodes: set<Element>, p: seq<Element>, first: Element, last: Element, it: Element)
    requires Visited(nodes, p, first, last, it) && Closed(nodes, first) && it !in p && (it.next == null ==> it == last)
    ensures Visited(nodes, p + [it], first, last, it.next)
  {
    var q := p + [it];
    forall i | 0 <= i < |q| - 1 ensures q[i].next != null && q[i].next == q[i + 1] {
      if i < |p| - 1 { assert p[i].next == p[i + 1]; }
    }
  }

  /** `dill_iolcheck`: accepts exactly the empty list and the well-formed ones, whatever the elements
      are linked to, and leaves no mark on a list it accepts. */
  method Check(first: Element?, last: Element?, ghost nodes: set<Element>) returns (ok: bool, nbufs: nat, nbytes: nat)
    requires Closed(nodes, first) && Closed(nodes, last) && Marked(nodes, [])
    modifies nodes`rsvd
    ensures ok <==> (first == null && last == null) || exists p: seq<Element> :: IsList(p, first, last)
    ensures ok ==> Marked(nodes, [])
    ensures ok && first == null ==> nbufs == 0 && nbytes == 0
    ensures ok && first != null ==> exists p: seq<Element> :: IsList(p, first, last) && nbufs == |p| && nbytes == Sum(p)
  {
    nbufs, nbytes := 0, 0;
    if first == null && last == null { return true, 0, 0; }
    if first == null || last == null || last.next != null { return false, 0, 0; }
    ghost var p;
    ok, nbufs, nbytes, p := Mark(first, last, nodes);
    if ok {
      Clear(first, p, nodes);
      assert IsList(p, first, last);
    }
  }

  /** Marking and counting the elements up to the end, or to something that no list has. */
  method Mark(first: Element, last: Element, ghost nodes: set<Element>)
    returns (ok: bool, nbufs: nat, nbytes: nat, ghost p: seq<Element>)
    requires Closed(nodes, first) && Marked(nodes, [])
    modifies nodes`rsvd
    ensures ok ==>
      IsList(p, first, last) && Marked(nodes, p) && nbufs == |p| && nbytes == Sum(p) &&
      forall e :: e in p ==> e in nodes
    ensures !ok ==> forall q: seq<Element> :: !IsList(q, first, last)
  {
    nbufs, nbytes, p := 0, 0, [];
    ghost var todo := nodes;
    var it: Element? := first;
    while it != null
      invariant Visited(nodes, p, first, last, it) && Marked(nodes, p) && nbufs == |p| && nbytes == Sum(p)
      invariant forall e :: e in nodes ==> (e in todo <==> e !in p)
      decreases todo
    {
      if it.rsvd || (it.next == null && it != last) {
        Unmark(first, it, nodes, p);
        NoList(p, first, last, it);
        return false, 0, 0, p;
      }
      VisitMore(nodes, p, first, last, it);
      it.rsvd := true;
      nbufs, nbytes := nbufs + 1, nbytes + it.len;
      SumMore(p, it);
      p, todo := p + [it], todo - {it};
      it := it.next;
    }
    ok := true;
  }

  /** Clearing the marks of a whole list. */
  method Clear(first: Element, ghost p: seq<Element>, ghost nodes: set<Element>)
    requires Chain(p, first) && p[|p| - 1].next == null && Marked(nodes, p) && forall e :: e in p ==> e in nodes
    modifies nodes`rsvd
    ensures Marked(nodes, [])
  {
    var it: Element? := first;
    ghost var i := 0;
    while it != null
      invariant i <= |p| && it == (if i < |p| then p[i] else null) && Marked(nodes, p[i..])
      decreases |p| - i
    {
      it.rsvd := false;
      it := it.next;
      i := i + 1;
    }
  }

  /** The clean-up after a refusal: it visits the elements in front but clears only the mark of `it`. */
  method Unmark(first: Element, it: Element, ghost nodes: set<Element>, ghost p: seq<Element>)
    requires it in nodes && if p == [] then it == first else Chain(p, first) && p[|p| - 1].next == it
    modifies nodes`rsvd
    ensures forall e :: e in nodes && e != it ==> e.rsvd == old(e.rsvd)
  {
    var it2 := first;
    ghost var i := 0;
    ghost var path := p + [it];
    while it2 != it
      invariant i < |path| && it2 == path[i]
      invariant forall e :: e in nodes && e != it ==> e.rsvd == old(e.rsvd)
      decreases |path| - i
    {
      it.rsvd := false;
      assert path[i].next == path[i + 1];
      it2 := it2.next;
      i := i + 1;
    }
  }
}
