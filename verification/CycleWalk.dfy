/** Cycle walking: restricting a permutation of [0, m) to the values below `len` by skipping the
    others. The permutation is given by the images of a counter over any m consecutive steps. */
module CycleWalk {
  import opened Splices

  ghost predicate Distinct(s: seq<nat>) {
    forall i, j :: 0 <= i < j < |s| ==> s[i] != s[j]
  }

  /** Over the `m` counters from `c` on, `g` takes every value below `m` once. */
  ghost predicate Bijective(g: nat -> nat, c: nat, m: nat) {
    && (forall i: nat, j: nat :: c <= i < j < c + m ==> g(i) != g(j))
    && (forall v: nat :: v < m ==> Taken(g, c, m, v))
  }

  ghost predicate Taken(g: nat -> nat, c: nat, n: nat, v: nat) {
    exists i: nat :: c <= i < c + n && g(i) == v
  }

  /** The wanted images of the `n` counters from `c` on, in order. */
  ghost function Hits(g: nat -> nat, len: nat, c: nat, n: nat): seq<nat> {
    if n == 0 then [] else Hits(g, len, c, n - 1) + if g(c + n - 1) < len then [g(c + n - 1)] else []
  }

  lemma {:induction false} HitsIn(g: nat -> nat, len: nat, c: nat, n: nat, v: nat)
    ensures v in Hits(g, len, c, n) <==> v < len && Taken(g, c, n, v)
  {
    if n > 0 {
      HitsIn(g, len, c, n - 1, v);
      if Taken(g, c, n, v) {
        var i: nat :| c <= i < c + n && g(i) == v;
        assert i == c + n - 1 || Taken(g, c, n - 1, v);
      }
      if Taken(g, c, n - 1, v) {
        var i: nat :| c <= i < c + (n - 1) && g(i) == v;
        assert c <= i < c + n;
      }
    }
  }

  lemma {:induction false} HitsDistinct(g: nat -> nat, len: nat, c: nat, n: nat)
    requires forall i: nat, j: nat :: c <= i < j < c + n ==> g(i) != g(j)
    ensures Distinct(Hits(g, len, c, n))
  {
    if n > 0 {
      HitsDistinct(g, len, c, n - 1);
      HitsIn(g, len, c, n - 1, g(c + n - 1));
    }
  }

  lemma {:induction false} HitsPrefix(g: nat -> nat, len: nat, c: nat, a: nat, b: nat)
    requires a <= b
    ensures Hits(g, len, c, a) <= Hits(g, len, c, b)
    decreases b
  {
    if a < b { HitsPrefix(g, len, c, a, b - 1); }
  }

  /** Nothing is added while nothing is wanted. */
  lemma {:induction false} HitsSkip(g: nat -> nat, len: nat, c: nat, a: nat, b: nat)
    requires a <= b && forall j: nat :: c + a <= j < c + b ==> g(j) >= len
    ensures Hits(g, len, c, b) == Hits(g, len, c, a)
    decreases b
  {
    if a < b { HitsSkip(g, len, c, a, b - 1); }
  }

  lemma {:induction false} DistinctSize(s: seq<nat>)
    requires Distinct(s)
    ensures |Elems(s)| == |s|
  {
    if s != [] {
      var t := s[1..];
      assert forall i :: 0 <= i < |t| ==> t[i] == s[i + 1];
      DistinctSize(t);
      ElemsAre(t);
      assert s[0] !in t;
    }
  }

  ghost function Range(n: nat): set<nat> {
    if n == 0 then {} else Range(n - 1) + {n - 1}
  }

  lemma {:induction false} RangeIs(n: nat)
    ensures |Range(n)| == n && forall v: nat :: v in Range(n) <==> v < n
  {
    if n > 0 { RangeIs(n - 1); }
  }

  lemma DistinctBelow(v: seq<nat>, n: nat)
    requires Distinct(v) && forall i :: 0 <= i < |v| ==> v[i] < n
    ensures |v| <= n
  {
    DistinctSize(v);
    RangeIs(n);
    ElemsAre(v);
    forall x | x in Elems(v) ensures x in Range(n) {
      assert x in v;
    }
    SubsetSize(Elems(v), Range(n));
  }

  lemma AllTaken(v: seq<nat>, n: nat, x: nat)
    requires Distinct(v) && (forall i :: 0 <= i < |v| ==> v[i] < n) && |v| == n && x < n
    ensures x in v
  {
    if x !in v {
      var w := v + [x];
      DistinctBelow(w, n);
    }
  }

  lemma {:induction false} SubsetSize(a: set<nat>, b: set<nat>)
    requires a <= b
    ensures |a| <= |b|
  {
    if a != {} {
      var x :| x in a;
      SubsetSize(a - {x}, b - {x});
    }
  }

  /** A distinct listing of exactly the numbers below n has n elements. */
  lemma ListingLength(s: seq<nat>, n: nat)
    requires Distinct(s) && forall v: nat :: v in s <==> v < n
    ensures |s| == n
  {
    DistinctSize(s);
    RangeIs(n);
    ElemsAre(s);
    assert Elems(s) == Range(n);
  }

  /** One period lists every wanted value once. */
  lemma OnePeriod(g: nat -> nat, len: nat, c: nat, m: nat)
    requires Bijective(g, c, m) && len <= m
    ensures Distinct(Hits(g, len, c, m)) && |Hits(g, len, c, m)| == len
    ensures forall v: nat :: v in Hits(g, len, c, m) <==> v < len
  {
    HitsDistinct(g, len, c, m);
    forall v: nat ensures v in Hits(g, len, c, m) <==> v < len {
      HitsIn(g, len, c, m, v);
    }
    ListingLength(Hits(g, len, c, m), len);
  }

  /** A walk that has met every wanted value has met each once. */
  lemma WholeWalk(g: nat -> nat, len: nat, c: nat, m: nat, n: nat)
    requires Bijective(g, c, m) && len <= m && |Hits(g, len, c, n)| == len
    ensures Hits(g, len, c, n) == Hits(g, len, c, m)
  {
    OnePeriod(g, len, c, m);
    if n <= m {
      HitsPrefix(g, len, c, n, m);
    } else {
      HitsPrefix(g, len, c, m, n);
    }
  }

  /** The first wanted counter from `from` on. */
  ghost predicate FirstHit(g: nat -> nat, len: nat, from: nat, u: nat) {
    from <= u && g(u) < len && NoHit(g, len, from, u)
  }

  ghost predicate NoHit(g: nat -> nat, len: nat, from: nat, to: nat) {
    forall j: nat :: from <= j < to ==> g(j) >= len
  }

  /** A walk that has not met a wanted value tries one more. */
  lemma TryOne(g: nat -> nat, len: nat, from: nat, u: nat, hit: nat)
    requires NoHit(g, len, from, u) && from <= u <= hit && g(hit) < len
    ensures if g(u) < len then FirstHit(g, len, from, u) else u < hit && NoHit(g, len, from, u + 1)
  {
  }

  lemma {:induction false} SomeHit(g: nat -> nat, len: nat, from: nat, u: nat)
    requires from <= u && g(u) < len
    ensures exists v: nat :: FirstHit(g, len, from, v)
  {
    if j: nat :| from <= j < u && g(j) < len {
      SomeHit(g, len, from, j);
    } else {
      assert FirstHit(g, len, from, u);
    }
  }

  /** Where a walk that has stopped at `us` goes on. */
  ghost function Onward(c: nat, us: seq<nat>): nat {
    if us == [] then c else us[|us| - 1] + 1
  }

  /** The counters at which consecutive calls stop: each is the first wanted one behind the last. */
  ghost predicate Stops(g: nat -> nat, len: nat, c: nat, us: seq<nat>) {
    us != [] ==>
      var pre := us[..|us| - 1];
      Stops(g, len, c, pre) && FirstHit(g, len, Onward(c, pre), us[|us| - 1])
  }

  ghost function Images(g: nat -> nat, us: seq<nat>): seq<nat> {
    if us == [] then [] else Images(g, us[..|us| - 1]) + [g(us[|us| - 1])]
  }

  /** A call adds the one wanted image at which it stops. */
  lemma HitsNext(g: nat -> nat, len: nat, c: nat, from: nat, u: nat)
    requires c <= from && FirstHit(g, len, from, u)
    ensures Hits(g, len, c, u + 1 - c) == Hits(g, len, c, from - c) + [g(u)]
  {
    HitsSkip(g, len, c, from - c, u - c);
  }

  lemma {:induction false} StopsHit(g: nat -> nat, len: nat, c: nat, us: seq<nat>)
    requires Stops(g, len, c, us)
    ensures Onward(c, us) >= c && Images(g, us) == Hits(g, len, c, Onward(c, us) - c)
    ensures |Images(g, us)| == |us|
  {
    if us != [] {
      var pre, u := us[..|us| - 1], us[|us| - 1];
      StopsHit(g, len, c, pre);
      HitsNext(g, len, c, Onward(c, pre), u);
    }
  }

  /** Any `len` consecutive calls return every wanted value exactly once. */
  lemma EveryValueOnce(g: nat -> nat, len: nat, c: nat, m: nat, us: seq<nat>)
    requires Bijective(g, c, m) && len <= m && Stops(g, len, c, us) && |us| == len
    ensures Distinct(Images(g, us)) && |Images(g, us)| == len
    ensures forall v: nat :: v in Images(g, us) <==> v < len
  {
    StopsHit(g, len, c, us);
    WholeWalk(g, len, c, m, Onward(c, us) - c);
    OnePeriod(g, len, c, m);
  }
}
