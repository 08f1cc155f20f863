/** Walking through the addresses of a zone in order of priority, those of equal priority shuffled. */
module Hints {
  import opened Shuffle
  import opened CycleWalk

  const WORD := 0x1_0000_0000
  const HALF := 0x8000_0000

  /** A difference of unsigned numbers, read as a signed one. */
  function Signed(x: int): int {
    var m := x % WORD;
    if m < HALF then m else m - WORD
  }

  /** `dns_hints_i_cmp`; `rank` is the shuffle. */
  function Cmp(pri: seq<nat>, rank: nat -> nat, a: nat, b: nat): int
    requires a < |pri| && b < |pri|
  {
    var x: int, y: int := pri[a], pri[b];
    var d := Signed(x - y);
    if d != 0 then d else rank(a) - rank(b)
  }

  /** Different numbers have different ranks. */
  ghost predicate Ranking(rank: nat -> nat) {
    forall a: nat, b: nat :: a < 0x1_0000 && b < 0x1_0000 ==> rank(a) < 0x1_0000 && (rank(a) == rank(b) ==> a == b)
  }

  /** The order that is meant: by priority, then by rank. */
  ghost predicate Before(pri: seq<nat>, rank: nat -> nat, a: nat, b: nat)
    requires a < |pri| && b < |pri|
  {
    pri[a] < pri[b] || (pri[a] == pri[b] && rank(a) < rank(b))
  }

  /** Priorities less than 2^31 apart. */
  ghost predicate Near(pri: seq<nat>) {
    forall a, b :: 0 <= a < |pri| && 0 <= b < |pri| ==> pri[a] < WORD && pri[a] - pri[b] < HALF
  }

  ghost predicate Agrees(pri: seq<nat>, rank: nat -> nat, a: nat, b: nat)
    requires a < |pri| && b < |pri|
  {
    (Cmp(pri, rank, a, b) < 0 <==> Before(pri, rank, a, b)) && (Cmp(pri, rank, a, b) > 0 <==> Before(pri, rank, b, a))
  }

  lemma CmpAgrees(pri: seq<nat>, rank: nat -> nat, a: nat, b: nat)
    requires a < |pri| && b < |pri| && Near(pri)
    ensures Agrees(pri, rank, a, b)
  {
    assert pri[a] - pri[b] < HALF && pri[b] - pri[a] < HALF;
    var x: int, y: int := pri[a], pri[b];
    SignedSmall(x - y);
  }

  lemma SignedSmall(x: int)
    requires -HALF < x < HALF
    ensures Signed(x) == x
  {
  }

  lemma SignedLarge(x: int)
    requires HALF <= x < WORD
    ensures Signed(x) < 0
  {
  }

  lemma SignedWraps(x: int)
    requires -WORD < x < -HALF
    ensures Signed(x) > 0
  {
  }

  /** The comparison is the order that is meant, for all pairs, if and only if no two priorities are
      2^31 or more apart. */
  lemma CmpExact(pri: seq<nat>, rank: nat -> nat)
    requires forall a :: 0 <= a < |pri| ==> pri[a] < WORD
    ensures Near(pri) <==> forall a: nat, b: nat :: a < |pri| && b < |pri| ==> Agrees(pri, rank, a, b)
  {
    if Near(pri) {
      forall a: nat, b: nat | a < |pri| && b < |pri| ensures Agrees(pri, rank, a, b) {
        CmpAgrees(pri, rank, a, b);
      }
    } else {
      var a, b :| 0 <= a < |pri| && 0 <= b < |pri| && pri[a] - pri[b] >= HALF;
      var x: int, y: int := pri[a], pri[b];
      SignedLarge(x - y);
      assert !Agrees(pri, rank, a, b);
    }
  }

  /** Of two priorities 2^31 apart each compares as less than the other. */
  lemma BothLess(pri: seq<nat>, rank: nat -> nat, a: nat, b: nat)
    requires a < |pri| && b < |pri| && pri[b] == pri[a] + HALF
    ensures Cmp(pri, rank, a, b) < 0 && Cmp(pri, rank, b, a) < 0
  {
    assert Signed(HALF) == -HALF && Signed(-HALF) == -HALF;
  }

  /** The order that is meant is strict and total. */
  lemma Total(pri: seq<nat>, rank: nat -> nat, a: nat, b: nat, c: nat)
    requires Ranking(rank) && |pri| <= 0x1_0000 && a < |pri| && b < |pri| && c < |pri|
    ensures a != b ==> (Before(pri, rank, a, b) <==> !Before(pri, rank, b, a))
    ensures a == b ==> !Before(pri, rank, a, b)
    ensures Before(pri, rank, a, b) && Before(pri, rank, b, c) ==> Before(pri, rank, a, c)
  {
    assert rank(a) == rank(b) ==> a == b;
  }

  /** The ranks of the addresses for a seed. */
  function Ranks(seed: nat): nat -> nat {
    n => Shuffled(Table(), n, seed)
  }

  lemma ShuffleRanks(seed: nat)
    ensures Ranking(Ranks(seed))
  {
    SboxInvertible();
    var rank := Ranks(seed);
    forall a: nat, b: nat | a < 0x1_0000 && b < 0x1_0000 ensures rank(a) < 0x1_0000 && (rank(a) == rank(b) ==> a == b) {
      ShuffleBound(Table(), BackTable(), a, seed);
      if rank(a) == rank(b) { ShuffleInjective(Table(), BackTable(), a, b, seed); }
    }
  }

  // ------------------------------------------------------------------ the walk

  /** No address comes before `p`. */
  ghost predicate Least(pri: seq<nat>, rank: nat -> nat, p: nat, n: nat)
    requires p < |pri| && n <= |pri|
  {
    forall j: nat :: j < n ==> !Before(pri, rank, j, p)
  }

  /** `p` comes next after `p0` among the first `n` addresses. */
  ghost predicate Follows(pri: seq<nat>, rank: nat -> nat, p0: nat, p: nat, n: nat)
    requires p0 < |pri| && p < |pri| && n <= |pri|
  {
    Before(pri, rank, p0, p) && forall j: nat :: j < n && Before(pri, rank, p0, j) ==> !Before(pri, rank, j, p)
  }

  /** The best of the first `n` addresses, as `dns_hints_i_start` finds it. */
  function Best(pri: seq<nat>, rank: nat -> nat, n: nat): (p: nat)
    requires 0 < n <= |pri|
    ensures p < n
  {
    if n == 1 then 0
    else
      var p := Best(pri, rank, n - 1);
      if Cmp(pri, rank, n - 1, p) < 0 then n - 1 else p
  }

  function StartOf(pri: seq<nat>, rank: nat -> nat): nat {
    if pri == [] then 0 else Best(pri, rank, |pri|)
  }

  /** What `dns_hints_i_skip` finds behind `p0` among the first `n` addresses; `|pri|` if nothing. */
  function Find(pri: seq<nat>, rank: nat -> nat, p0: nat, n: nat): (z: nat)
    requires p0 < |pri| && n <= |pri|
    ensures z < n || z == |pri|
  {
    if n == 0 then |pri|
    else
      var z := Find(pri, rank, p0, n - 1);
      if Cmp(pri, rank, n - 1, p0) > 0 && (z == |pri| || Cmp(pri, rank, n - 1, z) < 0) then n - 1 else z
  }

  function NextOf(pri: seq<nat>, rank: nat -> nat, p0: nat): nat
    requires p0 < |pri|
  {
    Find(pri, rank, p0, |pri|)
  }

  method Start(pri: seq<nat>, rank: nat -> nat) returns (p0: nat)
    ensures p0 == StartOf(pri, rank)
    ensures pri != [] && |pri| <= 0x1_0000 && Ranking(rank) && WithinHalf(pri) && LeastLast(pri, rank) ==>
      p0 < |pri| && Least(pri, rank, p0, |pri|)
  {
    p0 := 0;
    var p := 1;
    while p < |pri|
      invariant p >= 1 && if pri == [] then p0 == 0 else p <= |pri| && p0 == Best(pri, rank, p)
    {
      if Cmp(pri, rank, p, p0) < 0 { p0 := p; }
      p := p + 1;
    }
    if pri != [] && |pri| <= 0x1_0000 && Ranking(rank) && WithinHalf(pri) && LeastLast(pri, rank) {
      StartLeast(pri, rank);
    }
  }

  lemma StartLeast(pri: seq<nat>, rank: nat -> nat)
    requires pri != [] && |pri| <= 0x1_0000 && Ranking(rank) && WithinHalf(pri) && LeastLast(pri, rank)
    ensures Least(pri, rank, StartOf(pri, rank), |pri|)
  {
    var p := SomeLeast(pri, rank, |pri|);
    BestIs(pri, rank, p, |pri|);
  }

  method Skip(pri: seq<nat>, rank: nat -> nat, p0: nat) returns (z: nat)
    requires p0 < |pri|
    ensures z == NextOf(pri, rank, p0) <= |pri|
    ensures WithinHalf(pri) && Bridged(pri) ==>
      if z < |pri| then Follows(pri, rank, p0, z, |pri|) else forall j: nat :: j < |pri| ==> !Before(pri, rank, p0, j)
  {
    if WithinHalf(pri) && Bridged(pri) { NextFollows(pri, rank, p0); }
    z := 0;
    while z < |pri|
      invariant z <= |pri| && Find(pri, rank, p0, z) == |pri|
    {
      if Cmp(pri, rank, z, p0) > 0 { break; }
      z := z + 1;
    }
    if z == |pri| { return; }
    var p := z + 1;
    while p < |pri|
      invariant z < p <= |pri| && z == Find(pri, rank, p0, p)
    {
      if Cmp(pri, rank, p, p0) > 0 && Cmp(pri, rank, p, z) < 0 { z := p; }
      p := p + 1;
    }
  }

  // ------------------------------------------------------------------ when the walk is right

  /** No two priorities are more than 2^31 apart. */
  ghost predicate WithinHalf(pri: seq<nat>) {
    forall a, b :: 0 <= a < |pri| && 0 <= b < |pri| ==> pri[a] - pri[b] <= HALF
  }

  /** Two that are exactly 2^31 apart have one between them. */
  ghost predicate Bridged(pri: seq<nat>) {
    forall a, b :: 0 <= a < |pri| && 0 <= b < |pri| && pri[a] == pri[b] + HALF ==> Bridge(pri, pri[b], pri[a])
  }

  ghost predicate Bridge(pri: seq<nat>, x: nat, y: nat) {
    exists c :: 0 <= c < |pri| && x < pri[c] < y
  }

  /** None that is exactly 2^31 above the least stands behind it. */
  ghost predicate LeastLast(pri: seq<nat>, rank: nat -> nat) {
    forall a: nat, b: nat :: b < a < |pri| && pri[a] == pri[b] + HALF ==> !Least(pri, rank, b, |pri|)
  }

  ghost predicate Walkable(pri: seq<nat>, rank: nat -> nat) {
    WithinHalf(pri) && Bridged(pri) && LeastLast(pri, rank)
  }

  lemma NearWalkable(pri: seq<nat>, rank: nat -> nat)
    requires Near(pri)
    ensures Walkable(pri, rank)
  {
  }

  /** No priority is exactly 2^31 above one that stands before it. */
  ghost predicate HalfFirst(pri: seq<nat>) {
    forall a: nat, b: nat :: b < a < |pri| ==> pri[a] != pri[b] + HALF
  }

  /** The ranks in which `b` comes first. */
  function FirstRank(b: nat): nat -> nat {
    n => if n == b then 0 else if n == 0 then b else n
  }

  lemma FirstLeast(pri: seq<nat>, b: nat)
    requires b < |pri| <= 0x1_0000 && forall j :: 0 <= j < |pri| ==> pri[b] <= pri[j]
    ensures Ranking(FirstRank(b)) && Least(pri, FirstRank(b), b, |pri|)
  {
  }

  /** Priorities are walkable whatever the shuffle, and so for every seed, if and only if no two are more
      than 2^31 apart, those exactly 2^31 apart have one between them, and the higher of them stands first. */
  lemma AnyShuffle(pri: seq<nat>)
    requires |pri| <= 0x1_0000
    ensures (forall rank :: Ranking(rank) ==> Walkable(pri, rank)) <==>
      WithinHalf(pri) && Bridged(pri) && HalfFirst(pri)
  {
    if forall rank :: Ranking(rank) ==> Walkable(pri, rank) {
      IdentityRanks();
      assert Walkable(pri, n => n);
      forall a: nat, b: nat | b < a < |pri| ensures pri[a] != pri[b] + HALF {
        if forall j :: 0 <= j < |pri| ==> pri[b] <= pri[j] {
          FirstLeast(pri, b);
          assert Walkable(pri, FirstRank(b));
        }
      }
    }
  }

  lemma IdentityRanks()
    ensures Ranking(n => n)
  {
  }

  /** For any seed. */
  lemma AnySeed(pri: seq<nat>, seed: nat)
    requires |pri| <= 0x1_0000 && WithinHalf(pri) && Bridged(pri) && HalfFirst(pri)
    ensures Walkable(pri, Ranks(seed))
  {
    ShuffleRanks(seed);
    AnyShuffle(pri);
  }

  lemma CmpWithin(pri: seq<nat>, rank: nat -> nat, a: nat, b: nat)
    requires a < |pri| && b < |pri| && -HALF <= pri[a] - pri[b] <= HALF
    ensures Cmp(pri, rank, a, b) > 0 <==> Before(pri, rank, b, a) && pri[a] != pri[b] + HALF
    ensures Cmp(pri, rank, a, b) < 0 <==> Before(pri, rank, a, b) || pri[a] == pri[b] + HALF
  {
    var x: int, y: int := pri[a], pri[b];
    if -HALF < x - y < HALF { SignedSmall(x - y); }
  }

  /** An address that the search behind `p0` considers. */
  ghost predicate Ahead(pri: seq<nat>, rank: nat -> nat, p0: nat, j: nat)
    requires p0 < |pri| && j < |pri|
  {
    Before(pri, rank, p0, j) && pri[j] != pri[p0] + HALF
  }

  /** The first of those among the first `n` addresses. */
  ghost predicate Nearest(pri: seq<nat>, rank: nat -> nat, p0: nat, z: nat, n: nat)
    requires p0 < |pri| && n <= |pri|
  {
    if z < |pri| then
      Ahead(pri, rank, p0, z) && forall j: nat :: j < n && Ahead(pri, rank, p0, j) ==> !Before(pri, rank, j, z)
    else
      forall j: nat :: j < n ==> !Ahead(pri, rank, p0, j)
  }

  lemma NearestStep(pri: seq<nat>, rank: nat -> nat, p0: nat, z: nat, n: nat)
    requires WithinHalf(pri) && p0 < |pri| && n < |pri| && Nearest(pri, rank, p0, z, n)
    ensures var better := Cmp(pri, rank, n, p0) > 0 && (z >= |pri| || Cmp(pri, rank, n, z) < 0);
      Nearest(pri, rank, p0, if better then n else z, n + 1)
  {
    CmpWithin(pri, rank, n, p0);
    if z < |pri| { CmpWithin(pri, rank, n, z); }
  }

  /** The search finds it. */
  lemma {:induction false} FindFirst(pri: seq<nat>, rank: nat -> nat, p0: nat, n: nat)
    requires WithinHalf(pri) && p0 < |pri| && n <= |pri|
    ensures Nearest(pri, rank, p0, Find(pri, rank, p0, n), n)
  {
    if n > 0 {
      FindFirst(pri, rank, p0, n - 1);
      NearestStep(pri, rank, p0, Find(pri, rank, p0, n - 1), n - 1);
    }
  }

  lemma NextFollows(pri: seq<nat>, rank: nat -> nat, p0: nat)
    requires WithinHalf(pri) && Bridged(pri) && p0 < |pri|
    ensures var z := NextOf(pri, rank, p0);
      && (z < |pri| ==> Follows(pri, rank, p0, z, |pri|))
      && (z == |pri| ==> forall j: nat :: j < |pri| ==> !Before(pri, rank, p0, j))
  {
    FindFirst(pri, rank, p0, |pri|);
    if z: nat :| z < |pri| && Before(pri, rank, p0, z) && NextOf(pri, rank, p0) == |pri| {
      assert !Ahead(pri, rank, p0, z);
      assert Bridge(pri, pri[p0], pri[z]);
      var c :| 0 <= c < |pri| && pri[p0] < pri[c] < pri[z];
      assert Ahead(pri, rank, p0, c);
    }
  }

  lemma LeastMoves(pri: seq<nat>, rank: nat -> nat, p: nat, q: nat)
    requires p < q < |pri| <= 0x1_0000 && Ranking(rank) && Least(pri, rank, p, q) && Before(pri, rank, q, p)
    ensures Least(pri, rank, q, q + 1)
  {
    forall j: nat | j <= q ensures !Before(pri, rank, j, q) {
      Total(pri, rank, j, q, p);
    }
  }

  lemma {:induction false} SomeLeast(pri: seq<nat>, rank: nat -> nat, n: nat) returns (p: nat)
    requires 0 < n <= |pri| <= 0x1_0000 && Ranking(rank)
    ensures p < n && Least(pri, rank, p, n)
  {
    p := 0;
    if n > 1 {
      p := SomeLeast(pri, rank, n - 1);
      if Before(pri, rank, n - 1, p) {
        LeastMoves(pri, rank, p, n - 1);
        p := n - 1;
      }
    }
  }

  /** The least address stays the best one unless one exactly 2^31 above it comes behind it. */
  lemma {:induction false} BestIs(pri: seq<nat>, rank: nat -> nat, p: nat, n: nat)
    requires WithinHalf(pri) && Ranking(rank) && |pri| <= 0x1_0000 && p < n <= |pri| && Least(pri, rank, p, |pri|)
    requires forall a: nat :: p < a < n ==> pri[a] != pri[p] + HALF
    ensures Best(pri, rank, n) == p
  {
    if n > 1 {
      if p == n - 1 {
        var q := Best(pri, rank, n - 1);
        Total(pri, rank, p, q, q);
        CmpWithin(pri, rank, p, q);
      } else {
        BestIs(pri, rank, p, n - 1);
        CmpWithin(pri, rank, n - 1, p);
      }
    }
  }

  /** The best address was the best one when each of those behind it was compared. */
  lemma {:induction false} BestStays(pri: seq<nat>, rank: nat -> nat, a: nat, n: nat)
    requires 0 < a < n <= |pri| && Best(pri, rank, n) < a
    ensures Cmp(pri, rank, a, Best(pri, rank, n)) >= 0
    decreases n
  {
    if a < n - 1 { BestStays(pri, rank, a, n - 1); }
  }

  /** What `visited` and `next` are on a walk. */
  ghost predicate Path(pri: seq<nat>, rank: nat -> nat, v: seq<nat>, next: nat) {
    if v == [] then next == StartOf(pri, rank)
    else
      var p := v[|v| - 1];
      p < |pri| && Path(pri, rank, v[..|v| - 1], p) && next == NextOf(pri, rank, p)
  }

  lemma PathOn(pri: seq<nat>, rank: nat -> nat, v: seq<nat>, p: nat)
    requires p < |pri| && Path(pri, rank, v, p)
    ensures Path(pri, rank, v + [p], NextOf(pri, rank, p))
  {
    assert (v + [p])[..|v|] == v;
  }

  ghost predicate Ordered(pri: seq<nat>, rank: nat -> nat, v: seq<nat>) {
    && (forall i :: 0 <= i < |v| ==> v[i] < |pri|)
    && (forall i, j :: 0 <= i < j < |v| ==> Before(pri, rank, v[i], v[j]))
  }

  /** Every address that comes before `next` has been visited, in order; at the end all have. */
  ghost predicate Walking(pri: seq<nat>, rank: nat -> nat, v: seq<nat>, next: nat) {
    && Ordered(pri, rank, v)
    && (next < |pri| ==> forall j: nat :: j < |pri| ==> (j in v <==> Before(pri, rank, j, next)))
    && (next >= |pri| ==> forall j: nat :: j < |pri| ==> j in v)
  }

  lemma WalkStarts(pri: seq<nat>, rank: nat -> nat, p0: nat)
    requires pri != [] ==> p0 < |pri| && Least(pri, rank, p0, |pri|)
    ensures Walking(pri, rank, [], p0)
  {
  }

  lemma WalkOn(pri: seq<nat>, rank: nat -> nat, v: seq<nat>, p: nat, z: nat)
    requires Ranking(rank) && |pri| <= 0x1_0000 && p < |pri| && z <= |pri| && Walking(pri, rank, v, p)
    requires z < |pri| ==> Follows(pri, rank, p, z, |pri|)
    requires z == |pri| ==> forall j: nat :: j < |pri| ==> !Before(pri, rank, p, j)
    ensures Walking(pri, rank, v + [p], z)
  {
    var now := v + [p];
    forall i, j | 0 <= i < j < |now| ensures Before(pri, rank, now[i], now[j]) {
      if j == |v| { assert now[i] in v; }
    }
    forall j: nat | j < |pri| && z < |pri| ensures j in now <==> Before(pri, rank, j, z) {
      Total(pri, rank, j, p, z);
      Total(pri, rank, p, j, z);
      Total(pri, rank, j, z, p);
      if Before(pri, rank, p, j) { Total(pri, rank, j, z, z); }
    }
    forall j: nat | j < |pri| && z == |pri| ensures j in now {
      Total(pri, rank, j, p, p);
    }
  }

  /** On such priorities the walk is right as far as it goes. */
  lemma {:induction false} PathWalks(pri: seq<nat>, rank: nat -> nat, v: seq<nat>, next: nat)
    requires Ranking(rank) && |pri| <= 0x1_0000 && Walkable(pri, rank) && Path(pri, rank, v, next)
    ensures Walking(pri, rank, v, next)
  {
    if v == [] {
      if pri != [] { StartLeast(pri, rank); }
      WalkStarts(pri, rank, next);
    } else {
      var pre, p := v[..|v| - 1], v[|v| - 1];
      PathWalks(pri, rank, pre, p);
      NextFollows(pri, rank, p);
      WalkOn(pri, rank, pre, p, next);
      assert pre + [p] == v;
    }
  }

  /** Every address once, in the order that is meant. */
  ghost predicate Complete(pri: seq<nat>, rank: nat -> nat, v: seq<nat>) {
    |v| == |pri| && Ordered(pri, rank, v) && forall j: nat :: j < |pri| ==> j in v
  }

  lemma OrderedDistinct(pri: seq<nat>, rank: nat -> nat, v: seq<nat>)
    requires Ordered(pri, rank, v)
    ensures Distinct(v)
  {
    forall i, j | 0 <= i < j < |v| ensures v[i] != v[j] {
      assert Before(pri, rank, v[i], v[j]);
    }
  }

  /** Where a path goes from place `i`. */
  lemma {:induction false} PathAt(pri: seq<nat>, rank: nat -> nat, v: seq<nat>, next: nat, i: nat)
    requires Path(pri, rank, v, next) && i < |v|
    ensures i == 0 ==> v[0] == StartOf(pri, rank)
    ensures v[i] < |pri| && NextOf(pri, rank, v[i]) == if i + 1 < |v| then v[i + 1] else next
    decreases |v|
  {
    var pre, p := v[..|v| - 1], v[|v| - 1];
    if i < |pre| { PathAt(pri, rank, pre, p, i); }
  }

  /** The search finds only what compares as greater, and something if there is any. */
  lemma {:induction false} FindGreater(pri: seq<nat>, rank: nat -> nat, p0: nat, n: nat, j: nat)
    requires p0 < |pri| && n <= |pri| && j < |pri|
    ensures var z := Find(pri, rank, p0, n); z < |pri| ==> Cmp(pri, rank, z, p0) > 0
    ensures j < n && Cmp(pri, rank, j, p0) > 0 ==> Find(pri, rank, p0, n) < |pri|
  {
    if n > 0 { FindGreater(pri, rank, p0, n - 1, j); }
  }

  /** A complete walk ends at the highest priority, which must not be more than 2^31 above any other. */
  lemma CompleteWithin(pri: seq<nat>, rank: nat -> nat, v: seq<nat>, next: nat)
    requires (forall a :: 0 <= a < |pri| ==> pri[a] < WORD) && Path(pri, rank, v, next) && next == |pri| &&
      Complete(pri, rank, v)
    ensures WithinHalf(pri)
  {
    forall a: nat, b: nat | a < |pri| && b < |pri| ensures pri[a] - pri[b] <= HALF {
      var m := |v| - 1;
      assert a in v;
      var i :| 0 <= i < |v| && v[i] == a;
      assert i < m ==> Before(pri, rank, v[i], v[m]);
      PathAt(pri, rank, v, next, m);
      var x: int, y: int := pri[b], pri[v[m]];
      if y - x > HALF {
        SignedWraps(x - y);
        FindGreater(pri, rank, v[m], |pri|, b);
      }
    }
  }

  /** From each address of a complete walk the next one compares as greater. */
  lemma CompleteBridged(pri: seq<nat>, rank: nat -> nat, v: seq<nat>, next: nat)
    requires WithinHalf(pri) && Path(pri, rank, v, next) && Complete(pri, rank, v)
    ensures Bridged(pri)
  {
    forall a: nat, b: nat | a < |pri| && b < |pri| && pri[a] == pri[b] + HALF ensures Bridge(pri, pri[b], pri[a]) {
      assert a in v && b in v;
      var i :| 0 <= i < |v| && v[i] == b;
      var k :| 0 <= k < |v| && v[k] == a;
      assert i < k;
      i := LastOf(pri, rank, v, i, k);
      PathAt(pri, rank, v, next, i);
      FindGreater(pri, rank, v[i], |pri|, v[i]);
      CmpWithin(pri, rank, v[i + 1], v[i]);
      assert Before(pri, rank, v[i], v[i + 1]);
      assert pri[b] < pri[v[i + 1]] < pri[a];
    }
  }

  /** The last place of a priority. */
  lemma {:induction false} LastOf(pri: seq<nat>, rank: nat -> nat, v: seq<nat>, i: nat, k: nat) returns (l: nat)
    requires Ordered(pri, rank, v) && i < k < |v| && pri[v[i]] < pri[v[k]]
    ensures i <= l < k && pri[v[l]] == pri[v[i]] < pri[v[l + 1]]
    decreases k - i
  {
    l := i;
    assert Before(pri, rank, v[i], v[i + 1]);
    if pri[v[i + 1]] == pri[v[i]] { l := LastOf(pri, rank, v, i + 1, k); }
  }

  lemma CompleteLeast(pri: seq<nat>, rank: nat -> nat, v: seq<nat>, next: nat)
    requires Ranking(rank) && |pri| <= 0x1_0000 && Path(pri, rank, v, next) && Complete(pri, rank, v)
    ensures LeastLast(pri, rank)
  {
    forall a: nat, b: nat | b < a < |pri| && pri[a] == pri[b] + HALF ensures !Least(pri, rank, b, |pri|) {
      PathAt(pri, rank, v, next, 0);
      var p := v[0];
      if Least(pri, rank, b, |pri|) {
        assert b in v;
        var i :| 0 <= i < |v| && v[i] == b;
        assert i == 0;
        BothLess(pri, rank, b, a);
        BestStays(pri, rank, a, |pri|);
      }
    }
  }

  /** A walk that is over is right if and only if no two priorities are more than 2^31 apart, those that
      are exactly 2^31 apart have one between them, and none of those stands behind the least. */
  lemma WalkExact(pri: seq<nat>, rank: nat -> nat, v: seq<nat>)
    requires Ranking(rank) && |pri| <= 0x1_0000 && (forall a :: 0 <= a < |pri| ==> pri[a] < WORD)
    requires Path(pri, rank, v, |pri|)
    ensures Complete(pri, rank, v) <==> Walkable(pri, rank)
  {
    if Complete(pri, rank, v) {
      CompleteWithin(pri, rank, v, |pri|);
      CompleteBridged(pri, rank, v, |pri|);
      CompleteLeast(pri, rank, v, |pri|);
    }
    if Walkable(pri, rank) {
      PathWalks(pri, rank, v, |pri|);
      OrderedDistinct(pri, rank, v);
      ListingLength(v, |pri|);
    }
  }

  /** The iterator of one zone. */
  class Iterator {
    const pri: seq<nat>
    const rank: nat -> nat
    var next: nat
    /** The addresses handed out so far. */
    ghost var visited: seq<nat>

    ghost predicate Valid()
      reads this
    {
      && (forall a :: 0 <= a < |pri| ==> pri[a] < WORD) && Ranking(rank) && |pri| <= 16 && next <= |pri|
      && Path(pri, rank, visited, next)
    }

    constructor (pri: seq<nat>, seed: nat)
      requires |pri| <= 16 && forall a :: 0 <= a < |pri| ==> pri[a] < WORD
      ensures Valid() && visited == [] && this.pri == pri
    {
      var p0 := Start(pri, Ranks(seed));
      ShuffleRanks(seed);
      this.pri, rank, next, visited := pri, Ranks(seed), p0, [];
    }

    /** `dns_hints_grep`: the next addresses, at most `lim`. */
    method Grep(lim: nat) returns (s: seq<nat>)
      requires Valid()
      modifies this
      ensures Valid() && visited == old(visited) + s && |s| <= lim
      ensures |s| < lim ==> next == |pri|
    {
      s := [];
      while next < |pri| && |s| < lim
        invariant Valid() && visited == old(visited) + s && |s| <= lim
        decreases lim - |s|
      {
        PathOn(pri, rank, visited, next);
        var z := Skip(pri, rank, next);
        s, visited := s + [next], visited + [next];
        next := z;
      }
    }

    /** Once the walk is over every address has been visited exactly once, in nondecreasing priority, if
        and only if the priorities are walkable. */
    lemma AllOnce()
      requires Valid() && next == |pri|
      ensures Complete(pri, rank, visited) <==> Walkable(pri, rank)
      ensures Walkable(pri, rank) ==> Distinct(visited)
      ensures Walkable(pri, rank) ==> forall i, j :: 0 <= i < j < |visited| ==>
        visited[i] < |pri| && visited[j] < |pri| && pri[visited[i]] <= pri[visited[j]]
    {
      WalkExact(pri, rank, visited);
      if Walkable(pri, rank) {
        OrderedDistinct(pri, rank, visited);
        assert forall i, j :: 0 <= i < j < |visited| ==> Before(pri, rank, visited[i], visited[j]);
      }
    }

    /** If they are, the walk is over when as many addresses were handed out as there are, not earlier. */
    lemma Over()
      requires Valid() && Walkable(pri, rank)
      ensures |visited| <= |pri| && (|visited| == |pri| <==> next == |pri|)
    {
      PathWalks(pri, rank, visited, next);
      OrderedDistinct(pri, rank, visited);
      DistinctBelow(visited, |pri|);
      if next == |pri| { AllOnce(); }
      if |visited| == |pri| && next < |pri| {
        AllTaken(visited, |pri|, next);
        Total(pri, rank, next, next, next);
      }
    }
  }

  lemma {:induction false} TwoPath(pri: seq<nat>, rank: nat -> nat, v: seq<nat>, next: nat)
    requires |pri| == 2 && (pri[1] == pri[0] + HALF || pri[0] == pri[1] + HALF) && Path(pri, rank, v, next)
    ensures if v == [] then next == 1 else v == [1] && next == 2
  {
    var x := if pri[0] < pri[1] then 0 else 1;
    BothLess(pri, rank, x, 1 - x);
    if v == [] {
      assert Best(pri, rank, 2) == 1;
    } else {
      TwoPath(pri, rank, v[..|v| - 1], v[|v| - 1]);
      FindGreater(pri, rank, 1, 2, 1);
      assert Cmp(pri, rank, 1, 1) == 0;
    }
  }

  /** Of two addresses whose priorities are 2^31 apart only the second is handed out. */
  method TwoFarApart(pri: seq<nat>, seed: nat) returns (s: seq<nat>)
    requires |pri| == 2 && pri[0] < WORD && pri[1] < WORD && (pri[1] == pri[0] + HALF || pri[0] == pri[1] + HALF)
    ensures s == [1]
  {
    var it := new Iterator(pri, seed);
    s := it.Grep(2);
    assert it.visited == s;
    TwoPath(pri, it.rank, s, it.next);
  }

  lemma {:induction false} CirclePath(pri: seq<nat>, rank: nat -> nat, v: seq<nat>, next: nat)
    requires |pri| == 3 && pri[0] < pri[1] < pri[2] < WORD && pri[1] - pri[0] < HALF && pri[2] - pri[1] < HALF
    requires pri[2] - pri[0] > HALF && Path(pri, rank, v, next)
    ensures next < 3
  {
    if v != [] {
      var p := v[|v| - 1];
      var j := if p == 2 then 0 else p + 1;
      var x: int, y: int := pri[j], pri[p];
      if p == 2 { SignedWraps(x - y); } else { SignedSmall(x - y); }
      FindGreater(pri, rank, p, 3, j);
    }
  }

  /** Three priorities, each of which compares as less than the next one in a circle: the walk never ends. */
  method Circle(pri: seq<nat>, seed: nat, lim: nat) returns (s: seq<nat>)
    requires |pri| == 3 && pri[0] < pri[1] < pri[2] < WORD && pri[1] - pri[0] < HALF && pri[2] - pri[1] < HALF
    requires pri[2] - pri[0] > HALF
    ensures |s| == lim
  {
    var it := new Iterator(pri, seed);
    s := it.Grep(lim);
    assert it.visited == s;
    CirclePath(pri, it.rank, s, it.next);
  }
}
