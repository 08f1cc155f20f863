/** The query-id generator: a balanced Feistel network with an arbitrary round function, and
    cycle walking over the part of its range that is wanted. */
module Permutor {
  import opened Marks
  import opened Powers
  import opened Bits
  import opened CycleWalk

  const WORD := 0x1_0000_0000

  // ------------------------------------------------------------------ the network

  /** The round function of round `i`; any function of two words. */
  type Prf = (nat, nat) -> nat

  /** The halves after `i` rounds. */
  function Rounds(f: Prf, m: nat, l: nat, r: nat, i: nat): (nat, nat)
    requires m > 0
  {
    if i == 0 then (l, r)
    else
      var (a, b) := Rounds(f, m, l, r, i - 1);
      (b, Xor(a, f(i - 1, b) % m))
  }

  /** The halves before `i` rounds. */
  function Unrounds(f: Prf, m: nat, l: nat, r: nat, i: nat): (nat, nat)
    requires m > 0
    decreases i
  {
    if i == 0 then (l, r) else Unrounds(f, m, Xor(r, f(i - 1, l) % m), l, i - 1)
  }

  lemma {:induction false} RoundsBound(f: Prf, k: nat, l: nat, r: nat, i: nat)
    requires l < Pow2(k) && r < Pow2(k)
    ensures Rounds(f, Pow2(k), l, r, i).0 < Pow2(k) && Rounds(f, Pow2(k), l, r, i).1 < Pow2(k)
  {
    if i > 0 {
      RoundsBound(f, k, l, r, i - 1);
      var (a, b) := Rounds(f, Pow2(k), l, r, i - 1);
      XorBound(a, f(i - 1, b) % Pow2(k), k);
    }
  }

  lemma {:induction false} UnroundsBound(f: Prf, k: nat, l: nat, r: nat, i: nat)
    requires l < Pow2(k) && r < Pow2(k)
    ensures Unrounds(f, Pow2(k), l, r, i).0 < Pow2(k) && Unrounds(f, Pow2(k), l, r, i).1 < Pow2(k)
    decreases i
  {
    if i > 0 {
      XorBound(r, f(i - 1, l) % Pow2(k), k);
      UnroundsBound(f, k, Xor(r, f(i - 1, l) % Pow2(k)), l, i - 1);
    }
  }

  /** Undoing the rounds gives back the halves, whatever the round function. */
  lemma {:induction false} UnroundsRounds(f: Prf, m: nat, l: nat, r: nat, i: nat)
    requires m > 0
    ensures var (a, b) := Rounds(f, m, l, r, i); Unrounds(f, m, a, b, i) == (l, r)
  {
    if i > 0 {
      UnroundsRounds(f, m, l, r, i - 1);
      var (a, b) := Rounds(f, m, l, r, i - 1);
      XorCancels(a, f(i - 1, b) % m);
    }
  }

  lemma {:induction false} RoundsUnrounds(f: Prf, m: nat, l: nat, r: nat, i: nat)
    requires m > 0
    ensures var (a, b) := Unrounds(f, m, l, r, i); Rounds(f, m, a, b, i) == (l, r)
    decreases i
  {
    if i > 0 {
      var x := Xor(r, f(i - 1, l) % m);
      RoundsUnrounds(f, m, x, l, i - 1);
      XorCancels(r, f(i - 1, l) % m);
    }
  }

  lemma UnroundsStep(f: Prf, m: nat, l: nat, r: nat, i: nat)
    requires m > 0
    ensures Unrounds(f, m, l, r, i + 1) == Unrounds(f, m, Xor(r, f(i, l) % m), l, i)
  {
  }

  /** The permutation: split into halves, `n` rounds, join. */
  function Enc(f: Prf, m: nat, n: nat, x: nat): nat
    requires m > 0
  {
    var (a, b) := Rounds(f, m, x / m % m, x % m, n);
    a * m + b
  }

  function Dec(f: Prf, m: nat, n: nat, x: nat): nat
    requires m > 0
  {
    var (a, b) := Unrounds(f, m, x / m % m, x % m, n);
    a * m + b
  }

  lemma JoinSplit(m: nat, a: nat, b: nat)
    requires a < m && b < m
    ensures (a * m + b) / m == a && (a * m + b) % m == b && a % m == a && a * m + b < m * m
  {
    MulStep(a, m, m);
    DivIs(a * m + b, m, a, b);
    DivIs(a, m, 0, a);
  }

  lemma Regroup(q: nat, h: nat, l: nat, m: nat)
    ensures q * (m * m) + (h * m + l) == (q * m + h) * m + l
  {
    assert q * (m * m) == (q * m) * m;
  }

  lemma Digits(x: nat, m: nat, p: nat, q: nat, h: nat, l: nat)
    requires m > 0 && h < m && l < m && x == p * m + l && p == q * m + h
    ensures x % m == l && x / m % m == h
  {
    DivIs(x, m, p, l);
    DivIs(p, m, q, h);
  }

  /** Only the low bits of the argument matter. */
  lemma SplitMod(m: nat, x: nat)
    requires m > 0
    ensures m * m > 0 && (x % (m * m)) % m == x % m && (x % (m * m)) / m % m == x / m % m
  {
    MulStep(0, m, m);
    var mm := m * m;
    var q, y := x / mm, x % mm;
    HighBelow(m, y);
    var h, l := y / m, y % m;
    Regroup(q, h, l, m);
    Digits(x, m, q * m + h, q, h, l);
  }

  lemma HighBelow(m: nat, x: nat)
    requires m > 0 && x < m * m
    ensures x / m < m && x / m % m == x / m && x / m * m + x % m == x
  {
    if x / m >= m {
      if x / m > m { MulStep(m, x / m, m); }
    } else {
      DivIs(x / m, m, 0, x / m);
    }
  }

  lemma EncBound(f: Prf, k: nat, n: nat, x: nat)
    ensures Enc(f, Pow2(k), n, x) < Pow2(k) * Pow2(k) && Dec(f, Pow2(k), n, x) < Pow2(k) * Pow2(k)
  {
    var m := Pow2(k);
    RoundsBound(f, k, x / m % m, x % m, n);
    UnroundsBound(f, k, x / m % m, x % m, n);
    var (a, b) := Rounds(f, m, x / m % m, x % m, n);
    JoinSplit(m, a, b);
    var (c, d) := Unrounds(f, m, x / m % m, x % m, n);
    JoinSplit(m, c, d);
  }

  /** D inverts E on the whole domain, whatever the round function and the number of rounds. */
  lemma DecEnc(f: Prf, k: nat, n: nat, x: nat)
    requires x < Pow2(k) * Pow2(k)
    ensures Dec(f, Pow2(k), n, Enc(f, Pow2(k), n, x)) == x
  {
    var m := Pow2(k);
    var l, r := x / m % m, x % m;
    RoundsBound(f, k, l, r, n);
    var (a, b) := Rounds(f, m, l, r, n);
    JoinSplit(m, a, b);
    UnroundsRounds(f, m, l, r, n);
    HighBelow(m, x);
  }

  /** E inverts D, so E is a bijection. */
  lemma EncDec(f: Prf, k: nat, n: nat, x: nat)
    requires x < Pow2(k) * Pow2(k)
    ensures Enc(f, Pow2(k), n, Dec(f, Pow2(k), n, x)) == x
  {
    var m := Pow2(k);
    var l, r := x / m % m, x % m;
    UnroundsBound(f, k, l, r, n);
    var (a, b) := Unrounds(f, m, l, r, n);
    JoinSplit(m, a, b);
    RoundsUnrounds(f, m, l, r, n);
    HighBelow(m, x);
  }

  lemma EncPeriodic(f: Prf, k: nat, n: nat, x: nat)
    ensures Pow2(k) * Pow2(k) > 0 && Enc(f, Pow2(k), n, x % (Pow2(k) * Pow2(k))) == Enc(f, Pow2(k), n, x)
  {
    SplitMod(Pow2(k), x);
  }

  // ------------------------------------------------------------------ the range that is wanted

  /** A network on 2^(2k) values of which the first `length` are wanted. */
  datatype Net = Net(f: Prf, k: nat, n: nat, length: nat)

  function Size(p: Net): nat {
    Pow2(p.k + p.k)
  }

  function E(p: Net, x: nat): nat {
    Enc(p.f, Pow2(p.k), p.n, x)
  }

  function D(p: Net, x: nat): nat {
    Dec(p.f, Pow2(p.k), p.n, x)
  }

  lemma Residue(p: Net, x: nat, y: nat)
    requires x % Size(p) == y % Size(p)
    ensures E(p, x) == E(p, y)
  {
    Pow2Sum(p.k, p.k);
    EncPeriodic(p.f, p.k, p.n, x);
    EncPeriodic(p.f, p.k, p.n, y);
  }

  /** The distance from `c` up to the next number with remainder `d`. */
  lemma Congruent(c: nat, d: nat, m: nat) returns (i: nat)
    requires d < m
    ensures c <= i < c + m && i % m == d
  {
    var q, r := c / m, c % m;
    if r <= d {
      i := c + (d - r);
      DivIs(i, m, q, d);
    } else {
      i := c + (d + m - r);
      MulNext(q, m);
      DivIs(i, m, q + 1, d);
    }
  }

  lemma MulNext(q: nat, m: nat)
    ensures (q + 1) * m == q * m + m
  {
  }

  /** Counters less than a period apart have different images. */
  lemma Apart(p: Net, i: nat, j: nat)
    requires i < j < i + Size(p)
    ensures E(p, i) != E(p, j)
  {
    Pow2Sum(p.k, p.k);
    EncPeriodic(p.f, p.k, p.n, i);
    EncPeriodic(p.f, p.k, p.n, j);
    DecEnc(p.f, p.k, p.n, i % Size(p));
    DecEnc(p.f, p.k, p.n, j % Size(p));
    DifferentResidues(i, j, Size(p));
  }

  /** Every value is met within a period. */
  lemma Meets(p: Net, c: nat, v: nat) returns (i: nat)
    requires v < Size(p)
    ensures c <= i < c + Size(p) && E(p, i) == v
  {
    Pow2Sum(p.k, p.k);
    EncBound(p.f, p.k, p.n, v);
    EncDec(p.f, p.k, p.n, v);
    i := Congruent(c, D(p, v), Size(p));
    EncPeriodic(p.f, p.k, p.n, i);
  }

  /** `g` is the network's permutation. The trigger keeps its arithmetic out of the proofs about walking. */
  ghost predicate Computes(p: Net, g: nat -> nat) {
    forall x: nat {:trigger Open(x)} :: Open(x) ==> g(x) == E(p, x)
  }

  /** The network takes every value once over any whole period. */
  lemma NetPermutes(p: Net, g: nat -> nat, c: nat)
    requires Computes(p, g)
    ensures Bijective(g, c, Size(p))
  {
    var m := Size(p);
    forall i: nat, j: nat | c <= i < j < c + m ensures g(i) != g(j) {
      Apart(p, i, j);
      assert Open(i) && Open(j);
    }
    forall v: nat | v < m ensures Taken(g, c, m, v) {
      var i := Meets(p, c, v);
      assert Open(i);
    }
  }

  /** Every walk meets a wanted value. */
  lemma WalkEnds(p: Net, g: nat -> nat, c: nat) returns (u: nat)
    requires Computes(p, g) && p.length > 0
    ensures u >= c && g(u) < p.length
  {
    u := Meets(p, c, 0);
    assert Open(u);
  }

  /** `step` returns at some time if and only if some value is wanted. */
  lemma StepEnds(p: Net, g: nat -> nat, c: nat)
    requires Computes(p, g)
    ensures (exists u: nat :: FirstHit(g, p.length, c, u)) <==> p.length > 0
  {
    if p.length > 0 {
      var u := WalkEnds(p, g, c);
      SomeHit(g, p.length, c, u);
    }
  }

  // ------------------------------------------------------------------ the generator as it is written

  /** The number of values of a range, in 32 bits. */
  function LengthOf(low: nat, high: nat): nat {
    ((high - low) % WORD + 1) % WORD
  }

  /** The full range has 2^32 values: none, in 32 bits. */
  lemma LengthIs(low: nat, high: nat)
    ensures LengthOf(low, high) == if (high - low) % WORD == WORD - 1 then 0 else (high - low) % WORD + 1
  {
    if (high - low) % WORD < WORD - 1 { SmallMod((high - low) % WORD + 1, WORD); }
  }

  /** What `m <<= 1` does to 1 when repeated `j` times in 32 bits. */
  function Shifted(j: nat): nat {
    if j == 0 then 1 else 2 * Shifted(j - 1) % WORD
  }

  lemma {:induction false} ShiftedIs(j: nat)
    ensures Shifted(j) == if j < 32 then Pow2(j) else 0
  {
    Pow2Of32();
    if j > 0 {
      ShiftedIs(j - 1);
      if j < 32 {
        Pow2Monotone(j, 31);
        SmallMod(Pow2(j), WORD);
      } else if j == 32 {
        DivIs(WORD, WORD, 1, 0);
      }
    }
  }

  lemma Pow2Of32()
    ensures Pow2(16) == 65536 && Pow2(31) == 0x8000_0000 && Pow2(32) == WORD
  {
    assert Pow2(8) == 256;
    Pow2Sum(8, 8);
    Pow2Sum(16, 15);
    assert Pow2(15) == 32768 by { Pow2Sum(8, 7); assert Pow2(7) == 128; }
    Pow2Sum(16, 16);
  }

  lemma ShiftsReach(n: nat)
    requires n < WORD
    ensures (exists j :: Shifted(j) >= n) <==> n <= 0x8000_0000
  {
    if n <= 0x8000_0000 {
      ShiftedIs(31);
      Pow2Of32();
      assert Shifted(31) >= n;
    } else {
      forall j: nat ensures Shifted(j) < n {
        ShiftedIs(j);
        Pow2Of32();
        if j < 32 { Pow2Monotone(j, 31); }
      }
    }
  }

  /** The loop that sizes the network ends if and only if the range has at most 2^31 values or all 2^32. */
  lemma SizingEnds(low: nat, high: nat)
    ensures (exists j :: Shifted(j) >= LengthOf(low, high)) <==>
      (high - low) % WORD < 0x8000_0000 || (high - low) % WORD == WORD - 1
  {
    LengthIs(low, high);
    ShiftsReach(LengthOf(low, high));
  }

  /** Sizing the network and then stepping it ends if and only if the range has at most 2^31 values: over
      the full range it is the steps that go on for ever. */
  lemma GeneratorEnds(low: nat, high: nat, p: Net, g: nat -> nat, c: nat)
    requires Computes(p, g) && p.length == LengthOf(low, high)
    ensures (exists j :: Shifted(j) >= p.length) && (exists u: nat :: FirstHit(g, p.length, c, u)) <==>
      (high - low) % WORD < 0x8000_0000
  {
    LengthIs(low, high);
    SizingEnds(low, high);
    StepEnds(p, g, c);
  }

  method PowOf(n: nat) returns (i: nat)
    requires n <= 0x8000_0000
    ensures i <= 31 && Pow2(i) >= n && (i > 0 ==> Pow2(i - 1) < n)
  {
    Pow2Of32();
    var m := 1;
    i := 0;
    while m < n
      invariant i <= 31 && m == Pow2(i) && (i > 0 ==> Pow2(i - 1) < n)
      decreases 31 - i
    {
      assert i < 31;
      Pow2Monotone(i + 1, 31);
      SmallMod(m * 2, WORD);
      m := m * 2 % WORD;
      i := i + 1;
    }
  }

  class Generator {
    const f: Prf
    var stepi: nat
    var length: nat
    var limit: nat
    var shift: nat
    var mask: nat
    var rounds: nat
    /** The number of values tried so far; `stepi` is this number in 32 bits. */
    ghost var tried: nat
    ghost const g: nat -> nat

    ghost function View(): Net
      reads this`shift, this`rounds, this`length
    {
      Net(f, shift, if rounds == 0 then 0 else rounds - 1, length)
    }

    /** The first value of the range. */
    ghost function Low(): nat
      reads this`limit, this`length
    {
      LowOf(limit, length)
    }

    ghost predicate Valid()
      reads this
    {
      && shift <= 16 && mask + 1 == Pow2(shift) && rounds >= 2
      && length <= Size(View()) && length <= 0x8000_0000 && limit < WORD
      && stepi == tried % WORD && Computes(View(), g)
    }

    /** `dns_k_permutor_init`; the round function stands for TEA with its random key. */
    constructor (f: Prf, low: nat, high: nat)
      requires low < WORD && high < WORD && LengthOf(low, high) <= 0x8000_0000
      ensures Valid() && this.f == f && length == LengthOf(low, high) && limit == high && Low() == low && tried == 0
    {
      this.f := f;
      stepi, tried := 0, 0;
      var n := LengthOf(low, high);
      length, limit := n, high;
      var width := PowOf(n);
      ghost var w := width;
      width := width + width % 2;
      var s := width / 2;
      shift, mask, rounds := s, Mask(s), 8;
      g := x => E(Net(f, s, 7, n), x);
      new;
      LowIs(low, high);
      assert Pow2(w) <= Size(View()) by { Pow2Monotone(w, s + s); }
    }

    /** The loop of `dns_k_permutor_E`: the two pairs of halves are used in turn. */
    method Forward(m: nat, l0: nat, r0: nat) returns (l: nat, r: nat)
      requires m > 0 && rounds >= 2
      ensures (l, r) == Rounds(f, m, l0, r0, rounds - 1)
    {
      var left, right := new nat[2], new nat[2];
      var i := 0;
      left[0], right[0] := l0, r0;
      while true
        invariant left != right && i < rounds - 1 && (left[i % 2], right[i % 2]) == Rounds(f, m, l0, r0, i)
        decreases rounds - i
      {
        Parity(i);
        left[(i + 1) % 2] := right[i % 2];
        right[(i + 1) % 2] := Xor(left[i % 2], f(i, right[i % 2]) % m);
        i := i + 1;
        if !(i < rounds - 1) { break; }
      }
      l, r := left[i % 2], right[i % 2];
    }

    /** The loop of `dns_k_permutor_D`. */
    method Backward(m: nat, l0: nat, r0: nat) returns (l: nat, r: nat)
      requires m > 0 && rounds >= 2
      ensures (l, r) == Unrounds(f, m, l0, r0, rounds - 1)
    {
      var left, right := new nat[2], new nat[2];
      var i := rounds - 1;
      left[i % 2], right[i % 2] := l0, r0;
      l, r := l0, r0;
      ghost var goal := Unrounds(f, m, l0, r0, rounds - 1);
      while true
        invariant left != right && left.Length == right.Length == 2
        invariant 0 < i <= rounds - 1 && left[i % 2] == l && right[i % 2] == r && Unrounds(f, m, l, r, i) == goal
        decreases i
      {
        i := i - 1;
        UnroundsStep(f, m, l, r, i);
        UndoRound(left, right, m, i);
        l, r := left[i % 2], right[i % 2];
        if !(i > 0) { break; }
      }
    }

    method UndoRound(left: array<nat>, right: array<nat>, m: nat, i: nat)
      requires left != right && left.Length == right.Length == 2 && m > 0
      modifies left, right
      ensures right[i % 2] == old(left[(i + 1) % 2])
      ensures left[i % 2] == Xor(old(right[(i + 1) % 2]), f(i, old(left[(i + 1) % 2])) % m)
    {
      Parity(i);
      right[i % 2] := left[(i + 1) % 2];
      left[i % 2] := Xor(right[(i + 1) % 2], f(i, left[(i + 1) % 2]) % m);
    }

    method Encrypt(n: nat) returns (x: nat)
      requires Valid()
      ensures x == E(View(), n)
    {
      var m := mask + 1;
      var l, r := Forward(m, n / m % m, n % m);
      JoinedE(View(), n, l, r);
      x := l % m * m + r % m;
    }

    method Decrypt(n: nat) returns (x: nat)
      requires Valid()
      ensures x == D(View(), n)
    {
      var m := mask + 1;
      var l, r := Backward(m, n / m % m, n % m);
      JoinedD(View(), n, l, r);
      x := l % m * m + r % m;
    }

    /** The image of the counter, which moves on. */
    method Next() returns (n: nat)
      requires Valid()
      modifies this`stepi, this`tried
      ensures Valid() && n == g(old(tried)) && tried == old(tried) + 1
    {
      assert Open(tried);
      CounterWraps(View(), tried);
      n := Encrypt(stepi);
      WrapNext(tried);
      stepi := (stepi + 1) % WORD;
      tried := tried + 1;
    }

    /** The next value of the range: that of the first counter with an image below its length. */
    method Step() returns (r: nat)
      requires Valid() && length > 0
      modifies this`stepi, this`tried
      ensures Valid() && tried > old(tried)
      ensures FirstHit(g, length, old(tried), tried - 1)
      ensures r == Lift(Low(), g(tried - 1))
    {
      ghost var c := tried;
      ghost var u := WalkEnds(View(), g, c);
      var n := 0;
      while true
        invariant Valid() && c <= tried <= u && NoHit(g, length, c, tried)
        decreases u - tried
      {
        TryOne(g, length, c, tried, u);
        n := Next();
        if !(n >= length) { break; }
      }
      r := Result(n);
    }

    method Result(n: nat) returns (r: nat)
      ensures r == Lift(Low(), n)
    {
      Onto(n, limit, length);
      r := (n + (limit + 1 - length)) % WORD;
    }

    /** As many calls of `Step` as the range has values return each value of the range once. */
    method Period() returns (s: seq<nat>)
      requires Valid() && length > 0
      modifies this`stepi, this`tried
      ensures Valid() && Lists(s, Low(), length)
    {
      ghost var c, low := tried, Low();
      ghost var us: seq<nat> := [];
      s := [];
      for i := 0 to length
        invariant Valid() && |us| == i && Returning(g, length, c, us, low, s) && tried == Onward(c, us)
      {
        var v := Step();
        ReturningMore(g, length, c, us, low, s, tried - 1);
        s, us := s + [v], us + [tried - 1];
      }
      assert low < WORD;
      NetPermutes(View(), g, c);
      EveryValueOnce(g, length, c, Size(View()), us);
      Returned(s, Images(g, us), low, length);
    }
  }

  function LowOf(limit: nat, length: nat): nat {
    (limit + 1 - length) % WORD
  }

  /** The value `d` places above `low`, in 32 bits. */
  function Lift(low: nat, d: nat): nat {
    (low + d) % WORD
  }

  lemma LowIs(low: nat, high: nat)
    requires low < WORD && high < WORD
    ensures LowOf(high, LengthOf(low, high)) == low
  {
    LengthIs(low, high);
    ModOf(high - low);
    ModOf(high + 1 - LengthOf(low, high));
  }

  /** The remainder of a number that is not far from the range. */
  lemma ModOf(x: int)
    requires -WORD <= x < 2 * WORD
    ensures x % WORD == if x < 0 then x + WORD else if x < WORD then x else x - WORD
  {
  }

  lemma Onto(n: nat, limit: nat, length: nat)
    ensures (n + (limit + 1 - length)) % WORD == Lift(LowOf(limit, length), n)
  {
    var x := limit + 1 - length;
    ModAdd(x % WORD + n, x / WORD, WORD);
  }

  /** What consecutive calls have returned when they stopped at `us`. */
  ghost predicate Returning(g: nat -> nat, len: nat, c: nat, us: seq<nat>, low: nat, s: seq<nat>) {
    Stops(g, len, c, us) && Raised(s, Images(g, us), low)
  }

  lemma ReturningMore(g: nat -> nat, len: nat, c: nat, us: seq<nat>, low: nat, s: seq<nat>, u: nat)
    requires Returning(g, len, c, us, low, s) && FirstHit(g, len, Onward(c, us), u)
    ensures Returning(g, len, c, us + [u], low, s + [Lift(low, g(u))]) && Onward(c, us + [u]) == u + 1
  {
    assert (us + [u])[..|us + [u]| - 1] == us;
  }

  ghost predicate Raised(s: seq<nat>, t: seq<nat>, low: nat) {
    |s| == |t| && forall j :: 0 <= j < |s| ==> s[j] == Lift(low, t[j])
  }

  /** Each of the `n` values from `low` on, going round at 2^32, is listed once, and nothing else is. */
  ghost predicate Lists(s: seq<nat>, low: nat, n: nat) {
    Distinct(s) && forall v: nat :: v in s <==> v < WORD && (v - low) % WORD < n
  }

  /** A range that does not go round. */
  lemma ListsPlain(s: seq<nat>, low: nat, high: nat)
    requires low <= high < WORD && Lists(s, low, high - low + 1)
    ensures forall v: nat :: v in s <==> low <= v <= high
  {
    forall v: nat ensures v in s <==> low <= v <= high {
      if v < WORD { ModOf(v - low); }
    }
  }

  lemma Returned(s: seq<nat>, t: seq<nat>, low: nat, n: nat)
    requires Raised(s, t, low) && Distinct(t) && (forall v: nat :: v in t <==> v < n) && n <= WORD && low < WORD
    ensures Lists(s, low, n)
  {
    forall j | 0 <= j < |s| ensures t[j] < n && s[j] < WORD && (s[j] - low) % WORD == t[j] {
      assert t[j] in t;
      Lowered(low, t[j]);
    }
    forall v: nat ensures v in s <==> v < WORD && (v - low) % WORD < n {
      RaisedIn(s, t, low, n, v);
    }
  }

  lemma RaisedIn(s: seq<nat>, t: seq<nat>, low: nat, n: nat, v: nat)
    requires Raised(s, t, low) && (forall v: nat :: v in t <==> v < n) && n <= WORD && low < WORD
    requires forall j :: 0 <= j < |s| ==> t[j] < n && s[j] < WORD && (s[j] - low) % WORD == t[j]
    ensures v in s <==> v < WORD && (v - low) % WORD < n
  {
    if v in s {
      var j :| 0 <= j < |s| && s[j] == v;
    }
    if v < WORD && (v - low) % WORD < n {
      var d := (v - low) % WORD;
      assert d in t;
      var j :| 0 <= j < |t| && t[j] == d;
      ModOf(v - low);
      ModOf(low + d);
      assert s[j] == v;
    }
  }

  /** The place of a value in the range. */
  lemma Lowered(low: nat, d: nat)
    requires low < WORD && d < WORD
    ensures (Lift(low, d) - low) % WORD == d
  {
    ModOf(low + d);
    ModOf((low + d) % WORD - low);
  }

  lemma Parity(i: nat)
    ensures (i + 1) % 2 == 1 - i % 2
  {
  }

  /** The halves fit their masks. */
  lemma JoinedE(p: Net, x: nat, l: nat, r: nat)
    requires (l, r) == Rounds(p.f, Pow2(p.k), x / Pow2(p.k) % Pow2(p.k), x % Pow2(p.k), p.n)
    ensures l % Pow2(p.k) * Pow2(p.k) + r % Pow2(p.k) == E(p, x)
  {
    RoundsBound(p.f, p.k, x / Pow2(p.k) % Pow2(p.k), x % Pow2(p.k), p.n);
    Masked(l, r, Pow2(p.k));
  }

  lemma JoinedD(p: Net, x: nat, l: nat, r: nat)
    requires (l, r) == Unrounds(p.f, Pow2(p.k), x / Pow2(p.k) % Pow2(p.k), x % Pow2(p.k), p.n)
    ensures l % Pow2(p.k) * Pow2(p.k) + r % Pow2(p.k) == D(p, x)
  {
    UnroundsBound(p.f, p.k, x / Pow2(p.k) % Pow2(p.k), x % Pow2(p.k), p.n);
    Masked(l, r, Pow2(p.k));
  }

  lemma Masked(l: nat, r: nat, m: nat)
    requires l < m && r < m
    ensures l % m == l && r % m == r
  {
    DivIs(l, m, 0, l);
    DivIs(r, m, 0, r);
  }

  function Mask(s: nat): nat {
    Pow2(s) - 1
  }

  lemma WrapNext(c: nat)
    ensures (c % WORD + 1) % WORD == (c + 1) % WORD
  {
  }

  lemma WordMultiple(k: nat) returns (z: nat)
    requires k <= 16
    ensures WORD == Pow2(k + k) * z
  {
    Pow2Sum(k + k, 32 - k - k);
    Pow2Of32();
    z := Pow2(32 - k - k);
  }

  /** The counter may wrap around at 2^32, which is a multiple of the period. */
  lemma CounterWraps(p: Net, c: nat)
    requires p.k <= 16
    ensures E(p, c % WORD) == E(p, c)
  {
    var z := WordMultiple(p.k);
    ModMod(c, WORD, Size(p), z);
    Residue(p, c % WORD, c);
  }
}
