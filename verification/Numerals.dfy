/** Numbers and their digits. */
module Numerals {
  import opened Powers

  /** The number with the given digits, the first being the most significant. */
  function Num(base: nat, s: seq<nat>): nat {
    if s == [] then 0 else Num(base, s[..|s| - 1]) * base + s[|s| - 1]
  }

  ghost predicate Digits(base: nat, s: seq<nat>) {
    forall i :: 0 <= i < |s| ==> s[i] < base
  }

  lemma NumMore(base: nat, s: seq<nat>, d: nat)
    ensures Num(base, s + [d]) == Num(base, s) * base + d
  {
    assert (s + [d])[..|s|] == s;
  }

  /** Digits are determined by their number and the value they stand for. */
  lemma {:induction false} NumInjective(base: nat, s: seq<nat>, t: seq<nat>)
    requires Digits(base, s) && Digits(base, t) && |s| == |t| && Num(base, s) == Num(base, t)
    ensures s == t
  {
    if s != [] {
      var n := |s| - 1;
      DivUnique(Num(base, s[..n]), s[n], Num(base, t[..n]), t[n], base);
      NumInjective(base, s[..n], t[..n]);
      assert s == s[..n] + [s[n]] && t == t[..n] + [t[n]];
    }
  }

  lemma Distribute(q: nat, m: nat, r: nat, n: nat)
    ensures (q * m + r) * n == q * (m * n) + r * n
  {
  }

  lemma Positive(m: nat, n: nat)
    requires m > 0 && n > 0
    ensures m * n > 0
  {
    MulStep(0, m, n);
  }

  /** A digit below `n` joins on the right: the lowest part becomes longer by it. */
  lemma LowShift(v: nat, m: nat, n: nat, d: nat)
    requires m > 0 && d < n
    ensures m * n > 0 && (v * n + d) % (m * n) == v % m * n + d
  {
    Positive(m, n);
    var q, r := v / m, v % m;
    Distribute(q, m, r, n);
    MulStep(r, m, n);
    DivIs(v * n + d, m * n, q, r * n + d);
  }

  /** The same in an accumulator of `m * n * z` values. */
  lemma ShiftIn(v: nat, m: nat, n: nat, d: nat, w: nat, z: nat)
    requires m > 0 && d < n && w > 0 && w == m * n * z
    ensures m * n > 0 && (v * n + d) % w % (m * n) == v % m * n + d
  {
    LowShift(v, m, n, d);
    ModMod(v * n + d, w, m * n, z);
  }

  /** The digit above the lowest part. */
  lemma TakeOut(v: nat, m: nat, n: nat)
    requires m > 0 && n > 0
    ensures n * m > 0 && v % (n * m) == v / m % n * m + v % m
  {
    Positive(n, m);
    var q, r := v / m, v % m;
    TwoDigits(v, m, n, q, r, q / n, q % n);
  }

  lemma TwoDigits(v: nat, m: nat, n: nat, q: nat, r: nat, p: nat, d: nat)
    requires v == q * m + r && q == p * n + d && r < m && d < n
    ensures n * m > 0 && v % (n * m) == d * m + r
  {
    Positive(n, m);
    Distribute(p, n, d, m);
    MulStep(d, n, m);
    DivIs(v, n * m, p, d * m + r);
  }
}
