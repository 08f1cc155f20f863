/** Powers of two. */
module Powers {
  function Pow2(n: nat): (r: nat)
    ensures r >= 1
  {
    if n == 0 then 1 else 2 * Pow2(n - 1)
  }

  lemma {:induction false} Pow2Monotone(m: nat, n: nat)
    requires m <= n
    ensures Pow2(m) <= Pow2(n)
  {
    if m < n { Pow2Monotone(m, n - 1); }
  }

  lemma {:induction false} Pow2Sum(m: nat, n: nat)
    ensures Pow2(m + n) == Pow2(m) * Pow2(n)
  {
    if m > 0 {
      Pow2Sum(m - 1, n);
      assert Pow2(m + n) == 2 * Pow2(m - 1 + n);
    }
  }

  lemma MulMonotone(a: nat, b: nat)
    requires a <= b
    ensures a * a <= b * b
  {
    assert a * a <= a * b <= b * b;
  }

  lemma MulStep(a: nat, b: nat, m: nat)
    requires a < b
    ensures a * m + m <= b * m
  {
    var d := b - a - 1;
    assert b * m == (a + 1 + d) * m == a * m + m + d * m;
  }

  /** Quotient and remainder are unique. */
  lemma DivUnique(q: nat, r: nat, q': nat, r': nat, m: nat)
    requires r < m && r' < m && q * m + r == q' * m + r'
    ensures q == q' && r == r'
  {
    if q < q' {
      MulStep(q, q', m);
    } else if q' < q {
      MulStep(q', q, m);
    }
  }

  lemma DivIs(x: nat, m: nat, q: nat, r: nat)
    requires m > 0 && x == q * m + r && r < m
    ensures x / m == q && x % m == r
  {
    DivUnique(x / m, x % m, q, r, m);
  }

  /** Adding a multiple of the divisor does not change the remainder. */
  lemma ModAdd(x: int, q: int, m: int)
    requires m > 0
    ensures (x + q * m) % m == x % m
  {
    var a := x + q * m;
    var d := a / m - q - x / m;
    assert d * m == (a / m) * m - q * m - (x / m) * m;
    assert d * m == x % m - a % m;
    MultipleSize(d, m);
  }

  lemma MultipleSize(d: int, m: nat)
    ensures d >= 1 ==> d * m >= m
    ensures d <= -1 ==> d * m + m <= 0
  {
    if d >= 1 {
      MulStep(0, d, m);
    } else if d <= -1 {
      MulStep(0, -d, m);
      assert (-d) * m == -(d * m);
    }
  }

  /** Numbers less than m apart have different remainders. */
  lemma DifferentResidues(i: nat, j: nat, m: nat)
    requires i < j < i + m
    ensures i % m != j % m
  {
    var d, q, r := j - i, i / m, i % m;
    if r + d < m {
      DivIs(j, m, q, r + d);
    } else {
      assert j == (q + 1) * m + (r + d - m);
      DivIs(j, m, q + 1, r + d - m);
    }
  }

  lemma SmallMod(x: nat, m: nat)
    requires x < m
    ensures x % m == x && x / m == 0
  {
    DivIs(x, m, 0, x);
  }

  /** Remainders by a divisor of w may be taken after those by w. */
  lemma ModMod(c: nat, w: nat, m: nat, z: nat)
    requires m > 0 && w > 0 && w == m * z
    ensures (c % w) % m == c % m
  {
    var q, r := c / w, c % w;
    assert c == q * w + r;
    assert q * w == (q * z) * m;
    ModAdd(r, q * z, m);
  }
}
