/** Exclusive or of natural numbers, bit by bit. */
module Bits {
  import opened Powers

  function BitXor(x: nat, y: nat): nat {
    if x % 2 == y % 2 then 0 else 1
  }

  function Xor(x: nat, y: nat): nat {
    if x == 0 && y == 0 then 0 else BitXor(x, y) + 2 * Xor(x / 2, y / 2)
  }

  /** The lowest bit and the others. */
  lemma XorBits(x: nat, y: nat)
    ensures Xor(x, y) % 2 == BitXor(x, y) && Xor(x, y) / 2 == Xor(x / 2, y / 2)
  {
    if x == 0 && y == 0 {
      assert Xor(0, 0) == 0;
    } else {
      DivIs(Xor(x, y), 2, Xor(x / 2, y / 2), BitXor(x, y));
    }
  }

  lemma {:induction false} XorCancels(x: nat, y: nat)
    ensures Xor(Xor(x, y), y) == x
  {
    if x != 0 || y != 0 {
      XorCancels(x / 2, y / 2);
      var z := Xor(x, y);
      XorBits(x, y);
      XorBits(z, y);
      assert BitXor(z, y) == x % 2;
    }
  }

  lemma {:induction false} XorBound(x: nat, y: nat, k: nat)
    requires x < Pow2(k) && y < Pow2(k)
    ensures Xor(x, y) < Pow2(k)
    decreases k
  {
    if x != 0 || y != 0 {
      XorBound(x / 2, y / 2, k - 1);
    }
  }

  lemma {:induction false} XorZero(x: nat)
    ensures Xor(x, 0) == x
  {
    if x > 0 { XorZero(x / 2); }
  }

  lemma XorOne(x: nat)
    ensures Xor(x, 1) == x / 2 * 2 + (1 - x % 2)
  {
    XorZero(x / 2);
    assert Xor(x, 1) == BitXor(x, 1) + 2 * Xor(x / 2, 0);
  }

  /** Exclusive or with 3 mirrors the place of a byte within its word. */
  lemma XorThree(x: nat)
    ensures Xor(x, 3) == x / 4 * 4 + (3 - x % 4)
  {
    XorOne(x / 2);
    assert Xor(x, 3) == BitXor(x, 3) + 2 * Xor(x / 2, 1);
    HalfTwice(x);
  }

  lemma HalfTwice(x: nat)
    ensures x / 2 / 2 == x / 4 && x % 4 == x / 2 % 2 * 2 + x % 2
  {
  }

  // ------------------------------------------------------------------ and, or, not

  function BitAnd(x: nat, y: nat): nat {
    if x % 2 == 1 && y % 2 == 1 then 1 else 0
  }

  function And(x: nat, y: nat): nat {
    if x == 0 || y == 0 then 0 else BitAnd(x, y) + 2 * And(x / 2, y / 2)
  }

  function BitOr(x: nat, y: nat): nat {
    if x % 2 == 0 && y % 2 == 0 then 0 else 1
  }

  function Or(x: nat, y: nat): nat {
    if x == 0 && y == 0 then 0 else BitOr(x, y) + 2 * Or(x / 2, y / 2)
  }

  /** The complement in `n` bits. */
  function Not(n: nat, x: nat): nat
    requires x < Pow2(n)
  {
    Pow2(n) - 1 - x
  }

  lemma AndBits(x: nat, y: nat)
    ensures And(x, y) % 2 == BitAnd(x, y) && And(x, y) / 2 == And(x / 2, y / 2)
  {
    if x == 0 || y == 0 {
      assert And(x, y) == 0 && And(x / 2, y / 2) == 0;
    } else {
      DivIs(And(x, y), 2, And(x / 2, y / 2), BitAnd(x, y));
    }
  }

  lemma OrBits(x: nat, y: nat)
    ensures Or(x, y) % 2 == BitOr(x, y) && Or(x, y) / 2 == Or(x / 2, y / 2)
  {
    if x == 0 && y == 0 {
      assert Or(0, 0) == 0;
    } else {
      DivIs(Or(x, y), 2, Or(x / 2, y / 2), BitOr(x, y));
    }
  }

  lemma NotBits(n: nat, x: nat)
    requires n > 0 && x < Pow2(n)
    ensures x / 2 < Pow2(n - 1) && Not(n, x) % 2 == 1 - x % 2 && Not(n, x) / 2 == Not(n - 1, x / 2)
  {
    DivIs(Not(n, x), 2, Not(n - 1, x / 2), 1 - x % 2);
  }

  lemma {:induction false} OrBound(x: nat, y: nat, k: nat)
    requires x < Pow2(k) && y < Pow2(k)
    ensures Or(x, y) < Pow2(k)
    decreases k
  {
    if x != 0 || y != 0 {
      OrBound(x / 2, y / 2, k - 1);
    }
  }

  /** Numbers with the same lowest bit and the same other bits. */
  lemma SameBits(x: nat, y: nat)
    requires x % 2 == y % 2 && x / 2 == y / 2
    ensures x == y
  {
  }

  /** Choosing by the bits of `x`. */
  lemma {:induction false} Choose(n: nat, x: nat, y: nat, z: nat)
    requires x < Pow2(n) && y < Pow2(n) && z < Pow2(n)
    ensures Xor(z, And(x, Xor(y, z))) == Xor(And(x, y), And(Not(n, x), z))
    decreases n
  {
    if n > 0 {
      NotBits(n, x);
      Choose(n - 1, x / 2, y / 2, z / 2);
      XorBits(y, z);
      AndBits(x, Xor(y, z));
      XorBits(z, And(x, Xor(y, z)));
      AndBits(x, y);
      AndBits(Not(n, x), z);
      XorBits(And(x, y), And(Not(n, x), z));
      SameBits(Xor(z, And(x, Xor(y, z))), Xor(And(x, y), And(Not(n, x), z)));
    }
  }

  /** The bits that most of the three have. */
  lemma {:induction false} Majority(n: nat, x: nat, y: nat, z: nat)
    requires x < Pow2(n) && y < Pow2(n) && z < Pow2(n)
    ensures Or(And(x, y), And(z, Or(x, y))) == Xor(Xor(And(x, y), And(x, z)), And(y, z))
    decreases n
  {
    if n > 0 {
      Majority(n - 1, x / 2, y / 2, z / 2);
      OrBits(x, y);
      AndBits(z, Or(x, y));
      AndBits(x, y);
      AndBits(x, z);
      AndBits(y, z);
      OrBits(And(x, y), And(z, Or(x, y)));
      XorBits(And(x, y), And(x, z));
      XorBits(Xor(And(x, y), And(x, z)), And(y, z));
      SameBits(Or(And(x, y), And(z, Or(x, y))), Xor(Xor(And(x, y), And(x, z)), And(y, z)));
    }
  }
}
