/** The permutation box that shuffles nameservers. */
module Shuffle {
  import opened Marks
  import opened Powers
  import opened Bits

  /** The entry in column `c`. */
  function Pick(c: nat, v0: nat, v1: nat, v2: nat, v3: nat, v4: nat, v5: nat, v6: nat, v7: nat,
      v8: nat, v9: nat, v10: nat, v11: nat, v12: nat, v13: nat, v14: nat, v15: nat): nat
  {
    if c < 8 then
      if c < 4 then if c < 2 then if c == 0 then v0 else v1 else if c == 2 then v2 else v3
      else if c < 6 then if c == 4 then v4 else v5 else if c == 6 then v6 else v7
    else
      if c < 12 then if c < 10 then if c == 8 then v8 else v9 else if c == 10 then v10 else v11
      else if c < 14 then if c == 12 then v12 else v13 else if c == 14 then v14 else v15
  }

  /** The substitution table, 16 rows of 16 columns. */
  function Entry(r: nat, c: nat): nat {
    if r == 0 then
      Pick(c, 0x63, 0x7c, 0x77, 0x7b, 0xf2, 0x6b, 0x6f, 0xc5, 0x30, 0x01, 0x67, 0x2b, 0xfe, 0xd7, 0xab, 0x76)
    else if r == 1 then
      Pick(c, 0xca, 0x82, 0xc9, 0x7d, 0xfa, 0x59, 0x47, 0xf0, 0xad, 0xd4, 0xa2, 0xaf, 0x9c, 0xa4, 0x72, 0xc0)
    else if r == 2 then
      Pick(c, 0xb7, 0xfd, 0x93, 0x26, 0x36, 0x3f, 0xf7, 0xcc, 0x34, 0xa5, 0xe5, 0xf1, 0x71, 0xd8, 0x31, 0x15)
    else if r == 3 then
      Pick(c, 0x04, 0xc7, 0x23, 0xc3, 0x18, 0x96, 0x05, 0x9a, 0x07, 0x12, 0x80, 0xe2, 0xeb, 0x27, 0xb2, 0x75)
    else if r == 4 then
      Pick(c, 0x09, 0x83, 0x2c, 0x1a, 0x1b, 0x6e, 0x5a, 0xa0, 0x52, 0x3b, 0xd6, 0xb3, 0x29, 0xe3, 0x2f, 0x84)
    else if r == 5 then
      Pick(c, 0x53, 0xd1, 0x00, 0xed, 0x20, 0xfc, 0xb1, 0x5b, 0x6a, 0xcb, 0xbe, 0x39, 0x4a, 0x4c, 0x58, 0xcf)
    else if r == 6 then
      Pick(c, 0xd0, 0xef, 0xaa, 0xfb, 0x43, 0x4d, 0x33, 0x85, 0x45, 0xf9, 0x02, 0x7f, 0x50, 0x3c, 0x9f, 0xa8)
    else if r == 7 then
      Pick(c, 0x51, 0xa3, 0x40, 0x8f, 0x92, 0x9d, 0x38, 0xf5, 0xbc, 0xb6, 0xda, 0x21, 0x10, 0xff, 0xf3, 0xd2)
    else if r == 8 then
      Pick(c, 0xcd, 0x0c, 0x13, 0xec, 0x5f, 0x97, 0x44, 0x17, 0xc4, 0xa7, 0x7e, 0x3d, 0x64, 0x5d, 0x19, 0x73)
    else if r == 9 then
      Pick(c, 0x60, 0x81, 0x4f, 0xdc, 0x22, 0x2a, 0x90, 0x88, 0x46, 0xee, 0xb8, 0x14, 0xde, 0x5e, 0x0b, 0xdb)
    else if r == 10 then
      Pick(c, 0xe0, 0x32, 0x3a, 0x0a, 0x49, 0x06, 0x24, 0x5c, 0xc2, 0xd3, 0xac, 0x62, 0x91, 0x95, 0xe4, 0x79)
    else if r == 11 then
      Pick(c, 0xe7, 0xc8, 0x37, 0x6d, 0x8d, 0xd5, 0x4e, 0xa9, 0x6c, 0x56, 0xf4, 0xea, 0x65, 0x7a, 0xae, 0x08)
    else if r == 12 then
      Pick(c, 0xba, 0x78, 0x25, 0x2e, 0x1c, 0xa6, 0xb4, 0xc6, 0xe8, 0xdd, 0x74, 0x1f, 0x4b, 0xbd, 0x8b, 0x8a)
    else if r == 13 then
      Pick(c, 0x70, 0x3e, 0xb5, 0x66, 0x48, 0x03, 0xf6, 0x0e, 0x61, 0x35, 0x57, 0xb9, 0x86, 0xc1, 0x1d, 0x9e)
    else if r == 14 then
      Pick(c, 0xe1, 0xf8, 0x98, 0x11, 0x69, 0xd9, 0x8e, 0x94, 0x9b, 0x1e, 0x87, 0xe9, 0xce, 0x55, 0x28, 0xdf)
    else Pick(c, 0x8c, 0xa1, 0x89, 0x0d, 0xbf, 0xe6, 0x42, 0x68, 0x41, 0x99, 0x2d, 0x0f, 0xb0, 0x54, 0xbb, 0x16)
  }

  /** The inverse table. */
  function BackEntry(r: nat, c: nat): nat {
    if r == 0 then
      Pick(c, 0x52, 0x09, 0x6a, 0xd5, 0x30, 0x36, 0xa5, 0x38, 0xbf, 0x40, 0xa3, 0x9e, 0x81, 0xf3, 0xd7, 0xfb)
    else if r == 1 then
      Pick(c, 0x7c, 0xe3, 0x39, 0x82, 0x9b, 0x2f, 0xff, 0x87, 0x34, 0x8e, 0x43, 0x44, 0xc4, 0xde, 0xe9, 0xcb)
    else if r == 2 then
      Pick(c, 0x54, 0x7b, 0x94, 0x32, 0xa6, 0xc2, 0x23, 0x3d, 0xee, 0x4c, 0x95, 0x0b, 0x42, 0xfa, 0xc3, 0x4e)
    else if r == 3 then
      Pick(c, 0x08, 0x2e, 0xa1, 0x66, 0x28, 0xd9, 0x24, 0xb2, 0x76, 0x5b, 0xa2, 0x49, 0x6d, 0x8b, 0xd1, 0x25)
    else if r == 4 then
      Pick(c, 0x72, 0xf8, 0xf6, 0x64, 0x86, 0x68, 0x98, 0x16, 0xd4, 0xa4, 0x5c, 0xcc, 0x5d, 0x65, 0xb6, 0x92)
    else if r == 5 then
      Pick(c, 0x6c, 0x70, 0x48, 0x50, 0xfd, 0xed, 0xb9, 0xda, 0x5e, 0x15, 0x46, 0x57, 0xa7, 0x8d, 0x9d, 0x84)
    else if r == 6 then
      Pick(c, 0x90, 0xd8, 0xab, 0x00, 0x8c, 0xbc, 0xd3, 0x0a, 0xf7, 0xe4, 0x58, 0x05, 0xb8, 0xb3, 0x45, 0x06)
    else if r == 7 then
      Pick(c, 0xd0, 0x2c, 0x1e, 0x8f, 0xca, 0x3f, 0x0f, 0x02, 0xc1, 0xaf, 0xbd, 0x03, 0x01, 0x13, 0x8a, 0x6b)
    else if r == 8 then
      Pick(c, 0x3a, 0x91, 0x11, 0x41, 0x4f, 0x67, 0xdc, 0xea, 0x97, 0xf2, 0xcf, 0xce, 0xf0, 0xb4, 0xe6, 0x73)
    else if r == 9 then
      Pick(c, 0x96, 0xac, 0x74, 0x22, 0xe7, 0xad, 0x35, 0x85, 0xe2, 0xf9, 0x37, 0xe8, 0x1c, 0x75, 0xdf, 0x6e)
    else if r == 10 then
      Pick(c, 0x47, 0xf1, 0x1a, 0x71, 0x1d, 0x29, 0xc5, 0x89, 0x6f, 0xb7, 0x62, 0x0e, 0xaa, 0x18, 0xbe, 0x1b)
    else if r == 11 then
      Pick(c, 0xfc, 0x56, 0x3e, 0x4b, 0xc6, 0xd2, 0x79, 0x20, 0x9a, 0xdb, 0xc0, 0xfe, 0x78, 0xcd, 0x5a, 0xf4)
    else if r == 12 then
      Pick(c, 0x1f, 0xdd, 0xa8, 0x33, 0x88, 0x07, 0xc7, 0x31, 0xb1, 0x12, 0x10, 0x59, 0x27, 0x80, 0xec, 0x5f)
    else if r == 13 then
      Pick(c, 0x60, 0x51, 0x7f, 0xa9, 0x19, 0xb5, 0x4a, 0x0d, 0x2d, 0xe5, 0x7a, 0x9f, 0x93, 0xc9, 0x9c, 0xef)
    else if r == 14 then
      Pick(c, 0xa0, 0xe0, 0x3b, 0x4d, 0xae, 0x2a, 0xf5, 0xb0, 0xc8, 0xeb, 0xbb, 0x3c, 0x83, 0x53, 0x99, 0x61)
    else Pick(c, 0x17, 0x2b, 0x04, 0x7e, 0xba, 0x77, 0xd6, 0x26, 0xe1, 0x69, 0x14, 0x63, 0x55, 0x21, 0x0c, 0x7d)
  }

  function Sbox(x: nat): nat {
    Entry(x / 16, x % 16)
  }

  function Back(y: nat): nat {
    BackEntry(y / 16, y % 16)
  }

  lemma Row0(c: nat)
    requires c < 16
    ensures Entry(0, c) < 256 && Back(Entry(0, c)) == 0 + c
  {
  }

  lemma Row1(c: nat)
    requires c < 16
    ensures Entry(1, c) < 256 && Back(Entry(1, c)) == 16 + c
  {
  }

  lemma Row2(c: nat)
    requires c < 16
    ensures Entry(2, c) < 256 && Back(Entry(2, c)) == 32 + c
  {
  }

  lemma Row3(c: nat)
    requires c < 16
    ensures Entry(3, c) < 256 && Back(Entry(3, c)) == 48 + c
  {
  }

  lemma Row4(c: nat)
    requires c < 16
    ensures Entry(4, c) < 256 && Back(Entry(4, c)) == 64 + c
  {
  }

  lemma Row5(c: nat)
    requires c < 16
    ensures Entry(5, c) < 256 && Back(Entry(5, c)) == 80 + c
  {
  }

  lemma Row6(c: nat)
    requires c < 16
    ensures Entry(6, c) < 256 && Back(Entry(6, c)) == 96 + c
  {
  }

  lemma Row7(c: nat)
    requires c < 16
    ensures Entry(7, c) < 256 && Back(Entry(7, c)) == 112 + c
  {
  }

  lemma Row8(c: nat)
    requires c < 16
    ensures Entry(8, c) < 256 && Back(Entry(8, c)) == 128 + c
  {
  }

  lemma Row9(c: nat)
    requires c < 16
    ensures Entry(9, c) < 256 && Back(Entry(9, c)) == 144 + c
  {
  }

  lemma Row10(c: nat)
    requires c < 16
    ensures Entry(10, c) < 256 && Back(Entry(10, c)) == 160 + c
  {
  }

  lemma Row11(c: nat)
    requires c < 16
    ensures Entry(11, c) < 256 && Back(Entry(11, c)) == 176 + c
  {
  }

  lemma Row12(c: nat)
    requires c < 16
    ensures Entry(12, c) < 256 && Back(Entry(12, c)) == 192 + c
  {
  }

  lemma Row13(c: nat)
    requires c < 16
    ensures Entry(13, c) < 256 && Back(Entry(13, c)) == 208 + c
  {
  }

  lemma Row14(c: nat)
    requires c < 16
    ensures Entry(14, c) < 256 && Back(Entry(14, c)) == 224 + c
  {
  }

  lemma Row15(c: nat)
    requires c < 16
    ensures Entry(15, c) < 256 && Back(Entry(15, c)) == 240 + c
  {
  }

  /** The table is a permutation of the bytes. */
  lemma BackSbox(x: nat)
    requires x < 256
    ensures Sbox(x) < 256 && Back(Sbox(x)) == x
  {
    var r, c := x / 16, x % 16;
    if r < 8 {
      if r == 0 { Row0(c); } else if r == 1 { Row1(c); } else if r == 2 { Row2(c); } else if r == 3 { Row3(c); }
      else if r == 4 { Row4(c); } else if r == 5 { Row5(c); } else if r == 6 { Row6(c); } else { Row7(c); }
    } else {
      if r == 8 { Row8(c); } else if r == 9 { Row9(c); } else if r == 10 { Row10(c); } else if r == 11 { Row11(c); }
      else if r == 12 { Row12(c); } else if r == 13 { Row13(c); } else if r == 14 { Row14(c); } else { Row15(c); }
    }
  }

  // ------------------------------------------------------------------ the rounds, for any table

  ghost predicate Invertible(f: nat -> nat, g: nat -> nat) {
    forall x: nat :: x < 256 ==> f(x) < 256 && g(f(x)) == x
  }

  /** One round, with byte `t` of the seed. */
  function Turn(f: nat -> nat, a: nat, b: nat, t: nat): (nat, nat) {
    var a' := Xor(f(Xor(a, t)), b);
    (a', Xor(f(b), a'))
  }

  /** What `k` rounds `h` make of a pair, each with the next byte of the seed. */
  function Stir(h: ((nat, nat), nat) -> (nat, nat), p: (nat, nat), s: nat, k: nat): (nat, nat)
    decreases k, s
  {
    if k == 0 then p else Stir(h, h(p, s % 256), s / 256, k - 1)
  }

  /** Rounds that keep bytes apart. */
  ghost predicate Separates(h: ((nat, nat), nat) -> (nat, nat)) {
    && (forall p, t: nat :: Pair(p) && t < 256 ==> Pair(h(p, t)))
    && (forall p, q, t: nat :: Pair(p) && Pair(q) && t < 256 && h(p, t) == h(q, t) ==> p == q)
  }

  lemma ByteXor(x: nat, y: nat)
    requires x < 256 && y < 256
    ensures Xor(x, y) < 256
  {
    assert Pow2(8) == 256;
    XorBound(x, y, 8);
  }

  ghost predicate Pair(p: (nat, nat)) {
    p.0 < 256 && p.1 < 256
  }

  lemma TurnBound(f: nat -> nat, g: nat -> nat, p: (nat, nat), t: nat)
    requires Invertible(f, g) && Pair(p) && t < 256
    ensures Pair(Turn(f, p.0, p.1, t))
  {
    ByteXor(p.0, t);
    ByteXor(f(Xor(p.0, t)), p.1);
    ByteXor(f(p.1), Xor(f(Xor(p.0, t)), p.1));
  }

  lemma {:induction false} StirBound(h: ((nat, nat), nat) -> (nat, nat), p: (nat, nat), s: nat, k: nat)
    requires Separates(h) && Pair(p)
    ensures Pair(Stir(h, p, s, k))
    decreases k
  {
    if k > 0 { StirBound(h, h(p, s % 256), s / 256, k - 1); }
  }

  /** A round can be undone. */
  lemma TurnBack(f: nat -> nat, g: nat -> nat, a: nat, b: nat, t: nat)
    requires Invertible(f, g) && a < 256 && b < 256 && t < 256
    ensures var (a', b') := Turn(f, a, b, t); g(Xor(b', a')) == b && Xor(g(Xor(a', b)), t) == a
  {
    ByteXor(a, t);
    var a' := Xor(f(Xor(a, t)), b);
    XorCancels(f(b), a');
    XorCancels(f(Xor(a, t)), b);
    XorCancels(a, t);
  }

  lemma TurnInjective(f: nat -> nat, g: nat -> nat, p: (nat, nat), q: (nat, nat), t: nat)
    requires Invertible(f, g) && Pair(p) && Pair(q) && t < 256 && Turn(f, p.0, p.1, t) == Turn(f, q.0, q.1, t)
    ensures p == q
  {
    TurnBack(f, g, p.0, p.1, t);
    TurnBack(f, g, q.0, q.1, t);
  }

  lemma {:induction false} StirInjective(h: ((nat, nat), nat) -> (nat, nat), p: (nat, nat), q: (nat, nat), s: nat,
      k: nat)
    requires Separates(h) && Pair(p) && Pair(q) && Stir(h, p, s, k) == Stir(h, q, s, k)
    ensures p == q
    decreases k
  {
    if k > 0 { StirInjective(h, h(p, s % 256), h(q, s % 256), s / 256, k - 1); }
  }

  function Turning(f: nat -> nat): ((nat, nat), nat) -> (nat, nat) {
    (p: (nat, nat), t: nat) => Turn(f, p.0, p.1, t)
  }

  lemma TurningSeparates(f: nat -> nat, g: nat -> nat)
    requires Invertible(f, g)
    ensures Separates(Turning(f))
  {
    forall p: (nat, nat), t: nat | Pair(p) && t < 256 ensures Pair(Turning(f)(p, t)) {
      TurnBound(f, g, p, t);
    }
    forall p: (nat, nat), q: (nat, nat), t: nat | Pair(p) && Pair(q) && t < 256 && Turning(f)(p, t) == Turning(f)(q, t)
      ensures p == q {
      TurnInjective(f, g, p, q, t);
    }
  }

  // ------------------------------------------------------------------ shuffling 16-bit numbers

  function Halves(n: nat): (nat, nat) {
    (n % 256, n / 256 % 256)
  }

  function Joined(p: (nat, nat)): nat {
    p.0 * 256 + p.1
  }

  function Shuffled(f: nat -> nat, n: nat, s: nat): nat {
    Joined(Stir(Turning(f), Halves(n), s, 4))
  }

  lemma JoinedInjective(p: (nat, nat), q: (nat, nat))
    requires Pair(p) && Pair(q) && Joined(p) == Joined(q)
    ensures p == q
  {
  }

  lemma HalvesInjective(m: nat, n: nat)
    requires m < 0x1_0000 && n < 0x1_0000 && Halves(m) == Halves(n)
    ensures m == n
  {
  }

  /** For every seed the shuffle is injective. */
  lemma ShuffleInjective(f: nat -> nat, g: nat -> nat, m: nat, n: nat, s: nat)
    requires Invertible(f, g) && m < 0x1_0000 && n < 0x1_0000 && Shuffled(f, m, s) == Shuffled(f, n, s)
    ensures m == n
  {
    var h := Turning(f);
    TurningSeparates(f, g);
    StirBound(h, Halves(m), s, 4);
    StirBound(h, Halves(n), s, 4);
    JoinedInjective(Stir(h, Halves(m), s, 4), Stir(h, Halves(n), s, 4));
    StirInjective(h, Halves(m), Halves(n), s, 4);
    HalvesInjective(m, n);
  }

  lemma ShuffleBound(f: nat -> nat, g: nat -> nat, n: nat, s: nat)
    requires Invertible(f, g)
    ensures Shuffled(f, n, s) < 0x1_0000
  {
    TurningSeparates(f, g);
    StirBound(Turning(f), Halves(n), s, 4);
  }

  function Table(): nat -> nat {
    x => Sbox(x)
  }

  ghost function BackTable(): nat -> nat {
    y => Back(y)
  }

  lemma SboxInvertible()
    ensures Invertible(Table(), BackTable())
  {
    forall x: nat | x < 256 ensures Sbox(x) < 256 && Back(Sbox(x)) == x {
      BackSbox(x);
    }
  }

  /** `h` is the round that uses the table `f`; its definition is available to proofs that mention `Open`. */
  ghost predicate Turns(f: nat -> nat, h: ((nat, nat), nat) -> (nat, nat)) {
    forall x: nat {:trigger Open(x)} :: Open(x) ==> h == Turning(f)
  }

  method OneRound(f: nat -> nat, ghost h: ((nat, nat), nat) -> (nat, nat), a0: nat, b0: nat, t: nat)
    returns (a: nat, b: nat)
    requires Turns(f, h)
    ensures (a, b) == h((a0, b0), t)
  {
    assert Open(0);
    a := Xor(a0, t);
    a := Xor(f(a), b0);
    b := Xor(f(b0), a);
  }

  method FourRounds(f: nat -> nat, ghost h: ((nat, nat), nat) -> (nat, nat), n: nat, seed: nat) returns (r: nat)
    requires Turns(f, h)
    ensures r == Joined(Stir(h, Halves(n), seed, 4))
  {
    var a: nat, b: nat, s: nat := n % 256, n / 256 % 256, seed;
    var i := 0;
    while i < 4
      invariant i <= 4 && Stir(h, (a, b), s, 4 - i) == Stir(h, Halves(n), seed, 4)
    {
      StirStep(h, (a, b), s, 4 - i);
      a, b := OneRound(f, h, a, b, s % 256);
      s := s / 256;
      i := i + 1;
    }
    r := a * 256 + b;
  }

  /** `dns_k_shuffle16`, with any table. */
  method Shuffle16(f: nat -> nat, n: nat, seed: nat) returns (r: nat)
    ensures r == Shuffled(f, n, seed)
  {
    r := FourRounds(f, Turning(f), n, seed);
  }

  lemma StirStep(h: ((nat, nat), nat) -> (nat, nat), p: (nat, nat), s: nat, k: nat)
    requires k > 0
    ensures Stir(h, p, s, k) == Stir(h, h(p, s % 256), s / 256, k - 1)
  {
  }
}
