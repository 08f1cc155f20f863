/** SHA-1 as FIPS 180-4 defines it: padding (section 5.1.1), the functions and constants (sections
    4.1.1 and 4.2.1) and the computation over blocks with an 80-word schedule (section 6.1.2). Words
    are natural numbers below 2^32. */
module Sha1 {
  import opened Powers
  import opened Bits

  const WORD := 0x1_0000_0000

  type byte = x: nat | x < 256

  datatype Hash = Hash(a: nat, b: nat, c: nat, d: nat, e: nat)

  const INITIAL := Hash(0x67452301, 0xefcdab89, 0x98badcfe, 0x10325476, 0xc3d2e1f0)

  ghost predicate IsHash(h: Hash) {
    h.a < WORD && h.b < WORD && h.c < WORD && h.d < WORD && h.e < WORD
  }

  /** Rotation to the left: by 1, 5 and 30 places. */
  function Rotl1(x: nat): nat { Or(x * 2 % WORD, x / 0x8000_0000 % WORD) }
  function Rotl5(x: nat): nat { Or(x * 32 % WORD, x / 0x800_0000 % WORD) }
  function Rotl30(x: nat): nat { Or(x * 0x4000_0000 % WORD, x / 4 % WORD) }

  function Ch(x: nat, y: nat, z: nat): nat { Xor(And(x, y), And(Complement(x), z)) }
  function Parity(x: nat, y: nat, z: nat): nat { Xor(Xor(x, y), z) }
  function Maj(x: nat, y: nat, z: nat): nat { Xor(Xor(And(x, y), And(x, z)), And(y, z)) }

  function Complement(x: nat): nat { if x < WORD then WORD - 1 - x else 0 }

  function F(t: nat, x: nat, y: nat, z: nat): nat {
    if t < 20 then Ch(x, y, z) else if t < 40 then Parity(x, y, z) else if t < 60 then Maj(x, y, z) else Parity(x, y, z)
  }

  function K(t: nat): nat {
    if t < 20 then 0x5a827999 else if t < 40 then 0x6ed9eba1 else if t < 60 then 0x8f1bbcdc else 0xca62c1d6
  }

  type Block = s: seq<nat> | |s| == 16 witness seq(16, _ => 0)

  /** The message schedule. */
  function W(m: Block, t: nat): nat {
    if t < 16 then m[t] else Rotl1(Xor(Xor(Xor(W(m, t - 3), W(m, t - 8)), W(m, t - 14)), W(m, t - 16)))
  }

  function Round(t: nat, w: nat, h: Hash): Hash {
    Hash((Rotl5(h.a) + F(t, h.b, h.c, h.d) + h.e + K(t) + w) % WORD, h.a, Rotl30(h.b), h.c, h.d)
  }

  /** The working variables after `t` rounds. */
  function Rounds(m: Block, h: Hash, t: nat): Hash {
    if t == 0 then h else Round(t - 1, W(m, t - 1), Rounds(m, h, t - 1))
  }

  function Sum(x: Hash, y: Hash): Hash {
    Hash((x.a + y.a) % WORD, (x.b + y.b) % WORD, (x.c + y.c) % WORD, (x.d + y.d) % WORD, (x.e + y.e) % WORD)
  }

  function Compress(m: Block, h: Hash): Hash {
    Sum(h, Rounds(m, h, 80))
  }

  /** A word from four bytes, the first being the most significant. */
  function Word(x: nat, y: nat, z: nat, u: nat): nat {
    x * 0x100_0000 + y * 0x1_0000 + z * 0x100 + u
  }

  function WordAt(d: seq<byte>, i: nat): nat
    requires 4 * i + 3 < |d|
  {
    Word(d[4 * i], d[4 * i + 1], d[4 * i + 2], d[4 * i + 3])
  }

  function Words(d: seq<byte>): Block
    requires |d| == 64
  {
    seq(16, i requires 0 <= i < 16 => WordAt(d, i))
  }

  /** The hash of padded data. */
  function Digest(d: seq<byte>): Hash
    requires |d| % 64 == 0
  {
    if |d| == 0 then INITIAL else Compress(Words(d[|d| - 64..]), Digest(d[..|d| - 64]))
  }

  /** The 64-bit big-endian length. */
  function Length64(bits: nat): (r: seq<byte>)
    ensures |r| == 8
  {
    [bits / 0x100_0000_0000_0000 % 256, bits / 0x1_0000_0000_0000 % 256, bits / 0x100_0000_0000 % 256,
     bits / 0x1_0000_0000 % 256, bits / 0x100_0000 % 256, bits / 0x1_0000 % 256, bits / 0x100 % 256, bits % 256]
  }

  /** The number of zero bytes between the bit that ends the message and its length. */
  function Gap(n: nat): (z: nat)
    ensures z < 64 && (n + 1 + z) % 64 == 56 && (n + z + 9) % 64 == 0
  {
    (119 - n % 64) % 64
  }

  function Zeros(n: nat): (r: seq<byte>)
    ensures |r| == n
  {
    if n == 0 then [] else Zeros(n - 1) + [0]
  }

  function Pad(m: seq<byte>): (p: seq<byte>)
    ensures |p| % 64 == 0
  {
    var p: seq<byte> := m + [0x80] + Zeros(Gap(|m|)) + Length64(8 * |m|);
    assert |p| == |m| + Gap(|m|) + 9;
    p
  }

  /** Byte `k` of a word, byte 0 being the most significant. */
  function ByteOf(w: nat, k: nat): byte {
    if k == 0 then w / 0x100_0000 % 256
    else if k == 1 then w / 0x1_0000 % 256
    else if k == 2 then w / 0x100 % 256
    else w % 256
  }

  function WordBytes(w: nat): seq<byte> {
    [ByteOf(w, 0), ByteOf(w, 1), ByteOf(w, 2), ByteOf(w, 3)]
  }

  function Bytes(h: Hash): seq<byte> {
    WordBytes(h.a) + WordBytes(h.b) + WordBytes(h.c) + WordBytes(h.d) + WordBytes(h.e)
  }

  /** The message digest. */
  function DigestOf(m: seq<byte>): seq<byte> {
    Bytes(Digest(Pad(m)))
  }

  // ------------------------------------------------------------------ words and bytes

  /** The word with byte `k` replaced. */
  function SetByte(w: nat, k: nat, x: byte): nat {
    Word(if k == 0 then x else ByteOf(w, 0), if k == 1 then x else ByteOf(w, 1),
      if k == 2 then x else ByteOf(w, 2), if k == 3 then x else ByteOf(w, 3))
  }

  lemma BytesOfWord(x: byte, y: byte, z: byte, u: byte)
    ensures var w := Word(x, y, z, u);
      w < WORD && ByteOf(w, 0) == x && ByteOf(w, 1) == y && ByteOf(w, 2) == z && ByteOf(w, 3) == u
  {
    var w := Word(x, y, z, u);
    DivIs(w, 0x100_0000, x, y * 0x1_0000 + z * 0x100 + u);
    DivIs(w, 0x1_0000, x * 256 + y, z * 0x100 + u);
    DivIs(w, 0x100, x * 0x1_0000 + y * 256 + z, u);
    DivIs(x * 256 + y, 256, x, y);
    DivIs(x * 0x1_0000 + y * 256 + z, 256, x * 256 + y, z);
  }

  lemma SetByteIs(w: nat, k: nat, x: byte, j: nat)
    requires k < 4 && j < 4
    ensures SetByte(w, k, x) < WORD && ByteOf(SetByte(w, k, x), j) == if j == k then x else ByteOf(w, j)
  {
    BytesOfWord(if k == 0 then x else ByteOf(w, 0), if k == 1 then x else ByteOf(w, 1),
      if k == 2 then x else ByteOf(w, 2), if k == 3 then x else ByteOf(w, 3));
  }

  lemma WordOfBytes(w: nat)
    requires w < WORD
    ensures Word(ByteOf(w, 0), ByteOf(w, 1), ByteOf(w, 2), ByteOf(w, 3)) == w
  {
    DivIs(w / 0x1_0000, 256, w / 0x100_0000, w / 0x1_0000 % 256);
    DivIs(w / 0x100, 256, w / 0x1_0000, w / 0x100 % 256);
  }

  /** The word with its bytes in reverse order. */
  function Swap(w: nat): nat {
    Word(ByteOf(w, 3), ByteOf(w, 2), ByteOf(w, 1), ByteOf(w, 0))
  }

  // ------------------------------------------------------------------ the source's forms of the functions

  lemma Pow32()
    ensures Pow2(32) == WORD
  {
    assert Pow2(8) == 256;
    Pow2Sum(8, 8);
    Pow2Sum(16, 16);
  }

  lemma ChForm(x: nat, y: nat, z: nat)
    requires x < WORD && y < WORD && z < WORD
    ensures Xor(z, And(x, Xor(y, z))) == Ch(x, y, z)
  {
    Pow32();
    Choose(32, x, y, z);
  }

  lemma MajForm(x: nat, y: nat, z: nat)
    requires x < WORD && y < WORD && z < WORD
    ensures Or(And(x, y), And(z, Or(x, y))) == Maj(x, y, z)
  {
    Pow32();
    Majority(32, x, y, z);
  }

  /** The order of additions does not matter. */
  lemma SumForm(f: nat, k: nat, r: nat, e: nat, w: nat)
    ensures ((f + k) % WORD + ((r + e) % WORD + w) % WORD) % WORD == (r + f + e + k + w) % WORD
  {
  }

  lemma Rotl30Bound(x: nat)
    ensures Rotl30(x) < WORD
  {
    Pow32();
    OrBound(x * 0x4000_0000 % WORD, x / 4 % WORD, 32);
  }

  lemma {:induction false} RoundsBound(m: Block, h: Hash, t: nat)
    requires IsHash(h)
    ensures IsHash(Rounds(m, h, t))
  {
    if t > 0 {
      RoundsBound(m, h, t - 1);
      Rotl30Bound(Rounds(m, h, t - 1).b);
    }
  }
}
