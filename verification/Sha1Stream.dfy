/** SHA-1 one byte at a time, with a schedule of 16 words that is overwritten in place. */
module Sha1Stream {
  import opened Marks
  import opened Powers
  import opened Bits
  import opened Sha1

  // ------------------------------------------------------------------ the schedule

  function Low(i: nat): nat {
    if i < 16 then 0 else i - 16
  }

  /** Word `j` of the schedule is at its place in the circle. */
  ghost predicate Slot(b: seq<nat>, m: Block, j: nat) {
    |b| == 16 && b[j % 16] == W(m, j)
  }

  /** The 16 words that are needed from round `i` on are there. */
  ghost predicate Window(b: seq<nat>, m: Block, i: nat) {
    |b| == 16 && forall j: nat :: Low(i) <= j < Low(i) + 16 ==> Slot(b, m, j)
  }

  lemma WindowStarts(m: Block)
    ensures Window(m, m, 0)
  {
  }

  lemma SlotAt(b: seq<nat>, m: Block, i: nat, j: nat, k: nat)
    requires Window(b, m, i) && Low(i) <= j < Low(i) + 16 && k == j % 16
    ensures b[k] == W(m, j)
  {
    assert Slot(b, m, j);
  }

  lemma Places(i: nat)
    requires i >= 16
    ensures (i + 13) % 16 == (i - 3) % 16 && (i + 8) % 16 == (i - 8) % 16 && (i + 2) % 16 == (i - 14) % 16 &&
      i % 16 == (i - 16) % 16
  {
    Around(i - 3);
    Around(i - 8);
    Around(i - 14);
    Around(i - 16);
  }

  lemma Around(j: nat)
    ensures (j + 16) % 16 == j % 16
  {
    ModAdd(j, 1, 16);
  }

  lemma Scheduled(m: Block, i: nat, x: nat, y: nat, z: nat, u: nat)
    requires i >= 16 && x == W(m, i - 3) && y == W(m, i - 8) && z == W(m, i - 14) && u == W(m, i - 16)
    ensures W(m, i) == Rotl1(Xor(Xor(Xor(x, y), z), u))
  {
  }

  /** The word that comes next, from the words in the circle. */
  lemma NextWord(b: seq<nat>, m: Block, i: nat)
    requires Window(b, m, i) && i >= 16
    ensures Rotl1(Xor(Xor(Xor(b[(i + 13) % 16], b[(i + 8) % 16]), b[(i + 2) % 16]), b[i % 16])) == W(m, i)
  {
    Places(i);
    SlotAt(b, m, i, i - 3, (i + 13) % 16);
    SlotAt(b, m, i, i - 8, (i + 8) % 16);
    SlotAt(b, m, i, i - 14, (i + 2) % 16);
    SlotAt(b, m, i, i - 16, i % 16);
    Scheduled(m, i, b[(i + 13) % 16], b[(i + 8) % 16], b[(i + 2) % 16], b[i % 16]);
  }

  lemma Residues(i: nat, j: nat)
    requires i < j < i + 16
    ensures i % 16 != j % 16
  {
  }

  /** It replaces the oldest one. */
  lemma WindowMoves(b: seq<nat>, m: Block, i: nat, w: nat)
    requires Window(b, m, i) && i >= 16 && w == W(m, i)
    ensures Window(b[i % 16 := w], m, i + 1)
  {
    var now := b[i % 16 := w];
    forall j: nat | Low(i + 1) <= j < Low(i + 1) + 16 ensures Slot(now, m, j) {
      if j < i {
        Residues(j, i);
        assert Slot(b, m, j);
      }
    }
  }

  lemma WindowStays(b: seq<nat>, m: Block, i: nat)
    requires Window(b, m, i) && i < 16
    ensures Window(b, m, i + 1) && b[i % 16] == W(m, i)
  {
    assert Slot(b, m, i);
  }

  /** The word of round `i`. */
  method Schedule(buffer: array<nat>, i: nat, ghost m: Block) returns (w: nat)
    requires Window(buffer[..], m, i)
    modifies buffer
    ensures Window(buffer[..], m, i + 1) && w == W(m, i)
  {
    if i >= 16 {
      NextWord(buffer[..], m, i);
      WindowMoves(buffer[..], m, i, W(m, i));
      var t := Xor(Xor(Xor(buffer[(i + 13) % 16], buffer[(i + 8) % 16]), buffer[(i + 2) % 16]), buffer[i % 16]);
      buffer[i % 16] := Rotl1(t);
    } else {
      WindowStays(buffer[..], m, i);
    }
    w := buffer[i % 16];
  }

  // ------------------------------------------------------------------ rounds

  /** The function and the constant of a round, as the source has them. */
  function Mix(i: nat, b: nat, c: nat, d: nat): nat {
    if i < 20 then (Xor(d, And(b, Xor(c, d))) + 0x5a827999) % WORD
    else if i < 40 then (Xor(Xor(b, c), d) + 0x6ed9eba1) % WORD
    else if i < 60 then (Or(And(b, c), And(d, Or(b, c))) + 0x8f1bbcdc) % WORD
    else (Xor(Xor(b, c), d) + 0xca62c1d6) % WORD
  }

  lemma MixIs(i: nat, b: nat, c: nat, d: nat)
    requires b < WORD && c < WORD && d < WORD
    ensures Mix(i, b, c, d) == (F(i, b, c, d) + K(i)) % WORD
  {
    ChForm(b, c, d);
    MajForm(b, c, d);
  }

  lemma RoundIs(i: nat, w: nat, h: Hash)
    requires IsHash(h)
    ensures Round(i, w, h) ==
      Hash((Mix(i, h.b, h.c, h.d) + ((Rotl5(h.a) + h.e) % WORD + w) % WORD) % WORD, h.a, Rotl30(h.b), h.c, h.d)
  {
    MixIs(i, h.b, h.c, h.d);
    SumForm(F(i, h.b, h.c, h.d), K(i), Rotl5(h.a), h.e, w);
  }

  lemma NextRound(m: Block, h: Hash, i: nat)
    requires IsHash(h)
    ensures IsHash(Rounds(m, h, i))
    ensures Rounds(m, h, i + 1) == Round(i, W(m, i), Rounds(m, h, i))
  {
    RoundsBound(m, h, i);
  }

  method RunRounds(buffer: array<nat>, h: Hash) returns (r: Hash)
    requires buffer.Length == 16 && IsHash(h)
    modifies buffer
    ensures r == Rounds(old(buffer[..]), h, 80)
  {
    ghost var m: Block := buffer[..];
    WindowStarts(m);
    var a: nat, b: nat, c: nat, d: nat, e: nat := h.a, h.b, h.c, h.d, h.e;
    for i := 0 to 80
      invariant Window(buffer[..], m, i) && Hash(a, b, c, d, e) == Rounds(m, h, i)
    {
      var w := Schedule(buffer, i, m);
      NextRound(m, h, i);
      RoundIs(i, w, Hash(a, b, c, d, e));
      var t := Mix(i, b, c, d);
      t := (t + ((Rotl5(a) + e) % WORD + w) % WORD) % WORD;
      e := d;
      d := c;
      c := Rotl30(b);
      b := a;
      a := t;
    }
    r := Hash(a, b, c, d, e);
  }

  // ------------------------------------------------------------------ bytes in the buffer

  /** The byte with index `j` of a block, counted from the most significant byte of the first word. */
  ghost predicate Stored(b: seq<nat>, j: nat, x: byte) {
    j / 4 < |b| && b[j / 4] < WORD && ByteOf(b[j / 4], j % 4) == x
  }

  /** The buffer holds the bytes `p`. */
  ghost predicate Holds(b: seq<nat>, p: seq<byte>) {
    |b| == 16 && |p| <= 64 && forall j: nat :: j < |p| ==> Stored(b, j, p[j])
  }

  lemma HoldsMore(b: seq<nat>, p: seq<byte>, x: byte)
    requires Holds(b, p) && |p| < 64
    ensures Holds(b[|p| / 4 := SetByte(b[|p| / 4], |p| % 4, x)], p + [x])
  {
    var n := |p|;
    var now, q := b[n / 4 := SetByte(b[n / 4], n % 4, x)], p + [x];
    forall j: nat | j < |q| ensures Stored(now, j, q[j]) {
      SetByteIs(b[n / 4], n % 4, x, j % 4);
      if j < n {
        assert Stored(b, j, p[j]);
        if j / 4 == n / 4 { SamePlace(j, n); }
      }
    }
  }

  lemma SamePlace(j: nat, n: nat)
    requires j < n && j / 4 == n / 4
    ensures j % 4 != n % 4
  {
  }

  lemma HoldsWord(b: seq<nat>, p: seq<byte>, i: nat)
    requires Holds(b, p) && |p| == 64 && i < 16
    ensures b[i] == WordAt(p, i)
  {
    Quarter(i);
    assert Stored(b, 4 * i, p[4 * i]) && Stored(b, 4 * i + 1, p[4 * i + 1]);
    assert Stored(b, 4 * i + 2, p[4 * i + 2]) && Stored(b, 4 * i + 3, p[4 * i + 3]);
    WordOfBytes(b[i]);
  }

  lemma Quarter(i: nat)
    ensures 4 * i / 4 == (4 * i + 1) / 4 == (4 * i + 2) / 4 == (4 * i + 3) / 4 == i
    ensures 4 * i % 4 == 0 && (4 * i + 1) % 4 == 1 && (4 * i + 2) % 4 == 2 && (4 * i + 3) % 4 == 3
  {
  }

  /** A full buffer is the block that the standard reads from the bytes. */
  lemma HoldsBlock(b: seq<nat>, p: seq<byte>)
    requires Holds(b, p) && |p| == 64
    ensures b == Words(p)
  {
    forall i | 0 <= i < 16 ensures b[i] == Words(p)[i] {
      HoldsWord(b, p, i);
    }
  }

  // ------------------------------------------------------------------ all bytes so far

  /** The bytes behind the last full block. */
  ghost function Rest(d: seq<byte>): seq<byte> {
    d[|d| - |d| % 64..]
  }

  ghost function Blocks(d: seq<byte>): (r: seq<byte>)
    ensures |r| % 64 == 0
  {
    d[..|d| - |d| % 64]
  }

  lemma RestMore(d: seq<byte>, x: byte)
    ensures |d| % 64 < 63 ==>
      Rest(d + [x]) == Rest(d) + [x] && Blocks(d + [x]) == Blocks(d) && |d + [x]| % 64 == |d| % 64 + 1
    ensures |d| % 64 == 63 ==>
      Rest(d + [x]) == [] && Blocks(d + [x]) == Blocks(d) + (Rest(d) + [x]) && |d + [x]| % 64 == 0
  {
    NextResidue(|d|);
  }

  lemma NextResidue(n: nat)
    ensures (n + 1) % 64 == if n % 64 == 63 then 0 else n % 64 + 1
  {
  }

  lemma DigestMore(d: seq<byte>, p: seq<byte>)
    requires |d| % 64 == 0 && |p| == 64
    ensures |d + p| % 64 == 0 && Digest(d + p) == Compress(Words(p), Digest(d))
  {
    var q := d + p;
    assert q[|q| - 64..] == p && q[..|q| - 64] == d;
  }

  lemma {:induction false} DigestBound(d: seq<byte>)
    requires |d| % 64 == 0
    ensures IsHash(Digest(d))
  {
  }

  lemma Nothing(b: seq<nat>)
    requires |b| == 16
    ensures Holds(b, Rest([])) && Digest(Blocks([])) == INITIAL
  {
    assert Rest([]) == [] && Blocks([]) == [];
  }

  lemma CountMore(n: nat)
    ensures (n % WORD + 1) % WORD == (n + 1) % WORD
  {
  }

  function HashOf(s: seq<nat>): Hash
    requires |s| == 5
  {
    Hash(s[0], s[1], s[2], s[3], s[4])
  }

  /** The words with one byte replaced. */
  function With(b: seq<nat>, i: nat, k: nat, x: byte): seq<nat>
    requires i < |b|
  {
    b[i := SetByte(b[i], k, x)]
  }

  /** The buffer holds the bytes of the block that is not full yet, the state is that after the full
      ones. The definition is available to the proofs that mention `Open`. */
  ghost predicate Streaming(b: seq<nat>, s: seq<nat>, d: seq<byte>) {
    forall x {:trigger Open(x)} :: Open(x) ==>
      Holds(b, Rest(d)) && |s| == 5 && HashOf(s) == Digest(Blocks(d))
  }

  lemma StreamStarts(b: seq<nat>, s: seq<nat>)
    requires |b| == 16 && |s| == 5 && HashOf(s) == INITIAL
    ensures Streaming(b, s, [])
  {
    Nothing(b);
  }

  /** One more byte, the block not being full. */
  lemma {:induction false} StreamMore(b: seq<nat>, s: seq<nat>, d: seq<byte>, x: byte)
    requires Streaming(b, s, d) && |b| == 16 && |d| % 64 < 63
    ensures var o := |d| % 64;
      Streaming(With(b, o / 4, o % 4, x), s, d + [x])
  {
    StreamMeans(b, s, d);
    RestMore(d, x);
    HoldsNext(b, Rest(d), x, |d| % 64, Rest(d + [x]));
    StreamIs(With(b, |d| % 64 / 4, |d| % 64 % 4, x), s, d + [x]);
  }

  lemma HoldsNext(b: seq<nat>, r: seq<byte>, x: byte, o: nat, r': seq<byte>)
    requires Holds(b, r) && o == |r| < 63 && r' == r + [x] && |b| == 16
    ensures Holds(With(b, o / 4, o % 4, x), r')
  {
    HoldsMore(b, r, x);
  }

  lemma StreamMeans(b: seq<nat>, s: seq<nat>, d: seq<byte>)
    requires Streaming(b, s, d)
    ensures Holds(b, Rest(d)) && |s| == 5 && HashOf(s) == Digest(Blocks(d))
  {
    assert Open(0);
  }

  lemma StreamIs(b: seq<nat>, s: seq<nat>, d: seq<byte>)
    requires Holds(b, Rest(d)) && |s| == 5 && HashOf(s) == Digest(Blocks(d))
    ensures Streaming(b, s, d)
  {
  }

  lemma StreamHash(b: seq<nat>, s: seq<nat>, d: seq<byte>)
    requires Streaming(b, s, d) && |s| == 5
    ensures IsHash(HashOf(s))
  {
    assert Open(0);
    DigestBound(Blocks(d));
  }

  /** The last byte of a block. */
  lemma StreamFull(b: seq<nat>, s: seq<nat>, d: seq<byte>, x: byte, b': seq<nat>, s': seq<nat>)
    requires Streaming(b, s, d) && |b| == |b'| == 16 && |d| % 64 == 63 && |s| == |s'| == 5
    requires HashOf(s') == Compress(With(b, 15, 3, x), HashOf(s))
    ensures Streaming(b', s', d + [x])
  {
    assert Open(0);
    RestMore(d, x);
    HoldsMore(b, Rest(d), x);
    var block := Rest(d) + [x];
    HoldsBlock(With(b, 15, 3, x), block);
    DigestMore(Blocks(d), block);
    assert Rest(d + [x]) == [] && Blocks(d + [x]) == Blocks(d) + block;
  }

  lemma StreamEnds(b: seq<nat>, s: seq<nat>, d: seq<byte>)
    requires Streaming(b, s, d) && |d| % 64 == 0 && |s| == 5
    ensures HashOf(s) == Digest(d)
  {
    assert Open(0);
    assert Blocks(d) == d;
  }

  class Context {
    const buffer: array<nat>
    const state: array<nat>
    var bytesHashed: nat
    var offset: nat
    const little: bool
    /** Every byte added so far. */
    ghost var data: seq<byte>

    ghost predicate Valid()
      reads this`offset, this`data, buffer, state
    {
      && buffer.Length == 16 && state.Length == 5 && buffer != state && offset == |data| % 64
      && Streaming(buffer[..], state[..], data)
    }

    /** A message is being hashed. */
    ghost predicate Hashing()
      reads this, buffer, state
    {
      Valid() && bytesHashed == |data| % WORD
    }

    constructor (little: bool)
      ensures Hashing() && data == [] && fresh(buffer) && fresh(state) && this.little == little
    {
      this.little := little;
      buffer := new nat[16](_ => 0);
      state := new nat[5](i => if i == 0 then 0x67452301 else if i == 1 then 0xefcdab89 else if i == 2 then 0x98badcfe
        else if i == 3 then 0x10325476 else 0xc3d2e1f0);
      bytesHashed, offset, data := 0, 0, [];
      new;
      assert state[0] == INITIAL.a && state[1] == INITIAL.b && state[2] == INITIAL.c && state[3] == INITIAL.d &&
        state[4] == INITIAL.e;
      StreamStarts(buffer[..], state[..]);
    }

    /** The byte at an address of the buffer: its place in the word depends on the machine. */
    method Store(address: nat, x: byte)
      requires buffer.Length == 16 && address < 64
      modifies buffer
      ensures buffer[..] == With(old(buffer[..]), address / 4, Place(little, address), x)
    {
      buffer[address / 4] := SetByte(buffer[address / 4], Place(little, address), x);
    }

    /** The next byte of the block. */
    method StoreNext(x: byte)
      requires buffer.Length == 16 && offset < 64
      modifies buffer
      ensures buffer[..] == With(old(buffer[..]), offset / 4, offset % 4, x)
    {
      AddressIs(little, offset);
      Store(if little then Xor(offset, 3) else offset, x);
    }

    /** `dill_sha1_add`. */
    method Add(x: byte)
      requires Valid()
      modifies this`offset, this`data, buffer, state
      ensures Valid() && data == old(data) + [x]
    {
      ghost var b, s := buffer[..], state[..];
      StoreNext(x);
      NextResidue(|data|);
      offset := offset + 1;
      if offset == 64 {
        StreamHash(b, s, data);
        Process();
        StreamFull(b, s, data, x, buffer[..], state[..]);
        offset := 0;
      } else {
        StreamMore(b, s, data, x);
      }
      data := data + [x];
    }

    /** The full buffer is worked into the state. */
    method Process()
      requires buffer.Length == 16 && state.Length == 5 && buffer != state && IsHash(HashOf(state[..]))
      modifies buffer, state
      ensures HashOf(state[..]) == Compress(old(buffer[..]), old(HashOf(state[..])))
    {
      var r := RunRounds(buffer, HashOf(state[..]));
      AddTo(r);
    }

    method AddTo(r: Hash)
      requires state.Length == 5
      modifies state
      ensures HashOf(state[..]) == Sum(old(HashOf(state[..])), r)
    {
      state[0] := (state[0] + r.a) % WORD;
      state[1] := (state[1] + r.b) % WORD;
      state[2] := (state[2] + r.c) % WORD;
      state[3] := (state[3] + r.d) % WORD;
      state[4] := (state[4] + r.e) % WORD;
    }

    /** `dill_sha1_hashbyte`. */
    method HashByte(x: byte)
      requires Hashing()
      modifies this, buffer, state
      ensures Hashing() && data == old(data) + [x]
    {
      CountMore(|data|);
      bytesHashed := (bytesHashed + 1) % WORD;
      Add(x);
    }

    /** The padding: a one bit, zero bytes up to the length, the length. */
    method Finish()
      requires Hashing() && |data| < WORD
      modifies this`offset, this`data, buffer, state
      ensures Valid() && data == Pad(old(data))
    {
      ghost var m := data;
      Add(0x80);
      AddZeros(|m|);
      AddLength();
      PadIs(m, bytesHashed);
    }

    method AddZeros(ghost n: nat)
      requires Valid() && |data| == n + 1
      modifies this`offset, this`data, buffer, state
      ensures Valid() && data == old(data) + Zeros(Gap(n))
    {
      ghost var z: nat := 0;
      GapReached(n, 0);
      while offset != 56
        invariant Valid() && z <= Gap(n) && data == old(data) + Zeros(z) && (offset == 56 <==> z == Gap(n))
        decreases Gap(n) - z
      {
        Add(0);
        MoreZeros(old(data), z);
        z := z + 1;
        GapReached(n, z);
      }
    }

    method AddLength()
      requires Valid() && bytesHashed < WORD
      modifies this`offset, this`data, buffer, state
      ensures Valid() && data == old(data) + LengthBytes(bytesHashed)
    {
      ghost var n := bytesHashed;
      Append8(data, 0, 0, 0, n / 0x2000_0000 % 256, n / 0x20_0000 % 256, n / 0x2000 % 256, n / 0x20 % 256,
        n * 8 % WORD % 256);
      Add(0);
      Add(0);
      Add(0);
      Add(bytesHashed / 0x2000_0000 % 256);
      Add(bytesHashed / 0x20_0000 % 256);
      Add(bytesHashed / 0x2000 % 256);
      Add(bytesHashed / 0x20 % 256);
      Add(bytesHashed * 8 % WORD % 256);
    }

    /** The bytes of the state in memory, after the correction for little-endian machines. */
    method Output() returns (r: seq<byte>)
      requires state.Length == 5
      modifies state
      ensures r == Bytes(old(HashOf(state[..])))
    {
      ghost var s := state[..];
      if little {
        for i := 0 to 5
          invariant forall j :: 0 <= j < 5 ==> state[j] == if j < i then Swap(s[j]) else s[j]
        {
          state[i] := Swap(state[i]);
        }
      }
      r := Raw(state[..], little);
      RawIs(s, state[..], little);
    }

    /** `dill_sha1_result`: the digest of what was hashed, for either byte order. */
    method Result() returns (r: seq<byte>)
      requires Hashing() && |data| < WORD
      modifies this`offset, this`data, buffer, state
      ensures r == DigestOf(old(data))
    {
      Finish();
      StreamEnds(buffer[..], state[..], data);
      r := Output();
    }
  }

  /** The bytes of words in memory. */
  function Raw(s: seq<nat>, little: bool): (r: seq<byte>) {
    seq(4 * |s|, p requires 0 <= p < 4 * |s| => ByteOf(s[p / 4], Place(little, p)))
  }

  lemma RawIs(s: seq<nat>, t: seq<nat>, little: bool)
    requires |s| == |t| == 5 && forall j :: 0 <= j < 5 ==> t[j] == if little then Swap(s[j]) else s[j]
    ensures Raw(t, little) == Bytes(HashOf(s))
  {
    forall p | 0 <= p < 20 ensures Raw(t, little)[p] == Bytes(HashOf(s))[p] {
      if little { Swapped(s[p / 4], p % 4); }
      BytesAt(s, p);
    }
  }

  lemma BytesAt(s: seq<nat>, p: nat)
    requires |s| == 5 && p < 20
    ensures Bytes(HashOf(s))[p] == ByteOf(s[p / 4], p % 4)
  {
  }

  // ------------------------------------------------------------------ the end of the message

  /** The bytes in which the source appends the length. */
  function LengthBytes(n: nat): seq<byte> {
    [0, 0, 0, n / 0x2000_0000 % 256, n / 0x20_0000 % 256, n / 0x2000 % 256, n / 0x20 % 256, n * 8 % WORD % 256]
  }

  lemma Eighth(n: nat, k: nat)
    requires k > 0
    ensures 8 * n / (8 * k) == n / k
  {
    var q, r := n / k, n % k;
    assert 8 * n == q * (8 * k) + 8 * r;
    DivIs(8 * n, 8 * k, q, 8 * r);
  }

  lemma MoreZeros(d: seq<byte>, z: nat)
    ensures d + Zeros(z) + [0] == d + Zeros(z + 1) && |d + Zeros(z + 1)| == |d| + 1 + z
  {
  }

  lemma PadIs(m: seq<byte>, n: nat)
    requires |m| < WORD && n == |m| % WORD
    ensures m + [0x80] + Zeros(Gap(|m|)) + LengthBytes(n) == Pad(m)
  {
    SmallMod(|m|, WORD);
    LengthIs(|m|);
    PadWith(m, LengthBytes(n));
  }

  lemma PadWith(m: seq<byte>, l: seq<byte>)
    requires l == Length64(8 * |m|)
    ensures m + [0x80] + Zeros(Gap(|m|)) + l == Pad(m)
  {
  }

  lemma Append8(d: seq<byte>, a: byte, b: byte, c: byte, e: byte, f: byte, g: byte, h: byte, i: byte)
    ensures d + [a] + [b] + [c] + [e] + [f] + [g] + [h] + [i] == d + [a, b, c, e, f, g, h, i]
  {
  }

  /** They are the length in bits, if the message is shorter than 2^32 bytes. */
  lemma LengthIs(n: nat)
    requires n < WORD
    ensures LengthBytes(n) == Length64(8 * n)
  {
    Eighth(n, 0x2000_0000);
    Eighth(n, 0x20_0000);
    Eighth(n, 0x2000);
    Eighth(n, 0x20);
    assert 8 * n / 0x100_0000_0000_0000 == 0 && 8 * n / 0x1_0000_0000_0000 == 0 && 8 * n / 0x100_0000_0000 == 0;
    LowByte(n);
  }

  lemma DivDiv(x: nat, a: nat, b: nat)
    requires a > 0 && b > 0
    ensures a * b > 0 && x / a / b == x / (a * b)
  {
    var q, r := x / a, x % a;
    var q', r' := q / b, q % b;
    assert q * a == q' * (b * a) + r' * a;
    MulStep(r', b, a);
    MulStep(0, b, a);
    DivIs(x, a * b, q', r' * a + r);
  }

  /** The length is right only then: its upper half would not fit. */
  lemma LengthExact(n: nat)
    requires n < 0x2000_0000_0000_0000
    ensures LengthBytes(n % WORD) == Length64(8 * n) <==> n < WORD
  {
    if n < WORD {
      SmallMod(n, WORD);
      LengthIs(n);
    } else if LengthBytes(n % WORD) == Length64(8 * n) {
      var v := 8 * n / WORD;
      DivDiv(8 * n, WORD, 0x100_0000);
      DivDiv(8 * n, WORD, 0x1_0000);
      DivDiv(8 * n, WORD, 0x100);
      WordOfBytes(v);
      assert LengthBytes(n % WORD)[0] == Length64(8 * n)[0] && LengthBytes(n % WORD)[1] == Length64(8 * n)[1];
      assert LengthBytes(n % WORD)[2] == Length64(8 * n)[2] && LengthBytes(n % WORD)[3] == Length64(8 * n)[3];
      UpperHalf(n, v);
    }
  }

  lemma UpperHalf(n: nat, v: nat)
    requires n >= WORD && v == 8 * n / WORD
    ensures v > n % WORD / 0x2000_0000 % 256
  {
  }

  lemma LowByte(n: nat)
    ensures n * 8 % WORD % 256 == 8 * n % 256
  {
    ModMod(8 * n, WORD, 256, 0x100_0000);
  }

  /** There are as many zero bytes as the standard wants. */
  lemma GapReached(n: nat, z: nat)
    requires z <= Gap(n)
    ensures (n + 1 + z) % 64 == 56 <==> z == Gap(n)
  {
    if z < Gap(n) { DifferentResidues(n + 1 + z, n + 1 + Gap(n), 64); }
  }

  lemma Swapped(w: nat, k: nat)
    requires k < 4
    ensures ByteOf(Swap(w), 3 - k) == ByteOf(w, k)
  {
    BytesOfWord(ByteOf(w, 3), ByteOf(w, 2), ByteOf(w, 1), ByteOf(w, 0));
  }

  /** The place within its word, counted from the most significant byte, of the byte at an address. */
  function Place(little: bool, address: nat): nat {
    if little then 3 - address % 4 else address % 4
  }

  /** Either byte order puts byte `offset` of a block in the same place. */
  lemma AddressIs(little: bool, offset: nat)
    requires offset < 64
    ensures var p := if little then Xor(offset, 3) else offset;
      p < 64 && p / 4 == offset / 4 && Place(little, p) == offset % 4
  {
    XorThree(offset);
    Mirror(offset);
  }

  lemma Mirror(x: nat)
    ensures (x / 4 * 4 + (3 - x % 4)) / 4 == x / 4 && (x / 4 * 4 + (3 - x % 4)) % 4 == 3 - x % 4
  {
  }
}
