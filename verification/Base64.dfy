/** Base64 (section 4 of RFC 4648): the same number, read in digits of 8 and of 6 bits. */
module Base64 {
  import opened Marks
  import opened Powers
  import opened Numerals

  const WORD := 0x1_0000_0000

  // ------------------------------------------------------------------ the accumulator

  /** What has been read is what has been written followed by the bits that are left; `m` is the number
      of values these can have. */
  ghost predicate Balanced(read: nat, written: nat, v: nat, m: nat) {
    m > 0 && read == written * m + v % m
  }

  lemma ReadDigit(read: nat, written: nat, v: nat, m: nat, n: nat, d: nat, z: nat)
    requires Balanced(read, written, v, m) && d < n && WORD == m * n * z
    ensures Balanced(read * n + d, written, (v * n + d) % WORD, m * n)
  {
    ShiftIn(v, m, n, d, WORD, z);
    Distribute(written, m, v % m, n);
  }

  lemma WriteDigit(read: nat, written: nat, v: nat, m: nat, n: nat)
    requires m > 0 && n > 0 && Balanced(read, written, v, n * m)
    ensures Balanced(read, written * n + v / m % n, v, m)
  {
    TakeOut(v, m, n);
    Distribute(written, n, v / m % n, m);
  }

  // ------------------------------------------------------------------ characters

  function Symbol(d: nat): nat {
    if d < 26 then 65 + d
    else if d < 52 then 97 + (d - 26)
    else if d < 62 then 48 + (d - 52)
    else if d == 62 then 43 else 47
  }

  /** The decoding table; it has an entry for the padding character too, which is never used. */
  function Value(c: nat): nat {
    if c == 43 || c == 61 then 62 else if c == 47 then 63 else if 48 <= c <= 57 then 52 + (c - 48)
    else if 65 <= c <= 90 then c - 65 else if 97 <= c <= 122 then 26 + (c - 97) else 0xff
  }

  const UPPER := "ABCDEFGHIJKLMNOPQRSTUVWXYZ"
  const LOWER := "abcdefghijklmnopqrstuvwxyz"
  const OTHERS := "0123456789+/"

  /** The characters are those of the alphabet of section 4 of RFC 4648, in its order. */
  lemma Alphabet(d: nat)
    requires d < 64
    ensures |UPPER + LOWER + OTHERS| == 64 && Symbol(d) == (UPPER + LOWER + OTHERS)[d] as int
    ensures Value(Symbol(d)) == d && PAD == '=' as int
  {
    SymbolValue(d);
    InOrder(d);
    Joined(UPPER, LOWER, OTHERS, d);
  }

  lemma Joined(u: string, l: string, o: string, d: nat)
    requires |u| == 26 && |l| == 26 && |o| == 12 && d < 64
    ensures |u + l + o| == 64
    ensures (u + l + o)[d] == if d < 26 then u[d] else if d < 52 then l[d - 26] else o[d - 52]
  {
  }

  lemma InOrder(d: nat)
    requires d < 64
    ensures |UPPER| == 26 && |LOWER| == 26 && |OTHERS| == 12
    ensures Symbol(d) ==
      if d < 26 then UPPER[d] as int else if d < 52 then LOWER[d - 26] as int else OTHERS[d - 52] as int
  {
  }

  predicate IsSpace(c: nat) {
    c == 32 || 9 <= c <= 13
  }

  const PAD := 61

  lemma SymbolValue(d: nat)
    requires d < 64
    ensures Value(Symbol(d)) == d && !IsSpace(Symbol(d)) && Symbol(d) != PAD
  {
  }

  ghost predicate Spelled(out: seq<nat>, s: seq<nat>) {
    |out| == |s| && forall i :: 0 <= i < |s| ==> out[i] == Symbol(s[i])
  }

  // ------------------------------------------------------------------ encoding

  lemma Sizes()
    ensures Pow2(2) == 4 && Pow2(4) == 16 && Pow2(6) == 64 && Pow2(8) == 256
  {
  }

  lemma WordOf(k: nat)
    requires k <= 32
    ensures WORD == Pow2(k) * Pow2(32 - k)
  {
    Sizes();
    Pow2Sum(8, 8);
    Pow2Sum(16, 16);
    SumTo(k, 32 - k, 32);
  }

  lemma SumTo(a: nat, b: nat, c: nat)
    requires a + b == c
    ensures Pow2(c) == Pow2(a) * Pow2(b)
  {
    Pow2Sum(a, b);
  }

  /** `s` and the lowest `rem` bits of `v` are the digits of the bytes read so far. */
  ghost predicate Encoding(bytes: seq<nat>, s: seq<nat>, v: nat, rem: nat) {
    forall x {:trigger Open(x)} :: Open(x) ==>
      && Digits(64, s) && 8 * |bytes| == 6 * |s| + rem
      && Balanced(Num(256, bytes), Num(64, s), v, Pow2(rem))
  }

  lemma EncodeByte(bytes: seq<nat>, s: seq<nat>, v: nat, rem: nat, c: nat)
    requires Encoding(bytes, s, v, rem) && rem < 6 && c < 256
    ensures Encoding(bytes + [c], s, (v * 256 + c) % WORD, rem + 8)
  {
    assert Open(0);
    Sizes();
    WordOf(rem + 8);
    SumTo(rem, 8, rem + 8);
    NumMore(256, bytes, c);
    ReadDigit(Num(256, bytes), Num(64, s), v, Pow2(rem), 256, c, Pow2(24 - rem));
  }

  lemma EncodeDigit(bytes: seq<nat>, s: seq<nat>, v: nat, rem: nat)
    requires Encoding(bytes, s, v, rem + 6)
    ensures Encoding(bytes, s + [v / Pow2(rem) % 64], v, rem) && 6 * (|s| + 1) <= 8 * |bytes|
  {
    assert Open(0);
    Sizes();
    SumTo(6, rem, rem + 6);
    NumMore(64, s, v / Pow2(rem) % 64);
    WriteDigit(Num(256, bytes), Num(64, s), v, Pow2(rem), 64);
  }

  /** The digits of the whole input, filled up with zero bits. */
  ghost predicate Encoded(bytes: seq<nat>, s: seq<nat>) {
    && Digits(64, s) && 8 * |bytes| <= 6 * |s| < 8 * |bytes| + 6
    && Num(64, s) == Num(256, bytes) * Pow2(6 * |s| - 8 * |bytes|)
  }

  lemma EncodeLast(bytes: seq<nat>, s: seq<nat>, v: nat, rem: nat)
    requires Encoding(bytes, s, v, rem) && 0 < rem < 6
    ensures Encoded(bytes, s + [v * Pow2(6 - rem) % WORD % 64]) && 6 * (|s| + 1) < 8 * |bytes| + 6
  {
    assert Open(0);
    Sizes();
    var m, n := Pow2(rem), Pow2(6 - rem);
    SumTo(rem, 6 - rem, 6);
    WordOf(6);
    ShiftIn(v, m, n, 0, WORD, Pow2(26));
    var d := v * n % WORD % 64;
    Distribute(Num(64, s), m, v % m, n);
    NumMore(64, s, d);
  }

  lemma EncodeDone(bytes: seq<nat>, s: seq<nat>, v: nat)
    requires Encoding(bytes, s, v, 0)
    ensures Encoded(bytes, s)
  {
    assert Open(0);
    assert Pow2(0) == 1;
    NoRest(v);
  }

  lemma NoRest(v: nat)
    ensures v % 1 == 0
  {
  }

  /** The length of the encoded text. */
  function TextLength(n: nat): nat {
    (n + 2) / 3 * 4
  }

  lemma Shorter(n: nat, k: nat)
    requires 6 * k < 8 * n + 6
    ensures k <= TextLength(n)
  {
  }

  /** The encoded text: symbols for the digits, padded to a multiple of four. */
  ghost predicate Text(bytes: seq<nat>, s: seq<nat>, out: seq<nat>) {
    forall x {:trigger Open(x)} :: Open(x) ==>
      && Encoded(bytes, s) && |out| == TextLength(|bytes|) && |s| <= |out|
      && (forall i :: 0 <= i < |s| ==> out[i] == Symbol(s[i])) && (forall i :: |s| <= i < |out| ==> out[i] == PAD)
  }

  /** `dill_base64_encode`: fails exactly if the text and its terminator do not fit. */
  method Encode(bytes: seq<nat>, out: array<nat>) returns (r: int, ghost s: seq<nat>)
    requires Digits(256, bytes)
    modifies out
    ensures r == -1 <==> out.Length < TextLength(|bytes|) + 1
    ensures r != -1 ==> r == TextLength(|bytes|) && Text(bytes, s, out[..r]) && out[r] == 0
  {
    var io: nat, v: nat, rem: nat, ok := 0, 0, 0, true;
    s := [];
    EncodeStarts(bytes);
    var ii := 0;
    while ii < |bytes|
      invariant ii <= |bytes| && rem < 6 && io == |s| <= out.Length && EncodingTo(bytes, ii, s, v, rem) &&
        Spelled(out[..io], s)
    {
      ok, io, v, rem, s := EncodeNext(bytes, ii, out, io, v, rem, s);
      if !ok { return -1, s; }
      ii := ii + 1;
    }
    r, s := Last(bytes, out, io, v, rem, s);
  }

  ghost predicate EncodingTo(bytes: seq<nat>, ii: nat, s: seq<nat>, v: nat, rem: nat) {
    forall x {:trigger Open(x)} :: Open(x) ==> ii <= |bytes| && Encoding(bytes[..ii], s, v, rem)
  }

  /** One byte is read. */
  method EncodeNext(bytes: seq<nat>, ii: nat, out: array<nat>, io0: nat, v0: nat, rem0: nat, ghost s0: seq<nat>)
    returns (ok: bool, io: nat, v: nat, rem: nat, ghost s: seq<nat>)
    requires ii < |bytes| && bytes[ii] < 256 && rem0 < 6 && io0 == |s0| <= out.Length
    requires EncodingTo(bytes, ii, s0, v0, rem0) && Spelled(out[..io0], s0)
    modifies out
    ensures ok ==> rem < 6 && io == |s| <= out.Length && EncodingTo(bytes, ii + 1, s, v, rem) && Spelled(out[..io], s)
    ensures !ok ==> out.Length < TextLength(|bytes|) + 1
  {
    assert Encoding(bytes[..ii], s0, v0, rem0) by { assert Open(0); }
    EncodeByte(bytes[..ii], s0, v0, rem0, bytes[ii]);
    assert bytes[..ii] + [bytes[ii]] == bytes[..ii + 1];
    v := (v0 * 256 + bytes[ii]) % WORD;
    ok, io, rem, s := Drain(bytes[..ii + 1], out, io0, v, rem0 + 8, s0);
    if !ok { Shorter(|bytes|, io + 1); }
  }

  /** Writes as many digits as there are bits for. */
  method Drain(ghost bytes: seq<nat>, out: array<nat>, io0: nat, v: nat, rem0: nat, ghost s0: seq<nat>)
    returns (ok: bool, io: nat, rem: nat, ghost s: seq<nat>)
    requires io0 == |s0| <= out.Length && Encoding(bytes, s0, v, rem0) && Spelled(out[..io0], s0)
    modifies out
    ensures ok ==> rem < 6 && io == |s| <= out.Length && Encoding(bytes, s, v, rem) && Spelled(out[..io], s)
    ensures !ok ==> io == out.Length && 6 * (io + 1) <= 8 * |bytes|
  {
    io, rem, s := io0, rem0, s0;
    while rem >= 6
      invariant io == |s| <= out.Length && Encoding(bytes, s, v, rem) && Spelled(out[..io], s)
    {
      rem := rem - 6;
      EncodeDigit(bytes, s, v, rem);
      if io >= out.Length { return false, io, rem, s; }
      out[io] := Symbol(v / Pow2(rem) % 64);
      s, io := s + [v / Pow2(rem) % 64], io + 1;
    }
    ok := true;
  }

  /** The digit for bits that are left over, and the end of the text. */
  method Last(ghost bytes: seq<nat>, out: array<nat>, io0: nat, v: nat, rem: nat, ghost s0: seq<nat>)
    returns (r: int, ghost s: seq<nat>)
    requires rem < 6 && io0 == |s0| <= out.Length && EncodingTo(bytes, |bytes|, s0, v, rem) && Spelled(out[..io0], s0)
    modifies out
    ensures r == -1 <==> out.Length < TextLength(|bytes|) + 1
    ensures r != -1 ==> r == TextLength(|bytes|) && Text(bytes, s, out[..r]) && out[r] == 0
  {
    var io := io0;
    s := s0;
    assert Encoding(bytes, s, v, rem) by {
      assert Open(0);
      assert bytes[..|bytes|] == bytes;
    }
    if rem != 0 {
      EncodeLast(bytes, s, v, rem);
      Shorter(|bytes|, io + 1);
      var d := v * Pow2(6 - rem) % WORD % 64;
      if io >= out.Length { return -1, s; }
      out[io] := Symbol(d);
      s, io := s + [d], io + 1;
    } else {
      EncodeDone(bytes, s, v);
    }
    r := Finish(bytes, s, out, io);
  }

  lemma EncodeStarts(bytes: seq<nat>)
    ensures EncodingTo(bytes, 0, [], 0, 0)
  {
    assert bytes[..0] == [];
    assert Pow2(0) == 1;
  }

  /** Padding and terminator. */
  method Finish(ghost bytes: seq<nat>, ghost s: seq<nat>, out: array<nat>, io0: nat) returns (r: int)
    requires Encoded(bytes, s) && io0 == |s| <= out.Length && Spelled(out[..io0], s)
    modifies out
    ensures r == -1 <==> out.Length < TextLength(|bytes|) + 1
    ensures r != -1 ==> r == TextLength(|bytes|) && Text(bytes, s, out[..r]) && out[r] == 0
  {
    var io := io0;
    Shorter(|bytes|, |s|);
    while io % 4 != 0
      invariant |s| <= io <= out.Length && io <= TextLength(|bytes|)
      invariant forall i :: 0 <= i < |s| ==> out[i] == Symbol(s[i])
      invariant forall i :: |s| <= i < io ==> out[i] == PAD
      decreases TextLength(|bytes|) - io
    {
      NotYet(|bytes|, io);
      if io >= out.Length { return -1; }
      out[io] := PAD;
      io := io + 1;
    }
    Whole(|bytes|, |s|, io);
    if io >= out.Length { return -1; }
    out[io] := 0;
    r := io;
  }

  lemma NotYet(n: nat, io: nat)
    requires io % 4 != 0 && io <= TextLength(n)
    ensures io < TextLength(n)
  {
  }

  lemma Whole(n: nat, k: nat, io: nat)
    requires 8 * n <= 6 * k && k <= io <= TextLength(n) && io % 4 == 0
    ensures io == TextLength(n)
  {
  }

  // ------------------------------------------------------------------ decoding

  ghost predicate Decoding(vals: seq<nat>, t: seq<nat>, v: nat, rem: nat) {
    forall x {:trigger Open(x)} :: Open(x) ==>
      && Digits(256, t) && 6 * |vals| == 8 * |t| + rem
      && Balanced(Num(64, vals), Num(256, t), v, Pow2(rem))
  }

  lemma DecodeStarts()
    ensures Decoding([], [], 0, 0)
  {
    assert Pow2(0) == 1;
  }

  lemma DecodeValue(vals: seq<nat>, t: seq<nat>, v: nat, rem: nat, d: nat)
    requires Decoding(vals, t, v, rem) && rem < 8 && d < 64
    ensures Decoding(vals + [d], t, (v * 64 + d) % WORD, rem + 6)
  {
    assert Open(0);
    Sizes();
    WordOf(rem + 6);
    SumTo(rem, 6, rem + 6);
    NumMore(64, vals, d);
    ReadDigit(Num(64, vals), Num(256, t), v, Pow2(rem), 64, d, Pow2(26 - rem));
  }

  lemma DecodeByte(vals: seq<nat>, t: seq<nat>, v: nat, rem: nat)
    requires Decoding(vals, t, v, rem + 8)
    ensures Decoding(vals, t + [v / Pow2(rem) % 256], v, rem) && 8 * (|t| + 1) <= 6 * |vals|
  {
    assert Open(0);
    Sizes();
    SumTo(8, rem, rem + 8);
    NumMore(256, t, v / Pow2(rem) % 256);
    WriteDigit(Num(64, vals), Num(256, t), v, Pow2(rem), 256);
  }

  /** The bytes of the digits, bits that do not make up a byte being left out. */
  ghost predicate Decoded(vals: seq<nat>, t: seq<nat>) {
    && Digits(256, t) && 8 * |t| <= 6 * |vals| < 8 * |t| + 8
    && Num(256, t) == Num(64, vals) / Pow2(6 * |vals| - 8 * |t|)
  }

  lemma DecodeDone(vals: seq<nat>, t: seq<nat>, v: nat, rem: nat)
    requires Decoding(vals, t, v, rem) && rem < 8
    ensures Decoded(vals, t) && |t| == 6 * |vals| / 8
  {
    assert Open(0);
    DivIs(Num(64, vals), Pow2(rem), Num(256, t), v % Pow2(rem));
  }

  /** The digits that are read: spaces are passed over, and the first other character ends the text. */
  function Values(text: seq<nat>): seq<nat> {
    if text == [] then []
    else if IsSpace(text[0]) then Values(text[1..])
    else if text[0] == PAD || Value(text[0]) == 0xff then []
    else [Value(text[0])] + Values(text[1..])
  }

  /** `dill_base64_decode`: fails exactly if the bytes do not fit. */
  method Decode(text: seq<nat>, out: array<nat>) returns (r: int)
    modifies out
    ensures r == -1 <==> out.Length < 6 * |Values(text)| / 8
    ensures r != -1 ==> 0 <= r <= out.Length && Decoded(Values(text), out[..r])
  {
    var io: nat, v: nat, rem: nat, ok := 0, 0, 0, true;
    ghost var vals: seq<nat>, t: seq<nat> := [], [];
    DecodeStarts();
    assert [] + Values(text) == Values(text) && text[0..] == text;
    var ii := 0;
    while ii < |text|
      invariant ii <= |text| && rem < 8 && io == |t| <= out.Length && Decoding(vals, t, v, rem) && out[..io] == t
      invariant ValuesTo(text, ii, vals)
    {
      ValuesStep(text, ii, vals);
      var c := text[ii];
      if IsSpace(c) {
        ii := ii + 1;
        continue;
      }
      if c == PAD || Value(c) == 0xff {
        assert Values(text) == vals;
        break;
      }
      ok, io, v, rem, t := Take(vals, out, io, v, rem, Value(c), t);
      vals := vals + [Value(c)];
      ii := ii + 1;
      if !ok { return -1; }
    }
    // Fewer than eight bits are left, so that the source's last test finds nothing to write.
    if ii == |text| { ValuesEnd(text, vals); }
    DecodeDone(vals, t, v, rem);
    r := io;
  }

  /** `vals` are the digits of the first `i` characters, and the text goes on. */
  ghost predicate ValuesTo(text: seq<nat>, i: nat, vals: seq<nat>) {
    forall x {:trigger Open(x)} :: Open(x) ==> i <= |text| && Values(text) == vals + Values(text[i..])
  }

  lemma ValuesStep(text: seq<nat>, i: nat, vals: seq<nat>)
    requires i < |text| && ValuesTo(text, i, vals)
    ensures var c := text[i];
      if IsSpace(c) then ValuesTo(text, i + 1, vals) else if c == PAD || Value(c) == 0xff then Values(text) == vals
      else ValuesTo(text, i + 1, vals + [Value(c)]) && |vals| < |Values(text)| && Value(c) < 64
  {
    assert Open(0);
    var rest := text[i..];
    assert rest[0] == text[i] && rest[1..] == text[i + 1..];
    assert vals + [Value(text[i])] + Values(text[i + 1..]) == vals + ([Value(text[i])] + Values(text[i + 1..]));
  }

  lemma ValuesEnd(text: seq<nat>, vals: seq<nat>)
    requires ValuesTo(text, |text|, vals)
    ensures Values(text) == vals
  {
    assert Open(0);
    assert text[|text|..] == [];
  }

  /** One digit is read, and a byte written when there are enough bits. */
  method Take(ghost vals: seq<nat>, out: array<nat>, io0: nat, v0: nat, rem0: nat, ch: nat, ghost t0: seq<nat>)
    returns (ok: bool, io: nat, v: nat, rem: nat, ghost t: seq<nat>)
    requires rem0 < 8 && ch < 64 && io0 == |t0| <= out.Length && Decoding(vals, t0, v0, rem0) && out[..io0] == t0
    modifies out
    ensures ok ==> rem < 8 && io == |t| <= out.Length && Decoding(vals + [ch], t, v, rem) && out[..io] == t
    ensures !ok ==> 8 * (out.Length + 1) <= 6 * |vals + [ch]|
  {
    DecodeValue(vals, t0, v0, rem0, ch);
    io, t, ok := io0, t0, true;
    v := (v0 * 64 + ch) % WORD;
    rem := rem0 + 6;
    if rem >= 8 {
      rem := rem - 8;
      DecodeByte(vals + [ch], t, v, rem);
      if io >= out.Length {
        ok := false;
        return;
      }
      out[io] := v / Pow2(rem) % 256;
      t, io := t + [v / Pow2(rem) % 256], io + 1;
    }
  }

  // ------------------------------------------------------------------ the round trip

  lemma {:induction false} ValuesOf(s: seq<nat>, out: seq<nat>)
    requires Digits(64, s) && |s| <= |out| && (forall i :: 0 <= i < |s| ==> out[i] == Symbol(s[i])) &&
      (forall i :: |s| <= i < |out| ==> out[i] == PAD)
    ensures Values(out) == s
  {
    if s != [] {
      SymbolValue(s[0]);
      ValuesOf(s[1..], out[1..]);
      assert s == [s[0]] + s[1..];
    }
  }

  /** Decoding an encoded text gives back the bytes. */
  lemma RoundTrip(bytes: seq<nat>, s: seq<nat>, out: seq<nat>, t: seq<nat>)
    requires Digits(256, bytes) && Text(bytes, s, out) && Decoded(Values(out), t)
    ensures t == bytes
  {
    assert Open(0);
    ValuesOf(s, out);
    var n := |bytes|;
    assert |t| == n;
    DivIs(Num(64, s), Pow2(6 * |s| - 8 * n), Num(256, bytes), 0);
    NumInjective(256, t, bytes);
  }
}
