/**
  The SHA-1 of the lineage recorder: the block function and the one- or two-block tail of
  project/fuzzer/fuzz_lineage.h, proved to compute the SHA-1 of FIPS 180-4.

  Part one states the standard.  Part two is the code, with its scratch arrays and in-place
  padding, proved against part one.
*/
module Sha1 {

  type Byte = bv8
  type Word = bv32

  // ------------------------------------------------------------------ FIPS 180-4

  /** ROTL of section 3.2, for the amounts of sections 4.1.1 and 6.1.2. */
  function Rotl1(x: Word): Word { (x << 1) | (x >> 31) }
  function Rotl5(x: Word): Word { (x << 5) | (x >> 27) }
  function Rotl30(x: Word): Word { (x << 30) | (x >> 2) }

  /** Section 4.1.1. */
  function Ch(x: Word, y: Word, z: Word): Word { (x & y) ^ (!x & z) }
  function Parity(x: Word, y: Word, z: Word): Word { x ^ y ^ z }
  function Maj(x: Word, y: Word, z: Word): Word { (x & y) ^ (x & z) ^ (y & z) }

  function F(t: nat, x: Word, y: Word, z: Word): Word {
    if t < 20 then Ch(x, y, z)
    else if t < 40 then Parity(x, y, z)
    else if t < 60 then Maj(x, y, z)
    else Parity(x, y, z)
  }

  /** Section 4.2.1. */
  function K(t: nat): Word {
    if t < 20 then 0x5a827999
    else if t < 40 then 0x6ed9eba1
    else if t < 60 then 0x8f1bbcdc
    else 0xca62c1d6
  }

  datatype Hash = Hash(a: Word, b: Word, c: Word, d: Word, e: Word)

  /** Section 5.3.1. */
  function H0(): Hash {
    Hash(0x67452301, 0xefcdab89, 0x98badcfe, 0x10325476, 0xc3d2e1f0)
  }

  /** The t-th 32-bit word of a message block, most significant byte first (section 3.1). */
  function MessageWord(m: seq<Byte>, t: nat): Word
    requires 4 * t + 4 <= |m|
  {
    FourBytes(m[4 * t], m[4 * t + 1], m[4 * t + 2], m[4 * t + 3])
  }

  function FourBytes(a: Byte, b: Byte, c: Byte, d: Byte): Word {
    ((a as Word) << 24) | ((b as Word) << 16) | ((c as Word) << 8) | (d as Word)
  }

  /** Section 3.1: the word's value is that of its four bytes, most significant first. */
  lemma MessageWordValue(m: seq<Byte>, t: nat)
    requires 4 * t + 4 <= |m|
    ensures MessageWord(m, t) as nat
         == 0x100_0000 * (m[4 * t] as nat) + 0x1_0000 * (m[4 * t + 1] as nat) +
            0x100 * (m[4 * t + 2] as nat) + m[4 * t + 3] as nat
  {
    hide FourBytes;
    FourBytesValue(m[4 * t], m[4 * t + 1], m[4 * t + 2], m[4 * t + 3]);
  }

  lemma FourBytesValue(a: Byte, b: Byte, c: Byte, d: Byte)
    ensures FourBytes(a, b, c, d) as nat
         == 0x100_0000 * (a as nat) + 0x1_0000 * (b as nat) + 0x100 * (c as nat) + d as nat
  {
    ShiftedValue(a, b, c, d, FourBytes(a, b, c, d));
  }

  lemma ShiftedValue(a: Byte, b: Byte, c: Byte, d: Byte, w: Word)
    requires w == ((a as Word) << 24) | ((b as Word) << 16) | ((c as Word) << 8) | (d as Word)
    ensures w as nat == 0x100_0000 * (a as nat) + 0x1_0000 * (b as nat) + 0x100 * (c as nat) + d as nat
  {
  }

  /** The message schedule of section 6.1.2, step 1. */
  function W(m: seq<Byte>, t: nat): Word
    requires |m| == 64
  {
    if t < 16 then MessageWord(m, t)
    else Expand(W(m, t - 3), W(m, t - 8), W(m, t - 14), W(m, t - 16))
  }

  function Expand(w3: Word, w8: Word, w14: Word, w16: Word): Word {
    Rotl1(w3 ^ w8 ^ w14 ^ w16)
  }

  function Temp(a: Word, f: Word, e: Word, k: Word, w: Word): Word {
    Rotl5(a) + f + e + k + w
  }

  /** Iteration t of section 6.1.2, step 3, on schedule word w. */
  function Round(v: Hash, t: nat, w: Word): Hash {
    Hash(Temp(v.a, F(t, v.b, v.c, v.d), v.e, K(t), w), v.a, Rotl30(v.b), v.c, v.d)
  }

  /** The schedule of one block, 80 words. */
  function Schedule(m: seq<Byte>): (ws: seq<Word>)
    requires |m| == 64
    ensures |ws| == 80
  {
    seq(80, t requires 0 <= t => W(m, t))
  }

  /** The working variables after one iteration for each word of ws. */
  function Rounds(h: Hash, ws: seq<Word>): Hash {
    if ws == [] then h
    else
      var t := |ws| - 1;
      Round(Rounds(h, ws[..t]), t, ws[t])
  }

  /** Section 6.1.2, step 4: the intermediate hash value of one block. */
  function Compress(h: Hash, m: seq<Byte>): Hash
    requires |m| == 64
  {
    Sum(h, Rounds(h, Schedule(m)))
  }

  function Sum(h: Hash, v: Hash): Hash {
    Hash(h.a + v.a, h.b + v.b, h.c + v.c, h.d + v.d, h.e + v.e)
  }

  /** Section 6.1.2: the blocks of a parsed message, one after the other. */
  function HashBlocks(h: Hash, s: seq<Byte>): Hash {
    if |s| < 64 then h else Compress(HashBlocks(h, s[..|s| - 64]), s[|s| - 64..])
  }

  function Zeros(n: nat): seq<Byte> {
    seq(n, _ => 0 as Byte)
  }

  /** The number l as n binary digits, most significant first. */
  function Binary(l: nat, n: nat): (r: seq<bool>)
    ensures |r| == n
  {
    if n == 0 then [] else Binary(l / 2, n - 1) + [l % 2 == 1]
  }

  function ByteBits(b: Byte): (r: seq<bool>)
    ensures |r| == 8
  {
    [b & 0x80 != 0, b & 0x40 != 0, b & 0x20 != 0, b & 0x10 != 0, b & 8 != 0, b & 4 != 0, b & 2 != 0, b & 1 != 0]
  }

  function FromBits(s: seq<bool>): (b: Byte)
    requires |s| == 8
  {
    (if s[0] then 0x80 else 0) | (if s[1] then 0x40 else 0) | (if s[2] then 0x20 else 0) | (if s[3] then 0x10 else 0) |
    (if s[4] then 8 else 0) | (if s[5] then 4 else 0) | (if s[6] then 2 else 0) | (if s[7] then 1 else 0)
  }

  lemma FromBitsRoundTrip(s: seq<bool>)
    requires |s| == 8
    ensures ByteBits(FromBits(s)) == s
  {
  }

  /** The cast (uint8_t) l keeps the eight lowest binary digits. */
  function ByteOf(l: nat): Byte {
    FromBits(Binary(l, 8))
  }

  /** The shift l >> k of an unsigned integer. */
  function ShiftRight(l: nat, k: nat): nat {
    if k == 0 then l else ShiftRight(l / 2, k - 1)
  }

  /** The number l as n bytes, most significant first. */
  function BigEndian(l: nat, n: nat): (r: seq<Byte>)
    ensures |r| == n
  {
    seq(n, i requires 0 <= i < n => ByteOf(ShiftRight(l, 8 * (n - 1 - i))))
  }

  /** How many whole zero bytes follow the byte 0x80, which holds the one bit and seven zeros. */
  function ZeroBytes(len: nat): nat {
    (119 - len % 64) % 64
  }

  /** Whole bytes padded to whole blocks, ending in the length field bits. */
  function PaddedTail(rest: seq<Byte>, bits: nat): seq<Byte> {
    rest + [0x80] + Zeros(ZeroBytes(|rest|)) + BigEndian(bits, 8)
  }

  /** Section 5.1.1 for a message of whole bytes; PaddedIsFips relates it to the standard's bits. */
  function Padded(data: seq<Byte>): seq<Byte> {
    PaddedTail(data, 8 * |data|)
  }

  /** FIPS 180-4 defines SHA-1 for messages shorter than 2^64 bits. */
  function Digest(data: seq<Byte>): Hash
    requires 8 * |data| < TWO_TO_THE_64
  {
    HashBlocks(H0(), Padded(data))
  }

  const TWO_TO_THE_64 := 0x1_0000_0000_0000_0000

  // ------------------------------------------------------- the padding, bit by bit

  function FlatMap(f: Byte -> seq<bool>, s: seq<Byte>): seq<bool> {
    if s == [] then [] else FlatMap(f, s[..|s| - 1]) + f(s[|s| - 1])
  }

  function Bits(s: seq<Byte>): seq<bool> {
    FlatMap(ByteBits, s)
  }

  ghost predicate FillsBlock(l: nat, k: nat) {
    (l + 1 + k) % 512 == 448
  }

  /** Section 5.1.1: "k is the smallest, non-negative solution" of l + 1 + k = 448 mod 512. */
  ghost predicate IsZeroCount(l: nat, k: nat) {
    FillsBlock(l, k) && forall j: nat :: FillsBlock(l, j) ==> k <= j
  }

  ghost predicate IsFipsPadding(message: seq<bool>, padded: seq<bool>) {
    exists k: nat ::
      IsZeroCount(|message|, k) &&
      padded == message + [true] + seq(k, _ => false) + Binary(|message|, 64)
  }

  lemma {:induction false} BinarySplit(l: nat, n: nat, k: nat)
    ensures Binary(l, n + k) == Binary(ShiftRight(l, k), n) + Binary(l, k)
  {
    if k > 0 {
      BinarySplit(l / 2, n, k - 1);
    }
  }

  lemma {:induction false} ShiftTwice(l: nat, j: nat, k: nat)
    ensures ShiftRight(ShiftRight(l, j), k) == ShiftRight(l, j + k)
  {
    if j > 0 {
      ShiftTwice(l / 2, j - 1, k);
    }
  }

  lemma BigEndianInit(l: nat, n: nat)
    requires n > 0
    ensures BigEndian(l, n) == BigEndian(ShiftRight(l, 8), n - 1) + [ByteOf(l)]
  {
    hide ByteOf;
    var b, c := BigEndian(l, n), BigEndian(ShiftRight(l, 8), n - 1);
    forall i | 0 <= i < n - 1
      ensures b[i] == c[i]
    {
      ShiftTwice(l, 8, 8 * (n - 2 - i));
    }
    assert b[n - 1] == ByteOf(ShiftRight(l, 0));
  }

  lemma {:induction false} BitsOfBigEndian(l: nat, n: nat)
    ensures Bits(BigEndian(l, n)) == Binary(l, 8 * n)
    decreases n
  {
    if n > 0 {
      BitsOfBigEndian(ShiftRight(l, 8), n - 1);
      BinarySplit(l, 8 * (n - 1), 8);
      BigEndianInit(l, n);
      BitsSnoc(BigEndian(ShiftRight(l, 8), n - 1), ByteOf(l));
      FromBitsRoundTrip(Binary(l, 8));
    }
  }

  lemma BitsSnoc(s: seq<Byte>, b: Byte)
    ensures Bits(s + [b]) == Bits(s) + ByteBits(b)
  {
    assert (s + [b])[..|s|] == s;
  }

  lemma {:induction false} FlatMapAppend(f: Byte -> seq<bool>, s: seq<Byte>, t: seq<Byte>)
    ensures FlatMap(f, s + t) == FlatMap(f, s) + FlatMap(f, t)
  {
    if t == [] {
      assert s + t == s;
    } else {
      FlatMapAppend(f, s, t[..|t| - 1]);
      assert (s + t)[..|s + t| - 1] == s + t[..|t| - 1];
    }
  }

  lemma BitsAppend(s: seq<Byte>, t: seq<Byte>)
    ensures Bits(s + t) == Bits(s) + Bits(t)
  {
    FlatMapAppend(ByteBits, s, t);
  }

  lemma {:induction false} BitsLength(s: seq<Byte>)
    ensures |Bits(s)| == 8 * |s|
  {
    if s != [] {
      BitsLength(s[..|s| - 1]);
    }
  }

  lemma {:induction false} BitsOfZeros(n: nat)
    ensures Bits(Zeros(n)) == seq(8 * n, _ => false)
  {
    if n > 0 {
      BitsOfZeros(n - 1);
      assert Zeros(n)[..n - 1] == Zeros(n - 1);
      assert ByteBits(0) == seq(8, _ => false);
    }
  }

  lemma ZeroBytesIsMinimal(len: nat)
    ensures IsZeroCount(8 * len, 7 + 8 * ZeroBytes(len))
  {
    var k := 7 + 8 * ZeroBytes(len);
    assert FillsBlock(8 * len, k) by {
      var q := len / 64;
      assert len == 64 * q + len % 64;
    }
    forall j: nat | FillsBlock(8 * len, j)
      ensures k <= j
    {
      CongruentBelow(k, j, 8 * len + 1);
    }
  }

  lemma CongruentBelow(k: nat, j: nat, l: nat)
    requires k < 512 && (l + k) % 512 == (l + j) % 512
    ensures k <= j
  {
  }

  lemma BitsOfOneByte()
    ensures Bits([0x80]) == [true] + seq(7, _ => false)
  {
    BitsSnoc([], 0x80);
    assert [] + [0x80 as Byte] == [0x80];
    assert ByteBits(0x80) == [true] + seq(7, _ => false);
  }

  /** The byte-level padding is the standard's bit-level one. */
  lemma PaddedIsFips(data: seq<Byte>)
    ensures IsFipsPadding(Bits(data), Bits(Padded(data)))
  {
    hide Zeros, BigEndian, Binary, Bits;
    var z, l := ZeroBytes(|data|), 8 * |data|;
    var k := 7 + 8 * z;
    ZeroBytesIsMinimal(|data|);
    BitsAppend(data + [0x80] + Zeros(z), BigEndian(l, 8));
    BitsAppend(data + [0x80], Zeros(z));
    BitsAppend(data, [0x80]);
    BitsOfZeros(z);
    BitsOfBigEndian(l, 8);
    BitsOfOneByte();
    BitsLength(data);
    var d, f7, fz, n := Bits(data), seq(7, _ => false), seq(8 * z, _ => false), Binary(l, 64);
    assert seq(k, _ => false) == f7 + fz;
    assert d + ([true] + f7) + fz + n == d + [true] + (f7 + fz) + n;
  }

  // ------------------------------------------------------------------ the code

  /** The if chain of the loop of 80 rounds, with Ch and Maj in their inclusive-or form. */
  function MixOr(i: nat, b: Word, d: Word, e: Word): Word {
    if i < 20 then (b & d) | (!b & e)
    else if i < 40 then b ^ d ^ e
    else if i < 60 then (b & d) | (b & e) | (d & e)
    else b ^ d ^ e
  }

  lemma ChooseForms(x: Word, y: Word, z: Word)
    ensures (x & y) | (!x & z) == Ch(x, y, z)
  {
  }

  lemma MajorityForms(x: Word, y: Word, z: Word)
    ensures (x & y) | (x & z) | (y & z) == Maj(x, y, z)
  {
  }

  lemma MixForms(i: nat, b: Word, d: Word, e: Word)
    ensures MixOr(i, b, d, e) == F(i, b, d, e)
  {
    if i < 20 {
      ChooseForms(b, d, e);
    } else if 40 <= i < 60 {
      MajorityForms(b, d, e);
    }
  }

  lemma RoundsSnoc(h: Hash, ws: seq<Word>, w: Word)
    ensures Rounds(h, ws + [w]) == Round(Rounds(h, ws), |ws|, w)
  {
    assert (ws + [w])[..|ws|] == ws;
  }

  function HashOf(h: seq<Word>): Hash
    requires |h| == 5
  {
    Hash(h[0], h[1], h[2], h[3], h[4])
  }

  /** The chaining value c->h[5] of the fl_sha1 struct; its other fields are never used. */
  class Context {
    const h: array<Word>

    ghost function Value(): Hash
      reads h
      requires h.Length == 5
    {
      HashOf(h[..])
    }

    constructor ()
      ensures h.Length == 5 && fresh(h)
      ensures Value() == H0()
    {
      var words := new Word[5];
      words[0], words[1], words[2] := 0x67452301, 0xefcdab89, 0x98badcfe;
      words[3], words[4] := 0x10325476, 0xc3d2e1f0;
      h := words;
    }

    /** One iteration of the loop of 80 rounds, on its locals a, b, d, e and g. */
    static method Iterate(v: Hash, i: nat, w: Word) returns (v': Hash)
      ensures v' == Round(v, i, w)
    {
      var a, b, d, e, g := v.a, v.b, v.c, v.d, v.e;
      var f, k := MixOr(i, b, d, e), K(i);
      MixForms(i, b, d, e);
      var t := Temp(a, f, g, k, w);
      g := e;
      e := d;
      d := Rotl30(b);
      b := a;
      a := t;
      v' := Hash(a, b, d, e, g);
    }

    /** fl_sha1_block on the 64 bytes of p from offset at. */
    method Block(p: array<Byte>, at: nat)
      requires h.Length == 5 && at + 64 <= p.Length
      modifies h
      ensures Value() == Compress(old(Value()), p[at..at + 64])
    {
      hide Rounds;
      var w := FillSchedule(p, at);
      var v := RunRounds(w);
      Add(v);
    }

    method Add(v: Hash)
      requires h.Length == 5
      modifies h
      ensures Value() == Sum(old(Value()), v)
    {
      var r := Sum(Hash(h[0], h[1], h[2], h[3], h[4]), v);
      h[0], h[1], h[2], h[3], h[4] := r.a, r.b, r.c, r.d, r.e;
    }

    method RunRounds(w: array<Word>) returns (v: Hash)
      requires h.Length == 5 && w.Length == 80
      ensures v == Rounds(Value(), w[..])
    {
      v := Hash(h[0], h[1], h[2], h[3], h[4]);
      for i := 0 to 80
        invariant v == Rounds(Value(), w[..i])
      {
        v := Iterate(v, i, w[i]);
        RoundsSnoc(Value(), w[..i], w[i]);
        assert w[..i + 1] == w[..i] + [w[i]];
      }
      assert w[..80] == w[..];
    }

    /** The two loops of fl_sha1_block that fill w[80]. */
    static method FillSchedule(p: array<Byte>, at: nat) returns (w: array<Word>)
      requires at + 64 <= p.Length
      ensures fresh(w) && w.Length == 80 && w[..] == Schedule(p[at..at + 64])
    {
      ghost var m := p[at..at + 64];
      w := new Word[80];
      for i := 0 to 16
        invariant forall t :: 0 <= t < i ==> w[t] == W(m, t)
      {
        w[i] := ReadWord(p, at, i);
      }
      for i := 16 to 80
        invariant forall t :: 0 <= t < i ==> w[t] == W(m, t)
      {
        w[i] := Expand(w[i - 3], w[i - 8], w[i - 14], w[i - 16]);
      }
    }

    static method ReadWord(p: array<Byte>, at: nat, i: nat) returns (x: Word)
      requires i < 16 && at + 64 <= p.Length
      ensures x == MessageWord(p[at..at + 64], i)
    {
      var q := at + i * 4;
      x := ((p[q] as Word) << 24) | ((p[q + 1] as Word) << 16) | ((p[q + 2] as Word) << 8) | (p[q + 3] as Word);
    }
  }

  function HexDigit(d: Word): char {
    if d == 0 then '0' else if d == 1 then '1' else if d == 2 then '2' else if d == 3 then '3'
    else if d == 4 then '4' else if d == 5 then '5' else if d == 6 then '6' else if d == 7 then '7'
    else if d == 8 then '8' else if d == 9 then '9' else if d == 10 then 'a' else if d == 11 then 'b'
    else if d == 12 then 'c' else if d == 13 then 'd' else if d == 14 then 'e' else 'f'
  }

  function Nibble(x: Word, i: nat): Word {
    if i == 0 then x >> 28
    else if i == 1 then (x >> 24) & 15
    else if i == 2 then (x >> 20) & 15
    else if i == 3 then (x >> 16) & 15
    else if i == 4 then (x >> 12) & 15
    else if i == 5 then (x >> 8) & 15
    else if i == 6 then (x >> 4) & 15
    else x & 15
  }

  /** What the format %08x prints. */
  function HexWord(x: Word): (r: string)
    ensures |r| == 8
  {
    seq(8, i requires 0 <= i < 8 => HexDigit(Nibble(x, i)))
  }

  function HexWords(ws: seq<Word>): (r: string)
    ensures |r| == 8 * |ws|
  {
    if ws == [] then "" else HexWords(ws[..|ws| - 1]) + HexWord(ws[|ws| - 1])
  }

  /** The digest as text, the name libFuzzer gives a corpus file. */
  function HexDigest(h: Hash): (r: string)
    ensures |r| == 40
  {
    HexWords([h.a, h.b, h.c, h.d, h.e])
  }

  /** The hash of a message as the code pads it: the length field is a uint64, so it wraps. */
  function CodeDigest(data: seq<Byte>): Hash {
    HashBlocks(H0(), PaddedTail(data, 8 * |data| % TWO_TO_THE_64))
  }

  lemma CodeDigestIsDigest(data: seq<Byte>)
    requires 8 * |data| < TWO_TO_THE_64
    ensures CodeDigest(data) == Digest(data)
  {
    assert 8 * |data| % TWO_TO_THE_64 == 8 * |data|;
  }

  lemma HashBlocksSnoc(h: Hash, s: seq<Byte>, m: seq<Byte>)
    requires |m| == 64
    ensures HashBlocks(h, s + m) == Compress(HashBlocks(h, s), m)
  {
    hide Compress;
    assert (s + m)[..|s + m| - 64] == s && (s + m)[|s|..] == m;
  }

  lemma {:induction false} HashBlocksAppend(h: Hash, s: seq<Byte>, t: seq<Byte>)
    requires |t| % 64 == 0
    ensures HashBlocks(h, s + t) == HashBlocks(HashBlocks(h, s), t)
    decreases |t|
  {
    hide Compress;
    if t == [] {
      assert s + t == s;
    } else {
      var u, m := t[..|t| - 64], t[|t| - 64..];
      HashBlocksAppend(h, s, u);
      HashBlocksSnoc(h, s + u, m);
      assert s + t == s + u + m;
    }
  }

  /** memset(pad + from, 0, n). */
  method Clear(pad: array<Byte>, from: nat, n: nat)
    requires from + n <= pad.Length
    modifies pad
    ensures pad[..] == old(pad[..from]) + Zeros(n) + old(pad[from + n..])
  {
    for i := 0 to n
      invariant forall k :: from <= k < from + i ==> pad[k] == 0
      invariant forall k :: 0 <= k < pad.Length && !(from <= k < from + i) ==> pad[k] == old(pad[k])
    {
      pad[from + i] := 0;
    }
  }

  /** The loop that stores the length field at pad + 56; bits is a uint64. */
  method StoreLength(pad: array<Byte>, bits: nat)
    requires pad.Length == 72
    modifies pad
    ensures pad[..64] == old(pad[..56]) + BigEndian(bits, 8)
  {
    ghost var field := BigEndian(bits, 8);
    for i := 0 to 8
      invariant pad[..56] == old(pad[..56])
      invariant forall k :: 0 <= k < i ==> pad[56 + k] == field[k]
    {
      pad[56 + i] := ByteOf(ShiftRight(bits, 56 - 8 * i));
    }
    assert pad[56..64] == field;
    assert pad[..64] == pad[..56] + pad[56..64];
  }

  lemma ZeroBytesOfTail(n: nat)
    requires n < 64
    ensures ZeroBytes(n) == if n <= 55 then 55 - n else 119 - n
  {
  }

  lemma OneTailBlock(h: Hash, rest: seq<Byte>, bits: nat)
    requires |rest| <= 55
    ensures HashBlocks(h, PaddedTail(rest, bits))
         == Compress(h, rest + [0x80] + Zeros(55 - |rest|) + BigEndian(bits, 8))
  {
    hide Compress, ZeroBytes, BigEndian;
    ZeroBytesOfTail(|rest|);
    var m := PaddedTail(rest, bits);
    HashBlocksSnoc(h, [], m);
    assert [] + m == m;
  }

  lemma TwoTailBlocks(h: Hash, rest: seq<Byte>, bits: nat)
    requires 55 < |rest| < 64
    ensures HashBlocks(h, PaddedTail(rest, bits))
         == Compress(Compress(h, rest + [0x80] + Zeros(63 - |rest|)), Zeros(56) + BigEndian(bits, 8))
  {
    hide Compress, ZeroBytes, BigEndian;
    ZeroBytesOfTail(|rest|);
    var m1, m2 := rest + [0x80] + Zeros(63 - |rest|), Zeros(56) + BigEndian(bits, 8);
    HashBlocksSnoc(h, [], m1);
    assert [] + m1 == m1;
    HashBlocksSnoc(h, m1, m2);
    assert PaddedTail(rest, bits) == m1 + m2;
  }

  /** memcpy(pad, data + i, r); pad[r++] = 0x80. */
  method CopyTail(pad: array<Byte>, data: array<Byte>, i: nat) returns (r: nat)
    requires pad.Length == 72 && pad != data && i <= data.Length < i + 64
    modifies pad
    ensures r == data.Length - i + 1 && pad[..r] == data[i..] + [0x80]
  {
    r := data.Length - i;
    forall k | 0 <= k < r {
      pad[k] := data[i + k];
    }
    pad[r] := 0x80;
    r := r + 1;
  }

  /** pad now holds 56 bytes of the last block: store the length and hash it. */
  method LastBlock(c: Context, pad: array<Byte>, bits: nat)
    requires c.h.Length == 5 && pad.Length == 72
    modifies c.h, pad
    ensures c.Value() == Compress(old(c.Value()), old(pad[..56]) + BigEndian(bits, 8))
  {
    hide Compress;
    StoreLength(pad, bits);
    assert pad[0..64] == pad[..64];
    c.Block(pad, 0);
  }

  /** The case r > 56: the length does not fit, so pad is hashed on its own and started again. */
  method SpillBlock(c: Context, pad: array<Byte>, r: nat)
    requires c.h.Length == 5 && pad.Length == 72 && 56 < r <= 64
    modifies c.h, pad
    ensures c.Value() == Compress(old(c.Value()), old(pad[..r]) + Zeros(64 - r))
    ensures pad[..56] == Zeros(56)
  {
    hide Compress;
    Clear(pad, r, 64 - r);
    assert pad[0..64] == old(pad[..r]) + Zeros(64 - r);
    c.Block(pad, 0);
    Clear(pad, 0, 56);
  }

  /** The part of fl_sha1_hex after the full blocks, which started at data + i. */
  method Tail(c: Context, data: array<Byte>, i: nat, bits: nat)
    requires c.h.Length == 5 && i <= data.Length < i + 64
    modifies c.h
    ensures c.Value() == HashBlocks(old(c.Value()), PaddedTail(data[i..], bits))
  {
    hide Compress, ZeroBytes, BigEndian, HashBlocks, PaddedTail;
    ghost var rest := data[i..];
    var pad := new Byte[72];
    var r := CopyTail(pad, data, i);
    if r > 56 {
      TwoTailBlocks(c.Value(), rest, bits);
      SpillBlock(c, pad, r);
    } else {
      OneTailBlock(c.Value(), rest, bits);
      Clear(pad, r, 56 - r);
      assert pad[..56] == rest + [0x80] + Zeros(56 - r);
    }
    LastBlock(c, pad, bits);
  }

  /** snprintf(out + at, 9, "%08x", x): eight digits and a NUL. */
  method PrintWord(out: array<char>, at: nat, x: Word)
    requires at + 9 <= out.Length
    modifies out
    ensures out[..at + 8] == old(out[..at]) + HexWord(x)
  {
    var text := HexWord(x);
    forall k | 0 <= k < 8 {
      out[at + k] := text[k];
    }
    out[at + 8] := '\0';
  }

  /** One pass of the loop over the full blocks. */
  method FullBlock(c: Context, data: array<Byte>, i: nat, ghost start: Hash)
    requires c.h.Length == 5 && i + 64 <= data.Length
    requires c.Value() == HashBlocks(start, data[..i])
    modifies c.h
    ensures c.Value() == HashBlocks(start, data[..i + 64])
  {
    hide Compress;
    c.Block(data, i);
    HashBlocksSnoc(start, data[..i], data[i..i + 64]);
    assert data[..i + 64] == data[..i] + data[i..i + 64];
  }

  /** The loop over the full blocks. */
  method FullBlocks(c: Context, data: array<Byte>) returns (i: nat)
    requires c.h.Length == 5
    modifies c.h
    ensures i <= data.Length < i + 64 && i % 64 == 0
    ensures c.Value() == HashBlocks(old(c.Value()), data[..i])
  {
    i := 0;
    while i + 64 <= data.Length
      invariant i <= data.Length && i % 64 == 0
      invariant c.Value() == HashBlocks(old(c.Value()), data[..i])
    {
      FullBlock(c, data, i, old(c.Value()));
      i := i + 64;
    }
  }

  /** The loop of snprintf calls and the final NUL. */
  method PrintHash(h: array<Word>, out: array<char>)
    requires h.Length == 5 && out.Length == 41
    modifies out
    ensures out[..] == HexDigest(HashOf(h[..])) + ['\0']
  {
    ghost var ws := h[..];
    for i := 0 to 5
      invariant h[..] == ws && out[..8 * i] == HexWords(ws[..i])
    {
      PrintWord(out, 8 * i, h[i]);
      assert ws[..i + 1][..i] == ws[..i];
    }
    assert ws[..5] == ws == [ws[0], ws[1], ws[2], ws[3], ws[4]];
    out[40] := '\0';
  }

  lemma PaddedTailLength(rest: seq<Byte>, bits: nat)
    ensures |PaddedTail(rest, bits)| % 64 == 0
  {
    var n := |rest|;
    assert n == 64 * (n / 64) + n % 64;
    ZeroBytesOfTail(n % 64);
  }

  lemma SplitPadding(data: seq<Byte>, i: nat, bits: nat)
    requires i <= |data| && i % 64 == 0
    ensures data[..i] + PaddedTail(data[i..], bits) == PaddedTail(data, bits)
  {
    assert data == data[..i] + data[i..];
    assert ZeroBytes(|data| - i) == ZeroBytes(|data|) by {
      assert i == 64 * (i / 64);
      assert (|data| - i) % 64 == |data| % 64;
    }
    var pad := [0x80] + Zeros(ZeroBytes(|data|)) + BigEndian(bits, 8);
    assert PaddedTail(data, bits) == data + pad;
    assert PaddedTail(data[i..], bits) == data[i..] + pad;
  }

  lemma HashInTwoParts(h: Hash, data: seq<Byte>, i: nat, bits: nat)
    requires i <= |data| && i % 64 == 0
    ensures HashBlocks(HashBlocks(h, data[..i]), PaddedTail(data[i..], bits)) == HashBlocks(h, PaddedTail(data, bits))
  {
    hide Compress, HashBlocks;
    PaddedTailLength(data[i..], bits);
    HashBlocksAppend(h, data[..i], PaddedTail(data[i..], bits));
    SplitPadding(data, i, bits);
  }

  method HashData(c: Context, data: array<Byte>, bits: nat)
    requires c.h.Length == 5
    modifies c.h
    ensures c.Value() == HashBlocks(old(c.Value()), PaddedTail(data[..], bits))
  {
    hide Compress;
    var i := FullBlocks(c, data);
    Tail(c, data, i, bits);
    HashInTwoParts(old(c.Value()), data[..], i, bits);
  }

  method Sha1Of(data: array<Byte>) returns (c: Context)
    ensures fresh(c.h) && c.h.Length == 5 && c.Value() == CodeDigest(data[..])
  {
    hide Compress;
    c := new Context();
    HashData(c, data, 8 * data.Length % TWO_TO_THE_64);
  }

  /** fl_sha1_hex: the digest of data as 40 characters and a terminating NUL. */
  method HexOf(data: array<Byte>, out: array<char>)
    requires data.Length < 0x8000_0000_0000_0000  // no object exceeds PTRDIFF_MAX
    requires out.Length == 41
    modifies out
    ensures out[..] == HexDigest(CodeDigest(old(data[..]))) + ['\0']
  {
    hide Compress;
    var c := Sha1Of(data);
    PrintHash(c.h, out);
  }

  /** Every message the standard covers gets the standard's digest. */
  method HexOfIsSha1(data: array<Byte>, out: array<char>)
    requires 8 * data.Length < TWO_TO_THE_64
    requires out.Length == 41
    modifies out
    ensures out[..] == HexDigest(Digest(old(data[..]))) + ['\0']
  {
    hide Compress;
    HexOf(data, out);
    CodeDigestIsDigest(old(data[..]));
  }

  // ---------------------------------------------------- the text read as a number

  const DIGITS := "0123456789abcdef"

  /** The first place of c in s, or the length of s when it has none. */
  function Place(c: char, s: string): (p: nat)
    ensures p <= |s|
    ensures p < |s| ==> s[p] == c
    ensures p == |s| <==> c !in s
  {
    if s == "" || s[0] == c then 0 else 1 + Place(c, s[1..])
  }

  /** The number that s stands for in base 16. */
  function ReadHex(s: string): nat {
    if s == "" then 0 else 16 * ReadHex(s[..|s| - 1]) + Place(s[|s| - 1], DIGITS)
  }

  lemma DigitsDiffer(i: nat, j: nat)
    requires i < 16 && j < 16 && DIGITS[i] == DIGITS[j]
    ensures i == j
  {
  }

  lemma HexDigitAtItsPlace(d: Word)
    requires d < 16
    ensures HexDigit(d) in DIGITS && Place(HexDigit(d), DIGITS) == d as nat
  {
    assert DIGITS[d as nat] == HexDigit(d);
    DigitsDiffer(Place(HexDigit(d), DIGITS), d as nat);
  }

  lemma {:induction false} ReadHexEight(s: string)
    requires |s| == 8
    ensures ReadHex(s) == FromDigits(Place(s[0], DIGITS), Place(s[1], DIGITS), Place(s[2], DIGITS), Place(s[3], DIGITS),
                                     Place(s[4], DIGITS), Place(s[5], DIGITS), Place(s[6], DIGITS), Place(s[7], DIGITS))
  {
    hide Place;
    forall i | 0 <= i < 8
      ensures ReadHex(s[..i + 1]) == 16 * ReadHex(s[..i]) + Place(s[i], DIGITS)
    {
      assert s[..i + 1][..i] == s[..i];
    }
    var r := (i: nat) requires i <= 8 => ReadHex(s[..i]);
    assert r(1) == 16 * r(0) + Place(s[0], DIGITS) && r(2) == 16 * r(1) + Place(s[1], DIGITS);
    assert r(3) == 16 * r(2) + Place(s[2], DIGITS) && r(4) == 16 * r(3) + Place(s[3], DIGITS);
    assert r(5) == 16 * r(4) + Place(s[4], DIGITS) && r(6) == 16 * r(5) + Place(s[5], DIGITS);
    assert r(7) == 16 * r(6) + Place(s[6], DIGITS) && r(8) == 16 * r(7) + Place(s[7], DIGITS);
    assert s[..8] == s;
  }

  function FromDigits(a: nat, b: nat, c: nat, d: nat, e: nat, f: nat, g: nat, h: nat): nat {
    0x1000_0000 * a + 0x100_0000 * b + 0x10_0000 * c + 0x1_0000 * d + 0x1000 * e + 0x100 * f + 0x10 * g + h
  }

  function Pair(a: bv4, b: bv4): Byte {
    ((a as Byte) << 4) | (b as Byte)
  }

  lemma PairValue(a: bv4, b: bv4)
    ensures Pair(a, b) as nat == 16 * (a as nat) + b as nat
  {
  }

  lemma NibbleRange(x: Word, i: nat)
    ensures Nibble(x, i) < 16
  {
  }

  lemma Narrowed(x: Word, i: nat) returns (n: bv4)
    ensures Nibble(x, i) == n as Word && Nibble(x, i) as nat == n as nat
  {
    NibbleRange(x, i);
    n := Nibble(x, i) as bv4;
  }

  lemma NibblesMake(x: Word, a: bv4, b: bv4, c: bv4, d: bv4, e: bv4, f: bv4, g: bv4, h: bv4)
    requires a as Word == Nibble(x, 0) && b as Word == Nibble(x, 1) && c as Word == Nibble(x, 2)
    requires d as Word == Nibble(x, 3) && e as Word == Nibble(x, 4) && f as Word == Nibble(x, 5)
    requires g as Word == Nibble(x, 6) && h as Word == Nibble(x, 7)
    ensures x == EightNibbles(a, b, c, d, e, f, g, h)
  {
  }

  function EightNibbles(a: bv4, b: bv4, c: bv4, d: bv4, e: bv4, f: bv4, g: bv4, h: bv4): Word {
    ((a as Word) << 28) | ((b as Word) << 24) | ((c as Word) << 20) | ((d as Word) << 16) |
    ((e as Word) << 12) | ((f as Word) << 8) | ((g as Word) << 4) | (h as Word)
  }

  lemma NibblesInPairs(a: bv4, b: bv4, c: bv4, d: bv4, e: bv4, f: bv4, g: bv4, h: bv4)
    ensures EightNibbles(a, b, c, d, e, f, g, h)
         == FourBytes(Pair(a, b), Pair(c, d), Pair(e, f), Pair(g, h))
  {
  }

  lemma EightValue(a: bv4, b: bv4, c: bv4, d: bv4, e: bv4, f: bv4, g: bv4, h: bv4)
    ensures EightNibbles(a, b, c, d, e, f, g, h) as nat
         == FromDigits(a as nat, b as nat, c as nat, d as nat, e as nat, f as nat, g as nat, h as nat)
  {
    hide Pair, EightNibbles, FourBytes;
    NibblesInPairs(a, b, c, d, e, f, g, h);
    PairValue(a, b);
    PairValue(c, d);
    PairValue(e, f);
    PairValue(g, h);
    FourBytesValue(Pair(a, b), Pair(c, d), Pair(e, f), Pair(g, h));
  }

  lemma NibblesValue(x: Word)
    ensures x as nat == FromDigits(Nibble(x, 0) as nat, Nibble(x, 1) as nat, Nibble(x, 2) as nat, Nibble(x, 3) as nat,
                                   Nibble(x, 4) as nat, Nibble(x, 5) as nat, Nibble(x, 6) as nat, Nibble(x, 7) as nat)
  {
    hide Nibble, EightNibbles, FromDigits;
    var a := Narrowed(x, 0);
    var b := Narrowed(x, 1);
    var c := Narrowed(x, 2);
    var d := Narrowed(x, 3);
    var e := Narrowed(x, 4);
    var f := Narrowed(x, 5);
    var g := Narrowed(x, 6);
    var h := Narrowed(x, 7);
    NibblesMake(x, a, b, c, d, e, f, g, h);
    EightValue(a, b, c, d, e, f, g, h);
  }

  /** What %08x prints is the word in base 16, in digits of lower case. */
  lemma HexWordReadsBack(x: Word)
    ensures (forall c :: c in HexWord(x) ==> c in DIGITS) && ReadHex(HexWord(x)) == x as nat
  {
    hide Nibble, HexDigit, ReadHex, Place, FromDigits;
    var s := HexWord(x);
    forall i: nat | i < 8
      ensures s[i] in DIGITS && Place(s[i], DIGITS) == Nibble(x, i) as nat
    {
      NibbleRange(x, i);
      HexDigitAtItsPlace(Nibble(x, i));
    }
    ReadHexEight(s);
    NibblesValue(x);
  }

  // ------------------------------------------------- the text determines the digest

  lemma ValueDetermines(x: Word, y: Word)
    requires x as nat == y as nat
    ensures x == y
  {
    assert x as nat as Word == x && y as nat as Word == y;
  }

  lemma HexWordInjective(x: Word, y: Word)
    requires HexWord(x) == HexWord(y)
    ensures x == y
  {
    hide HexWord, ReadHex;
    HexWordReadsBack(x);
    HexWordReadsBack(y);
    ValueDetermines(x, y);
  }

  lemma {:induction false} HexWordsInjective(v: seq<Word>, w: seq<Word>)
    requires |v| == |w| && HexWords(v) == HexWords(w)
    ensures v == w
  {
    if v != [] {
      var n := |v| - 1;
      var a, b := HexWords(v), HexWords(w);
      assert a[..8 * n] == HexWords(v[..n]) && a[8 * n..] == HexWord(v[n]);
      assert b[..8 * n] == HexWords(w[..n]) && b[8 * n..] == HexWord(w[n]);
      HexWordsInjective(v[..n], w[..n]);
      HexWordInjective(v[n], w[n]);
    }
  }

  /** Two inputs get one name exactly when their digests are equal. */
  lemma NameDeterminesDigest(g: Hash, h: Hash)
    requires HexDigest(g) == HexDigest(h)
    ensures g == h
  {
    HexWordsInjective([g.a, g.b, g.c, g.d, g.e], [h.a, h.b, h.c, h.d, h.e]);
    var v, w := [g.a, g.b, g.c, g.d, g.e], [h.a, h.b, h.c, h.d, h.e];
    assert v[0] == w[0] && v[1] == w[1] && v[2] == w[2] && v[3] == w[3] && v[4] == w[4];
  }
}
