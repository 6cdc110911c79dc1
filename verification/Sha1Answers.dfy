/**
  Known answers: the digests of "abc", of the empty message and of a message of two blocks, worked
  out round by round from the definitions of Sha1.dfy, which holds its constants, rotations, additions
  and chaining to them.
*/
module Sha1Answers {

  import opened Sha1

  /** Sixteen words of a schedule. */
  datatype Row = Row(
    w0: Word, w1: Word, w2: Word, w3: Word, w4: Word, w5: Word, w6: Word, w7: Word,
    w8: Word, w9: Word, w10: Word, w11: Word, w12: Word, w13: Word, w14: Word, w15: Word)

  ghost predicate RowAt(m: seq<Byte>, t: nat, w: Row) {
    && |m| == 64
    && W(m, t) == w.w0 && W(m, t + 1) == w.w1 && W(m, t + 2) == w.w2 && W(m, t + 3) == w.w3
    && W(m, t + 4) == w.w4 && W(m, t + 5) == w.w5 && W(m, t + 6) == w.w6 && W(m, t + 7) == w.w7
    && W(m, t + 8) == w.w8 && W(m, t + 9) == w.w9 && W(m, t + 10) == w.w10 && W(m, t + 11) == w.w11
    && W(m, t + 12) == w.w12 && W(m, t + 13) == w.w13 && W(m, t + 14) == w.w14 && W(m, t + 15) == w.w15
  }

  /** The schedule goes on with the words of x after those of w. */
  predicate Follows(w: Row, x: Row) {
    && x.w0 == Expand(w.w13, w.w8, w.w2, w.w0) && x.w1 == Expand(w.w14, w.w9, w.w3, w.w1)
    && x.w2 == Expand(w.w15, w.w10, w.w4, w.w2) && x.w3 == Expand(x.w0, w.w11, w.w5, w.w3)
    && x.w4 == Expand(x.w1, w.w12, w.w6, w.w4) && x.w5 == Expand(x.w2, w.w13, w.w7, w.w5)
    && x.w6 == Expand(x.w3, w.w14, w.w8, w.w6) && x.w7 == Expand(x.w4, w.w15, w.w9, w.w7)
    && x.w8 == Expand(x.w5, x.w0, w.w10, w.w8) && x.w9 == Expand(x.w6, x.w1, w.w11, w.w9)
    && x.w10 == Expand(x.w7, x.w2, w.w12, w.w10) && x.w11 == Expand(x.w8, x.w3, w.w13, w.w11)
    && x.w12 == Expand(x.w9, x.w4, w.w14, w.w12) && x.w13 == Expand(x.w10, x.w5, w.w15, w.w13)
    && x.w14 == Expand(x.w11, x.w6, x.w0, w.w14) && x.w15 == Expand(x.w12, x.w7, x.w1, w.w15)
  }

  lemma ZeroWord(m: seq<Byte>, t: nat)
    requires 4 * t + 4 <= |m| && m[4 * t] == m[4 * t + 1] == m[4 * t + 2] == m[4 * t + 3] == 0
    ensures MessageWord(m, t) == 0
  {
  }

  lemma NextWord(m: seq<Byte>, t: nat)
    requires |m| == 64
    ensures W(m, t + 16) == Expand(W(m, t + 13), W(m, t + 8), W(m, t + 2), W(m, t))
  {
  }

  lemma FollowersAre(m: seq<Byte>, t: nat, w: Row, x: Row)
    requires RowAt(m, t, w) && Follows(w, x)
    ensures RowAt(m, t + 16, x)
  {
    hide Expand, W;
    NextWord(m, t);
    NextWord(m, t + 1);
    NextWord(m, t + 2);
    NextWord(m, t + 3);
    NextWord(m, t + 4);
    NextWord(m, t + 5);
    NextWord(m, t + 6);
    NextWord(m, t + 7);
    NextWord(m, t + 8);
    NextWord(m, t + 9);
    NextWord(m, t + 10);
    NextWord(m, t + 11);
    NextWord(m, t + 12);
    NextWord(m, t + 13);
    NextWord(m, t + 14);
    NextWord(m, t + 15);
  }

  function FourRounds(v: Hash, t: nat, a: Word, b: Word, c: Word, d: Word): Hash {
    Round(Round(Round(Round(v, t, a), t + 1, b), t + 2, c), t + 3, d)
  }

  /** Started from h, the variables are v after t rounds on block m. */
  ghost predicate Reached(h: Hash, m: seq<Byte>, t: nat, v: Hash) {
    |m| == 64 && t <= 80 && v == Rounds(h, Schedule(m)[..t])
  }

  lemma OneMoreRound(h: Hash, m: seq<Byte>, t: nat, v: Hash)
    requires Reached(h, m, t, v) && t < 80
    ensures Reached(h, m, t + 1, Round(v, t, W(m, t)))
  {
    hide Round, W;
    var ws := Schedule(m);
    assert ws[..t + 1] == ws[..t] + [ws[t]];
    RoundsSnoc(h, ws[..t], ws[t]);
  }

  lemma FourMore(h: Hash, m: seq<Byte>, t: nat, v: Hash)
    requires |m| == 64 && Reached(h, m, t, v) && t + 4 <= 80
    ensures Reached(h, m, t + 4, FourRounds(v, t, W(m, t), W(m, t + 1), W(m, t + 2), W(m, t + 3)))
  {
    hide Round, W, Reached;
    OneMoreRound(h, m, t, v);
    var v1 := Round(v, t, W(m, t));
    OneMoreRound(h, m, t + 1, v1);
    var v2 := Round(v1, t + 1, W(m, t + 1));
    OneMoreRound(h, m, t + 2, v2);
    OneMoreRound(h, m, t + 3, Round(v2, t + 2, W(m, t + 2)));
  }

  /** Sixteen rounds worked out four at a time. */
  lemma SixteenMore(h: Hash, m: seq<Byte>, t: nat, w: Row, v: Hash, v4: Hash, v8: Hash, v12: Hash, v16: Hash)
    requires RowAt(m, t, w) && Reached(h, m, t, v) && t + 16 <= 80
    requires FourRounds(v, t, w.w0, w.w1, w.w2, w.w3) == v4
    requires FourRounds(v4, t + 4, w.w4, w.w5, w.w6, w.w7) == v8
    requires FourRounds(v8, t + 8, w.w8, w.w9, w.w10, w.w11) == v12
    requires FourRounds(v12, t + 12, w.w12, w.w13, w.w14, w.w15) == v16
    ensures Reached(h, m, t + 16, v16)
  {
    hide FourRounds, Reached, W;
    FourMore(h, m, t, v);
    FourMore(h, m, t + 4, v4);
    FourMore(h, m, t + 8, v8);
    FourMore(h, m, t + 12, v12);
  }

  lemma NothingYet(h: Hash, m: seq<Byte>)
    requires |m| == 64
    ensures Reached(h, m, 0, h)
  {
  }

  lemma RowIsOfBlock(m: seq<Byte>, t: nat, w: Row)
    requires RowAt(m, t, w)
    ensures |m| == 64
  {
  }

  lemma AllRounds(h: Hash, m: seq<Byte>, v: Hash)
    requires Reached(h, m, 80, v)
    ensures Compress(h, m) == Sum(h, v)
  {
    assert Schedule(m)[..80] == Schedule(m);
  }

  lemma LengthField(bits: nat, high: nat)
    requires ShiftRight(bits, 8) == high && high < 2
    ensures BigEndian(bits, 8) == Zeros(6) + [ByteOf(high), ByteOf(bits)]
  {
    hide ByteOf;
    BigEndianInit(bits, 8);
    BigEndianInit(high, 7);
    ShiftedOut(high);
    NoBits(6);
  }

  lemma ShiftedOut(high: nat)
    requires high < 2
    ensures ShiftRight(high, 8) == 0
  {
    assert ShiftRight(high, 8) == ShiftRight(0, 7);
    NothingShifted(7);
  }

  lemma {:induction false} NothingShifted(k: nat)
    ensures ShiftRight(0, k) == 0
  {
    if k > 0 {
      NothingShifted(k - 1);
    }
  }

  lemma {:induction false} NoBits(n: nat)
    ensures BigEndian(0, n) == Zeros(n)
  {
    if n > 0 {
      NothingShifted(8);
      BigEndianInit(0, n);
      NoBits(n - 1);
    }
  }

  lemma FiveWords(h: Hash)
    ensures HexDigest(h) == HexWord(h.a) + HexWord(h.b) + HexWord(h.c) + HexWord(h.d) + HexWord(h.e)
  {
    hide HexWord;
    var two := [h.a] + [h.b];
    var four := two + [h.c] + [h.d];
    assert [h.a] == [] + [h.a] && [h.a, h.b, h.c, h.d, h.e] == four + [h.e];
    HexWordsSnoc([], h.a);
    HexWordsSnoc([h.a], h.b);
    HexWordsSnoc(two, h.c);
    HexWordsSnoc(two + [h.c], h.d);
    HexWordsSnoc(four, h.e);
    assert HexWords([]) == "";
  }

  lemma HexWordsSnoc(ws: seq<Word>, w: Word)
    ensures HexWords(ws + [w]) == HexWords(ws) + HexWord(w)
  {
    assert (ws + [w])[..|ws|] == ws;
  }

  // --------------------------------------------------------------------- "abc"

  /** The block that "abc" is padded to. */
  function Abc(): (m: seq<Byte>)
    ensures |m| == 64
  {
    [0x61, 0x62, 0x63, 0x80] + Zeros(58) + [0, 0x18]
  }

  function AbcRow0(): Row {
    Row(0x61626380, 0x00000000, 0x00000000, 0x00000000, 0x00000000, 0x00000000, 0x00000000, 0x00000000,
        0x00000000, 0x00000000, 0x00000000, 0x00000000, 0x00000000, 0x00000000, 0x00000000, 0x00000018)
  }

  function AbcRow16(): Row {
    Row(0xc2c4c700, 0x00000000, 0x00000030, 0x85898e01, 0x00000000, 0x00000060, 0x0b131c03, 0x00000030,
        0x85898ec1, 0x16263806, 0x00000000, 0x00000180, 0x2c4c700c, 0x000000f0, 0x93afb507, 0x5898e048)
  }

  function AbcRow32(): Row {
    Row(0x8e9a9202, 0x00000600, 0xb131c0f0, 0x16263bc6, 0x4ebed41e, 0x626380a1, 0x16263806, 0x000018c0,
        0xd2e138c4, 0x00000f00, 0x3afb5079, 0x898e04e5, 0xe2ba3c2b, 0x000060c0, 0x053a37cd, 0x74458547)
  }

  function AbcRow48(): Row {
    Row(0xda9415ed, 0x26380a16, 0x626383a1, 0x4ebf54de, 0x3835b44b, 0x0000f600, 0x1e84c7a3, 0x98e04d98,
        0x651d16a0, 0x62658ca1, 0x458544d6, 0x44584cb7, 0x7ba06619, 0x6380aea2, 0x0ae55269, 0x627b49a1)
  }

  function AbcRow64(): Row {
    Row(0x7cd45c9d, 0x000f0000, 0xfb50753a, 0xec6765e8, 0xba3c2be2, 0x0060c000, 0x3a37cd05, 0x458546f4,
        0xb8599dd6, 0x380a1a26, 0x01e02203, 0xe7cc3456, 0xe6e60b69, 0x00f60a00, 0x5795ef4f, 0x822e0879)
  }

  lemma AbcWords()
    ensures RowAt(Abc(), 0, AbcRow0())
  {
    hide MessageWord;
    FirstAndLastOfAbc();
    forall t: nat | 1 <= t < 15
      ensures W(Abc(), t) == 0
    {
      ZeroWord(Abc(), t);
    }
  }

  lemma FirstAndLastOfAbc()
    ensures MessageWord(Abc(), 0) == 0x61626380 && MessageWord(Abc(), 15) == 0x00000018
  {
    var m := Abc();
    assert m[0] == 0x61 && m[1] == 0x62 && m[2] == 0x63 && m[3] == 0x80;
    assert m[60] == m[61] == 0 && m[62] == 0x00 && m[63] == 0x18;
  }

  lemma AbcRounds16(m: seq<Byte>)
    requires RowAt(m, 0, AbcRow0())
    ensures Reached(H0(), m, 16, Hash(0x20bdd62f, 0x196bee77, 0x644a3da5, 0x1181ed99, 0x18c623f9))
    ensures RowAt(m, 16, AbcRow16())
  {
    hide RowAt, Reached;
    RowIsOfBlock(m, 0, AbcRow0());
    NothingYet(H0(), m);
    SixteenMore(H0(), m, 0, AbcRow0(),
                Hash(0x67452301, 0xefcdab89, 0x98badcfe, 0x10325476, 0xc3d2e1f0),
                Hash(0xcdd8e11b, 0xa1390f08, 0x626414db, 0xc045bf0c, 0x59d148c0),
                Hash(0x9e8c07d4, 0x993e30c1, 0x0ff1f290, 0xb3f52677, 0xf3763846),
                Hash(0x63188fe4, 0xfbda9e89, 0x60d47e4a, 0x12dab8ca, 0x27a301f5),
                Hash(0x20bdd62f, 0x196bee77, 0x644a3da5, 0x1181ed99, 0x18c623f9));
    FollowersAre(m, 0, AbcRow0(), AbcRow16());
  }

  lemma AbcRounds32(m: seq<Byte>)
    requires RowAt(m, 0, AbcRow0())
    ensures Reached(H0(), m, 32, Hash(0x3b845d33, 0x1267b407, 0x717eebd7, 0xa0dc2d4b, 0xd2aa1365))
    ensures RowAt(m, 32, AbcRow32())
  {
    hide RowAt, Reached;
    AbcRounds16(m);
    SixteenMore(H0(), m, 16, AbcRow16(),
                Hash(0x20bdd62f, 0x196bee77, 0x644a3da5, 0x1181ed99, 0x18c623f9),
                Hash(0xfd9e1d7d, 0xdc64901d, 0x20aa99ca, 0xd3a49608, 0xc82f758b),
                Hash(0xd541f12d, 0x21283486, 0x0ce88eff, 0x868dec32, 0x7f67875f),
                Hash(0x4aa84d97, 0xbe35fbd5, 0x12104ee9, 0xb1d59f71, 0x75507c4b),
                Hash(0x3b845d33, 0x1267b407, 0x717eebd7, 0xa0dc2d4b, 0xd2aa1365));
    FollowersAre(m, 16, AbcRow16(), AbcRow32());
  }

  lemma AbcRounds48(m: seq<Byte>)
    requires RowAt(m, 0, AbcRow0())
    ensures Reached(H0(), m, 48, Hash(0xbead02ca, 0xa01b846c, 0x8714787c, 0x503ca382, 0xfb86c6ab))
    ensures RowAt(m, 48, AbcRow48())
  {
    hide RowAt, Reached;
    AbcRounds32(m);
    SixteenMore(H0(), m, 32, AbcRow32(),
                Hash(0x3b845d33, 0x1267b407, 0x717eebd7, 0xa0dc2d4b, 0xd2aa1365),
                Hash(0xdcbbb0cb, 0x21796ad4, 0x4b03af04, 0x811bea82, 0xcee1174c),
                Hash(0x32de1cba, 0x4c986405, 0xf718e5cf, 0x03d447f6, 0xf72eec32),
                Hash(0xee1b1aaf, 0x7f193dc5, 0x25c28357, 0xff21f7b7, 0x8cb7872e),
                Hash(0xbead02ca, 0xa01b846c, 0x8714787c, 0x503ca382, 0xfb86c6ab));
    FollowersAre(m, 32, AbcRow32(), AbcRow48());
  }

  lemma AbcRounds64(m: seq<Byte>)
    requires RowAt(m, 0, AbcRow0())
    ensures Reached(H0(), m, 64, Hash(0x6b61c9e1, 0xb66c020b, 0x9523272c, 0xf5d5b051, 0x8fd4b796))
    ensures RowAt(m, 64, AbcRow64())
  {
    hide RowAt, Reached;
    AbcRounds48(m);
    SixteenMore(H0(), m, 48, AbcRow48(),
                Hash(0xbead02ca, 0xa01b846c, 0x8714787c, 0x503ca382, 0xfb86c6ab),
                Hash(0x3847ad66, 0x641db2ce, 0x4481cc71, 0xeebce4cd, 0xafab40b2),
                Hash(0x5e6456af, 0x7b71f76d, 0x09fa7c76, 0x792410db, 0x8e11eb59),
                Hash(0x3f52de5a, 0x09d785fd, 0x3498bfd4, 0xf211824f, 0xd79915ab),
                Hash(0x6b61c9e1, 0xb66c020b, 0x9523272c, 0xf5d5b051, 0x8fd4b796));
    FollowersAre(m, 48, AbcRow48(), AbcRow64());
  }

  lemma AbcRounds80(m: seq<Byte>)
    requires RowAt(m, 0, AbcRow0())
    ensures Reached(H0(), m, 80, Hash(0x42541b35, 0x5738d5e1, 0x21834873, 0x681e6df6, 0xd8fdf6ad))
  {
    hide RowAt, Reached;
    AbcRounds64(m);
    SixteenMore(H0(), m, 64, AbcRow64(),
                Hash(0x6b61c9e1, 0xb66c020b, 0x9523272c, 0xf5d5b051, 0x8fd4b796),
                Hash(0x78dd4d2b, 0x0c3df2b4, 0x4405957e, 0x0677e9eb, 0x5ad87278),
                Hash(0x39859de7, 0xc199f8c7, 0x8fc96230, 0x125c24f0, 0xde37534a),
                Hash(0x63f7dab7, 0x5ee76897, 0xc45e4fdb, 0x3b6d0b79, 0xce616779),
                Hash(0x42541b35, 0x5738d5e1, 0x21834873, 0x681e6df6, 0xd8fdf6ad));
  }

  lemma AbcCompressed()
    ensures Compress(H0(), Abc()) == Hash(0xa9993e36, 0x4706816a, 0xba3e2571, 0x7850c26c, 0x9cd0d89d)
  {
    hide Reached, Rounds, RowAt;
    AbcWords();
    AbcRounds80(Abc());
    AllRounds(H0(), Abc(), Hash(0x42541b35, 0x5738d5e1, 0x21834873, 0x681e6df6, 0xd8fdf6ad));
  }

  lemma BlockOfAbc()
    ensures HashBlocks(H0(), PaddedTail([0x61, 0x62, 0x63], 24)) == Compress(H0(), Abc())
  {
    hide Compress, HashBlocks, PaddedTail, BigEndian, ByteOf;
    var rest: seq<Byte> := [0x61, 0x62, 0x63];
    OneTailBlock(H0(), rest, 24);
    LengthField(24, 0);
    LowByteOf0();
    LowByteOf24();
    assert Abc() == rest + [0x80] + Zeros(55 - |rest|) + (Zeros(6) + [0, 24]);
  }

  lemma LowByteOf24()
    ensures ByteOf(24) == 0x18
  {
    assert Binary(24, 8) == [false, false, false, true, true, false, false, false];
  }

  lemma AbcPrinted()
    ensures HexDigest(Hash(0xa9993e36, 0x4706816a, 0xba3e2571, 0x7850c26c, 0x9cd0d89d))
         == "a9993e364706816aba3e25717850c26c9cd0d89d"
  {
    hide HexWord;
    FiveWords(Hash(0xa9993e36, 0x4706816a, 0xba3e2571, 0x7850c26c, 0x9cd0d89d));
    WordsOfAbcPrinted();
  }

  lemma WordsOfAbcPrinted()
    ensures HexWord(0xa9993e36) == "a9993e36"
    ensures HexWord(0x4706816a) == "4706816a"
    ensures HexWord(0xba3e2571) == "ba3e2571"
    ensures HexWord(0x7850c26c) == "7850c26c"
    ensures HexWord(0x9cd0d89d) == "9cd0d89d"
  {
  }

  /** A message of one block: the text "abc". */
  lemma AnswerForAbc()
    ensures HexDigest(Digest([0x61, 0x62, 0x63])) == "a9993e364706816aba3e25717850c26c9cd0d89d"
  {
    hide HexDigest, Compress;
    BlockOfAbc();
    AbcCompressed();
    AbcPrinted();
  }

  // ------------------------------------------------------------ the empty message

  /** The block that the empty message is padded to. */
  function Nothing(): (m: seq<Byte>)
    ensures |m| == 64
  {
    [0x80] + Zeros(63)
  }

  function NothingRow0(): Row {
    Row(0x80000000, 0x00000000, 0x00000000, 0x00000000, 0x00000000, 0x00000000, 0x00000000, 0x00000000,
        0x00000000, 0x00000000, 0x00000000, 0x00000000, 0x00000000, 0x00000000, 0x00000000, 0x00000000)
  }

  function NothingRow16(): Row {
    Row(0x00000001, 0x00000000, 0x00000000, 0x00000002, 0x00000000, 0x00000000, 0x00000004, 0x00000000,
        0x00000002, 0x00000008, 0x00000000, 0x00000000, 0x00000010, 0x00000000, 0x0000000a, 0x00000020)
  }

  function NothingRow32(): Row {
    Row(0x00000006, 0x00000000, 0x00000040, 0x00000008, 0x00000028, 0x00000080, 0x00000008, 0x00000000,
        0x00000108, 0x00000000, 0x000000a0, 0x00000200, 0x00000064, 0x00000000, 0x00000408, 0x00000088)
  }

  function NothingRow48(): Row {
    Row(0x0000029c, 0x00000800, 0x00000080, 0x00000028, 0x00001088, 0x00000000, 0x00000a40, 0x00002000,
        0x00000668, 0x00000080, 0x00004088, 0x00000880, 0x000028c8, 0x00008000, 0x000008a8, 0x00000080)
  }

  function NothingRow64(): Row {
    Row(0x000108e8, 0x00000000, 0x0000a000, 0x00020080, 0x00006400, 0x00000000, 0x00040800, 0x00008800,
        0x00029c10, 0x00080000, 0x00008080, 0x00002820, 0x001088c0, 0x00000000, 0x000a40c0, 0x00200080)
  }

  lemma NothingWords()
    ensures RowAt(Nothing(), 0, NothingRow0())
  {
    hide MessageWord;
    FirstAndLastOfNothing();
    forall t: nat | 1 <= t < 15
      ensures W(Nothing(), t) == 0
    {
      ZeroWord(Nothing(), t);
    }
  }

  lemma FirstAndLastOfNothing()
    ensures MessageWord(Nothing(), 0) == 0x80000000 && MessageWord(Nothing(), 15) == 0x00000000
  {
    var m := Nothing();
    assert m[0] == 0x80 && m[1] == 0x00 && m[2] == 0x00 && m[3] == 0x00;
    assert m[60] == m[61] == 0 && m[62] == 0x00 && m[63] == 0x00;
  }

  lemma NothingRounds16(m: seq<Byte>)
    requires RowAt(m, 0, NothingRow0())
    ensures Reached(H0(), m, 16, Hash(0xd8fd6547, 0x40182905, 0x4544b22e, 0xa13017ac, 0xab703832))
    ensures RowAt(m, 16, NothingRow16())
  {
    hide RowAt, Reached;
    RowIsOfBlock(m, 0, NothingRow0());
    NothingYet(H0(), m);
    SixteenMore(H0(), m, 0, NothingRow0(),
                Hash(0x67452301, 0xefcdab89, 0x98badcfe, 0x10325476, 0xc3d2e1f0),
                Hash(0xcdecfb5d, 0x158d2f62, 0x1750f8dc, 0xc7ed262c, 0x59d148c0),
                Hash(0x87074800, 0xc09d7f27, 0xb912add9, 0x9254d597, 0x737b3ed7),
                Hash(0xadc0e0ca, 0x40166973, 0x72f6ffcc, 0x504dd984, 0x21c1d200),
                Hash(0xd8fd6547, 0x40182905, 0x4544b22e, 0xa13017ac, 0xab703832));
    FollowersAre(m, 0, NothingRow0(), NothingRow16());
  }

  lemma NothingRounds32(m: seq<Byte>)
    requires RowAt(m, 0, NothingRow0())
    ensures Reached(H0(), m, 32, Hash(0x62ea3d59, 0x6a2e466e, 0xf29155b2, 0xe1d2de1b, 0x71ec478b))
    ensures RowAt(m, 32, NothingRow32())
  {
    hide RowAt, Reached;
    NothingRounds16(m);
    SixteenMore(H0(), m, 16, NothingRow16(),
                Hash(0xd8fd6547, 0x40182905, 0x4544b22e, 0xa13017ac, 0xab703832),
                Hash(0xe758e8da, 0x0b3088dd, 0x8a2a5483, 0xc1afe45c, 0xf63f5951),
                Hash(0x1e97b73a, 0x1c64d028, 0x5f6ede1f, 0x243ae614, 0xb9d63a36),
                Hash(0xc7b11e2d, 0x4f2ed1c1, 0x0d3cf5b6, 0xd8b5fd4f, 0x87a5edce),
                Hash(0x62ea3d59, 0x6a2e466e, 0xf29155b2, 0xe1d2de1b, 0x71ec478b));
    FollowersAre(m, 16, NothingRow16(), NothingRow32());
  }

  lemma NothingRounds48(m: seq<Byte>)
    requires RowAt(m, 0, NothingRow0())
    ensures Reached(H0(), m, 48, Hash(0xe6d39f43, 0xa195ba90, 0xebf9a56a, 0x77878e80, 0xbea542ae))
    ensures RowAt(m, 48, NothingRow48())
  {
    hide RowAt, Reached;
    NothingRounds32(m);
    SixteenMore(H0(), m, 32, NothingRow32(),
                Hash(0x62ea3d59, 0x6a2e466e, 0xf29155b2, 0xe1d2de1b, 0x71ec478b),
                Hash(0xabbab988, 0x391ef0c4, 0x92c4d1f8, 0x6ddeeb09, 0x58ba8f56),
                Hash(0x9bdbdd71, 0x62273351, 0xec805e22, 0x413c1d9a, 0x2aeeae62),
                Hash(0xfa950aba, 0x95642485, 0x178a3a16, 0xe56a8e62, 0x66f6f75c),
                Hash(0xe6d39f43, 0xa195ba90, 0xebf9a56a, 0x77878e80, 0xbea542ae));
    FollowersAre(m, 32, NothingRow32(), NothingRow48());
  }

  lemma NothingRounds64(m: seq<Byte>)
    requires RowAt(m, 0, NothingRow0())
    ensures Reached(H0(), m, 64, Hash(0xbb0f226f, 0xcd98fbb7, 0xe16e7489, 0xf4df6e4d, 0xe6e74a44))
    ensures RowAt(m, 64, NothingRow64())
  {
    hide RowAt, Reached;
    NothingRounds48(m);
    SixteenMore(H0(), m, 48, NothingRow48(),
                Hash(0xe6d39f43, 0xa195ba90, 0xebf9a56a, 0x77878e80, 0xbea542ae),
                Hash(0xe2581ce0, 0x01ff3253, 0xdaba09bf, 0x82f2a648, 0xf9b4e7d0),
                Hash(0xbe4a4bea, 0x8590c0e8, 0xab95b950, 0xd5b39cea, 0x38960738),
                Hash(0x9b9d2913, 0x982bcbca, 0xb86beac8, 0xc5a3382e, 0xaf9292fa),
                Hash(0xbb0f226f, 0xcd98fbb7, 0xe16e7489, 0xf4df6e4d, 0xe6e74a44));
    FollowersAre(m, 48, NothingRow48(), NothingRow64());
  }

  lemma NothingRounds80(m: seq<Byte>)
    requires RowAt(m, 0, NothingRow0())
    ensures Reached(H0(), m, 80, Hash(0x72f480ed, 0x6e9d9f84, 0x999ae2f1, 0x852dc41a, 0xec052519))
  {
    hide RowAt, Reached;
    NothingRounds64(m);
    SixteenMore(H0(), m, 64, NothingRow64(),
                Hash(0xbb0f226f, 0xcd98fbb7, 0xe16e7489, 0xf4df6e4d, 0xe6e74a44),
                Hash(0xe79afbf0, 0x111341f3, 0xf4dc8972, 0x3ad6511b, 0xeec3c89b),
                Hash(0xb47ddf0e, 0x3cd517f9, 0x140f1eb8, 0xe2e80189, 0x39e6befc),
                Hash(0xb0149467, 0x15e98d17, 0x98f6cdec, 0x178e81e0, 0xad1f77c3),
                Hash(0x72f480ed, 0x6e9d9f84, 0x999ae2f1, 0x852dc41a, 0xec052519));
  }

  lemma NothingCompressed()
    ensures Compress(H0(), Nothing()) == Hash(0xda39a3ee, 0x5e6b4b0d, 0x3255bfef, 0x95601890, 0xafd80709)
  {
    hide Reached, Rounds, RowAt;
    NothingWords();
    NothingRounds80(Nothing());
    AllRounds(H0(), Nothing(), Hash(0x72f480ed, 0x6e9d9f84, 0x999ae2f1, 0x852dc41a, 0xec052519));
  }

  lemma BlockOfNothing()
    ensures HashBlocks(H0(), PaddedTail([], 0)) == Compress(H0(), Nothing())
  {
    hide Compress, HashBlocks, PaddedTail, BigEndian, ByteOf;
    var rest: seq<Byte> := [];
    OneTailBlock(H0(), rest, 0);
    LengthField(0, 0);
    LowByteOf0();
    assert Nothing() == rest + [0x80] + Zeros(55 - |rest|) + (Zeros(6) + [0, 0]);
  }

  lemma LowByteOf0()
    ensures ByteOf(0) == 0x00
  {
    assert Binary(0, 8) == [false, false, false, false, false, false, false, false];
  }

  lemma NothingPrinted()
    ensures HexDigest(Hash(0xda39a3ee, 0x5e6b4b0d, 0x3255bfef, 0x95601890, 0xafd80709))
         == "da39a3ee5e6b4b0d3255bfef95601890afd80709"
  {
    hide HexWord;
    FiveWords(Hash(0xda39a3ee, 0x5e6b4b0d, 0x3255bfef, 0x95601890, 0xafd80709));
    WordsOfNothingPrinted();
  }

  lemma WordsOfNothingPrinted()
    ensures HexWord(0xda39a3ee) == "da39a3ee"
    ensures HexWord(0x5e6b4b0d) == "5e6b4b0d"
    ensures HexWord(0x3255bfef) == "3255bfef"
    ensures HexWord(0x95601890) == "95601890"
    ensures HexWord(0xafd80709) == "afd80709"
  {
  }

  /** The empty message: one block of padding. */
  lemma AnswerForNothing()
    ensures HexDigest(Digest([])) == "da39a3ee5e6b4b0d3255bfef95601890afd80709"
  {
    hide HexDigest, Compress;
    BlockOfNothing();
    NothingCompressed();
    NothingPrinted();
  }

  // ------------------------------------------------------------------ two blocks

  /** The first block that 56 zero bytes are padded to: the length field does not fit. */
  function Spill(): (m: seq<Byte>)
    ensures |m| == 64
  {
    Zeros(56) + [0x80] + Zeros(7)
  }

  function SpillHash(): Hash {
    Hash(0x9c034557, 0x057bf32a, 0x1bb80e3f, 0xab817eab, 0x520f41ff)
  }

  /** The second block. */
  function Last(): (m: seq<Byte>)
    ensures |m| == 64
  {
    Zeros(62) + [0x01, 0xc0]
  }

  function SpillRow0(): Row {
    Row(0x00000000, 0x00000000, 0x00000000, 0x00000000, 0x00000000, 0x00000000, 0x00000000, 0x00000000,
        0x00000000, 0x00000000, 0x00000000, 0x00000000, 0x00000000, 0x00000000, 0x80000000, 0x00000000)
  }

  function SpillRow16(): Row {
    Row(0x00000000, 0x00000001, 0x00000000, 0x00000000, 0x00000002, 0x00000000, 0x00000001, 0x00000004,
        0x00000000, 0x00000000, 0x00000008, 0x00000000, 0x00000005, 0x00000010, 0x00000003, 0x00000000)
  }

  function SpillRow32(): Row {
    Row(0x00000020, 0x00000004, 0x00000014, 0x00000040, 0x00000004, 0x00000000, 0x00000084, 0x00000000,
        0x00000050, 0x00000100, 0x00000032, 0x00000000, 0x00000204, 0x00000044, 0x0000014e, 0x00000400)
  }

  function SpillRow48(): Row {
    Row(0x00000040, 0x00000014, 0x00000844, 0x00000000, 0x00000520, 0x00001000, 0x00000334, 0x00000040,
        0x00002044, 0x00000440, 0x00001464, 0x00004000, 0x00000454, 0x00000040, 0x00008474, 0x00000000)
  }

  function SpillRow64(): Row {
    Row(0x00005000, 0x00010040, 0x00003200, 0x00000000, 0x00020400, 0x00004400, 0x00014e08, 0x00040000,
        0x00004040, 0x00001410, 0x00084460, 0x00000000, 0x00052060, 0x00100040, 0x000334f8, 0x00004040)
  }

  lemma SpillWords()
    ensures RowAt(Spill(), 0, SpillRow0())
  {
    hide MessageWord;
    forall t: nat | t < 16 && t != 14
      ensures W(Spill(), t) == 0
    {
      ZeroWord(Spill(), t);
    }
    WordOfSpill();
  }

  lemma WordOfSpill()
    ensures MessageWord(Spill(), 14) == 0x80000000
  {
    var m := Spill();
    assert m[56] == 0x80 && m[57] == m[58] == m[59] == 0;
  }

  lemma SpillRounds16(m: seq<Byte>)
    requires RowAt(m, 0, SpillRow0())
    ensures Reached(H0(), m, 16, Hash(0x9e22f60d, 0x0566e59a, 0x5e333357, 0xd31db94a, 0x5e1b6bfd))
    ensures RowAt(m, 16, SpillRow16())
  {
    hide RowAt, Reached;
    RowIsOfBlock(m, 0, SpillRow0());
    NothingYet(H0(), m);
    SixteenMore(H0(), m, 0, SpillRow0(),
                Hash(0x67452301, 0xefcdab89, 0x98badcfe, 0x10325476, 0xc3d2e1f0),
                Hash(0xcded3afd, 0x158d3162, 0x1750f8e0, 0xe7ed262c, 0x59d148c0),
                Hash(0x6e14a2f0, 0x00ddbbf7, 0x81531dfa, 0x9a56d61f, 0x737b4ebf),
                Hash(0x786daff5, 0x02907531, 0xc4b846e5, 0xcab96117, 0x1b8528bc),
                Hash(0x9e22f60d, 0x0566e59a, 0x5e333357, 0xd31db94a, 0x5e1b6bfd));
    FollowersAre(m, 0, SpillRow0(), SpillRow16());
  }

  lemma SpillRounds32(m: seq<Byte>)
    requires RowAt(m, 0, SpillRow0())
    ensures Reached(H0(), m, 32, Hash(0xfac1290e, 0xee16e50f, 0xc6b45fd0, 0x369c8037, 0xed617db5))
    ensures RowAt(m, 32, SpillRow32())
  {
    hide RowAt, Reached;
    SpillRounds16(m);
    SixteenMore(H0(), m, 16, SpillRow16(),
                Hash(0x9e22f60d, 0x0566e59a, 0x5e333357, 0xd31db94a, 0x5e1b6bfd),
                Hash(0x8b159748, 0x11bd5b61, 0x152b7de9, 0xd4cdf826, 0x6788bd83),
                Hash(0xfb10fbf6, 0x78d849a3, 0x5309ef38, 0x425c5c39, 0x22c565d2),
                Hash(0xb585f6d7, 0x1f7862bc, 0xf43fab42, 0x175332bd, 0xbec43efd),
                Hash(0xfac1290e, 0xee16e50f, 0xc6b45fd0, 0x369c8037, 0xed617db5));
    FollowersAre(m, 16, SpillRow16(), SpillRow32());
  }

  lemma SpillRounds48(m: seq<Byte>)
    requires RowAt(m, 0, SpillRow0())
    ensures Reached(H0(), m, 48, Hash(0xa92381a3, 0xd7bd0ffa, 0xbce808ae, 0x4dcb736a, 0x09011ff7))
    ensures RowAt(m, 48, SpillRow48())
  {
    hide RowAt, Reached;
    SpillRounds32(m);
    SixteenMore(H0(), m, 32, SpillRow32(),
                Hash(0xfac1290e, 0xee16e50f, 0xc6b45fd0, 0x369c8037, 0xed617db5),
                Hash(0x1cf48581, 0xf539e73a, 0xf05000cc, 0x74a7b18f, 0xbeb04a43),
                Hash(0x102eb919, 0x79499879, 0xbca50a8e, 0x0f7a4f21, 0x473d2160),
                Hash(0x24047fdc, 0x639235cf, 0xbb776c7f, 0xc66642f5, 0x440bae46),
                Hash(0xa92381a3, 0xd7bd0ffa, 0xbce808ae, 0x4dcb736a, 0x09011ff7));
    FollowersAre(m, 32, SpillRow32(), SpillRow48());
  }

  lemma SpillRounds64(m: seq<Byte>)
    requires RowAt(m, 0, SpillRow0())
    ensures Reached(H0(), m, 64, Hash(0x564e9726, 0x14deb8a8, 0x88a40116, 0xb0ffc073, 0x57f9297a))
    ensures RowAt(m, 64, SpillRow64())
  {
    hide RowAt, Reached;
    SpillRounds48(m);
    SixteenMore(H0(), m, 48, SpillRow48(),
                Hash(0xa92381a3, 0xd7bd0ffa, 0xbce808ae, 0x4dcb736a, 0x09011ff7),
                Hash(0x556c39d9, 0x392e1ac5, 0xfa657816, 0xa69d875c, 0xea48e068),
                Hash(0x846acb17, 0xb78de3ce, 0x6dd16249, 0xb8463df8, 0x555b0e76),
                Hash(0x5fe4a5e9, 0xa9f74bec, 0x39feeccb, 0x8be56c93, 0xe11ab2c5),
                Hash(0x564e9726, 0x14deb8a8, 0x88a40116, 0xb0ffc073, 0x57f9297a));
    FollowersAre(m, 48, SpillRow48(), SpillRow64());
  }

  lemma SpillRounds80(m: seq<Byte>)
    requires RowAt(m, 0, SpillRow0())
    ensures Reached(H0(), m, 80, Hash(0x34be2256, 0x15ae47a1, 0x82fd3141, 0x9b4f2a35, 0x8e3c600f))
  {
    hide RowAt, Reached;
    SpillRounds64(m);
    SixteenMore(H0(), m, 64, SpillRow64(),
                Hash(0x564e9726, 0x14deb8a8, 0x88a40116, 0xb0ffc073, 0x57f9297a),
                Hash(0xc0d6dbe8, 0x959677bd, 0x9b74fde1, 0xc62d2679, 0x9593a5c9),
                Hash(0x568cd653, 0xf61d4530, 0x50f2a0ef, 0x10e8e537, 0x3035b6fa),
                Hash(0x38f1803e, 0x582a738a, 0x57a55bd7, 0xa08ea118, 0xd5a33594),
                Hash(0x34be2256, 0x15ae47a1, 0x82fd3141, 0x9b4f2a35, 0x8e3c600f));
  }

  lemma SpillCompressed()
    ensures Compress(H0(), Spill()) == SpillHash()
  {
    hide Reached, Rounds, RowAt;
    SpillWords();
    SpillRounds80(Spill());
    AllRounds(H0(), Spill(), Hash(0x34be2256, 0x15ae47a1, 0x82fd3141, 0x9b4f2a35, 0x8e3c600f));
  }

  function LastRow0(): Row {
    Row(0x00000000, 0x00000000, 0x00000000, 0x00000000, 0x00000000, 0x00000000, 0x00000000, 0x00000000,
        0x00000000, 0x00000000, 0x00000000, 0x00000000, 0x00000000, 0x00000000, 0x00000000, 0x000001c0)
  }

  function LastRow16(): Row {
    Row(0x00000000, 0x00000000, 0x00000380, 0x00000000, 0x00000000, 0x00000700, 0x00000000, 0x00000380,
        0x00000e00, 0x00000000, 0x00000000, 0x00001c00, 0x00000000, 0x00000d80, 0x00003800, 0x00000480)
  }

  function LastRow32(): Row {
    Row(0x00000000, 0x00007000, 0x00000e00, 0x00003600, 0x0000e000, 0x00000e00, 0x00000000, 0x0001ce00,
        0x00000000, 0x0000d800, 0x00038000, 0x00004f00, 0x00000000, 0x00070e00, 0x0000ee00, 0x00037500)
  }

  function LastRow48(): Row {
    Row(0x000e0000, 0x0000e000, 0x00003600, 0x001cee00, 0x00000000, 0x000df000, 0x00380000, 0x0004c600,
        0x0000e000, 0x0070ee00, 0x000ee000, 0x00369e00, 0x00e00000, 0x000ed600, 0x0000e000, 0x01cea600)
  }

  function LastRow64(): Row {
    Row(0x00000000, 0x00d80000, 0x0380e000, 0x004f0000, 0x00000000, 0x070e0000, 0x00ee0000, 0x03751c00,
        0x0e000000, 0x00e0e000, 0x00363800, 0x1cee9000, 0x00000000, 0x0df09000, 0x3800e000, 0x04c77400)
  }

  lemma LastWords()
    ensures RowAt(Last(), 0, LastRow0())
  {
    hide MessageWord;
    FirstAndLastOfLast();
    forall t: nat | 1 <= t < 15
      ensures W(Last(), t) == 0
    {
      ZeroWord(Last(), t);
    }
  }

  lemma FirstAndLastOfLast()
    ensures MessageWord(Last(), 0) == 0x00000000 && MessageWord(Last(), 15) == 0x000001c0
  {
    var m := Last();
    assert m[0] == 0x00 && m[1] == 0x00 && m[2] == 0x00 && m[3] == 0x00;
    assert m[60] == m[61] == 0 && m[62] == 0x01 && m[63] == 0xc0;
  }

  lemma LastRounds16(m: seq<Byte>)
    requires RowAt(m, 0, LastRow0())
    ensures Reached(SpillHash(), m, 16, Hash(0x4d2f302d, 0x08d8e18d, 0x03e6226e, 0x4def5f36, 0x8350404c))
    ensures RowAt(m, 16, LastRow16())
  {
    hide RowAt, Reached;
    RowIsOfBlock(m, 0, LastRow0());
    NothingYet(SpillHash(), m);
    SixteenMore(SpillHash(), m, 0, LastRow0(),
                Hash(0x9c034557, 0x057bf32a, 0x1bb80e3f, 0xab817eab, 0x520f41ff),
                Hash(0xe79070c7, 0x392512e8, 0x68033b62, 0xb62c9d4d, 0xe700d155),
                Hash(0xf6a3d5e2, 0xf49f8a36, 0x1484b321, 0xf866c0d3, 0xf9e41c31),
                Hash(0x0d410132, 0x2720e6fd, 0x6ff4ef85, 0x51718542, 0xbda8f578),
                Hash(0x4d2f302d, 0x08d8e18d, 0x03e6226e, 0x4def5f36, 0x8350404c));
    FollowersAre(m, 0, LastRow0(), LastRow16());
  }

  lemma LastRounds32(m: seq<Byte>)
    requires RowAt(m, 0, LastRow0())
    ensures Reached(SpillHash(), m, 32, Hash(0x17d5377f, 0x71298aa8, 0xdf8ee24d, 0xeaf4215b, 0x663f110c))
    ensures RowAt(m, 32, LastRow32())
  {
    hide RowAt, Reached;
    LastRounds16(m);
    SixteenMore(SpillHash(), m, 16, LastRow16(),
                Hash(0x4d2f302d, 0x08d8e18d, 0x03e6226e, 0x4def5f36, 0x8350404c),
                Hash(0x80a920f0, 0x8c8d0515, 0xc7d5f132, 0x3267ff73, 0x534bcc0b),
                Hash(0xf17e4407, 0x21e659f6, 0x75af6929, 0x14223844, 0x202a483c),
                Hash(0x98fc4431, 0x4364e3c2, 0xdda79385, 0xbfcdf2dd, 0xfc5f9101),
                Hash(0x17d5377f, 0x71298aa8, 0xdf8ee24d, 0xeaf4215b, 0x663f110c));
    FollowersAre(m, 16, LastRow16(), LastRow32());
  }

  lemma LastRounds48(m: seq<Byte>)
    requires RowAt(m, 0, LastRow0())
    ensures Reached(SpillHash(), m, 48, Hash(0xb855ff57, 0x2775883d, 0x24a4c4d9, 0x3ce740c5, 0x1c15876d))
    ensures RowAt(m, 48, LastRow48())
  {
    hide RowAt, Reached;
    LastRounds32(m);
    SixteenMore(SpillHash(), m, 32, LastRow32(),
                Hash(0x17d5377f, 0x71298aa8, 0xdf8ee24d, 0xeaf4215b, 0x663f110c),
                Hash(0x5a738249, 0x24f4bbfc, 0xac11bf8d, 0x4504cd93, 0xc5f54ddf),
                Hash(0x8912194b, 0x19dd1148, 0x75e0db06, 0x54488b23, 0x569ce092),
                Hash(0x70561db4, 0x77bb09c8, 0x2858ed5b, 0x57711878, 0xe2448652),
                Hash(0xb855ff57, 0x2775883d, 0x24a4c4d9, 0x3ce740c5, 0x1c15876d));
    FollowersAre(m, 32, LastRow32(), LastRow48());
  }

  lemma LastRounds64(m: seq<Byte>)
    requires RowAt(m, 0, LastRow0())
    ensures Reached(SpillHash(), m, 64, Hash(0xfc32fb67, 0xcc890d19, 0x0d131b83, 0x07a1602b, 0x79240ef7))
    ensures RowAt(m, 64, LastRow64())
  {
    hide RowAt, Reached;
    LastRounds48(m);
    SixteenMore(SpillHash(), m, 48, LastRow48(),
                Hash(0xb855ff57, 0x2775883d, 0x24a4c4d9, 0x3ce740c5, 0x1c15876d),
                Hash(0x012fb417, 0xad8f213c, 0xd45df1ee, 0x76b93c07, 0xee157fd5),
                Hash(0x42edb76c, 0xe513bb78, 0x3ffc3c49, 0xe5f13c2f, 0xc04bed05),
                Hash(0xe4903bdd, 0x505bbe21, 0x44e047ea, 0xa4c42cf4, 0x10bb6ddb),
                Hash(0xfc32fb67, 0xcc890d19, 0x0d131b83, 0x07a1602b, 0x79240ef7));
    FollowersAre(m, 48, LastRow48(), LastRow64());
  }

  lemma LastRounds80(m: seq<Byte>)
    requires RowAt(m, 0, LastRow0())
    ensures Reached(SpillHash(), m, 80, Hash(0xf8359e09, 0xeffcee02, 0xf2568093, 0xe2aa93b1, 0xcae0ac17))
  {
    hide RowAt, Reached;
    LastRounds64(m);
    SixteenMore(SpillHash(), m, 64, LastRow64(),
                Hash(0xfc32fb67, 0xcc890d19, 0x0d131b83, 0x07a1602b, 0x79240ef7),
                Hash(0x39fcc872, 0x19d0b1e6, 0x56459555, 0x64086d1f, 0xff0cbed9),
                Hash(0xdb1a2017, 0xde7bb128, 0x6d006d26, 0x8d297628, 0x8e7f321c),
                Hash(0x2b82b05f, 0x2175a7b5, 0xba4176f6, 0xc21e2844, 0xf6c68805),
                Hash(0xf8359e09, 0xeffcee02, 0xf2568093, 0xe2aa93b1, 0xcae0ac17));
  }

  lemma LastCompressed()
    ensures Compress(SpillHash(), Last()) == Hash(0x9438e360, 0xf578e12c, 0x0e0e8ed2, 0x8e2c125c, 0x1cefee16)
  {
    hide Reached, Rounds, RowAt;
    LastWords();
    LastRounds80(Last());
    AllRounds(SpillHash(), Last(), Hash(0xf8359e09, 0xeffcee02, 0xf2568093, 0xe2aa93b1, 0xcae0ac17));
  }

  lemma BlocksOfZeros()
    ensures HashBlocks(H0(), PaddedTail(Zeros(56), 448)) == Compress(Compress(H0(), Spill()), Last())
  {
    hide Compress, HashBlocks, PaddedTail, BigEndian, ByteOf;
    TwoTailBlocks(H0(), Zeros(56), 448);
    ShiftedLength();
    LengthField(448, 1);
    LowByteOf1();
    LowByteOf448();
    assert Last() == Zeros(56) + (Zeros(6) + [0x01, 0xc0]);
    assert Spill() == Zeros(56) + [0x80] + Zeros(7);
  }

  lemma ShiftedLength()
    ensures ShiftRight(448, 8) == 1
  {
    assert ShiftRight(448, 8) == ShiftRight(112, 6) == ShiftRight(28, 4) == ShiftRight(7, 2);
  }

  lemma LowByteOf1()
    ensures ByteOf(1) == 0x01
  {
    assert Binary(1, 8) == [false, false, false, false, false, false, false, true];
  }

  lemma LowByteOf448()
    ensures ByteOf(448) == 0xc0
  {
    assert Binary(448, 8) == [true, true, false, false, false, false, false, false];
  }

  lemma ZerosPrinted()
    ensures HexDigest(Hash(0x9438e360, 0xf578e12c, 0x0e0e8ed2, 0x8e2c125c, 0x1cefee16))
         == "9438e360f578e12c0e0e8ed28e2c125c1cefee16"
  {
    hide HexWord;
    FiveWords(Hash(0x9438e360, 0xf578e12c, 0x0e0e8ed2, 0x8e2c125c, 0x1cefee16));
    WordsOfZerosPrinted();
  }

  lemma WordsOfZerosPrinted()
    ensures HexWord(0x9438e360) == "9438e360"
    ensures HexWord(0xf578e12c) == "f578e12c"
    ensures HexWord(0x0e0e8ed2) == "0e0e8ed2"
    ensures HexWord(0x8e2c125c) == "8e2c125c"
    ensures HexWord(0x1cefee16) == "1cefee16"
  {
  }

  /** A message of two blocks, 56 zero bytes: the digest of the first is what the second starts from. */
  lemma AnswerForZeros()
    ensures HexDigest(Digest(Zeros(56))) == "9438e360f578e12c0e0e8ed28e2c125c1cefee16"
  {
    hide HexDigest, Compress;
    BlocksOfZeros();
    SpillCompressed();
    LastCompressed();
    ZerosPrinted();
  }
}
