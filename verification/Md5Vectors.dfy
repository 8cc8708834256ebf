/**
 The digest of the empty message, from section A.5 of RFC 1321: it ties the initial registers, the order of bytes
 and every operation to numbers written out.
 */
module Md5Vectors {
  import opened Md5

  /** The words of the only block of the empty message: the padding bit and nothing else. */
  const BLOCK: seq<bv32> := [0x80, 0, 0, 0, 0, 0, 0, 0, 0, 0, 0, 0, 0, 0, 0, 0]

  /** The variables of the round loops after i operations. */
  predicate At(i: nat, a: bv32, b: bv32, c: bv32, d: bv32)
    requires i <= 64
  {
    Shifted(Operations(INIT, BLOCK, i), i) == Regs(a, b, c, d)
  }

  /** One operation, by the value it writes. */
  lemma Step(i: nat, a: bv32, b: bv32, c: bv32, d: bv32, v: bv32)
    requires i < 64 && At(i, a, b, c, d)
    requires v == Turned(a, Mix(i, b, c, d), if WordIndex(i) == 0 then 0x80 else 0, Sine(i), Turn(i), b)
    ensures At(i + 1, d, v, b, c)
  {
    hide Shifted, Operation, Mix, Sine, Turn, WordIndex, Turned;
    LoopStepIsOperation(Operations(INIT, BLOCK, i), BLOCK, i);
    assert BLOCK[WordIndex(i)] == if WordIndex(i) == 0 then 0x80 else 0;
  }

  // The 64 operations, four at a time.

  lemma From00()
    requires At(0, 0x67452301, 0xefcdab89, 0x98badcfe, 0x10325476)
    ensures At(4, 0xa5202774, 0x1b163203, 0xe7f06b23, 0xf59592dd)
  {
    hide At;
    Step(0, 0x67452301, 0xefcdab89, 0x98badcfe, 0x10325476, 0xa5202774);
    Step(1, 0x10325476, 0xa5202774, 0xefcdab89, 0x98badcfe, 0xf59592dd);
    Step(2, 0x98badcfe, 0xf59592dd, 0xa5202774, 0xefcdab89, 0xe7f06b23);
    Step(3, 0xefcdab89, 0xe7f06b23, 0xf59592dd, 0xa5202774, 0x1b163203);
  }

  lemma From04()
    requires At(4, 0xa5202774, 0x1b163203, 0xe7f06b23, 0xf59592dd)
    ensures At(8, 0x32033344, 0x9bc13ce9, 0xf5b158db, 0x2f35d494)
  {
    hide At;
    Step(4, 0xa5202774, 0x1b163203, 0xe7f06b23, 0xf59592dd, 0x32033344);
    Step(5, 0xf59592dd, 0x32033344, 0x1b163203, 0xe7f06b23, 0x2f35d494);
    Step(6, 0xe7f06b23, 0x2f35d494, 0x32033344, 0x1b163203, 0xf5b158db);
    Step(7, 0x1b163203, 0xf5b158db, 0x2f35d494, 0x32033344, 0x9bc13ce9);
  }

  lemma From08()
    requires At(8, 0x32033344, 0x9bc13ce9, 0xf5b158db, 0x2f35d494)
    ensures At(12, 0x3893b991, 0x70768a29, 0xe1ef0576, 0xfce4a312)
  {
    hide At;
    Step(8, 0x32033344, 0x9bc13ce9, 0xf5b158db, 0x2f35d494, 0x3893b991);
    Step(9, 0x2f35d494, 0x3893b991, 0x9bc13ce9, 0xf5b158db, 0xfce4a312);
    Step(10, 0xf5b158db, 0xfce4a312, 0x3893b991, 0x9bc13ce9, 0xe1ef0576);
    Step(11, 0x9bc13ce9, 0xe1ef0576, 0xfce4a312, 0x3893b991, 0x70768a29);
  }

  lemma From12()
    requires At(12, 0x3893b991, 0x70768a29, 0xe1ef0576, 0xfce4a312)
    ensures At(16, 0xf56c7cf1, 0xd6819c6a, 0x5aa53f75, 0x374943a7)
  {
    hide At;
    Step(12, 0x3893b991, 0x70768a29, 0xe1ef0576, 0xfce4a312, 0xf56c7cf1);
    Step(13, 0xfce4a312, 0xf56c7cf1, 0x70768a29, 0xe1ef0576, 0x374943a7);
    Step(14, 0xe1ef0576, 0x374943a7, 0xf56c7cf1, 0x70768a29, 0x5aa53f75);
    Step(15, 0x70768a29, 0x5aa53f75, 0x374943a7, 0xf56c7cf1, 0xd6819c6a);
  }

  lemma From16()
    requires At(16, 0xf56c7cf1, 0xd6819c6a, 0x5aa53f75, 0x374943a7)
    ensures At(20, 0x1c7d7513, 0xbd782e17, 0xc095f13a, 0x7bd57a3a)
  {
    hide At;
    Step(16, 0xf56c7cf1, 0xd6819c6a, 0x5aa53f75, 0x374943a7, 0x1c7d7513);
    Step(17, 0x374943a7, 0x1c7d7513, 0xd6819c6a, 0x5aa53f75, 0x7bd57a3a);
    Step(18, 0x5aa53f75, 0x7bd57a3a, 0x1c7d7513, 0xd6819c6a, 0xc095f13a);
    Step(19, 0xd6819c6a, 0xc095f13a, 0x7bd57a3a, 0x1c7d7513, 0xbd782e17);
  }

  lemma From20()
    requires At(20, 0x1c7d7513, 0xbd782e17, 0xc095f13a, 0x7bd57a3a)
    ensures At(24, 0x3d1e3e6c, 0xe422531a, 0xeb41643e, 0x68b7b3e3)
  {
    hide At;
    Step(20, 0x1c7d7513, 0xbd782e17, 0xc095f13a, 0x7bd57a3a, 0x3d1e3e6c);
    Step(21, 0x7bd57a3a, 0x3d1e3e6c, 0xbd782e17, 0xc095f13a, 0x68b7b3e3);
    Step(22, 0xc095f13a, 0x68b7b3e3, 0x3d1e3e6c, 0xbd782e17, 0xeb41643e);
    Step(23, 0xbd782e17, 0xeb41643e, 0x68b7b3e3, 0x3d1e3e6c, 0xe422531a);
  }

  lemma From24()
    requires At(24, 0x3d1e3e6c, 0xe422531a, 0xeb41643e, 0x68b7b3e3)
    ensures At(28, 0x306ec122, 0xa0572807, 0xa3c663da, 0xd28c77c2)
  {
    hide At;
    Step(24, 0x3d1e3e6c, 0xe422531a, 0xeb41643e, 0x68b7b3e3, 0x306ec122);
    Step(25, 0x68b7b3e3, 0x306ec122, 0xe422531a, 0xeb41643e, 0xd28c77c2);
    Step(26, 0xeb41643e, 0xd28c77c2, 0x306ec122, 0xe422531a, 0xa3c663da);
    Step(27, 0xe422531a, 0xa3c663da, 0xd28c77c2, 0x306ec122, 0xa0572807);
  }

  lemma From28()
    requires At(28, 0x306ec122, 0xa0572807, 0xa3c663da, 0xd28c77c2)
    ensures At(32, 0x13707036, 0xa2205f1f, 0x1c31c384, 0xae7813db)
  {
    hide At;
    Step(28, 0x306ec122, 0xa0572807, 0xa3c663da, 0xd28c77c2, 0x13707036);
    Step(29, 0xd28c77c2, 0x13707036, 0xa0572807, 0xa3c663da, 0xae7813db);
    Step(30, 0xa3c663da, 0xae7813db, 0x13707036, 0xa0572807, 0x1c31c384);
    Step(31, 0xa0572807, 0x1c31c384, 0xae7813db, 0x13707036, 0xa2205f1f);
  }

  lemma From32()
    requires At(32, 0x13707036, 0xa2205f1f, 0x1c31c384, 0xae7813db)
    ensures At(36, 0xdf63eaa1, 0x004b6669, 0x12f3e755, 0xc3689f5b)
  {
    hide At;
    Step(32, 0x13707036, 0xa2205f1f, 0x1c31c384, 0xae7813db, 0xdf63eaa1);
    Step(33, 0xae7813db, 0xdf63eaa1, 0xa2205f1f, 0x1c31c384, 0xc3689f5b);
    Step(34, 0x1c31c384, 0xc3689f5b, 0xdf63eaa1, 0xa2205f1f, 0x12f3e755);
    Step(35, 0xa2205f1f, 0x12f3e755, 0xc3689f5b, 0xdf63eaa1, 0x004b6669);
  }

  lemma From36()
    requires At(36, 0xdf63eaa1, 0x004b6669, 0x12f3e755, 0xc3689f5b)
    ensures At(40, 0x5f7a9b2e, 0xc5dc8c15, 0x91ca4cb7, 0xabc34e16)
  {
    hide At;
    Step(36, 0xdf63eaa1, 0x004b6669, 0x12f3e755, 0xc3689f5b, 0x5f7a9b2e);
    Step(37, 0xc3689f5b, 0x5f7a9b2e, 0x004b6669, 0x12f3e755, 0xabc34e16);
    Step(38, 0x12f3e755, 0xabc34e16, 0x5f7a9b2e, 0x004b6669, 0x91ca4cb7);
    Step(39, 0x004b6669, 0x91ca4cb7, 0xabc34e16, 0x5f7a9b2e, 0xc5dc8c15);
  }

  lemma From40()
    requires At(40, 0x5f7a9b2e, 0xc5dc8c15, 0x91ca4cb7, 0xabc34e16)
    ensures At(44, 0x4497169d, 0x0fe32453, 0xfd95f243, 0x76fd93d4)
  {
    hide At;
    Step(40, 0x5f7a9b2e, 0xc5dc8c15, 0x91ca4cb7, 0xabc34e16, 0x4497169d);
    Step(41, 0xabc34e16, 0x4497169d, 0xc5dc8c15, 0x91ca4cb7, 0x76fd93d4);
    Step(42, 0x91ca4cb7, 0x76fd93d4, 0x4497169d, 0xc5dc8c15, 0xfd95f243);
    Step(43, 0xc5dc8c15, 0xfd95f243, 0x76fd93d4, 0x4497169d, 0x0fe32453);
  }

  lemma From44()
    requires At(44, 0x4497169d, 0x0fe32453, 0xfd95f243, 0x76fd93d4)
    ensures At(48, 0x3f55edfd, 0xca7d2dbd, 0x68d84ea2, 0x22a31f54)
  {
    hide At;
    Step(44, 0x4497169d, 0x0fe32453, 0xfd95f243, 0x76fd93d4, 0x3f55edfd);
    Step(45, 0x76fd93d4, 0x3f55edfd, 0x0fe32453, 0xfd95f243, 0x22a31f54);
    Step(46, 0xfd95f243, 0x22a31f54, 0x3f55edfd, 0x0fe32453, 0x68d84ea2);
    Step(47, 0x0fe32453, 0x68d84ea2, 0x22a31f54, 0x3f55edfd, 0xca7d2dbd);
  }

  lemma From48()
    requires At(48, 0x3f55edfd, 0xca7d2dbd, 0x68d84ea2, 0x22a31f54)
    ensures At(52, 0x93aa2577, 0x561e0689, 0xcd85b8cb, 0x1688dc85)
  {
    hide At;
    Step(48, 0x3f55edfd, 0xca7d2dbd, 0x68d84ea2, 0x22a31f54, 0x93aa2577);
    Step(49, 0x22a31f54, 0x93aa2577, 0xca7d2dbd, 0x68d84ea2, 0x1688dc85);
    Step(50, 0x68d84ea2, 0x1688dc85, 0x93aa2577, 0xca7d2dbd, 0xcd85b8cb);
    Step(51, 0xca7d2dbd, 0xcd85b8cb, 0x1688dc85, 0x93aa2577, 0x561e0689);
  }

  lemma From52()
    requires At(52, 0x93aa2577, 0x561e0689, 0xcd85b8cb, 0x1688dc85)
    ensures At(56, 0x5625a114, 0x1e77fa61, 0x392ad0d0, 0x3450f42b)
  {
    hide At;
    Step(52, 0x93aa2577, 0x561e0689, 0xcd85b8cb, 0x1688dc85, 0x5625a114);
    Step(53, 0x1688dc85, 0x5625a114, 0x561e0689, 0xcd85b8cb, 0x3450f42b);
    Step(54, 0xcd85b8cb, 0x3450f42b, 0x5625a114, 0x561e0689, 0x392ad0d0);
    Step(55, 0x561e0689, 0x392ad0d0, 0x3450f42b, 0x5625a114, 0x1e77fa61);
  }

  lemma From56()
    requires At(56, 0x5625a114, 0x1e77fa61, 0x392ad0d0, 0x3450f42b)
    ensures At(60, 0x474a9c8c, 0x30130182, 0x36594b14, 0xdfce00bc)
  {
    hide At;
    Step(56, 0x5625a114, 0x1e77fa61, 0x392ad0d0, 0x3450f42b, 0x474a9c8c);
    Step(57, 0x3450f42b, 0x474a9c8c, 0x1e77fa61, 0x392ad0d0, 0xdfce00bc);
    Step(58, 0x392ad0d0, 0xdfce00bc, 0x474a9c8c, 0x1e77fa61, 0x36594b14);
    Step(59, 0x1e77fa61, 0x36594b14, 0xdfce00bc, 0x474a9c8c, 0x30130182);
  }

  lemma From60()
    requires At(60, 0x474a9c8c, 0x30130182, 0x36594b14, 0xdfce00bc)
    ensures At(64, 0x7246fad3, 0x14e45506, 0xff4ea3eb, 0x6e10a476)
  {
    hide At;
    Step(60, 0x474a9c8c, 0x30130182, 0x36594b14, 0xdfce00bc, 0x7246fad3);
    Step(61, 0xdfce00bc, 0x7246fad3, 0x30130182, 0x36594b14, 0x6e10a476);
    Step(62, 0x36594b14, 0x6e10a476, 0x7246fad3, 0x30130182, 0xff4ea3eb);
    Step(63, 0x30130182, 0xff4ea3eb, 0x6e10a476, 0x7246fad3, 0x14e45506);
  }

  /** All 64 operations on the block of the empty message. */
  lemma AllSteps()
    ensures At(64, 0x7246fad3, 0x14e45506, 0xff4ea3eb, 0x6e10a476)
  {
    hide At;
    AtStart();
    From00();
    From04();
    From08();
    From12();
    From16();
    From20();
    From24();
    From28();
    From32();
    From36();
    From40();
    From44();
    From48();
    From52();
    From56();
    From60();
  }

  lemma AtStart()
    ensures At(0, 0x67452301, 0xefcdab89, 0x98badcfe, 0x10325476)
  {
  }

  /** The words of section 3.3, low-order bytes first: 01 23 45 67, 89 ab cd ef, fe dc ba 98, 76 54 32 10. */
  lemma InitialBytes()
    ensures Output(INIT) ==
            [0x01, 0x23, 0x45, 0x67, 0x89, 0xab, 0xcd, 0xef, 0xfe, 0xdc, 0xba, 0x98, 0x76, 0x54, 0x32, 0x10]
  {
  }

  function Bit(w: bv32, j: bv6): bv32
    requires j < 32
  {
    (w >> j) & 1
  }

  function LeftBy(w: bv32, s: bv6): bv32
    requires s <= 32
  {
    w << s
  }

  function RightBy(w: bv32, s: bv6): bv32
    requires s <= 32
  {
    w >> s
  }

  function Or(u: bv32, v: bv32): bv32 { u | v }

  lemma BitOfOr(u: bv32, v: bv32, j: bv6)
    requires j < 32
    ensures Bit(Or(u, v), j) == Or(Bit(u, j), Bit(v, j))
    ensures Or(u, 0) == u && Or(0, u) == u
  {
  }

  lemma LeftAbove(w: bv32, s: bv6, j: bv6)
    requires s <= j < 32
    ensures Bit(LeftBy(w, s), j) == Bit(w, j - s)
  {
  }

  lemma LeftBelow(w: bv32, s: bv6, j: bv6)
    requires j < s <= 32
    ensures Bit(LeftBy(w, s), j) == 0
  {
  }

  lemma RightBelow(w: bv32, s: bv6, j: bv6)
    requires s <= 32 && j < 32 - s
    ensures Bit(RightBy(w, s), j) == Bit(w, j + s)
  {
  }

  lemma RightAbove(w: bv32, s: bv6, j: bv6)
    requires s <= 32 && 32 - s <= j < 32
    ensures Bit(RightBy(w, s), j) == 0
  {
  }

  lemma RotateParts(w: bv32, s: bv6)
    requires s <= 32
    ensures Rotate(w, s) == Or(LeftBy(w, s), RightBy(w, 32 - s))
  {
  }

  /** A rotation by s takes bit j - s, counted round the word, to bit j. */
  lemma RotateBits(w: bv32, s: bv6, j: bv6)
    requires s <= 32 && j < 32
    ensures Bit(Rotate(w, s), j) == if j < s then Bit(w, j + (32 - s)) else Bit(w, j - s)
  {
    hide Bit, LeftBy, RightBy, Or, Rotate;
    RotateParts(w, s);
    BitOfOr(LeftBy(w, s), RightBy(w, 32 - s), j);
    if j < s {
      LeftBelow(w, s, j);
      RightBelow(w, 32 - s, j);
      BitOfOr(Bit(w, j + (32 - s)), 0, 0);
    } else {
      LeftAbove(w, s, j);
      RightAbove(w, 32 - s, j);
      BitOfOr(Bit(w, j - s), 0, 0);
    }
  }

  function Wide(b: bv8): bv32 { b as bv32 }

  function Joined(a: bv32, b: bv32, c: bv32, d: bv32): bv32 { a | (b << 8) | (c << 16) | (d << 24) }

  /** The number that four bytes write to the base 256, low-order byte first. */
  function Base256(a: bv32, b: bv32, c: bv32, d: bv32): bv32 { a + 0x100 * b + 0x1_0000 * c + 0x100_0000 * d }

  lemma JoinedValue(a: bv32, b: bv32, c: bv32, d: bv32)
    requires a < 0x100 && b < 0x100 && c < 0x100 && d < 0x100
    ensures Joined(a, b, c, d) == Base256(a, b, c, d)
  {
  }

  lemma WideSmall(b: bv8)
    ensures Wide(b) < 0x100
  {
  }

  lemma WordParts(m: seq<bv8>, at: nat)
    requires at + 4 <= |m|
    ensures Word(m, at) == Joined(Wide(m[at]), Wide(m[at + 1]), Wide(m[at + 2]), Wide(m[at + 3]))
    ensures WordBytes(Word(m, at)) == [m[at], m[at + 1], m[at + 2], m[at + 3]]
  {
  }

  /** A word is that number of its bytes, and gives them back. */
  lemma WordValue(m: seq<bv8>, at: nat)
    requires at + 4 <= |m|
    ensures Word(m, at) == Base256(Wide(m[at]), Wide(m[at + 1]), Wide(m[at + 2]), Wide(m[at + 3]))
    ensures WordBytes(Word(m, at)) == m[at..at + 4]
  {
    hide Word, WordBytes, Wide, Joined, Base256;
    WordParts(m, at);
    WideSmall(m[at]);
    WideSmall(m[at + 1]);
    WideSmall(m[at + 2]);
    WideSmall(m[at + 3]);
    JoinedValue(Wide(m[at]), Wide(m[at + 1]), Wide(m[at + 2]), Wide(m[at + 3]));
  }

  lemma EmptyBlock()
    ensures |Padded([])| == 64 && Words(Padded([])[..64]) == BLOCK
  {
    hide Padded, Word;
    EmptyPadded();
    var m := Padded([]);
    forall k | 0 <= k < 16
      ensures Words(m[..64])[k] == BLOCK[k]
    {
      ZeroWord(m[..64], 4 * k);
    }
  }

  lemma EmptyPadded()
    ensures |Padded([])| == 64 && Padded([])[0] == 0x80 && forall i :: 1 <= i < 64 ==> Padded([])[i] == 0
  {
    hide LengthField, Zeros;
    NoLength();
    assert Padded([]) == Tail(0) == [0x80] + Zeros(55) + LengthField(0);
  }

  lemma NoLength()
    ensures LengthField(0) == [0, 0, 0, 0, 0, 0, 0, 0]
  {
    assert NatBytes(0) == [0, 0, 0, 0];
  }

  lemma ZeroWord(m: seq<bv8>, at: nat)
    requires at + 4 <= |m|
    ensures m[at + 1] == 0 && m[at + 2] == 0 && m[at + 3] == 0 ==>
              (m[at] == 0 ==> Word(m, at) == 0) && (m[at] == 0x80 ==> Word(m, at) == 0x80)
  {
  }

  /** The digest of the empty message. */
  lemma EmptyDigest()
    ensures Digest([]) ==
            [0xd4, 0x1d, 0x8c, 0xd9, 0x8f, 0x00, 0xb2, 0x04, 0xe9, 0x80, 0x09, 0x98, 0xec, 0xf8, 0x42, 0x7e]
  {
    hide Operations, Words, Padded;
    AllSteps();
    EmptyBlock();
    var m := Padded([]);
    assert m[..64] == m && m[64..] == [];
    assert Process(INIT, m) == Compress(INIT, BLOCK);
    NothingShifted(Operations(INIT, BLOCK, 64));
    EmptySum();
  }

  lemma EmptySum()
    ensures Output(AddRegs(Regs(0x7246fad3, 0x14e45506, 0xff4ea3eb, 0x6e10a476), INIT)) ==
            [0xd4, 0x1d, 0x8c, 0xd9, 0x8f, 0x00, 0xb2, 0x04, 0xe9, 0x80, 0x09, 0x98, 0xec, 0xf8, 0x42, 0x7e]
  {
  }
}
