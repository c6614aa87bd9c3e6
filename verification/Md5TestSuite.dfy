/** Section 3.4 and appendix A.5 of RFC 1321: the rows of the four rounds, and two digests of the test suite. */
module Md5TestSuite {
  import opened Rfc1321

  // ----- the rows [abcd k s i] of section 3.4, and T as appendix A.3 lists it

  lemma Table1()
    ensures WordIndex(0) == 0 && WordIndex(1) == 1 && WordIndex(2) == 2 && WordIndex(3) == 3
    ensures WordIndex(4) == 4 && WordIndex(5) == 5 && WordIndex(6) == 6 && WordIndex(7) == 7
    ensures WordIndex(8) == 8 && WordIndex(9) == 9 && WordIndex(10) == 10 && WordIndex(11) == 11
    ensures WordIndex(12) == 12 && WordIndex(13) == 13 && WordIndex(14) == 14 && WordIndex(15) == 15
    ensures Rotation(0) == 7 && Rotation(1) == 12 && Rotation(2) == 17 && Rotation(3) == 22
    ensures Rotation(4) == 7 && Rotation(5) == 12 && Rotation(6) == 17 && Rotation(7) == 22
    ensures Rotation(8) == 7 && Rotation(9) == 12 && Rotation(10) == 17 && Rotation(11) == 22
    ensures Rotation(12) == 7 && Rotation(13) == 12 && Rotation(14) == 17 && Rotation(15) == 22
  {
  }

  lemma TableT1()
    ensures T(0) == 0xd76aa478 && T(1) == 0xe8c7b756 && T(2) == 0x242070db && T(3) == 0xc1bdceee
    ensures T(4) == 0xf57c0faf && T(5) == 0x4787c62a && T(6) == 0xa8304613 && T(7) == 0xfd469501
    ensures T(8) == 0x698098d8 && T(9) == 0x8b44f7af && T(10) == 0xffff5bb1 && T(11) == 0x895cd7be
    ensures T(12) == 0x6b901122 && T(13) == 0xfd987193 && T(14) == 0xa679438e && T(15) == 0x49b40821
  {
  }

  lemma Table2()
    ensures WordIndex(16) == 1 && WordIndex(17) == 6 && WordIndex(18) == 11 && WordIndex(19) == 0
    ensures WordIndex(20) == 5 && WordIndex(21) == 10 && WordIndex(22) == 15 && WordIndex(23) == 4
    ensures WordIndex(24) == 9 && WordIndex(25) == 14 && WordIndex(26) == 3 && WordIndex(27) == 8
    ensures WordIndex(28) == 13 && WordIndex(29) == 2 && WordIndex(30) == 7 && WordIndex(31) == 12
    ensures Rotation(16) == 5 && Rotation(17) == 9 && Rotation(18) == 14 && Rotation(19) == 20
    ensures Rotation(20) == 5 && Rotation(21) == 9 && Rotation(22) == 14 && Rotation(23) == 20
    ensures Rotation(24) == 5 && Rotation(25) == 9 && Rotation(26) == 14 && Rotation(27) == 20
    ensures Rotation(28) == 5 && Rotation(29) == 9 && Rotation(30) == 14 && Rotation(31) == 20
  {
  }

  lemma TableT2()
    ensures T(16) == 0xf61e2562 && T(17) == 0xc040b340 && T(18) == 0x265e5a51 && T(19) == 0xe9b6c7aa
    ensures T(20) == 0xd62f105d && T(21) == 0x02441453 && T(22) == 0xd8a1e681 && T(23) == 0xe7d3fbc8
    ensures T(24) == 0x21e1cde6 && T(25) == 0xc33707d6 && T(26) == 0xf4d50d87 && T(27) == 0x455a14ed
    ensures T(28) == 0xa9e3e905 && T(29) == 0xfcefa3f8 && T(30) == 0x676f02d9 && T(31) == 0x8d2a4c8a
  {
  }

  lemma Table3()
    ensures WordIndex(32) == 5 && WordIndex(33) == 8 && WordIndex(34) == 11 && WordIndex(35) == 14
    ensures WordIndex(36) == 1 && WordIndex(37) == 4 && WordIndex(38) == 7 && WordIndex(39) == 10
    ensures WordIndex(40) == 13 && WordIndex(41) == 0 && WordIndex(42) == 3 && WordIndex(43) == 6
    ensures WordIndex(44) == 9 && WordIndex(45) == 12 && WordIndex(46) == 15 && WordIndex(47) == 2
    ensures Rotation(32) == 4 && Rotation(33) == 11 && Rotation(34) == 16 && Rotation(35) == 23
    ensures Rotation(36) == 4 && Rotation(37) == 11 && Rotation(38) == 16 && Rotation(39) == 23
    ensures Rotation(40) == 4 && Rotation(41) == 11 && Rotation(42) == 16 && Rotation(43) == 23
    ensures Rotation(44) == 4 && Rotation(45) == 11 && Rotation(46) == 16 && Rotation(47) == 23
  {
  }

  lemma TableT3()
    ensures T(32) == 0xfffa3942 && T(33) == 0x8771f681 && T(34) == 0x6d9d6122 && T(35) == 0xfde5380c
    ensures T(36) == 0xa4beea44 && T(37) == 0x4bdecfa9 && T(38) == 0xf6bb4b60 && T(39) == 0xbebfbc70
    ensures T(40) == 0x289b7ec6 && T(41) == 0xeaa127fa && T(42) == 0xd4ef3085 && T(43) == 0x04881d05
    ensures T(44) == 0xd9d4d039 && T(45) == 0xe6db99e5 && T(46) == 0x1fa27cf8 && T(47) == 0xc4ac5665
  {
  }

  lemma Table4()
    ensures WordIndex(48) == 0 && WordIndex(49) == 7 && WordIndex(50) == 14 && WordIndex(51) == 5
    ensures WordIndex(52) == 12 && WordIndex(53) == 3 && WordIndex(54) == 10 && WordIndex(55) == 1
    ensures WordIndex(56) == 8 && WordIndex(57) == 15 && WordIndex(58) == 6 && WordIndex(59) == 13
    ensures WordIndex(60) == 4 && WordIndex(61) == 11 && WordIndex(62) == 2 && WordIndex(63) == 9
    ensures Rotation(48) == 6 && Rotation(49) == 10 && Rotation(50) == 15 && Rotation(51) == 21
    ensures Rotation(52) == 6 && Rotation(53) == 10 && Rotation(54) == 15 && Rotation(55) == 21
    ensures Rotation(56) == 6 && Rotation(57) == 10 && Rotation(58) == 15 && Rotation(59) == 21
    ensures Rotation(60) == 6 && Rotation(61) == 10 && Rotation(62) == 15 && Rotation(63) == 21
  {
  }

  lemma TableT4()
    ensures T(48) == 0xf4292244 && T(49) == 0x432aff97 && T(50) == 0xab9423a7 && T(51) == 0xfc93a039
    ensures T(52) == 0x655b59c3 && T(53) == 0x8f0ccc92 && T(54) == 0xffeff47d && T(55) == 0x85845dd1
    ensures T(56) == 0x6fa87e4f && T(57) == 0xfe2ce6e0 && T(58) == 0xa3014314 && T(59) == 0x4e0811a1
    ensures T(60) == 0xf7537e82 && T(61) == 0xbd3af235 && T(62) == 0x2ad7d2bb && T(63) == 0xeb86d391
  {
  }

  /** Section 3.3: the bytes of the registers before the first block. */
  lemma InitialBytes()
    ensures Digest(INIT) == [0x01, 0x23, 0x45, 0x67, 0x89, 0xab, 0xcd, 0xef, 0xfe, 0xdc, 0xba, 0x98, 0x76, 0x54, 0x32, 0x10]
  {
  }

  // ----- evaluation, four operations at a time

  lemma Begin(x: seq<bv32>)
    requires |x| == 16
    ensures Operations(0, INIT, x) == Regs(0x67452301, 0xefcdab89, 0x98badcfe, 0x10325476)
  {
  }

  lemma Four(x: seq<bv32>, i: nat, s: nat, t: nat, u: nat, v: nat, a: bv32, b: bv32, c: bv32, d: bv32,
             a': bv32, d': bv32, c': bv32, b': bv32)
    requires i + 3 < 64 && |x| == 16 && 0 < s < 32 && 0 < t < 32 && 0 < u < 32 && 0 < v < 32
    requires Rotation(i) == s && Rotation(i + 1) == t && Rotation(i + 2) == u && Rotation(i + 3) == v
    requires Operations(i, INIT, x) == Regs(a, b, c, d)
    requires NewWord(a, b, Aux(i, b, c, d), x[WordIndex(i)], T(i), s) == a'
    requires NewWord(d, a', Aux(i + 1, a', b, c), x[WordIndex(i + 1)], T(i + 1), t) == d'
    requires NewWord(c, d', Aux(i + 2, d', a', b), x[WordIndex(i + 2)], T(i + 2), u) == c'
    requires NewWord(b, c', Aux(i + 3, c', d', a'), x[WordIndex(i + 3)], T(i + 3), v) == b'
    ensures Operations(i + 4, INIT, x) == Regs(a', b', c', d')
  {
    hide NewWord, Aux, WordIndex, T, Rotation;
    assert Operations(i + 1, INIT, x) == Regs(d, a', b, c);
    assert Operations(i + 2, INIT, x) == Regs(c, d', a', b);
    assert Operations(i + 3, INIT, x) == Regs(b, c', d', a');
  }

  // ----- the empty message

  predicate EmptyWords(x: seq<bv32>) {
    |x| == 16 && x[0] == 0x80 && forall k :: 0 < k < 16 ==> x[k] == 0
  }

  lemma EmptyRound1(x: seq<bv32>)
    requires EmptyWords(x)
    ensures Operations(16, INIT, x) == Regs(0xf56c7cf1, 0xd6819c6a, 0x5aa53f75, 0x374943a7)
  {
    hide Operation, Operations, WordIndex, Rotation, T;
    Table1();
    TableT1();
    Begin(x);
    Four(x, 0, 7, 12, 17, 22, 0x67452301, 0xefcdab89, 0x98badcfe, 0x10325476, 0xa5202774, 0xf59592dd, 0xe7f06b23, 0x1b163203);
    Four(x, 4, 7, 12, 17, 22, 0xa5202774, 0x1b163203, 0xe7f06b23, 0xf59592dd, 0x32033344, 0x2f35d494, 0xf5b158db, 0x9bc13ce9);
    Four(x, 8, 7, 12, 17, 22, 0x32033344, 0x9bc13ce9, 0xf5b158db, 0x2f35d494, 0x3893b991, 0xfce4a312, 0xe1ef0576, 0x70768a29);
    Four(x, 12, 7, 12, 17, 22, 0x3893b991, 0x70768a29, 0xe1ef0576, 0xfce4a312, 0xf56c7cf1, 0x374943a7, 0x5aa53f75, 0xd6819c6a);
  }

  lemma EmptyRound2(x: seq<bv32>)
    requires EmptyWords(x) && Operations(16, INIT, x) == Regs(0xf56c7cf1, 0xd6819c6a, 0x5aa53f75, 0x374943a7)
    ensures Operations(32, INIT, x) == Regs(0x13707036, 0xa2205f1f, 0x1c31c384, 0xae7813db)
  {
    hide Operation, Operations, WordIndex, Rotation, T;
    Table2();
    TableT2();
    Four(x, 16, 5, 9, 14, 20, 0xf56c7cf1, 0xd6819c6a, 0x5aa53f75, 0x374943a7, 0x1c7d7513, 0x7bd57a3a, 0xc095f13a, 0xbd782e17);
    Four(x, 20, 5, 9, 14, 20, 0x1c7d7513, 0xbd782e17, 0xc095f13a, 0x7bd57a3a, 0x3d1e3e6c, 0x68b7b3e3, 0xeb41643e, 0xe422531a);
    Four(x, 24, 5, 9, 14, 20, 0x3d1e3e6c, 0xe422531a, 0xeb41643e, 0x68b7b3e3, 0x306ec122, 0xd28c77c2, 0xa3c663da, 0xa0572807);
    Four(x, 28, 5, 9, 14, 20, 0x306ec122, 0xa0572807, 0xa3c663da, 0xd28c77c2, 0x13707036, 0xae7813db, 0x1c31c384, 0xa2205f1f);
  }

  lemma EmptyRound3(x: seq<bv32>)
    requires EmptyWords(x) && Operations(32, INIT, x) == Regs(0x13707036, 0xa2205f1f, 0x1c31c384, 0xae7813db)
    ensures Operations(48, INIT, x) == Regs(0x3f55edfd, 0xca7d2dbd, 0x68d84ea2, 0x22a31f54)
  {
    hide Operation, Operations, WordIndex, Rotation, T;
    Table3();
    TableT3();
    Four(x, 32, 4, 11, 16, 23, 0x13707036, 0xa2205f1f, 0x1c31c384, 0xae7813db, 0xdf63eaa1, 0xc3689f5b, 0x12f3e755, 0x004b6669);
    Four(x, 36, 4, 11, 16, 23, 0xdf63eaa1, 0x004b6669, 0x12f3e755, 0xc3689f5b, 0x5f7a9b2e, 0xabc34e16, 0x91ca4cb7, 0xc5dc8c15);
    Four(x, 40, 4, 11, 16, 23, 0x5f7a9b2e, 0xc5dc8c15, 0x91ca4cb7, 0xabc34e16, 0x4497169d, 0x76fd93d4, 0xfd95f243, 0x0fe32453);
    Four(x, 44, 4, 11, 16, 23, 0x4497169d, 0x0fe32453, 0xfd95f243, 0x76fd93d4, 0x3f55edfd, 0x22a31f54, 0x68d84ea2, 0xca7d2dbd);
  }

  lemma EmptyRound4(x: seq<bv32>)
    requires EmptyWords(x) && Operations(48, INIT, x) == Regs(0x3f55edfd, 0xca7d2dbd, 0x68d84ea2, 0x22a31f54)
    ensures Operations(64, INIT, x) == Regs(0x7246fad3, 0x14e45506, 0xff4ea3eb, 0x6e10a476)
  {
    hide Operation, Operations, WordIndex, Rotation, T;
    Table4();
    TableT4();
    Four(x, 48, 6, 10, 15, 21, 0x3f55edfd, 0xca7d2dbd, 0x68d84ea2, 0x22a31f54, 0x93aa2577, 0x1688dc85, 0xcd85b8cb, 0x561e0689);
    Four(x, 52, 6, 10, 15, 21, 0x93aa2577, 0x561e0689, 0xcd85b8cb, 0x1688dc85, 0x5625a114, 0x3450f42b, 0x392ad0d0, 0x1e77fa61);
    Four(x, 56, 6, 10, 15, 21, 0x5625a114, 0x1e77fa61, 0x392ad0d0, 0x3450f42b, 0x474a9c8c, 0xdfce00bc, 0x36594b14, 0x30130182);
    Four(x, 60, 6, 10, 15, 21, 0x474a9c8c, 0x30130182, 0x36594b14, 0xdfce00bc, 0x7246fad3, 0x6e10a476, 0xff4ea3eb, 0x14e45506);
  }

  // ----- "abc"

  predicate AbcWords(x: seq<bv32>) {
    |x| == 16 && x[0] == 0x80636261 && x[14] == 24 && forall k :: 0 < k < 16 && k != 14 ==> x[k] == 0
  }

  lemma AbcRound1(x: seq<bv32>)
    requires AbcWords(x)
    ensures Operations(16, INIT, x) == Regs(0xdda9b9a6, 0x72aff2e0, 0xe396856b, 0xa1051895)
  {
    hide Operation, Operations, WordIndex, Rotation, T;
    Table1();
    TableT1();
    Begin(x);
    Four(x, 0, 7, 12, 17, 22, 0x67452301, 0xefcdab89, 0x98badcfe, 0x10325476, 0xd6d117b4, 0x344a8432, 0x2f6fbd72, 0x7ad956f2);
    Four(x, 4, 7, 12, 17, 22, 0xd6d117b4, 0x7ad956f2, 0x2f6fbd72, 0x344a8432, 0xc73741ef, 0x8bac3051, 0x207dc67b, 0x928d99f6);
    Four(x, 8, 7, 12, 17, 22, 0xc73741ef, 0x928d99f6, 0x207dc67b, 0x8bac3051, 0x854b3712, 0x74e2f284, 0x3020401c, 0x5ed49596);
    Four(x, 12, 7, 12, 17, 22, 0x854b3712, 0x5ed49596, 0x3020401c, 0x74e2f284, 0xdda9b9a6, 0xa1051895, 0xe396856b, 0x72aff2e0);
  }

  lemma AbcRound2(x: seq<bv32>)
    requires AbcWords(x) && Operations(16, INIT, x) == Regs(0xdda9b9a6, 0x72aff2e0, 0xe396856b, 0xa1051895)
    ensures Operations(32, INIT, x) == Regs(0x790a77fb, 0x726342d3, 0xa62884aa, 0x9f47e4f8)
  {
    hide Operation, Operations, WordIndex, Rotation, T;
    Table2();
    TableT2();
    Four(x, 16, 5, 9, 14, 20, 0xdda9b9a6, 0x72aff2e0, 0xe396856b, 0xa1051895, 0x3e9e9126, 0x4a1d804e, 0xe25e1652, 0xb5b204e4);
    Four(x, 20, 5, 9, 14, 20, 0x3e9e9126, 0xb5b204e4, 0xe25e1652, 0x4a1d804e, 0x59a8ffda, 0x6d002f1e, 0xabfc7920, 0x47092c07);
    Four(x, 24, 5, 9, 14, 20, 0x59a8ffda, 0x47092c07, 0xabfc7920, 0x6d002f1e, 0xb7f268cf, 0x09388eff, 0xfe1623b1, 0x786acb8f);
    Four(x, 28, 5, 9, 14, 20, 0xb7f268cf, 0x786acb8f, 0xfe1623b1, 0x09388eff, 0x790a77fb, 0x9f47e4f8, 0xa62884aa, 0x726342d3);
  }

  lemma AbcRound3(x: seq<bv32>)
    requires AbcWords(x) && Operations(32, INIT, x) == Regs(0x790a77fb, 0x726342d3, 0xa62884aa, 0x9f47e4f8)
    ensures Operations(48, INIT, x) == Regs(0x7f2e507b, 0x7beb9700, 0x8fae6399, 0x99d9679d)
  {
    hide Operation, Operations, WordIndex, Rotation, T;
    Table3();
    TableT3();
    Four(x, 32, 4, 11, 16, 23, 0x790a77fb, 0x726342d3, 0xa62884aa, 0x9f47e4f8, 0xb3707ebf, 0x60127b2e, 0x8d212ff5, 0x3b0875c7);
    Four(x, 36, 4, 11, 16, 23, 0xb3707ebf, 0x3b0875c7, 0x8d212ff5, 0x60127b2e, 0x21b117b9, 0x6e7429d5, 0x3575227e, 0x5a2f5ea5);
    Four(x, 40, 4, 11, 16, 23, 0x21b117b9, 0x5a2f5ea5, 0x3575227e, 0x6e7429d5, 0x11de1779, 0xfadcaa38, 0x31c465ca, 0x4c6124f4);
    Four(x, 44, 4, 11, 16, 23, 0x11de1779, 0x4c6124f4, 0x31c465ca, 0xfadcaa38, 0x7f2e507b, 0x99d9679d, 0x8fae6399, 0x7beb9700);
  }

  lemma AbcRound4(x: seq<bv32>)
    requires AbcWords(x) && Operations(48, INIT, x) == Regs(0x7f2e507b, 0x7beb9700, 0x8fae6399, 0x99d9679d)
    ensures Operations(64, INIT, x) == Regs(0x310ade8f, 0xc08226b3, 0xe484b9d8, 0x624d8cb2)
  {
    hide Operation, Operations, WordIndex, Rotation, T;
    Table4();
    TableT4();
    Four(x, 48, 6, 10, 15, 21, 0x7f2e507b, 0x7beb9700, 0x8fae6399, 0x99d9679d, 0x7b201df8, 0xf4e8e96e, 0xb298cefd, 0x8bf025c4);
    Four(x, 52, 6, 10, 15, 21, 0x7b201df8, 0x8bf025c4, 0xb298cefd, 0xf4e8e96e, 0x06cc5e8a, 0x5b0d97aa, 0x7d632dd0, 0x3bfa2c27);
    Four(x, 56, 6, 10, 15, 21, 0x06cc5e8a, 0x3bfa2c27, 0x7d632dd0, 0x5b0d97aa, 0x7f81cc35, 0x094454ab, 0x4f9dbe3f, 0x7327d604);
    Four(x, 60, 6, 10, 15, 21, 0x7f81cc35, 0x7327d604, 0x4f9dbe3f, 0x094454ab, 0x310ade8f, 0x624d8cb2, 0xe484b9d8, 0xc08226b3);
  }

  // ----- the digests

  lemma EmptyBlock()
    ensures |Padded([])| == 64 && EmptyWords(Words(Padded([])))
  {
    var p := Padded([]);
    assert LittleEndian(0, 8) == ZeroBytes(8) by { ZeroLength(8); }
    forall k | 0 < k < 16 ensures WordAt(p, 4 * k) == 0 {
      assert p[4 * k] == 0 && p[4 * k + 1] == 0 && p[4 * k + 2] == 0 && p[4 * k + 3] == 0;
    }
    assert p[0] == 0x80 && p[1] == 0 && p[2] == 0 && p[3] == 0;
  }

  lemma {:induction false} ZeroLength(n: nat)
    ensures LittleEndian(0, n) == ZeroBytes(n)
  {
    if n > 0 {
      ZeroLength(n - 1);
    }
  }

  const ABC: seq<bv8> := [0x61, 0x62, 0x63]

  lemma AbcBytes()
    ensures var p := Padded(ABC);
            && |p| == 64 && p[0] == 0x61 && p[1] == 0x62 && p[2] == 0x63 && p[3] == 0x80 && p[56] == 24
            && forall i :: 4 <= i < 64 && i != 56 ==> p[i] == 0
  {
    ZeroLength(7);
    assert LittleEndian(24, 8) == [24] + ZeroBytes(7);
  }

  lemma AbcBlock()
    ensures |Padded(ABC)| == 64 && AbcWords(Words(Padded(ABC)))
  {
    var p := Padded(ABC);
    AbcBytes();
    hide Padded;
    forall k | 0 < k < 16 && k != 14 ensures WordAt(p, 4 * k) == 0 {
      assert p[4 * k] == 0 && p[4 * k + 1] == 0 && p[4 * k + 2] == 0 && p[4 * k + 3] == 0;
    }
    assert WordAt(p, 0) == 0x80636261 && WordAt(p, 56) == 24;
  }

  lemma OneBlock(p: seq<bv8>, x: seq<bv32>, o: Regs)
    requires |p| == 64 && x == Words(p) && Operations(64, INIT, x) == o
    ensures Blocks(INIT, p) == Regs(Plus(o.a, INIT.a), Plus(o.b, INIT.b), Plus(o.c, INIT.c), Plus(o.d, INIT.d))
  {
    hide Operations, Words, Plus;
    assert p[..64] == p && p[64..] == [];
  }

  lemma EmptyDigest()
    ensures Md5([]) == [0xd4, 0x1d, 0x8c, 0xd9, 0x8f, 0x00, 0xb2, 0x04, 0xe9, 0x80, 0x09, 0x98, 0xec, 0xf8, 0x42, 0x7e]
  {
    hide Operations, Words, Padded, Blocks;
    EmptyBlock();
    var x := Words(Padded([]));
    EmptyRound1(x);
    EmptyRound2(x);
    EmptyRound3(x);
    EmptyRound4(x);
    OneBlock(Padded([]), x, Regs(0x7246fad3, 0x14e45506, 0xff4ea3eb, 0x6e10a476));
    assert Blocks(INIT, Padded([])) == Regs(0xd98c1dd4, 0x04b2008f, 0x980980e9, 0x7e42f8ec);
  }

  lemma AbcDigest()
    ensures Md5(ABC) == [0x90, 0x01, 0x50, 0x98, 0x3c, 0xd2, 0x4f, 0xb0, 0xd6, 0x96, 0x3f, 0x7d, 0x28, 0xe1, 0x7f, 0x72]
  {
    hide Operations, Words, Padded, Blocks;
    AbcBlock();
    var x := Words(Padded(ABC));
    AbcRound1(x);
    AbcRound2(x);
    AbcRound3(x);
    AbcRound4(x);
    OneBlock(Padded(ABC), x, Regs(0x310ade8f, 0xc08226b3, 0xe484b9d8, 0x624d8cb2));
    assert Blocks(INIT, Padded(ABC)) == Regs(0x98500190, 0xb04fd23c, 0x7d3f96d6, 0x727fe128);
  }
}
