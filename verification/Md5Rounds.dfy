/** md5.c: the basic functions and the unrolled compression function. */
module Md5Rounds {
  import opened Rfc1321

  // ----- bit-level facts

  lemma AndOverXor(x: bv32, y: bv32, z: bv32)
    ensures x & (y ^ z) == (x & y) ^ (x & z)
  {
  }

  lemma XorSwap(p: bv32, q: bv32, z: bv32)
    ensures z ^ (p ^ q) == p ^ (z ^ q)
  {
  }

  lemma XorClears(x: bv32, z: bv32)
    ensures z ^ (x & z) == !x & z
  {
  }

  lemma DisjointXorIsOr(x: bv32, y: bv32, z: bv32)
    ensures (x & y) ^ (!x & z) == (x & y) | (!x & z)
  {
  }

  /** A choice between y and z made without an AND-NOT. */
  lemma Select(x: bv32, y: bv32, z: bv32)
    ensures z ^ (x & (y ^ z)) == (x & y) | (!x & z)
  {
    AndOverXor(x, y, z);
    XorSwap(x & y, x & z, z);
    XorClears(x, z);
    DisjointXorIsOr(x, y, z);
  }

  lemma OrShape(x: bv32, y: bv32, z: bv32)
    ensures (z & x) | (!z & y) == (x & z) | (y & !z)
  {
  }

  lemma MaskIsIdentity(a: bv32)
    ensures a & 0xffffffff == a
  {
  }

  // ----- the basic functions, optimised, and the RFC's

  function F(x: bv32, y: bv32, z: bv32): bv32 { z ^ (x & (y ^ z)) }
  function G(x: bv32, y: bv32, z: bv32): bv32 { y ^ (z & (x ^ y)) }
  function H(x: bv32, y: bv32, z: bv32): bv32 { (x ^ y) ^ z }
  function H2(x: bv32, y: bv32, z: bv32): bv32 { x ^ (y ^ z) }
  function I(x: bv32, y: bv32, z: bv32): bv32 { y ^ (x | !z) }

  lemma FIsRfcF(x: bv32, y: bv32, z: bv32)
    ensures F(x, y, z) == RfcF(x, y, z)
  {
    Select(x, y, z);
  }

  lemma GIsRfcG(x: bv32, y: bv32, z: bv32)
    ensures G(x, y, z) == RfcG(x, y, z)
  {
    Select(z, x, y);
    OrShape(x, y, z);
  }

  lemma HsAreRfcH(x: bv32, y: bv32, z: bv32)
    ensures H(x, y, z) == RfcH(x, y, z) && H2(x, y, z) == RfcH(x, y, z)
  {
  }

  /** X <<< s moves every bit round the circle, for each amount MD5 rotates by. */
  lemma RotationIsCircular(x: bv32)
    ensures RotateLeft(x, 7) == x.RotateLeft(7) && RotateLeft(x, 12) == x.RotateLeft(12)
    ensures RotateLeft(x, 17) == x.RotateLeft(17) && RotateLeft(x, 22) == x.RotateLeft(22)
    ensures RotateLeft(x, 5) == x.RotateLeft(5) && RotateLeft(x, 9) == x.RotateLeft(9)
    ensures RotateLeft(x, 14) == x.RotateLeft(14) && RotateLeft(x, 20) == x.RotateLeft(20)
    ensures RotateLeft(x, 4) == x.RotateLeft(4) && RotateLeft(x, 11) == x.RotateLeft(11)
    ensures RotateLeft(x, 16) == x.RotateLeft(16) && RotateLeft(x, 23) == x.RotateLeft(23)
    ensures RotateLeft(x, 6) == x.RotateLeft(6) && RotateLeft(x, 10) == x.RotateLeft(10)
    ensures RotateLeft(x, 15) == x.RotateLeft(15) && RotateLeft(x, 21) == x.RotateLeft(21)
  {
  }

  // ----- STEP, once for each basic function

  function Rotated(a: bv32, s: nat): bv32
    requires 0 < s < 32
  {
    (a << s) | ((a & 0xffffffff) >> (32 - s))
  }

  lemma RotatedIsRotateLeft(a: bv32, s: nat)
    requires 0 < s < 32
    ensures Rotated(a, s) == RotateLeft(a, s)
  {
    MaskIsIdentity(a);
  }

  /** What STEP leaves in its first register, given the value of its basic function. */
  function Step(f: bv32, a: bv32, b: bv32, x: bv32, t: bv32, s: nat): bv32
    requires 0 < s < 32
  {
    var sum := Plus(a, Plus(Plus(f, x), t));
    var rotated := Rotated(sum, s);
    Plus(rotated, b)
  }

  lemma StepIsNewWord(f: bv32, a: bv32, b: bv32, x: bv32, t: bv32, s: nat)
    requires 0 < s < 32
    ensures Step(f, a, b, x, t, s) == NewWord(a, b, f, x, t, s)
  {
    hide RotateLeft, Rotated, Plus;
    RotatedIsRotateLeft(Plus(a, Plus(Plus(f, x), t)), s);
  }

  lemma StepIsOperation(f: bv32, a: bv32, b: bv32, c: bv32, d: bv32, x: bv32, t: bv32, s: nat,
                        i: nat, r: Regs, block: seq<bv32>)
    requires i < 64 && |block| == 16 && Operations(i, r, block) == Regs(a, b, c, d)
    requires f == Aux(i, b, c, d) && x == block[WordIndex(i)] && t == T(i) && s == Rotation(i)
    ensures Operations(i + 1, r, block) == Regs(d, Step(f, a, b, x, t, s), b, c)
  {
    hide Aux, WordIndex, T, Rotation, NewWord, Step;
    StepIsNewWord(f, a, b, x, t, s);
  }

  method StepF(a: bv32, b: bv32, c: bv32, d: bv32, x: bv32, t: bv32, s: nat,
               ghost i: nat, ghost r: Regs, ghost block: seq<bv32>)
    returns (sum: bv32)
    requires i < 16 && |block| == 16 && Operations(i, r, block) == Regs(a, b, c, d)
    requires x == block[WordIndex(i)] && t == T(i) && s == Rotation(i)
    ensures Operations(i + 1, r, block) == Regs(d, sum, b, c)
  {
    hide Operations, T, WordIndex, Rotation, Step;
    FIsRfcF(b, c, d);
    StepIsOperation(F(b, c, d), a, b, c, d, x, t, s, i, r, block);
    sum := Step(F(b, c, d), a, b, x, t, s);
  }

  method StepG(a: bv32, b: bv32, c: bv32, d: bv32, x: bv32, t: bv32, s: nat,
               ghost i: nat, ghost r: Regs, ghost block: seq<bv32>)
    returns (sum: bv32)
    requires 16 <= i < 32 && |block| == 16 && Operations(i, r, block) == Regs(a, b, c, d)
    requires x == block[WordIndex(i)] && t == T(i) && s == Rotation(i)
    ensures Operations(i + 1, r, block) == Regs(d, sum, b, c)
  {
    hide Operations, T, WordIndex, Rotation, Step;
    GIsRfcG(b, c, d);
    StepIsOperation(G(b, c, d), a, b, c, d, x, t, s, i, r, block);
    sum := Step(G(b, c, d), a, b, x, t, s);
  }

  method StepH(a: bv32, b: bv32, c: bv32, d: bv32, x: bv32, t: bv32, s: nat,
               ghost i: nat, ghost r: Regs, ghost block: seq<bv32>)
    returns (sum: bv32)
    requires 32 <= i < 48 && |block| == 16 && Operations(i, r, block) == Regs(a, b, c, d)
    requires x == block[WordIndex(i)] && t == T(i) && s == Rotation(i)
    ensures Operations(i + 1, r, block) == Regs(d, sum, b, c)
  {
    hide Operations, T, WordIndex, Rotation, Step;
    HsAreRfcH(b, c, d);
    StepIsOperation(H(b, c, d), a, b, c, d, x, t, s, i, r, block);
    sum := Step(H(b, c, d), a, b, x, t, s);
  }

  method StepH2(a: bv32, b: bv32, c: bv32, d: bv32, x: bv32, t: bv32, s: nat,
               ghost i: nat, ghost r: Regs, ghost block: seq<bv32>)
    returns (sum: bv32)
    requires 32 <= i < 48 && |block| == 16 && Operations(i, r, block) == Regs(a, b, c, d)
    requires x == block[WordIndex(i)] && t == T(i) && s == Rotation(i)
    ensures Operations(i + 1, r, block) == Regs(d, sum, b, c)
  {
    hide Operations, T, WordIndex, Rotation, Step;
    HsAreRfcH(b, c, d);
    StepIsOperation(H2(b, c, d), a, b, c, d, x, t, s, i, r, block);
    sum := Step(H2(b, c, d), a, b, x, t, s);
  }

  method StepI(a: bv32, b: bv32, c: bv32, d: bv32, x: bv32, t: bv32, s: nat,
               ghost i: nat, ghost r: Regs, ghost block: seq<bv32>)
    returns (sum: bv32)
    requires 48 <= i < 64 && |block| == 16 && Operations(i, r, block) == Regs(a, b, c, d)
    requires x == block[WordIndex(i)] && t == T(i) && s == Rotation(i)
    ensures Operations(i + 1, r, block) == Regs(d, sum, b, c)
  {
    hide Operations, T, WordIndex, Rotation, Step;
    StepIsOperation(I(b, c, d), a, b, c, d, x, t, s, i, r, block);
    sum := Step(I(b, c, d), a, b, x, t, s);
  }

  /** The first half of round 1. */
  method Round1First(a0: bv32, b0: bv32, c0: bv32, d0: bv32, x: seq<bv32>, ghost r: Regs)
    returns (a: bv32, b: bv32, c: bv32, d: bv32)
    requires |x| == 16 && Operations(0, r, x) == Regs(a0, b0, c0, d0)
    ensures Operations(8, r, x) == Regs(a, b, c, d)
  {
    hide Operations;
    a, b, c, d := a0, b0, c0, d0;
    a := StepF(a, b, c, d, x[0], 0xd76aa478, 7, 0, r, x);
    d := StepF(d, a, b, c, x[1], 0xe8c7b756, 12, 1, r, x);
    c := StepF(c, d, a, b, x[2], 0x242070db, 17, 2, r, x);
    b := StepF(b, c, d, a, x[3], 0xc1bdceee, 22, 3, r, x);
    a := StepF(a, b, c, d, x[4], 0xf57c0faf, 7, 4, r, x);
    d := StepF(d, a, b, c, x[5], 0x4787c62a, 12, 5, r, x);
    c := StepF(c, d, a, b, x[6], 0xa8304613, 17, 6, r, x);
    b := StepF(b, c, d, a, x[7], 0xfd469501, 22, 7, r, x);
  }

  /** The second half of round 1. */
  method Round1Second(a0: bv32, b0: bv32, c0: bv32, d0: bv32, x: seq<bv32>, ghost r: Regs)
    returns (a: bv32, b: bv32, c: bv32, d: bv32)
    requires |x| == 16 && Operations(8, r, x) == Regs(a0, b0, c0, d0)
    ensures Operations(16, r, x) == Regs(a, b, c, d)
  {
    hide Operations;
    a, b, c, d := a0, b0, c0, d0;
    a := StepF(a, b, c, d, x[8], 0x698098d8, 7, 8, r, x);
    d := StepF(d, a, b, c, x[9], 0x8b44f7af, 12, 9, r, x);
    c := StepF(c, d, a, b, x[10], 0xffff5bb1, 17, 10, r, x);
    b := StepF(b, c, d, a, x[11], 0x895cd7be, 22, 11, r, x);
    a := StepF(a, b, c, d, x[12], 0x6b901122, 7, 12, r, x);
    d := StepF(d, a, b, c, x[13], 0xfd987193, 12, 13, r, x);
    c := StepF(c, d, a, b, x[14], 0xa679438e, 17, 14, r, x);
    b := StepF(b, c, d, a, x[15], 0x49b40821, 22, 15, r, x);
  }

  /** Round 1. */
  method Round1(a0: bv32, b0: bv32, c0: bv32, d0: bv32, x: seq<bv32>, ghost r: Regs)
    returns (a: bv32, b: bv32, c: bv32, d: bv32)
    requires |x| == 16 && Operations(0, r, x) == Regs(a0, b0, c0, d0)
    ensures Operations(16, r, x) == Regs(a, b, c, d)
  {
    hide *;
    a, b, c, d := Round1First(a0, b0, c0, d0, x, r);
    a, b, c, d := Round1Second(a, b, c, d, x, r);
  }

  /** The first half of round 2. */
  method Round2First(a0: bv32, b0: bv32, c0: bv32, d0: bv32, x: seq<bv32>, ghost r: Regs)
    returns (a: bv32, b: bv32, c: bv32, d: bv32)
    requires |x| == 16 && Operations(16, r, x) == Regs(a0, b0, c0, d0)
    ensures Operations(24, r, x) == Regs(a, b, c, d)
  {
    hide Operations;
    a, b, c, d := a0, b0, c0, d0;
    a := StepG(a, b, c, d, x[1], 0xf61e2562, 5, 16, r, x);
    d := StepG(d, a, b, c, x[6], 0xc040b340, 9, 17, r, x);
    c := StepG(c, d, a, b, x[11], 0x265e5a51, 14, 18, r, x);
    b := StepG(b, c, d, a, x[0], 0xe9b6c7aa, 20, 19, r, x);
    a := StepG(a, b, c, d, x[5], 0xd62f105d, 5, 20, r, x);
    d := StepG(d, a, b, c, x[10], 0x02441453, 9, 21, r, x);
    c := StepG(c, d, a, b, x[15], 0xd8a1e681, 14, 22, r, x);
    b := StepG(b, c, d, a, x[4], 0xe7d3fbc8, 20, 23, r, x);
  }

  /** The second half of round 2. */
  method Round2Second(a0: bv32, b0: bv32, c0: bv32, d0: bv32, x: seq<bv32>, ghost r: Regs)
    returns (a: bv32, b: bv32, c: bv32, d: bv32)
    requires |x| == 16 && Operations(24, r, x) == Regs(a0, b0, c0, d0)
    ensures Operations(32, r, x) == Regs(a, b, c, d)
  {
    hide Operations;
    a, b, c, d := a0, b0, c0, d0;
    a := StepG(a, b, c, d, x[9], 0x21e1cde6, 5, 24, r, x);
    d := StepG(d, a, b, c, x[14], 0xc33707d6, 9, 25, r, x);
    c := StepG(c, d, a, b, x[3], 0xf4d50d87, 14, 26, r, x);
    b := StepG(b, c, d, a, x[8], 0x455a14ed, 20, 27, r, x);
    a := StepG(a, b, c, d, x[13], 0xa9e3e905, 5, 28, r, x);
    d := StepG(d, a, b, c, x[2], 0xfcefa3f8, 9, 29, r, x);
    c := StepG(c, d, a, b, x[7], 0x676f02d9, 14, 30, r, x);
    b := StepG(b, c, d, a, x[12], 0x8d2a4c8a, 20, 31, r, x);
  }

  /** Round 2. */
  method Round2(a0: bv32, b0: bv32, c0: bv32, d0: bv32, x: seq<bv32>, ghost r: Regs)
    returns (a: bv32, b: bv32, c: bv32, d: bv32)
    requires |x| == 16 && Operations(16, r, x) == Regs(a0, b0, c0, d0)
    ensures Operations(32, r, x) == Regs(a, b, c, d)
  {
    hide *;
    a, b, c, d := Round2First(a0, b0, c0, d0, x, r);
    a, b, c, d := Round2Second(a, b, c, d, x, r);
  }

  /** The first half of round 3. */
  method Round3First(a0: bv32, b0: bv32, c0: bv32, d0: bv32, x: seq<bv32>, ghost r: Regs)
    returns (a: bv32, b: bv32, c: bv32, d: bv32)
    requires |x| == 16 && Operations(32, r, x) == Regs(a0, b0, c0, d0)
    ensures Operations(40, r, x) == Regs(a, b, c, d)
  {
    hide Operations;
    a, b, c, d := a0, b0, c0, d0;
    a := StepH(a, b, c, d, x[5], 0xfffa3942, 4, 32, r, x);
    d := StepH2(d, a, b, c, x[8], 0x8771f681, 11, 33, r, x);
    c := StepH(c, d, a, b, x[11], 0x6d9d6122, 16, 34, r, x);
    b := StepH2(b, c, d, a, x[14], 0xfde5380c, 23, 35, r, x);
    a := StepH(a, b, c, d, x[1], 0xa4beea44, 4, 36, r, x);
    d := StepH2(d, a, b, c, x[4], 0x4bdecfa9, 11, 37, r, x);
    c := StepH(c, d, a, b, x[7], 0xf6bb4b60, 16, 38, r, x);
    b := StepH2(b, c, d, a, x[10], 0xbebfbc70, 23, 39, r, x);
  }

  /** The second half of round 3. */
  method Round3Second(a0: bv32, b0: bv32, c0: bv32, d0: bv32, x: seq<bv32>, ghost r: Regs)
    returns (a: bv32, b: bv32, c: bv32, d: bv32)
    requires |x| == 16 && Operations(40, r, x) == Regs(a0, b0, c0, d0)
    ensures Operations(48, r, x) == Regs(a, b, c, d)
  {
    hide Operations;
    a, b, c, d := a0, b0, c0, d0;
    a := StepH(a, b, c, d, x[13], 0x289b7ec6, 4, 40, r, x);
    d := StepH2(d, a, b, c, x[0], 0xeaa127fa, 11, 41, r, x);
    c := StepH(c, d, a, b, x[3], 0xd4ef3085, 16, 42, r, x);
    b := StepH2(b, c, d, a, x[6], 0x04881d05, 23, 43, r, x);
    a := StepH(a, b, c, d, x[9], 0xd9d4d039, 4, 44, r, x);
    d := StepH2(d, a, b, c, x[12], 0xe6db99e5, 11, 45, r, x);
    c := StepH(c, d, a, b, x[15], 0x1fa27cf8, 16, 46, r, x);
    b := StepH2(b, c, d, a, x[2], 0xc4ac5665, 23, 47, r, x);
  }

  /** Round 3. */
  method Round3(a0: bv32, b0: bv32, c0: bv32, d0: bv32, x: seq<bv32>, ghost r: Regs)
    returns (a: bv32, b: bv32, c: bv32, d: bv32)
    requires |x| == 16 && Operations(32, r, x) == Regs(a0, b0, c0, d0)
    ensures Operations(48, r, x) == Regs(a, b, c, d)
  {
    hide *;
    a, b, c, d := Round3First(a0, b0, c0, d0, x, r);
    a, b, c, d := Round3Second(a, b, c, d, x, r);
  }

  /** The first half of round 4. */
  method Round4First(a0: bv32, b0: bv32, c0: bv32, d0: bv32, x: seq<bv32>, ghost r: Regs)
    returns (a: bv32, b: bv32, c: bv32, d: bv32)
    requires |x| == 16 && Operations(48, r, x) == Regs(a0, b0, c0, d0)
    ensures Operations(56, r, x) == Regs(a, b, c, d)
  {
    hide Operations;
    a, b, c, d := a0, b0, c0, d0;
    a := StepI(a, b, c, d, x[0], 0xf4292244, 6, 48, r, x);
    d := StepI(d, a, b, c, x[7], 0x432aff97, 10, 49, r, x);
    c := StepI(c, d, a, b, x[14], 0xab9423a7, 15, 50, r, x);
    b := StepI(b, c, d, a, x[5], 0xfc93a039, 21, 51, r, x);
    a := StepI(a, b, c, d, x[12], 0x655b59c3, 6, 52, r, x);
    d := StepI(d, a, b, c, x[3], 0x8f0ccc92, 10, 53, r, x);
    c := StepI(c, d, a, b, x[10], 0xffeff47d, 15, 54, r, x);
    b := StepI(b, c, d, a, x[1], 0x85845dd1, 21, 55, r, x);
  }

  /** The second half of round 4. */
  method Round4Second(a0: bv32, b0: bv32, c0: bv32, d0: bv32, x: seq<bv32>, ghost r: Regs)
    returns (a: bv32, b: bv32, c: bv32, d: bv32)
    requires |x| == 16 && Operations(56, r, x) == Regs(a0, b0, c0, d0)
    ensures Operations(64, r, x) == Regs(a, b, c, d)
  {
    hide Operations;
    a, b, c, d := a0, b0, c0, d0;
    a := StepI(a, b, c, d, x[8], 0x6fa87e4f, 6, 56, r, x);
    d := StepI(d, a, b, c, x[15], 0xfe2ce6e0, 10, 57, r, x);
    c := StepI(c, d, a, b, x[6], 0xa3014314, 15, 58, r, x);
    b := StepI(b, c, d, a, x[13], 0x4e0811a1, 21, 59, r, x);
    a := StepI(a, b, c, d, x[4], 0xf7537e82, 6, 60, r, x);
    d := StepI(d, a, b, c, x[11], 0xbd3af235, 10, 61, r, x);
    c := StepI(c, d, a, b, x[2], 0x2ad7d2bb, 15, 62, r, x);
    b := StepI(b, c, d, a, x[9], 0xeb86d391, 21, 63, r, x);
  }

  /** Round 4. */
  method Round4(a0: bv32, b0: bv32, c0: bv32, d0: bv32, x: seq<bv32>, ghost r: Regs)
    returns (a: bv32, b: bv32, c: bv32, d: bv32)
    requires |x| == 16 && Operations(48, r, x) == Regs(a0, b0, c0, d0)
    ensures Operations(64, r, x) == Regs(a, b, c, d)
  {
    hide *;
    a, b, c, d := Round4First(a0, b0, c0, d0, x, r);
    a, b, c, d := Round4Second(a, b, c, d, x, r);
  }
}
