/** The MD5 message-digest algorithm as sections 3.1 to 3.5 of RFC 1321 define it. */
module Rfc1321 {

  datatype Regs = Regs(a: bv32, b: bv32, c: bv32, d: bv32)

  // ----- section 3.4, the four auxiliary functions, one for each round of 16 operations

  function RfcF(x: bv32, y: bv32, z: bv32): bv32 { (x & y) | (!x & z) }
  function RfcG(x: bv32, y: bv32, z: bv32): bv32 { (x & z) | (y & !z) }
  function RfcH(x: bv32, y: bv32, z: bv32): bv32 { x ^ y ^ z }
  function RfcI(x: bv32, y: bv32, z: bv32): bv32 { y ^ (x | !z) }

  function Aux(i: nat, x: bv32, y: bv32, z: bv32): bv32 {
    if i < 16 then RfcF(x, y, z)
    else if i < 32 then RfcG(x, y, z)
    else if i < 48 then RfcH(x, y, z)
    else RfcI(x, y, z)
  }

  /** Which word of the block operation `i` uses. */
  function WordIndex(i: nat): (k: nat)
    ensures k < 16
  {
    if i < 16 then i % 16
    else if i < 32 then (5 * i + 1) % 16
    else if i < 48 then (3 * i + 5) % 16
    else (7 * i) % 16
  }

  /** By how much operation `i` rotates. */
  function Rotation(i: nat): (s: nat)
    ensures 0 < s < 32
  {
    var n := i % 4;
    if i < 16 then (if n == 0 then 7 else if n == 1 then 12 else if n == 2 then 17 else 22)
    else if i < 32 then (if n == 0 then 5 else if n == 1 then 9 else if n == 2 then 14 else 20)
    else if i < 48 then (if n == 0 then 4 else if n == 1 then 11 else if n == 2 then 16 else 23)
    else (if n == 0 then 6 else if n == 1 then 10 else if n == 2 then 15 else 21)
  }

  /** The table T, in the order of the operations. */
  function T(i: nat): bv32
    requires i < 64
  {
    if i < 16 then T1(i) else if i < 32 then T2(i - 16) else if i < 48 then T3(i - 32) else T4(i - 48)
  }

  function T1(i: nat): bv32
    requires i < 16
  {
    match i
    case 0 => 0xd76aa478
    case 1 => 0xe8c7b756
    case 2 => 0x242070db
    case 3 => 0xc1bdceee
    case 4 => 0xf57c0faf
    case 5 => 0x4787c62a
    case 6 => 0xa8304613
    case 7 => 0xfd469501
    case 8 => 0x698098d8
    case 9 => 0x8b44f7af
    case 10 => 0xffff5bb1
    case 11 => 0x895cd7be
    case 12 => 0x6b901122
    case 13 => 0xfd987193
    case 14 => 0xa679438e
    case _ => 0x49b40821
  }

  function T2(i: nat): bv32
    requires i < 16
  {
    match i
    case 0 => 0xf61e2562
    case 1 => 0xc040b340
    case 2 => 0x265e5a51
    case 3 => 0xe9b6c7aa
    case 4 => 0xd62f105d
    case 5 => 0x02441453
    case 6 => 0xd8a1e681
    case 7 => 0xe7d3fbc8
    case 8 => 0x21e1cde6
    case 9 => 0xc33707d6
    case 10 => 0xf4d50d87
    case 11 => 0x455a14ed
    case 12 => 0xa9e3e905
    case 13 => 0xfcefa3f8
    case 14 => 0x676f02d9
    case _ => 0x8d2a4c8a
  }

  function T3(i: nat): bv32
    requires i < 16
  {
    match i
    case 0 => 0xfffa3942
    case 1 => 0x8771f681
    case 2 => 0x6d9d6122
    case 3 => 0xfde5380c
    case 4 => 0xa4beea44
    case 5 => 0x4bdecfa9
    case 6 => 0xf6bb4b60
    case 7 => 0xbebfbc70
    case 8 => 0x289b7ec6
    case 9 => 0xeaa127fa
    case 10 => 0xd4ef3085
    case 11 => 0x04881d05
    case 12 => 0xd9d4d039
    case 13 => 0xe6db99e5
    case 14 => 0x1fa27cf8
    case _ => 0xc4ac5665
  }

  function T4(i: nat): bv32
    requires i < 16
  {
    match i
    case 0 => 0xf4292244
    case 1 => 0x432aff97
    case 2 => 0xab9423a7
    case 3 => 0xfc93a039
    case 4 => 0x655b59c3
    case 5 => 0x8f0ccc92
    case 6 => 0xffeff47d
    case 7 => 0x85845dd1
    case 8 => 0x6fa87e4f
    case 9 => 0xfe2ce6e0
    case 10 => 0xa3014314
    case 11 => 0x4e0811a1
    case 12 => 0xf7537e82
    case 13 => 0xbd3af235
    case 14 => 0x2ad7d2bb
    case _ => 0xeb86d391
  }

  /** X <<< s. */
  function RotateLeft(x: bv32, s: nat): bv32
    requires 0 < s < 32
  {
    (x << s) | (x >> (32 - s))
  }

  /** a = b + ((a + f(b,c,d) + X[k] + T[i]) <<< s), with sums modulo 2^32 grouped as appendix A.3 does. */
  function NewWord(a: bv32, b: bv32, f: bv32, x: bv32, t: bv32, s: nat): bv32
    requires 0 < s < 32
  {
    Plus(RotateLeft(Plus(a, Plus(Plus(f, x), t)), s), b)
  }

  /** Addition of words, modulo 2^32. */
  function Plus(x: bv32, y: bv32): bv32 {
    x + y
  }

  /** Operation `i`: the new word goes where b was, and the others move on. */
  function Operation(i: nat, r: Regs, x: seq<bv32>): Regs
    requires i < 64 && |x| == 16
  {
    Regs(r.d, NewWord(r.a, r.b, Aux(i, r.b, r.c, r.d), x[WordIndex(i)], T(i), Rotation(i)), r.b, r.c)
  }

  function Operations(n: nat, r: Regs, x: seq<bv32>): Regs
    requires n <= 64 && |x| == 16
  {
    if n == 0 then r else Operation(n - 1, Operations(n - 1, r, x), x)
  }

  /** One block of 16 words. */
  function Compress(r: Regs, x: seq<bv32>): Regs
    requires |x| == 16
  {
    var o := Operations(64, r, x);
    Regs(Plus(o.a, r.a), Plus(o.b, r.b), Plus(o.c, r.c), Plus(o.d, r.d))
  }

  // ----- section 2: words are low-order byte first

  function WordAt(bytes: seq<bv8>, i: nat): bv32
    requires i + 4 <= |bytes|
  {
    (bytes[i] as bv32) | ((bytes[i + 1] as bv32) << 8) | ((bytes[i + 2] as bv32) << 16) | ((bytes[i + 3] as bv32) << 24)
  }

  function Words(block: seq<bv8>): (x: seq<bv32>)
    requires |block| == 64
    ensures |x| == 16
  {
    seq(16, k requires 0 <= k < 16 => WordAt(block, 4 * k))
  }

  /** Block after block; what is left over at the end is not looked at. */
  function Blocks(r: Regs, bytes: seq<bv8>): Regs
    decreases |bytes|
  {
    if |bytes| < 64 then r else Blocks(Compress(r, Words(bytes[..64])), bytes[64..])
  }

  // ----- sections 3.1 to 3.3

  const INIT: Regs := Regs(0x67452301, 0xefcdab89, 0x98badcfe, 0x10325476)

  /** `n` bytes of a number, low-order byte first; what does not fit is dropped. */
  function LittleEndian(x: nat, n: nat): (s: seq<bv8>)
    ensures |s| == n
  {
    if n == 0 then [] else [LowByte(x)] + LittleEndian(x / 256, n - 1)
  }

  function LowByte(x: nat): bv8 {
    (x % 256) as bv8
  }

  function ZeroBytes(n: nat): (s: seq<bv8>)
    ensures |s| == n && forall i :: 0 <= i < n ==> s[i] == 0
  {
    seq(n, _ => 0)
  }

  /** Zeros so that a byte 0x80, the zeros and an 8-byte length complete a block. */
  function PadZeros(len: nat): (n: nat)
    ensures n < 64 && (len + 1 + n + 8) % 64 == 0
  {
    if len % 64 < 56 then 55 - len % 64 else 119 - len % 64
  }

  function Padded(msg: seq<bv8>): (s: seq<bv8>)
    ensures |s| % 64 == 0
  {
    msg + [0x80] + ZeroBytes(PadZeros(|msg|)) + LittleEndian(8 * |msg|, 8)
  }

  function WordBytes(w: bv32): (s: seq<bv8>)
    ensures |s| == 4
  {
    [(w & 0xff) as bv8, ((w >> 8) & 0xff) as bv8, ((w >> 16) & 0xff) as bv8, ((w >> 24) & 0xff) as bv8]
  }

  function Digest(r: Regs): (s: seq<bv8>)
    ensures |s| == 16
  {
    WordBytes(r.a) + WordBytes(r.b) + WordBytes(r.c) + WordBytes(r.d)
  }

  function Md5(msg: seq<bv8>): seq<bv8> {
    Digest(Blocks(INIT, Padded(msg)))
  }

  // ----- facts about the definitions

  lemma {:induction false} BlocksOfConcat(r: Regs, s: seq<bv8>, t: seq<bv8>)
    requires |s| % 64 == 0
    ensures Blocks(r, s + t) == Blocks(Blocks(r, s), t)
    decreases |s|
  {
    hide Compress, Words;
    if |s| < 64 {
      assert s + t == t;
    } else {
      assert (s + t)[..64] == s[..64] && (s + t)[64..] == s[64..] + t;
      BlocksOfConcat(Compress(r, Words(s[..64])), s[64..], t);
    }
  }

  lemma LowByteOfSum(x: nat, z: nat)
    ensures LowByte(x + 256 * z) == LowByte(x) && (x + 256 * z) / 256 == x / 256 + z
  {
    assert (x + 256 * z) % 256 == x % 256;
  }

  /** The length in two words is the length in eight bytes. */
  lemma {:induction false} LittleEndianSplit(x: nat, y: nat, n: nat, m: nat)
    requires x < Power256(n)
    ensures LittleEndian(x + Power256(n) * y, n + m) == LittleEndian(x, n) + LittleEndian(y, m)
    decreases n
  {
    hide LowByte;
    if n > 0 {
      var z := Power256(n - 1) * y;
      assert Power256(n) * y == 256 * z;
      LowByteOfSum(x, z);
      LittleEndianSplit(x / 256, y, n - 1, m);
    }
  }

  function Power256(n: nat): (p: nat)
    ensures p > 0
  {
    if n == 0 then 1 else 256 * Power256(n - 1)
  }

  /** Only the low-order 64 bits of the length are used. */
  lemma {:induction false} LittleEndianMod(x: nat, y: nat, n: nat)
    ensures LittleEndian(x + Power256(n) * y, n) == LittleEndian(x, n)
    decreases n
  {
    hide LowByte;
    if n > 0 {
      var z := Power256(n - 1) * y;
      assert Power256(n) * y == 256 * z;
      LowByteOfSum(x, z);
      LittleEndianMod(x / 256, y, n - 1);
    }
  }
}
