/** The streaming interface of md5.c: MD5_Init, MD5_Update and MD5_Final. */
module Md5Stream {
  import opened Arithmetic
  import opened Rfc1321
  import opened Md5Rounds

  const TWO29: nat := 0x2000_0000
  const TWO32: nat := 0x1_0000_0000

  /** The bytes of `msg` in complete blocks. */
  function Whole(n: nat): (w: nat)
    ensures w <= n && w % 64 == 0 && n - w == n % 64
  {
    n - n % 64
  }

  /** `lo` and `hi` count `n` bytes, modulo 2^61. */
  predicate Counts(lo: nat, hi: nat, n: nat) {
    lo == n % TWO29 && hi == n / TWO29 % TWO32
  }

  lemma UsedBytes(lo: nat, hi: nat, n: nat)
    requires Counts(lo, hi, n)
    ensures lo % 64 == n % 64
  {
    DivModIs(n, 64, n / TWO29 * (TWO29 / 64) + n % TWO29 / 64, n % TWO29 % 64);
  }

  lemma InBlock(n: nat, size: nat)
    requires n % 64 + size < 64
    ensures Whole(n + size) == Whole(n) && (n + size) % 64 == n % 64 + size
  {
    DivModIs(n + size, 64, n / 64, n % 64 + size);
  }

  /** The byte count is kept as 29 low bits and 32 high bits. */
  lemma CountStep(n: nat, size: nat)
    ensures var lo := (n % TWO29 + size) % TWO29;
            var carry := if lo < n % TWO29 then 1 else 0;
            && lo == (n + size) % TWO29
            && ((n / TWO29 % TWO32 + carry) % TWO32 + size / TWO29) % TWO32 == (n + size) / TWO29 % TWO32
  {
    var lo0, hi0, s0, s1 := n % TWO29, n / TWO29, size % TWO29, size / TWO29;
    assert n + size == TWO29 * (hi0 + s1) + (lo0 + s0);
    var carry := if lo0 + s0 >= TWO29 then 1 else 0;
    assert n + size == TWO29 * (hi0 + s1 + carry) + (lo0 + s0 - TWO29 * carry);
    DivModIs(n + size, TWO29, hi0 + s1 + carry, lo0 + s0 - TWO29 * carry);
    DivModIs(lo0 + size, TWO29, s1 + carry, lo0 + s0 - TWO29 * carry);
    ModOfSum(hi0, carry, TWO32);
    ModOfSum(hi0 + carry, s1, TWO32);
  }

  lemma ModOfSum(x: nat, y: nat, m: nat)
    requires m > 0
    ensures (x % m + y) % m == (x + y) % m
  {
    var q, r := (x % m + y) / m, (x % m + y) % m;
    assert x + y == m * (x / m) + (m * q + r);
    assert m * (x / m) + m * q == m * (x / m + q);
    DivModIs(x + y, m, x / m + q, r);
  }

  /** The two counters give the 64-bit length in bits that section 3.2 asks for. */
  lemma LengthBytes(lo: nat, hi: nat, n: nat)
    requires Counts(lo, hi, n)
    ensures lo * 8 < TWO32
    ensures LittleEndian(lo * 8, 4) + LittleEndian(hi, 4) == LittleEndian(8 * n, 8)
  {
    var high := n / TWO29;
    assert Power256(4) == TWO32;
    assert 8 * n == lo * 8 + TWO32 * high;
    LittleEndianSplit(lo * 8, high, 4, 4);
    assert high == hi + TWO32 * (high / TWO32);
    LittleEndianMod(hi, high / TWO32, 4);
  }

  lemma SplitConcat(m: seq<bv8>, done: nat, b: seq<bv8>, z: seq<bv8>, len: seq<bv8>)
    requires done <= |m|
    ensures (m + b + z + len)[..done] == m[..done]
    ensures (m + b + z + len)[done..] == m[done..] + b + z + len
  {
  }

  lemma PaddedSplit(msg: seq<bv8>, done: nat)
    requires done <= |msg|
    ensures done <= |Padded(msg)| && Padded(msg)[..done] == msg[..done]
    ensures Padded(msg)[done..]
         == msg[done..] + [0x80] + ZeroBytes(PadZeros(|msg|)) + LittleEndian(8 * |msg|, 8)
  {
    hide PadZeros, ZeroBytes, LittleEndian;
    SplitConcat(msg, done, [0x80], ZeroBytes(PadZeros(|msg|)), LittleEndian(8 * |msg|, 8));
  }

  lemma PadZerosMod(n: nat)
    ensures PadZeros(n % 64) == PadZeros(n)
  {
  }

  lemma ZerosJoin(m: nat, n: nat)
    ensures ZeroBytes(m) + ZeroBytes(n) == ZeroBytes(m + n)
  {
  }

  /** MD5_CTX. `msg` is everything hashed so far. */
  class Context {
    var lo: nat
    var hi: nat
    var a: bv32
    var b: bv32
    var c: bv32
    var d: bv32
    const buffer: array<bv8>
    ghost var msg: seq<bv8>

    ghost predicate Valid()
      reads this, buffer
    {
      && buffer.Length == 64
      && Counts(lo, hi, |msg|)
      && Hashed(msg, Whole(|msg|))
      && Buffered(msg)
    }

    /** The blocks up to `done` are hashed. */
    ghost predicate Hashed(m: seq<bv8>, done: nat)
      reads `a, `b, `c, `d
    {
      done <= |m| && done % 64 == 0 && Regs(a, b, c, d) == Blocks(INIT, m[..done])
    }

    /** The buffer holds what follows the last whole block. */
    ghost predicate Buffered(m: seq<bv8>)
      reads buffer
    {
      buffer.Length == 64 && buffer[..|m| % 64] == m[Whole(|m|)..]
    }

    constructor ()
      ensures Valid() && msg == [] && fresh(buffer)
    {
      buffer := new bv8[64];
      a, b, c, d := 0x67452301, 0xefcdab89, 0x98badcfe, 0x10325476;
      lo, hi := 0, 0;
      msg := [];
    }

    /** Folds whole blocks, at least one, into the state; the counters stay. */
    method Body(data: seq<bv8>)
      requires |data| > 0 && |data| % 64 == 0
      modifies `a, `b, `c, `d
      ensures Regs(a, b, c, d) == Blocks(old(Regs(a, b, c, d)), data)
    {
      hide Operations, Words;
      var a1, b1, c1, d1 := a, b, c, d;
      var ptr, size := 0, |data|;
      ghost var start := Regs(a, b, c, d);
      assert data[0..] == data;
      while true
        invariant ptr + size == |data| && size % 64 == 0 && size > 0 && 0 <= ptr
        invariant Blocks(Regs(a1, b1, c1, d1), data[ptr..]) == Blocks(start, data)
        decreases size
      {
        ghost var r := Regs(a1, b1, c1, d1);
        var x := Words(data[ptr..ptr + 64]);
        assert data[ptr..][..64] == data[ptr..ptr + 64] && data[ptr..][64..] == data[ptr + 64..];
        var savedA, savedB, savedC, savedD := a1, b1, c1, d1;
        NoOperations(r, x);
        a1, b1, c1, d1 := Round1(a1, b1, c1, d1, x, r);
        a1, b1, c1, d1 := Round2(a1, b1, c1, d1, x, r);
        a1, b1, c1, d1 := Round3(a1, b1, c1, d1, x, r);
        a1, b1, c1, d1 := Round4(a1, b1, c1, d1, x, r);
        a1, b1, c1, d1 := Plus(a1, savedA), Plus(b1, savedB), Plus(c1, savedC), Plus(d1, savedD);
        ptr, size := ptr + 64, size - 64;
        if size == 0 {
          break;
        }
      }
      a, b, c, d := a1, b1, c1, d1;
    }

    /** memcpy into the buffer. */
    method CopyIn(at: nat, data: seq<bv8>)
      requires at + |data| <= buffer.Length == 64
      modifies buffer
      ensures buffer[..at + |data|] == old(buffer[..at]) + data
    {
      forall i | 0 <= i < |data| { buffer[at + i] := data[i]; }
    }

    /** The byte counter of MD5_Update. */
    method Count(size: nat)
      requires Counts(lo, hi, |msg|)
      modifies `lo, `hi
      ensures Counts(lo, hi, |msg| + size)
    {
      CountStep(|msg|, size);
      var savedLo := lo;
      lo := (savedLo + size) % TWO29;
      if lo < savedLo {
        hi := (hi + 1) % TWO32;
      }
      hi := (hi + size / TWO29) % TWO32;
    }

    method HashBlocks(ghost m: seq<bv8>, ghost done: nat, data: seq<bv8>)
      requires Hashed(m, done) && |data| > 0 && |data| % 64 == 0
      requires done + |data| <= |m| && data == m[done..done + |data|]
      modifies `a, `b, `c, `d
      ensures Hashed(m, done + |data|)
    {
      hide Blocks;
      BlocksOfConcat(INIT, m[..done], data);
      assert m[..done] + data == m[..done + |data|];
      Body(data);
    }

    /** The end of MD5_Update: whole blocks straight from the data, the rest into the buffer. */
    method Absorb(ghost m: seq<bv8>, ghost done: nat, data: seq<bv8>)
      requires Hashed(m, done) && data == m[done..] && buffer.Length == 64
      modifies `a, `b, `c, `d, buffer
      ensures Hashed(m, Whole(|m|)) && Buffered(m)
    {
      hide Blocks;
      var rest := data;
      ghost var n := 0;
      if |rest| >= 64 {
        n := |rest| - |rest| % 64;
        HashBlocks(m, done, rest[..|rest| - |rest| % 64]);
        rest := rest[|rest| - |rest| % 64..];
      }
      assert done + n == Whole(|m|) && rest == m[Whole(|m|)..];
      CopyIn(0, rest);
    }

    /** Fill the buffer up with the first bytes of `data` and hash it. */
    method CompleteBlock(ghost m: seq<bv8>, ghost done: nat, used: nat, data: seq<bv8>) returns (rest: seq<bv8>)
      requires Hashed(m, done) && buffer.Length == 64 && used < 64 <= used + |data|
      requires m[done..] == buffer[..used] + data
      modifies `a, `b, `c, `d, buffer
      ensures Hashed(m, done + 64) && rest == m[done + 64..]
    {
      hide Blocks;
      var available := 64 - used;
      ghost var tail := buffer[..used];
      CopyIn(used, data[..available]);
      assert m[done..done + 64] == m[done..][..64] == tail + data[..available];
      assert buffer[..used + |data[..available]|] == buffer[..64];
      HashBlocks(m, done, buffer[..64]);
      rest := data[available..];
      assert m[done + 64..] == m[done..][64..];
    }

    /** The data does not complete a block: it only joins the buffer. */
    method JoinBuffer(used: nat, data: seq<bv8>)
      requires Buffered(msg) && used == |msg| % 64 && used + |data| < 64
      modifies buffer
      ensures Buffered(msg + data) && Whole(|msg| + |data|) == Whole(|msg|)
    {
      InBlock(|msg|, |data|);
      hide Whole;
      assert (msg + data)[Whole(|msg|)..] == msg[Whole(|msg|)..] + data;
      CopyIn(used, data);
    }

    /** What a longer message still finds in place. */
    lemma Longer(data: seq<bv8>)
      requires Valid()
      ensures buffer.Length == 64 && Counts(lo, hi, |msg|) && Buffered(msg) && lo % 64 == |msg| % 64
      ensures Hashed(msg + data, Whole(|msg|))
      ensures (msg + data)[Whole(|msg|)..] == buffer[..lo % 64] + data
    {
      hide Blocks;
      UsedBytes(lo, hi, |msg|);
      hide Whole, Counts;
      assert (msg + data)[..Whole(|msg|)] == msg[..Whole(|msg|)];
      assert (msg + data)[Whole(|msg|)..] == msg[Whole(|msg|)..] + data;
    }

    lemma MakesValid()
      requires Counts(lo, hi, |msg|) && Hashed(msg, Whole(|msg|)) && Buffered(msg)
      ensures Valid()
    {
    }

    /** The data reaches past the buffer: the buffered bytes go first. */
    method Feed(ghost m: seq<bv8>, ghost done: nat, used: nat, data: seq<bv8>)
      requires Hashed(m, done) && buffer.Length == 64 && used < 64
      requires used > 0 ==> used + |data| >= 64
      requires m[done..] == buffer[..used] + data
      modifies `a, `b, `c, `d, buffer
      ensures Hashed(m, Whole(|m|)) && Buffered(m)
    {
      hide Whole, Hashed, Buffered;
      if used != 0 {
        var rest := CompleteBlock(m, done, used, data);
        Absorb(m, done + 64, rest);
      } else {
        assert buffer[..used] + data == data;
        Absorb(m, done, data);
      }
    }

    /** MD5_Update: the message grows by `data`, however it is split into calls. */
    method Update(data: seq<bv8>)
      requires Valid()
      modifies this, buffer
      ensures Valid() && msg == old(msg) + data
    {
      hide *;
      Longer(data);
      ghost var m, done := msg + data, Whole(|msg|);
      var used := lo % 64;
      Count(|data|);
      if used != 0 && |data| < 64 - used {
        JoinBuffer(used, data);
      } else {
        Feed(m, done, used, data);
      }
      msg := m;
      MakesValid();
    }

    /** memset to zero inside the buffer. */
    method Zero(at: nat, n: nat)
      requires at + n <= buffer.Length == 64
      modifies buffer
      ensures buffer[..at + n] == old(buffer[..at]) + ZeroBytes(n)
    {
      forall i | 0 <= i < n { buffer[at + i] := 0; }
    }

    /** The four bytes of a counter, low-order byte first. */
    method PutCounter(at: nat, w: nat)
      requires at + 4 <= buffer.Length == 64
      modifies buffer
      ensures buffer[..at + 4] == old(buffer[..at]) + LittleEndian(w, 4)
    {
      hide LowByte;
      buffer[at] := LowByte(w);
      buffer[at + 1] := LowByte(w / 256);
      buffer[at + 2] := LowByte(w / 256 / 256);
      buffer[at + 3] := LowByte(w / 256 / 256 / 256);
      FourBytes(w);
    }

    /** Hash the full buffer, the next block of `m`. */
    method HashBuffer(ghost m: seq<bv8>, ghost done: nat, ghost rest: seq<bv8>)
      requires Hashed(m, done) && buffer.Length == 64 && m[done..] == buffer[..64] + rest
      modifies `a, `b, `c, `d
      ensures done + 64 <= |m| && Hashed(m, done + 64) && m[done + 64..] == rest
    {
      hide Blocks;
      assert m[done..][64..] == rest && m[done..][..64] == buffer[..64];
      HashBlocks(m, done, buffer[..64]);
    }

    /** A 0x80 and zeros after the buffered bytes; the block is hashed if the length no longer fits in it. */
    method Pad(ghost m: seq<bv8>, ghost done: nat, used: nat, ghost len: seq<bv8>) returns (ghost left: nat)
      requires buffer.Length == 64 && used < 64 && Hashed(m, done)
      requires m[done..] == buffer[..used] + [0x80] + ZeroBytes(PadZeros(used)) + len
      modifies `a, `b, `c, `d, buffer
      ensures Hashed(m, left) && m[left..] == buffer[..56] + len
    {
      hide Hashed, ZeroBytes;
      left := done;
      CopyIn(used, [0x80]);
      var next := used + 1;
      var available := 64 - next;
      if available < 8 {
        Zero(next, available);
        ZerosJoin(available, 56);
        HashBuffer(m, done, ZeroBytes(56) + len);
        left := done + 64;
        next, available := 0, 64;
      }
      Zero(next, available - 8);
    }

    /** The padded message, cut where the blocks hashed so far end. */
    lemma BeforeFinal()
      requires Valid()
      ensures buffer.Length == 64 && lo % 64 == |msg| % 64 && lo * 8 < TWO32
      ensures Hashed(Padded(msg), Whole(|msg|))
      ensures Padded(msg)[Whole(|msg|)..]
           == buffer[..lo % 64] + [0x80] + ZeroBytes(PadZeros(lo % 64)) + (LittleEndian(lo * 8, 4) + LittleEndian(hi, 4))
    {
      hide *;
      Longer([]);
      assert msg + [] == msg;
      LengthBytes(lo, hi, |msg|);
      PaddedSplit(msg, Whole(|msg|));
      PadZerosMod(|msg|);
      HashedSame(msg, Padded(msg), Whole(|msg|));
    }

    lemma HashedSame(m: seq<bv8>, n: seq<bv8>, done: nat)
      requires Hashed(m, done) && done <= |n| && n[..done] == m[..done]
      ensures Hashed(n, done)
    {
      hide Blocks;
    }

    lemma AllHashed(m: seq<bv8>)
      requires Hashed(Padded(m), |Padded(m)|)
      ensures Digest(Regs(a, b, c, d)) == Md5(m)
    {
      hide Blocks, Padded, Digest;
      assert Padded(m)[..|Padded(m)|] == Padded(m);
    }

    /** The length in bits, 32 bits in each counter. */
    method PutLength()
      requires buffer.Length == 64 && lo * 8 < TWO32
      modifies `lo, buffer
      ensures buffer[..64] == old(buffer[..56]) + (LittleEndian(old(lo) * 8, 4) + LittleEndian(hi, 4))
    {
      hide LittleEndian;
      lo := lo * 8 % TWO32;
      PutCounter(56, lo);
      PutCounter(60, hi);
    }

    /** The padding, the length in bits, and the last block. */
    method Finish()
      requires Valid()
      modifies this, buffer
      ensures Digest(Regs(a, b, c, d)) == Md5(old(msg))
    {
      hide *;
      BeforeFinal();
      ghost var m, text := Padded(msg), msg;
      ghost var left := Pad(m, Whole(|msg|), lo % 64, LittleEndian(lo * 8, 4) + LittleEndian(hi, 4));
      PutLength();
      assert buffer[..64] + [] == buffer[..64];
      HashBuffer(m, left, []);
      assert left + 64 == |m|;
      AllHashed(text);
    }

    method PutDigest(result: array<bv8>)
      requires result.Length == 16
      modifies result
      ensures result[..] == Digest(Regs(a, b, c, d))
    {
      hide WordBytes;
      PutWord(result, 0, a);
      PutWord(result, 4, b);
      PutWord(result, 8, c);
      PutWord(result, 12, d);
      assert result[..] == result[..16];
    }

    /** MD5_Final: the digest of everything updated; the context is wiped. */
    method Final(result: array<bv8>)
      requires Valid() && result.Length == 16 && result != buffer
      modifies this, buffer, result
      ensures result[..] == Md5(old(msg))
      ensures lo == hi == 0 && a == b == c == d == 0 && buffer[..] == ZeroBytes(buffer.Length)
    {
      hide Digest, Padded, Md5, Whole, ZeroBytes, Hashed, Buffered, Counts;
      Finish();
      PutDigest(result);
      lo, hi, a, b, c, d := 0, 0, 0, 0, 0, 0;
      forall i | 0 <= i < buffer.Length { buffer[i] := 0; }
      assert buffer[..] == ZeroBytes(buffer.Length);
    }
  }

  lemma FourBytes(w: nat)
    ensures LittleEndian(w, 4) == [LowByte(w), LowByte(w / 256), LowByte(w / 256 / 256), LowByte(w / 256 / 256 / 256)]
  {
    hide LowByte;
    assert LittleEndian(w / 256 / 256, 2) == [LowByte(w / 256 / 256)] + LittleEndian(w / 256 / 256 / 256, 1);
  }

  /** Four bytes of the result, low-order byte first. */
  method PutWord(result: array<bv8>, at: nat, w: bv32)
    requires at + 4 <= result.Length
    modifies result
    ensures result[..at + 4] == old(result[..at]) + WordBytes(w)
  {
    result[at] := (w & 0xff) as bv8;
    result[at + 1] := ((w >> 8) & 0xff) as bv8;
    result[at + 2] := ((w >> 16) & 0xff) as bv8;
    result[at + 3] := ((w >> 24) & 0xff) as bv8;
  }


  /** The number whose bytes these are, low-order byte first. */
  function FromLittleEndian(bytes: seq<bv8>): (x: nat)
  {
    if bytes == [] then 0 else bytes[0] as nat + 256 * FromLittleEndian(bytes[1..])
  }

  lemma ByteIsLowByte(b: bv8)
    ensures (b as nat) < 256 && LowByte(b as nat) == b
  {
    var n := b as nat;
    assert n % 256 == n;
  }

  lemma {:induction false} LittleEndianRoundTrip(bytes: seq<bv8>)
    ensures LittleEndian(FromLittleEndian(bytes), |bytes|) == bytes
    ensures FromLittleEndian(bytes) < Power256(|bytes|)
  {
    hide LowByte;
    if bytes != [] {
      LittleEndianRoundTrip(bytes[1..]);
      ByteIsLowByte(bytes[0]);
      var b, rest := bytes[0] as nat, FromLittleEndian(bytes[1..]);
      LowByteOfSum(b, rest);
      assert (b + 256 * rest) / 256 == rest;
      assert LittleEndian(b + 256 * rest, |bytes|) == [bytes[0]] + bytes[1..];
    }
  }

  /** strhash64: the first eight bytes of the digest, read as a little-endian number. */
  method StrHash64(str: seq<bv8>) returns (hash: nat)
    ensures LittleEndian(hash, 8) == Md5(str)[..8] && hash < Power256(8)
  {
    hide *;
    var result := new bv8[16];
    var ctx := new Context();
    ctx.Update(str);
    assert [] + str == str;
    ctx.Final(result);
    LittleEndianRoundTrip(result[..8]);
    hash := FromLittleEndian(result[..8]);
  }

  function Concat(chunks: seq<seq<bv8>>): seq<bv8> {
    if chunks == [] then [] else Concat(chunks[..|chunks| - 1]) + chunks[|chunks| - 1]
  }

  /** However a message is cut into calls of MD5_Update, the digest is that of the whole. */
  method HashChunks(chunks: seq<seq<bv8>>) returns (result: array<bv8>)
    ensures result[..] == Md5(Concat(chunks))
  {
    hide Md5;
    result := new bv8[16];
    var ctx := new Context();
    for i := 0 to |chunks|
      invariant ctx.Valid() && ctx.msg == Concat(chunks[..i]) && fresh(ctx) && fresh(ctx.buffer) && ctx.buffer != result
    {
      hide *;
      ctx.Update(chunks[i]);
      ConcatStep(chunks, i);
    }
    assert chunks[..|chunks|] == chunks;
    ctx.Final(result);
  }

  lemma ConcatStep(chunks: seq<seq<bv8>>, i: nat)
    requires i < |chunks|
    ensures Concat(chunks[..i + 1]) == Concat(chunks[..i]) + chunks[i]
  {
    assert chunks[..i + 1][..i] == chunks[..i];
  }

  lemma NoOperations(r: Regs, x: seq<bv32>)
    requires |x| == 16
    ensures Operations(0, r, x) == r
  {
  }
}
