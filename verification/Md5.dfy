/** The streaming MD5 object of md5/md5.cpp, proved to compute the digest of module Md5Spec. */
module Md5 {
  import opened Bytes
  import opened Md5Spec

  const S11: bv8 := 7
  const S12: bv8 := 12
  const S13: bv8 := 17
  const S14: bv8 := 22
  const S21: bv8 := 5
  const S22: bv8 := 9
  const S23: bv8 := 14
  const S24: bv8 := 20
  const S31: bv8 := 4
  const S32: bv8 := 11
  const S33: bv8 := 16
  const S34: bv8 := 23
  const S41: bv8 := 6
  const S42: bv8 := 10
  const S43: bv8 := 15
  const S44: bv8 := 21

  /** Decodes input into words; the length is a multiple of four. */
  method DecodeInto(output: array<Word>, input: seq<Byte>)
    requires |input| % 4 == 0 && 4 * output.Length == |input|
    modifies output
    ensures output[..] == Decode(input)
  {
    var i, j := 0, 0;
    while j < |input|
      invariant j == 4 * i <= |input|
      invariant output[..i] == Decode(input[..j])
    {
      output[i] := BytesWord(input[j..j + 4]);
      assert input[..j + 4][..j] == input[..j] && input[..j + 4][j..] == input[j..j + 4];
      assert output[..i + 1] == output[..i] + [output[i]];
      i, j := i + 1, j + 4;
    }
    assert input[..j] == input;
  }

  /** Encodes words into bytes. */
  method EncodeInto(output: array<Byte>, input: seq<Word>)
    requires output.Length == 4 * |input|
    modifies output
    ensures output[..] == Encode(input)
  {
    var i, j := 0, 0;
    while j < output.Length
      invariant j == 4 * i <= output.Length
      invariant output[..j] == Encode(input[..i])
    {
      var bytes := WordBytes(input[i]);
      output[j] := bytes[0];
      output[j + 1] := bytes[1];
      output[j + 2] := bytes[2];
      output[j + 3] := bytes[3];
      assert input[..i + 1][..i] == input[..i];
      assert output[..j + 4] == output[..j] + bytes;
      i, j := i + 1, j + 4;
    }
    assert input[..i] == input;
  }

  /** The 64 unrolled steps of transform, with the registers rotating through their roles. */
  method Unrolled(x: seq<Word>, s0: Regs) returns (r: Regs)
    requires |x| == 16
    ensures r == Rounds(x, s0, 64)
  {
    hide FF, GG, HH, II;
    var a, b, c, d := s0.a, s0.b, s0.c, s0.d;
    a := FF(a, b, c, d, x[0], S11, 0xd76aa478);
    assert Rounds(x, s0, 1) == Regs(d, a, b, c);
    d := FF(d, a, b, c, x[1], S12, 0xe8c7b756);
    assert Rounds(x, s0, 2) == Regs(c, d, a, b);
    c := FF(c, d, a, b, x[2], S13, 0x242070db);
    assert Rounds(x, s0, 3) == Regs(b, c, d, a);
    b := FF(b, c, d, a, x[3], S14, 0xc1bdceee);
    assert Rounds(x, s0, 4) == Regs(a, b, c, d);
    a := FF(a, b, c, d, x[4], S11, 0xf57c0faf);
    assert Rounds(x, s0, 5) == Regs(d, a, b, c);
    d := FF(d, a, b, c, x[5], S12, 0x4787c62a);
    assert Rounds(x, s0, 6) == Regs(c, d, a, b);
    c := FF(c, d, a, b, x[6], S13, 0xa8304613);
    assert Rounds(x, s0, 7) == Regs(b, c, d, a);
    b := FF(b, c, d, a, x[7], S14, 0xfd469501);
    assert Rounds(x, s0, 8) == Regs(a, b, c, d);
    a := FF(a, b, c, d, x[8], S11, 0x698098d8);
    assert Rounds(x, s0, 9) == Regs(d, a, b, c);
    d := FF(d, a, b, c, x[9], S12, 0x8b44f7af);
    assert Rounds(x, s0, 10) == Regs(c, d, a, b);
    c := FF(c, d, a, b, x[10], S13, 0xffff5bb1);
    assert Rounds(x, s0, 11) == Regs(b, c, d, a);
    b := FF(b, c, d, a, x[11], S14, 0x895cd7be);
    assert Rounds(x, s0, 12) == Regs(a, b, c, d);
    a := FF(a, b, c, d, x[12], S11, 0x6b901122);
    assert Rounds(x, s0, 13) == Regs(d, a, b, c);
    d := FF(d, a, b, c, x[13], S12, 0xfd987193);
    assert Rounds(x, s0, 14) == Regs(c, d, a, b);
    c := FF(c, d, a, b, x[14], S13, 0xa679438e);
    assert Rounds(x, s0, 15) == Regs(b, c, d, a);
    b := FF(b, c, d, a, x[15], S14, 0x49b40821);
    assert Rounds(x, s0, 16) == Regs(a, b, c, d);
    a := GG(a, b, c, d, x[1], S21, 0xf61e2562);
    assert Rounds(x, s0, 17) == Regs(d, a, b, c);
    d := GG(d, a, b, c, x[6], S22, 0xc040b340);
    assert Rounds(x, s0, 18) == Regs(c, d, a, b);
    c := GG(c, d, a, b, x[11], S23, 0x265e5a51);
    assert Rounds(x, s0, 19) == Regs(b, c, d, a);
    b := GG(b, c, d, a, x[0], S24, 0xe9b6c7aa);
    assert Rounds(x, s0, 20) == Regs(a, b, c, d);
    a := GG(a, b, c, d, x[5], S21, 0xd62f105d);
    assert Rounds(x, s0, 21) == Regs(d, a, b, c);
    d := GG(d, a, b, c, x[10], S22, 0x2441453);
    assert Rounds(x, s0, 22) == Regs(c, d, a, b);
    c := GG(c, d, a, b, x[15], S23, 0xd8a1e681);
    assert Rounds(x, s0, 23) == Regs(b, c, d, a);
    b := GG(b, c, d, a, x[4], S24, 0xe7d3fbc8);
    assert Rounds(x, s0, 24) == Regs(a, b, c, d);
    a := GG(a, b, c, d, x[9], S21, 0x21e1cde6);
    assert Rounds(x, s0, 25) == Regs(d, a, b, c);
    d := GG(d, a, b, c, x[14], S22, 0xc33707d6);
    assert Rounds(x, s0, 26) == Regs(c, d, a, b);
    c := GG(c, d, a, b, x[3], S23, 0xf4d50d87);
    assert Rounds(x, s0, 27) == Regs(b, c, d, a);
    b := GG(b, c, d, a, x[8], S24, 0x455a14ed);
    assert Rounds(x, s0, 28) == Regs(a, b, c, d);
    a := GG(a, b, c, d, x[13], S21, 0xa9e3e905);
    assert Rounds(x, s0, 29) == Regs(d, a, b, c);
    d := GG(d, a, b, c, x[2], S22, 0xfcefa3f8);
    assert Rounds(x, s0, 30) == Regs(c, d, a, b);
    c := GG(c, d, a, b, x[7], S23, 0x676f02d9);
    assert Rounds(x, s0, 31) == Regs(b, c, d, a);
    b := GG(b, c, d, a, x[12], S24, 0x8d2a4c8a);
    assert Rounds(x, s0, 32) == Regs(a, b, c, d);
    a := HH(a, b, c, d, x[5], S31, 0xfffa3942);
    assert Rounds(x, s0, 33) == Regs(d, a, b, c);
    d := HH(d, a, b, c, x[8], S32, 0x8771f681);
    assert Rounds(x, s0, 34) == Regs(c, d, a, b);
    c := HH(c, d, a, b, x[11], S33, 0x6d9d6122);
    assert Rounds(x, s0, 35) == Regs(b, c, d, a);
    b := HH(b, c, d, a, x[14], S34, 0xfde5380c);
    assert Rounds(x, s0, 36) == Regs(a, b, c, d);
    a := HH(a, b, c, d, x[1], S31, 0xa4beea44);
    assert Rounds(x, s0, 37) == Regs(d, a, b, c);
    d := HH(d, a, b, c, x[4], S32, 0x4bdecfa9);
    assert Rounds(x, s0, 38) == Regs(c, d, a, b);
    c := HH(c, d, a, b, x[7], S33, 0xf6bb4b60);
    assert Rounds(x, s0, 39) == Regs(b, c, d, a);
    b := HH(b, c, d, a, x[10], S34, 0xbebfbc70);
    assert Rounds(x, s0, 40) == Regs(a, b, c, d);
    a := HH(a, b, c, d, x[13], S31, 0x289b7ec6);
    assert Rounds(x, s0, 41) == Regs(d, a, b, c);
    d := HH(d, a, b, c, x[0], S32, 0xeaa127fa);
    assert Rounds(x, s0, 42) == Regs(c, d, a, b);
    c := HH(c, d, a, b, x[3], S33, 0xd4ef3085);
    assert Rounds(x, s0, 43) == Regs(b, c, d, a);
    b := HH(b, c, d, a, x[6], S34, 0x4881d05);
    assert Rounds(x, s0, 44) == Regs(a, b, c, d);
    a := HH(a, b, c, d, x[9], S31, 0xd9d4d039);
    assert Rounds(x, s0, 45) == Regs(d, a, b, c);
    d := HH(d, a, b, c, x[12], S32, 0xe6db99e5);
    assert Rounds(x, s0, 46) == Regs(c, d, a, b);
    c := HH(c, d, a, b, x[15], S33, 0x1fa27cf8);
    assert Rounds(x, s0, 47) == Regs(b, c, d, a);
    b := HH(b, c, d, a, x[2], S34, 0xc4ac5665);
    assert Rounds(x, s0, 48) == Regs(a, b, c, d);
    a := II(a, b, c, d, x[0], S41, 0xf4292244);
    assert Rounds(x, s0, 49) == Regs(d, a, b, c);
    d := II(d, a, b, c, x[7], S42, 0x432aff97);
    assert Rounds(x, s0, 50) == Regs(c, d, a, b);
    c := II(c, d, a, b, x[14], S43, 0xab9423a7);
    assert Rounds(x, s0, 51) == Regs(b, c, d, a);
    b := II(b, c, d, a, x[5], S44, 0xfc93a039);
    assert Rounds(x, s0, 52) == Regs(a, b, c, d);
    a := II(a, b, c, d, x[12], S41, 0x655b59c3);
    assert Rounds(x, s0, 53) == Regs(d, a, b, c);
    d := II(d, a, b, c, x[3], S42, 0x8f0ccc92);
    assert Rounds(x, s0, 54) == Regs(c, d, a, b);
    c := II(c, d, a, b, x[10], S43, 0xffeff47d);
    assert Rounds(x, s0, 55) == Regs(b, c, d, a);
    b := II(b, c, d, a, x[1], S44, 0x85845dd1);
    assert Rounds(x, s0, 56) == Regs(a, b, c, d);
    a := II(a, b, c, d, x[8], S41, 0x6fa87e4f);
    assert Rounds(x, s0, 57) == Regs(d, a, b, c);
    d := II(d, a, b, c, x[15], S42, 0xfe2ce6e0);
    assert Rounds(x, s0, 58) == Regs(c, d, a, b);
    c := II(c, d, a, b, x[6], S43, 0xa3014314);
    assert Rounds(x, s0, 59) == Regs(b, c, d, a);
    b := II(b, c, d, a, x[13], S44, 0x4e0811a1);
    assert Rounds(x, s0, 60) == Regs(a, b, c, d);
    a := II(a, b, c, d, x[4], S41, 0xf7537e82);
    assert Rounds(x, s0, 61) == Regs(d, a, b, c);
    d := II(d, a, b, c, x[11], S42, 0xbd3af235);
    assert Rounds(x, s0, 62) == Regs(c, d, a, b);
    c := II(c, d, a, b, x[2], S43, 0x2ad7d2bb);
    assert Rounds(x, s0, 63) == Regs(b, c, d, a);
    b := II(b, c, d, a, x[9], S44, 0xeb86d391);
    assert Rounds(x, s0, 64) == Regs(a, b, c, d);
    r := Regs(a, b, c, d);
  }

  // ----- the bit counter -------------------------------------------------------------------------

  /** (c1, c0) is the number of bits in n bytes, modulo 2^64. */
  ghost predicate Counts(c0: Word, c1: Word, n: nat) {
    c0 == 8 * n % TWO32 && c1 == 8 * n / TWO32 % TWO32
  }

  /** The carry test and the high part of the length keep the two words in step with the bytes. */
  lemma CountsAdd(c0: Word, c1: Word, n: nat, len: nat)
    requires Counts(c0, c1, n) && len < TWO32
    ensures var bits := 8 * len % TWO32;
            var d0 := Add(c0, bits);
            Counts(d0, Add(Add(c1, if d0 < bits then 1 else 0), len / 0x2000_0000), n + len)
  {
    var bits, high := 8 * len % TWO32, len / 0x2000_0000;
    var q := 8 * n / TWO32;
    assert 8 * len == TWO32 * high + bits;
    assert 8 * n == TWO32 * q + c0;
    var carry := if c0 + bits >= TWO32 then 1 else 0;
    assert Add(c0, bits) == c0 + bits - TWO32 * carry;
    assert (Add(c0, bits) < bits) <==> carry == 1;
    assert 8 * (n + len) == TWO32 * (q + high + carry) + Add(c0, bits);
    DivModOf(8 * (n + len), q + high + carry, Add(c0, bits));
    ModSum(q, carry, high);
  }

  lemma DivModOf(x: nat, q: nat, r: Word)
    requires x == TWO32 * q + r
    ensures x / TWO32 == q && x % TWO32 == r
  {
  }

  lemma ModSum(q: nat, carry: nat, high: Word)
    requires carry <= 1
    ensures (q + high + carry) % TWO32 == Add(Add(q % TWO32, carry), high)
  {
  }

  lemma CountsIndex(c0: Word, c1: Word, n: nat)
    requires Counts(c0, c1, n)
    ensures c0 / 8 % 64 == n % 64
  {
    var q := 8 * n / TWO32;
    assert 8 * n == TWO32 * q + c0;
    assert c0 / 8 == n - 64 * (0x80_0000 * q);
    ModMultiple(n, 0x80_0000 * q);
  }

  lemma ModMultiple(n: int, k: int)
    ensures (n - 64 * k) % 64 == n % 64
  {
  }

  // ----- the object ------------------------------------------------------------------------------

  /** The part of n bytes that fills whole blocks. */
  function Whole(n: nat): (w: nat)
    ensures w <= n && w % 64 == 0
  {
    n - n % 64
  }

  class Hasher {
    const buffer: array<Byte>
    const digest: array<Byte>
    var count0: Word
    var count1: Word
    var state: Regs
    var finalized: bool
    /** The message the digest is of: all input before the object was finalized. */
    ghost var fed: seq<Byte>
    /** Where the state started, and the bytes taken since. */
    ghost var base: Regs
    ghost var run: seq<Byte>

    ghost predicate Valid()
      reads this, buffer, digest
    {
      && buffer.Length == 64 && digest.Length == 16 && buffer != digest
      && Counts(count0, count1, |run|) && Holds(run)
      && (if finalized then digest[..] == Digest(fed) else base == IV && run == fed)
    }

    constructor ()
      ensures Valid() && fed == [] && !finalized && fresh(buffer) && fresh(digest)
    {
      hide Digest, Compress;
      buffer := new Byte[64];
      digest := new Byte[16];
      count0, count1 := 0, 0;
      state := IV;
      finalized := false;
      fed, base, run := [], IV, [];
    }

    method Transform(block: seq<Byte>)
      requires |block| == 64
      modifies this`state
      ensures state == Compress(old(state), block)
    {
      var x := new Word[16];
      DecodeInto(x, block);
      var r := Unrolled(x[..], state);
      state := Regs(Add(state.a, r.a), Add(state.b, r.b), Add(state.c, r.c), Add(state.d, r.d));
    }

    method Count(len: nat)
      requires len < TWO32 && Counts(count0, count1, |run|)
      modifies this`count0, this`count1
      ensures Counts(count0, count1, |run| + len)
    {
      CountsAdd(count0, count1, |run|, len);
      var bits: Word := 8 * len % TWO32;
      count0 := Add(count0, bits);
      if count0 < bits {
        count1 := Add(count1, 1);
      } else {
        count1 := Add(count1, 0);
      }
      count1 := Add(count1, len / 0x2000_0000);
    }

    /** Fills the buffer and transforms it. */
    method TransformBuffer(input: seq<Byte>, index: nat, ghost done: nat)
      requires buffer.Length == 64 && index < 64 && 64 - index <= |input|
      requires done % 64 == 0 && done + index == |run|
      requires state == Blocks(base, run[..done])
      requires buffer[..index] == run[done..]
      modifies this`state, buffer
      ensures state == Blocks(base, (run + input)[..done + 64])
    {
      hide Compress, Digest, Blocks;
      ghost var msg, kept := run + input, buffer[..index];
      forall k | 0 <= k < 64 - index {
        buffer[index + k] := input[k];
      }
      assert buffer[..] == kept + input[..64 - index];
      BufferFilled(run, input, done, index);
      BlocksAppend(base, msg, done);
      Transform(buffer[..]);
    }

    /** Transforms every whole block of the input from index first on. */
    method TransformBlocks(input: seq<Byte>, first: nat) returns (i: nat)
      requires first <= |input| && |input| + 64 < TWO32 && (|run| + first) % 64 == 0
      requires state == Blocks(base, (run + input)[..|run| + first])
      modifies this`state
      ensures i <= |input| < i + 64 && (|run| + i) % 64 == 0
      ensures state == Blocks(base, (run + input)[..|run| + i])
    {
      hide Compress, Digest, Blocks;
      i := first;
      while Add(i, 64) <= |input|
        invariant i <= |input| && (|run| + i) % 64 == 0
        invariant state == Blocks(base, (run + input)[..|run| + i])
        decreases |input| - i
      {
        BlocksAppend(base, run + input, |run| + i);
        assert input[i..i + 64] == (run + input)[|run| + i..|run| + i + 64];
        Transform(input[i..i + 64]);
        i := i + 64;
      }
    }

    /** Buffers what is left of the input. */
    method BufferRest(input: seq<Byte>, index: nat)
      requires index + |input| <= buffer.Length
      modifies buffer
      ensures buffer[..index + |input|] == old(buffer[..index]) + input
    {
      forall k | 0 <= k < |input| {
        buffer[index + k] := input[k];
      }
    }

    /** The state covers the whole blocks of msg, the buffer holds what is left. */
    ghost predicate Holds(msg: seq<Byte>)
      reads this, buffer
      requires buffer.Length == 64
    {
      state == Blocks(base, msg[..Whole(|msg|)]) && buffer[..|msg| % 64] == msg[Whole(|msg|)..]
    }

    /** The input fills the buffer at least once. */
    method TakeLong(input: seq<Byte>, index: nat)
      requires buffer.Length == 64 && Holds(run) && index == |run| % 64
      requires 64 - index <= |input| && |input| + 64 < TWO32
      modifies this`state, buffer
      ensures Holds(run + input)
    {
      hide Blocks;
      TransformBuffer(input, index, Whole(|run|));
      var i := TransformBlocks(input, 64 - index);
      BufferRest(input[i..], 0);
      SplitLong(run, input, i);
    }

    /** The input still fits in the buffer. */
    method TakeShort(input: seq<Byte>, index: nat)
      requires buffer.Length == 64 && Holds(run) && index == |run| % 64 && |input| < 64 - index
      modifies buffer
      ensures Holds(run + input)
    {
      hide Blocks;
      BufferRest(input, index);
      SplitShort(run, input);
    }

    /**
     * Any split of a message into updates feeds the same message. Input after finalize is taken in, but
     * the digest stays that of the message before.
     */
    method Update(input: seq<Byte>)
      requires Valid() && |input| + 64 < TWO32
      modifies this, buffer
      ensures Valid() && finalized == old(finalized) && run == old(run) + input && base == old(base)
      ensures fed == if finalized then old(fed) else old(fed) + input
    {
      hide Blocks, Digest, Counts, Whole;
      var index: nat := Index();
      Count(|input|);
      if |input| >= 64 - index {
        TakeLong(input, index);
      } else {
        TakeShort(input, index);
      }
      run := run + input;
      if !finalized {
        fed := run;
      }
    }

    /** Pads and appends the length, both by Update. */
    method FeedPadding()
      requires Valid() && !finalized
      modifies this, buffer
      ensures Valid() && !finalized && fed == Padded(old(fed)) && state == Blocks(IV, fed)
    {
      hide Blocks, Counts, Holds, Digest;
      ghost var msg := fed;
      var bits := new Byte[8];
      EncodeInto(bits, [count0, count1]);
      CountsBytes(count0, count1, |msg|);
      var index := Index();
      var padLen := if index < 56 then 56 - index else 120 - index;
      var padding: seq<Byte> := [0x80] + Zeros(63);
      Update(padding[..padLen]);
      Update(bits[..]);
      PaddedIs(msg, padding[..padLen], bits[..]);
      WholeHeld();
    }

    /** The state covers a run of whole blocks. */
    lemma WholeHeld()
      requires buffer.Length == 64 && Holds(run) && |run| % 64 == 0
      ensures state == Blocks(base, run)
    {
      hide Blocks;
      assert run[..Whole(|run|)] == run;
    }

    /** Zeroes the buffer and the counters of an object whose digest has been stored. */
    method Zeroize(ghost msg: seq<Byte>)
      requires buffer.Length == 64 && digest.Length == 16 && buffer != digest && digest[..] == Digest(msg)
      modifies this, buffer
      ensures Valid() && finalized && fed == msg
    {
      hide Blocks, Counts, Digest, Holds, Whole;
      forall i | 0 <= i < 64 {
        buffer[i] := 0;
      }
      count0, count1 := 0, 0;
      fed, base, run := msg, state, [];
      finalized := true;
      StartsAgain();
    }

    /** Pads, appends the length and stores the digest; a second call changes nothing. */
    method Finalize()
      requires Valid()
      modifies this, buffer, digest
      ensures Valid() && finalized && fed == old(fed)
    {
      hide Blocks, Counts, Holds, Padded;
      if !finalized {
        ghost var msg := fed;
        FeedPadding();
        EncodeInto(digest, [state.a, state.b, state.c, state.d]);
        Zeroize(msg);
      }
    }

    /** Zeroed counters and an empty run go together. */
    lemma StartsAgain()
      requires buffer.Length == 64 && count0 == 0 && count1 == 0 && run == [] && base == state
      ensures Counts(count0, count1, |run|) && Holds(run)
    {
    }

    method HexDigest() returns (h: string)
      requires Valid()
      ensures h == if finalized then Hex(Digest(fed)) else ""
    {
      if !finalized {
        return "";
      }
      h := "";
      for i := 0 to 16
        invariant h == Hex(digest[..i])
      {
        assert digest[..i + 1][..i] == digest[..i];
        h := h + HexByte(digest[i]);
      }
      assert digest[..16] == digest[..];
    }

    method Index() returns (index: nat)
      requires Valid()
      ensures index == |run| % 64
    {
      CountsIndex(count0, count1, |run|);
      index := count0 / 8 % 64;
    }
  }

  /** Where the whole blocks of a longer message end, when the new input completes a block. */
  lemma SplitLong(fed: seq<Byte>, input: seq<Byte>, i: nat)
    requires i <= |input| < i + 64 && (|fed| + i) % 64 == 0
    ensures Whole(|fed + input|) == |fed| + i && |fed + input| % 64 == |input| - i
    ensures (fed + input)[|fed| + i..] == input[i..]
  {
    WholeAt(|fed| + i, |input| - i);
  }

  /** ... and when it does not. */
  lemma SplitShort(fed: seq<Byte>, input: seq<Byte>)
    requires |fed| % 64 + |input| < 64
    ensures Whole(|fed + input|) == Whole(|fed|) && |fed + input| % 64 == |fed| % 64 + |input|
    ensures (fed + input)[..Whole(|fed|)] == fed[..Whole(|fed|)]
    ensures (fed + input)[Whole(|fed|)..] == fed[Whole(|fed|)..] + input
  {
    WholeAt(Whole(|fed|), |fed| % 64 + |input|);
  }

  lemma WholeAt(w: nat, rest: nat)
    requires w % 64 == 0 && rest < 64
    ensures Whole(w + rest) == w && (w + rest) % 64 == rest
  {
  }

  lemma BufferFilled(fed: seq<Byte>, input: seq<Byte>, done: nat, index: nat)
    requires done + index == |fed| && index < 64 && 64 - index <= |input|
    ensures (fed + input)[..done] == fed[..done]
    ensures (fed + input)[done..done + 64] == fed[done..] + input[..64 - index]
  {
  }

  lemma BlocksAppend(r: Regs, msg: seq<Byte>, done: nat)
    requires done % 64 == 0 && done + 64 <= |msg|
    ensures Blocks(r, msg[..done + 64]) == Compress(Blocks(r, msg[..done]), msg[done..done + 64])
  {
    BlocksSnoc(r, msg[..done], msg[done..done + 64]);
    assert msg[..done] + msg[done..done + 64] == msg[..done + 64];
  }

  lemma CountsBytes(c0: Word, c1: Word, n: nat)
    requires Counts(c0, c1, n)
    ensures Encode([c0, c1]) == LengthBytes(n)
  {
  }

  lemma PaddedIs(msg: seq<Byte>, padding: seq<Byte>, bits: seq<Byte>)
    requires padding == ([0x80] + Zeros(63))[..PadLength(|msg|)] && bits == LengthBytes(|msg|)
    ensures msg + padding + bits == Padded(msg)
  {
    assert padding == [0x80] + Zeros(PadLength(|msg|) - 1);
    assert msg + padding == msg + [0x80] + Zeros(PadLength(|msg|) - 1);
  }

  /** The digest of a C string in hexadecimal. */
  method GetMD5Hash(str: string) returns (h: string)
    requires |str| + 64 < TWO32
    ensures h == HexDigest(str)
  {
    var md5 := new Hasher();
    md5.Update(CharBytes(str));
    md5.Finalize();
    h := md5.HexDigest();
    assert [] + CharBytes(str) == CharBytes(str);
  }
}
