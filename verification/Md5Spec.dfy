/** The MD5 message digest of RFC 1321, sections 3.1 to 3.5, as functions on byte sequences. */
module Md5Spec {
  import opened Bytes

  type Word = x: int | 0 <= x < 0x1_0000_0000

  // ----- words -----------------------------------------------------------------------------------

  function Add(x: Word, y: Word): Word { (x + y) % TWO32 }

  function F32(x: bv32, y: bv32, z: bv32): bv32 { (x & y) | (!x & z) }

  function G32(x: bv32, y: bv32, z: bv32): bv32 { (x & z) | (y & !z) }

  function H32(x: bv32, y: bv32, z: bv32): bv32 { x ^ y ^ z }

  function I32(x: bv32, y: bv32, z: bv32): bv32 { y ^ (x | !z) }

  function Rotate32(x: bv32, n: bv8): bv32
    requires n <= 32
  {
    (x << n) | (x >> (32 - n))
  }

  function F(x: Word, y: Word, z: Word): Word { F32(x as bv32, y as bv32, z as bv32) as int }

  function G(x: Word, y: Word, z: Word): Word { G32(x as bv32, y as bv32, z as bv32) as int }

  function H(x: Word, y: Word, z: Word): Word { H32(x as bv32, y as bv32, z as bv32) as int }

  function I(x: Word, y: Word, z: Word): Word { I32(x as bv32, y as bv32, z as bv32) as int }

  function RotateLeft(x: Word, n: bv8): Word
    requires n <= 32
  {
    Rotate32(x as bv32, n) as int
  }

  function FF(a: Word, b: Word, c: Word, d: Word, x: Word, s: bv8, ac: Word): Word
    requires s <= 32
  {
    Add(RotateLeft(Add(Add(Add(a, F(b, c, d)), x), ac), s), b)
  }

  function GG(a: Word, b: Word, c: Word, d: Word, x: Word, s: bv8, ac: Word): Word
    requires s <= 32
  {
    Add(RotateLeft(Add(Add(Add(a, G(b, c, d)), x), ac), s), b)
  }

  function HH(a: Word, b: Word, c: Word, d: Word, x: Word, s: bv8, ac: Word): Word
    requires s <= 32
  {
    Add(RotateLeft(Add(Add(Add(a, H(b, c, d)), x), ac), s), b)
  }

  function II(a: Word, b: Word, c: Word, d: Word, x: Word, s: bv8, ac: Word): Word
    requires s <= 32
  {
    Add(RotateLeft(Add(Add(Add(a, I(b, c, d)), x), ac), s), b)
  }

  // ----- one block -------------------------------------------------------------------------------

  const T1: seq<Word> := [
    0xd76aa478, 0xe8c7b756, 0x242070db, 0xc1bdceee,
    0xf57c0faf, 0x4787c62a, 0xa8304613, 0xfd469501,
    0x698098d8, 0x8b44f7af, 0xffff5bb1, 0x895cd7be,
    0x6b901122, 0xfd987193, 0xa679438e, 0x49b40821]

  const T2: seq<Word> := [
    0xf61e2562, 0xc040b340, 0x265e5a51, 0xe9b6c7aa,
    0xd62f105d, 0x2441453, 0xd8a1e681, 0xe7d3fbc8,
    0x21e1cde6, 0xc33707d6, 0xf4d50d87, 0x455a14ed,
    0xa9e3e905, 0xfcefa3f8, 0x676f02d9, 0x8d2a4c8a]

  const T3: seq<Word> := [
    0xfffa3942, 0x8771f681, 0x6d9d6122, 0xfde5380c,
    0xa4beea44, 0x4bdecfa9, 0xf6bb4b60, 0xbebfbc70,
    0x289b7ec6, 0xeaa127fa, 0xd4ef3085, 0x4881d05,
    0xd9d4d039, 0xe6db99e5, 0x1fa27cf8, 0xc4ac5665]

  const T4: seq<Word> := [
    0xf4292244, 0x432aff97, 0xab9423a7, 0xfc93a039,
    0x655b59c3, 0x8f0ccc92, 0xffeff47d, 0x85845dd1,
    0x6fa87e4f, 0xfe2ce6e0, 0xa3014314, 0x4e0811a1,
    0xf7537e82, 0xbd3af235, 0x2ad7d2bb, 0xeb86d391]

  const SHIFTS: seq<bv8> := [7, 12, 17, 22, 5, 9, 14, 20, 4, 11, 16, 23, 6, 10, 15, 21]

  datatype Regs = Regs(a: Word, b: Word, c: Word, d: Word)

  /** The word of the block that step i uses. */
  function Schedule(i: nat): nat
    requires i < 64
  {
    if i < 16 then i
    else if i < 32 then (5 * i + 1) % 16
    else if i < 48 then (3 * i + 5) % 16
    else 7 * i % 16
  }

  /** Step i of the 64: [abcd k s i] in section 3.4, then the registers trade places. */
  function Step(x: seq<Word>, i: nat, r: Regs): Regs
    requires |x| == 16 && i < 64
  {
    var xk, s := x[Schedule(i)], SHIFTS[4 * (i / 16) + i % 4];
    Regs(r.d,
         if i < 16 then FF(r.a, r.b, r.c, r.d, xk, s, T1[i])
         else if i < 32 then GG(r.a, r.b, r.c, r.d, xk, s, T2[i - 16])
         else if i < 48 then HH(r.a, r.b, r.c, r.d, xk, s, T3[i - 32])
         else II(r.a, r.b, r.c, r.d, xk, s, T4[i - 48]),
         r.b, r.c)
  }

  /** The first n of the 64 steps. */
  function Rounds(x: seq<Word>, r: Regs, n: nat): Regs
    requires |x| == 16 && n <= 64
  {
    if n == 0 then r else Step(x, n - 1, Rounds(x, r, n - 1))
  }

  // ----- bytes and words -------------------------------------------------------------------------

  /** Low-order byte first, section 2. */
  function WordBytes(w: Word): (bs: seq<Byte>)
    ensures |bs| == 4
  {
    var w1: int := w / 0x100;
    var w2: int := w1 / 0x100;
    var w3: int := w2 / 0x100;
    [w % 0x100, w1 % 0x100, w2 % 0x100, w3]
  }

  function BytesWord(bs: seq<Byte>): Word
    requires |bs| == 4
  {
    var w2: int := bs[2] as int + 0x100 * bs[3] as int;
    var w1: int := bs[1] as int + 0x100 * w2;
    bs[0] as int + 0x100 * w1
  }

  function Encode(ws: seq<Word>): (bs: seq<Byte>)
    ensures |bs| == 4 * |ws|
  {
    if ws == [] then [] else Encode(ws[..|ws| - 1]) + WordBytes(ws[|ws| - 1])
  }

  function Decode(bs: seq<Byte>): (ws: seq<Word>)
    requires |bs| % 4 == 0
    ensures |bs| == 4 * |ws|
  {
    if bs == [] then [] else Decode(bs[..|bs| - 4]) + [BytesWord(bs[|bs| - 4..])]
  }

  lemma WordRoundTrip(w: Word)
    ensures BytesWord(WordBytes(w)) == w
  {
  }

  lemma ByteRoundTrip(bs: seq<Byte>)
    requires |bs| == 4
    ensures WordBytes(BytesWord(bs)) == bs
  {
    var w3: int := bs[3];
    var w2: int := bs[2] as int + 0x100 * w3;
    var w1: int := bs[1] as int + 0x100 * w2;
    LowByte(bs[2], w3);
    LowByte(bs[1], w2);
    LowByte(bs[0], w1);
  }

  lemma LowByte(b: Byte, w: nat)
    ensures (b + 0x100 * w) % 0x100 == b && (b + 0x100 * w) / 0x100 == w
  {
  }

  /** Decoding undoes encoding and encoding undoes decoding. */
  lemma {:induction false} DecodeEncode(ws: seq<Word>)
    ensures Decode(Encode(ws)) == ws
  {
    if ws != [] {
      var n := |ws| - 1;
      DecodeEncode(ws[..n]);
      WordRoundTrip(ws[n]);
      assert Encode(ws)[..4 * n] == Encode(ws[..n]) && Encode(ws)[4 * n..] == WordBytes(ws[n]);
    }
  }

  lemma {:induction false} EncodeDecode(bs: seq<Byte>)
    requires |bs| % 4 == 0
    ensures Encode(Decode(bs)) == bs
  {
    if bs != [] {
      var n := |bs| - 4;
      EncodeDecode(bs[..n]);
      ByteRoundTrip(bs[n..]);
      assert Decode(bs)[..|Decode(bs)| - 1] == Decode(bs[..n]);
      assert bs[..n] + bs[n..] == bs;
    }
  }

  // ----- the whole message -----------------------------------------------------------------------

  const IV := Regs(0x67452301, 0xefcdab89, 0x98badcfe, 0x10325476)

  function Compress(r: Regs, block: seq<Byte>): Regs
    requires |block| == 64
  {
    var s := Rounds(Decode(block), r, 64);
    Regs(Add(r.a, s.a), Add(r.b, s.b), Add(r.c, s.c), Add(r.d, s.d))
  }

  /** The state after all the blocks of a message whose length is a multiple of 64. */
  function Blocks(r: Regs, msg: seq<Byte>): Regs
    requires |msg| % 64 == 0
  {
    if msg == [] then r else Compress(Blocks(r, msg[..|msg| - 64]), msg[|msg| - 64..])
  }

  /** Bytes of padding: at least one, up to 56 modulo 64 (section 3.1). */
  function PadLength(n: nat): nat {
    if n % 64 < 56 then 56 - n % 64 else 120 - n % 64
  }

  function Zeros(n: nat): (z: seq<Byte>)
    ensures |z| == n && forall i :: 0 <= i < n ==> z[i] == 0
  {
    seq(n, _ => 0)
  }

  /** The length in bits modulo 2^64, low-order word first (section 3.2). */
  function LengthBytes(n: nat): (bs: seq<Byte>)
    ensures |bs| == 8
  {
    Encode([8 * n % TWO32, 8 * n / TWO32 % TWO32])
  }

  function Padded(msg: seq<Byte>): (p: seq<Byte>)
    ensures |p| % 64 == 0
  {
    msg + [0x80] + Zeros(PadLength(|msg|) - 1) + LengthBytes(|msg|)
  }

  function RegsBytes(r: Regs): (bs: seq<Byte>)
    ensures |bs| == 16
  {
    Encode([r.a, r.b, r.c, r.d])
  }

  /** The MD5 digest of a message (section 3.5). */
  function Digest(msg: seq<Byte>): (d: seq<Byte>)
    ensures |d| == 16
  {
    RegsBytes(Blocks(IV, Padded(msg)))
  }

  lemma BlocksSnoc(r: Regs, msg: seq<Byte>, block: seq<Byte>)
    requires |msg| % 64 == 0 && |block| == 64
    ensures Blocks(r, msg + block) == Compress(Blocks(r, msg), block)
  {
    var m := msg + block;
    assert m[..|m| - 64] == msg && m[|m| - 64..] == block;
  }

  // ----- text ------------------------------------------------------------------------------------

  const HEX := "0123456789abcdef"

  function HexByte(b: Byte): (h: string)
    ensures |h| == 2
  {
    [HEX[b / 16], HEX[b % 16]]
  }

  function Hex(bs: seq<Byte>): (h: string)
    ensures |h| == 2 * |bs|
  {
    if bs == [] then "" else Hex(bs[..|bs| - 1]) + HexByte(bs[|bs| - 1])
  }

  function CharBytes(s: string): (bs: seq<Byte>)
    ensures |bs| == |s|
  {
    seq(|s|, i requires 0 <= i < |s| => s[i] as int % 0x100)
  }

  function HexDigest(s: string): (h: string)
    ensures |h| == 32
  {
    Hex(Digest(CharBytes(s)))
  }
}
