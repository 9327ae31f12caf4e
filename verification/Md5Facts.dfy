/** What the functions of module Md5Spec do to words bit by bit, and what the digits of a digest spell. */
module Md5Facts {
  import opened Bytes
  import opened Md5Spec
  import opened Md5Bits

  // ----- bit by bit ------------------------------------------------------------------------------

  predicate Bit(x: Word, i: bv8)
    requires i < 32
  {
    Bit32(x as bv32, i)
  }

  lemma AsBits(b: bv32)
    ensures (b as int) as bv32 == b
  {
  }

  /** F takes y's bit where x has one, else z's. */
  lemma FBit(x: Word, y: Word, z: Word, i: bv8)
    requires i < 32
    ensures Bit(F(x, y, z), i) <==> if Bit(x, i) then Bit(y, i) else Bit(z, i)
  {
    hide F32, Bit32;
    AsBits(F32(x as bv32, y as bv32, z as bv32));
    FBit32(x as bv32, y as bv32, z as bv32, i);
  }

  /** G takes x's bit where z has one, else y's. */
  lemma GBit(x: Word, y: Word, z: Word, i: bv8)
    requires i < 32
    ensures Bit(G(x, y, z), i) <==> if Bit(z, i) then Bit(x, i) else Bit(y, i)
  {
    hide G32, Bit32;
    AsBits(G32(x as bv32, y as bv32, z as bv32));
    GBit32(x as bv32, y as bv32, z as bv32, i);
  }

  /** H is the parity of the three bits. */
  lemma HBit(x: Word, y: Word, z: Word, i: bv8)
    requires i < 32
    ensures Bit(H(x, y, z), i) <==> Ones(Bit(x, i), Bit(y, i), Bit(z, i)) % 2 == 1
  {
    hide H32, Bit32, Ones;
    AsBits(H32(x as bv32, y as bv32, z as bv32));
    HBit32(x as bv32, y as bv32, z as bv32, i);
    Parity(Bit(x, i), Bit(y, i), Bit(z, i));
  }

  lemma Parity(a: bool, b: bool, c: bool)
    ensures (a <==> (b <==> c)) <==> Ones(a, b, c) % 2 == 1
  {
  }

  function Ones(a: bool, b: bool, c: bool): nat {
    (if a then 1 else 0) + (if b then 1 else 0) + (if c then 1 else 0)
  }

  /** I differs from y exactly where x has a one or z a zero. */
  lemma IBit(x: Word, y: Word, z: Word, i: bv8)
    requires i < 32
    ensures Bit(I(x, y, z), i) != Bit(y, i) <==> Bit(x, i) || !Bit(z, i)
  {
    hide I32, Bit32;
    AsBits(I32(x as bv32, y as bv32, z as bv32));
    IBit32(x as bv32, y as bv32, z as bv32, i);
  }

  /** Bit i moves n places up, and around from the top. */
  lemma RotateBit(x: Word, n: bv8, i: bv8)
    requires n < 32 && i < 32
    ensures Bit(RotateLeft(x, n), (i + n) % 32) <==> Bit(x, i)
  {
    hide Rotate32, Bit32;
    AsBits(Rotate32(x as bv32, n));
    RotateBit32(x as bv32, n, i);
  }

  lemma Times16(x: int, q: int, k: nat)
    requires k < 16 && x == 16 * q + k
    ensures x % 16 == k
  {
  }

  /** Each round of 16 steps uses every word of the block. */
  lemma ScheduleCovers(round: nat, k: nat) returns (i: nat)
    requires round < 4 && k < 16
    ensures 16 * round <= i < 16 * round + 16 && Schedule(i) == k
  {
    if round == 0 {
      i := k;
    } else if round == 1 {
      var q := (13 * k + 3) / 16;
      i := 16 + (13 * k + 3 - 16 * q);
      Times16(5 * i + 1, 6 + 4 * k - 5 * q, k);
    } else if round == 2 {
      var q := (11 * k + 9) / 16;
      i := 32 + (11 * k + 9 - 16 * q);
      Times16(3 * i + 5, 8 + 2 * k - 3 * q, k);
    } else {
      var q := 7 * k / 16;
      i := 48 + (7 * k - 16 * q);
      Times16(7 * i, 21 + 3 * k - 7 * q, k);
    }
  }

  // ----- padding ---------------------------------------------------------------------------------

  /** The padding is 1 to 64 bytes and ends at 56 modulo 64. */
  lemma PadExactly(n: nat)
    ensures 1 <= PadLength(n) <= 64 && (n + PadLength(n)) % 64 == 56
  {
    var q, r := n / 64, n % 64;
    assert n + PadLength(n) == 64 * (q + if r < 56 then 0 else 1) + 56;
    ModSixtyFour(q + if r < 56 then 0 else 1);
  }

  lemma ModSixtyFour(q: nat)
    ensures (64 * q + 56) % 64 == 56
  {
  }

  /** The eight length bytes spell the number of bits modulo 2^64, low byte first. */
  lemma LengthReads(n: nat)
    ensures var bs := LengthBytes(n); BytesWord(bs[..4]) + TWO32 * BytesWord(bs[4..]) == 8 * n % TWO64
  {
    hide BytesWord, WordBytes;
    var low: Word, high: Word := 8 * n % TWO32, 8 * n / TWO32 % TWO32;
    LowHigh(low, high);
    WordRoundTrip(low);
    WordRoundTrip(high);
    TwoWords(8 * n);
  }

  lemma LowHigh(low: Word, high: Word)
    ensures Encode([low, high])[..4] == WordBytes(low) && Encode([low, high])[4..] == WordBytes(high)
  {
    hide WordBytes;
    assert [low, high][..1] == [low] && [low][..0] == [] && Encode([low]) == WordBytes(low);
  }

  lemma TwoWords(x: nat)
    ensures x % TWO32 + TWO32 * (x / TWO32 % TWO32) == x % TWO64
  {
    var low, q := x % TWO32, x / TWO32;
    var high, top := q % TWO32, q / TWO32;
    assert x == TWO64 * top + (low + TWO32 * high);
    Remainder(x, top, low + TWO32 * high);
  }

  lemma Remainder(x: nat, q: nat, r: nat)
    requires r < TWO64 && x == TWO64 * q + r
    ensures x % TWO64 == r
  {
  }

  // ----- reading the digits ----------------------------------------------------------------------

  function HexValue(c: char): int {
    if '0' <= c <= '9' then c as int - '0' as int else c as int - 'a' as int + 10
  }

  /** The bytes that digits spell, high digit first. */
  function Unhex(h: string): seq<int> {
    if |h| < 2 then []
    else
      var n := |h| - 2;
      Unhex(h[..n]) + [16 * HexValue(h[n]) + HexValue(h[n + 1])]
  }

  lemma HexDigit(n: nat)
    requires n < 16
    ensures HexValue(HEX[n]) == n
  {
  }

  /** Reading the digits of a digest gives back its bytes. */
  lemma {:induction false} UnhexHex(bs: seq<Byte>)
    ensures |Unhex(Hex(bs))| == |bs| && forall i :: 0 <= i < |bs| ==> Unhex(Hex(bs))[i] == bs[i]
  {
    hide HexValue;
    if bs != [] {
      var n := |bs| - 1;
      UnhexHex(bs[..n]);
      HexDigit(bs[n] / 16);
      HexDigit(bs[n] % 16);
      assert Hex(bs)[..2 * n] == Hex(bs[..n]);
    }
  }
}
