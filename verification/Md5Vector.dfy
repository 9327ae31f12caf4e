/** The digest of a test message of RFC 1321, section A.5, step by step. */
module Md5Vector {
  import opened Bytes
  import opened Md5Spec
  import opened Md5Facts

  function Mixed(i: nat, b: Word, c: Word, d: Word): Word {
    if i < 16 then F(b, c, d) else if i < 32 then G(b, c, d) else if i < 48 then H(b, c, d) else I(b, c, d)
  }

  function Mixed32(i: nat, b: bv32, c: bv32, d: bv32): bv32 {
    if i < 16 then F32(b, c, d) else if i < 32 then G32(b, c, d) else if i < 48 then H32(b, c, d) else I32(b, c, d)
  }

  /** A word's bits as its number. */
  function Int(b: bv32): Word {
    b as int
  }

  lemma FIs(b: bv32, c: bv32, d: bv32)
    ensures F(Int(b), Int(c), Int(d)) == Int(F32(b, c, d))
  {
    hide F32;
    AsBits(b);
    AsBits(c);
    AsBits(d);
  }

  lemma GIs(b: bv32, c: bv32, d: bv32)
    ensures G(Int(b), Int(c), Int(d)) == Int(G32(b, c, d))
  {
    hide G32;
    AsBits(b);
    AsBits(c);
    AsBits(d);
  }

  lemma HIs(b: bv32, c: bv32, d: bv32)
    ensures H(Int(b), Int(c), Int(d)) == Int(H32(b, c, d))
  {
    hide H32;
    AsBits(b);
    AsBits(c);
    AsBits(d);
  }

  lemma IIs(b: bv32, c: bv32, d: bv32)
    ensures I(Int(b), Int(c), Int(d)) == Int(I32(b, c, d))
  {
    hide I32;
    AsBits(b);
    AsBits(c);
    AsBits(d);
  }

  lemma MixedIs(i: nat, b: bv32, c: bv32, d: bv32)
    ensures Mixed(i, Int(b), Int(c), Int(d)) == Int(Mixed32(i, b, c, d))
  {
    hide F, G, H, I, F32, G32, H32, I32;
    FIs(b, c, d);
    GIs(b, c, d);
    HIs(b, c, d);
    IIs(b, c, d);
  }

  lemma RotateIs(t: bv32, s: bv8)
    requires s <= 32
    ensures RotateLeft(Int(t), s) == Int(Rotate32(t, s))
  {
    hide Rotate32;
    AsBits(t);
  }

  function Constant(i: nat): Word
    requires i < 64
  {
    if i < 16 then T1[i] else if i < 32 then T2[i - 16] else if i < 48 then T3[i - 32] else T4[i - 48]
  }

  function Shift(i: nat): (s: bv8)
    requires i < 64
    ensures s <= 32
  {
    SHIFTS[4 * (i / 16) + i % 4]
  }

  /** What a step does with what it is given. */
  function Mix(r: Regs, f: Word, w: Word, k: Word, s: bv8): Regs
    requires s <= 32
  {
    Regs(r.d, Add(RotateLeft(Add(Add(Add(r.a, f), w), k), s), r.b), r.b, r.c)
  }

  lemma StepMixes(x: seq<Word>, i: nat, r: Regs)
    requires |x| == 16 && i < 64
    ensures Step(x, i, r) == Mix(r, Mixed(i, r.b, r.c, r.d), x[Schedule(i)], Constant(i), Shift(i))
  {
    hide F, G, H, I, RotateLeft, Add, Schedule;
  }

  lemma Carried(x: nat, r: Word, n: nat)
    requires n <= 3 && x == r + n * TWO32
    ensures x % TWO32 == r
  {
    assert n == 0 || n == 1 || n == 2 || n == 3;
  }

  lemma SumOfFour(a: Word, f: Word, w: Word, k: Word)
    ensures Add(Add(Add(a, f), w), k) == (a + f + w + k) % TWO32
  {
    var c1 := if a + f < TWO32 then 0 else 1;
    var c2 := if Add(a, f) + w < TWO32 then 0 else 1;
    var s2 := Add(Add(a, f), w);
    var c3 := if s2 + k < TWO32 then 0 else 1;
    assert Add(a, f) == a + f - c1 * TWO32 && s2 == Add(a, f) + w - c2 * TWO32;
    Carried(a + f + w + k, Add(s2, k), c1 + c2 + c3);
  }

  /** The words of the padded message. */
  const WORDS: seq<Word> := [
    0x64636261, 0x68676665, 0x6c6b6a69, 0x706f6e6d, 0x74737271, 0x78777675, 0x807a79, 0x0,
    0x0, 0x0, 0x0, 0x0, 0x0, 0x0, 0xd0, 0x0]

  /** Step i is given the word w, the constant k and the shift s. */
  predicate Given(i: nat, w: Word, k: Word, s: bv8)
    requires i < 64
  {
    WORDS[Schedule(i)] == w && Constant(i) == k && Shift(i) == s
  }

  /** After n steps. */
  ghost predicate Reached(n: nat, a: bv32, b: bv32, c: bv32, d: bv32)
    requires n <= 64
  {
    Rounds(WORDS, IV, n) == Regs(Int(a), Int(b), Int(c), Int(d))
  }

  lemma ReachWords(i: nat, a: Word, b: Word, c: Word, d: Word, f: Word, w: Word, k: Word, s: bv8,
                   t: Word, u: Word, r: Word)
    requires i < 64 && s <= 32 && Rounds(WORDS, IV, i) == Regs(a, b, c, d) && Given(i, w, k, s)
    requires Mixed(i, b, c, d) == f && (a + f + w + k) % TWO32 == t
    requires RotateLeft(t, s) == u && (u + b) % TWO32 == r
    ensures Rounds(WORDS, IV, i + 1) == Regs(d, r, b, c)
  {
    hide Step, Mixed, Constant, Shift, Schedule, RotateLeft;
    StepMixes(WORDS, i, Regs(a, b, c, d));
    SumOfFour(a, f, w, k);
  }

  /** One more step: f is mixed in, t is rotated to u, and r comes out. */
  lemma Reach(i: nat, a: bv32, b: bv32, c: bv32, d: bv32, f: bv32, w: Word, k: Word, s: bv8, t: bv32, u: bv32, r: bv32)
    requires i < 64 && s <= 32 && Reached(i, a, b, c, d) && Given(i, w, k, s)
    requires Mixed32(i, b, c, d) == f && Rotate32(t, s) == u
    requires (Int(a) + Int(f) + w + k) % TWO32 == Int(t) && (Int(u) + Int(b)) % TWO32 == Int(r)
    ensures Reached(i + 1, d, r, b, c)
  {
    hide Int, Rounds, Given, Mixed, Mixed32, RotateLeft, Rotate32;
    MixedIs(i, b, c, d);
    RotateIs(t, s);
    ReachWords(i, Int(a), Int(b), Int(c), Int(d), Int(f), w, k, s, Int(t), Int(u), Int(r));
  }

  lemma Given0()
    ensures Given(0, 0x64636261, 0xd76aa478, 7)
    ensures Given(1, 0x68676665, 0xe8c7b756, 12)
    ensures Given(2, 0x6c6b6a69, 0x242070db, 17)
    ensures Given(3, 0x706f6e6d, 0xc1bdceee, 22)
  {
  }

  lemma Given4()
    ensures Given(4, 0x74737271, 0xf57c0faf, 7)
    ensures Given(5, 0x78777675, 0x4787c62a, 12)
    ensures Given(6, 0x807a79, 0xa8304613, 17)
    ensures Given(7, 0x0, 0xfd469501, 22)
  {
  }

  lemma Given8()
    ensures Given(8, 0x0, 0x698098d8, 7)
    ensures Given(9, 0x0, 0x8b44f7af, 12)
    ensures Given(10, 0x0, 0xffff5bb1, 17)
    ensures Given(11, 0x0, 0x895cd7be, 22)
  {
  }

  lemma Given12()
    ensures Given(12, 0x0, 0x6b901122, 7)
    ensures Given(13, 0x0, 0xfd987193, 12)
    ensures Given(14, 0xd0, 0xa679438e, 17)
    ensures Given(15, 0x0, 0x49b40821, 22)
  {
  }

  lemma Given16()
    ensures Given(16, 0x68676665, 0xf61e2562, 5)
    ensures Given(17, 0x807a79, 0xc040b340, 9)
    ensures Given(18, 0x0, 0x265e5a51, 14)
    ensures Given(19, 0x64636261, 0xe9b6c7aa, 20)
  {
  }

  lemma Given20()
    ensures Given(20, 0x78777675, 0xd62f105d, 5)
    ensures Given(21, 0x0, 0x2441453, 9)
    ensures Given(22, 0x0, 0xd8a1e681, 14)
    ensures Given(23, 0x74737271, 0xe7d3fbc8, 20)
  {
  }

  lemma Given24()
    ensures Given(24, 0x0, 0x21e1cde6, 5)
    ensures Given(25, 0xd0, 0xc33707d6, 9)
    ensures Given(26, 0x706f6e6d, 0xf4d50d87, 14)
    ensures Given(27, 0x0, 0x455a14ed, 20)
  {
  }

  lemma Given28()
    ensures Given(28, 0x0, 0xa9e3e905, 5)
    ensures Given(29, 0x6c6b6a69, 0xfcefa3f8, 9)
    ensures Given(30, 0x0, 0x676f02d9, 14)
    ensures Given(31, 0x0, 0x8d2a4c8a, 20)
  {
  }

  lemma Given32()
    ensures Given(32, 0x78777675, 0xfffa3942, 4)
    ensures Given(33, 0x0, 0x8771f681, 11)
    ensures Given(34, 0x0, 0x6d9d6122, 16)
    ensures Given(35, 0xd0, 0xfde5380c, 23)
  {
  }

  lemma Given36()
    ensures Given(36, 0x68676665, 0xa4beea44, 4)
    ensures Given(37, 0x74737271, 0x4bdecfa9, 11)
    ensures Given(38, 0x0, 0xf6bb4b60, 16)
    ensures Given(39, 0x0, 0xbebfbc70, 23)
  {
  }

  lemma Given40()
    ensures Given(40, 0x0, 0x289b7ec6, 4)
    ensures Given(41, 0x64636261, 0xeaa127fa, 11)
    ensures Given(42, 0x706f6e6d, 0xd4ef3085, 16)
    ensures Given(43, 0x807a79, 0x4881d05, 23)
  {
  }

  lemma Given44()
    ensures Given(44, 0x0, 0xd9d4d039, 4)
    ensures Given(45, 0x0, 0xe6db99e5, 11)
    ensures Given(46, 0x0, 0x1fa27cf8, 16)
    ensures Given(47, 0x6c6b6a69, 0xc4ac5665, 23)
  {
  }

  lemma Given48()
    ensures Given(48, 0x64636261, 0xf4292244, 6)
    ensures Given(49, 0x0, 0x432aff97, 10)
    ensures Given(50, 0xd0, 0xab9423a7, 15)
    ensures Given(51, 0x78777675, 0xfc93a039, 21)
  {
  }

  lemma Given52()
    ensures Given(52, 0x0, 0x655b59c3, 6)
    ensures Given(53, 0x706f6e6d, 0x8f0ccc92, 10)
    ensures Given(54, 0x0, 0xffeff47d, 15)
    ensures Given(55, 0x68676665, 0x85845dd1, 21)
  {
  }

  lemma Given56()
    ensures Given(56, 0x0, 0x6fa87e4f, 6)
    ensures Given(57, 0x0, 0xfe2ce6e0, 10)
    ensures Given(58, 0x807a79, 0xa3014314, 15)
    ensures Given(59, 0x0, 0x4e0811a1, 21)
  {
  }

  lemma Given60()
    ensures Given(60, 0x74737271, 0xf7537e82, 6)
    ensures Given(61, 0x0, 0xbd3af235, 10)
    ensures Given(62, 0x6c6b6a69, 0x2ad7d2bb, 15)
    ensures Given(63, 0x0, 0xeb86d391, 21)
  {
  }

  lemma Steps8()
    ensures Reached(8, 0xfe15f787, 0xda9bbb0d, 0xb71122fc, 0xa811b278)
  {
    hide Step, Given;
    Given0();
    Given4();
    Reach(0, 0x67452301, 0xefcdab89, 0x98badcfe, 0x10325476, 0x98badcfe,
          0x64636261, 0xd76aa478, 7, 0x3bce06d8, 0xe7036c1d, 0xd6d117a6);
    Reach(1, 0x10325476, 0xd6d117a6, 0xefcdab89, 0x98badcfe, 0xceebcbd8,
          0x68676665, 0xe8c7b756, 12, 0x304d3e09, 0xd3e09304, 0xaab1aaaa);
    Reach(2, 0x98badcfe, 0xaab1aaaa, 0xd6d117a6, 0xefcdab89, 0xc7dd03a3,
          0x6c6b6a69, 0x242070db, 17, 0xf123bbe5, 0x77cbe247, 0x227d8cf1);
    Reach(3, 0xefcdab89, 0x227d8cf1, 0xaab1aaaa, 0xd6d117a6, 0xf6b19ba6,
          0x706f6e6d, 0xc1bdceee, 22, 0x18ac848a, 0x22862b21, 0x4503b812);
    Reach(4, 0xd6d117a6, 0x4503b812, 0x227d8cf1, 0xaab1aaaa, 0xaab18ab8,
          0x74737271, 0xf57c0faf, 7, 0xeb72247e, 0xb9123f75, 0xfe15f787);
    Reach(5, 0xaab1aaaa, 0xfe15f787, 0x4503b812, 0x227d8cf1, 0x4469b872,
          0x78777675, 0x4787c62a, 12, 0xaf1a9fbb, 0xa9fbbaf1, 0xa811b278);
    Reach(6, 0x227d8cf1, 0xa811b278, 0xfe15f787, 0x4503b812, 0xed13ba02,
          0x807a79, 0xa8304613, 17, 0xb842077f, 0xeff7084, 0xb71122fc);
    Reach(7, 0x4503b812, 0xb71122fc, 0xa811b278, 0xfe15f787, 0xe815f77b,
          0x0, 0xfd469501, 22, 0x2a60448e, 0x238a9811, 0xda9bbb0d);
  }

  lemma Steps16()
    requires Reached(8, 0xfe15f787, 0xda9bbb0d, 0xb71122fc, 0xa811b278)
    ensures Reached(16, 0x1754a316, 0x608d6b7e, 0xdf74d5, 0x85567d90)
  {
    hide Rounds, Step, Given;
    Given8();
    Given12();
    Reach(8, 0xfe15f787, 0xda9bbb0d, 0xb71122fc, 0xa811b278, 0xb211227c,
          0x0, 0x698098d8, 7, 0x19a7b2db, 0xd3d96d8c, 0xae752899);
    Reach(9, 0xa811b278, 0xae752899, 0xda9bbb0d, 0xb71122fc, 0x9b112a6d,
          0x0, 0x8b44f7af, 12, 0xce67d494, 0x7d494ce6, 0x2bbe757f);
    Reach(10, 0xb71122fc, 0x2bbe757f, 0xae752899, 0xda9bbb0d, 0xfa35aa19,
          0x0, 0xffff5bb1, 17, 0xb14628c6, 0x518d628c, 0x7d4bd80b);
    Reach(11, 0xda9bbb0d, 0x7d4bd80b, 0x2bbe757f, 0xae752899, 0xab3e709b,
          0x0, 0x895cd7be, 22, 0xf370366, 0xd983cdc0, 0x56cfa5cb);
    Reach(12, 0xae752899, 0x56cfa5cb, 0x7d4bd80b, 0x2bbe757f, 0x7d7bd03f,
          0x0, 0x6b901122, 7, 0x978109fa, 0xc084fd4b, 0x1754a316);
    Reach(13, 0x2bbe757f, 0x1754a316, 0x56cfa5cb, 0x7d4bd80b, 0x7e4ff90b,
          0x0, 0xfd987193, 12, 0xa7a6e01d, 0x6e01da7a, 0x85567d90);
    Reach(14, 0x7d4bd80b, 0x85567d90, 0x1754a316, 0x56cfa5cb, 0x57dda15b,
          0xd0, 0xa679438e, 17, 0x7ba2bdc4, 0x7b88f745, 0xdf74d5);
    Reach(15, 0x56cfa5cb, 0xdf74d5, 0x85567d90, 0x1754a316, 0x1756f792,
          0x0, 0x49b40821, 22, 0xb7daa57e, 0x5fadf6a9, 0x608d6b7e);
  }

  lemma Steps24()
    requires Reached(16, 0x1754a316, 0x608d6b7e, 0xdf74d5, 0x85567d90)
    ensures Reached(24, 0x570c43e0, 0xc9f162d4, 0xc28ab49d, 0x977efd2a)
  {
    hide Rounds, Step, Given;
    Given16();
    Given20();
    Reach(16, 0x1754a316, 0x608d6b7e, 0xdf74d5, 0x85567d90, 0x8d6955,
          0x68676665, 0xf61e2562, 5, 0x76679832, 0xccf3064e, 0x2d8071cc);
    Reach(17, 0x85567d90, 0x2d8071cc, 0x608d6b7e, 0xdf74d5, 0x60807bee,
          0x807a79, 0xc040b340, 9, 0xa6982737, 0x304e6f4d, 0x5dcee119);
    Reach(18, 0xdf74d5, 0x5dcee119, 0x2d8071cc, 0x608d6b7e, 0x4d8c7198,
          0x0, 0x265e5a51, 14, 0x74ca40be, 0x902f9d32, 0xedfe7e4b);
    Reach(19, 0x608d6b7e, 0xedfe7e4b, 0x5dcee119, 0x2d8071cc, 0x7dcef059,
          0x64636261, 0xe9b6c7aa, 20, 0x2c7685e2, 0x5e22c768, 0x4c2145b3);
    Reach(20, 0x2d8071cc, 0x4c2145b3, 0xedfe7e4b, 0x5dcee119, 0xec305f53,
          0x78777675, 0xd62f105d, 5, 0x685757f1, 0xaeafe2d, 0x570c43e0);
    Reach(21, 0x5dcee119, 0x570c43e0, 0x4c2145b3, 0xedfe7e4b, 0x450d43f0,
          0x0, 0x2441453, 9, 0xa520395c, 0x4072b94a, 0x977efd2a);
    Reach(22, 0xedfe7e4b, 0x977efd2a, 0x570c43e0, 0x4c2145b3, 0x172c4762,
          0x0, 0xd8a1e681, 14, 0xddccac2e, 0x2b0bb773, 0xc28ab49d);
    Reach(23, 0x4c2145b3, 0xc28ab49d, 0x977efd2a, 0x570c43e0, 0xc27abc8a,
          0x74737271, 0xe7d3fbc8, 20, 0x6ae37076, 0x766ae37, 0xc9f162d4);
  }

  lemma Steps32()
    requires Reached(24, 0x570c43e0, 0xc9f162d4, 0xc28ab49d, 0x977efd2a)
    ensures Reached(32, 0xf54d8710, 0xaeb35766, 0x2e69afc7, 0x927b72e2)
  {
    hide Rounds, Step, Given;
    Given24();
    Given28();
    Reach(24, 0x570c43e0, 0xc9f162d4, 0xc28ab49d, 0x977efd2a, 0xc1f06095,
          0x0, 0x21e1cde6, 5, 0x3ade725b, 0x5bce4b67, 0x25bfae3b);
    Reach(25, 0x977efd2a, 0x25bfae3b, 0xc9f162d4, 0xc28ab49d, 0x9fbe659,
          0xd0, 0xc33707d6, 9, 0x64b1ec29, 0x63d852c9, 0x89980104);
    Reach(26, 0xc28ab49d, 0x89980104, 0x25bfae3b, 0xc9f162d4, 0xad9e8c2f,
          0x706f6e6d, 0xf4d50d87, 14, 0xd56dbcc0, 0x6f30355b, 0xf8c8365f);
    Reach(27, 0xc9f162d4, 0xf8c8365f, 0x89980104, 0x25bfae3b, 0xa888271f,
          0x0, 0x455a14ed, 20, 0xb7d39ee0, 0xee0b7d39, 0xe6d3b398);
    Reach(28, 0x25bfae3b, 0xe6d3b398, 0xf8c8365f, 0x89980104, 0xf0d0375b,
          0x0, 0xa9e3e905, 5, 0xc073ce9b, 0xe79d378, 0xf54d8710);
    Reach(29, 0x89980104, 0xf54d8710, 0xe6d3b398, 0xf8c8365f, 0xf65b8790,
          0x6c6b6a69, 0xfcefa3f8, 9, 0xe94e96f5, 0x9d2debd2, 0x927b72e2);
    Reach(30, 0xf8c8365f, 0x927b72e2, 0xf54d8710, 0xe6d3b398, 0x935f3680,
          0x0, 0x676f02d9, 14, 0xf3966fb8, 0x9bee3ce5, 0x2e69afc7);
    Reach(31, 0xe6d3b398, 0x2e69afc7, 0x927b72e2, 0xf54d8710, 0x267bf7e2,
          0x0, 0x8d2a4c8a, 20, 0x9a79f804, 0x8049a79f, 0xaeb35766);
  }

  lemma Steps40()
    requires Reached(32, 0xf54d8710, 0xaeb35766, 0x2e69afc7, 0x927b72e2)
    ensures Reached(40, 0xb9c0c733, 0x8d41bf99, 0x23a9451b, 0xf1e6dc7a)
  {
    hide Rounds, Step, Given;
    Given32();
    Given36();
    Reach(32, 0xf54d8710, 0xaeb35766, 0x2e69afc7, 0x927b72e2, 0x12a18a43,
          0x78777675, 0xfffa3942, 4, 0x8060c10a, 0x60c10a8, 0xb4bf680e);
    Reach(33, 0x927b72e2, 0xb4bf680e, 0xaeb35766, 0x2e69afc7, 0x346590af,
          0x0, 0x8771f681, 11, 0x4e52fa12, 0x97d09272, 0x4c8ffa80);
    Reach(34, 0x2e69afc7, 0x4c8ffa80, 0xb4bf680e, 0xaeb35766, 0x5683c5e8,
          0x0, 0x6d9d6122, 16, 0xf28ad6d1, 0xd6d1f28a, 0x2361ed0a);
    Reach(35, 0xaeb35766, 0x2361ed0a, 0x4c8ffa80, 0xb4bf680e, 0xdb517f84,
          0xd0, 0xfde5380c, 23, 0x87ea0fc6, 0xe343f507, 0x6a5e211);
    Reach(36, 0xb4bf680e, 0x6a5e211, 0x2361ed0a, 0x4c8ffa80, 0x694bf59b,
          0x68676665, 0xa4beea44, 4, 0x2b31ae52, 0xb31ae522, 0xb9c0c733);
    Reach(37, 0x4c8ffa80, 0xb9c0c733, 0x6a5e211, 0x2361ed0a, 0x9c04c828,
          0x74737271, 0x4bdecfa9, 11, 0xa8e704c2, 0x38261547, 0xf1e6dc7a);
    Reach(38, 0x2361ed0a, 0xf1e6dc7a, 0xb9c0c733, 0x6a5e211, 0x4e83f958,
          0x0, 0xf6bb4b60, 16, 0x68a131c2, 0x31c268a1, 0x23a9451b);
    Reach(39, 0x6a5e211, 0x23a9451b, 0xf1e6dc7a, 0xb9c0c733, 0x6b8f5e52,
          0x0, 0xbebfbc70, 23, 0x30f4fcd3, 0x69987a7e, 0x8d41bf99);
  }

  lemma Steps48()
    requires Reached(40, 0xb9c0c733, 0x8d41bf99, 0x23a9451b, 0xf1e6dc7a)
    ensures Reached(48, 0xb5d41f9c, 0x71d10367, 0x703d54d8, 0xa04b4904)
  {
    hide Rounds, Step, Given;
    Given40();
    Given44();
    Reach(40, 0xb9c0c733, 0x8d41bf99, 0x23a9451b, 0xf1e6dc7a, 0x5f0e26f8,
          0x0, 0x289b7ec6, 4, 0x416a6cf1, 0x16a6cf14, 0xa3e88ead);
    Reach(41, 0xf1e6dc7a, 0xa3e88ead, 0x8d41bf99, 0x23a9451b, 0xd00742f,
          0x64636261, 0xeaa127fa, 11, 0x4debdb04, 0x5ed8226f, 0x2c0b11c);
    Reach(42, 0x23a9451b, 0x2c0b11c, 0xa3e88ead, 0x8d41bf99, 0x2c698028,
          0x706f6e6d, 0xd4ef3085, 16, 0x95716435, 0x64359571, 0x66f6468d);
    Reach(43, 0x8d41bf99, 0x66f6468d, 0x2c0b11c, 0xa3e88ead, 0xc7de793c,
          0x807a79, 0x4881d05, 23, 0x5a28d053, 0x29ad1468, 0x90a35af5);
    Reach(44, 0xa3e88ead, 0x90a35af5, 0x66f6468d, 0x2c0b11c, 0xf495ad64,
          0x0, 0xd9d4d039, 4, 0x72530c4a, 0x2530c4a7, 0xb5d41f9c);
    Reach(45, 0x2c0b11c, 0xb5d41f9c, 0x90a35af5, 0x66f6468d, 0x438103e4,
          0x0, 0xe6db99e5, 11, 0x2d1d4ee5, 0xea772968, 0xa04b4904);
    Reach(46, 0x66f6468d, 0xa04b4904, 0xb5d41f9c, 0x90a35af5, 0x853c0c6d,
          0x0, 0x1fa27cf8, 16, 0xbd4cff2, 0xcff20bd4, 0x703d54d8);
    Reach(47, 0x90a35af5, 0x703d54d8, 0xa04b4904, 0xb5d41f9c, 0x65a20240,
          0x6c6b6a69, 0xc4ac5665, 23, 0x275d1e03, 0x193ae8f, 0x71d10367);
  }

  lemma Steps56()
    requires Reached(48, 0xb5d41f9c, 0x71d10367, 0x703d54d8, 0xa04b4904)
    ensures Reached(56, 0xc1e942f1, 0x83877d1b, 0x23a68048, 0xd9bb987c)
  {
    hide Rounds, Step, Given;
    Given48();
    Given52();
    Reach(48, 0xb5d41f9c, 0x71d10367, 0x703d54d8, 0xa04b4904, 0xfc8e327,
          0x64636261, 0xf4292244, 6, 0x1e298768, 0x8a61da07, 0xfc32dd6e);
    Reach(49, 0xa04b4904, 0xfc32dd6e, 0x71d10367, 0x703d54d8, 0x8e23fc08,
          0x0, 0x432aff97, 10, 0x719a44a3, 0x69128dc6, 0x65456b34);
    Reach(50, 0x703d54d8, 0x65456b34, 0xfc32dd6e, 0x71d10367, 0x135d22d2,
          0xd0, 0xab9423a7, 15, 0x2f2e9c21, 0x4e109797, 0xb35602cb);
    Reach(51, 0x71d10367, 0xb35602cb, 0x65456b34, 0xfc32dd6e, 0xd69a49ef,
          0x78777675, 0xfc93a039, 21, 0xbd766404, 0x8097aecc, 0x33edb197);
    Reach(52, 0xfc32dd6e, 0x33edb197, 0xb35602cb, 0x65456b34, 0x8a9b714,
          0x0, 0x655b59c3, 6, 0x6a37ee45, 0x8dfb915a, 0xc1e942f1);
    Reach(53, 0x65456b34, 0xc1e942f1, 0x33edb197, 0xb35602cb, 0xfe044e62,
          0x706f6e6d, 0x8f0ccc92, 10, 0x62c5f495, 0x17d2558b, 0xd9bb987c);
    Reach(54, 0xb35602cb, 0xd9bb987c, 0xc1e942f1, 0x33edb197, 0x1c529c8d,
          0x0, 0xffeff47d, 15, 0xcf9893d5, 0x49eae7cc, 0x23a68048);
    Reach(55, 0x33edb197, 0x23a68048, 0xd9bb987c, 0xc1e942f1, 0xe60d2532,
          0x68676665, 0x85845dd1, 21, 0x7e69aff, 0x5fe0fcd3, 0x83877d1b);
  }

  lemma Steps64()
    requires Reached(56, 0xc1e942f1, 0x83877d1b, 0x23a68048, 0xd9bb987c)
    ensures Reached(64, 0x708ed9c2, 0x1116e6d8, 0xd38f1e7f, 0x2baf1354)
  {
    hide Rounds, Step, Given;
    Given56();
    Given60();
    Reach(56, 0xc1e942f1, 0x83877d1b, 0x23a68048, 0xd9bb987c, 0x8461ffd3,
          0x0, 0x6fa87e4f, 6, 0xb5f3c113, 0x7cf044ed, 0x77c208);
    Reach(57, 0xd9bb987c, 0x77c208, 0x83877d1b, 0x23a68048, 0x5ff882a4,
          0x0, 0xfe2ce6e0, 10, 0x37e10200, 0x840800df, 0x847fc2e7);
    Reach(58, 0x23a68048, 0x847fc2e7, 0x77c208, 0x83877d1b, 0xfc0800ef,
          0x807a79, 0xa3014314, 15, 0xc3303ec4, 0x1f626198, 0xa3e2247f);
    Reach(59, 0x83877d1b, 0xa3e2247f, 0x847fc2e7, 0x77c208, 0x7b95ff18,
          0x0, 0x4e0811a1, 21, 0x4d258dd4, 0xba89a4b1, 0x5e6bc930);
    Reach(60, 0x77c208, 0x5e6bc930, 0xa3e2247f, 0x847fc2e7, 0xdc09d947,
          0x74737271, 0xf7537e82, 6, 0x48488c42, 0x12231092, 0x708ed9c2);
    Reach(61, 0x847fc2e7, 0x708ed9c2, 0x5e6bc930, 0xa3e2247f, 0x22f412f2,
          0x0, 0xbd3af235, 10, 0x64aec80e, 0xbb203992, 0x2baf1354);
    Reach(62, 0xa3e2247f, 0x2baf1354, 0x708ed9c2, 0x5e6bc930, 0xdb31ee1d,
          0x6c6b6a69, 0x2ad7d2bb, 15, 0x16574fc0, 0xa7e00b2b, 0xd38f1e7f);
    Reach(63, 0x5e6bc930, 0xd38f1e7f, 0x2baf1354, 0x708ed9c2, 0xf4502d2b,
          0x0, 0xeb86d391, 21, 0x3e42c9ec, 0x3d87c859, 0x1116e6d8);
  }

  lemma AllSteps()
    ensures Reached(64, 0x708ed9c2, 0x1116e6d8, 0xd38f1e7f, 0x2baf1354)
  {
    hide Reached;
    Steps8();
    Steps16();
    Steps24();
    Steps32();
    Steps40();
    Steps48();
    Steps56();
    Steps64();
  }

  // ----- the message and its digest --------------------------------------------------------------

  const MESSAGE := "abcdefghijklmnopqrstuvwxyz"

  /** Byte i of the padded message. */
  function PaddedByte(i: nat): Byte {
    if i < 26 then 97 + i else if i == 26 then 0x80 else if i == 56 then 208 else 0
  }

  lemma Letters(i: nat)
    requires i < 26
    ensures MESSAGE[i] as int == 97 + i
  {
  }

  lemma {:induction false} EncodeTwo(a: Word, b: Word)
    ensures Encode([a, b]) == WordBytes(a) + WordBytes(b)
  {
    assert [a, b][..1] == [a] && [a][..0] == [];
    assert Encode([a]) == WordBytes(a);
  }

  lemma PaddedMessage()
    ensures var p := Padded(CharBytes(MESSAGE)); |p| == 64 && forall i :: 0 <= i < 64 ==> p[i] == PaddedByte(i)
  {
    hide Encode;
    var bs := CharBytes(MESSAGE);
    EncodeTwo(208, 0);
    assert LengthBytes(26) == WordBytes(208) + WordBytes(0);
    forall i | 0 <= i < 26 ensures bs[i] == 97 + i {
      Letters(i);
    }
  }

  lemma {:induction false} DecodeIs(bs: seq<Byte>, ws: seq<Word>)
    requires |bs| == 4 * |ws| && forall j :: 0 <= j < |ws| ==> BytesWord(bs[4 * j..4 * j + 4]) == ws[j]
    ensures Decode(bs) == ws
    decreases |ws|
  {
    hide BytesWord;
    if ws != [] {
      var n := |ws| - 1;
      forall j | 0 <= j < n ensures BytesWord(bs[..4 * n][4 * j..4 * j + 4]) == ws[..n][j] {
        assert bs[..4 * n][4 * j..4 * j + 4] == bs[4 * j..4 * j + 4];
      }
      DecodeIs(bs[..4 * n], ws[..n]);
      assert bs[4 * n..4 * n + 4] == bs[4 * n..];
    }
  }

  lemma WordAt(j: nat)
    requires j < 16
    ensures PaddedByte(4 * j) + 0x100 * (PaddedByte(4 * j + 1)
            + 0x100 * (PaddedByte(4 * j + 2) + 0x100 * PaddedByte(4 * j + 3))) == WORDS[j]
  {
    if j < 8 {
      assert j == 0 || j == 1 || j == 2 || j == 3 || j == 4 || j == 5 || j == 6 || j == 7;
    } else {
      assert j == 8 || j == 9 || j == 10 || j == 11 || j == 12 || j == 13 || j == 14 || j == 15;
    }
  }

  /** The padded message is one block, whose words these are. */
  lemma WordsOfMessage()
    ensures var p := Padded(CharBytes(MESSAGE)); |p| == 64 && Decode(p) == WORDS
  {
    hide Padded, CharBytes, PaddedByte, Decode;
    var p := Padded(CharBytes(MESSAGE));
    PaddedMessage();
    forall j | 0 <= j < 16 ensures BytesWord(p[4 * j..4 * j + 4]) == WORDS[j] {
      WordAt(j);
    }
    DecodeIs(p, WORDS);
  }

  lemma OneBlock(p: seq<Byte>)
    requires |p| == 64
    ensures Blocks(IV, p) == Compress(IV, p)
  {
    hide Compress;
    assert p[..0] == [] && p[0..] == p;
  }

  lemma RegsOfMessage()
    ensures Blocks(IV, Padded(CharBytes(MESSAGE))) == Regs(0xd7d3fcc3, 0xe49261, 0x6c49fb7d, 0x3be167ca)
  {
    hide Padded, CharBytes, Decode, Rounds, Blocks;
    WordsOfMessage();
    OneBlock(Padded(CharBytes(MESSAGE)));
    AllSteps();
  }

  lemma {:induction false} HexConcat(xs: seq<Byte>, ys: seq<Byte>)
    ensures Hex(xs + ys) == Hex(xs) + Hex(ys)
    decreases |ys|
  {
    hide HexByte;
    if ys == [] {
      assert xs + ys == xs;
    } else {
      var n := |ys| - 1;
      assert (xs + ys)[..|xs| + n] == xs + ys[..n];
      HexConcat(xs, ys[..n]);
    }
  }

  lemma HexFour(a: Byte, b: Byte, c: Byte, d: Byte)
    ensures Hex([a, b, c, d]) == HexByte(a) + HexByte(b) + HexByte(c) + HexByte(d)
  {
    hide HexByte;
    assert [a, b, c, d][..3] == [a, b, c] && [a, b, c][..2] == [a, b] && [a, b][..1] == [a] && [a][..0] == [];
    assert Hex([]) == "" && Hex([a]) == HexByte(a) && Hex([a, b]) == HexByte(a) + HexByte(b);
  }

  lemma EncodeFour(a: Word, b: Word, c: Word, d: Word)
    ensures Encode([a, b, c, d]) == WordBytes(a) + WordBytes(b) + (WordBytes(c) + WordBytes(d))
  {
    hide WordBytes;
    assert [a, b, c, d][..3] == [a, b, c] && [a, b, c][..2] == [a, b];
    EncodeTwo(a, b);
    assert Encode([a, b, c]) == WordBytes(a) + WordBytes(b) + WordBytes(c);
  }

  lemma HexOfA()
    ensures Hex(WordBytes(0xd7d3fcc3)) == "c3fcd3d7"
  {
    hide Hex;
    HexFour(0xc3, 0xfc, 0xd3, 0xd7);
  }

  lemma HexOfB()
    ensures Hex(WordBytes(0xe49261)) == "6192e400"
  {
    hide Hex;
    HexFour(0x61, 0x92, 0xe4, 0x0);
  }

  lemma HexOfC()
    ensures Hex(WordBytes(0x6c49fb7d)) == "7dfb496c"
  {
    hide Hex;
    HexFour(0x7d, 0xfb, 0x49, 0x6c);
  }

  lemma HexOfD()
    ensures Hex(WordBytes(0x3be167ca)) == "ca67e13b"
  {
    hide Hex;
    HexFour(0xca, 0x67, 0xe1, 0x3b);
  }

  /** MD5 ("abcdefghijklmnopqrstuvwxyz"). */
  lemma DigestOfMessage()
    ensures HexDigest(MESSAGE) == "c3fcd3d76192e400" + "7dfb496cca67e13b"
  {
    hide Blocks, Padded, CharBytes, Encode, Hex, WordBytes;
    RegsOfMessage();
    EncodeFour(0xd7d3fcc3, 0xe49261, 0x6c49fb7d, 0x3be167ca);
    HexOfA();
    HexOfB();
    HexOfC();
    HexOfD();
    var ab, cd := WordBytes(0xd7d3fcc3) + WordBytes(0xe49261), WordBytes(0x6c49fb7d) + WordBytes(0x3be167ca);
    HexConcat(WordBytes(0xd7d3fcc3), WordBytes(0xe49261));
    HexConcat(WordBytes(0x6c49fb7d), WordBytes(0x3be167ca));
    HexConcat(ab, cd);
    assert Hex(ab) == "c3fcd3d7" + "6192e400" && Hex(cd) == "7dfb496c" + "ca67e13b";
  }
}
