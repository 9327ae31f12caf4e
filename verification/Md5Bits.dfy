/** What the functions of module Md5Spec do to each of the 32 bits of a word. */
module Md5Bits {
  import opened Md5Spec

  function Mask(i: bv8): (m: bv32)
    requires i < 32
    ensures m != 0
  {
    1 << i
  }

  /** x with all other bits cleared. */
  function At(x: bv32, i: bv8): bv32
    requires i < 32
  {
    x & Mask(i)
  }

  /** Bit i of x is one. */
  predicate Bit32(x: bv32, i: bv8)
    requires i < 32
  {
    At(x, i) != 0
  }

  lemma OneBit(x: bv32, i: bv8)
    requires i < 32
    ensures At(x, i) == 0 || At(x, i) == Mask(i)
  {
  }

  lemma RotateMask(n: bv8, i: bv8)
    requires n < 32 && i < 32
    ensures Rotate32(Mask(i), n) == Mask((i + n) % 32)
  {
  }

  lemma RotateAnd(x: bv32, y: bv32, n: bv8)
    requires n < 32
    ensures Rotate32(x & y, n) == Rotate32(x, n) & Rotate32(y, n)
  {
  }

  lemma RotateZero(x: bv32, n: bv8)
    requires n < 32
    ensures Rotate32(x, n) == 0 <==> x == 0
  {
  }

  // ----- bit by bit ------------------------------------------------------------------------------

  lemma FAt(x: bv32, y: bv32, z: bv32, i: bv8)
    requires i < 32
    ensures At(x, i) == Mask(i) ==> At(F32(x, y, z), i) == At(y, i)
    ensures At(x, i) == 0 ==> At(F32(x, y, z), i) == At(z, i)
  {
    hide Mask;
  }

  lemma GAt(x: bv32, y: bv32, z: bv32, i: bv8)
    requires i < 32
    ensures At(z, i) == Mask(i) ==> At(G32(x, y, z), i) == At(x, i)
    ensures At(z, i) == 0 ==> At(G32(x, y, z), i) == At(y, i)
  {
    hide Mask;
  }

  /** F takes y's bit where x has one, else z's. */
  lemma FBit32(x: bv32, y: bv32, z: bv32, i: bv8)
    requires i < 32
    ensures Bit32(F32(x, y, z), i) <==> if Bit32(x, i) then Bit32(y, i) else Bit32(z, i)
  {
    hide F32, Mask, At;
    FAt(x, y, z, i);
    OneBit(x, i);
  }

  /** G takes x's bit where z has one, else y's. */
  lemma GBit32(x: bv32, y: bv32, z: bv32, i: bv8)
    requires i < 32
    ensures Bit32(G32(x, y, z), i) <==> if Bit32(z, i) then Bit32(x, i) else Bit32(y, i)
  {
    hide G32, Mask, At;
    GAt(x, y, z, i);
    OneBit(z, i);
  }

  lemma HAt(x: bv32, y: bv32, z: bv32, i: bv8)
    requires i < 32
    ensures At(y, i) == At(z, i) ==> At(H32(x, y, z), i) == At(x, i)
    ensures At(y, i) != At(z, i) ==> At(H32(x, y, z), i) == Mask(i) ^ At(x, i)
  {
    OneBit(y, i);
    OneBit(z, i);
    hide Mask;
  }

  lemma IAt(x: bv32, y: bv32, z: bv32, i: bv8)
    requires i < 32
    ensures At(x, i) == Mask(i) ==> At(I32(x, y, z), i) == Mask(i) ^ At(y, i)
    ensures At(z, i) == 0 ==> At(I32(x, y, z), i) == Mask(i) ^ At(y, i)
  {
    hide Mask;
  }

  lemma IKeeps(x: bv32, y: bv32, z: bv32, i: bv8)
    requires i < 32 && At(x, i) == 0 && At(z, i) == Mask(i)
    ensures At(I32(x, y, z), i) == At(y, i)
  {
    hide Mask;
  }

  lemma Flipped(x: bv32, i: bv8)
    requires i < 32
    ensures Mask(i) ^ At(x, i) != 0 <==> At(x, i) == 0
  {
    OneBit(x, i);
    hide Mask, At;
  }

  /** H is the parity of the three bits. */
  lemma HBit32(x: bv32, y: bv32, z: bv32, i: bv8)
    requires i < 32
    ensures Bit32(H32(x, y, z), i) <==> (Bit32(x, i) <==> (Bit32(y, i) <==> Bit32(z, i)))
  {
    hide H32, Mask, At;
    HAt(x, y, z, i);
    OneBit(y, i);
    OneBit(z, i);
    Flipped(x, i);
  }

  /** I differs from y exactly where x has a one or z a zero. */
  lemma IBit32(x: bv32, y: bv32, z: bv32, i: bv8)
    requires i < 32
    ensures Bit32(I32(x, y, z), i) != Bit32(y, i) <==> Bit32(x, i) || !Bit32(z, i)
  {
    hide I32, Mask, At;
    IAt(x, y, z, i);
    OneBit(x, i);
    OneBit(z, i);
    if At(x, i) == 0 && At(z, i) == Mask(i) {
      IKeeps(x, y, z, i);
    }
    Flipped(y, i);
  }

  /** Bit i moves n places up, and around from the top. */
  lemma RotateBit32(x: bv32, n: bv8, i: bv8)
    requires n < 32 && i < 32
    ensures Bit32(Rotate32(x, n), (i + n) % 32) <==> Bit32(x, i)
  {
    hide Rotate32, Mask;
    RotateMask(n, i);
    RotateAnd(x, Mask(i), n);
    RotateZero(x & Mask(i), n);
  }

  /** In 64 bits: x times 2^n modulo 2^32, plus what has gone past them. */
  lemma RotateWide(x: bv32, n: bv8)
    requires n < 32
    ensures var wide := x as bv64 << n; Rotate32(x, n) as bv64 == wide % 0x1_0000_0000 + wide / 0x1_0000_0000
  {
  }
}
