/** The Base64 loops of base64/decoder.cpp, proved to compute the functions of module Base64. */
module Base64Codec {
  import opened Bytes
  import opened CStrings
  import opened Base64

  lemma UpperSymbols(s: Sextet)
    requires s < 26
    ensures Symbol(s) as int == 65 + s
  {
    assert Symbol(s) == "ABCDEFGHIJKLMNOPQRSTUVWXYZ"[s];
  }

  lemma LowerSymbols(s: Sextet)
    requires 26 <= s < 52
    ensures Symbol(s) as int == 97 + (s - 26)
  {
    assert Symbol(s) == "abcdefghijklmnopqrstuvwxyz"[s - 26];
  }

  lemma OtherSymbols(s: Sextet)
    requires 52 <= s
    ensures Symbol(s) as int == if s < 62 then 48 + (s - 52) else if s == 62 then 43 else 47
  {
    assert Symbol(s) == "0123456789+/"[s - 52];
  }

  /** No two cells of the encoding table are equal. */
  lemma SymbolInjective(s: Sextet, t: Sextet)
    requires Symbol(s) == Symbol(t)
    ensures s == t
  {
    hide Symbol;
    SymbolCode(s);
    SymbolCode(t);
  }

  lemma SymbolCode(s: Sextet)
    ensures Symbol(s) as int ==
            if s < 26 then 65 + s else if s < 52 then 97 + (s - 26)
            else if s < 62 then 48 + (s - 52) else if s == 62 then 43 else 47
  {
    hide Symbol;
    if s < 26 {
      UpperSymbols(s);
    } else if s < 52 {
      LowerSymbols(s);
    } else {
      OtherSymbols(s);
    }
  }

  /** Fills the decoding table; cells outside the alphabet keep whatever they held. */
  method Init(table: array<int>)
    requires table.Length == 256
    modifies table
    ensures Ready(table[..])
    ensures forall c :: 0 <= c < 256 && (forall s: Sextet :: Symbol(s) as int != c) ==> table[c] == old(table[c])
  {
    for i := 0 to 64
      invariant forall s: Sextet :: s < i ==> table[Symbol(s) as int] == s
      invariant forall c :: 0 <= c < 256 && (forall s: Sextet :: Symbol(s) as int != c) ==> table[c] == old(table[c])
    {
      hide Symbol;
      var s: Sextet := i;
      forall t: Sextet | t != s ensures Symbol(t) != Symbol(s) {
        if Symbol(t) == Symbol(s) {
          SymbolInjective(s, t);
        }
      }
      table[Symbol(s) as int] := i;
    }
  }

  // ----- encoding --------------------------------------------------------------------------------

  /** The shifts and masks of the encoder pick the four sextets. */
  lemma Shifts(t: Triple)
    ensures var triple := t.a as int * 0x10000 + t.b as int * 0x100 + t.c as int;
            triple / 0x40000 % 64 == ToQuad(t).a && triple / 0x1000 % 64 == ToQuad(t).b
            && triple / 64 % 64 == ToQuad(t).c && triple % 64 == ToQuad(t).d
  {
    var a: int, b: int, c: int := t.a, t.b, t.c;
    var q := ToQuad(t);
    var t0 := a * 0x10000 + b * 0x100 + c;
    var t1 := a * 1024 + b * 4 + c / 64;
    var t2 := a * 16 + b / 16;
    DivMod64(t0, t1, q.d);
    DivMod64(t1, t2, q.c);
    DivMod64(t2, q.a, q.b);
    Shift12(t0, t2, t0 - 0x1000 * t2);
    Shift18(t0, q.a, t0 - 0x40000 * q.a as int);
  }

  lemma Shift12(x: nat, q: nat, r: nat)
    requires x == 0x1000 * q + r && r < 0x1000
    ensures x / 0x1000 == q
  {
  }

  lemma Shift18(x: nat, q: nat, r: nat)
    requires x == 0x40000 * q + r && r < 0x40000
    ensures x / 0x40000 == q
  {
  }

  /** A group before padding: the symbols of the zero bits are written first. */
  function RawGroup(data: seq<Byte>): (e: string)
    requires 1 <= |data| <= 3
    ensures |e| == 4
  {
    var q := ToQuad(Triple(data[0], if |data| > 1 then data[1] else 0, if |data| > 2 then data[2] else 0));
    [Symbol(q.a), Symbol(q.b), Symbol(q.c), Symbol(q.d)]
  }

  function RawText(data: seq<Byte>): (e: string)
    ensures |e| == 4 * GroupCount(|data|)
  {
    if data == [] then ""
    else if |data| <= 3 then RawGroup(data)
    else RawGroup(data[..3]) + RawText(data[3..])
  }

  /** mod_table */
  function Padding(n: nat): nat {
    if n % 3 == 1 then 2 else if n % 3 == 2 then 1 else 0
  }

  function Equals(n: nat): (s: string)
    ensures |s| == n && forall i :: 0 <= i < n ==> s[i] == '='
  {
    if n == 0 then "" else ['='] + Equals(n - 1)
  }

  lemma GroupPadded(data: seq<Byte>)
    requires 1 <= |data| <= 3
    ensures Padding(|data|) <= 2 && GroupText(data) == RawGroup(data)[..4 - Padding(|data|)] + Equals(Padding(|data|))
  {
    assert Equals(0) == "" && Equals(1) == "=" && Equals(2) == "==";
  }

  /** Overwriting the last symbols by equals signs gives the padded text. */
  lemma {:induction false} RawPadded(data: seq<Byte>)
    ensures var p := Padding(|data|);
            p <= |RawText(data)| && Encoded(data) == RawText(data)[..|RawText(data)| - p] + Equals(p)
  {
    hide GroupText, RawGroup;
    var p := Padding(|data|);
    if data == [] {
      assert RawText(data) + Equals(0) == "";
    } else if |data| <= 3 {
      GroupPadded(data);
    } else {
      var g, rest := RawGroup(data[..3]), RawText(data[3..]);
      RawPadded(data[3..]);
      GroupPadded(data[..3]);
      assert (|data| - 3) % 3 == |data| % 3;
      assert (g + rest)[..|g + rest| - p] == g + rest[..|rest| - p];
      assert g[..4] + Equals(0) == g;
    }
  }

  /** One group: the shifts and masks applied to up to three bytes. */
  method EncodeGroup(data: seq<Byte>) returns (g: string)
    requires 1 <= |data| <= 3
    ensures g == RawGroup(data)
  {
    hide Symbol;
    var a: Byte := data[0];
    var b: Byte := if |data| > 1 then data[1] else 0;
    var c: Byte := if |data| > 2 then data[2] else 0;
    Shifts(Triple(a, b, c));
    var triple: int := a as int * 0x10000 + b as int * 0x100 + c as int;
    var s0: Sextet, s1: Sextet := triple / 0x40000 % 64, triple / 0x1000 % 64;
    var s2: Sextet, s3: Sextet := triple / 64 % 64, triple % 64;
    g := [Symbol(s0), Symbol(s1), Symbol(s2), Symbol(s3)];
  }

  lemma RawNone()
    ensures RawText([]) == "" && GroupCount(0) == 0 && Equals(0) == ""
  {
  }

  lemma RawStep(rest: seq<Byte>, n: nat)
    requires rest != [] && n == if |rest| < 3 then |rest| else 3
    ensures RawText(rest) == RawGroup(rest[..n]) + RawText(rest[n..])
    ensures GroupCount(|rest|) == 1 + GroupCount(|rest| - n)
  {
    hide RawGroup;
    if |rest| <= 3 {
      assert rest[..n] == rest && rest[n..] == [] && RawGroup(rest) + "" == RawGroup(rest);
    }
  }

  /** Writes the groups, padding not yet marked. */
  method EncodeRaw(data: seq<Byte>, encoded: array<char>)
    requires encoded.Length == 4 * GroupCount(|data|) + 1
    modifies encoded
    ensures encoded[..4 * GroupCount(|data|)] == RawText(data)
  {
    hide RawGroup, Encoded, ToQuad, RawText, GroupCount;
    var i, j := 0, 0;
    assert data[0..] == data && "" + RawText(data) == RawText(data);
    RawNone();
    while i < |data|
      invariant 0 <= i <= |data| && 0 <= j && j + 4 * GroupCount(|data| - i) == encoded.Length - 1
      invariant encoded[..j] + RawText(data[i..]) == RawText(data)
    {
      var n := if |data| - i < 3 then |data| - i else 3;
      var g := EncodeGroup(data[i..i + n]);
      RawStep(data[i..], n);
      assert data[i..][..n] == data[i..i + n] && data[i..][n..] == data[i + n..];
      StoreGroup(encoded, j, g);
      i, j := i + n, j + 4;
    }
    assert encoded[..j] + "" == encoded[..j];
  }

  method StoreGroup(out: array<char>, j: nat, g: string)
    requires |g| == 4 && j + 4 <= out.Length
    modifies out
    ensures out[..j + 4] == old(out[..j]) + g
  {
    out[j] := g[0];
    out[j + 1] := g[1];
    out[j + 2] := g[2];
    out[j + 3] := g[3];
  }

  /** The text fills all cells but the last, which holds the terminator. */
  method Base64Encode(data: seq<Byte>) returns (encoded: array<char>)
    ensures fresh(encoded) && encoded.Length == 4 * GroupCount(|data|) + 1
    ensures encoded[..encoded.Length - 1] == Encoded(data) && encoded[encoded.Length - 1] == '\0'
  {
    hide RawText, Encoded, GroupCount;
    var outputLength := 4 * GroupCount(|data|);
    encoded := new char[outputLength + 1];
    EncodeRaw(data, encoded);
    RawPadded(data);
    var p := Padding(|data|);
    for k := 0 to p
      invariant encoded[..outputLength] == RawText(data)[..outputLength - k] + Equals(k)
    {
      encoded[outputLength - 1 - k] := '=';
      assert encoded[..outputLength] == RawText(data)[..outputLength - k - 1] + Equals(k + 1);
    }
    encoded[outputLength] := '\0';
  }

  // ----- decoding --------------------------------------------------------------------------------

  /** Group k gives bytes 3 * k to 3 * k + 2. */
  lemma {:induction false} AllBytesAt(table: seq<int>, data: string, k: nat)
    requires |table| == 256 && |data| % 4 == 0 && Ascii(data) && 4 * k + 4 <= |data|
    ensures AllBytes(table, data)[3 * k..3 * k + 3] == GroupBytes(table, data[4 * k..4 * k + 4])
    decreases k
  {
    hide GroupBytes;
    var all := AllBytes(table, data);
    if k == 0 {
      assert all[..3] == GroupBytes(table, data[..4]);
    } else {
      AllBytesAt(table, data[4..], k - 1);
      assert data[4..][4 * k - 4..4 * k] == data[4 * k..4 * k + 4];
      assert all[3 * k..3 * k + 3] == AllBytes(table, data[4..])[3 * k - 3..3 * k];
    }
  }

  /** Stores the bytes of all groups, as far as they fit. */
  method DecodeGroups(table: seq<int>, data: string, out: array<Byte>)
    requires |table| == 256 && |data| % 4 == 0 && Ascii(data) && 4 * out.Length <= 3 * |data|
    modifies out
    ensures out[..] == AllBytes(table, data)[..out.Length]
  {
    hide AllBytes, GroupBytes;
    ghost var all := AllBytes(table, data);
    var i, j := 0, 0;
    ghost var k := 0;
    while i < |data|
      invariant 0 <= i == 4 * k <= |data|
      invariant j == if 3 * k <= out.Length then 3 * k else out.Length
      invariant out[..j] == all[..j]
    {
      AllBytesAt(table, data, k);
      var bytes := GroupBytes(table, data[i..i + 4]);
      assert bytes == all[3 * k..3 * k + 3];
      j := StoreBytes(out, j, bytes);
      i, k := i + 4, k + 1;
    }
    assert out[..j] == out[..];
  }

  /** NULL for a length that is no multiple of four. The bytes follow in order, cut at the length. */
  method Base64Decode(table: seq<int>, data: string) returns (decoded: Option<seq<Byte>>)
    requires |table| == 256 && data != "" && Ascii(data)
    ensures decoded == Decoded(table, data)
  {
    hide AllBytes;
    if |data| % 4 != 0 {
      return None;
    }
    var outputLength := |data| / 4 * 3;
    if data[|data| - 1] == '=' {
      outputLength := outputLength - 1;
    }
    if data[|data| - 2] == '=' {
      outputLength := outputLength - 1;
    }
    var decodedData := new Byte[outputLength];
    DecodeGroups(table, data, decodedData);
    return Some(decodedData[..]);
  }

  /** The three guarded stores at the end of a round. */
  method StoreBytes(out: array<Byte>, j: nat, bytes: seq<Byte>) returns (j': nat)
    requires j <= out.Length && |bytes| == 3
    modifies out
    ensures j' == if j + 3 <= out.Length then j + 3 else out.Length
    ensures out[..j'] == old(out[..j]) + bytes[..j' - j]
  {
    j' := j;
    if j' < out.Length {
      out[j'] := bytes[0];
      j' := j' + 1;
    }
    if j' < out.Length {
      out[j'] := bytes[1];
      j' := j' + 1;
    }
    if j' < out.Length {
      out[j'] := bytes[2];
      j' := j' + 1;
    }
  }
}
