/** Base64 as base64/decoder.cpp writes and reads it (section 4 of RFC 4648). */
module Base64 {
  import opened Bytes
  import opened CStrings

  type Sextet = x: int | 0 <= x < 64

  const ENCODING_TABLE := "ABCDEFGHIJKLMNOPQRSTUVWXYZ" + "abcdefghijklmnopqrstuvwxyz" + "0123456789+/"

  function Symbol(s: Sextet): (c: char)
    ensures c as int < 128 && c != '='
  {
    ENCODING_TABLE[s]
  }

  // ----- 24 bits as three bytes and as four sextets ----------------------------------------------

  datatype Quad = Quad(a: Sextet, b: Sextet, c: Sextet, d: Sextet)

  datatype Triple = Triple(a: Byte, b: Byte, c: Byte)

  function ToQuad(t: Triple): Quad {
    var a: int, b: int, c: int := t.a, t.b, t.c;
    Quad(a / 4, a % 4 * 16 + b / 16, b % 16 * 4 + c / 64, c % 64)
  }

  function ToTriple(q: Quad): Triple {
    var a: int, b: int, c: int, d: int := q.a, q.b, q.c, q.d;
    Triple(a * 4 + b / 16, b % 16 * 16 + c / 4, c % 4 * 64 + d)
  }

  lemma DivMod64(x: nat, q: nat, r: nat)
    requires r < 64 && x == 64 * q + r
    ensures x / 64 == q && x % 64 == r
  {
  }

  lemma DivMod256(x: nat, q: nat, r: nat)
    requires r < 256 && x == 256 * q + r
    ensures x / 256 == q && x % 256 == r
  {
  }

  lemma DivMod16(x: nat, q: nat, r: nat)
    requires r < 16 && x == 16 * q + r
    ensures x / 16 == q && x % 16 == r
  {
  }

  lemma DivMod4(x: nat, q: nat, r: nat)
    requires r < 4 && x == 4 * q + r
    ensures x / 4 == q && x % 4 == r
  {
  }

  /** The two regroupings are inverse to each other. */
  lemma QuadTriple(t: Triple)
    ensures ToTriple(ToQuad(t)) == t
  {
    var a: int, b: int, c: int := t.a, t.b, t.c;
    DivMod16(a % 4 * 16 + b / 16, a % 4, b / 16);
    DivMod4(b % 16 * 4 + c / 64, b % 16, c / 64);
  }

  lemma TripleQuad(q: Quad)
    ensures ToQuad(ToTriple(q)) == q
  {
    var a: int, b: int, c: int, d: int := q.a, q.b, q.c, q.d;
    DivMod4(a * 4 + b / 16, a, b / 16);
    DivMod16(b % 16 * 16 + c / 4, b % 16, c / 4);
    DivMod64(c % 4 * 64 + d, c % 4, d);
  }

  // ----- the format ------------------------------------------------------------------------------

  /** One to three bytes as four symbols; missing bytes are padded with '='. */
  function GroupText(data: seq<Byte>): (e: string)
    requires 1 <= |data| <= 3
    ensures |e| == 4 && Ascii(e)
  {
    var q := ToQuad(Triple(data[0], if |data| > 1 then data[1] else 0, if |data| > 2 then data[2] else 0));
    [Symbol(q.a), Symbol(q.b), if |data| > 1 then Symbol(q.c) else '=', if |data| > 2 then Symbol(q.d) else '=']
  }

  /** Groups of three bytes; a last group may be shorter. */
  function Encoded(data: seq<Byte>): (e: string)
    ensures |e| == 4 * GroupCount(|data|) && Ascii(e)
  {
    if data == [] then ""
    else if |data| <= 3 then GroupText(data)
    else GroupText(data[..3]) + Encoded(data[3..])
  }

  function GroupCount(n: nat): (k: nat)
    ensures k == (n + 2) / 3
  {
    if n == 0 then 0 else if n <= 3 then 1 else 1 + GroupCount(n - 3)
  }

  /** The decoding table as Init leaves it: 256 cells, of which the alphabet's are known. */
  ghost predicate Ready(table: seq<int>) {
    |table| == 256 && forall s: Sextet :: table[Symbol(s) as int] == s
  }

  predicate Ascii(data: string) {
    forall i :: 0 <= i < |data| ==> data[i] as int < 128
  }

  /** One symbol's contribution, as the unsigned 32-bit number it becomes. */
  function Value(table: seq<int>, c: char): int
    requires |table| == 256 && c as int < 128
  {
    if c == '=' then 0 else table[c as int] % TWO32
  }

  /** The three bytes that four symbols stand for. */
  function GroupBytes(table: seq<int>, g: string): (bs: seq<Byte>)
    requires |table| == 256 && |g| == 4 && Ascii(g)
    ensures |bs| == 3
  {
    var triple: int := (Value(table, g[0]) * 0x40000 + Value(table, g[1]) * 0x1000
                        + Value(table, g[2]) * 64 + Value(table, g[3])) % TWO32;
    [triple / 0x10000 % 256, triple / 0x100 % 256, triple % 256]
  }

  function AllBytes(table: seq<int>, data: string): (bs: seq<Byte>)
    requires |table| == 256 && |data| % 4 == 0 && Ascii(data)
    ensures |bs| == |data| / 4 * 3
  {
    if data == "" then [] else GroupBytes(table, data[..4]) + AllBytes(table, data[4..])
  }

  /** How many bytes the text announces: three per group, less one for each final '='. */
  function OutputLength(data: string): int
    requires |data| >= 2
  {
    |data| / 4 * 3 - (if data[|data| - 1] == '=' then 1 else 0) - (if data[|data| - 2] == '=' then 1 else 0)
  }

  /** Base64Decode; None for a length that is no multiple of four. */
  function Decoded(table: seq<int>, data: string): Option<seq<Byte>>
    requires |table| == 256 && data != "" && Ascii(data)
  {
    if |data| % 4 != 0 then None
    else Some(AllBytes(table, data)[..OutputLength(data)])
  }

  // ----- round trips -----------------------------------------------------------------------------

  /** The bytes a data group of four symbols packs. */
  lemma QuadBytes(table: seq<int>, q: Quad, g: string)
    requires Ready(table) && |g| == 4 && Ascii(g)
    requires Value(table, g[0]) == q.a && Value(table, g[1]) == q.b
    requires Value(table, g[2]) == q.c && Value(table, g[3]) == q.d
    ensures GroupBytes(table, g) == [ToTriple(q).a, ToTriple(q).b, ToTriple(q).c]
  {
    var a: int, b: int, c: int, d: int := q.a, q.b, q.c, q.d;
    var triple: int := a * 0x40000 + b * 0x1000 + c * 64 + d;
    var t := ToTriple(q);
    assert triple == t.a as int * 0x10000 + t.b as int * 0x100 + t.c as int;
    TripleBytes(triple, t);
  }

  lemma TripleBytes(x: nat, t: Triple)
    requires x == t.a as int * 0x10000 + t.b as int * 0x100 + t.c as int
    ensures x % TWO32 == x
    ensures [x / 0x10000 % 256, x / 0x100 % 256, x % 256] == [t.a as int, t.b as int, t.c as int]
  {
    DivMod256(x, t.a as int * 0x100 + t.b as int, t.c);
    DivMod256(t.a as int * 0x100 + t.b as int, t.a, t.b);
    Shift16(x, t);
  }

  lemma Shift16(x: nat, t: Triple)
    requires x == t.a as int * 0x10000 + t.b as int * 0x100 + t.c as int
    ensures x / 0x10000 == t.a && x < TWO32
  {
  }

  /** Decoding one encoded group gives its bytes, and zeros in the padded places. */
  lemma GroupRoundTrip(table: seq<int>, data: seq<Byte>)
    requires Ready(table) && 1 <= |data| <= 3
    ensures GroupBytes(table, GroupText(data))[..|data|] == data
  {
    var t := Triple(data[0], if |data| > 1 then data[1] else 0, if |data| > 2 then data[2] else 0);
    var q := ToQuad(t);
    QuadTriple(t);
    SymbolValues(table, q);
    QuadBytes(table, q, GroupText(data));
  }

  lemma SymbolValues(table: seq<int>, q: Quad)
    requires Ready(table)
    ensures Value(table, Symbol(q.a)) == q.a && Value(table, Symbol(q.b)) == q.b
    ensures Value(table, Symbol(q.c)) == q.c && Value(table, Symbol(q.d)) == q.d
  {
    hide Symbol;
  }

  lemma {:induction false} AllBytesEncoded(table: seq<int>, data: seq<Byte>)
    requires Ready(table)
    ensures |data| <= |AllBytes(table, Encoded(data))| && AllBytes(table, Encoded(data))[..|data|] == data
  {
    hide GroupText, GroupBytes, Ready;
    if data != [] {
      var n := if |data| <= 3 then |data| else 3;
      var g, rest := GroupText(data[..n]), Encoded(data[n..]);
      assert data[..|data|] == data;
      assert Encoded(data) == g + rest by {
        assert |data| <= 3 ==> data[n..] == [] && g + "" == g;
      }
      assert (g + rest)[..4] == g && (g + rest)[4..] == rest;
      GroupRoundTrip(table, data[..n]);
      AllBytesEncoded(table, data[n..]);
    }
  }

  lemma GroupTail(data: seq<Byte>)
    requires 1 <= |data| <= 3
    ensures GroupText(data)[3] == '=' <==> |data| < 3
    ensures GroupText(data)[2] == '=' <==> |data| < 2
  {
  }

  /** The final equals signs tell how many bytes the last group has. */
  lemma {:induction false} EncodedLength(data: seq<Byte>)
    requires data != []
    ensures OutputLength(Encoded(data)) == |data|
  {
    hide GroupText;
    var e := Encoded(data);
    if |data| <= 3 {
      GroupTail(data);
    } else {
      var g, rest := GroupText(data[..3]), Encoded(data[3..]);
      EncodedLength(data[3..]);
      assert |rest| >= 4 && e[|e| - 1] == rest[|rest| - 1] && e[|e| - 2] == rest[|rest| - 2];
    }
  }

  /** Decoding undoes encoding, in all three padding cases. */
  lemma DecodeEncode(table: seq<int>, data: seq<Byte>)
    requires Ready(table) && data != []
    ensures Encoded(data) != "" && Decoded(table, Encoded(data)) == Some(data)
  {
    hide Ready, AllBytes;
    EncodedLength(data);
    AllBytesEncoded(table, data);
  }

  /** Four symbols for n bytes: the bits beyond those bytes are zero. */
  ghost predicate GroupOf(g: string, q: Quad, n: nat) {
    && 1 <= n <= 3
    && g == [Symbol(q.a), Symbol(q.b), if n > 1 then Symbol(q.c) else '=', if n > 2 then Symbol(q.d) else '=']
    && (n == 2 ==> q.c % 4 == 0 && q.d == 0)
    && (n == 1 ==> q.b % 16 == 0 && q.c == 0 && q.d == 0)
  }

  /** Text in the canonical form: full groups, then one group for one to three bytes. */
  ghost predicate Canonical(e: string) {
    if |e| <= 4 then exists q, n :: GroupOf(e, q, n)
    else (exists q :: GroupOf(e[..4], q, 3)) && Canonical(e[4..])
  }

  function QuadData(q: Quad, n: nat): (data: seq<Byte>)
    requires 1 <= n <= 3
    ensures |data| == n
  {
    [ToTriple(q).a, ToTriple(q).b, ToTriple(q).c][..n]
  }

  /** A canonical group is the encoding of its bytes. */
  lemma CanonicalGroup(g: string, q: Quad, n: nat)
    requires GroupOf(g, q, n)
    ensures GroupText(QuadData(q, n)) == g
  {
    hide Symbol;
    TripleQuad(q);
    var t, data := ToTriple(q), QuadData(q, n);
    if n == 1 {
      assert t.b == 0 && t.c == 0;
    } else if n == 2 {
      assert t.c == 0;
    }
    assert Triple(data[0], if |data| > 1 then data[1] else 0, if |data| > 2 then data[2] else 0) == t;
  }

  /** The canonical texts are exactly the encodings of the non-empty byte strings. */
  lemma {:induction false} CanonicalIsEncoded(e: string) returns (data: seq<Byte>)
    requires Canonical(e)
    ensures data != [] && e == Encoded(data)
  {
    hide GroupText, GroupOf, QuadData;
    if |e| <= 4 {
      var q, n :| GroupOf(e, q, n);
      GroupSize(e, q, n);
      CanonicalGroup(e, q, n);
      data := QuadData(q, n);
    } else {
      var q :| GroupOf(e[..4], q, 3);
      GroupSize(e[..4], q, 3);
      CanonicalGroup(e[..4], q, 3);
      var rest := CanonicalIsEncoded(e[4..]);
      data := QuadData(q, 3) + rest;
      assert data[..3] == QuadData(q, 3) && data[3..] == rest;
      assert e == e[..4] + e[4..];
    }
  }

  lemma GroupSize(g: string, q: Quad, n: nat)
    requires GroupOf(g, q, n)
    ensures 1 <= n <= 3
  {
  }

  lemma {:induction false} EncodedIsCanonical(data: seq<Byte>)
    requires data != []
    ensures Canonical(Encoded(data))
  {
    hide GroupText, GroupOf;
    if |data| <= 3 {
      var q := GroupCanonical(data);
    } else {
      var q := GroupCanonical(data[..3]);
      EncodedIsCanonical(data[3..]);
      var g, rest := GroupText(data[..3]), Encoded(data[3..]);
      assert (g + rest)[..4] == g && (g + rest)[4..] == rest;
    }
  }

  lemma GroupCanonical(data: seq<Byte>) returns (q: Quad)
    requires 1 <= |data| <= 3
    ensures GroupOf(GroupText(data), q, |data|)
  {
    hide Symbol;
    q := ToQuad(Triple(data[0], if |data| > 1 then data[1] else 0, if |data| > 2 then data[2] else 0));
  }

  /** Encoding undoes decoding on canonical text. */
  lemma EncodeDecode(table: seq<int>, e: string)
    requires Ready(table) && Canonical(e)
    ensures e != "" && Ascii(e) && Decoded(table, e).Some? && Encoded(Decoded(table, e).value) == e
  {
    hide Canonical, Ready, Decoded, Encoded;
    var data := CanonicalIsEncoded(e);
    DecodeEncode(table, data);
  }

  // ----- the alphabet and the order of the bits --------------------------------------------------

  /** The alphabet by character codes: capitals, small letters, digits, plus and slash. */
  lemma SymbolCodes(s: Sextet)
    ensures Symbol(s) as int == if s < 26 then 65 + s else if s < 52 then 97 + (s - 26)
                                else if s < 62 then 48 + (s - 52) else if s == 62 then 43 else 47
  {
  }

  /** Four sextets are the digits in base 64 of the number whose digits in base 256 are the three bytes. */
  lemma SameNumber(t: Triple)
    ensures var q := ToQuad(t);
            ((q.a * 64 + q.b) * 64 + q.c) * 64 + q.d == (t.a * 256 + t.b) * 256 + t.c
  {
  }

  lemma OneByteKnown()
    ensures Encoded([102]) == "Zg=="
  {
    hide Symbol;
    SymbolCodes(25);
    SymbolCodes(32);
  }

  lemma TwoBytesKnown()
    ensures Encoded([102, 111]) == "Zm8="
  {
    hide Symbol;
    SymbolCodes(25);
    SymbolCodes(38);
    SymbolCodes(60);
  }

  lemma ThreeBytesKnown()
    ensures Encoded([102, 111, 111]) == "Zm9v"
  {
    hide Symbol;
    SymbolCodes(25);
    SymbolCodes(38);
    SymbolCodes(61);
    SymbolCodes(47);
  }

  /** The test vectors of section 10 of RFC 4648 for one, two and three bytes. */
  lemma KnownEncodings()
    ensures Encoded([102]) == "Zg==" && Encoded([102, 111]) == "Zm8=" && Encoded([102, 111, 111]) == "Zm9v"
  {
    hide Encoded;
    OneByteKnown();
    TwoBytesKnown();
    ThreeBytesKnown();
  }

  lemma NineBytes(a: seq<Byte>, b: seq<Byte>, c: seq<Byte>)
    requires |a| == |b| == |c| == 3
    ensures Encoded(a + b + c) == GroupText(a) + GroupText(b) + GroupText(c)
  {
    hide GroupText, Encoded;
    FirstGroup(a, b + c);
    FirstGroup(b, c);
    OnlyGroup(c);
    assert a + b + c == a + (b + c);
    Joined(GroupText(a), GroupText(b), GroupText(c));
  }

  lemma FirstGroup(a: seq<Byte>, more: seq<Byte>)
    requires |a| == 3 && more != []
    ensures Encoded(a + more) == GroupText(a) + Encoded(more)
  {
    hide GroupText;
    assert (a + more)[..3] == a && (a + more)[3..] == more;
  }

  lemma OnlyGroup(a: seq<Byte>)
    requires |a| == 3
    ensures Encoded(a) == GroupText(a)
  {
    hide GroupText;
  }

  lemma Joined(a: string, b: string, c: string)
    ensures a + (b + c) == a + b + c
  {
  }

  /** "Username:" in Base64. */
  lemma UsernameEncoded()
    ensures Encoded([85, 115, 101, 114, 110, 97, 109, 101, 58]) == "VXNlcm5hbWU6"
  {
    UsernameGroups();
    hide GroupText, Encoded;
    var a: seq<Byte>, b: seq<Byte>, c: seq<Byte> := [85, 115, 101], [114, 110, 97], [109, 101, 58];
    NineBytes(a, b, c);
    assert a + b + c == [85, 115, 101, 114, 110, 97, 109, 101, 58];
  }

  lemma UsernameGroups()
    ensures GroupText([85, 115, 101]) == "VXNl"
    ensures GroupText([114, 110, 97]) == "cm5h"
    ensures GroupText([109, 101, 58]) == "bWU6"
  {
    hide Symbol;
    SymbolCodes(57);
    SymbolCodes(58);
    SymbolCodes(13);
    SymbolCodes(20);
    SymbolCodes(21);
    SymbolCodes(22);
    SymbolCodes(23);
    SymbolCodes(27);
    SymbolCodes(28);
    SymbolCodes(33);
    SymbolCodes(37);
    SymbolCodes(38);
  }

  /** "Password:" in Base64. */
  lemma PasswordEncoded()
    ensures Encoded([80, 97, 115, 115, 119, 111, 114, 100, 58]) == "UGFzc3dvcmQ6"
  {
    PasswordGroups();
    hide GroupText, Encoded;
    var a: seq<Byte>, b: seq<Byte>, c: seq<Byte> := [80, 97, 115], [115, 119, 111], [114, 100, 58];
    NineBytes(a, b, c);
    assert a + b + c == [80, 97, 115, 115, 119, 111, 114, 100, 58];
  }

  lemma PasswordGroups()
    ensures GroupText([80, 97, 115]) == "UGFz"
    ensures GroupText([115, 119, 111]) == "c3dv"
    ensures GroupText([114, 100, 58]) == "cmQ6"
  {
    hide Symbol;
    SymbolCodes(55);
    SymbolCodes(58);
    SymbolCodes(5);
    SymbolCodes(6);
    SymbolCodes(16);
    SymbolCodes(20);
    SymbolCodes(28);
    SymbolCodes(29);
    SymbolCodes(38);
    SymbolCodes(47);
    SymbolCodes(51);
  }
}
