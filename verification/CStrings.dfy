/** C strings and the two scans over addresses that several parts of the server share. */
module CStrings {

  datatype Option<+T> = None | Some(value: T)

  /** Index of the first occurrence of c, or |s| when there is none. */
  function IndexOf(s: string, c: char): (k: nat)
    ensures k <= |s|
    ensures forall i :: 0 <= i < k ==> s[i] != c
    ensures k < |s| ==> s[k] == c
  {
    if s == [] || s[0] == c then 0 else 1 + IndexOf(s[1..], c)
  }

  /** Text without a line end or a terminator. */
  predicate OneLine(s: string) {
    '\n' !in s && '\0' !in s
  }

  /** The properties of IndexOf determine it. */
  lemma IndexOfUnique(s: string, c: char, k: nat)
    requires k <= |s| && (forall i :: 0 <= i < k ==> s[i] != c)
    requires k < |s| ==> s[k] == c
    ensures IndexOf(s, c) == k
  {
  }

  /** What a `const char *` pointing at this memory denotes: the characters before the first NUL. */
  function CStr(mem: string): (s: string)
    ensures '\0' !in s && |s| <= |mem|
  {
    mem[..IndexOf(mem, '\0')]
  }

  lemma CStrAt(mem: string, i: nat)
    requires '\0' in mem
    ensures |CStr(mem)| < |mem| && mem[|CStr(mem)|] == '\0'
    ensures i <= |CStr(mem)| ==> CStr(mem[i..]) == CStr(mem)[i..]
  {
    var k := IndexOf(mem, '\0');
    if i <= k {
      assert mem[i..][..k - i] == mem[..k][i..];
      IndexOfUnique(mem[i..], '\0', k - i);
    }
  }

  /** The single '@' of a well-formed address is at p. */
  ghost predicate OneAt(s: string, p: nat) {
    p < |s| && s[p] == '@' && forall i :: 0 <= i < |s| && s[i] == '@' ==> i == p
  }

  /** Position of the only '@', or -1 when there is none or there are several. */
  ghost function AtPos(s: string): (r: int)
    ensures r >= 0 ==> OneAt(s, r)
    ensures r < 0 ==> r == -1 && forall p: nat :: !OneAt(s, p)
  {
    if p: nat :| OneAt(s, p) then p else -1
  }

  /** What follows the '@'; the whole string when AtPos fails, because -1 + 1 == 0. */
  ghost function DomainOf(s: string): string {
    s[AtPos(s) + 1..]
  }

  /** Both FindAtSymbolInAddress members (session and message) are this loop. */
  method FindAtSymbol(address: string) returns (pos: int)
    ensures pos == AtPos(address)
  {
    var last, count := -1, 0;
    for i := 0 to |address|
      invariant count == 0 ==> last == -1 && '@' !in address[..i]
      invariant count >= 1 ==> 0 <= last < i && address[last] == '@'
      invariant count == 1 ==> forall j :: 0 <= j < i && address[j] == '@' ==> j == last
      invariant count >= 2 ==> exists j :: 0 <= j < last && address[j] == '@'
      invariant count >= 0
    {
      if address[i] == '@' {
        last, count := i, count + 1;
      }
    }
    assert address[..|address|] == address;
    pos := if count == 1 then last else -1;
    if count == 1 {
      assert OneAt(address, last);
    }
  }
}
