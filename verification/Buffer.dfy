/** server/buffer.cpp: a growable character buffer that hands out lines. */
module Buffer {
  import opened CStrings

  /** Bytes after the last LF: the part of the input no line has consumed. */
  function Tail(s: string): (t: string)
    ensures |t| <= |s|
  {
    var k := IndexOf(s, '\n');
    if k == |s| then s else Tail(s[k + 1..])
  }

  /** The line a reader sees: one CR before the LF is dropped, then the C string ends at the first NUL. */
  function Clean(raw: string): (line: string) {
    CStr(if raw != [] && raw[|raw| - 1] == '\r' then raw[..|raw| - 1] else raw)
  }

  /** All complete lines of s, cleaned, in order. */
  function Lines(s: string): seq<string> {
    var k := IndexOf(s, '\n');
    if k == |s| then [] else [Clean(s[..k])] + Lines(s[k + 1..])
  }

  lemma SeqAssoc<T>(a: seq<T>, b: seq<T>, c: seq<T>)
    ensures a + (b + c) == (a + b) + c
  {
  }

  /** A split at any byte loses nothing: what is left of x is read together with y. */
  lemma {:induction false} LinesSplit(x: string, y: string)
    ensures Lines(x + y) == Lines(x) + Lines(Tail(x) + y)
    ensures Tail(x + y) == Tail(Tail(x) + y)
    decreases |x|
  {
    var k := IndexOf(x, '\n');
    if k < |x| {
      var line, rest := x[..k], x[k + 1..];
      IndexOfUnique(x + y, '\n', k);
      assert (x + y)[..k] == line && (x + y)[k + 1..] == rest + y;
      LinesSplit(rest, y);
      SeqAssoc([Clean(line)], Lines(rest), Lines(Tail(rest) + y));
    } else {
      assert [] + Lines(x + y) == Lines(x + y);
    }
  }

  /** The tail never holds an LF, so a buffer that has been drained yields no line. */
  lemma {:induction false} TailHasNoLine(s: string)
    ensures '\n' !in Tail(s) && Lines(Tail(s)) == [] && Tail(Tail(s)) == Tail(s)
    decreases |s|
  {
    var k := IndexOf(s, '\n');
    if k < |s| {
      TailHasNoLine(s[k + 1..]);
    }
  }

  lemma FirstLine(s: string)
    requires '\n' in s
    ensures var k := IndexOf(s, '\n');
      k < |s| && Lines(s) == [Clean(s[..k])] + Lines(s[k + 1..]) && Tail(s) == Tail(s[k + 1..])
  {
  }

  /** A line sent with CRLF is read back as it is. */
  lemma LineFirst(line: string, rest: string)
    requires OneLine(line)
    ensures Lines(line + "\r\n" + rest) == [line] + Lines(rest)
    ensures Tail(line + "\r\n" + rest) == Tail(rest)
  {
    var t := line + "\r\n" + rest;
    var k := |line| + 1;
    assert t[k] == '\n' && t[..k] == line + "\r" && t[k + 1..] == rest;
    IndexOfUnique(t, '\n', k);
    assert (line + "\r")[..|line|] == line;
    assert line[..|line|] == line;
    IndexOfUnique(line, '\0', |line|);
  }

  class InoutBuffer {
    var data: array<char>
    var datalen: nat
    var maxlen: nat

    ghost predicate Valid()
      reads this, data
    {
      maxlen == data.Length && 0 < maxlen && datalen <= maxlen
    }

    /** The buffered bytes. */
    ghost function View(): string
      reads this, data
      requires Valid()
    {
      data[..datalen]
    }

    constructor ()
      ensures Valid() && View() == "" && fresh(data) && data.Length == 512
    {
      data := new char[512];
      maxlen := 512;
      datalen := 0;
    }

    method ProvideMaxLen(n: nat)
      requires Valid()
      modifies this`data, this`maxlen
      ensures Valid() && View() == old(View()) && n <= maxlen && maxlen >= old(maxlen)
      ensures data == old(data) || fresh(data)
    {
      if n <= maxlen {
        return;
      }
      var newlen := maxlen;
      while newlen < n
        invariant maxlen <= newlen
        decreases n - newlen
      {
        newlen := newlen * 2;
      }
      var newbuf := new char[newlen];
      forall i | 0 <= i < datalen {
        newbuf[i] := data[i];
      }
      assert newbuf[..datalen] == data[..datalen];
      data := newbuf;
      maxlen := newlen;
    }

    method AddData(buf: string)
      requires Valid()
      modifies this, data
      ensures Valid() && View() == old(View()) + buf
      ensures data == old(data) || fresh(data)
    {
      ProvideMaxLen(datalen + |buf|);
      forall i | 0 <= i < |buf| {
        data[datalen + i] := buf[i];
      }
      datalen := datalen + |buf|;
      assert View() == old(View()) + buf;
    }

    method AddChar(c: char)
      requires Valid()
      modifies this, data
      ensures Valid() && View() == old(View()) + [c]
      ensures data == old(data) || fresh(data)
    {
      ProvideMaxLen(datalen + 1);
      data[datalen] := c;
      datalen := datalen + 1;
      assert View() == old(View()) + [c];
    }

    /** Removes up to size bytes at index and closes the gap. */
    method EraseData(index: nat, size: nat)
      requires Valid() && index <= datalen
      modifies this`datalen, data
      ensures Valid()
      ensures View() == old(View())[..index]
                        + (if index + size >= old(datalen) then "" else old(View())[index + size..])
    {
      ghost var was := View();
      if index + size >= datalen {
        datalen := index;
      } else {
        forall i | index <= i < datalen - size {
          data[i] := data[i + size];
        }
        datalen := datalen - size;
      }
      assert View() == was[..index] + (if index + size >= |was| then "" else was[index + size..]);
    }

    /** Moves up to size bytes from the front into buf. */
    method GetData(buf: array<char>, size: nat) returns (count: nat)
      requires Valid() && buf != data && size <= buf.Length
      modifies this`datalen, data, buf
      ensures Valid()
      ensures count == if size >= old(datalen) then old(datalen) else size
      ensures buf[..] == old(View())[..count] + old(buf[..])[count..]
      ensures View() == old(View())[count..]
    {
      ghost var was, mem := View(), buf[..];
      count := if size >= datalen then datalen else size;
      forall i | 0 <= i < count {
        buf[i] := data[i];
      }
      assert buf[..] == was[..count] + mem[count..];
      EraseData(0, count);
      assert View() == was[count..];
    }

    /**
     * Takes the first line. The destination ends up holding a C string; the bytes after its NUL are
     * whatever the destination held before.
     */
    method ReadLine(dest: InoutBuffer) returns (ok: bool)
      requires Valid() && dest.Valid() && this != dest && data != dest.data
      modifies this`datalen, data, dest, dest.data
      ensures Valid() && dest.Valid()
      ensures dest.data == old(dest.data) || fresh(dest.data)
      ensures dest.maxlen >= old(dest.maxlen)
      ensures ok <==> '\n' in old(View())
      ensures !ok ==> View() == old(View()) && dest.View() == old(dest.View())
      ensures ok ==> Lines(old(View())) == [CStr(dest.data[..])] + Lines(View())
      ensures ok ==> '\0' in dest.data[..] && |View()| < |old(View())|
      ensures Tail(View()) == Tail(old(View()))
    {
      hide Lines, Tail, Clean, CStr, IndexOf;
      ghost var was := View();
      var crindex := 0;
      while crindex < datalen && data[crindex] != '\n'
        invariant crindex <= datalen
        invariant forall i :: 0 <= i < crindex ==> was[i] != '\n'
      {
        crindex := crindex + 1;
      }
      if crindex == datalen {
        return false;
      }
      IndexOfUnique(was, '\n', crindex);
      FirstLine(was);
      TakeLine(dest, crindex);
      return true;
    }

    /** Moves the first crindex bytes and the LF behind them; NULs take the place of the line end. */
    method TakeLine(dest: InoutBuffer, crindex: nat)
      requires Valid() && dest.Valid() && this != dest && data != dest.data
      requires crindex < datalen && IndexOf(View(), '\n') == crindex
      modifies this`datalen, data, dest, dest.data
      ensures Valid() && dest.Valid()
      ensures dest.data == old(dest.data) || fresh(dest.data)
      ensures dest.maxlen >= old(dest.maxlen)
      ensures View() == old(View())[crindex + 1..]
      ensures '\0' in dest.data[..] && CStr(dest.data[..]) == Clean(old(View())[..crindex])
    {
      hide Clean, CStr, IndexOf;
      ghost var was := View();
      dest.ProvideMaxLen(crindex + 1);
      var _ := GetData(dest.data, crindex + 1);
      dest.datalen := crindex;
      dest.data[crindex] := '\0';
      if crindex > 0 && dest.data[crindex - 1] == '\r' {
        dest.data[crindex - 1] := '\0';
      }
      LineInMemory(dest.data[..], was[..crindex]);
    }
  }

  /** Writing NUL over the LF, and over a CR before it, leaves the cleaned line as the C string. */
  lemma LineInMemory(mem: string, raw: string)
    requires |raw| < |mem| && mem[|raw|] == '\0'
    requires forall i :: 0 <= i < |raw| - 1 ==> mem[i] == raw[i]
    requires raw != [] ==> mem[|raw| - 1] == if raw[|raw| - 1] == '\r' then '\0' else raw[|raw| - 1]
    ensures '\0' in mem && CStr(mem) == Clean(raw)
  {
    var n := |raw|;
    var kept := if n > 0 && raw[n - 1] == '\r' then raw[..n - 1] else raw;
    var k := IndexOf(kept, '\0');
    assert mem[..k] == kept[..k];
    assert mem[k] == '\0';
    IndexOfUnique(mem, '\0', k);
  }
}
