/** server/ipaddrlist.cpp: a doubly linked list of addresses with times, proved to be a sequence. */
module AddressList {

  datatype Entry = Entry(ip: string, time: int)

  /** Index of the first entry of that address, -1 when there is none. */
  function IndexOfIp(es: seq<Entry>, ip: string): (i: int)
    ensures -1 <= i < |es|
    ensures i >= 0 ==> es[i].ip == ip && forall j :: 0 <= j < i ==> es[j].ip != ip
    ensures i < 0 ==> forall j :: 0 <= j < |es| ==> es[j].ip != ip
  {
    if es == [] then -1
    else if es[0].ip == ip then 0
    else
      var i := IndexOfIp(es[1..], ip);
      if i < 0 then -1 else i + 1
  }

  /** The entry at i is the first of that address. */
  ghost predicate First(es: seq<Entry>, ip: string, i: int) {
    0 <= i < |es| && es[i].ip == ip && forall j :: 0 <= j < i ==> es[j].ip != ip
  }

  lemma FirstIs(es: seq<Entry>, ip: string)
    ensures forall i :: First(es, ip, i) <==> i >= 0 && i == IndexOfIp(es, ip)
  {
  }

  function Remove<T>(s: seq<T>, i: nat): seq<T>
    requires i < |s|
  {
    s[..i] + s[i + 1..]
  }

  /** A record passes when its time is negative or long enough ago. */
  function Ripe(e: Entry, now: int, minTime: int): bool {
    e.time < 0 || now - e.time >= minTime
  }

  class Record {
    const ipAddress: string
    const createTime: int
    var next: Record?
    var prev: Record?

    constructor (ip: string, time: int)
      ensures ipAddress == ip && createTime == time && next == null && prev == null
    {
      ipAddress, createTime := ip, time;
      next, prev := null, null;
    }

    function E(): Entry {
      Entry(ipAddress, createTime)
    }
  }

  function Entries(nodes: seq<Record>): (es: seq<Entry>)
    ensures |es| == |nodes| && forall i :: 0 <= i < |nodes| ==> es[i] == nodes[i].E()
  {
    seq(|nodes|, i requires 0 <= i < |nodes| => nodes[i].E())
  }

  lemma EntriesCut(nodes: seq<Record>, i: nat)
    requires i < |nodes|
    ensures Entries(Remove(nodes, i)) == Remove(Entries(nodes), i)
  {
  }

  class AddressList {
    var head: Record?
    var last: Record?
    var size: nat
    /** The records in order. */
    ghost var nodes: seq<Record>

    ghost predicate Linked()
      reads this, nodes
    {
      && (forall i, j :: 0 <= i < j < |nodes| ==> nodes[i] != nodes[j])
      && (forall i {:trigger nodes[i].next} :: 0 <= i < |nodes| - 1 ==> nodes[i].next == nodes[i + 1])
      && (forall i {:trigger nodes[i].prev} :: 1 <= i < |nodes| ==> nodes[i].prev == nodes[i - 1])
      && (nodes != [] ==> nodes[0].prev == null && nodes[|nodes| - 1].next == null)
    }

    ghost predicate Valid()
      reads this, nodes
    {
      && size == |nodes|
      && head == (if size > 0 then nodes[0] else null)
      && last == (if size > 0 then nodes[size - 1] else null)
      && Linked()
    }

    /** The list as a sequence of entries. */
    ghost function View(): seq<Entry>
      reads this
    {
      Entries(nodes)
    }

    constructor ()
      ensures Valid() && View() == [] && nodes == []
    {
      head, last, size, nodes := null, null, 0, [];
    }

    method AddElement(ip: string, now: int) returns (newSize: nat)
      requires Valid()
      modifies this, nodes
      ensures Valid() && View() == old(View()) + [Entry(ip, now)] && newSize == size
      ensures |nodes| == old(|nodes|) + 1 && nodes[..|nodes| - 1] == old(nodes) && fresh(nodes[|nodes| - 1])
    {
      var elem := new Record(ip, now);
      if size == 0 {
        head, last := elem, elem;
      } else {
        last.next := elem;
        elem.prev := last;
        last := elem;
      }
      size := size + 1;
      nodes := nodes + [elem];
      newSize := size;
    }

    /** Relinks around the record at idx; -1 when there is no such record. */
    method DeleteElement(idx: int) returns (rc: int)
      requires Valid()
      modifies this, nodes
      ensures Valid()
      ensures rc == if 0 <= idx < old(size) then size else -1
      ensures View() == if rc >= 0 then Remove(old(View()), idx) else old(View())
      ensures nodes == if rc >= 0 then Remove(old(nodes), idx) else old(nodes)
    {
      hide Linked, Entries;
      if idx < 0 || idx >= size {
        return -1;
      }
      EntriesCut(nodes, idx);
      if idx == 0 {
        UnlinkHead();
        assert nodes == old(nodes)[..0] + old(nodes)[1..];
      } else if idx == size - 1 {
        UnlinkLast();
        assert nodes == old(nodes)[..idx] + old(nodes)[idx + 1..];
      } else {
        UnlinkMiddle(idx);
      }
      return size;
    }

    method UnlinkHead()
      requires Valid() && size > 0
      modifies this, nodes
      ensures Valid() && nodes == old(nodes)[1..]
    {
      if size == 1 {
        head, last := null, null;
      } else {
        head := head.next;
        head.prev := null;
      }
      size := size - 1;
      nodes := nodes[1..];
    }

    method UnlinkLast()
      requires Valid() && size > 1
      modifies this, nodes
      ensures Valid() && nodes == old(nodes)[..old(size) - 1]
    {
      last := last.prev;
      last.next := null;
      size := size - 1;
      nodes := nodes[..size];
    }

    method UnlinkMiddle(idx: nat)
      requires Valid() && 0 < idx < size - 1
      modifies this, nodes
      ensures Valid() && nodes == old(nodes)[..idx] + old(nodes)[idx + 1..]
    {
      var elem := Walk(idx);
      elem.prev.next := elem.next;
      elem.next.prev := elem.prev;
      size := size - 1;
      nodes := nodes[..idx] + nodes[idx + 1..];
    }

    /** The record at a position in range, from the head. */
    method Walk(idx: nat) returns (elem: Record)
      requires Valid() && idx < size
      ensures elem == nodes[idx]
    {
      elem := head;
      for i := 0 to idx
        invariant elem == nodes[i]
      {
        elem := elem.next;
      }
    }

    method GetElement(idx: int) returns (elem: Record?)
      requires Valid()
      ensures elem == if 0 <= idx < size then nodes[idx] else null
    {
      if idx < 0 || idx >= size {
        return null;
      }
      elem := Walk(idx);
    }

    method FindIPAddress(ip: string) returns (result: int)
      requires Valid()
      ensures result == IndexOfIp(View(), ip) && size == |View()| == |nodes|
    {
      var elem, i := head, 0;
      while elem != null
        invariant 0 <= i <= size && elem == (if i < size then nodes[i] else null)
        invariant forall j :: 0 <= j < i ==> nodes[j].ipAddress != ip
        decreases size - i
      {
        if elem.ipAddress == ip {
          return i;
        }
        elem, i := elem.next, i + 1;
      }
      return -1;
    }

    method ShouldAcceptConnection(ip: string, now: int, minTime: int) returns (accept: bool)
      requires Valid()
      ensures accept <==> IndexOfIp(View(), ip) >= 0 && Ripe(View()[IndexOfIp(View(), ip)], now, minTime)
      ensures accept <==> exists i :: First(View(), ip, i) && (View()[i].time < 0 || now - View()[i].time >= minTime)
    {
      var i := FindIPAddress(ip);
      var elem := GetElement(i);
      FirstIs(View(), ip);
      return elem != null && (elem.createTime < 0 || now - elem.createTime >= minTime);
    }
  }
}
