/** The connection decision of server/main.cpp over runs of connections. */
module Greylist {
  import opened AddressList
  import opened CStrings

  datatype Lists = Lists(black: seq<Entry>, initialWhite: seq<Entry>, white: seq<Entry>, gray: seq<Entry>)

  /** One incoming connection. */
  datatype Event = Event(now: int, ip: string)

  predicate Listed(es: seq<Entry>, ip: string) {
    IndexOfIp(es, ip) >= 0
  }

  /** Accept or decline, and what happens to the gray and white lists. */
  function Step(s: Lists, e: Event, minTime: int): (Lists, bool) {
    if Listed(s.black, e.ip) then (s, false)
    else if Listed(s.initialWhite, e.ip) || Listed(s.white, e.ip) then (s, true)
    else
      var i := IndexOfIp(s.gray, e.ip);
      if i < 0 then (s.(gray := s.gray + [Entry(e.ip, e.now)]), false)
      else if Ripe(s.gray[i], e.now, minTime) then
        (s.(gray := Remove(s.gray, i), white := s.white + [Entry(e.ip, e.now)]), true)
      else (s, false)
  }

  function After(s: Lists, es: seq<Event>, minTime: int): Lists {
    if es == [] then s else Step(After(s, es[..|es| - 1], minTime), es[|es| - 1], minTime).0
  }

  /** Whether connection k of the run was accepted. */
  predicate Accepted(s: Lists, es: seq<Event>, k: nat, minTime: int)
    requires k < |es|
  {
    Step(After(s, es[..k], minTime), es[k], minTime).1
  }

  // ----- the lists stay tidy ---------------------------------------------------------------------

  ghost predicate NoDuplicates(es: seq<Entry>) {
    forall i, j :: 0 <= i < j < |es| ==> es[i].ip != es[j].ip
  }

  ghost predicate Disjoint(xs: seq<Entry>, ys: seq<Entry>) {
    forall i, j :: 0 <= i < |xs| && 0 <= j < |ys| ==> xs[i].ip != ys[j].ip
  }

  ghost predicate Tidy(s: Lists) {
    NoDuplicates(s.white) && NoDuplicates(s.gray) && Disjoint(s.gray, s.white)
  }

  lemma AppendTidy(es: seq<Entry>, e: Entry)
    requires NoDuplicates(es) && !Listed(es, e.ip)
    ensures NoDuplicates(es + [e])
  {
  }

  lemma RemoveTidy(es: seq<Entry>, i: nat)
    requires NoDuplicates(es) && i < |es|
    ensures NoDuplicates(Remove(es, i)) && !Listed(Remove(es, i), es[i].ip)
    ensures forall j :: 0 <= j < |es| - 1 ==> Remove(es, i)[j] == es[if j < i then j else j + 1]
  {
  }

  lemma StepTidy(s: Lists, e: Event, minTime: int)
    requires Tidy(s)
    ensures Tidy(Step(s, e, minTime).0)
  {
    var added := Entry(e.ip, e.now);
    if !Listed(s.white, e.ip) {
      var i := IndexOfIp(s.gray, e.ip);
      if i < 0 {
        AppendTidy(s.gray, added);
      } else {
        AppendTidy(s.white, added);
        RemoveTidy(s.gray, i);
        hide NoDuplicates;
        var gray := Remove(s.gray, i);
        hide Remove;
        assert Disjoint(gray, s.white + [added]);
      }
    }
  }

  /** Gray and white stay disjoint and free of duplicates. */
  lemma {:induction false} RunTidy(s: Lists, es: seq<Event>, minTime: int)
    requires Tidy(s)
    ensures Tidy(After(s, es, minTime))
  {
    if es != [] {
      RunTidy(s, es[..|es| - 1], minTime);
      StepTidy(After(s, es[..|es| - 1], minTime), es[|es| - 1], minTime);
    }
  }

  // ----- exactly who is accepted -----------------------------------------------------------------

  ghost predicate Monotone(es: seq<Event>) {
    forall i, j :: 0 <= i < j < |es| ==> es[i].now <= es[j].now
  }

  /** Time of the first connection from the address. */
  function FirstSeen(es: seq<Event>, ip: string): (t: Option<int>)
    ensures t.None? ==> forall i :: 0 <= i < |es| ==> es[i].ip != ip
    ensures t.Some? ==>
              exists i :: 0 <= i < |es| && es[i] == Event(t.value, ip) && forall j :: 0 <= j < i ==> es[j].ip != ip
  {
    if es == [] then None
    else
      var t := FirstSeen(es[..|es| - 1], ip);
      if t.Some? then t
      else if es[|es| - 1].ip == ip then Some(es[|es| - 1].now)
      else None
  }

  /** When the address was recorded: the time loaded with the gray list, else its first connection. */
  function KnownSince(s: Lists, es: seq<Event>, ip: string): Option<int> {
    var i := IndexOfIp(s.gray, ip);
    if i >= 0 then Some(s.gray[i].time) else FirstSeen(es, ip)
  }

  predicate Passes(known: Option<int>, now: int, minTime: int) {
    known.Some? && (known.value < 0 || now - known.value >= minTime)
  }

  /** Where the run has got to with an address that was on no black or white list. */
  ghost predicate Tracked(s: Lists, es: seq<Event>, s': Lists, ip: string, minTime: int) {
    var known, i := KnownSince(s, es, ip), IndexOfIp(s'.gray, ip);
    if Listed(s'.white, ip) then es != [] && Passes(known, es[|es| - 1].now, minTime)
    else if i < 0 then known.None?
    else known == Some(s'.gray[i].time)
  }

  /** Another address is removed: the first entry of ip keeps its time. */
  lemma OthersLeaveIt(es: seq<Entry>, k: nat, ip: string)
    requires k < |es| && es[k].ip != ip
    ensures Listed(Remove(es, k), ip) <==> Listed(es, ip)
    ensures Listed(es, ip) ==> Remove(es, k)[IndexOfIp(Remove(es, k), ip)] == es[IndexOfIp(es, ip)]
  {
    hide IndexOfIp;
    var b := Remove(es, k);
    var i, j := IndexOfIp(es, ip), IndexOfIp(b, ip);
    assert forall n :: 0 <= n < |b| ==> b[n] == es[if n < k then n else n + 1];
    if i >= 0 {
      assert b[if i < k then i else i - 1] == es[i];
    }
  }

  lemma KnownLater(s: Lists, es: seq<Event>, e: Event, ip: string)
    ensures var known := KnownSince(s, es, ip);
      KnownSince(s, es + [e], ip) == if known.None? && e.ip == ip then Some(e.now) else known
  {
    assert (es + [e])[..|es|] == es;
  }

  lemma StepTracked(s: Lists, es: seq<Event>, s1: Lists, e: Event, ip: string, minTime: int)
    requires !Listed(s1.black, ip) && !Listed(s1.initialWhite, ip)
    requires Tracked(s, es, s1, ip, minTime) && (es != [] ==> es[|es| - 1].now <= e.now)
    ensures Tracked(s, es + [e], Step(s1, e, minTime).0, ip, minTime)
    ensures e.ip == ip ==> (Step(s1, e, minTime).1 <==> Passes(KnownSince(s, es, ip), e.now, minTime))
  {
    hide KnownSince, IndexOfIp;
    KnownLater(s, es, e, ip);
    var s2 := Step(s1, e, minTime).0;
    var added := Entry(e.ip, e.now);
    StepRecords(s1.gray, added, ip);
    StepRecords(s1.white, added, ip);
    var i := IndexOfIp(s1.gray, e.ip);
    if i >= 0 && e.ip != ip {
      OthersLeaveIt(s1.gray, i, ip);
    }
  }

  lemma StepRecords(es: seq<Entry>, added: Entry, ip: string)
    ensures Listed(es + [added], ip) <==> Listed(es, ip) || added.ip == ip
    ensures Listed(es, ip) ==> (es + [added])[IndexOfIp(es + [added], ip)] == es[IndexOfIp(es, ip)]
    ensures !Listed(es, ip) && added.ip == ip ==> IndexOfIp(es + [added], ip) == |es|
  {
    var b, i := es + [added], IndexOfIp(es, ip);
    assert b[|es|] == added;
    if i >= 0 {
      assert b[i] == es[i];
    }
  }

  lemma {:induction false} RunTracked(s: Lists, es: seq<Event>, ip: string, minTime: int)
    requires Monotone(es) && !Listed(s.black, ip) && !Listed(s.initialWhite, ip) && !Listed(s.white, ip)
    ensures Tracked(s, es, After(s, es, minTime), ip, minTime)
  {
    if es != [] {
      var past, e := es[..|es| - 1], es[|es| - 1];
      assert past + [e] == es;
      RunTracked(s, past, ip, minTime);
      FixedLists(s, past, minTime);
      StepTracked(s, past, After(s, past, minTime), e, ip, minTime);
    }
  }

  /** The black and initial white lists never change; the white list only grows. */
  lemma {:induction false} FixedLists(s: Lists, es: seq<Event>, minTime: int)
    ensures var s' := After(s, es, minTime);
      s'.black == s.black && s'.initialWhite == s.initialWhite && s.white <= s'.white
  {
    if es != [] {
      FixedLists(s, es[..|es| - 1], minTime);
    }
  }

  /**
   * The address is not black, and is white from the start or was recorded at least minTime ago (or loaded
   * with a negative time).
   */
  predicate Deserves(s: Lists, es: seq<Event>, k: nat, minTime: int)
    requires k < |es|
  {
    var e := es[k];
    && !Listed(s.black, e.ip)
    && (|| Listed(s.initialWhite, e.ip) || Listed(s.white, e.ip)
        || Passes(KnownSince(s, es[..k], e.ip), e.now, minTime))
  }

  /** Over any run, a connection is accepted exactly when its address deserves it. */
  lemma AcceptedExactly(s: Lists, es: seq<Event>, k: nat, minTime: int)
    requires Monotone(es) && k < |es|
    ensures Accepted(s, es, k, minTime) <==> Deserves(s, es, k, minTime)
  {
    var past, e := es[..k], es[k];
    FixedLists(s, past, minTime);
    if Listed(s.white, e.ip) {
      var i := IndexOfIp(s.white, e.ip);
      assert After(s, past, minTime).white[i].ip == e.ip;
    } else if !Listed(s.black, e.ip) && !Listed(s.initialWhite, e.ip) {
      RunTracked(s, past, e.ip, minTime);
      StepTracked(s, past, After(s, past, minTime), e, e.ip, minTime);
    }
  }

  /** On none of the other three lists. */
  ghost predicate OnlyGray(s: Lists, ip: string) {
    && (forall i :: 0 <= i < |s.black| ==> s.black[i].ip != ip)
    && (forall i :: 0 <= i < |s.initialWhite| ==> s.initialWhite[i].ip != ip)
    && (forall i :: 0 <= i < |s.white| ==> s.white[i].ip != ip)
  }

  /**
   * An address on no list, first seen at connection j: every connection up to the minimum time later is
   * declined, and every one from then on is accepted.
   */
  lemma WaitsExactly(s: Lists, es: seq<Event>, j: nat, k: nat, minTime: int)
    requires Monotone(es) && j <= k < |es| && es[j].ip == es[k].ip
    requires forall i :: 0 <= i < j ==> es[i].ip != es[j].ip
    requires OnlyGray(s, es[k].ip) && forall i :: 0 <= i < |s.gray| ==> s.gray[i].ip != es[k].ip
    ensures Accepted(s, es, k, minTime) <==> j < k && (es[j].now < 0 || es[k].now - es[j].now >= minTime)
  {
    hide FirstSeen;
    AcceptedExactly(s, es, k, minTime);
    if j < k {
      assert es[..k][j] == es[j];
    }
    assert forall i :: 0 <= i < k && i <= j ==> es[..k][i] == es[i];
  }

  /** An address loaded into gray with a time is accepted exactly when that is negative or long enough ago. */
  lemma LoadedExactly(s: Lists, es: seq<Event>, i: nat, k: nat, minTime: int)
    requires Monotone(es) && k < |es| && First(s.gray, es[k].ip, i) && OnlyGray(s, es[k].ip)
    ensures Accepted(s, es, k, minTime) <==> s.gray[i].time < 0 || es[k].now - s.gray[i].time >= minTime
  {
    hide FirstSeen;
    AcceptedExactly(s, es, k, minTime);
    FirstIs(s.gray, es[k].ip);
  }

  /** One of the connections that were accepted, or declined, made this record. */
  ghost predicate MadeBy(s: Lists, es: seq<Event>, x: Entry, accepted: bool, minTime: int) {
    exists k: nat :: k < |es| && x == Entry(es[k].ip, es[k].now) && Accepted(s, es, k, minTime) == accepted
  }

  lemma MadeEarlier(s: Lists, es: seq<Event>, e: Event, x: Entry, accepted: bool, minTime: int)
    requires MadeBy(s, es, x, accepted, minTime)
    ensures MadeBy(s, es + [e], x, accepted, minTime)
  {
    var k: nat :| k < |es| && x == Entry(es[k].ip, es[k].now) && Accepted(s, es, k, minTime) == accepted;
    assert (es + [e])[..k] == es[..k] && (es + [e])[k] == es[k];
  }

  /** Every new record stands for a connection of the run: in white for one accepted, in gray for one declined. */
  lemma {:induction false} RecordsAre(s: Lists, es: seq<Event>, minTime: int)
    ensures var s' := After(s, es, minTime);
      && (forall n :: |s.white| <= n < |s'.white| ==> MadeBy(s, es, s'.white[n], true, minTime))
      && (forall x :: x in s'.gray ==> x in s.gray || MadeBy(s, es, x, false, minTime))
  {
    hide IndexOfIp, Accepted;
    if es != [] {
      var past, e := es[..|es| - 1], es[|es| - 1];
      var s1 := After(s, past, minTime);
      assert past + [e] == es;
      RecordsAre(s, past, minTime);
      FixedLists(s, past, minTime);
      forall x, accepted | MadeBy(s, past, x, accepted, minTime) ensures MadeBy(s, es, x, accepted, minTime) {
        MadeEarlier(s, past, e, x, accepted, minTime);
      }
      LastMade(s, es, minTime);
    }
  }

  lemma LastMade(s: Lists, es: seq<Event>, minTime: int)
    requires es != []
    ensures var e := es[|es| - 1];
      MadeBy(s, es, Entry(e.ip, e.now), Step(After(s, es[..|es| - 1], minTime), e, minTime).1, minTime)
  {
    assert Accepted(s, es, |es| - 1, minTime) == Step(After(s, es[..|es| - 1], minTime), es[|es| - 1], minTime).1;
  }

  lemma OneMore(s: Lists, es: seq<Event>, k: nat, minTime: int)
    requires k < |es|
    ensures var (s', accept) := Step(After(s, es[..k], minTime), es[k], minTime);
            After(s, es[..k + 1], minTime) == s' && (Accepted(s, es, k, minTime) <==> accept)
  {
    assert es[..k + 1][..k] == es[..k];
  }

  // ----- the decision on the linked lists ---------------------------------------------------------

  class Gatekeeper {
    const black: AddressList
    const initialWhite: AddressList
    const white: AddressList
    const gray: AddressList
    const minTime: int

    constructor (black: AddressList, initialWhite: AddressList,
                 white: AddressList, gray: AddressList, minTime: int)
      ensures this.black == black && this.initialWhite == initialWhite && this.white == white
      ensures this.gray == gray && this.minTime == minTime
    {
      this.black, this.initialWhite, this.white, this.gray := black, initialWhite, white, gray;
      this.minTime := minTime;
    }

    ghost predicate NoneShared(xs: seq<Record>, ys: seq<Record>) {
      forall i, j :: 0 <= i < |xs| && 0 <= j < |ys| ==> xs[i] != ys[j]
    }

    ghost predicate Apart(a: AddressList, b: AddressList)
      reads a, b
    {
      a != b && NoneShared(a.nodes, b.nodes)
    }

    ghost predicate Valid()
      reads black, black.nodes, initialWhite, initialWhite.nodes, white, white.nodes, gray, gray.nodes
    {
      && black.Valid() && initialWhite.Valid() && white.Valid() && gray.Valid()
      && Apart(gray, white) && Apart(black, gray) && Apart(black, white)
      && Apart(initialWhite, gray) && Apart(initialWhite, white)
    }

    ghost function View(): Lists
      reads black, initialWhite, white, gray
    {
      Lists(black.View(), initialWhite.View(), white.View(), gray.View())
    }

    /** The decision part of MainLoop for a connection from ip. */
    method Decide(ip: string, now: int) returns (accept: bool)
      requires Valid()
      modifies gray, gray.nodes, white, white.nodes
      ensures Valid()
      ensures forall i :: 0 <= i < |gray.nodes| ==> gray.nodes[i] in old(gray.nodes) || fresh(gray.nodes[i])
      ensures forall i :: 0 <= i < |white.nodes| ==> white.nodes[i] in old(white.nodes) || fresh(white.nodes[i])
      ensures (View(), accept) == Step(old(View()), Event(now, ip), minTime)
    {
      hide AddressList.Valid, AddressList.View, IndexOfIp;
      var inBlack := black.FindIPAddress(ip);
      if inBlack >= 0 {
        return false;
      }
      var inInitial := initialWhite.FindIPAddress(ip);
      var inWhite := white.FindIPAddress(ip);
      if inInitial >= 0 || inWhite >= 0 {
        return true;
      }
      accept := DecideGray(ip, now);
    }

    /** A connection from an address on no black or white list. */
    method DecideGray(ip: string, now: int) returns (accept: bool)
      requires Valid()
      requires !Listed(black.View(), ip) && !Listed(initialWhite.View(), ip) && !Listed(white.View(), ip)
      modifies gray, gray.nodes, white, white.nodes
      ensures Valid()
      ensures forall i :: 0 <= i < |gray.nodes| ==> gray.nodes[i] in old(gray.nodes) || fresh(gray.nodes[i])
      ensures forall i :: 0 <= i < |white.nodes| ==> white.nodes[i] in old(white.nodes) || fresh(white.nodes[i])
      ensures (View(), accept) == Step(old(View()), Event(now, ip), minTime)
    {
      hide AddressList.Valid, AddressList.View, IndexOfIp;
      accept := false;
      var inGray := gray.FindIPAddress(ip);
      if inGray < 0 {
        Record(ip, now);
      } else {
        var ripe := gray.ShouldAcceptConnection(ip, now, minTime);
        if ripe {
          accept := true;
          Forget(inGray);
          Trust(ip, now);
        }
      }
    }

    /** A run of connections: each is accepted exactly when its address has been known long enough. */
    method DecideAll(es: seq<Event>) returns (accepted: seq<bool>)
      requires Valid()
      modifies gray, gray.nodes, white, white.nodes
      ensures Valid() && View() == After(old(View()), es, minTime) && |accepted| == |es|
      ensures forall k :: 0 <= k < |es| ==> (accepted[k] <==> Accepted(old(View()), es, k, minTime))
      ensures Monotone(es) ==> forall k :: 0 <= k < |es| ==> (accepted[k] <==> Deserves(old(View()), es, k, minTime))
      ensures forall i :: 0 <= i < |gray.nodes| ==> gray.nodes[i] in old(gray.nodes) || fresh(gray.nodes[i])
      ensures forall i :: 0 <= i < |white.nodes| ==> white.nodes[i] in old(white.nodes) || fresh(white.nodes[i])
    {
      hide AddressList.Valid, AddressList.View, Step, Accepted, Deserves;
      ghost var s := View();
      accepted := [];
      for k := 0 to |es|
        invariant Valid() && View() == After(s, es[..k], minTime) && |accepted| == k
        invariant forall i :: 0 <= i < |gray.nodes| ==> gray.nodes[i] in old(gray.nodes) || fresh(gray.nodes[i])
        invariant forall i :: 0 <= i < |white.nodes| ==> white.nodes[i] in old(white.nodes) || fresh(white.nodes[i])
        invariant forall j :: 0 <= j < k ==> (accepted[j] <==> Accepted(s, es, j, minTime))
      {
        OneMore(s, es, k, minTime);
        var accept := Decide(es[k].ip, es[k].now);
        accepted := accepted + [accept];
      }
      assert es[..|es|] == es;
      if Monotone(es) {
        forall k | 0 <= k < |es| ensures accepted[k] <==> Deserves(s, es, k, minTime) {
          AcceptedExactly(s, es, k, minTime);
        }
      }
    }

    /** To the end of gray. */
    method Record(ip: string, now: int)
      requires Valid()
      modifies gray, gray.nodes
      ensures Valid()
      ensures forall i :: 0 <= i < |gray.nodes| ==> gray.nodes[i] in old(gray.nodes) || fresh(gray.nodes[i])
      ensures View() == old(View()).(gray := old(gray.View()) + [Entry(ip, now)])
    {
      hide AddressList.Valid, AddressList.View;
      var _ := gray.AddElement(ip, now);
    }

    /** Taking a record out of one list leaves it apart from the other. */
    lemma CutApart(xs: seq<Record>, ys: seq<Record>, i: nat)
      requires i < |xs| && (NoneShared(xs, ys) || NoneShared(ys, xs))
      ensures NoneShared(Remove(xs, i), ys) && NoneShared(ys, Remove(xs, i))
      ensures forall j :: 0 <= j < |Remove(xs, i)| ==> Remove(xs, i)[j] in xs
    {
      var cut := Remove(xs, i);
      forall j, k | 0 <= j < |cut| && 0 <= k < |ys| ensures cut[j] != ys[k] {
        assert cut[j] == xs[if j < i then j else j + 1];
      }
    }

    method Forget(i: nat)
      requires Valid() && i < gray.size == |gray.View()| == |gray.nodes|
      modifies gray, gray.nodes
      ensures Valid()
      ensures forall i :: 0 <= i < |gray.nodes| ==> gray.nodes[i] in old(gray.nodes) || fresh(gray.nodes[i])
      ensures View() == old(View()).(gray := Remove(old(gray.View()), i))
    {
      hide AddressList.Valid, AddressList.View, Remove;
      CutApart(gray.nodes, white.nodes, i);
      CutApart(gray.nodes, black.nodes, i);
      CutApart(gray.nodes, initialWhite.nodes, i);
      var _ := gray.DeleteElement(i);
    }

    /** To the end of white. */
    method Trust(ip: string, now: int)
      requires Valid()
      modifies white, white.nodes
      ensures Valid()
      ensures forall i :: 0 <= i < |white.nodes| ==> white.nodes[i] in old(white.nodes) || fresh(white.nodes[i])
      ensures View() == old(View()).(white := old(white.View()) + [Entry(ip, now)])
    {
      hide AddressList.Valid, AddressList.View;
      var _ := white.AddElement(ip, now);
    }
  }
}
