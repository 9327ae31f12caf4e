/** How server/mailqueue.cpp groups, sends and keeps the recipients of one message. */
module Delivery {
  import opened CStrings

  /** The outcome of contacting each domain's server in one attempt. */
  type Outcome = string -> bool

  /** The distinct domains of the recipients, in order of first appearance. */
  ghost function Domains(rs: seq<string>): seq<string> {
    if rs == [] then []
    else
      WithDomain(Domains(rs[..|rs| - 1]), DomainOf(rs[|rs| - 1]))
  }

  ghost function WithDomain(ds: seq<string>, d: string): seq<string> {
    if d in ds then ds else ds + [d]
  }

  lemma NoDomains()
    ensures Domains([]) == []
  {
  }

  lemma DomainsStep(rs: seq<string>, i: nat)
    requires i < |rs|
    ensures Domains(rs[..i + 1]) == WithDomain(Domains(rs[..i]), DomainOf(rs[i]))
  {
    assert rs[..i + 1][..i] == rs[..i];
  }

  ghost predicate NoDuplicates(ds: seq<string>) {
    forall i, j :: 0 <= i < j < |ds| ==> ds[i] != ds[j]
  }

  /** The recipients in one domain, in order. */
  ghost function InDomain(rs: seq<string>, d: string): seq<string> {
    if rs == [] then []
    else
      InDomain(rs[..|rs| - 1], d) + IfInDomain(rs[|rs| - 1], d)
  }

  ghost function IfInDomain(r: string, d: string): seq<string> {
    if DomainOf(r) == d then [r] else []
  }

  lemma InDomainStep(rs: seq<string>, d: string, i: nat)
    requires i < |rs|
    ensures InDomain(rs[..i + 1], d) == InDomain(rs[..i], d) + IfInDomain(rs[i], d)
  {
    assert rs[..i + 1][..i] == rs[..i];
  }

  lemma NoneInDomain(d: string)
    ensures InDomain([], d) == []
  {
  }

  /** Group after group, the recipients of the domains for which keep holds. */
  ghost function Gather(rs: seq<string>, ds: seq<string>, keep: Outcome): seq<string> {
    if ds == [] then []
    else
      var n := |ds| - 1;
      Gather(rs, ds[..n], keep) + (if keep(ds[n]) then InDomain(rs, ds[n]) else [])
  }

  function Fails(o: Outcome): Outcome {
    d => !o(d)
  }

  ghost function Delivered(rs: seq<string>, o: Outcome): seq<string> {
    Gather(rs, Domains(rs), o)
  }

  /** The list rebuilt for the next attempt: regrouped by domain. */
  ghost function Pending(rs: seq<string>, o: Outcome): seq<string> {
    Gather(rs, Domains(rs), Fails(o))
  }

  // ----- the domains partition the recipients ----------------------------------------------------

  lemma {:induction false} DomainsDistinct(rs: seq<string>)
    ensures NoDuplicates(Domains(rs))
  {
    if rs != [] {
      DomainsDistinct(rs[..|rs| - 1]);
    }
  }

  /** Every recipient's domain is listed and every listed domain has a recipient. */
  lemma {:induction false} DomainsCover(rs: seq<string>, d: string)
    ensures d in Domains(rs) <==> exists i :: 0 <= i < |rs| && DomainOf(rs[i]) == d
  {
    if rs != [] {
      var n := |rs| - 1;
      DomainsCover(rs[..n], d);
      if i :| 0 <= i < |rs| && DomainOf(rs[i]) == d {
        assert i < n ==> rs[..n][i] == rs[i];
      }
      if d in Domains(rs[..n]) {
        var j :| 0 <= j < n && DomainOf(rs[..n][j]) == d;
        assert rs[j] == rs[..n][j];
      }
    }
  }

  lemma {:induction false} InDomainCount(rs: seq<string>, d: string, x: string)
    ensures multiset(InDomain(rs, d))[x] == if DomainOf(x) == d then multiset(rs)[x] else 0
  {
    if rs != [] {
      var n := |rs| - 1;
      InDomainCount(rs[..n], d, x);
      assert rs == rs[..n] + [rs[n]];
    }
  }

  /** A recipient is gathered as often as it occurs, when its domain is listed and kept. */
  lemma {:induction false} GatherCount(rs: seq<string>, ds: seq<string>, keep: Outcome, x: string)
    requires NoDuplicates(ds)
    ensures multiset(Gather(rs, ds, keep))[x] ==
            if DomainOf(x) in ds && keep(DomainOf(x)) then multiset(rs)[x] else 0
  {
    if ds != [] {
      var n := |ds| - 1;
      assert ds == ds[..n] + [ds[n]];
      assert ds[n] !in ds[..n];
      GatherCount(rs, ds[..n], keep, x);
      InDomainCount(rs, ds[n], x);
    }
  }

  /** One attempt loses nobody and duplicates nobody. */
  lemma AttemptConserves(rs: seq<string>, o: Outcome)
    ensures multiset(Delivered(rs, o)) + multiset(Pending(rs, o)) == multiset(rs)
  {
    var ds, no := Domains(rs), Fails(o);
    DomainsDistinct(rs);
    forall x: string
      ensures multiset(Delivered(rs, o))[x] + multiset(Gather(rs, ds, no))[x] == multiset(rs)[x]
    {
      GatherCount(rs, ds, o, x);
      GatherCount(rs, ds, no, x);
      DomainsCover(rs, DomainOf(x));
      if x in rs {
        var i :| 0 <= i < |rs| && rs[i] == x;
      }
    }
    assert multiset(Delivered(rs, o)) + multiset(Gather(rs, ds, no)) == multiset(rs);
  }

  /** Nothing is pending exactly when every domain was served. */
  lemma PendingEmpty(rs: seq<string>, o: Outcome)
    ensures Pending(rs, o) == [] <==> forall d :: d in Domains(rs) ==> o(d)
  {
    var ds, no := Domains(rs), Fails(o);
    DomainsDistinct(rs);
    if d :| d in ds && !o(d) {
      DomainsCover(rs, d);
      var i :| 0 <= i < |rs| && DomainOf(rs[i]) == d;
      GatherCount(rs, ds, no, rs[i]);
      assert multiset(rs)[rs[i]] > 0;
    }
    if Gather(rs, ds, no) != [] {
      var x := Gather(rs, ds, no)[0];
      GatherCount(rs, ds, no, x);
      assert x in Gather(rs, ds, no);
    }
  }

  /** Any part of the gathering fits in an array with one cell per recipient. */
  lemma GatherFits(rs: seq<string>, ds: seq<string>, keep: Outcome)
    requires NoDuplicates(ds)
    ensures |Gather(rs, ds, keep)| <= |rs|
  {
    var g := Gather(rs, ds, keep);
    forall x: string ensures multiset(g)[x] <= multiset(rs)[x] {
      GatherCount(rs, ds, keep, x);
    }
    assert multiset(g) <= multiset(rs);
    assert |multiset(rs)| == |multiset(g)| + |multiset(rs) - multiset(g)|;
  }

  /** The next group, and room for it. */
  lemma GatherStep(rs: seq<string>, ds: seq<string>, i: nat, keep: Outcome)
    requires NoDuplicates(ds) && i < |ds|
    ensures Gather(rs, ds[..i + 1], keep)
            == Gather(rs, ds[..i], keep) + (if keep(ds[i]) then InDomain(rs, ds[i]) else [])
    ensures |Gather(rs, ds[..i + 1], keep)| <= |rs|
  {
    assert ds[..i + 1][..i] == ds[..i];
    GatherFits(rs, ds[..i + 1], keep);
  }

  // ----- many attempts ---------------------------------------------------------------------------

  /** What is delivered and what is left after a series of attempts, whatever their outcomes. */
  ghost function Attempts(rs: seq<string>, os: seq<Outcome>): (seq<string>, seq<string>)
    decreases |os|
  {
    if os == [] || rs == [] then ([], rs)
    else
      var (d, p) := Attempts(Pending(rs, os[0]), os[1..]);
      (Delivered(rs, os[0]) + d, p)
  }

  /** Over any number of attempts delivered plus pending stays the original list of recipients. */
  lemma {:induction false} AttemptsConserve(rs: seq<string>, os: seq<Outcome>)
    ensures multiset(Attempts(rs, os).0) + multiset(Attempts(rs, os).1) == multiset(rs)
    decreases |os|
  {
    if os != [] && rs != [] {
      AttemptConserves(rs, os[0]);
      AttemptsConserve(Pending(rs, os[0]), os[1..]);
    }
  }

  // ----- in what order ---------------------------------------------------------------------------

  /** The domain at k is the one of the recipient at i, and of none before. */
  ghost predicate FirstOf(rs: seq<string>, d: string, i: int) {
    0 <= i < |rs| && DomainOf(rs[i]) == d && forall j :: 0 <= j < i ==> DomainOf(rs[j]) != d
  }

  lemma FirstStays(rs: seq<string>, r: string, d: string, i: int)
    requires FirstOf(rs, d, i)
    ensures FirstOf(rs + [r], d, i)
  {
    assert forall j :: 0 <= j <= i ==> (rs + [r])[j] == rs[j];
  }

  /** The domains are listed in the order in which they first appear. */
  lemma {:induction false} DomainsInOrder(rs: seq<string>) returns (firsts: seq<int>)
    ensures |firsts| == |Domains(rs)| && forall k :: 0 <= k < |firsts| ==> FirstOf(rs, Domains(rs)[k], firsts[k])
    ensures forall j, k :: 0 <= j < k < |firsts| ==> firsts[j] < firsts[k]
  {
    if rs == [] {
      firsts := [];
    } else {
      var n, ds := |rs| - 1, Domains(rs[..|rs| - 1]);
      var d := DomainOf(rs[n]);
      assert rs == rs[..n] + [rs[n]];
      firsts := DomainsInOrder(rs[..n]);
      hide FirstOf;
      forall k | 0 <= k < |firsts| ensures FirstOf(rs, ds[k], firsts[k]) && 0 <= firsts[k] < n {
        FirstStays(rs[..n], rs[n], ds[k], firsts[k]);
        FirstInRange(rs[..n], ds[k], firsts[k]);
      }
      if d !in ds {
        DomainsCover(rs[..n], d);
        forall i | 0 <= i < n ensures DomainOf(rs[i]) != d {
          assert rs[..n][i] == rs[i];
        }
        NewFirst(rs, d);
        firsts := firsts + [n];
      }
    }
  }

  lemma FirstInRange(rs: seq<string>, d: string, i: int)
    requires FirstOf(rs, d, i)
    ensures 0 <= i < |rs|
  {
  }

  lemma NewFirst(rs: seq<string>, d: string)
    requires rs != [] && DomainOf(rs[|rs| - 1]) == d
    requires forall i :: 0 <= i < |rs| - 1 ==> DomainOf(rs[i]) != d
    ensures FirstOf(rs, d, |rs| - 1)
  {
  }
}
