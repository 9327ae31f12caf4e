/** What becomes of every recipient over whole runs of the queue. */
module QueueLedger {
  import opened CStrings
  import opened Delivery
  import opened QueueSpec

  ghost function InSlot(s: Slot): multiset<string> {
    if s.Held? then multiset(s.mail.recipients) else multiset{}
  }

  /** Everybody some message in the queue waits to be delivered to. */
  ghost function Waiting(slots: seq<Slot>): multiset<string> {
    if slots == [] then multiset{} else Waiting(slots[..|slots| - 1]) + InSlot(slots[|slots| - 1])
  }

  lemma {:induction false} WaitingUpdate(slots: seq<Slot>, i: nat, s: Slot)
    requires i < |slots|
    ensures Waiting(slots[i := s]) + InSlot(slots[i]) == Waiting(slots) + InSlot(s)
  {
    hide InSlot;
    var n := |slots| - 1;
    if i < n {
      WaitingUpdate(slots[..n], i, s);
      assert slots[i := s][..n] == slots[..n][i := s];
      Regroup(Waiting(slots[..n][i := s]), InSlot(slots[i]), Waiting(slots[..n]), InSlot(s), InSlot(slots[n]));
    } else {
      assert slots[i := s][..n] == slots[..n];
    }
  }

  lemma Regroup(a: multiset<string>, b: multiset<string>, c: multiset<string>, d: multiset<string>, e: multiset<string>)
    requires a + b == c + d
    ensures a + e + b == c + e + d
  {
    assert a + e + b == (a + b) + e && c + e + d == (c + d) + e;
  }

  lemma Cancel(a: multiset<string>, d: multiset<string>, p: multiset<string>, w: multiset<string>)
    requires a + (d + p) == w + p
    ensures a + d == w
  {
    forall x: string ensures (a + d)[x] == w[x] {
      assert (a + (d + p))[x] == (w + p)[x];
    }
  }

  // ----- one round -------------------------------------------------------------------------------

  lemma {:induction false} FarCount(p: Policy, rs: seq<string>, x: string)
    ensures multiset(Far(p, rs))[x] == if DomainOf(x) != p.domain then multiset(rs)[x] else 0
  {
    if rs != [] {
      var n := |rs| - 1;
      assert rs == rs[..n] + [rs[n]];
      FarCount(p, rs[..n], x);
    }
  }

  lemma {:induction false} SpooledCount(p: Policy, rs: seq<string>, x: string)
    ensures multiset(Spooled(p, rs))[x] == if DomainOf(x) == p.domain && p.spools(x) then multiset(rs)[x] else 0
  {
    if rs != [] {
      var n := |rs| - 1;
      assert rs == rs[..n] + [rs[n]];
      SpooledCount(p, rs[..n], x);
    }
  }

  lemma {:induction false} LostCount(p: Policy, rs: seq<string>, x: string)
    ensures multiset(LostHere(p, rs))[x] == if DomainOf(x) == p.domain && !p.spools(x) then multiset(rs)[x] else 0
  {
    if rs != [] {
      var n := |rs| - 1;
      assert rs == rs[..n] + [rs[n]];
      LostCount(p, rs[..n], x);
    }
  }

  /** Every recipient is far, spooled here or lost here. */
  lemma SplitAll(p: Policy, rs: seq<string>)
    ensures multiset(rs) == multiset(Far(p, rs)) + multiset(Spooled(p, rs)) + multiset(LostHere(p, rs))
  {
    hide Far, Spooled, LostHere;
    forall x: string
      ensures multiset(rs)[x] == (multiset(Far(p, rs)) + multiset(Spooled(p, rs)) + multiset(LostHere(p, rs)))[x]
    {
      FarCount(p, rs, x);
      SpooledCount(p, rs, x);
      LostCount(p, rs, x);
    }
  }

  /** The recipients of a message unless the queue is full; AddMessage then answers -1. */
  ghost function Taken(q: Queue, rs: seq<string>): seq<string> {
    if q.count < |q.slots| then rs else []
  }

  /** AddMessage refuses a message exactly when the queue is full. */
  lemma TakenExactly(p: Policy, q: Queue, m: Mail)
    requires QInv(q, p.delay)
    ensures Add(p, q, m).1 >= 0 <==> q.count < |q.slots|
  {
    CountIsOccupied(q, p.delay);
  }

  lemma AddBalance(p: Policy, q: Queue, m: Mail)
    requires QInv(q, p.delay)
    ensures var q', rs := Add(p, q, m).0, Taken(q, m.recipients);
            && Waiting(q'.slots) == Waiting(q.slots) + multiset(Far(p, rs))
            && q'.spooled == q.spooled + Spooled(p, rs)
  {
    hide QInv, Waiting;
    OccupiedBound(q.slots);
    CountIsOccupied(q, p.delay);
    SplitNone(p);
    assert q.spooled + [] == q.spooled;
    var far, i := Far(p, m.recipients), FirstFree(q.slots);
    hide Far, Spooled;
    if q.count < |q.slots| && far != [] {
      WaitingUpdate(q.slots, i, Add(p, q, m).0.slots[i]);
    }
  }

  lemma CountIsOccupied(q: Queue, delay: int)
    requires QInv(q, delay)
    ensures q.count == Occupied(q.slots)
  {
  }

  /** The recipients the servers take in a round of HandleQueue's loop. */
  ghost function RoundServed(p: Policy, q: Queue, i: nat, now: int, o: Outcome): multiset<string>
    requires i < |q.slots| == |q.last|
  {
    if q.slots[i].Free? || Expired(p, q.slots[i], now) || now - q.last[i] <= p.delay then multiset{}
    else multiset(Delivered(q.slots[i].mail.recipients, o))
  }

  /** The recipients given up in a round because their message has expired. */
  ghost function RoundDropped(p: Policy, q: Queue, i: nat, now: int): (d: multiset<string>)
    requires i < |q.slots|
    ensures d != multiset{} ==> q.slots[i].Held? && now - q.slots[i].mail.created > p.lifetime
  {
    if Expired(p, q.slots[i], now) then InSlot(q.slots[i]) else multiset{}
  }

  lemma RoundBalance(p: Policy, q: Queue, i: nat, now: int, o: Outcome)
    requires i < |q.slots| == |q.last|
    ensures var r := HandleSlot(p, q, i, now, o);
            r.Some? ==>
              Waiting(r.value.slots) + RoundServed(p, q, i, now, o) + RoundDropped(p, q, i, now) == Waiting(q.slots)
  {
    hide Waiting, Delivered, Pending;
    var s := q.slots[i];
    NothingMore(Waiting(q.slots));
    if s.Held? {
      WaitingUpdate(q.slots, i, Free);
      var freed := Waiting(q.slots[i := Free]);
      NothingMore(freed);
      if Expired(p, s, now) {
        assert freed + multiset{} + InSlot(s) == Waiting(q.slots);
      }
      if !Expired(p, s, now) && now - q.last[i] > p.delay {
        SentBalance(q, i, now, o);
        NothingMore(Waiting(Attempted(q, i, now, o).slots) + multiset(Delivered(s.mail.recipients, o)));
      }
    }
  }

  lemma NothingMore(w: multiset<string>)
    ensures w + multiset{} == w
  {
  }

  lemma SentBalance(q: Queue, i: nat, now: int, o: Outcome)
    requires i < |q.slots| == |q.last| && q.slots[i].Held?
    ensures var served := multiset(Delivered(q.slots[i].mail.recipients, o));
            Waiting(Attempted(q, i, now, o).slots) + served == Waiting(q.slots)
  {
    hide Waiting, Delivered, Pending;
    var m := q.slots[i].mail;
    AttemptConserves(m.recipients, o);
    var served, left := multiset(Delivered(m.recipients, o)), multiset(Pending(m.recipients, o));
    if AllSent(m, o) {
      WaitingUpdate(q.slots, i, Free);
      assert served + multiset{} == served;
    } else {
      var after := Held(Send(m, now, o));
      WaitingUpdate(q.slots, i, after);
      Cancel(Waiting(q.slots[i := after]), served, left, Waiting(q.slots));
    }
  }

  // ----- one pass --------------------------------------------------------------------------------

  ghost function PassServed(p: Policy, q: Queue, n: nat, now: int, os: nat -> Outcome): multiset<string>
    requires n <= |q.slots| == |q.last|
  {
    if n == 0 then multiset{}
    else
      PassServed(p, q, n - 1, now, os) +
      match HandleFirst(p, q, n - 1, now, os)
      case None => multiset{}
      case Some(q1) => RoundServed(p, q1, n - 1, now, os(n - 1))
  }

  ghost function PassDropped(p: Policy, q: Queue, n: nat, now: int, os: nat -> Outcome): multiset<string>
    requires n <= |q.slots| == |q.last|
  {
    if n == 0 then multiset{}
    else
      PassDropped(p, q, n - 1, now, os) +
      match HandleFirst(p, q, n - 1, now, os)
      case None => multiset{}
      case Some(q1) => RoundDropped(p, q1, n - 1, now)
  }

  lemma {:induction false} PassBalance(p: Policy, q: Queue, n: nat, now: int, os: nat -> Outcome)
    requires n <= |q.slots| == |q.last|
    ensures var r := HandleFirst(p, q, n, now, os);
            r.Some? ==>
              Waiting(r.value.slots) + PassServed(p, q, n, now, os) + PassDropped(p, q, n, now, os) == Waiting(q.slots)
  {
    hide Waiting, HandleSlot, RoundServed, RoundDropped;
    if n > 0 {
      PassBalance(p, q, n - 1, now, os);
      var r := HandleFirst(p, q, n - 1, now, os);
      if r.Some? {
        RoundBalance(p, r.value, n - 1, now, os(n - 1));
      }
    }
  }

  // ----- whole runs ------------------------------------------------------------------------------

  /**
   * The recipients a run accepted, those far servers took, those given up by expiry, those appended to a
   * mailbox here, and those here whose mailbox took nothing.
   */
  datatype Ledger = Ledger(
    accepted: multiset<string>, served: multiset<string>, dropped: multiset<string>,
    spooled: multiset<string>, lost: multiset<string>)

  const NOTHING := Ledger(multiset{}, multiset{}, multiset{}, multiset{}, multiset{})

  ghost function Book(p: Policy, q: Queue, op: Op): Ledger
    requires |q.slots| == |q.last|
  {
    match op
    case AddOp(m) =>
      var rs := Taken(q, m.recipients);
      Ledger(multiset(rs), multiset{}, multiset{}, multiset(Spooled(p, rs)), multiset(LostHere(p, rs)))
    case HandleOp(now, os) =>
      NOTHING.(served := PassServed(p, q, |q.slots|, now, os), dropped := PassDropped(p, q, |q.slots|, now, os))
  }

  function Sum(a: Ledger, b: Ledger): Ledger {
    Ledger(a.accepted + b.accepted, a.served + b.served, a.dropped + b.dropped, a.spooled + b.spooled, a.lost + b.lost)
  }

  ghost function Books(p: Policy, q: Queue, ops: seq<Op>): Ledger
    requires |q.slots| == |q.last|
    decreases |ops|
  {
    if ops == [] then NOTHING
    else
      match Apply(p, q, ops[0])
      case None => NOTHING
      case Some(q1) => Sum(Book(p, q, ops[0]), Books(p, q1, ops[1..]))
  }

  ghost function All(b: Ledger): multiset<string> {
    b.served + b.dropped + b.spooled + b.lost
  }

  /** Between two queues everybody is accounted for, and the mailboxes grew by those spooled. */
  ghost predicate Balanced(q: Queue, b: Ledger, q': Queue) {
    && Waiting(q'.slots) + All(b) == Waiting(q.slots) + b.accepted
    && multiset(q'.spooled) == multiset(q.spooled) + b.spooled
  }

  lemma StepBalance(p: Policy, q: Queue, op: Op)
    requires QInv(q, p.delay)
    ensures |q.slots| == |q.last|
    ensures var r := Apply(p, q, op); r.Some? ==> QInv(r.value, p.delay) && Balanced(q, Book(p, q, op), r.value)
  {
    hide QInv, Balanced, Book;
    SameLength(q, p.delay);
    match op {
      case AddOp(m) =>
        AddInv(p, q, m);
        AddBalanced(p, q, m);
      case HandleOp(now, os) =>
        HandleInv(p, q, |q.slots|, now, os);
        PassBalanced(p, q, now, os);
    }
  }

  lemma AddBalanced(p: Policy, q: Queue, m: Mail)
    requires QInv(q, p.delay) && |q.slots| == |q.last|
    ensures Balanced(q, Book(p, q, AddOp(m)), Add(p, q, m).0)
  {
    hide QInv, Waiting, Far, Spooled, LostHere, Add;
    var rs := Taken(q, m.recipients);
    AddBalance(p, q, m);
    SplitAll(p, rs);
    AddedAll(Waiting(q.slots), multiset(Far(p, rs)), multiset(Spooled(p, rs)), multiset(LostHere(p, rs)));
    assert multiset(q.spooled + Spooled(p, rs)) == multiset(q.spooled) + multiset(Spooled(p, rs));
  }

  lemma AddedAll(w: multiset<string>, far: multiset<string>, here: multiset<string>, lost: multiset<string>)
    ensures w + far + (multiset{} + multiset{} + here + lost) == w + (far + here + lost)
  {
    forall x: string
      ensures (w + far + (multiset{} + multiset{} + here + lost))[x] == (w + (far + here + lost))[x]
    {
    }
  }

  lemma PassBalanced(p: Policy, q: Queue, now: int, os: nat -> Outcome)
    requires |q.slots| == |q.last|
    ensures var r := Handle(p, q, now, os); r.Some? ==> Balanced(q, Book(p, q, HandleOp(now, os)), r.value)
  {
    hide Waiting, PassServed, PassDropped;
    PassBalance(p, q, |q.slots|, now, os);
    PassSpools(p, q, |q.slots|, now, os);
    var r, b := Handle(p, q, now, os), Book(p, q, HandleOp(now, os));
    if r.Some? {
      assert multiset(q.spooled) + multiset{} == multiset(q.spooled);
      assert Waiting(r.value.slots) + (b.served + b.dropped + multiset{} + multiset{})
          == Waiting(r.value.slots) + b.served + b.dropped;
      NothingMore(Waiting(q.slots));
    }
  }

  /** A pass leaves the mailboxes here alone. */
  lemma {:induction false} PassSpools(p: Policy, q: Queue, n: nat, now: int, os: nat -> Outcome)
    requires n <= |q.slots| == |q.last|
    ensures var r := HandleFirst(p, q, n, now, os); r.Some? ==> r.value.spooled == q.spooled
  {
    if n > 0 {
      PassSpools(p, q, n - 1, now, os);
      var r := HandleFirst(p, q, n - 1, now, os);
      if r.Some? {
        RoundSpools(p, r.value, n - 1, now, os(n - 1));
      }
    }
  }

  lemma RoundSpools(p: Policy, q: Queue, i: nat, now: int, o: Outcome)
    requires i < |q.slots| == |q.last|
    ensures var r := HandleSlot(p, q, i, now, o); r.Some? ==> r.value.spooled == q.spooled
  {
    hide Send, AllSent;
  }

  lemma SameLength(q: Queue, delay: int)
    requires QInv(q, delay)
    ensures |q.slots| == |q.last|
  {
  }

  /**
   * Over any run that does not crash, everybody waiting at its start or accepted since is waiting at its
   * end, delivered, given up by expiry, spooled here or lost here.
   */
  lemma {:induction false} RunBalance(p: Policy, q: Queue, ops: seq<Op>)
    requires |q.slots| == |q.last| && QInv(q, p.delay)
    ensures var r := Run(p, q, ops); r.Some? ==> Balanced(q, Books(p, q, ops), r.value)
    decreases |ops|
  {
    hide QInv, Balanced, Apply, Book;
    if ops == [] {
      NoBalance(q);
    } else {
      StepBalance(p, q, ops[0]);
      var r1 := Apply(p, q, ops[0]);
      if r1.Some? {
        SameLength(r1.value, p.delay);
        RunBalance(p, r1.value, ops[1..]);
        var r := Run(p, r1.value, ops[1..]);
        if r.Some? {
          Chain(q, Book(p, q, ops[0]), r1.value, Books(p, r1.value, ops[1..]), r.value);
        }
      }
    }
  }

  lemma NoBalance(q: Queue)
    ensures Balanced(q, NOTHING, q)
  {
    hide Waiting;
  }

  lemma Chain(q0: Queue, a: Ledger, q1: Queue, b: Ledger, q2: Queue)
    requires Balanced(q0, a, q1) && Balanced(q1, b, q2)
    ensures Balanced(q0, Sum(a, b), q2)
  {
    hide Waiting;
    var s := Sum(a, b);
    forall x: string ensures (Waiting(q2.slots) + All(s))[x] == (Waiting(q0.slots) + s.accepted)[x] {
      assert (Waiting(q1.slots) + All(a))[x] == (Waiting(q0.slots) + a.accepted)[x];
      assert (Waiting(q2.slots) + All(b))[x] == (Waiting(q1.slots) + b.accepted)[x];
    }
    assert multiset(q2.spooled) == multiset(q0.spooled) + s.spooled;
  }

  /** Of the accepted recipients here, those are spooled whose mailbox takes mail, the others are lost. */
  lemma {:induction false} HereOrLost(p: Policy, q: Queue, ops: seq<Op>, x: string)
    requires |q.slots| == |q.last|
    ensures var b, here := Books(p, q, ops), DomainOf(x) == p.domain;
            && b.spooled[x] == (if here && p.spools(x) then b.accepted[x] else 0)
            && b.lost[x] == (if here && !p.spools(x) then b.accepted[x] else 0)
    decreases |ops|
  {
    hide Apply;
    if ops != [] && Apply(p, q, ops[0]).Some? {
      HereOrLost(p, Apply(p, q, ops[0]).value, ops[1..], x);
      if ops[0].AddOp? {
        SpooledCount(p, Taken(q, ops[0].mail.recipients), x);
        LostCount(p, Taken(q, ops[0].mail.recipients), x);
      }
    }
  }

  /** Every mailbox somebody here was accepted for takes mail. */
  ghost predicate AllHaveMailboxes(p: Policy, accepted: multiset<string>) {
    forall x :: x in accepted && DomainOf(x) == p.domain ==> p.spools(x)
  }

  /**
   * From an empty queue: everybody accepted was delivered to, is waiting, was given up, is in a mailbox
   * here, or is lost; and nobody is lost exactly when every mailbox mail was accepted for takes it.
   */
  lemma NobodyLost(p: Policy, n: nat, ops: seq<Op>)
    ensures var r, b := Run(p, Empty(n), ops), Books(p, Empty(n), ops);
            r.Some? ==>
              && b.accepted == b.served + Waiting(r.value.slots) + b.dropped + multiset(r.value.spooled) + b.lost
              && (b.lost == multiset{} <==> AllHaveMailboxes(p, b.accepted))
  {
    hide QInv, Run, Books, Waiting;
    EmptyInv(n, p.delay);
    NobodyWaits(Empty(n).slots);
    RunBalance(p, Empty(n), ops);
    var r, b := Run(p, Empty(n), ops), Books(p, Empty(n), ops);
    forall x: string ensures b.lost[x] == if DomainOf(x) == p.domain && !p.spools(x) then b.accepted[x] else 0 {
      HereOrLost(p, Empty(n), ops, x);
    }
    LostNobody(p, b);
    if r.Some? {
      assert multiset(r.value.spooled) == b.spooled;
      Reorder(Waiting(r.value.slots), b);
    }
  }

  /** Of the accepted recipients here, exactly those whose mailbox takes nothing are lost. */
  ghost predicate HereSplit(p: Policy, b: Ledger) {
    forall x :: b.lost[x] == if DomainOf(x) == p.domain && !p.spools(x) then b.accepted[x] else 0
  }

  lemma LostNobody(p: Policy, b: Ledger)
    requires HereSplit(p, b)
    ensures b.lost == multiset{} <==> AllHaveMailboxes(p, b.accepted)
  {
    if !AllHaveMailboxes(p, b.accepted) {
      var x :| x in b.accepted && DomainOf(x) == p.domain && !p.spools(x);
      assert b.lost[x] > 0;
    }
  }

  lemma Reorder(w: multiset<string>, b: Ledger)
    requires w + All(b) == multiset{} + b.accepted
    ensures b.accepted == b.served + w + b.dropped + b.spooled + b.lost
  {
    forall x: string ensures b.accepted[x] == (b.served + w + b.dropped + b.spooled + b.lost)[x] {
      assert (w + All(b))[x] == (multiset{} + b.accepted)[x];
    }
  }

  lemma {:induction false} NobodyWaits(slots: seq<Slot>)
    requires forall i :: 0 <= i < |slots| ==> slots[i].Free?
    ensures Waiting(slots) == multiset{}
  {
    if slots != [] {
      NobodyWaits(slots[..|slots| - 1]);
    }
  }

  /** A message to somebody here who has no mailbox is accepted, and nothing of it is left. */
  lemma UnknownLocalLost(p: Policy, q: Queue, m: Mail, a: string)
    requires q.count < |q.slots| && m.recipients == [a] && DomainOf(a) == p.domain && !p.spools(a)
    ensures Add(p, q, m) == (q, q.count) && LostHere(p, m.recipients) == [a]
  {
    SplitNone(p);
    assert LostHere(p, []) == [];
    assert [a][..0] == [] && Far(p, [a]) == [] && Spooled(p, [a]) == [];
    assert q.spooled + [] == q.spooled;
  }
}
