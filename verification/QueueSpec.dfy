/** The mail queue of server/mailqueue.cpp as functions on values: slots with holes, counts, retry times. */
module QueueSpec {
  import opened CStrings
  import opened Delivery

  /**
   * A queued message. Beside what the server stores, it remembers the far recipients it was queued
   * with, those served so far and the times of the attempts.
   */
  datatype Mail = Mail(
    id: string, created: int, sender: string, recipients: seq<string>,
    original: seq<string>, delivered: seq<string>, attempts: seq<int>)

  datatype Slot = Free | Held(mail: Mail)

  datatype Queue = Queue(slots: seq<Slot>, last: seq<int>, count: int, spooled: seq<string>)

  /** The server's domain, which local mailboxes take mail, and the two times in seconds. */
  datatype Policy = Policy(domain: string, spools: string -> bool, lifetime: int, delay: int)

  ghost function Occupied(slots: seq<Slot>): nat {
    if slots == [] then 0
    else Occupied(slots[..|slots| - 1]) + (if slots[|slots| - 1].Held? then 1 else 0)
  }

  /** The recipients elsewhere, in order. */
  ghost function Far(p: Policy, rs: seq<string>): seq<string> {
    if rs == [] then [] else Far(p, rs[..|rs| - 1]) + FarPart(p, rs[|rs| - 1])
  }

  ghost function FarPart(p: Policy, r: string): seq<string> {
    if DomainOf(r) != p.domain then [r] else []
  }

  /** The recipients here whose mailbox takes the message, in order. */
  ghost function Spooled(p: Policy, rs: seq<string>): seq<string> {
    if rs == [] then [] else Spooled(p, rs[..|rs| - 1]) + SpooledPart(p, rs[|rs| - 1])
  }

  ghost function SpooledPart(p: Policy, r: string): seq<string> {
    if DomainOf(r) == p.domain && p.spools(r) then [r] else []
  }

  /** The recipients here whose mailbox does not take the message, in order; nothing is kept of them. */
  ghost function LostHere(p: Policy, rs: seq<string>): seq<string> {
    if rs == [] then [] else LostHere(p, rs[..|rs| - 1]) + LostPart(p, rs[|rs| - 1])
  }

  ghost function LostPart(p: Policy, r: string): seq<string> {
    if DomainOf(r) == p.domain && !p.spools(r) then [r] else []
  }

  lemma SplitNone(p: Policy)
    ensures Far(p, []) == [] && Spooled(p, []) == []
  {
  }

  lemma SplitOne(p: Policy, rs: seq<string>, i: nat)
    requires i < |rs|
    ensures Far(p, rs[..i + 1]) == Far(p, rs[..i]) + FarPart(p, rs[i])
    ensures Spooled(p, rs[..i + 1]) == Spooled(p, rs[..i]) + SpooledPart(p, rs[i])
  {
    assert rs[..i + 1][..i] == rs[..i];
  }

  ghost function FirstFree(slots: seq<Slot>): (i: nat)
    ensures i <= |slots| && (forall j :: 0 <= j < i ==> slots[j].Held?)
    ensures i < |slots| ==> slots[i].Free?
  {
    if slots == [] || slots[0].Free? then 0 else 1 + FirstFree(slots[1..])
  }

  /** AddMessage: the answer is -1 when full, otherwise the new count. */
  ghost function Add(p: Policy, q: Queue, m: Mail): (Queue, int) {
    if q.count >= |q.slots| then (q, -1)
    else
      var far, q1 := Far(p, m.recipients), q.(spooled := q.spooled + Spooled(p, m.recipients));
      if far == [] then (q1, q1.count)
      else
        var i := FirstFree(q.slots);
        var held := Held(m.(recipients := far, original := far, delivered := [], attempts := []));
        (q1.(slots := if i < |q.slots| then q.slots[i := held] else q.slots, count := q.count + 1), q.count + 1)
  }

  function Delete(q: Queue, i: nat): Queue
    requires i < |q.slots| == |q.last|
  {
    if q.slots[i].Free? then q
    else q.(slots := q.slots[i := Free], last := q.last[i := 0], count := q.count - 1)
  }

  /** SendMessage on one mail: what is pending stays, regrouped; the attempt is recorded. */
  ghost function Send(m: Mail, now: int, o: Outcome): Mail {
    var pending := Pending(m.recipients, o);
    m.(recipients := if pending == [] then m.recipients else pending,
       delivered := m.delivered + Delivered(m.recipients, o), attempts := m.attempts + [now])
  }

  ghost predicate AllSent(m: Mail, o: Outcome) {
    Pending(m.recipients, o) == []
  }

  ghost predicate Expired(p: Policy, s: Slot, now: int) {
    s.Held? && now - s.mail.created > p.lifetime
  }

  /** Sending the mail of a slot: the slot is freed when nobody is left, else the attempt is noted. */
  ghost function Attempted(q: Queue, i: nat, now: int, o: Outcome): Queue
    requires i < |q.slots| == |q.last| && q.slots[i].Held?
  {
    if AllSent(q.slots[i].mail, o) then Delete(q, i)
    else q.(slots := q.slots[i := Held(Send(q.slots[i].mail, now, o))], last := q.last[i := now])
  }

  /** One round of HandleQueue's loop; None when it sends the slot it has just emptied. */
  ghost function HandleSlot(p: Policy, q: Queue, i: nat, now: int, o: Outcome): Option<Queue>
    requires i < |q.slots| == |q.last|
  {
    if q.slots[i].Free? then Some(q)
    else
      var q1 := if Expired(p, q.slots[i], now) then Delete(q, i) else q;
      if now - q1.last[i] <= p.delay then Some(q1)
      else if q1.slots[i].Free? then None
      else Some(Attempted(q1, i, now, o))
  }

  /** HandleQueue: the first n slots; each slot meets its own network outcomes. */
  ghost function HandleFirst(p: Policy, q: Queue, n: nat, now: int, os: nat -> Outcome): (r: Option<Queue>)
    requires n <= |q.slots| == |q.last|
    ensures r.Some? ==> |r.value.slots| == |r.value.last| == |q.slots|
  {
    if n == 0 then Some(q)
    else
      match HandleFirst(p, q, n - 1, now, os)
      case None => None
      case Some(q1) => HandleSlot(p, q1, n - 1, now, os(n - 1))
  }

  ghost function Handle(p: Policy, q: Queue, now: int, os: nat -> Outcome): (r: Option<Queue>)
    requires |q.slots| == |q.last|
    ensures r.Some? ==> |r.value.slots| == |r.value.last| == |q.slots|
  {
    HandleFirst(p, q, |q.slots|, now, os)
  }

  /** A pass that has failed stays failed. */
  lemma {:induction false} FailedStays(p: Policy, q: Queue, n: nat, k: nat, now: int, os: nat -> Outcome)
    requires n <= k <= |q.slots| == |q.last| && HandleFirst(p, q, n, now, os).None?
    ensures HandleFirst(p, q, k, now, os).None?
    decreases k
  {
    if n < k {
      FailedStays(p, q, n, k - 1, now, os);
    }
  }

  // ----- the invariant ---------------------------------------------------------------------------

  /** Two attempts in a row are more than delay apart. */
  ghost predicate Paced(attempts: seq<int>, delay: int) {
    forall i :: 0 < i < |attempts| ==> attempts[i] - attempts[i - 1] > delay
  }

  /** Nobody is lost: served plus waiting recipients are the original ones, and somebody waits. */
  ghost predicate Tracks(m: Mail, last: int, delay: int) {
    && multiset(m.delivered) + multiset(m.recipients) == multiset(m.original)
    && m.recipients != []
    && last == (if m.attempts == [] then 0 else m.attempts[|m.attempts| - 1])
    && Paced(m.attempts, delay)
  }

  ghost predicate SlotInv(s: Slot, last: int, delay: int) {
    match s
    case Free => last == 0
    case Held(m) => Tracks(m, last, delay)
  }

  ghost predicate QInv(q: Queue, delay: int) {
    && |q.slots| == |q.last|
    && q.count == Occupied(q.slots)
    && forall i :: 0 <= i < |q.slots| ==> SlotInv(q.slots[i], q.last[i], delay)
  }

  ghost function Empty(n: nat): Queue {
    Queue(seq(n, _ => Free), seq(n, _ => 0), 0, [])
  }

  lemma {:induction false} EmptyInv(n: nat, delay: int)
    ensures QInv(Empty(n), delay)
  {
    NoneOccupied(Empty(n).slots);
  }

  lemma {:induction false} NoneOccupied(slots: seq<Slot>)
    requires forall i :: 0 <= i < |slots| ==> slots[i].Free?
    ensures Occupied(slots) == 0
  {
    if slots != [] {
      NoneOccupied(slots[..|slots| - 1]);
    }
  }

  /** The full-check is exact: fewer messages than slots means that some slot is free. */
  lemma {:induction false} OccupiedBound(slots: seq<Slot>)
    ensures Occupied(slots) <= |slots|
    ensures Occupied(slots) < |slots| <==> FirstFree(slots) < |slots|
  {
    if slots != [] {
      var n := |slots| - 1;
      OccupiedBound(slots[..n]);
      var i, j := FirstFree(slots), FirstFree(slots[..n]);
      if j < n {
        assert slots[j].Free?;
      }
      if i < n {
        assert slots[..n][i].Free?;
      }
    }
  }

  lemma {:induction false} OccupiedUpdate(slots: seq<Slot>, i: nat, s: Slot)
    requires i < |slots|
    ensures Occupied(slots[i := s]) ==
            Occupied(slots) + (if s.Held? then 1 else 0) - (if slots[i].Held? then 1 else 0)
  {
    var n := |slots| - 1;
    if i < n {
      OccupiedUpdate(slots[..n], i, s);
      assert slots[i := s][..n] == slots[..n][i := s];
    } else {
      assert slots[i := s][..n] == slots[..n];
    }
  }

  /** Changing one slot, its time and the count together keeps the invariant. */
  lemma SlotUpdateInv(q: Queue, i: nat, s: Slot, last: int, delay: int)
    requires QInv(q, delay) && i < |q.slots| && SlotInv(s, last, delay)
    ensures QInv(q.(slots := q.slots[i := s], last := q.last[i := last],
                    count := q.count + (if s.Held? then 1 else 0) - (if q.slots[i].Held? then 1 else 0)),
                 delay)
  {
    OccupiedUpdate(q.slots, i, s);
  }

  lemma AddInv(p: Policy, q: Queue, m: Mail)
    requires QInv(q, p.delay)
    ensures QInv(Add(p, q, m).0, p.delay)
  {
    OccupiedBound(q.slots);
    var far, i := Far(p, m.recipients), FirstFree(q.slots);
    if q.count < |q.slots| && far != [] {
      var held := Held(m.(recipients := far, original := far, delivered := [], attempts := []));
      SlotUpdateInv(q, i, held, 0, p.delay);
      assert q.last[i := 0] == q.last;
    }
  }

  /** An accepted message waits, as it came, for exactly its far recipients, in a slot that was free. */
  lemma AddPlaces(p: Policy, q: Queue, m: Mail)
    requires QInv(q, p.delay) && q.count < |q.slots| && Far(p, m.recipients) != []
    ensures var (q', rc) := Add(p, q, m);
            var i := FirstFree(q.slots);
            rc == q.count + 1 == q'.count && i < |q.slots| && q.slots[i].Free?
            && q'.slots == q.slots[i := Held(Mail(m.id, m.created, m.sender, Far(p, m.recipients),
                                                  Far(p, m.recipients), [], []))]
            && q'.last == q.last && q'.spooled == q.spooled + Spooled(p, m.recipients)
  {
    OccupiedBound(q.slots);
  }

  lemma SendServes(m: Mail, now: int, o: Outcome)
    requires multiset(m.delivered) + multiset(m.recipients) == multiset(m.original)
    ensures var m' := Send(m, now, o);
            if AllSent(m, o) then multiset(m'.delivered) == multiset(m.original)
            else multiset(m'.delivered) + multiset(m'.recipients) == multiset(m.original)
  {
    AttemptConserves(m.recipients, o);
    var d := Delivered(m.recipients, o);
    assert multiset(m.delivered + d) == multiset(m.delivered) + multiset(d);
  }

  /** An attempt keeps track of everybody and of the time. */
  lemma SendTracks(p: Policy, m: Mail, last: int, now: int, o: Outcome)
    requires Tracks(m, last, p.delay) && now - last > p.delay
    ensures AllSent(m, o) ==> multiset(Send(m, now, o).delivered) == multiset(m.original)
    ensures !AllSent(m, o) ==> Tracks(Send(m, now, o), now, p.delay)
  {
    hide Pending, Delivered;
    SendServes(m, now, o);
  }

  lemma HandleSlotInv(p: Policy, q: Queue, i: nat, now: int, o: Outcome)
    requires QInv(q, p.delay) && i < |q.slots|
    ensures HandleSlot(p, q, i, now, o).Some? ==> QInv(HandleSlot(p, q, i, now, o).value, p.delay)
  {
    hide Pending, Delivered, Send, Tracks, Occupied;
    var s := q.slots[i];
    if s.Held? {
      assert SlotInv(s, q.last[i], p.delay);
      SlotUpdateInv(q, i, Free, 0, p.delay);
      if now - q.last[i] > p.delay {
        SendTracks(p, s.mail, q.last[i], now, o);
        if !AllSent(s.mail, o) {
          SlotUpdateInv(q, i, Held(Send(s.mail, now, o)), now, p.delay);
        }
      }
    }
  }

  lemma {:induction false} HandleInv(p: Policy, q: Queue, n: nat, now: int, os: nat -> Outcome)
    requires QInv(q, p.delay) && n <= |q.slots|
    ensures HandleFirst(p, q, n, now, os).Some? ==> QInv(HandleFirst(p, q, n, now, os).value, p.delay)
  {
    if n > 0 {
      HandleInv(p, q, n - 1, now, os);
      if HandleFirst(p, q, n - 1, now, os).Some? {
        HandleSlotInv(p, HandleFirst(p, q, n - 1, now, os).value, n - 1, now, os(n - 1));
      }
    }
  }

  /** The slots a pass has not reached yet are as they were. */
  lemma {:induction false} HandleReaches(p: Policy, q: Queue, n: nat, now: int, os: nat -> Outcome)
    requires n <= |q.slots| == |q.last|
    ensures var r := HandleFirst(p, q, n, now, os);
            r.Some? ==> forall i :: n <= i < |q.slots| ==> r.value.slots[i] == q.slots[i]
  {
    if n > 0 {
      HandleReaches(p, q, n - 1, now, os);
      var r := HandleFirst(p, q, n - 1, now, os);
      if r.Some? {
        SlotOnly(p, r.value, n - 1, now, os(n - 1));
      }
    }
  }

  lemma SlotOnly(p: Policy, q: Queue, i: nat, now: int, o: Outcome)
    requires i < |q.slots| == |q.last|
    ensures var r := HandleSlot(p, q, i, now, o);
            r.Some? ==> forall j :: 0 <= j < |q.slots| && j != i ==> r.value.slots[j] == q.slots[j]
  {
    hide Send, AllSent;
  }

  lemma SlotCompletes(p: Policy, q: Queue, i: nat, now: int, o: Outcome)
    requires i < |q.slots| == |q.last|
    ensures HandleSlot(p, q, i, now, o).Some? <==> now <= p.delay || !Expired(p, q.slots[i], now)
  {
  }

  lemma RoundCompletes(p: Policy, q: Queue, n: nat, now: int, os: nat -> Outcome)
    requires 0 < n <= |q.slots| == |q.last|
    ensures var r := HandleFirst(p, q, n - 1, now, os);
            HandleFirst(p, q, n, now, os).Some? <==>
            r.Some? && (now <= p.delay || !Expired(p, r.value.slots[n - 1], now))
  {
    hide Expired;
    var r := HandleFirst(p, q, n - 1, now, os);
    if r.Some? {
      SlotCompletes(p, r.value, n - 1, now, os(n - 1));
    }
    hide HandleSlot;
  }

  lemma {:induction false} CompletesUnexpired(p: Policy, q: Queue, n: nat, now: int, os: nat -> Outcome)
    requires n <= |q.slots| == |q.last|
    ensures HandleFirst(p, q, n, now, os).Some? <==>
            (now <= p.delay || forall i :: 0 <= i < n ==> !Expired(p, q.slots[i], now))
  {
    if n > 0 {
      hide HandleFirst, Expired;
      CompletesUnexpired(p, q, n - 1, now, os);
      HandleReaches(p, q, n - 1, now, os);
      RoundCompletes(p, q, n, now, os);
    }
  }

  /**
   * A pass fails exactly when it meets a message older than the lifetime at a time later than the sending
   * delay: the message is deleted, its last attempt becomes 0, and the emptied slot is sent.
   */
  lemma HandleCompletes(p: Policy, q: Queue, n: nat, now: int, os: nat -> Outcome)
    requires n <= |q.slots| == |q.last|
    ensures HandleFirst(p, q, n, now, os).Some? <==>
            (now <= p.delay
             || forall i :: 0 <= i < n && q.slots[i].Held? ==> now - q.slots[i].mail.created <= p.lifetime)
  {
    hide HandleFirst;
    CompletesUnexpired(p, q, n, now, os);
    assert forall i :: 0 <= i < n ==>
             (!Expired(p, q.slots[i], now) <==> (q.slots[i].Held? ==> now - q.slots[i].mail.created <= p.lifetime));
  }

  /** One message older than the lifetime makes the next pass fail. */
  lemma ExpiredCrashes(p: Policy, created: int, now: int, os: nat -> Outcome)
    requires now > p.delay && now - created > p.lifetime
    ensures var mail := Mail("id", created, "a@b", ["c@d"], ["c@d"], [], []);
            var q := Queue([Held(mail)], [0], 1, []);
            QInv(q, p.delay) && Handle(p, q, now, os).None?
  {
    var mail := Mail("id", created, "a@b", ["c@d"], ["c@d"], [], []);
    var q := Queue([Held(mail)], [0], 1, []);
    assert q.slots[..0] == [];
    assert Occupied(q.slots) == 1;
    assert multiset(mail.delivered) + multiset(mail.recipients) == multiset(mail.original);
    HandleCompletes(p, q, 1, now, os);
    assert now - q.slots[0].mail.created > p.lifetime;
  }

  /**
   * What one round does with a message, by the clock alone. One older than the lifetime is dropped, and the
   * round fails once the clock is past the delay. One up to its lifetime old is left alone until the delay
   * since its last attempt has passed; then it is sent, leaves its slot when nobody is left, and otherwise
   * waits for those left with the attempt noted.
   */
  lemma SlotExactly(p: Policy, q: Queue, i: nat, now: int, o: Outcome)
    requires i < |q.slots| == |q.last| && q.slots[i].Held?
    ensures var m, r := q.slots[i].mail, HandleSlot(p, q, i, now, o);
            var age, waited := now - m.created, now - q.last[i];
            && (r.None? <==> age > p.lifetime && now > p.delay)
            && (age > p.lifetime && r.Some? ==> Freed(q, i, r.value))
            && (age <= p.lifetime && waited <= p.delay ==> r == Some(q))
            && (age <= p.lifetime && waited > p.delay && Pending(m.recipients, o) == [] ==>
                  r.Some? && Freed(q, i, r.value))
            && (age <= p.lifetime && waited > p.delay && Pending(m.recipients, o) != [] ==>
                  r.Some? && Kept(q, i, now, o, r.value))
  {
    hide Pending, Delivered;
  }

  /** A pass does to each of its slots what one round does to it, and leaves the others alone. */
  lemma {:induction false} PassExactly(p: Policy, q: Queue, n: nat, now: int, os: nat -> Outcome)
    requires n <= |q.slots| == |q.last|
    ensures var r := HandleFirst(p, q, n, now, os);
            r.Some? ==> forall i :: 0 <= i < |q.slots| ==> SlotAfter(p, q, i, n, now, os, r.value)
  {
    hide HandleSlot;
    if n > 0 {
      PassExactly(p, q, n - 1, now, os);
      var r := HandleFirst(p, q, n - 1, now, os);
      if r.Some? {
        assert SlotAfter(p, q, n - 1, n - 1, now, os, r.value);
        RoundIsLocal(p, q, r.value, n - 1, now, os(n - 1));
        var r1 := HandleFirst(p, q, n, now, os);
        forall i | 0 <= i < |q.slots| && r1.Some? ensures SlotAfter(p, q, i, n, now, os, r1.value) {
          assert SlotAfter(p, q, i, n - 1, now, os, r.value);
        }
      }
    }
  }

  ghost predicate SlotAfter(p: Policy, q: Queue, i: nat, n: nat, now: int, os: nat -> Outcome, q': Queue)
    requires i < |q.slots| == |q.last| == |q'.slots| == |q'.last|
  {
    if i < n then
      var r := HandleSlot(p, q, i, now, os(i));
      r.Some? && q'.slots[i] == r.value.slots[i] && q'.last[i] == r.value.last[i]
    else q'.slots[i] == q.slots[i] && q'.last[i] == q.last[i]
  }

  /** A round depends on its own slot only and changes no other. */
  lemma RoundIsLocal(p: Policy, q: Queue, q1: Queue, i: nat, now: int, o: Outcome)
    requires i < |q.slots| == |q.last| == |q1.slots| == |q1.last|
    requires q1.slots[i] == q.slots[i] && q1.last[i] == q.last[i]
    ensures var r, r1 := HandleSlot(p, q, i, now, o), HandleSlot(p, q1, i, now, o);
            && (r.Some? <==> r1.Some?)
            && (r1.Some? ==> r1.value.slots[i] == r.value.slots[i] && r1.value.last[i] == r.value.last[i])
            && (r1.Some? ==> forall j :: 0 <= j < |q.slots| && j != i ==>
                               r1.value.slots[j] == q1.slots[j] && r1.value.last[j] == q1.last[j])
  {
    hide Send, AllSent;
  }

  ghost predicate Freed(q: Queue, i: nat, q': Queue)
    requires i < |q.slots| == |q.last|
  {
    q' == Queue(q.slots[i := Free], q.last[i := 0], q.count - 1, q.spooled)
  }

  ghost predicate Kept(q: Queue, i: nat, now: int, o: Outcome, q': Queue)
    requires i < |q.slots| == |q.last| && q.slots[i].Held?
  {
    var m := q.slots[i].mail;
    var left := Mail(m.id, m.created, m.sender, Pending(m.recipients, o), m.original,
                     m.delivered + Delivered(m.recipients, o), m.attempts + [now]);
    q' == Queue(q.slots[i := Held(left)], q.last[i := now], q.count, q.spooled)
  }

  /** A message with its times read on a clock that is c ahead. */
  function Ahead(s: Slot, c: int): Slot
    requires s.Held?
  {
    Held(s.mail.(created := s.mail.created + c))
  }

  /** Setting the clock changes nothing, as long as it shows more than the delay and all times are set with it. */
  lemma ClockSet(p: Policy, q: Queue, i: nat, now: int, o: Outcome, c: int)
    requires i < |q.slots| == |q.last| && q.slots[i].Held? && now > p.delay && now + c > p.delay
    ensures var q' := q.(slots := q.slots[i := Ahead(q.slots[i], c)], last := q.last[i := q.last[i] + c]);
            var r, r' := HandleSlot(p, q, i, now, o), HandleSlot(p, q', i, now + c, o);
            && (r.None? <==> r'.None?)
            && (r.Some? ==> (r.value.slots[i].Free? <==> r'.value.slots[i].Free?))
            && (r.Some? && r.value.slots[i].Held? ==>
                  r.value.slots[i].mail.recipients == r'.value.slots[i].mail.recipients)
  {
    hide Pending, Delivered;
    var q' := q.(slots := q.slots[i := Ahead(q.slots[i], c)], last := q.last[i := q.last[i] + c]);
    SlotExactly(p, q, i, now, o);
    SlotExactly(p, q', i, now + c, o);
  }

  // ----- runs ------------------------------------------------------------------------------------

  datatype Op = AddOp(mail: Mail) | HandleOp(now: int, outcomes: nat -> Outcome)

  ghost function Apply(p: Policy, q: Queue, op: Op): (r: Option<Queue>)
    requires |q.slots| == |q.last|
    ensures r.Some? ==> |r.value.slots| == |r.value.last|
  {
    match op
    case AddOp(m) => Some(Add(p, q, m).0)
    case HandleOp(now, os) => Handle(p, q, now, os)
  }

  /** The queue after a run, None if the run crashed. */
  ghost function Run(p: Policy, q: Queue, ops: seq<Op>): Option<Queue>
    requires |q.slots| == |q.last|
    decreases |ops|
  {
    if ops == [] then Some(q)
    else
      match Apply(p, q, ops[0])
      case None => None
      case Some(q1) => Run(p, q1, ops[1..])
  }

  /**
   * In every state of every run: the count is right, every queued message has exactly its original
   * far recipients served or waiting, and its attempts were more than the delay apart.
   */
  lemma {:induction false} RunInv(p: Policy, q: Queue, ops: seq<Op>)
    requires QInv(q, p.delay)
    ensures Run(p, q, ops).Some? ==> QInv(Run(p, q, ops).value, p.delay)
    decreases |ops|
  {
    if ops != [] {
      match ops[0] {
        case AddOp(m) => AddInv(p, q, m);
        case HandleOp(now, os) => HandleInv(p, q, |q.slots|, now, os);
      }
      match Apply(p, q, ops[0]) {
        case None =>
        case Some(q1) => RunInv(p, q1, ops[1..]);
      }
    }
  }

  /** A message up to its lifetime old leaves its slot only when all its recipients have been served. */
  lemma FreedMeansServed(p: Policy, q: Queue, i: nat, now: int, o: Outcome)
    requires QInv(q, p.delay) && i < |q.slots| && q.slots[i].Held? && now - q.slots[i].mail.created <= p.lifetime
    ensures var m, r := q.slots[i].mail, HandleSlot(p, q, i, now, o);
            r.Some? && (r.value.slots[i].Free? ==>
                          multiset(m.delivered + Delivered(m.recipients, o)) == multiset(m.original))
  {
    var m := q.slots[i].mail;
    if now - q.last[i] > p.delay {
      SendTracks(p, m, q.last[i], now, o);
    }
  }
}
