/** The message and queue objects of server/mailqueue.cpp, proved to act as module QueueSpec says. */
module MailQueue {
  import opened CStrings
  import opened Delivery
  import opened QueueSpec
  import L = QueueLedger

  class Message {
    const id: string
    const createTime: int
    var senderAddress: string
    var recipientsAddress: seq<string>
    ghost var original: seq<string>
    ghost var delivered: seq<string>
    ghost var attempts: seq<int>

    ghost function V(): Mail
      reads this
    {
      Mail(id, createTime, senderAddress, recipientsAddress, original, delivered, attempts)
    }

    constructor (id: string, sender: string, recipients: seq<string>, createTime: int)
      ensures V() == Mail(id, createTime, sender, recipients, recipients, [], [])
    {
      this.id, this.createTime := id, createTime;
      senderAddress, recipientsAddress := sender, recipients;
      original, delivered, attempts := recipients, [], [];
    }

    method ReplaceInfo(sender: string, recipients: seq<string>)
      modifies this`senderAddress, this`recipientsAddress
      ensures V() == old(V()).(sender := sender, recipients := recipients)
    {
      senderAddress, recipientsAddress := sender, recipients;
    }
  }

  /** Whether the domain is not among the first count. */
  method IsNewDomain(domains: array<string>, count: nat, domain: string) returns (isNew: bool)
    requires count <= domains.Length
    ensures isNew <==> domain !in domains[..count]
  {
    isNew := true;
    var j := 0;
    while j < count && isNew
      invariant j <= count
      invariant isNew <==> forall k :: 0 <= k < j ==> domains[k] != domain
      decreases count - j
    {
      if domains[j] == domain {
        isNew := false;
      }
      j := j + 1;
    }
    if !isNew {
      var k :| 0 <= k < j && domains[k] == domain;
      assert domains[..count][k] == domain;
    }
  }

  /** Appends a domain that is not there yet. */
  method NoteDomain(domains: array<string>, count: nat, domain: string) returns (newCount: nat)
    requires count < domains.Length
    modifies domains
    ensures newCount <= count + 1
    ensures domains[..newCount] == WithDomain(old(domains[..count]), domain)
  {
    newCount := count;
    var isNew := IsNewDomain(domains, count, domain);
    if isNew {
      domains[count] := domain;
      newCount := count + 1;
      assert domains[..newCount] == domains[..count] + [domain];
    }
  }

  /** The distinct domains, in an array with one cell per recipient and a count. */
  method GetDomains(recipients: seq<string>) returns (domains: array<string>, count: nat)
    ensures fresh(domains) && domains.Length == |recipients| && count <= domains.Length
    ensures domains[..count] == Domains(recipients)
  {
    hide Domains, WithDomain;
    domains := new string[|recipients|];
    count := 0;
    NoDomains();
    for i := 0 to |recipients|
      invariant count <= i
      invariant domains[..count] == Domains(recipients[..i])
    {
      DomainsStep(recipients, i);
      var atpos := FindAtSymbol(recipients[i]);
      count := NoteDomain(domains, count, recipients[i][atpos + 1..]);
    }
    assert recipients[..|recipients|] == recipients;
  }

  /** Appends one recipient if it is in the domain. */
  method CollectOne(recipient: string, domain: string, into: array<string>, end: nat) returns (newEnd: nat)
    requires end + |IfInDomain(recipient, domain)| <= into.Length
    modifies into
    ensures newEnd == end + |IfInDomain(recipient, domain)|
    ensures into[..newEnd] == old(into[..end]) + IfInDomain(recipient, domain)
  {
    newEnd := end;
    var atpos := FindAtSymbol(recipient);
    assert recipient[atpos + 1..] == DomainOf(recipient);
    hide DomainOf, AtPos;
    if recipient[atpos + 1..] == domain {
      into[end] := recipient;
      newEnd := end + 1;
      assert into[..newEnd] == into[..end] + [recipient];
    }
  }

  /** Appends to an array, from a given position on, the recipients in one domain. */
  method CollectDomain(recipients: seq<string>, domain: string, into: array<string>, start: nat)
    returns (end: nat)
    requires start + |InDomain(recipients, domain)| <= into.Length
    modifies into
    ensures end == start + |InDomain(recipients, domain)|
    ensures into[..end] == old(into[..start]) + InDomain(recipients, domain)
  {
    hide InDomain, IfInDomain;
    end := start;
    NoneInDomain(domain);
    for j := 0 to |recipients|
      invariant end == start + |InDomain(recipients[..j], domain)|
      invariant end <= into.Length
      invariant into[..end] == old(into[..start]) + InDomain(recipients[..j], domain)
    {
      InDomainStep(recipients, domain, j);
      InDomainPrefix(recipients, domain, j + 1);
      end := CollectOne(recipients[j], domain, into, end);
    }
    assert recipients[..|recipients|] == recipients;
  }

  lemma {:induction false} InDomainPrefix(rs: seq<string>, d: string, j: nat)
    requires j <= |rs|
    ensures |InDomain(rs[..j], d)| <= |InDomain(rs, d)|
  {
    if j < |rs| {
      InDomainPrefix(rs[..|rs| - 1], d, j);
      assert rs[..|rs| - 1][..j] == rs[..j];
    } else {
      assert rs[..j] == rs;
    }
  }

  lemma GatherNone(rs: seq<string>, keep: Outcome)
    ensures Gather(rs, [], keep) == []
  {
  }

  lemma {:induction false} InDomainFits(rs: seq<string>, d: string)
    ensures |InDomain(rs, d)| <= |rs|
  {
    if rs != [] {
      InDomainFits(rs[..|rs| - 1], d);
    }
  }

  ghost function SlotOf(m: Message?): Slot
    reads m
  {
    if m == null then Free else Held(m.V())
  }

  ghost function SlotsOf(ms: seq<Message?>): (slots: seq<Slot>)
    reads ms
    ensures |slots| == |ms| && forall i :: 0 <= i < |ms| ==> slots[i] == SlotOf(ms[i])
  {
    if ms == [] then [] else SlotsOf(ms[..|ms| - 1]) + [SlotOf(ms[|ms| - 1])]
  }

  lemma FreeWhenRoom(q: Queue, delay: int)
    requires QInv(q, delay)
    ensures q.count < |q.slots| ==> FirstFree(q.slots) < |q.slots|
  {
    OccupiedBound(q.slots);
  }

  class MailQueue {
    const policy: Policy
    const messageList: array<Message?>
    const lastSendAttempt: array<int>
    var messageCount: int
    /** What local delivery appended to the mailboxes. */
    var spooled: seq<string>

    ghost function View(): Queue
      reads this, messageList, lastSendAttempt, messageList[..]
    {
      Queue(SlotsOf(messageList[..]), lastSendAttempt[..], messageCount, spooled)
    }

    /** No message sits in two slots. */
    ghost predicate Distinct()
      reads this, messageList
    {
      forall i, j :: 0 <= i < j < messageList.Length && messageList[i] != null ==> messageList[i] != messageList[j]
    }

    ghost predicate Valid()
      reads this, messageList, lastSendAttempt, messageList[..]
    {
      && messageList.Length == lastSendAttempt.Length
      && Distinct()
      && QInv(View(), policy.delay)
    }

    constructor (policy: Policy, maxMessageCount: nat)
      ensures Valid() && View() == Empty(maxMessageCount) && this.policy == policy
      ensures fresh(messageList) && fresh(lastSendAttempt)
      ensures forall i :: 0 <= i < messageList.Length ==> messageList[i] == null
    {
      this.policy := policy;
      messageList := new Message?[maxMessageCount](_ => null);
      lastSendAttempt := new int[maxMessageCount](_ => 0);
      messageCount := 0;
      spooled := [];
      new;
      EmptyInv(maxMessageCount, policy.delay);
      assert View().slots == Empty(maxMessageCount).slots;
      assert View().last == Empty(maxMessageCount).last;
    }

    /** Rebuilds the recipient list from the domains that failed, in an array of the old size. */
    method Rebuild(message: Message, domains: array<string>, domainsDone: array<bool>, count: nat, ghost o: Outcome)
      requires count <= domains.Length && count <= domainsDone.Length
      requires domains[..count] == Domains(message.recipientsAddress)
      requires forall k :: 0 <= k < count ==> domainsDone[k] == o(domains[k])
      modifies message`senderAddress, message`recipientsAddress
      ensures message.V() == old(message.V()).(recipients := Pending(old(message.recipientsAddress), o))
    {
      hide Domains, InDomain, Gather;
      var recipients := message.recipientsAddress;
      ghost var ds, keep := Domains(recipients), Fails(o);
      DomainsDistinct(recipients);
      GatherNone(recipients, keep);
      var newRecipientsCount := 0;
      var newRecipients := new string[|recipients|];
      for i := 0 to count
        invariant message.V() == old(message.V())
        invariant 0 <= newRecipientsCount <= newRecipients.Length
        invariant newRecipients[..newRecipientsCount] == Gather(recipients, ds[..i], keep)
      {
        assert domains[i] == domains[..count][i];
        GatherStep(recipients, ds, i, keep);
        if !domainsDone[i] {
          newRecipientsCount := CollectDomain(recipients, domains[i], newRecipients, newRecipientsCount);
        }
      }
      assert ds[..count] == ds;
      message.ReplaceInfo(message.senderAddress, newRecipients[..newRecipientsCount]);
    }

    /** Contacts the server of each domain; whoever the servers took is recorded as delivered. */
    method ContactDomains(message: Message, domains: array<string>, count: nat, o: Outcome)
      returns (domainsDone: array<bool>)
      requires count <= domains.Length && domains[..count] == Domains(message.recipientsAddress)
      modifies message`delivered
      ensures fresh(domainsDone) && domainsDone.Length == count
      ensures forall k :: 0 <= k < count ==> domainsDone[k] == o(domains[k])
      ensures message.delivered == old(message.delivered) + Delivered(message.recipientsAddress, o)
    {
      hide Domains, InDomain, Gather;
      var recipients := message.recipientsAddress;
      ghost var ds := Domains(recipients);
      DomainsDistinct(recipients);
      GatherNone(recipients, o);
      domainsDone := new bool[count](_ => false);
      for i := 0 to count
        invariant forall k :: 0 <= k < i ==> domainsDone[k] == o(domains[k])
        invariant forall k :: i <= k < count ==> !domainsDone[k]
        invariant message.delivered == old(message.delivered) + Gather(recipients, ds[..i], o)
      {
        assert domains[i] == domains[..count][i];
        GatherStep(recipients, ds, i, o);
        InDomainFits(recipients, domains[i]);
        var domainRecipients := new string[|recipients|];
        var domainRecipientsCount := CollectDomain(recipients, domains[i], domainRecipients, 0);
        if o(domains[i]) {
          message.delivered := message.delivered + domainRecipients[..domainRecipientsCount];
          domainsDone[i] := true;
        }
      }
      assert ds[..count] == ds;
    }

    method AllDone(domainsDone: array<bool>) returns (all: bool)
      ensures all <==> forall k :: 0 <= k < domainsDone.Length ==> domainsDone[k]
    {
      for i := 0 to domainsDone.Length
        invariant forall k :: 0 <= k < i ==> domainsDone[k]
      {
        if !domainsDone[i] {
          return false;
        }
      }
      return true;
    }

    /** Sends one message to the servers of its domains; 0 exactly when nobody is left waiting. */
    method SendMessage(message: Message, now: int, outcome: Outcome) returns (rc: int)
      modifies message
      ensures message.V() == Send(old(message.V()), now, outcome)
      ensures rc == if AllSent(old(message.V()), outcome) then 0 else -1
    {
      hide Pending, Delivered, Domains;
      var domains, count := GetDomains(message.recipientsAddress);
      var domainsDone := ContactDomains(message, domains, count, outcome);
      var allDomainsDone := AllDone(domainsDone);
      message.attempts := message.attempts + [now];
      PendingEmpty(message.recipientsAddress, outcome);
      assert allDomainsDone <==> forall d :: d in domains[..count] ==> outcome(d) by {
        if !allDomainsDone {
          var k :| 0 <= k < count && !domainsDone[k];
          assert domains[k] in domains[..count];
        }
      }
      if !allDomainsDone {
        Rebuild(message, domains, domainsDone, count, outcome);
      }
      return if allDomainsDone then 0 else -1;
    }

    /** Local delivery of one copy. */
    method DeliverMessage(recipient: string) returns (status: int)
      modifies this`spooled
      ensures status == if policy.spools(recipient) then 0 else -1
      ensures spooled == old(spooled) + if policy.spools(recipient) then [recipient] else []
    {
      if !policy.spools(recipient) {
        return -1;
      }
      spooled := spooled + [recipient];
      return 0;
    }

    /** Delivers to a local recipient, or keeps a far one. */
    method DeliverOrKeep(recipient: string, far: array<string>, farCount: nat) returns (count: nat)
      requires farCount < far.Length
      modifies this`spooled, far
      ensures farCount <= count <= farCount + 1
      ensures far[..count] == old(far[..farCount]) + FarPart(policy, recipient)
      ensures spooled == old(spooled) + SpooledPart(policy, recipient)
    {
      count := farCount;
      var atpos := FindAtSymbol(recipient);
      if recipient[atpos + 1..] == policy.domain {
        var status := DeliverMessage(recipient);
      } else {
        far[farCount] := recipient;
        count := farCount + 1;
        assert far[..count] == far[..farCount] + [recipient];
      }
    }

    /** Delivers to the local recipients and collects the others. */
    method SplitRecipients(recipients: seq<string>) returns (far: array<string>, farCount: nat)
      modifies this`spooled
      ensures fresh(far) && farCount <= far.Length && far[..farCount] == Far(policy, recipients)
      ensures spooled == old(spooled) + Spooled(policy, recipients)
    {
      hide Far, Spooled, FarPart, SpooledPart;
      far := new string[|recipients|];
      farCount := 0;
      ghost var was := spooled;
      SplitNone(policy);
      for i := 0 to |recipients|
        invariant farCount <= i && far[..farCount] == Far(policy, recipients[..i])
        invariant spooled == was + Spooled(policy, recipients[..i])
      {
        SplitOne(policy, recipients, i);
        farCount := DeliverOrKeep(recipients[i], far, farCount);
      }
      assert recipients[..|recipients|] == recipients;
    }

    /** The table holds nothing but what it held and this message. */
    ghost predicate OnlyAdds(held: seq<Message?>, message: Message)
      reads this, messageList
    {
      forall i :: 0 <= i < messageList.Length && messageList[i] != null ==>
                    messageList[i] == message || messageList[i] in held
    }

    /** Stores a message in the first free slot. */
    method Place(message: Message)
      requires messageList.Length == lastSendAttempt.Length && message !in messageList[..]
      requires FirstFree(View().slots) < messageList.Length
      modifies messageList
      ensures messageList[..] == old(messageList[..])[FirstFree(old(View()).slots) := message]
    {
      ghost var slots := View().slots;
      var i := 0;
      while messageList[i] != null
        invariant i <= FirstFree(slots) < messageList.Length
        decreases messageList.Length - i
      {
        assert slots[i] == SlotOf(messageList[i]);
        i := i + 1;
      }
      assert slots[i] == SlotOf(messageList[i]);
      messageList[i] := message;
    }

    /** Narrows a message that is not queued yet to its far recipients. */
    method Retarget(message: Message, far: seq<string>)
      requires message !in messageList[..]
      modifies message
      ensures View() == old(View())
      ensures message.V() == old(message.V()).(recipients := far, original := far, delivered := [], attempts := [])
    {
      hide SlotsOf;
      ghost var q := View();
      message.ReplaceInfo(message.senderAddress, far);
      message.original, message.delivered, message.attempts := far, [], [];
      assert View().slots == q.slots;
    }

    /** Puts a message in the first free slot and counts it. */
    method Store(message: Message)
      requires messageList.Length == lastSendAttempt.Length && message !in messageList[..]
      requires Distinct() && FirstFree(View().slots) < messageList.Length
      modifies this`messageCount, messageList
      ensures Distinct() && OnlyAdds(old(messageList[..]), message)
      ensures var q, i := old(View()), FirstFree(old(View()).slots);
              View() == q.(slots := q.slots[i := Held(message.V())], count := q.count + 1)
    {
      hide SlotsOf;
      ghost var q, before := View(), messageList[..];
      ghost var i := FirstFree(q.slots);
      Place(message);
      messageCount := messageCount + 1;
      assert forall j :: 0 <= j < messageList.Length && j != i ==> messageList[j] == before[j];
      assert View().slots == q.slots[i := Held(message.V())];
    }

    /** Queues a message for its far recipients. */
    method Enqueue(message: Message, far: seq<string>)
      requires messageList.Length == lastSendAttempt.Length && message !in messageList[..]
      requires Distinct() && FirstFree(View().slots) < messageList.Length
      modifies this`messageCount, messageList, message
      ensures Distinct() && OnlyAdds(old(messageList[..]), message)
      ensures var q, i := old(View()), FirstFree(old(View()).slots);
              var held := Held(old(message.V()).(recipients := far, original := far, delivered := [], attempts := []));
              View() == q.(slots := q.slots[i := held], count := q.count + 1)
    {
      hide SlotsOf;
      Retarget(message, far);
      Store(message);
    }

    method AddMessage(message: Message) returns (rc: int)
      requires Valid() && message !in messageList[..]
      modifies this, messageList, message
      ensures Valid() && (View(), rc) == Add(policy, old(View()), old(message.V()))
      ensures OnlyAdds(old(messageList[..]), message)
    {
      hide QInv, SlotsOf, Far, Spooled;
      ghost var q := View();
      AddInv(policy, q, message.V());
      FreeWhenRoom(q, policy.delay);
      if messageCount >= messageList.Length {
        return -1;
      }
      var far, farCount := SplitRecipients(message.recipientsAddress);
      assert View().slots == q.slots;
      if farCount > 0 {
        Enqueue(message, far[..farCount]);
      }
      return messageCount;
    }

    /** Empties an occupied slot. */
    method Release(i: nat)
      requires messageList.Length == lastSendAttempt.Length && i < messageList.Length && Distinct()
      requires messageList[i] != null
      modifies this`messageCount, messageList, lastSendAttempt
      ensures View() == Delete(old(View()), i) && Distinct()
      ensures messageList[..] == old(messageList[..])[i := null]
    {
      hide SlotsOf;
      ghost var q := View();
      messageList[i] := null;
      lastSendAttempt[i] := 0;
      messageCount := messageCount - 1;
      assert View().slots == q.slots[i := Free];
    }

    method DeleteMessageFromQueue(i: int) returns (rc: int)
      requires messageList.Length == lastSendAttempt.Length && Distinct()
      modifies this`messageCount, messageList, lastSendAttempt
      ensures rc == if i < 0 || i >= messageList.Length then -1
                    else if old(messageList[i]) == null then -2 else 0
      ensures View() == if rc == 0 then Delete(old(View()), i) else old(View())
      ensures Distinct()
      ensures messageList[..] == if rc == 0 then old(messageList[..])[i := null] else old(messageList[..])
    {
      if i < 0 || i >= messageList.Length {
        return -1;
      }
      if messageList[i] == null {
        return -2;
      }
      Release(i);
      return 0;
    }

    /** Sends the message of a slot and frees the slot or notes the time. */
    method Attempt(i: nat, now: int, o: Outcome)
      requires messageList.Length == lastSendAttempt.Length && i < messageList.Length && Distinct()
      requires messageList[i] != null
      modifies this`messageCount, messageList, lastSendAttempt, messageList[i]
      ensures Distinct() && View() == Attempted(old(View()), i, now, o)
      ensures forall i :: 0 <= i < messageList.Length && messageList[i] != null ==>
                            messageList[i] in old(messageList[..])
    {
      hide SlotsOf, Send;
      ghost var q := View();
      var rc := SendMessage(messageList[i], now, o);
      ghost var sent := Held(messageList[i].V());
      assert View().slots == q.slots[i := sent];
      if rc == 0 {
        Release(i);
        assert q.slots[i := sent][i := Free] == q.slots[i := Free];
      } else {
        lastSendAttempt[i] := now;
        assert View().last == q.last[i := now];
      }
    }

    /** One round of HandleQueue's loop; false when the round would send an empty slot. */
    method HandleOne(i: nat, now: int, o: Outcome) returns (ok: bool)
      requires Valid() && i < messageList.Length
      modifies this`messageCount, messageList, lastSendAttempt, messageList[i]
      ensures ok <==> HandleSlot(policy, old(View()), i, now, o).Some?
      ensures ok ==> Valid() && Some(View()) == HandleSlot(policy, old(View()), i, now, o)
      ensures forall i :: 0 <= i < messageList.Length && messageList[i] != null ==>
                            messageList[i] in old(messageList[..])
    {
      hide SlotsOf, QInv, Send;
      ghost var q := View();
      HandleSlotInv(policy, q, i, now, o);
      ok := true;
      if messageList[i] == null {
        return;
      }
      if now - messageList[i].createTime > policy.lifetime {
        var rc := DeleteMessageFromQueue(i);
      }
      if now - lastSendAttempt[i] > policy.delay {
        if messageList[i] == null {
          return false;
        }
        Attempt(i, now, o);
      }
    }

    /** No message was created earlier. */
    ghost predicate NoneOlder(time: int)
      reads this, messageList
    {
      forall i :: 0 <= i < messageList.Length && messageList[i] != null ==> messageList[i].createTime >= time
    }

    lemma AgesInView(time: int)
      requires messageList.Length == lastSendAttempt.Length
      ensures NoneOlder(time) <==>
              forall i :: 0 <= i < |View().slots| && View().slots[i].Held? ==> View().slots[i].mail.created >= time
    {
      var slots := View().slots;
      assert forall i :: 0 <= i < messageList.Length ==> slots[i] == SlotOf(messageList[i]);
    }

    lemma PassFails(q: Queue, now: int, os: nat -> Outcome)
      requires q == View() && Valid()
      ensures Handle(policy, q, now, os).Some? <==> now <= policy.delay || NoneOlder(now - policy.lifetime)
    {
      hide HandleFirst;
      AgesInView(now - policy.lifetime);
      HandleCompletes(policy, q, |q.slots|, now, os);
    }

    /** One pass over the queue; false when the pass would dereference an empty slot. */
    method HandleQueue(now: int, os: nat -> Outcome) returns (ok: bool)
      requires Valid()
      modifies this`messageCount, messageList, lastSendAttempt, messageList[..]
      ensures ok <==> Handle(policy, old(View()), now, os).Some?
      ensures ok <==> now <= policy.delay || old(NoneOlder(now - policy.lifetime))
      ensures ok ==> Valid() && Some(View()) == Handle(policy, old(View()), now, os)
      ensures forall i :: 0 <= i < messageList.Length && messageList[i] != null ==>
                            messageList[i] in old(messageList[..])
    {
      hide SlotsOf, QInv, HandleSlot, Distinct, NoneOlder;
      ghost var q := View();
      ghost var none := NoneOlder(now - policy.lifetime);
      assert Handle(policy, q, now, os).Some? <==> now <= policy.delay || none by {
        PassFails(q, now, os);
      }
      for i := 0 to messageList.Length
        invariant Valid() && Some(View()) == HandleFirst(policy, q, i, now, os)
        invariant forall i :: 0 <= i < messageList.Length && messageList[i] != null ==>
                                messageList[i] in old(messageList[..])
      {
        assert messageList[i] != null ==> messageList[i] in messageList[..];
        ok := HandleOne(i, now, os(i));
        if !ok {
          FailedStays(policy, q, i + 1, messageList.Length, now, os);
          return false;
        }
      }
      return true;
    }
  }

  /** What an addition leaves depends on the id, the time, the sender and the recipients only. */
  lemma AddForgets(p: Policy, q: Queue, m: Mail)
    ensures Add(p, q, m) == Add(p, q, Mail(m.id, m.created, m.sender, m.recipients, m.recipients, [], []))
  {
  }

  method Operate(q: MailQueue, op: Op) returns (ok: bool)
    requires q.Valid() && |q.View().slots| == |q.View().last|
    modifies q, q.messageList, q.lastSendAttempt, q.messageList[..]
    ensures ok <==> Apply(q.policy, old(q.View()), op).Some?
    ensures ok ==> q.Valid() && Some(q.View()) == Apply(q.policy, old(q.View()), op)
    ensures |q.View().slots| == |q.View().last|
    ensures forall i :: 0 <= i < q.messageList.Length && q.messageList[i] != null ==>
                          q.messageList[i] in old(q.messageList[..]) || fresh(q.messageList[i])
  {
    hide QInv, SlotsOf, Add, Handle;
    match op {
      case AddOp(mail) =>
        var message := new Message(mail.id, mail.sender, mail.recipients, mail.created);
        AddForgets(q.policy, q.View(), mail);
        var _ := q.AddMessage(message);
        ok := true;
      case HandleOp(now, os) =>
        ok := q.HandleQueue(now, os);
    }
  }

  /**
   * A queue from its start through additions and passes, until a pass fails. It ends in the state the
   * run says, so the invariant holds of it and everybody it accepted is accounted for.
   */
  method RunQueue(policy: Policy, n: nat, ops: seq<Op>) returns (q: MailQueue, ok: bool)
    ensures q.policy == policy && (ok <==> Run(policy, Empty(n), ops).Some?)
    ensures ok ==> q.Valid() && Run(policy, Empty(n), ops) == Some(q.View())
    ensures ok ==> var b := L.Books(policy, Empty(n), ops);
                   && b.accepted == b.served + L.Waiting(q.View().slots) + b.dropped + multiset(q.spooled) + b.lost
                   && (b.lost == multiset{} <==> L.AllHaveMailboxes(policy, b.accepted))
  {
    hide QInv, SlotsOf, L.Books, L.Waiting, Add, Handle;
    q := new MailQueue(policy, n);
    var k := 0;
    ok := true;
    while k < |ops|
      invariant k <= |ops| && ok && q.policy == policy && q.Valid()
      invariant fresh(q) && fresh(q.messageList) && fresh(q.lastSendAttempt)
      invariant forall i :: 0 <= i < q.messageList.Length ==> q.messageList[i] == null || fresh(q.messageList[i])
      invariant |q.View().slots| == |q.View().last|
      invariant Run(policy, q.View(), ops[k..]) == Run(policy, Empty(n), ops)
    {
      assert ops[k..][1..] == ops[k + 1..];
      ok := Operate(q, ops[k]);
      if !ok {
        return;
      }
      k := k + 1;
    }
    L.NobodyLost(policy, n, ops);
  }
}
