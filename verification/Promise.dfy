/**
 * What the 250 at the end of a mail's data promises: the sessions of server/smtpsrvs.cpp hand mail to the
 * queue of server/mailqueue.cpp, which answers for every recipient.
 */
module Promise {
  import opened CStrings
  import opened Smtp
  import opened SmtpProofs
  import opened SmtpMail
  import opened SmtpTransaction
  import opened Buffer
  import C = SmtpCodes
  import Q = QueueSpec
  import L = QueueLedger

  // ----- one 250 for each mail taken -------------------------------------------------------------

  function Oks(sent: seq<Reply>): nat {
    multiset(sent)[DataOk]
  }

  function TakenCount(handed: seq<Submission>): nat {
    if handed == [] then 0
    else TakenCount(handed[..|handed| - 1]) + (if handed[|handed| - 1].taken then 1 else 0)
  }

  lemma TakenOneMore(handed: seq<Submission>, s: Submission)
    ensures TakenCount(handed + [s]) == TakenCount(handed) + if s.taken then 1 else 0
  {
    assert (handed + [s])[..|handed|] == handed;
  }

  ghost predicate Even(m: Machine) {
    Oks(m.sent) == TakenCount(m.handed)
  }

  /** Under LMTP the data is answered without handing anything over. */
  ghost predicate Honest(m: Machine) {
    if m.phase == BeforeHello then m.handed == [] && Even(m)
    else if m.protocols.lmtp then m.handed == []
    else Even(m)
  }

  /** One reply, which is not the 250 at the end of the data. */
  ghost predicate SaysOther(m: Machine, m': Machine) {
    exists r :: m'.sent == m.sent + [r] && r != DataOk
  }

  /** The protocols are settled once the client has said hello. */
  ghost predicate Settled(m: Machine, m': Machine) {
    m.phase != BeforeHello ==> m'.phase != BeforeHello && m'.protocols == m.protocols
  }

  lemma HelloOther(m: Machine, param: string, h: Hello)
    ensures SaysOther(m, ProcessHello(m, param, h)) && Settled(m, ProcessHello(m, param, h))
  {
  }

  lemma MailOther(m: Machine, param: string)
    requires TakesCommands(m)
    ensures SaysOther(m, ProcessMail(m, param)) && Settled(m, ProcessMail(m, param))
  {
  }

  lemma RcptOther(cfg: Config, m: Machine, param: string)
    requires TakesCommands(m)
    ensures SaysOther(m, ProcessRcpt(cfg, m, param)) && Settled(m, ProcessRcpt(cfg, m, param))
  {
  }

  lemma AuthOther(m: Machine, param: string)
    ensures SaysOther(m, ProcessAuth(m, param)) && Settled(m, ProcessAuth(m, param))
  {
  }

  lemma VerbOther(cfg: Config, m: Machine, verb: Verb, param: string)
    requires TakesCommands(m)
    ensures SaysOther(m, ProcessVerb(cfg, m, verb, param)) && Settled(m, ProcessVerb(cfg, m, verb, param))
  {
    match verb {
      case Helo => HelloOther(m, param, HeloSmtp);
      case Ehlo => HelloOther(m, param, EhloEsmtp);
      case Lhlo => HelloOther(m, param, LhloLmtp);
      case MailFrom => MailOther(m, param);
      case RcptTo => RcptOther(cfg, m, param);
      case Auth => AuthOther(m, param);
      case _ =>
    }
  }

  lemma UsernameOther(cfg: Config, m: Machine, line: string)
    requires m.phase == WaitingUsername
    ensures var m' := FetchUsername(cfg, m, line); SaysOther(m, m') && m'.handed == m.handed && Settled(m, m')
  {
  }

  lemma PasswordOther(cfg: Config, m: Machine, line: string)
    requires m.phase == WaitingPassword
    ensures var m' := FetchPassword(cfg, m, line); SaysOther(m, m') && m'.handed == m.handed && Settled(m, m')
  {
    hide PasswordMatches;
  }

  lemma OtherKeepsEven(m: Machine, m': Machine)
    requires SaysOther(m, m') && m'.handed == m.handed && Even(m)
    ensures Even(m')
  {
  }

  /** What a session with a sender would hand over now. */
  function Own(cfg: Config, m: Machine): Submission
    requires m.sender.Some?
  {
    Submission(m.sender.value, m.recipients, m.msgData, cfg.queueTakes(|m.handed|))
  }

  /** The end of the data is answered 250 exactly when a message was handed over and taken. */
  lemma EndKeepsEven(cfg: Config, m: Machine)
    requires Inv(cfg, m) && m.phase == Data && !m.protocols.lmtp && Even(m)
    ensures Even(ProcessData(cfg, m, "."))
  {
    hide TakenCount;
    var code, m' := DataEndCode(cfg, m), ProcessData(cfg, m, ".");
    if code == 250 {
      TakenOneMore(m.handed, Own(cfg, m));
    }
  }

  lemma DataHonest(cfg: Config, m: Machine, line: string)
    requires Inv(cfg, m) && m.phase == Data && Honest(m)
    ensures Honest(ProcessData(cfg, m, line)) && Settled(m, ProcessData(cfg, m, line))
  {
    hide Even;
    AnswerKeepsLogin(cfg, m);
    if line == "." {
      if m.protocols.lmtp {
        RespondTimesOnlyTalks(m, |m.recipients|);
      } else {
        EndKeepsEven(cfg, m);
      }
    } else {
      ContentEven(cfg, m, line);
    }
  }

  lemma ContentEven(cfg: Config, m: Machine, line: string)
    ensures Even(AddContentLine(cfg, m, line)) <==> Even(m)
  {
  }

  lemma HonestStep(cfg: Config, m: Machine, line: string)
    requires Inv(cfg, m) && Honest(m)
    ensures Honest(ProcessLine(cfg, m, line))
  {
    hide Even, SaysOther;
    if m.phase == Data {
      DataHonest(cfg, m, line);
    } else {
      var m' := ProcessLine(cfg, m, line);
      if TakesCommands(m) {
        VerbOther(cfg, m, VerbOf(line), ParamOf(line));
        VerbAnswersOnce(cfg, m, VerbOf(line), ParamOf(line));
      } else if m.phase == WaitingUsername {
        UsernameOther(cfg, m, line);
      } else if m.phase == WaitingPassword {
        PasswordOther(cfg, m, line);
      }
      if Even(m) {
        OtherKeepsEven(m, m');
      }
    }
  }

  lemma {:induction false} HonestRun(cfg: Config, m: Machine, lines: seq<string>)
    requires Inv(cfg, m) && Honest(m)
    ensures Honest(Run(cfg, m, lines))
    decreases |lines|
  {
    hide Inv, Honest, ProcessLine;
    if lines != [] {
      InvStep(cfg, m, lines[0]);
      HonestStep(cfg, m, lines[0]);
      HonestRun(cfg, ProcessLine(cfg, m, lines[0]), lines[1..]);
    }
  }

  /**
   * On the wire, the lines that say 250 at the end of data are as many as the mails of the session that the
   * queue took.
   */
  ghost predicate Truthful(cfg: Config, m: Machine) {
    if m.protocols.lmtp && m.phase != BeforeHello then m.handed == []
    else C.OkLines(Lines(Render(cfg, m.sent))) == TakenCount(m.handed)
  }

  lemma HonestIsTruthful(cfg: Config, m: Machine)
    requires Honest(m) && OneLine(cfg.domain)
    ensures Truthful(cfg, m)
  {
    C.OkLinesSent(cfg, m.sent);
  }

  /** A session answers 250 to exactly the mails the queue has taken; under LMTP it hands over none. */
  lemma OkMeansTaken(cfg: Config, m: Machine, lines: seq<string>)
    requires Initial(m) && OneLine(cfg.domain)
    ensures Truthful(cfg, Run(cfg, m, lines))
  {
    InitialInv(cfg, m);
    HonestRun(cfg, m, lines);
    HonestIsTruthful(cfg, Run(cfg, m, lines));
  }

  // ----- sessions and queue together -------------------------------------------------------------

  /** The recipients of the mails the queue took. */
  function Promised(handed: seq<Submission>): multiset<string> {
    if handed == [] then multiset{}
    else
      var s := handed[|handed| - 1];
      Promised(handed[..|handed| - 1]) + (if s.taken then multiset(s.recipients) else multiset{})
  }

  function AllPromised(ms: seq<Machine>): multiset<string> {
    if ms == [] then multiset{} else AllPromised(ms[..|ms| - 1]) + Promised(ms[|ms| - 1].handed)
  }

  /** The server: its sessions, its queue, and what became of everybody so far. */
  datatype Server = Server(sessions: seq<Machine>, queue: Q.Queue, books: L.Ledger)

  /** A client connects, a session gets a line, or the queue is passed over. */
  datatype Event =
    | Connect(m: Machine)
    | Receive(i: nat, line: string, id: string, now: int)
    | Pass(at: int, outcomes: nat -> (string -> bool))

  /** The mail a session would queue now. */
  function MailOf(m: Machine, id: string, now: int): Q.Mail {
    Q.Mail(id, now, if m.sender.Some? then m.sender.value else "", m.recipients, m.recipients, [], [])
  }

  /** To the session, the queue's answer is what AddMessage says at this moment. */
  ghost function Asking(cfg: Config, p: Q.Policy, q: Q.Queue, mail: Q.Mail): Config {
    var takes := Q.Add(p, q, mail).1 >= 0;
    cfg.(queueTakes := _ => takes)
  }

  ghost function Booked(p: Q.Policy, v: Server, op: Q.Op): L.Ledger
    requires |v.queue.slots| == |v.queue.last|
  {
    L.Sum(v.books, L.Book(p, v.queue, op))
  }

  ghost function ReceiveLine(cfg: Config, p: Q.Policy, v: Server, i: nat, line: string, mail: Q.Mail): (r: Server)
    requires i < |v.sessions| && |v.queue.slots| == |v.queue.last|
    ensures |r.queue.slots| == |r.queue.last|
  {
    var m := ProcessLine(Asking(cfg, p, v.queue, mail), v.sessions[i], line);
    var v1 := v.(sessions := v.sessions[i := m]);
    if |m.handed| == |v.sessions[i].handed| then v1
    else v1.(queue := Q.Add(p, v.queue, mail).0, books := Booked(p, v, Q.AddOp(mail)))
  }

  /** One event; None when a pass fails. */
  ghost function Happens(cfg: Config, p: Q.Policy, v: Server, event: Event): (r: Option<Server>)
    requires |v.queue.slots| == |v.queue.last|
    ensures r.Some? ==> |r.value.queue.slots| == |r.value.queue.last|
  {
    match event
    case Connect(m) => Some(if Initial(m) then v.(sessions := v.sessions + [m]) else v)
    case Receive(i, line, id, now) =>
      if i >= |v.sessions| then Some(v)
      else Some(ReceiveLine(cfg, p, v, i, line, MailOf(v.sessions[i], id, now)))
    case Pass(at, outcomes) =>
      match Q.Handle(p, v.queue, at, outcomes)
      case None => None
      case Some(q) => Some(v.(queue := q, books := Booked(p, v, Q.HandleOp(at, outcomes))))
  }

  ghost function Serve(cfg: Config, p: Q.Policy, v: Server, events: seq<Event>): Option<Server>
    requires |v.queue.slots| == |v.queue.last|
    decreases |events|
  {
    if events == [] then Some(v)
    else
      match Happens(cfg, p, v, events[0])
      case None => None
      case Some(v1) => Serve(cfg, p, v1, events[1..])
  }

  ghost function Idle(n: nat): Server {
    Server([], Q.Empty(n), L.NOTHING)
  }

  // ----- what every event keeps ------------------------------------------------------------------

  ghost predicate AllHonest(cfg: Config, ms: seq<Machine>) {
    forall i :: 0 <= i < |ms| ==> Inv(cfg, ms[i]) && Honest(ms[i])
  }

  ghost predicate Accounted(p: Q.Policy, n: nat, v: Server) {
    && Q.QInv(v.queue, p.delay) && L.Balanced(Q.Empty(n), v.books, v.queue)
    && v.books.accepted == AllPromised(v.sessions) && L.HereSplit(p, v.books)
  }

  /** What a session holds of the queue's answer does not matter to its invariant. */
  lemma InvAsking(cfg: Config, p: Q.Policy, q: Q.Queue, mail: Q.Mail, m: Machine)
    ensures Inv(Asking(cfg, p, q, mail), m) <==> Inv(cfg, m)
  {
  }

  /** A line hands over at most the mail the session has at that moment, with the queue's answer. */
  lemma HandsOwn(cfg: Config, m: Machine, line: string)
    requires Inv(cfg, m)
    ensures var m' := ProcessLine(cfg, m, line);
            m'.handed == m.handed || (m.sender.Some? && m'.handed == m.handed + [Own(cfg, m)])
  {
    if TakesCommands(m) {
      VerbAnswersOnce(cfg, m, VerbOf(line), ParamOf(line));
    } else if m.phase == Data {
      AnswerHandsOwn(cfg, m);
    }
  }

  lemma AnswerHandsOwn(cfg: Config, m: Machine)
    requires Inv(cfg, m) && m.phase == Data
    ensures var m' := AnswerData(cfg, m);
            m'.handed == m.handed || m'.handed == m.handed + [Own(cfg, m)]
  {
    if m.protocols.lmtp {
      RespondTimesOnlyTalks(m, |m.recipients|);
    }
  }

  lemma {:induction false} PromisedUpdate(ms: seq<Machine>, i: nat, m: Machine, more: multiset<string>)
    requires i < |ms| && Promised(m.handed) == Promised(ms[i].handed) + more
    ensures AllPromised(ms[i := m]) == AllPromised(ms) + more
  {
    hide Promised;
    var n := |ms| - 1;
    if i < n {
      PromisedUpdate(ms[..n], i, m, more);
      assert ms[i := m][..n] == ms[..n][i := m];
      Regroup(AllPromised(ms[..n]), more, Promised(ms[n].handed));
    } else {
      assert ms[i := m][..n] == ms[..n];
      Regroup(AllPromised(ms[..n]), Promised(ms[n].handed), more);
    }
  }

  lemma Regroup(a: multiset<string>, b: multiset<string>, c: multiset<string>)
    ensures a + b + c == a + c + b && a + (b + c) == a + b + c
  {
  }

  lemma PromisedMore(handed: seq<Submission>, s: Submission)
    ensures Promised(handed + [s]) == Promised(handed) + if s.taken then multiset(s.recipients) else multiset{}
  {
    assert (handed + [s])[..|handed|] == handed;
  }

  lemma BookKeeps(p: Q.Policy, n: nat, v: Server, op: Q.Op)
    requires |v.queue.slots| == |v.queue.last|
    requires Q.QInv(v.queue, p.delay) && L.Balanced(Q.Empty(n), v.books, v.queue) && L.HereSplit(p, v.books)
    requires Q.Apply(p, v.queue, op).Some?
    ensures var q := Q.Apply(p, v.queue, op).value;
            && Q.QInv(q, p.delay) && L.Balanced(Q.Empty(n), Booked(p, v, op), q) && L.HereSplit(p, Booked(p, v, op))
  {
    hide Q.QInv, L.Balanced, Q.Apply, L.PassServed, L.PassDropped, Q.LostHere, Q.Spooled;
    L.StepBalance(p, v.queue, op);
    L.Chain(Q.Empty(n), v.books, v.queue, L.Book(p, v.queue, op), Q.Apply(p, v.queue, op).value);
    if op.AddOp? {
      forall x: string
        ensures L.Book(p, v.queue, op).lost[x]
             == if DomainOf(x) == p.domain && !p.spools(x) then L.Book(p, v.queue, op).accepted[x] else 0
      {
        L.LostCount(p, L.Taken(v.queue, op.mail.recipients), x);
      }
    }
  }

  lemma ReceiveAccounted(cfg: Config, p: Q.Policy, n: nat, v: Server, i: nat, line: string, mail: Q.Mail)
    requires |v.queue.slots| == |v.queue.last| && i < |v.sessions|
    requires Accounted(p, n, v) && AllHonest(cfg, v.sessions) && mail.recipients == v.sessions[i].recipients
    ensures Accounted(p, n, ReceiveLine(cfg, p, v, i, line, mail))
  {
    hide Q.QInv, L.Balanced, L.HereSplit, Inv, Honest, Promised, AllPromised, ProcessLine, Q.Add, Q.LostHere, Q.Spooled;
    var ms, asking := v.sessions, Asking(cfg, p, v.queue, mail);
    var m, m' := ms[i], ProcessLine(asking, ms[i], line);
    InvAsking(cfg, p, v.queue, mail, m);
    HandsOwn(asking, m, line);
    if m'.handed == m.handed {
      PromisedUpdate(ms, i, m', multiset{});
      assert AllPromised(ms) + multiset{} == AllPromised(ms);
    } else {
      PromisedMore(m.handed, Own(asking, m));
      L.TakenExactly(p, v.queue, mail);
      BookKeeps(p, n, v, Q.AddOp(mail));
      PromisedUpdate(ms, i, m', multiset(L.Taken(v.queue, mail.recipients)));
    }
  }

  lemma ReceiveSound(cfg: Config, p: Q.Policy, v: Server, i: nat, line: string, mail: Q.Mail)
    requires |v.queue.slots| == |v.queue.last| && i < |v.sessions| && AllHonest(cfg, v.sessions)
    ensures AllHonest(cfg, ReceiveLine(cfg, p, v, i, line, mail).sessions)
  {
    hide Inv, Honest, ProcessLine;
    var m, asking := v.sessions[i], Asking(cfg, p, v.queue, mail);
    InvAsking(cfg, p, v.queue, mail, m);
    InvStep(asking, m, line);
    HonestStep(asking, m, line);
    InvAsking(cfg, p, v.queue, mail, ProcessLine(asking, m, line));
  }

  lemma ConnectKeeps(cfg: Config, p: Q.Policy, n: nat, v: Server, m: Machine)
    requires Initial(m) && Accounted(p, n, v) && AllHonest(cfg, v.sessions)
    ensures AllHonest(cfg, v.sessions + [m]) && Accounted(p, n, v.(sessions := v.sessions + [m]))
  {
    hide Q.QInv, L.Balanced, L.HereSplit, Inv;
    InitialInv(cfg, m);
    assert (v.sessions + [m])[..|v.sessions|] == v.sessions;
    assert AllPromised(v.sessions) + multiset{} == AllPromised(v.sessions);
  }

  lemma EventKeeps(cfg: Config, p: Q.Policy, n: nat, v: Server, event: Event)
    requires |v.queue.slots| == |v.queue.last| && Accounted(p, n, v) && AllHonest(cfg, v.sessions)
    ensures var r := Happens(cfg, p, v, event);
            r.Some? ==> Accounted(p, n, r.value) && AllHonest(cfg, r.value.sessions)
  {
    hide Q.QInv, L.Balanced, L.HereSplit, AllHonest, ReceiveLine, Q.Handle, AllPromised, L.Book;
    match event {
      case Connect(m) =>
        if Initial(m) {
          ConnectKeeps(cfg, p, n, v, m);
        }
      case Receive(i, line, id, now) =>
        if i < |v.sessions| {
          ReceiveAccounted(cfg, p, n, v, i, line, MailOf(v.sessions[i], id, now));
          ReceiveSound(cfg, p, v, i, line, MailOf(v.sessions[i], id, now));
        }
      case Pass(at, outcomes) =>
        if Q.Handle(p, v.queue, at, outcomes).Some? {
          BookKeeps(p, n, v, Q.HandleOp(at, outcomes));
          PassAccepts(p, v, at, outcomes);
        }
    }
  }

  /** A pass promises nothing. */
  lemma PassAccepts(p: Q.Policy, v: Server, at: int, outcomes: nat -> (string -> bool))
    requires |v.queue.slots| == |v.queue.last|
    ensures Booked(p, v, Q.HandleOp(at, outcomes)).accepted == v.books.accepted
  {
  }

  lemma {:induction false} ServeKeeps(cfg: Config, p: Q.Policy, n: nat, v: Server, events: seq<Event>)
    requires |v.queue.slots| == |v.queue.last| && Accounted(p, n, v) && AllHonest(cfg, v.sessions)
    ensures var r := Serve(cfg, p, v, events);
            r.Some? ==> Accounted(p, n, r.value) && AllHonest(cfg, r.value.sessions)
    decreases |events|
  {
    hide Accounted, AllHonest, Happens;
    if events != [] {
      EventKeeps(cfg, p, n, v, events[0]);
      var r := Happens(cfg, p, v, events[0]);
      if r.Some? {
        ServeKeeps(cfg, p, n, r.value, events[1..]);
      }
    }
  }

  lemma IdleAccounted(cfg: Config, p: Q.Policy, n: nat)
    ensures Accounted(p, n, Idle(n)) && AllHonest(cfg, Idle(n).sessions)
  {
    hide Q.QInv, L.Balanced;
    Q.EmptyInv(n, p.delay);
    L.NoBalance(Q.Empty(n));
  }

  /**
   * Any number of clients connect and send lines in any order, with passes over the queue in between.
   * Unless a pass fails, every session has said 250 for exactly its mails that were taken, every recipient
   * of all these mails has been served, waits in the queue, was given up by expiry, is in a mailbox here or
   * is lost here, and nobody is lost exactly when every mailbox somebody here was promised takes mail.
   */
  lemma PromiseKept(cfg: Config, p: Q.Policy, n: nat, events: seq<Event>) returns (v: Server)
    requires Serve(cfg, p, Idle(n), events).Some?
    ensures v == Serve(cfg, p, Idle(n), events).value
    ensures OneLine(cfg.domain) ==> forall i :: 0 <= i < |v.sessions| ==> Truthful(cfg, v.sessions[i])
    ensures AllPromised(v.sessions) == v.books.served + L.Waiting(v.queue.slots) + v.books.dropped
                                       + multiset(v.queue.spooled) + v.books.lost
    ensures v.books.lost == multiset{} <==> L.AllHaveMailboxes(p, AllPromised(v.sessions))
  {
    hide Inv, Serve, Q.QInv, L.Waiting, AllPromised, Truthful, Honest;
    v := Serve(cfg, p, Idle(n), events).value;
    IdleAccounted(cfg, p, n);
    ServeKeeps(cfg, p, n, Idle(n), events);
    forall i | 0 <= i < |v.sessions| && OneLine(cfg.domain) ensures Truthful(cfg, v.sessions[i]) {
      HonestIsTruthful(cfg, v.sessions[i]);
    }
    L.NobodyWaits(Q.Empty(n).slots);
    L.Reorder(L.Waiting(v.queue.slots), v.books);
    assert multiset(v.queue.spooled) == v.books.spooled;
    L.LostNobody(p, v.books);
  }

  /**
   * The input that breaks it: a mail to an address here that nobody has, in angle brackets. The client is
   * told 250, the queue answers with its count, and nothing of the mail is kept.
   */
  lemma PromiseBroken(cfg: Config, m: Machine, sender: string, a: string, lines: seq<string>, chunks: seq<string>,
                      p: Q.Policy, q: Q.Queue, id: string, now: int)
    returns (e: Machine)
    requires Inv(cfg, m) && m.phase == BeforeMail && !m.protocols.lmtp && 1 < cfg.maxRecipients
    requires IsAddress(sender) && DomainOf(sender) != cfg.domain
    requires IsAddress(a) && DomainOf(a) == cfg.domain == p.domain && a !in cfg.users && !p.spools(a)
    requires forall i :: 0 <= i < |lines| ==> OneLine(lines[i])
    requires Joined(chunks) == Terminated(Commands(sender, [a])) + Wire(lines)
    requires |Terminated(lines)| <= cfg.maxMessageSize
    requires 0 <= q.count < |q.slots| && cfg.queueTakes(|m.handed|)
    ensures e == EatAll(cfg, Endpoint("", m), chunks).m
    ensures exists before :: Render(cfg, e.sent) == before + "250 2.0.0 Ok\r\n"
    ensures e.handed == m.handed + [Submission(sender, [a], Terminated(lines), true)]
    ensures Q.Add(p, q, Q.Mail(id, now, sender, [a], [a], [], [])) == (q, q.count) && Q.LostHere(p, [a]) == [a]
  {
    hide Inv, IsAddress, Commands, Terminated, Wire, EatAll, Q.Add, Q.LostHere;
    NoBracketAtEnd(a);
    MailGoesThrough(cfg, m, sender, [a], lines, chunks);
    e := EatAll(cfg, Endpoint("", m), chunks).m;
    assert DomainOf([a][0]) == cfg.domain;
    assert e.sent[|e.sent| - 1] == DataOk;
    C.OkText(cfg);
    assert Render(cfg, e.sent) == Render(cfg, e.sent[..|e.sent| - 1]) + "250 2.0.0 Ok\r\n";
    L.UnknownLocalLost(p, q, Q.Mail(id, now, sender, [a], [a], [], []), a);
  }

  lemma NoBracketAtEnd(a: string)
    requires IsAddress(a)
    ensures DomainOf(a) == "" || DomainOf(a)[|DomainOf(a)| - 1] != '>'
  {
  }
}
