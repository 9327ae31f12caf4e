/** The session object of server/smtpsrvs.cpp, proved to step as module Smtp says. */
module SmtpSession {
  import opened CStrings
  import opened Buffer
  import opened Smtp
  import opened SmtpMail
  import opened SmtpProofs

  class Session {
    const cfg: Config
    const inbuf: InoutBuffer
    const recipientsAddress: array<string>
    var protocols: Protocols
    var phase: Phase
    var authenticated: bool
    var username: Option<string>
    var recipientsCount: int
    var senderAddress: Option<string>
    var msgData: string
    var stillAcceptingData: bool
    var remoteDomain: Option<string>
    var closingFlag: bool
    var sent: seq<Reply>
    var handed: seq<Submission>

    /** The recipients that count: slots past the count are not live. */
    ghost function Live(): seq<string>
      reads this, recipientsAddress
    {
      if 0 <= recipientsCount <= recipientsAddress.Length then recipientsAddress[..recipientsCount] else []
    }

    ghost predicate Counted()
      reads this
    {
      recipientsAddress.Length == cfg.maxRecipients && 0 <= recipientsCount <= cfg.maxRecipients
    }

    /** Whenever the recipients matter, the count is in range. */
    ghost predicate Ready()
      reads this
    {
      recipientsAddress.Length == cfg.maxRecipients
      && (phase == Recipients || phase == Data ==> Counted())
    }

    /** The session as a state of module Smtp. */
    ghost function M(): Machine
      reads this, recipientsAddress
    {
      Machine(phase, protocols, remoteDomain, authenticated, username, senderAddress, Live(),
              msgData, stillAcceptingData, closingFlag, sent, handed)
    }

    constructor (cfg: Config, protocols: Protocols)
      ensures Initial(M()) && M().protocols == protocols && this.cfg == cfg
      ensures recipientsAddress.Length == cfg.maxRecipients
      ensures inbuf.Valid() && inbuf.View() == "" && fresh(inbuf) && fresh(inbuf.data)
      ensures fresh(recipientsAddress)
    {
      this.cfg := cfg;
      this.protocols := protocols;
      inbuf := new InoutBuffer();
      recipientsAddress := new string[cfg.maxRecipients];
      phase := BeforeHello;
      authenticated := false;
      username, senderAddress, remoteDomain := None, None, None;
      msgData := "";
      closingFlag := false;
      handed, sent := [], [];
      new;
      Reply(ServiceReady(protocols));
    }

    /** Appends the text of a reply to the output. */
    method Reply(r: Reply)
      modifies this`sent
      ensures M() == Say(old(M()), r)
    {
      sent := sent + [r];
    }

    method GracefullyClose()
      modifies this`closingFlag
      ensures M() == old(M()).(closing := true)
    {
      closingFlag := true;
    }

    method ReplyInternalError()
      modifies this`sent, this`closingFlag
      ensures M() == Unavailable(old(M()))
    {
      Reply(InternalError);
      GracefullyClose();
    }

    // ----- message building ----------------------------------------------------------------------

    method MessageDiscard()
      modifies this`senderAddress, this`recipientsCount, this`msgData, recipientsAddress
      ensures M() == Discard(old(M()))
    {
      msgData := "";
      senderAddress := None;
      forall i | 0 <= i < recipientsAddress.Length {
        recipientsAddress[i] := "";
      }
      recipientsCount := 0;
      assert Live() == [];
    }

    method CopyAddress(raw: string) returns (address: string)
      ensures address == StripAddress(raw)
    {
      var shift := 0;
      while shift < |raw| && (raw[shift] == ' ' || raw[shift] == '\t')
        invariant shift <= |raw| && SkipBlanks(raw[shift..]) == SkipBlanks(raw)
      {
        assert raw[shift..][1..] == raw[shift + 1..];
        shift := shift + 1;
      }
      address := raw[shift..];
      if shift < |raw| && raw[shift] == '<' {
        assert raw[shift..][1..] == raw[shift + 1..];
        shift := shift + 1;
        address := raw[shift..];
      }
      var len := |address|;
      if len > 0 && address[len - 1] == '>' {
        address := address[..len - 1];
      }
    }

    method MessageStart(raw: string) returns (rc: nat)
      modifies this`senderAddress
      ensures rc == if phase != BeforeMail then 503 else if AtPos(raw) < 0 then 553 else 250
      ensures M() == if rc == 250 then old(M()).(sender := Some(StripAddress(raw))) else old(M())
    {
      if phase != BeforeMail {
        return 503;
      }
      var atpos := FindAtSymbol(raw);
      if atpos < 0 {
        return 553;
      }
      var address := CopyAddress(raw);
      senderAddress := Some(address);
      return 250;
    }

    method MessageAddRecipient(raw: string) returns (rc: nat)
      requires Counted()
      modifies this`recipientsCount, recipientsAddress
      ensures Counted()
      ensures rc == match RecipientReply(cfg, old(M()), raw)
                    case TooManyRecipients => 552
                    case BadRecipient => 553
                    case NoMailbox => 450
                    case _ => 250
      ensures M() == if rc == 250 then old(M()).(recipients := old(Live()) + [StripAddress(raw)])
                     else old(M())
    {
      if recipientsCount + 1 >= cfg.maxRecipients {
        return 552;
      }
      var atpos := FindAtSymbol(raw);
      if atpos < 0 {
        return 553;
      }
      var address := CopyAddress(raw);
      recipientsAddress[recipientsCount] := address;
      if raw[atpos + 1..] == cfg.domain {
        if address !in cfg.users {
          assert Live() == old(Live());
          return 450;
        }
      }
      recipientsCount := recipientsCount + 1;
      assert Live() == old(Live()) + [address];
      return 250;
    }

    method MessageAddLine(line: string) returns (ok: bool)
      modifies this`msgData
      ensures ok <==> |old(M()).msgData| <= cfg.maxMessageSize
      ensures M() == if ok then old(M()).(msgData := old(M()).msgData + line + CRLF) else old(M())
    {
      if |msgData| > cfg.maxMessageSize {
        return false;
      }
      msgData := msgData + line + CRLF;
      return true;
    }

    method OnlyFarRecipients() returns (onlyFar: bool)
      requires Counted()
      ensures onlyFar <==> !HasLocalRecipient(cfg, Live())
    {
      for i := 0 to recipientsCount
        invariant forall j :: 0 <= j < i ==> DomainOf(recipientsAddress[j]) != cfg.domain
      {
        var atpos := FindAtSymbol(recipientsAddress[i]);
        if recipientsAddress[i][atpos + 1..] == cfg.domain {
          assert Live()[i] == recipientsAddress[i];
          return false;
        }
      }
      return true;
    }

    /** The SMTP/ESMTP version: size, then policy, then the queue. */
    method MessageDataEnd() returns (rc: nat)
      requires senderAddress.Some? && Counted()
      modifies this`handed
      ensures (M(), rc) == Smtp.MessageDataEnd(cfg, old(M()))
    {
      if |msgData| > cfg.maxMessageSize {
        return 552;
      }
      var sender := senderAddress.value;
      var atpos := FindAtSymbol(sender);
      if sender[atpos + 1..] == cfg.domain {
        if !authenticated || username != Some(sender) {
          return 550;
        }
      } else {
        var onlyFarRecipients := OnlyFarRecipients();
        if onlyFarRecipients {
          return 550;
        }
      }
      var taken := cfg.queueTakes(|handed|);
      handed := handed + [Submission(sender, recipientsAddress[..recipientsCount], msgData, taken)];
      return if taken then 250 else 451;
    }

    /** The LMTP version: by default every recipient is answered 250 and nothing is queued. */
    method MessageDataEndL(responses: array<nat>) returns (ok: bool)
      modifies responses
      ensures ok && forall i :: 0 <= i < responses.Length ==> responses[i] == 250
    {
      for i := 0 to responses.Length
        invariant forall j :: 0 <= j < i ==> responses[j] == 250
      {
        responses[i] := 250;
      }
      return true;
    }

    method DataEndResponse(code: nat)
      modifies this, recipientsAddress
      ensures M() == Smtp.DataEndResponse(old(M()), code)
    {
      match code {
        case 250 => Reply(DataOk);
        case 451 => Reply(LocalError); MessageDiscard();
        case 452 => Reply(QuotaExceeded); MessageDiscard();
        case 550 => Reply(MessageRejected); MessageDiscard();
        case 552 => Reply(MessageTooBig); MessageDiscard();
        case 554 => Reply(DeliveryFailed); MessageDiscard();
        case _ => ReplyInternalError();
      }
    }

    // ----- one line ------------------------------------------------------------------------------

    method ProcessData(line: string)
      requires Ready()
      requires phase == Data && senderAddress.Some?
      modifies this, recipientsAddress
      ensures M() == Smtp.ProcessData(cfg, old(M()), line)
      ensures Ready()
    {
      if line == "." {
        if (protocols.smtp || protocols.esmtp) && protocols.lmtp {
          Reply(UnknownProtocol);
          GracefullyClose();
          return;
        }
        if protocols.lmtp {
          AnswerEachRecipient();
        } else {
          var rc := MessageDataEnd();
          DataEndResponse(rc);
        }
        MessageDiscard();
        phase := BeforeMail;
      } else {
        var rest := if line != "" && line[0] == '.' then line[1..] else line;
        if stillAcceptingData {
          var ok := MessageAddLine(rest);
          if !ok {
            stillAcceptingData := false;
          }
        }
      }
    }

    method AnswerEachRecipient()
      requires Counted()
      modifies this, recipientsAddress
      ensures M() == RespondTimes(old(M()), |old(Live())|)
    {
      ghost var m0 := M();
      var resp := new nat[recipientsCount];
      var rc := MessageDataEndL(resp);
      var i := 0;
      while i < recipientsCount
        invariant M() == RespondTimes(m0, i)
        invariant 0 <= i <= recipientsCount == old(recipientsCount) == resp.Length
        invariant forall j :: 0 <= j < resp.Length ==> resp[j] == 250
      {
        DataEndResponse(if rc then resp[i] else 554);
        i := i + 1;
      }
    }

    method ProcessHello(param: string, h: Hello)
      requires Ready()
      modifies this, recipientsAddress
      ensures M() == Smtp.ProcessHello(old(M()), param, h)
      ensures Ready()
    {
      if !Supports(protocols, h) {
        Reply(WrongProtocol(protocols));
        return;
      }
      remoteDomain := Some(param);
      Reply(Pleased(h));
      if phase == BeforeHello {
        phase := BeforeMail;
        protocols := Narrow(protocols, h);
      }
    }

    /** The reply to MAIL for each code MessageStart may return. */
    method AnswerSender(rc: nat)
      modifies this`sent, this`closingFlag
      ensures M() == match rc
                     case 250 => Say(old(M()), SenderOk)
                     case 553 => Say(old(M()), SenderRejected)
                     case _ => Unavailable(old(M()))
    {
      match rc {
        case 250 => Reply(SenderOk);
        case 553 => Reply(SenderRejected);
        case _ => ReplyInternalError();
      }
    }

    /** The reply to RCPT for each code MessageAddRecipient may return. */
    method AnswerRecipient(rc: nat)
      modifies this`sent, this`closingFlag
      ensures M() == match rc
                     case 250 => Say(old(M()), RecipientOk)
                     case 450 => Say(old(M()), NoMailbox)
                     case 552 => Say(old(M()), TooManyRecipients)
                     case 553 => Say(old(M()), BadRecipient)
                     case _ => Unavailable(old(M()))
    {
      match rc {
        case 250 => Reply(RecipientOk);
        case 450 => Reply(NoMailbox);
        case 552 => Reply(TooManyRecipients);
        case 553 => Reply(BadRecipient);
        case _ => ReplyInternalError();
      }
    }

    method ProcessMailCommand(param: string)
      requires Ready()
      modifies this, recipientsAddress
      ensures M() == ProcessMail(old(M()), param)
      ensures Ready()
    {
      if !("FROM:" <= param) {
        Reply(FromExpected);
        return;
      }
      match phase {
        case BeforeHello => Reply(HelloFirst);
        case Recipients => Reply(DuplicateMail);
        case BeforeMail =>
          var rc := MessageStart(param[5..]);
          AnswerSender(rc);
          if rc == 250 {
            phase := Recipients;
            recipientsCount := 0;
            assert Live() == [];
          }
        case _ => ReplyInternalError();
      }
    }

    method ProcessRcptCommand(param: string)
      requires Ready()
      modifies this, recipientsAddress
      ensures M() == ProcessRcpt(cfg, old(M()), param)
      ensures Ready()
    {
      if !("TO:" <= param) {
        Reply(ToExpected);
        return;
      }
      match phase {
        case BeforeHello => Reply(HelloFirstRcpt);
        case BeforeMail => Reply(MailFirstRcpt);
        case Recipients =>
          var rc := MessageAddRecipient(param[3..]);
          AnswerRecipient(rc);
        case _ => ReplyInternalError();
      }
    }

    method ProcessDataCommand()
      requires Ready()
      modifies this, recipientsAddress
      ensures M() == Smtp.ProcessDataCommand(old(M()))
      ensures Ready()
    {
      if phase != Recipients {
        Reply(MailFirst);
        return;
      }
      if recipientsCount == 0 {
        Reply(NeedRecipient);
        return;
      }
      phase := Data;
      stillAcceptingData := true;
      Reply(EnterMail);
    }

    method ProcessRsetCommand()
      requires Ready()
      modifies this, recipientsAddress
      ensures M() == ProcessRset(old(M()))
      ensures Ready()
    {
      MessageDiscard();
      if phase != BeforeHello {
        phase := BeforeMail;
      }
      Reply(ResetDone);
    }

    method ProcessAuthCommand(param: string)
      requires Ready()
      modifies this, recipientsAddress
      ensures M() == ProcessAuth(old(M()), param)
      ensures Ready()
    {
      if phase == BeforeHello {
        Reply(HelloFirst);
      } else if phase == Recipients || phase == Data || phase == Closed {
        Reply(AuthDuringMail);
      } else if authenticated {
        Reply(DuplicateAuth);
      } else if !("LOGIN" <= param) {
        Reply(AuthMechanism);
      } else {
        Reply(AskUsername);
        phase := WaitingUsername;
      }
    }

    method FetchUsername(line: string)
      requires Ready()
      modifies this, recipientsAddress
      ensures M() == Smtp.FetchUsername(cfg, old(M()), line)
      ensures Ready()
    {
      if line == "*" {
        Reply(AuthRejected);
        phase := BeforeMail;
        return;
      }
      username := cfg.decode(line);
      if username == None {
        Reply(BadBase64);
        return;
      }
      Reply(AskPassword);
      phase := WaitingPassword;
    }

    method FetchPassword(line: string)
      requires Ready()
      requires username.Some?
      modifies this, recipientsAddress
      ensures M() == Smtp.FetchPassword(cfg, old(M()), line)
      ensures Ready()
    {
      if line == "*" {
        Reply(AuthRejected);
        phase := BeforeMail;
        return;
      }
      var password := cfg.decode(line);
      if password == None {
        Reply(BadBase64);
        return;
      }
      var passwordHash := cfg.hash(password.value);
      if username.value !in cfg.users || cfg.users[username.value] != passwordHash {
        Reply(BadLogin);
      } else {
        Reply(AuthDone);
        authenticated := true;
      }
      phase := BeforeMail;
    }

    /**
     * The line is read straight from memory: for a short line the four command letters and the
     * separator include bytes past its NUL. The contract depends on the C string alone.
     */
    method ProcessCommand(mem: string)
      requires Ready()
      requires '\0' in mem && |mem| >= 5
      modifies this, recipientsAddress
      ensures M() == Smtp.ProcessCommand(cfg, old(M()), CStr(mem))
      ensures Ready()
    {
      StaleBytesDoNotMatter(mem);
      if mem[4] != ' ' && mem[4] != '\0' {
        Reply(NotRecognized);
        return;
      }
      var parameters := if mem[4] == '\0' then "" else CStr(mem[5..]);
      match VerbNamed([ToUpper(mem[0]), ToUpper(mem[1]), ToUpper(mem[2]), ToUpper(mem[3])]) {
        case Helo => ProcessHello(parameters, HeloSmtp);
        case Ehlo => ProcessHello(parameters, EhloEsmtp);
        case Lhlo => ProcessHello(parameters, LhloLmtp);
        case MailFrom => ProcessMailCommand(parameters);
        case RcptTo => ProcessRcptCommand(parameters);
        case DataVerb => ProcessDataCommand();
        case Rset => ProcessRsetCommand();
        case Noop => Reply(NoopDone);
        case Quit => Reply(GoodBye); GracefullyClose();
        case Auth => ProcessAuthCommand(parameters);
        case Unimplemented => Reply(NotImplemented);
        case Unrecognized => Reply(NotRecognized);
      }
    }

    // ----- bytes ---------------------------------------------------------------------------------

    method ProcessOneLine(mem: string)
      requires Ready() && Inv(cfg, M()) && '\0' in mem && |mem| >= 5
      modifies this, recipientsAddress
      ensures Ready() && M() == ProcessLine(cfg, old(M()), CStr(mem))
    {
      match phase {
        case Closed =>
        case WaitingUsername => FetchUsername(CStr(mem));
        case WaitingPassword => FetchPassword(CStr(mem));
        case Data => ProcessData(CStr(mem));
        case _ => ProcessCommand(mem);
      }
    }

    method HandleNewData()
      requires inbuf.Valid() && Ready() && Inv(cfg, M())
      modifies this, recipientsAddress, inbuf, inbuf.data
      ensures inbuf.Valid() && Ready() && inbuf.data == old(inbuf.data)
      ensures inbuf.View() == Tail(old(inbuf.View()))
      ensures M() == Run(cfg, old(M()), Lines(old(inbuf.View())))
    {
      var curline := new InoutBuffer();
      while true
        invariant inbuf.Valid() && curline.Valid() && Ready() && Inv(cfg, M())
        invariant fresh(curline) && fresh(curline.data) && curline.maxlen >= 512
        invariant inbuf.data == old(inbuf.data)
        invariant Tail(inbuf.View()) == Tail(old(inbuf.View()))
        invariant Run(cfg, M(), Lines(inbuf.View())) == Run(cfg, old(M()), Lines(old(inbuf.View())))
        decreases |inbuf.View()|
      {
        var ok := inbuf.ReadLine(curline);
        if !ok {
          break;
        }
        ghost var line, rest := CStr(curline.data[..]), Lines(inbuf.View());
        InvStep(cfg, M(), line);
        assert ([line] + rest)[1..] == rest;
        ProcessOneLine(curline.data[..]);
      }
      assert IndexOf(inbuf.View(), '\n') == |inbuf.View()|;
    }

    /** Appends what the network delivered and processes every complete line. */
    method EatReceivedData(buf: string)
      requires inbuf.Valid() && Ready() && Inv(cfg, M())
      modifies this, recipientsAddress, inbuf, inbuf.data
      ensures inbuf.Valid() && Ready() && Inv(cfg, M())
      ensures inbuf.data == old(inbuf.data) || fresh(inbuf.data)
      ensures Endpoint(inbuf.View(), M()) == Eat(cfg, old(Endpoint(inbuf.View(), M())), buf)
    {
      inbuf.AddData(buf);
      InvRun(cfg, M(), Lines(inbuf.View()));
      HandleNewData();
    }
  }

  /**
   * A connection from its first byte to its last. However the network cuts the bytes, the session ends
   * as on all of them at once, and every message it handed over was allowed.
   */
  method Serve(cfg: Config, protocols: Protocols, chunks: seq<string>) returns (s: Session, ghost start: Machine)
    ensures s.cfg == cfg && s.inbuf.Valid() && s.Ready() && Inv(cfg, s.M())
    ensures Initial(start) && start.protocols == protocols
    ensures Endpoint(s.inbuf.View(), s.M()) == Eat(cfg, Endpoint("", start), Joined(chunks))
    ensures AllAllowed(cfg, start, Lines(Joined(chunks)), s.handed)
  {
    s := new Session(cfg, protocols);
    start := s.M();
    InitialInv(cfg, start);
    var k := 0;
    while k < |chunks|
      invariant k <= |chunks| && s.cfg == cfg
      invariant fresh(s) && fresh(s.inbuf) && fresh(s.inbuf.data) && fresh(s.recipientsAddress)
      invariant s.inbuf.Valid() && s.Ready() && Inv(cfg, s.M())
      invariant EatAll(cfg, Endpoint(s.inbuf.View(), s.M()), chunks[k..]) == EatAll(cfg, Endpoint("", start), chunks)
    {
      assert chunks[k..][1..] == chunks[k + 1..];
      s.EatReceivedData(chunks[k]);
      k := k + 1;
    }
    ChunksDoNotMatter(cfg, Endpoint("", start), chunks);
    assert "" + Joined(chunks) == Joined(chunks);
    PolicyRun(cfg, start, Lines(Joined(chunks)));
  }

  /** A name with a NUL in it is no command. */
  lemma NoVerbWithNul(cmd: string)
    requires '\0' in cmd
    ensures VerbNamed(cmd) == Unrecognized
  {
  }

  /** What the raw memory dispatches to is what its C string dispatches to. */
  lemma StaleBytesDoNotMatter(mem: string)
    requires '\0' in mem && |mem| >= 5
    ensures var line := CStr(mem);
            var verb := VerbNamed([ToUpper(mem[0]), ToUpper(mem[1]), ToUpper(mem[2]), ToUpper(mem[3])]);
            if mem[4] != ' ' && mem[4] != '\0' then VerbOf(line) == Unrecognized
            else VerbOf(line) == verb
                 && (verb != Unrecognized ==>
                       ParamOf(line) == if mem[4] == '\0' then "" else CStr(mem[5..]))
  {
    var line := CStr(mem);
    CStrAt(mem, 0);
    var cmd := [ToUpper(mem[0]), ToUpper(mem[1]), ToUpper(mem[2]), ToUpper(mem[3])];
    if |line| < 4 {
      assert cmd[|line|] == '\0';
      NoVerbWithNul(cmd);
    } else if |line| > 4 {
      CStrAt(mem, 5);
    }
  }
}
