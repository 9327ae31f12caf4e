/** What the codes of the replies of server/smtpsrvs.cpp, read off the wire, say about the session. */
module SmtpCodes {
  import opened CStrings
  import opened Buffer
  import opened Smtp
  import opened SmtpProofs
  import opened SmtpMail
  import opened SmtpReplies

  // ----- codes on the wire -----------------------------------------------------------------------

  /** The bytes sent between two states of a session. */
  function Sent(cfg: Config, m: Machine, m': Machine): string {
    var before, after := Render(cfg, m.sent), Render(cfg, m'.sent);
    if |before| <= |after| then after[|before|..] else ""
  }

  /** The number that three digits spell. */
  function Number(digits: string): int
    requires |digits| >= 3
  {
    (digits[0] as int - '0' as int) * 100 + (digits[1] as int - '0' as int) * 10 + (digits[2] as int - '0' as int)
  }

  /** The code on the last line of a reply, section 4.2.1 of RFC 5321; 0 when there is none. */
  function CodeOf(reply: string): int {
    var ls := Lines(reply);
    if ls == [] || |ls[|ls| - 1]| < 4 then 0 else Number(ls[|ls| - 1])
  }

  /** The code a line is answered with. */
  function Answer(cfg: Config, m: Machine, m': Machine): int {
    CodeOf(Sent(cfg, m, m'))
  }

  lemma OneSent(cfg: Config, m: Machine, m': Machine, r: Reply)
    requires m'.sent == m.sent + [r]
    ensures Sent(cfg, m, m') == Text(cfg, r)
  {
    hide Text;
    assert m'.sent[..|m.sent|] == m.sent;
  }

  lemma NumberOfCode(r: Reply, rest: string)
    ensures Number(Code(r) + rest) == CodeNumber(r)
  {
    hide CodeNumber;
    ThreeDigits(CodeNumber(r));
  }

  lemma ThreeDigits(n: nat)
    requires n < 1000
    ensures n / 100 * 100 + n / 10 % 10 * 10 + n % 10 == n
  {
    var t := n / 10;
    assert n == 10 * t + n % 10 && t == 10 * (t / 10) + t % 10 && t / 10 == n / 100;
  }

  lemma OneAnswer(cfg: Config, m: Machine, m': Machine, r: Reply)
    requires OneLine(cfg.domain) && m'.sent == m.sent + [r]
    ensures Answer(cfg, m, m') == CodeNumber(r)
  {
    hide Text, Lines, Words, Code, CodeNumber, OpeningLines, Sent, Number;
    OneSent(cfg, m, m', r);
    ReplyLines(cfg, r);
    CodeIsDigits(r);
    NumberOfCode(r, " " + Words(cfg, r));
    assert LastLine(cfg, r) == Code(r) + (" " + Words(cfg, r));
  }

  /** Every line of a reply starts with the code of its last. */
  lemma AllLinesAgree(cfg: Config, r: Reply)
    requires OneLine(cfg.domain)
    ensures forall i :: 0 <= i < |Lines(Text(cfg, r))| ==>
              |Lines(Text(cfg, r))[i]| >= 4 && Lines(Text(cfg, r))[i][..3] == Code(r)
  {
    hide Text, Lines, Words, Code;
    ReplyLines(cfg, r);
    CodeIsDigits(r);
    OpeningCodes(cfg, r);
  }

  lemma OpeningCodes(cfg: Config, r: Reply)
    ensures forall i :: 0 <= i < |OpeningLines(cfg, r)| ==>
              |OpeningLines(cfg, r)[i]| >= 4 && OpeningLines(cfg, r)[i][..3] == Code(r)
  {
    hide Words;
    if Opening(cfg, r) != "" {
      assert ("250-" + cfg.domain + " Pleased to meet you")[..3] == "250";
      assert "250-ENHANCEDSTATUSCODES"[..3] == "250";
    }
  }

  lemma HelloNumbers(h: Hello, p: Protocols)
    ensures CodeNumber(Pleased(h)) == 250 && CodeNumber(WrongProtocol(p)) == 501
  {
  }

  lemma MailNumbers()
    ensures CodeNumber(SenderOk) == 250 && CodeNumber(SenderRejected) == 551 && CodeNumber(FromExpected) == 501
    ensures CodeNumber(HelloFirst) == 503 && CodeNumber(DuplicateMail) == 503
  {
  }

  lemma RcptNumbers()
    ensures CodeNumber(RecipientOk) == 250 && CodeNumber(NoMailbox) == 450 && CodeNumber(TooManyRecipients) == 552
    ensures CodeNumber(BadRecipient) == 553 && CodeNumber(ToExpected) == 501 && CodeNumber(HelloFirstRcpt) == 503
    ensures CodeNumber(MailFirstRcpt) == 503
  {
  }

  lemma SessionNumbers()
    ensures CodeNumber(MailFirst) == 503 && CodeNumber(NeedRecipient) == 503 && CodeNumber(EnterMail) == 354
    ensures CodeNumber(ResetDone) == 250 && CodeNumber(NoopDone) == 250 && CodeNumber(GoodBye) == 221
    ensures CodeNumber(NotImplemented) == 502 && CodeNumber(NotRecognized) == 500
  {
  }

  lemma AuthNumbers()
    ensures CodeNumber(AuthDuringMail) == 503 && CodeNumber(DuplicateAuth) == 503 && CodeNumber(HelloFirst) == 503
    ensures CodeNumber(AuthMechanism) == 504 && CodeNumber(AskUsername) == 334
  {
  }

  lemma LoginNumbers()
    ensures CodeNumber(AskPassword) == 334 && CodeNumber(AuthRejected) == 501 && CodeNumber(BadBase64) == 535
    ensures CodeNumber(BadLogin) == 535 && CodeNumber(AuthDone) == 235
  {
  }

  lemma EndNumbers()
    ensures CodeNumber(DataOk) == 250 && CodeNumber(LocalError) == 451 && CodeNumber(MessageRejected) == 550
    ensures CodeNumber(MessageTooBig) == 552
  {
  }

  ghost predicate Only(m: Machine, m': Machine) {
    m' == m.(sent := m'.sent)
  }

  ghost predicate Greeted(m: Machine, param: string, lmtp: bool, m': Machine) {
    if m.phase == BeforeHello then
      m' == m.(sent := m'.sent, remoteDomain := Some(param), phase := BeforeMail,
               protocols := if lmtp then Protocols(false, false, true)
                            else Protocols(m.protocols.smtp, m.protocols.esmtp, false))
    else
      m' == m.(sent := m'.sent, remoteDomain := Some(param))
  }

  lemma HelloStep(cfg: Config, m: Machine, param: string, h: Hello)
    requires OneLine(cfg.domain)
    ensures var m' := ProcessHello(m, param, h);
            var code := Answer(cfg, m, m');
            if Supports(m.protocols, h) then code == 250 && Greeted(m, param, h == LhloLmtp, m')
            else code == 501 && Only(m, m')
  {
    hide Answer, CodeNumber;
    HelloNumbers(h, m.protocols);
    var r := if Supports(m.protocols, h) then Pleased(h) else WrongProtocol(m.protocols);
    OneAnswer(cfg, m, ProcessHello(m, param, h), r);
  }

  /** HELO, EHLO and LHLO are answered 250 exactly when their protocol is offered; the first settles the protocols. */
  lemma HelloCodes(cfg: Config, m: Machine, line: string)
    requires Inv(cfg, m) && TakesCommands(m) && OneLine(cfg.domain)
    requires VerbOf(line) == Helo || VerbOf(line) == Ehlo || VerbOf(line) == Lhlo
    ensures var m', verb := ProcessLine(cfg, m, line), VerbOf(line);
            var code := Answer(cfg, m, m');
            && (code == 250 <==> Offered(m.protocols, verb))
            && (code == 501 <==> !Offered(m.protocols, verb))
            && (code == 501 ==> Only(m, m'))
            && (code == 250 ==> Greeted(m, ParamOf(line), verb == Lhlo, m'))
  {
    hide Answer, ProcessHello, Greeted, VerbOf, ParamOf, Inv;
    var h := if VerbOf(line) == Helo then HeloSmtp else if VerbOf(line) == Ehlo then EhloEsmtp else LhloLmtp;
    HelloStep(cfg, m, ParamOf(line), h);
  }

  predicate Offered(p: Protocols, verb: Verb) {
    (verb == Helo && p.smtp) || (verb == Ehlo && p.esmtp) || (verb == Lhlo && p.lmtp)
  }

  /** MAIL is answered 250 exactly when a sender is stored. */
  lemma MailCodes(cfg: Config, m: Machine, line: string)
    requires Inv(cfg, m) && TakesCommands(m) && OneLine(cfg.domain) && VerbOf(line) == MailFrom
    ensures var m', p := ProcessLine(cfg, m, line), ParamOf(line);
            var code := Answer(cfg, m, m');
            && (code == 250 <==> m.sender == None && m'.sender != None)
            && (code == 250 <==> "FROM:" <= p && m.phase == BeforeMail && AtPos(p[5..]) >= 0)
            && (code == 501 <==> !("FROM:" <= p))
            && (code == 503 <==> "FROM:" <= p && m.phase != BeforeMail)
            && (code == 551 <==> "FROM:" <= p && m.phase == BeforeMail && AtPos(p[5..]) < 0)
            && (code != 250 ==> Only(m, m'))
            && (code == 250 ==> m' == m.(sent := m'.sent, sender := Some(StripAddress(p[5..])),
                                           phase := Recipients, recipients := []))
  {
    hide Answer, CodeNumber;
    MailNumbers();
    var m', p := ProcessLine(cfg, m, line), ParamOf(line);
    var r := if !("FROM:" <= p) then FromExpected else if m.phase == BeforeHello then HelloFirst
             else if m.phase == Recipients then DuplicateMail
             else if AtPos(p[5..]) < 0 then SenderRejected else SenderOk;
    OneAnswer(cfg, m, m', r);
  }

  /** RCPT is answered 250 exactly when a recipient is stored, and 450 exactly for somebody unknown here. */
  lemma RcptCodes(cfg: Config, m: Machine, line: string)
    requires Inv(cfg, m) && TakesCommands(m) && OneLine(cfg.domain) && VerbOf(line) == RcptTo
    ensures var m', p := ProcessLine(cfg, m, line), ParamOf(line);
            var code := Answer(cfg, m, m');
            && (code == 250 <==> |m'.recipients| == |m.recipients| + 1)
            && (code == 250 <==> "TO:" <= p && m.phase == Recipients && |m.recipients| + 1 < cfg.maxRecipients
                                 && AtPos(p[3..]) >= 0
                                 && (DomainOf(p[3..]) != cfg.domain || StripAddress(p[3..]) in cfg.users))
            && (code == 501 <==> !("TO:" <= p))
            && (code == 503 <==> "TO:" <= p && m.phase != Recipients)
            && (code == 552 <==> "TO:" <= p && m.phase == Recipients && |m.recipients| + 1 >= cfg.maxRecipients)
            && (code == 553 <==> "TO:" <= p && m.phase == Recipients && |m.recipients| + 1 < cfg.maxRecipients
                                   && AtPos(p[3..]) < 0)
            && (code == 450 <==> "TO:" <= p && m.phase == Recipients && |m.recipients| + 1 < cfg.maxRecipients
                                   && AtPos(p[3..]) >= 0 && DomainOf(p[3..]) == cfg.domain
                                   && StripAddress(p[3..]) !in cfg.users)
            && (code != 250 ==> Only(m, m'))
            && (code == 250 ==> m' == m.(sent := m'.sent, recipients := m.recipients + [StripAddress(p[3..])]))
  {
    hide Answer, CodeNumber;
    RcptNumbers();
    var m', p := ProcessLine(cfg, m, line), ParamOf(line);
    var r := if !("TO:" <= p) then ToExpected else if m.phase == BeforeHello then HelloFirstRcpt
             else if m.phase == BeforeMail then MailFirstRcpt else RecipientReply(cfg, m, p[3..]);
    OneAnswer(cfg, m, m', r);
  }

  /** DATA is answered 354 exactly when the session goes on to read data; RSET drops the transaction. */
  lemma DataAndRsetCodes(cfg: Config, m: Machine, line: string)
    requires Inv(cfg, m) && TakesCommands(m) && OneLine(cfg.domain)
    ensures var m' := ProcessLine(cfg, m, line);
            var code := Answer(cfg, m, m');
            && (VerbOf(line) == DataVerb ==>
                  && (code == 354 <==> m'.phase == Data)
                  && (code == 354 <==> m.phase == Recipients && m.recipients != [])
                  && (code == 503 <==> m.phase != Recipients || m.recipients == [])
                  && (code == 354 ==> m' == m.(sent := m'.sent, phase := Data, accepting := true))
                  && (code == 503 ==> Only(m, m')))
            && (VerbOf(line) == Rset ==>
                  code == 250
                  && m' == m.(sent := m'.sent, sender := None, recipients := [], msgData := "",
                              phase := if m.phase == BeforeHello then BeforeHello else BeforeMail))
  {
    hide Answer, CodeNumber;
    SessionNumbers();
    var m' := ProcessLine(cfg, m, line);
    if VerbOf(line) == DataVerb {
      OneAnswer(cfg, m, m', if m.phase != Recipients then MailFirst
                            else if m.recipients == [] then NeedRecipient else EnterMail);
    } else if VerbOf(line) == Rset {
      OneAnswer(cfg, m, m', ResetDone);
    }
  }

  lemma OtherCodes(cfg: Config, m: Machine, line: string)
    requires Inv(cfg, m) && TakesCommands(m) && OneLine(cfg.domain)
    ensures var m' := ProcessLine(cfg, m, line);
            var code := Answer(cfg, m, m');
            && (VerbOf(line) == Noop ==> code == 250 && Only(m, m'))
            && (VerbOf(line) == Quit ==> code == 221 && m' == m.(sent := m'.sent, closing := true))
            && (VerbOf(line) == Unimplemented ==> code == 502 && Only(m, m'))
            && (VerbOf(line) == Unrecognized ==> code == 500 && Only(m, m'))
  {
    hide Answer, CodeNumber;
    SessionNumbers();
    var m' := ProcessLine(cfg, m, line);
    match VerbOf(line) {
      case Noop => OneAnswer(cfg, m, m', NoopDone);
      case Quit => OneAnswer(cfg, m, m', GoodBye);
      case Unimplemented => OneAnswer(cfg, m, m', NotImplemented);
      case Unrecognized => OneAnswer(cfg, m, m', NotRecognized);
      case _ =>
    }
  }

  // ----- logging in ------------------------------------------------------------------------------

  /** AUTH is answered 334 exactly when the session goes on to read a user name. */
  lemma AuthCodes(cfg: Config, m: Machine, line: string)
    requires Inv(cfg, m) && TakesCommands(m) && OneLine(cfg.domain) && VerbOf(line) == Auth
    ensures var m' := ProcessLine(cfg, m, line);
            var code := Answer(cfg, m, m');
            && (code == 334 <==> m'.phase == WaitingUsername)
            && (code == 334 <==> m.phase == BeforeMail && !m.authenticated && "LOGIN" <= ParamOf(line))
            && (code == 503 <==> m.phase != BeforeMail || m.authenticated)
            && (code == 504 <==> m.phase == BeforeMail && !m.authenticated && !("LOGIN" <= ParamOf(line)))
            && (code != 334 ==> Only(m, m'))
            && (code == 334 ==> m' == m.(sent := m'.sent, phase := WaitingUsername))
  {
    hide Answer, CodeNumber;
    AuthNumbers();
    var m' := ProcessLine(cfg, m, line);
    var r := if m.phase == BeforeHello then HelloFirst else if m.phase == Recipients then AuthDuringMail
             else if m.authenticated then DuplicateAuth else if !("LOGIN" <= ParamOf(line)) then AuthMechanism
             else AskUsername;
    OneAnswer(cfg, m, m', r);
  }

  /** A user name is answered 334 exactly when the session goes on to read a password. */
  lemma UsernameCodes(cfg: Config, m: Machine, line: string)
    requires Inv(cfg, m) && m.phase == WaitingUsername && OneLine(cfg.domain)
    ensures var m' := ProcessLine(cfg, m, line);
            var code := Answer(cfg, m, m');
            && (code == 334 <==> m'.phase == WaitingPassword)
            && (code == 334 <==> line != "*" && cfg.decode(line).Some?)
            && (code == 501 <==> line == "*")
            && (code == 535 <==> line != "*" && cfg.decode(line) == None)
            && (code == 334 ==> m' == m.(sent := m'.sent, phase := WaitingPassword, username := cfg.decode(line)))
            && (code == 501 ==> m' == m.(sent := m'.sent, phase := BeforeMail))
            && (code == 535 ==> m' == m.(sent := m'.sent, username := None))
  {
    hide Answer, CodeNumber;
    LoginNumbers();
    var m' := ProcessLine(cfg, m, line);
    OneAnswer(cfg, m, m', if line == "*" then AuthRejected
                          else if cfg.decode(line) == None then BadBase64 else AskPassword);
  }

  /** A password is answered 235 exactly when it authenticates the session. */
  lemma PasswordCodes(cfg: Config, m: Machine, line: string)
    requires Inv(cfg, m) && m.phase == WaitingPassword && OneLine(cfg.domain)
    ensures var m' := ProcessLine(cfg, m, line);
            var code := Answer(cfg, m, m');
            && (code == 235 <==> m'.authenticated)
            && (code == 235 <==> line != "*" && cfg.decode(line).Some? && m.username.value in cfg.users
                                   && cfg.users[m.username.value] == cfg.hash(cfg.decode(line).value))
            && (code == 501 <==> line == "*")
            && (code == 535 <==> line != "*" && !m'.authenticated)
            && m' == m.(sent := m'.sent, authenticated := code == 235,
                        phase := if line != "*" && cfg.decode(line) == None then WaitingPassword else BeforeMail)
  {
    hide Answer, CodeNumber;
    LoginNumbers();
    var m' := ProcessLine(cfg, m, line);
    OneAnswer(cfg, m, m', if line == "*" then AuthRejected else if cfg.decode(line) == None then BadBase64
                          else if m'.authenticated then AuthDone else BadLogin);
  }

  // ----- the end of the data ---------------------------------------------------------------------

  /** The mail of a session is handed over, and the queue takes it or not. */
  ghost predicate HandsOver(m: Machine, m': Machine, taken: bool) {
    m.sender.Some? && m'.handed == m.handed + [Submission(m.sender.value, m.recipients, m.msgData, taken)]
  }

  /**
   * Outside LMTP the end of the data is answered 250 exactly when the queue took the mail, 451 exactly when
   * it did not take it, 552 exactly when the mail is too big, and 550 when its sender may not send it.
   */
  lemma EndCodes(cfg: Config, m: Machine)
    requires Inv(cfg, m) && m.phase == Data && !m.protocols.lmtp && OneLine(cfg.domain)
    ensures var m' := ProcessLine(cfg, m, ".");
            var code := Answer(cfg, m, m');
            && (code == 250 <==> HandsOver(m, m', true))
            && (code == 451 <==> HandsOver(m, m', false))
            && (code == 250 || code == 451 <==> |m.msgData| <= cfg.maxMessageSize && MaySend(cfg, m))
            && (code == 552 <==> |m.msgData| > cfg.maxMessageSize)
            && (code == 550 <==> |m.msgData| <= cfg.maxMessageSize && !MaySend(cfg, m))
            && m' == m.(sent := m'.sent, phase := BeforeMail, sender := None, recipients := [], msgData := "",
                        handed := if code == 250 || code == 451 then m'.handed else m.handed)
  {
    hide Answer, CodeNumber;
    EndNumbers();
    var m' := ProcessLine(cfg, m, ".");
    var taken := cfg.queueTakes(|m.handed|);
    var r := if |m.msgData| > cfg.maxMessageSize then MessageTooBig else if !MaySend(cfg, m) then MessageRejected
             else if taken then DataOk else LocalError;
    OneAnswer(cfg, m, m', r);
    if r == DataOk || r == LocalError {
      assert m'.handed[|m.handed|].taken == taken;
    } else {
      assert |m'.handed| == |m.handed|;
    }
  }

  /** A sender here has logged in as that address; one elsewhere writes to at least one recipient here. */
  ghost predicate MaySend(cfg: Config, m: Machine)
    requires m.sender.Some?
  {
    if DomainOf(m.sender.value) == cfg.domain then m.authenticated && m.username == m.sender
    else exists i :: 0 <= i < |m.recipients| && DomainOf(m.recipients[i]) == cfg.domain
  }

  /** A content line is not answered; it loses a leading dot and gains its line end. */
  lemma ContentCodes(cfg: Config, m: Machine, line: string)
    requires m.phase == Data && m.accepting && |m.msgData| <= cfg.maxMessageSize && line != ""
    ensures Sent(cfg, m, ProcessLine(cfg, m, "." + line)) == ""
    ensures ProcessLine(cfg, m, "." + line) == m.(msgData := m.msgData + line + "\r\n")
    ensures line[0] != '.' ==> ProcessLine(cfg, m, line) == m.(msgData := m.msgData + line + "\r\n")
  {
    hide Render;
    var dotted := "." + line;
    assert dotted[1..] == line && |dotted| > 1;
  }

  /** Under LMTP every recipient is answered 250, the transaction is dropped and nothing is handed over. */
  lemma LmtpCodes(cfg: Config, m: Machine)
    requires Inv(cfg, m) && m.phase == Data && m.protocols.lmtp && OneLine(cfg.domain)
    ensures var m' := ProcessLine(cfg, m, ".");
            && Sent(cfg, m, m') == Times("250 2.0.0 Ok\r\n", |m.recipients|)
            && m' == m.(sent := m'.sent, phase := BeforeMail, sender := None, recipients := [], msgData := "")
  {
    hide Render;
    RespondTimesOnlyTalks(m, |m.recipients|);
    var m' := ProcessLine(cfg, m, ".");
    assert m'.sent == m.sent + Repeat(DataOk, |m.recipients|);
    OkText(cfg);
    OksSent(cfg, m.sent, |m.recipients|, "250 2.0.0 Ok\r\n");
  }

  function Times(s: string, n: nat): string {
    if n == 0 then "" else Times(s, n - 1) + s
  }

  lemma {:induction false} OksSent(cfg: Config, sent: seq<Reply>, n: nat, text: string)
    requires Text(cfg, DataOk) == text
    ensures Render(cfg, sent + Repeat(DataOk, n)) == Render(cfg, sent) + Times(text, n)
  {
    hide Text, Repeat;
    if n == 0 {
      RepeatNothing(sent);
    } else {
      OksSent(cfg, sent, n - 1, text);
      OneMoreOk(sent, n);
    }
  }

  lemma RepeatNothing(sent: seq<Reply>)
    ensures sent + Repeat(DataOk, 0) == sent
  {
  }

  lemma OneMoreOk(sent: seq<Reply>, n: nat)
    requires n > 0
    ensures var all := sent + Repeat(DataOk, n);
            all != [] && all[|all| - 1] == DataOk && all[..|all| - 1] == sent + Repeat(DataOk, n - 1)
  {
  }

  lemma OkText(cfg: Config)
    ensures Text(cfg, DataOk) == "250 2.0.0 Ok\r\n"
  {
    EndNumbers();
  }

  /** A code that the end of the data comes to is the number sent. */
  lemma CodeIsSent(cfg: Config, m: Machine, code: nat)
    requires OneLine(cfg.domain)
    requires code == 250 || code == 451 || code == 452 || code == 550 || code == 552 || code == 554
    ensures Answer(cfg, m, DataEndResponse(m, code)) == code
  {
    hide Answer, CodeNumber;
    EndNumbers();
    MoreEndNumbers();
    var r := match code case 250 => DataOk case 451 => LocalError case 452 => QuotaExceeded
                        case 550 => MessageRejected case 552 => MessageTooBig case _ => DeliveryFailed;
    OneAnswer(cfg, m, DataEndResponse(m, code), r);
  }

  lemma MoreEndNumbers()
    ensures CodeNumber(QuotaExceeded) == 452 && CodeNumber(DeliveryFailed) == 554
  {
  }

  // ----- the first digit -------------------------------------------------------------------------

  /** The session goes on to read data, a user name or a password. */
  predicate Moves(m: Machine, m': Machine) {
    m'.phase != m.phase && (m'.phase == Data || m'.phase == WaitingUsername || m'.phase == WaitingPassword)
  }

  /** Something the client asked for has been done. */
  ghost predicate Accepts(m: Machine, line: string, m': Machine) {
    || (m.sender == None && m'.sender != None)
    || |m'.recipients| > |m.recipients|
    || HandsOver(m, m', true)
    || (m'.authenticated && !m.authenticated)
    || Moves(m, m')
    || (TakesCommands(m) && (VerbOf(line) == Rset || VerbOf(line) == Noop || VerbOf(line) == Quit
                             || Offered(m.protocols, VerbOf(line))))
  }

  /**
   * What the first digit says: 2 or 3 when what was asked for has been done, 3 exactly when the session
   * goes on to read something else than commands; 235 exactly when it has become authenticated.
   */
  ghost predicate DigitsTell(cfg: Config, m: Machine, line: string, m': Machine) {
    var code := Answer(cfg, m, m');
    && 200 <= code < 600
    && (code / 100 == 2 || code / 100 == 3 <==> Accepts(m, line, m'))
    && (code / 100 == 3 <==> Moves(m, m'))
    && (code == 235 <==> m'.authenticated && !m.authenticated)
  }

  lemma NothingHanded(m: Machine, m': Machine)
    requires m'.handed == m.handed
    ensures !HandsOver(m, m', true)
  {
    assert m.sender.Some? ==>
             |m.handed + [Submission(m.sender.value, m.recipients, m.msgData, true)]| == |m.handed| + 1;
  }

  lemma EnvelopeDigits(cfg: Config, m: Machine, line: string)
    requires Inv(cfg, m) && TakesCommands(m) && OneLine(cfg.domain)
    requires VerbOf(line) == MailFrom || VerbOf(line) == RcptTo || VerbOf(line) == DataVerb || VerbOf(line) == Rset
    ensures DigitsTell(cfg, m, line, ProcessLine(cfg, m, line))
  {
    hide Answer, ProcessLine, VerbOf, ParamOf, StripAddress, HandsOver;
    var m' := ProcessLine(cfg, m, line);
    match VerbOf(line) {
      case MailFrom => MailCodes(cfg, m, line);
      case RcptTo => RcptCodes(cfg, m, line);
      case _ => DataAndRsetCodes(cfg, m, line);
    }
    NothingHanded(m, m');
  }

  lemma CommandDigits(cfg: Config, m: Machine, line: string)
    requires Inv(cfg, m) && TakesCommands(m) && OneLine(cfg.domain)
    ensures DigitsTell(cfg, m, line, ProcessLine(cfg, m, line))
  {
    hide Answer, ProcessLine, VerbOf, ParamOf, DigitsTell;
    match VerbOf(line) {
      case Helo | Ehlo | Lhlo => HelloDigits(cfg, m, line);
      case MailFrom | RcptTo | DataVerb | Rset => EnvelopeDigits(cfg, m, line);
      case _ => OtherDigits(cfg, m, line);
    }
  }

  lemma HelloDigits(cfg: Config, m: Machine, line: string)
    requires Inv(cfg, m) && TakesCommands(m) && OneLine(cfg.domain)
    requires VerbOf(line) == Helo || VerbOf(line) == Ehlo || VerbOf(line) == Lhlo
    ensures DigitsTell(cfg, m, line, ProcessLine(cfg, m, line))
  {
    hide Answer, ProcessLine, VerbOf, ParamOf, HandsOver;
    HelloCodes(cfg, m, line);
    NothingHanded(m, ProcessLine(cfg, m, line));
  }

  lemma OtherDigits(cfg: Config, m: Machine, line: string)
    requires Inv(cfg, m) && TakesCommands(m) && OneLine(cfg.domain)
    requires VerbOf(line) == Noop || VerbOf(line) == Quit || VerbOf(line) == Auth
             || VerbOf(line) == Unimplemented || VerbOf(line) == Unrecognized
    ensures DigitsTell(cfg, m, line, ProcessLine(cfg, m, line))
  {
    hide Answer, ProcessLine, VerbOf, ParamOf, HandsOver;
    if VerbOf(line) == Auth {
      AuthCodes(cfg, m, line);
    } else {
      OtherCodes(cfg, m, line);
    }
    NothingHanded(m, ProcessLine(cfg, m, line));
  }

  lemma LoginDigits(cfg: Config, m: Machine, line: string)
    requires Inv(cfg, m) && (m.phase == WaitingUsername || m.phase == WaitingPassword) && OneLine(cfg.domain)
    ensures DigitsTell(cfg, m, line, ProcessLine(cfg, m, line))
  {
    hide Answer, ProcessLine, HandsOver;
    if m.phase == WaitingUsername {
      UsernameCodes(cfg, m, line);
    } else {
      PasswordCodes(cfg, m, line);
    }
    NothingHanded(m, ProcessLine(cfg, m, line));
  }

  lemma EndDigits(cfg: Config, m: Machine)
    requires Inv(cfg, m) && m.phase == Data && !m.protocols.lmtp && OneLine(cfg.domain)
    ensures DigitsTell(cfg, m, ".", ProcessLine(cfg, m, "."))
  {
    hide Answer, ProcessLine, MaySend;
    EndCodes(cfg, m);
  }

  /**
   * On the wire, for every line but content and the end of data under LMTP: the client reads off the first
   * digit whether what it asked for has been done.
   */
  lemma FirstDigit(cfg: Config, m: Machine, line: string)
    requires Inv(cfg, m) && OneLine(cfg.domain) && (m.phase == Data ==> line == "." && !m.protocols.lmtp)
    ensures DigitsTell(cfg, m, line, ProcessLine(cfg, m, line))
  {
    hide DigitsTell, ProcessLine;
    if m.phase == Data {
      EndDigits(cfg, m);
    } else if TakesCommands(m) {
      CommandDigits(cfg, m, line);
    } else {
      LoginDigits(cfg, m, line);
    }
  }

  // ----- counting the 250s at the end of data ----------------------------------------------------

  const OK_LINE := "250 2.0.0 Ok"

  /** How many of the lines say that a mail was taken. */
  function OkLines(lines: seq<string>): nat {
    if lines == [] then 0 else (if lines[0] == OK_LINE then 1 else 0) + OkLines(lines[1..])
  }

  lemma {:induction false} OkLinesConcat(xs: seq<string>, ys: seq<string>)
    ensures OkLines(xs + ys) == OkLines(xs) + OkLines(ys)
  {
    if xs == [] {
      assert xs + ys == ys;
    } else {
      assert (xs + ys)[1..] == xs[1..] + ys;
      OkLinesConcat(xs[1..], ys);
    }
  }

  lemma OtherLast(cfg: Config, r: Reply)
    requires r != DataOk
    ensures LastLine(cfg, r) != OK_LINE
  {
    hide Words, Code, CodeNumber;
    CodeIsDigits(r);
    NumberOfCode(r, "");
    assert Code(r) + "" == Code(r);
    var last := LastLine(cfg, r);
    assert last[..3] == Code(r) && last[4..] == Words(cfg, r);
    assert OK_LINE[..3] == "250" && OK_LINE[4..] == "2.0.0 Ok";
    if CodeNumber(r) == 250 {
      OtherWords(cfg, r);
    } else {
      assert Number("250") == 250;
    }
  }

  lemma OtherWords(cfg: Config, r: Reply)
    requires r != DataOk && CodeNumber(r) == 250
    ensures Words(cfg, r) != "2.0.0 Ok"
  {
    hide Words;
    SessionWords(cfg);
    match r {
      case SenderOk | RecipientOk | ResetDone | NoopDone =>
      case Pleased(h) => PleasedWords(cfg, h);
      case _ =>
    }
  }

  lemma SessionWords(cfg: Config)
    ensures Words(cfg, SenderOk)[2] == '1' && Words(cfg, RecipientOk)[2] == '1'
    ensures |Words(cfg, ResetDone)| > 8 && |Words(cfg, NoopDone)| > 8
  {
  }

  lemma PleasedWords(cfg: Config, h: Hello)
    ensures Words(cfg, Pleased(h)) != "2.0.0 Ok"
  {
    var pleased := " Pleased to meet you";
    if h == HeloSmtp {
      assert |Words(cfg, Pleased(h))| >= |pleased| > 8;
    } else {
      assert Words(cfg, Pleased(h))[0] == 'P';
    }
  }

  lemma OkInText(cfg: Config, r: Reply)
    requires OneLine(cfg.domain)
    ensures OkLines(Lines(Text(cfg, r))) == if r == DataOk then 1 else 0
  {
    hide Text, Lines, Words, Code, CodeNumber, OneLine;
    ReplyLines(cfg, r);
    var opening, last := OpeningLines(cfg, r), LastLine(cfg, r);
    OkLinesConcat(opening, [last]);
    OpeningOthers(cfg, r);
    assert [last][1..] == [];
    if r != DataOk {
      OtherLast(cfg, r);
    } else {
      OkLast(cfg);
    }
  }

  lemma OkLast(cfg: Config)
    ensures LastLine(cfg, DataOk) == OK_LINE
  {
    EndNumbers();
  }

  lemma OpeningOthers(cfg: Config, r: Reply)
    ensures OkLines(OpeningLines(cfg, r)) == 0
  {
    hide Words;
    if Opening(cfg, r) != "" {
      var a, b := "250-" + cfg.domain + " Pleased to meet you", "250-ENHANCEDSTATUSCODES";
      assert a[3] == '-' && b[3] == '-' && OK_LINE[3] == ' ';
      TwoLines(a, b);
      assert OpeningLines(cfg, r) == [a, b];
    } else {
      assert OpeningLines(cfg, r) == [];
    }
  }

  lemma TwoLines(a: string, b: string)
    requires a != OK_LINE && b != OK_LINE
    ensures OkLines([a, b]) == 0
  {
    assert [b][1..] == [] && OkLines([b]) == OkLines([]);
    assert [a, b][1..] == [b];
  }

  /** On the wire there are as many such lines as there were such replies. */
  lemma {:induction false} OkLinesSent(cfg: Config, sent: seq<Reply>)
    requires OneLine(cfg.domain)
    ensures OkLines(Lines(Render(cfg, sent))) == multiset(sent)[DataOk]
  {
    hide Lines, Text, Tail, OneLine;
    if sent == [] {
      NoLines();
    } else {
      var before, r := sent[..|sent| - 1], sent[|sent| - 1];
      OkLinesSent(cfg, before);
      OkInText(cfg, r);
      RenderedReplies(cfg, before);
      LinesSplit(Render(cfg, before), Text(cfg, r));
      OkLinesConcat(Lines(Render(cfg, before)), Lines(Text(cfg, r)));
      assert "" + Text(cfg, r) == Text(cfg, r);
      assert sent == before + [r];
    }
  }

  // ----- enhanced status codes -------------------------------------------------------------------

  /**
   * The text of the reply starts with an enhanced status code (RFC 2034): the class of its code, this subject
   * and this detail.
   */
  predicate Enhanced(cfg: Config, r: Reply, subject: nat, detail: nat)
    requires subject < 10 && detail < 10
  {
    var words := Words(cfg, r);
    && |words| >= 5 && words[1] == words[3] == '.'
    && words[0] == Digit(CodeNumber(r) / 100) && words[2] == Digit(subject) && words[4] == Digit(detail)
  }

  lemma MailEnhanced(cfg: Config)
    ensures Enhanced(cfg, SenderOk, 1, 0) && Enhanced(cfg, SenderRejected, 1, 8)
    ensures Enhanced(cfg, FromExpected, 5, 2)
  {
  }

  lemma OrderEnhanced(cfg: Config)
    ensures Enhanced(cfg, HelloFirst, 5, 0) && Enhanced(cfg, DuplicateMail, 5, 0)
    ensures Enhanced(cfg, HelloFirstRcpt, 5, 0) && Enhanced(cfg, MailFirstRcpt, 5, 0)
  {
  }

  lemma RcptEnhanced(cfg: Config)
    ensures Enhanced(cfg, RecipientOk, 1, 5) && Enhanced(cfg, NoMailbox, 2, 0)
    ensures Enhanced(cfg, TooManyRecipients, 5, 3)
  {
  }

  lemma MoreRcptEnhanced(cfg: Config)
    ensures Enhanced(cfg, BadRecipient, 1, 0) && Enhanced(cfg, ToExpected, 5, 2)
  {
  }

  lemma DataEnhanced(cfg: Config)
    ensures Enhanced(cfg, MailFirst, 5, 0) && Enhanced(cfg, NeedRecipient, 5, 0)
    ensures Enhanced(cfg, EnterMail, 3, 0)
  {
  }

  lemma SessionEnhanced(cfg: Config)
    ensures Enhanced(cfg, ResetDone, 0, 0) && Enhanced(cfg, NoopDone, 0, 0)
    ensures Enhanced(cfg, GoodBye, 0, 0)
  {
  }

  lemma EndEnhanced(cfg: Config)
    ensures Enhanced(cfg, DataOk, 0, 0) && Enhanced(cfg, LocalError, 0, 0)
    ensures Enhanced(cfg, QuotaExceeded, 3, 4)
  {
  }

  lemma RefusalEnhanced(cfg: Config)
    ensures Enhanced(cfg, MessageRejected, 7, 1) && Enhanced(cfg, MessageTooBig, 3, 4)
    ensures Enhanced(cfg, DeliveryFailed, 0, 0)
  {
  }

  lemma UnknownEnhanced(cfg: Config)
    ensures Enhanced(cfg, NotImplemented, 5, 1) && Enhanced(cfg, NotRecognized, 5, 1)
  {
  }

  lemma ProtocolEnhanced(cfg: Config)
    ensures Enhanced(cfg, UnknownProtocol, 5, 0)
  {
  }

  lemma ServerEnhanced(cfg: Config, p: Protocols)
    ensures Enhanced(cfg, WrongProtocol(p), 5, 5)
  {
  }

  lemma InternalEnhanced(cfg: Config)
    ensures Enhanced(cfg, InternalError, 3, 0)
  {
  }

  /** Every reply but the greetings and those of a login. */
  lemma AllEnhanced(cfg: Config, r: Reply)
    requires !r.ServiceReady? && !r.Pleased? && !r.AuthDuringMail? && !r.DuplicateAuth? && !r.AuthMechanism?
    requires !r.AskUsername? && !r.AskPassword? && !r.AuthRejected? && !r.BadBase64? && !r.BadLogin? && !r.AuthDone?
    ensures exists subject: nat, detail: nat :: subject < 10 && detail < 10 && Enhanced(cfg, r, subject, detail)
  {
    hide Enhanced;
    MailEnhanced(cfg);
    OrderEnhanced(cfg);
    RcptEnhanced(cfg);
    MoreRcptEnhanced(cfg);
    DataEnhanced(cfg);
    SessionEnhanced(cfg);
    EndEnhanced(cfg);
    RefusalEnhanced(cfg);
    UnknownEnhanced(cfg);
    ProtocolEnhanced(cfg);
    InternalEnhanced(cfg);
    ServerEnhanced(cfg, if r.WrongProtocol? then r.offered else Protocols(false, false, false));
  }
}
