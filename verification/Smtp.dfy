/** The SMTP/LMTP session of server/smtpsrvs.cpp as a state machine over cleaned input lines. */
module Smtp {
  import opened CStrings

  const CRLF := "\r\n"

  datatype Phase =
    | BeforeHello | WaitingUsername | WaitingPassword | BeforeMail | Recipients | Data | Closed

  /** The bit set `protocols`. */
  datatype Protocols = Protocols(smtp: bool, esmtp: bool, lmtp: bool)

  datatype Hello = HeloSmtp | EhloEsmtp | LhloLmtp

  /** A message handed to the queue, and whether the queue took it. */
  datatype Submission = Submission(sender: string, recipients: seq<string>, data: string, taken: bool)

  /**
   * Everything a session asks of the rest of the server: the user table (address to password hash),
   * the Base64 decoder and the MD5 hex digest as C strings see them, and the queue's answer to the
   * n-th message handed over.
   */
  datatype Config = Config(
    domain: string, maxRecipients: nat, maxMessageSize: int,
    users: map<string, string>,
    decode: string -> Option<string>, hash: string -> string, queueTakes: nat -> bool)

  datatype Machine = Machine(
    phase: Phase, protocols: Protocols, remoteDomain: Option<string>,
    authenticated: bool, username: Option<string>,
    sender: Option<string>, recipients: seq<string>, msgData: string, accepting: bool,
    closing: bool, sent: seq<Reply>, handed: seq<Submission>)

  /** Every reply the session can send; Text spells each out. */
  datatype Reply =
    | ServiceReady(offered: Protocols)
    | WrongProtocol(offered: Protocols)
    | Pleased(hello: Hello)
    | SenderOk | SenderRejected | FromExpected | HelloFirst | DuplicateMail
    | RecipientOk | NoMailbox | TooManyRecipients | BadRecipient | ToExpected
    | HelloFirstRcpt | MailFirstRcpt
    | MailFirst | NeedRecipient | EnterMail
    | ResetDone | NoopDone | GoodBye
    | AuthDuringMail | DuplicateAuth | AuthMechanism | AskUsername | AskPassword
    | AuthRejected | BadBase64 | BadLogin | AuthDone
    | DataOk | LocalError | QuotaExceeded | MessageRejected | MessageTooBig | DeliveryFailed
    | UnknownProtocol | NotImplemented | NotRecognized
    | InternalError

  function Offer(p: Protocols): string {
    if p == Protocols(false, false, true) then "LMTP"
    else if p == Protocols(true, false, false) then "SMTP"
    else if p.esmtp && !p.lmtp then "ESMTP"
    else if p.lmtp then "ESMTP/LMTP"
    else "(no protocols available)"
  }

  /** The code a reply ends with. */
  function CodeNumber(r: Reply): (n: nat)
    ensures 200 <= n < 600
  {
    match r
    case ServiceReady(_) => 220
    case GoodBye => 221
    case AuthDone => 235
    case SenderOk | RecipientOk | ResetDone | NoopDone | DataOk | Pleased(_) => 250
    case AskUsername | AskPassword => 334
    case EnterMail => 354
    case InternalError => 421
    case NoMailbox => 450
    case LocalError => 451
    case QuotaExceeded => 452
    case NotRecognized => 500
    case WrongProtocol(_) | FromExpected | ToExpected | AuthRejected => 501
    case NotImplemented => 502
    case HelloFirst | DuplicateMail | HelloFirstRcpt | MailFirstRcpt
      | MailFirst | NeedRecipient | AuthDuringMail | DuplicateAuth => 503
    case AuthMechanism => 504
    case UnknownProtocol => 521
    case BadBase64 | BadLogin => 535
    case MessageRejected => 550
    case SenderRejected => 551
    case TooManyRecipients | MessageTooBig => 552
    case BadRecipient => 553
    case DeliveryFailed => 554
  }

  function Digit(d: nat): char
    requires d < 10
  {
    ('0' as int + d) as char
  }

  /** Its three digits. */
  function Code(r: Reply): string {
    var n := CodeNumber(r);
    [Digit(n / 100), Digit(n / 10 % 10), Digit(n % 10)]
  }

  /** What follows the code on the last line. */
  function Words(cfg: Config, r: Reply): string {
    match r
    case ServiceReady(p) => cfg.domain + " " + Offer(p) + " Service ready"
    case WrongProtocol(p) =>
      "5.5.5 wrong protocol version, try "
      + (if p.lmtp then "LHLO " else "") + (if p.smtp then "HELO " else "")
      + (if p.esmtp then "EHLO " else "")
    case SenderOk => "2.1.0 Sender Ok"
    case SenderRejected => "5.1.8 Sender address rejected"
    case FromExpected => "5.5.2 Syntax error, FROM: expected"
    case HelloFirst => "5.5.0 say hello first"
    case DuplicateMail => "5.5.0 duplicate MAIL command"
    case RecipientOk => "2.1.5 Recipient Ok"
    case NoMailbox => "4.2.0 Mailbox unavailable"
    case TooManyRecipients => "5.5.3 Too many recipients"
    case BadRecipient => "5.1.0 Recipient rejected"
    case ToExpected => "5.5.2 Syntax error, TO: expected"
    case HelloFirstRcpt => "5.5.0 Say hello first"
    case MailFirstRcpt => "5.5.0 Use MAIL command " + "to start a message"
    case MailFirst => "5.5.0 Say MAIL first"
    case NeedRecipient => "5.5.0 Need at least one recipient"
    case EnterMail => "3.3.0 Enter mail, " + "end with <CRLF>.<CRLF>"
    case ResetDone => "2.0.0 Reset state"
    case NoopDone => "2.0.0 OK, no operation done"
    case GoodBye => "2.0.0 Good bye"
    case AuthDuringMail => "AUTH command during " + "mail transaction forbidden"
    case DuplicateAuth => "duplicate AUTH command"
    case AuthMechanism => "unimplemented AUTH mechanism"
    case AskUsername => "VXNlcm5hbWU6"
    case AskPassword => "UGFzc3dvcmQ6"
    case AuthRejected => "authentication rejected by user"
    case BadBase64 => "invalid BASE64 string. " + "Please try again"
    case BadLogin => "invalid username/password"
    case AuthDone => "authentication done"
    case DataOk => "2.0.0 Ok"
    case LocalError => "4.0.0 Local error"
    case QuotaExceeded => "4.3.4 Quota exceeded"
    case MessageRejected => "5.7.1 Message rejected"
    case MessageTooBig => "5.3.4 Message too big"
    case DeliveryFailed => "5.0.0 Failed"
    case UnknownProtocol => "5.5.0 Don't know the protocol version " + " Please use HELO/EHLO/LHLO"
    case NotImplemented => "5.5.1 Command or " + "feature not implemented"
    case NotRecognized => "5.5.1 Command unrecognized"
    case InternalError => "4.3.0 " + cfg.domain + " Internal server error, sorry"
    case Pleased(h) => if h == HeloSmtp then cfg.domain + " Pleased to meet you" else "PIPELINING"
  }

  /** The lines of a reply before its last one. */
  function Opening(cfg: Config, r: Reply): string {
    if r == Pleased(EhloEsmtp) || r == Pleased(LhloLmtp) then
      "250-" + cfg.domain + " Pleased to meet you" + CRLF + "250-ENHANCEDSTATUSCODES" + CRLF
    else ""
  }

  function Text(cfg: Config, r: Reply): string {
    Opening(cfg, r) + (Code(r) + " " + Words(cfg, r)) + CRLF
  }

  /** The bytes of the output buffer. */
  function Render(cfg: Config, sent: seq<Reply>): string {
    if sent == [] then ""
    else Render(cfg, sent[..|sent| - 1]) + Text(cfg, sent[|sent| - 1])
  }

  function Say(m: Machine, r: Reply): Machine {
    m.(sent := m.sent + [r])
  }

  /** A fresh session. The recipient list and the accepting flag start uninitialised. */
  ghost predicate Initial(m: Machine) {
    && m.phase == BeforeHello && m.remoteDomain == None
    && !m.authenticated && m.username == None && m.sender == None
    && m.msgData == "" && !m.closing && m.handed == []
    && m.sent == [ServiceReady(m.protocols)]
  }

  // ----- commands --------------------------------------------------------------------------------

  datatype Verb =
    | Helo | Ehlo | Lhlo | MailFrom | RcptTo | DataVerb | Rset | Noop | Quit | Auth
    | Unimplemented | Unrecognized

  function ToUpper(c: char): char {
    if 'a' <= c <= 'z' then c - 32 as char else c
  }

  const UNIMPLEMENTED := ["SEND", "SAML", "SOML", "VRFY", "EXPN", "HELP", "TURN", "ETRN"]

  function VerbNamed(cmd: string): Verb {
    if cmd == "HELO" then Helo
    else if cmd == "EHLO" then Ehlo
    else if cmd == "LHLO" then Lhlo
    else if cmd == "MAIL" then MailFrom
    else if cmd == "RCPT" then RcptTo
    else if cmd == "DATA" then DataVerb
    else if cmd == "RSET" then Rset
    else if cmd == "NOOP" then Noop
    else if cmd == "QUIT" then Quit
    else if cmd == "AUTH" then Auth
    else if cmd in UNIMPLEMENTED then Unimplemented
    else Unrecognized
  }

  /** A command is four letters, then the end of the line or a blank. */
  function VerbOf(line: string): Verb {
    if |line| < 4 || (|line| > 4 && line[4] != ' ') then Unrecognized
    else VerbNamed([ToUpper(line[0]), ToUpper(line[1]), ToUpper(line[2]), ToUpper(line[3])])
  }

  function ParamOf(line: string): string {
    if |line| <= 5 then "" else line[5..]
  }

  function Unavailable(m: Machine): Machine {
    Say(m, InternalError).(closing := true)
  }

  function Supports(p: Protocols, h: Hello): bool {
    match h
    case HeloSmtp => p.smtp
    case EhloEsmtp => p.esmtp
    case LhloLmtp => p.lmtp
  }

  function Narrow(p: Protocols, h: Hello): Protocols {
    if h == LhloLmtp then Protocols(false, false, true) else p.(lmtp := false)
  }

  function ProcessHello(m: Machine, param: string, h: Hello): Machine {
    if !Supports(m.protocols, h) then Say(m, WrongProtocol(m.protocols))
    else
      var m1 := Say(m, Pleased(h)).(remoteDomain := Some(param));
      if m.phase == BeforeHello then m1.(phase := BeforeMail, protocols := Narrow(m.protocols, h)) else m1
  }

  function SkipBlanks(s: string): string {
    if s != "" && (s[0] == ' ' || s[0] == '\t') then SkipBlanks(s[1..]) else s
  }

  /** Leading blanks, one '<' and one closing '>' are not part of the stored address. */
  function StripAddress(raw: string): string {
    var s := SkipBlanks(raw);
    var t := if s != "" && s[0] == '<' then s[1..] else s;
    if t != "" && t[|t| - 1] == '>' then t[..|t| - 1] else t
  }

  ghost function ProcessMail(m: Machine, param: string): Machine {
    if !("FROM:" <= param) then Say(m, FromExpected)
    else match m.phase
      case BeforeHello => Say(m, HelloFirst)
      case Recipients => Say(m, DuplicateMail)
      case BeforeMail =>
        if AtPos(param[5..]) < 0 then Say(m, SenderRejected)
        else Say(m, SenderOk)
             .(sender := Some(StripAddress(param[5..])), phase := Recipients, recipients := [])
      case _ => Unavailable(m)
  }

  /** MessageAddRecipient: the reply. The local check looks at the raw parameter's domain. */
  ghost function RecipientReply(cfg: Config, m: Machine, raw: string): Reply {
    if |m.recipients| + 1 >= cfg.maxRecipients then TooManyRecipients
    else if AtPos(raw) < 0 then BadRecipient
    else if DomainOf(raw) == cfg.domain && StripAddress(raw) !in cfg.users then NoMailbox
    else RecipientOk
  }

  ghost function ProcessRcpt(cfg: Config, m: Machine, param: string): Machine {
    if !("TO:" <= param) then Say(m, ToExpected)
    else match m.phase
      case BeforeHello => Say(m, HelloFirstRcpt)
      case BeforeMail => Say(m, MailFirstRcpt)
      case Recipients =>
        var r := RecipientReply(cfg, m, param[3..]);
        if r == RecipientOk then
          Say(m, r).(recipients := m.recipients + [StripAddress(param[3..])])
        else Say(m, r)
      case _ => Unavailable(m)
  }

  function ProcessDataCommand(m: Machine): Machine {
    if m.phase != Recipients then Say(m, MailFirst)
    else if m.recipients == [] then Say(m, NeedRecipient)
    else Say(m, EnterMail).(phase := Data, accepting := true)
  }

  function Discard(m: Machine): Machine {
    m.(msgData := "", sender := None, recipients := [])
  }

  function ProcessRset(m: Machine): Machine {
    var d := Say(Discard(m), ResetDone);
    if m.phase == BeforeHello then d else d.(phase := BeforeMail)
  }

  function ProcessAuth(m: Machine, param: string): Machine {
    if m.phase == BeforeHello then Say(m, HelloFirst)
    else if m.phase == Recipients || m.phase == Data || m.phase == Closed then Say(m, AuthDuringMail)
    else if m.authenticated then Say(m, DuplicateAuth)
    else if !("LOGIN" <= param) then Say(m, AuthMechanism)
    else Say(m, AskUsername).(phase := WaitingUsername)
  }

  ghost function ProcessVerb(cfg: Config, m: Machine, verb: Verb, param: string): Machine {
    match verb
    case Helo => ProcessHello(m, param, HeloSmtp)
    case Ehlo => ProcessHello(m, param, EhloEsmtp)
    case Lhlo => ProcessHello(m, param, LhloLmtp)
    case MailFrom => ProcessMail(m, param)
    case RcptTo => ProcessRcpt(cfg, m, param)
    case DataVerb => ProcessDataCommand(m)
    case Rset => ProcessRset(m)
    case Noop => Say(m, NoopDone)
    case Quit => Say(m, GoodBye).(closing := true)
    case Auth => ProcessAuth(m, param)
    case Unimplemented => Say(m, NotImplemented)
    case Unrecognized => Say(m, NotRecognized)
  }

  ghost function ProcessCommand(cfg: Config, m: Machine, line: string): Machine {
    ProcessVerb(cfg, m, VerbOf(line), ParamOf(line))
  }

  // ----- AUTH LOGIN ------------------------------------------------------------------------------

  function FetchUsername(cfg: Config, m: Machine, line: string): Machine {
    if line == "*" then Say(m, AuthRejected).(phase := BeforeMail)
    else match cfg.decode(line)
      case None => Say(m, BadBase64).(username := None)
      case Some(u) => Say(m, AskPassword).(username := Some(u), phase := WaitingPassword)
  }

  /** The stored hash of the named user is the hash of this password. */
  predicate PasswordMatches(cfg: Config, user: string, password: string) {
    user in cfg.users && cfg.users[user] == cfg.hash(password)
  }

  function FetchPassword(cfg: Config, m: Machine, line: string): Machine {
    if line == "*" then Say(m, AuthRejected).(phase := BeforeMail)
    else match cfg.decode(line)
      case None => Say(m, BadBase64)
      case Some(p) =>
        if m.username.Some? && PasswordMatches(cfg, m.username.value, p) then
          Say(m, AuthDone).(authenticated := true, phase := BeforeMail)
        else
          Say(m, BadLogin).(phase := BeforeMail)
  }

  // ----- message content -------------------------------------------------------------------------

  /** The receiver's half of transparency, section 4.5.2 of RFC 5321. */
  function Unstuff(line: string): string {
    if line != "" && line[0] == '.' then line[1..] else line
  }

  function AddContentLine(cfg: Config, m: Machine, line: string): Machine {
    if !m.accepting then m
    else if |m.msgData| > cfg.maxMessageSize then m.(accepting := false)
    else m.(msgData := m.msgData + Unstuff(line) + CRLF)
  }

  ghost predicate HasLocalRecipient(cfg: Config, recipients: seq<string>) {
    exists i :: 0 <= i < |recipients| && DomainOf(recipients[i]) == cfg.domain
  }

  /** MessageDataEnd's tests, in order: size, then who may send what. */
  ghost function DataEndCode(cfg: Config, m: Machine): nat {
    if |m.msgData| > cfg.maxMessageSize then 552
    else if m.sender.None? then 550
    else if DomainOf(m.sender.value) == cfg.domain then
      (if m.authenticated && m.username == m.sender then 250 else 550)
    else if HasLocalRecipient(cfg, m.recipients) then 250 else 550
  }

  ghost function MessageDataEnd(cfg: Config, m: Machine): (Machine, nat) {
    var code := DataEndCode(cfg, m);
    if code != 250 || m.sender.None? then (m, code)
    else
      var taken := cfg.queueTakes(|m.handed|);
      (m.(handed := m.handed + [Submission(m.sender.value, m.recipients, m.msgData, taken)]),
       if taken then 250 else 451)
  }

  /** DataEndResponse: one reply; every refusal also drops the message. */
  function DataEndResponse(m: Machine, code: nat): Machine {
    match code
    case 250 => Say(m, DataOk)
    case 451 => Discard(Say(m, LocalError))
    case 452 => Discard(Say(m, QuotaExceeded))
    case 550 => Discard(Say(m, MessageRejected))
    case 552 => Discard(Say(m, MessageTooBig))
    case 554 => Discard(Say(m, DeliveryFailed))
    case _ => Unavailable(m)
  }

  /** One reply per recipient, as section 4.2 of RFC 2033 asks of LMTP. */
  function RespondTimes(m: Machine, n: nat): Machine {
    if n == 0 then m else DataEndResponse(RespondTimes(m, n - 1), 250)
  }

  /** The replies at the end of the data, before the transaction is dropped. */
  ghost function AnswerData(cfg: Config, m: Machine): Machine {
    if m.protocols.lmtp then RespondTimes(m, |m.recipients|)
    else
      var (m', code) := MessageDataEnd(cfg, m);
      DataEndResponse(m', code)
  }

  ghost function ProcessData(cfg: Config, m: Machine, line: string): Machine {
    if line != "." then AddContentLine(cfg, m, line)
    else if (m.protocols.smtp || m.protocols.esmtp) && m.protocols.lmtp then
      Say(m, UnknownProtocol).(closing := true)
    else
      Discard(AnswerData(cfg, m)).(phase := BeforeMail)
  }

  // ----- runs ------------------------------------------------------------------------------------

  ghost function ProcessLine(cfg: Config, m: Machine, line: string): Machine {
    match m.phase
    case Closed => m
    case WaitingUsername => FetchUsername(cfg, m, line)
    case WaitingPassword => FetchPassword(cfg, m, line)
    case Data => ProcessData(cfg, m, line)
    case _ => ProcessCommand(cfg, m, line)
  }

  ghost function Run(cfg: Config, m: Machine, lines: seq<string>): Machine
    decreases |lines|
  {
    if lines == [] then m else Run(cfg, ProcessLine(cfg, m, lines[0]), lines[1..])
  }

  lemma {:induction false} RunConcat(cfg: Config, m: Machine, xs: seq<string>, ys: seq<string>)
    ensures Run(cfg, m, xs + ys) == Run(cfg, Run(cfg, m, xs), ys)
    decreases |xs|
  {
    if xs == [] {
      assert xs + ys == ys;
    } else {
      assert (xs + ys)[1..] == xs[1..] + ys;
      RunConcat(cfg, ProcessLine(cfg, m, xs[0]), xs[1..], ys);
    }
  }

  lemma RunSnoc(cfg: Config, m: Machine, xs: seq<string>, y: string)
    ensures Run(cfg, m, xs + [y]) == ProcessLine(cfg, Run(cfg, m, xs), y)
  {
    RunConcat(cfg, m, xs, [y]);
    var m' := Run(cfg, m, xs);
    assert Run(cfg, m', [y]) == Run(cfg, ProcessLine(cfg, m', y), [y][1..]);
  }
}
