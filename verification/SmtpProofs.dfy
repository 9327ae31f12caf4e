/** What every run of the session of module Smtp keeps, sends and hands over. */
module SmtpProofs {
  import opened CStrings
  import opened Smtp

  function Repeat(r: Reply, n: nat): (rs: seq<Reply>)
    ensures |rs| == n && forall i :: 0 <= i < n ==> rs[i] == r
  {
    if n == 0 then [] else Repeat(r, n - 1) + [r]
  }

  lemma {:induction false} RespondTimesOnlyTalks(m: Machine, n: nat)
    ensures RespondTimes(m, n) == m.(sent := m.sent + Repeat(DataOk, n))
  {
    if n > 0 {
      RespondTimesOnlyTalks(m, n - 1);
      assert m.sent + Repeat(DataOk, n - 1) + [DataOk] == m.sent + Repeat(DataOk, n);
    } else {
      assert m.sent + Repeat(DataOk, n) == m.sent;
    }
  }

  // ----- the session invariant -------------------------------------------------------------------

  ghost predicate InTransaction(m: Machine) {
    m.phase == Recipients || m.phase == Data
  }

  ghost predicate GoodAddresses(rs: seq<string>) {
    forall i :: 0 <= i < |rs| ==> AtPos(rs[i]) >= 0
  }

  ghost predicate TakesCommands(m: Machine) {
    m.phase == BeforeHello || m.phase == BeforeMail || m.phase == Recipients
  }

  ghost predicate Inv(cfg: Config, m: Machine) {
    && m.phase != Closed
    && (m.phase != BeforeHello ==>
          m.remoteDomain.Some? && (m.protocols.lmtp ==> m.protocols == Protocols(false, false, true)))
    && (InTransaction(m) <==> m.sender.Some?)
    && (InTransaction(m) ==>
          AtPos(m.sender.value) >= 0
          && (m.recipients == [] || |m.recipients| < cfg.maxRecipients)
          && GoodAddresses(m.recipients))
    && (m.phase == Data ==> m.recipients != [])
    && (m.phase != Data ==> m.msgData == "")
    && (m.phase == WaitingPassword || m.authenticated ==> m.username.Some?)
    && (m.phase == WaitingUsername || m.phase == WaitingPassword ==> !m.authenticated)
  }

  lemma InitialInv(cfg: Config, m: Machine)
    requires Initial(m)
    ensures Inv(cfg, m)
  {
  }

  lemma OneAtPos(s: string, p: nat)
    requires OneAt(s, p)
    ensures AtPos(s) == p
  {
    assert s[AtPos(s)] == '@';
  }

  ghost predicate NoAtIn(s: string, i: nat, j: nat)
    requires i <= j <= |s|
  {
    forall k :: i <= k < j ==> s[k] != '@'
  }

  /** Dropping characters other than '@' from both ends keeps the '@'. */
  lemma AtPosSlice(s: string, i: nat, j: nat)
    requires i <= j <= |s| && AtPos(s) >= 0
    requires NoAtIn(s, 0, i) && NoAtIn(s, j, |s|)
    ensures i <= AtPos(s) < j
    ensures AtPos(s[i..j]) == AtPos(s) - i
  {
    OneAtPos(s[i..j], AtPos(s) - i);
  }

  function BlankCount(s: string): (n: nat)
    ensures n <= |s| && SkipBlanks(s) == s[n..]
    ensures NoAtIn(s, 0, n)
  {
    if s != "" && (s[0] == ' ' || s[0] == '\t') then 1 + BlankCount(s[1..]) else 0
  }

  lemma StripBounds(raw: string) returns (i: nat, j: nat)
    requires AtPos(raw) >= 0
    ensures i <= j <= |raw| && NoAtIn(raw, 0, i) && NoAtIn(raw, j, |raw|)
    ensures StripAddress(raw) == raw[i..j]
    ensures j == if raw[|raw| - 1] == '>' then |raw| - 1 else |raw|
  {
    var n := BlankCount(raw);
    i := if n < |raw| && raw[n] == '<' then n + 1 else n;
    j := if raw[|raw| - 1] == '>' then |raw| - 1 else |raw|;
    AtPosSlice(raw, i, |raw|);
    StripSlice(raw, n, i, j);
  }

  lemma StripSlice(raw: string, n: nat, i: nat, j: nat)
    requires n <= i < |raw| && SkipBlanks(raw) == raw[n..]
    requires i == if raw[n] == '<' then n + 1 else n
    requires j == if raw[|raw| - 1] == '>' then |raw| - 1 else |raw|
    ensures StripAddress(raw) == raw[i..j]
  {
    var t := raw[i..];
    assert raw[n..][0] == raw[n] && raw[n..][1..] == raw[n + 1..];
    assert t[|t| - 1] == raw[|raw| - 1] && t[..j - i] == raw[i..j];
  }

  lemma StripKeepsAt(raw: string)
    requires AtPos(raw) >= 0
    ensures AtPos(StripAddress(raw)) >= 0
  {
    var i, j := StripBounds(raw);
    AtPosSlice(raw, i, j);
  }

  /** Stripping keeps the domain part unless a closing '>' is dropped. */
  lemma StripDomain(raw: string)
    requires AtPos(raw) >= 0
    ensures DomainOf(raw) ==
            DomainOf(StripAddress(raw)) + (if raw[|raw| - 1] == '>' then ">" else "")
  {
    var i, j := StripBounds(raw);
    AtPosSlice(raw, i, j);
    assert DomainOf(raw[i..j]) == raw[AtPos(raw) + 1..j];
    assert raw[j..] == if raw[|raw| - 1] == '>' then ">" else "";
    assert DomainOf(raw) == raw[AtPos(raw) + 1..j] + raw[j..];
  }

  lemma InvMail(cfg: Config, m: Machine, param: string)
    requires Inv(cfg, m) && TakesCommands(m)
    ensures Inv(cfg, ProcessMail(m, param))
  {
    if "FROM:" <= param && AtPos(param[5..]) >= 0 {
      StripKeepsAt(param[5..]);
    }
  }

  lemma InvRcpt(cfg: Config, m: Machine, param: string)
    requires Inv(cfg, m) && TakesCommands(m)
    ensures Inv(cfg, ProcessRcpt(cfg, m, param))
  {
    if "TO:" <= param && AtPos(param[3..]) >= 0 {
      StripKeepsAt(param[3..]);
    }
  }

  lemma InvHello(cfg: Config, m: Machine, param: string, h: Hello)
    requires Inv(cfg, m) && TakesCommands(m)
    ensures Inv(cfg, ProcessHello(m, param, h))
  {
  }

  lemma InvAuth(cfg: Config, m: Machine, param: string)
    requires Inv(cfg, m) && TakesCommands(m)
    ensures Inv(cfg, ProcessAuth(m, param))
  {
  }

  lemma InvVerb(cfg: Config, m: Machine, verb: Verb, param: string)
    requires Inv(cfg, m) && TakesCommands(m)
    ensures Inv(cfg, ProcessVerb(cfg, m, verb, param))
  {
    match verb {
      case Helo => InvHello(cfg, m, param, HeloSmtp);
      case Ehlo => InvHello(cfg, m, param, EhloEsmtp);
      case Lhlo => InvHello(cfg, m, param, LhloLmtp);
      case MailFrom => InvMail(cfg, m, param);
      case RcptTo => InvRcpt(cfg, m, param);
      case Auth => InvAuth(cfg, m, param);
      case _ =>
    }
  }

  lemma InvContentLine(cfg: Config, m: Machine, line: string)
    requires Inv(cfg, m) && m.phase == Data
    ensures Inv(cfg, AddContentLine(cfg, m, line))
  {
  }

  /** What no step of a message's end touches. */
  ghost predicate SameLogin(m: Machine, m': Machine) {
    && m'.remoteDomain == m.remoteDomain && m'.protocols == m.protocols
    && m'.username == m.username && m'.authenticated == m.authenticated
    && m'.closing == m.closing
  }

  /** m' continues m with exactly n more replies, none of them a 421 or a 521. */
  ghost predicate Answers(m: Machine, m': Machine, n: nat) {
    && |m'.sent| == |m.sent| + n && m'.sent[..|m.sent|] == m.sent
    && Sound(m'.sent[|m.sent|..])
  }

  ghost predicate Sound(rs: seq<Reply>) {
    forall i :: 0 <= i < |rs| ==> rs[i] != InternalError && rs[i] != UnknownProtocol
  }

  ghost predicate AnswersOnce(m: Machine, m': Machine) {
    exists r :: m'.sent == m.sent + [r] && r != InternalError && r != UnknownProtocol
  }

  lemma OnceIsOne(m: Machine, m': Machine)
    requires AnswersOnce(m, m')
    ensures Answers(m, m', 1)
  {
  }

  lemma CodeAnswersOnce(m: Machine, code: nat)
    requires code == 250 || code == 451 || code == 550 || code == 552
    ensures AnswersOnce(m, DataEndResponse(m, code)) && SameLogin(m, DataEndResponse(m, code))
  {
  }

  lemma AnswerKeepsLogin(cfg: Config, m: Machine)
    requires m.phase == Data && m.recipients != []
    ensures SameLogin(m, AnswerData(cfg, m))
    ensures !m.protocols.lmtp ==> AnswersOnce(m, AnswerData(cfg, m))
    ensures m.protocols.lmtp ==> Answers(m, AnswerData(cfg, m), |m.recipients|)
  {
    if m.protocols.lmtp {
      RespondTimesOnlyTalks(m, |m.recipients|);
    } else {
      var (m', code) := MessageDataEnd(cfg, m);
      CodeAnswersOnce(m', code);
    }
  }

  lemma InvData(cfg: Config, m: Machine, line: string)
    requires Inv(cfg, m) && m.phase == Data
    ensures Inv(cfg, ProcessData(cfg, m, line))
  {
    InvContentLine(cfg, m, line);
    AnswerKeepsLogin(cfg, m);
  }

  lemma InvLogin(cfg: Config, m: Machine, line: string)
    requires Inv(cfg, m)
    ensures m.phase == WaitingUsername ==> Inv(cfg, FetchUsername(cfg, m, line))
    ensures m.phase == WaitingPassword ==> Inv(cfg, FetchPassword(cfg, m, line))
  {
  }

  /** Every line keeps the invariant. */
  lemma InvStep(cfg: Config, m: Machine, line: string)
    requires Inv(cfg, m)
    ensures Inv(cfg, ProcessLine(cfg, m, line))
  {
    if TakesCommands(m) {
      InvVerb(cfg, m, VerbOf(line), ParamOf(line));
    } else if m.phase == Data {
      InvData(cfg, m, line);
    } else {
      InvLogin(cfg, m, line);
    }
  }

  lemma {:induction false} InvRun(cfg: Config, m: Machine, lines: seq<string>)
    requires Inv(cfg, m)
    ensures Inv(cfg, Run(cfg, m, lines))
    decreases |lines|
  {
    if lines != [] {
      InvStep(cfg, m, lines[0]);
      InvRun(cfg, ProcessLine(cfg, m, lines[0]), lines[1..]);
    }
  }

  // ----- replies ---------------------------------------------------------------------------------

  /** How many replies a line is owed. */
  function Owed(m: Machine, line: string): nat {
    if m.phase != Data then 1
    else if line != "." then 0
    else if m.protocols.lmtp then |m.recipients|
    else 1
  }

  /** Nobody was logged in or out and no mail was handed over. */
  ghost predicate Quiet(m: Machine, m': Machine) {
    m'.authenticated == m.authenticated && m'.username == m.username && m'.handed == m.handed
  }

  lemma HelloAnswersOnce(m: Machine, param: string, h: Hello)
    ensures AnswersOnce(m, ProcessHello(m, param, h)) && ProcessHello(m, param, h).closing == m.closing
    ensures Quiet(m, ProcessHello(m, param, h))
  {
  }

  lemma MailAnswersOnce(m: Machine, param: string)
    requires TakesCommands(m)
    ensures AnswersOnce(m, ProcessMail(m, param)) && ProcessMail(m, param).closing == m.closing
    ensures Quiet(m, ProcessMail(m, param))
  {
  }

  lemma RcptAnswersOnce(cfg: Config, m: Machine, param: string)
    requires TakesCommands(m)
    ensures AnswersOnce(m, ProcessRcpt(cfg, m, param)) && ProcessRcpt(cfg, m, param).closing == m.closing
    ensures Quiet(m, ProcessRcpt(cfg, m, param))
  {
  }

  lemma AuthAnswersOnce(m: Machine, param: string)
    ensures AnswersOnce(m, ProcessAuth(m, param)) && ProcessAuth(m, param).closing == m.closing
    ensures Quiet(m, ProcessAuth(m, param))
  {
  }

  lemma VerbAnswersOnce(cfg: Config, m: Machine, verb: Verb, param: string)
    requires Inv(cfg, m) && TakesCommands(m)
    ensures AnswersOnce(m, ProcessVerb(cfg, m, verb, param))
    ensures ProcessVerb(cfg, m, verb, param).closing == (m.closing || verb == Quit)
    ensures Quiet(m, ProcessVerb(cfg, m, verb, param))
  {
    match verb {
      case Helo => HelloAnswersOnce(m, param, HeloSmtp);
      case Ehlo => HelloAnswersOnce(m, param, EhloEsmtp);
      case Lhlo => HelloAnswersOnce(m, param, LhloLmtp);
      case MailFrom => MailAnswersOnce(m, param);
      case RcptTo => RcptAnswersOnce(cfg, m, param);
      case Auth => AuthAnswersOnce(m, param);
      case _ =>
    }
  }

  lemma LoginAnswersOnce(cfg: Config, m: Machine, line: string)
    ensures AnswersOnce(m, FetchUsername(cfg, m, line)) && AnswersOnce(m, FetchPassword(cfg, m, line))
    ensures FetchUsername(cfg, m, line).closing == FetchPassword(cfg, m, line).closing == m.closing
  {
  }

  /**
   * Each command or AUTH line gets one reply, a content line none, the end of the data one, or one
   * per recipient under LMTP. No reply is the 421 or the 521, and only QUIT starts closing.
   */
  lemma RepliesStep(cfg: Config, m: Machine, line: string)
    requires Inv(cfg, m)
    ensures Answers(m, ProcessLine(cfg, m, line), Owed(m, line))
    ensures ProcessLine(cfg, m, line).closing ==
            (m.closing || (TakesCommands(m) && VerbOf(line) == Quit))
  {
    if TakesCommands(m) {
      VerbAnswersOnce(cfg, m, VerbOf(line), ParamOf(line));
      OnceIsOne(m, ProcessVerb(cfg, m, VerbOf(line), ParamOf(line)));
    } else if m.phase == Data {
      DataReplies(cfg, m, line);
    } else {
      LoginAnswersOnce(cfg, m, line);
      OnceIsOne(m, ProcessLine(cfg, m, line));
    }
  }

  lemma DataReplies(cfg: Config, m: Machine, line: string)
    requires Inv(cfg, m) && m.phase == Data
    ensures Answers(m, ProcessData(cfg, m, line), Owed(m, line))
    ensures ProcessData(cfg, m, line).closing == m.closing
  {
    AnswerKeepsLogin(cfg, m);
    if line == "." && !m.protocols.lmtp {
      OnceIsOne(m, AnswerData(cfg, m));
    }
  }

  ghost function OwedInAll(cfg: Config, m: Machine, lines: seq<string>): nat
    decreases |lines|
  {
    if lines == [] then 0
    else Owed(m, lines[0]) + OwedInAll(cfg, ProcessLine(cfg, m, lines[0]), lines[1..])
  }

  lemma {:induction false} RepliesRun(cfg: Config, m: Machine, lines: seq<string>)
    requires Inv(cfg, m)
    ensures Answers(m, Run(cfg, m, lines), OwedInAll(cfg, m, lines))
    decreases |lines|
  {
    if lines != [] {
      var m1 := ProcessLine(cfg, m, lines[0]);
      RepliesStep(cfg, m, lines[0]);
      InvStep(cfg, m, lines[0]);
      RepliesRun(cfg, m1, lines[1..]);
      AnswersTrans(m, m1, Run(cfg, m, lines), Owed(m, lines[0]), OwedInAll(cfg, m1, lines[1..]));
    }
  }

  lemma AnswersTrans(m: Machine, m1: Machine, m2: Machine, j: nat, k: nat)
    requires Answers(m, m1, j) && Answers(m1, m2, k)
    ensures Answers(m, m2, j + k)
  {
    assert m2.sent[..|m.sent|] == m2.sent[..|m1.sent|][..|m.sent|];
    assert m2.sent[|m.sent|..] == m1.sent[|m.sent|..] + m2.sent[|m1.sent|..];
  }
}
