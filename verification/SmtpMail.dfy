/** Content, policy and transport of mail in the session of module Smtp. */
module SmtpMail {
  import opened CStrings
  import opened Buffer
  import opened Smtp
  import opened SmtpProofs

  // ----- exactly the lines that were sent --------------------------------------------------------

  /** The message a run of content lines spells: every line without its stuffed dot, CRLF after each. */
  function Content(lines: seq<string>): string {
    if lines == [] then "" else Unstuff(lines[0]) + CRLF + Content(lines[1..])
  }

  /** A session that is reading content, with this much of it stored. */
  ghost predicate Reading(cfg: Config, m: Machine) {
    m.phase == Data && (m.accepting || |m.msgData| > cfg.maxMessageSize)
  }

  ghost predicate NoEnd(lines: seq<string>) {
    forall i :: 0 <= i < |lines| ==> lines[i] != "."
  }

  /**
   * Content lines change nothing but msg_data and the accepting flag. While the whole content fits,
   * msg_data is all of it; once it does not fit, msg_data stays over the limit.
   */
  lemma {:induction false} ContentRun(cfg: Config, m: Machine, lines: seq<string>)
    requires Reading(cfg, m) && NoEnd(lines)
    ensures var m' := Run(cfg, m, lines);
            && m' == m.(msgData := m'.msgData, accepting := m'.accepting)
            && Reading(cfg, m')
            && (|m.msgData + Content(lines)| <= cfg.maxMessageSize ==>
                  m'.msgData == m.msgData + Content(lines))
            && (|m.msgData + Content(lines)| > cfg.maxMessageSize ==>
                  |m'.msgData| > cfg.maxMessageSize)
    decreases |lines|
  {
    if lines == [] {
      assert m.msgData + Content(lines) == m.msgData;
    } else {
      var m1 := ProcessLine(cfg, m, lines[0]);
      ContentRun(cfg, m1, lines[1..]);
      if m.accepting && |m.msgData| <= cfg.maxMessageSize {
        assert m1.msgData + Content(lines[1..]) == m.msgData + Content(lines);
      }
    }
  }

  /** Who may send this mail: a local sender logged in as that address, or anybody to somebody here. */
  ghost predicate Entitled(cfg: Config, m: Machine)
    requires m.sender.Some?
  {
    if DomainOf(m.sender.value) == cfg.domain then m.authenticated && m.username == m.sender
    else HasLocalRecipient(cfg, m.recipients)
  }

  /** What an SMTP/ESMTP end of data does with a message of this content. */
  ghost predicate Concluded(cfg: Config, m: Machine, content: string, m': Machine)
    requires m.sender.Some?
  {
    var fits, taken := |content| <= cfg.maxMessageSize, cfg.queueTakes(|m.handed|);
    && m'.phase == BeforeMail && m'.sender == None && m'.recipients == [] && m'.msgData == ""
    && m'.sent == m.sent + [if !fits then MessageTooBig else if !Entitled(cfg, m) then MessageRejected
                            else if taken then DataOk else LocalError]
    && m'.handed == m.handed + (if fits && Entitled(cfg, m)
                                then [Submission(m.sender.value, m.recipients, content, taken)] else [])
  }

  /**
   * The whole data phase of an SMTP/ESMTP session. 552 answers exactly the messages whose unstuffed
   * lines with their CRLFs exceed the limit, and what reaches the queue is all of the lines.
   */
  lemma DataPhaseExact(cfg: Config, m: Machine, lines: seq<string>)
    requires Inv(cfg, m) && m.phase == Data && m.accepting && m.msgData == "" && !m.protocols.lmtp
    requires NoEnd(lines)
    ensures Concluded(cfg, m, Content(lines), Run(cfg, m, lines + ["."]))
  {
    var m1 := Run(cfg, m, lines);
    ContentRun(cfg, m, lines);
    assert "" + Content(lines) == Content(lines);
    RunSnoc(cfg, m, lines, ".");
    EndExact(cfg, m1);
    assert m.handed + [] == m.handed;
  }

  lemma EndExact(cfg: Config, m: Machine)
    requires Inv(cfg, m) && m.phase == Data && !m.protocols.lmtp
    ensures Concluded(cfg, m, m.msgData, ProcessLine(cfg, m, "."))
  {
    assert m.handed + [] == m.handed;
  }

  // ----- bytes in chunks -------------------------------------------------------------------------

  /** A session with the input no line has consumed yet. */
  datatype Endpoint = Endpoint(pending: string, m: Machine)

  /** EatReceivedData: append, then process every complete line. */
  ghost function Eat(cfg: Config, e: Endpoint, bytes: string): Endpoint {
    Endpoint(Tail(e.pending + bytes), Run(cfg, e.m, Lines(e.pending + bytes)))
  }

  ghost function EatAll(cfg: Config, e: Endpoint, chunks: seq<string>): Endpoint
    decreases |chunks|
  {
    if chunks == [] then e else EatAll(cfg, Eat(cfg, e, chunks[0]), chunks[1..])
  }

  function Joined(chunks: seq<string>): string {
    if chunks == [] then "" else chunks[0] + Joined(chunks[1..])
  }

  /** Two reads have the effect of one read of both. */
  lemma EatSplit(cfg: Config, e: Endpoint, a: string, b: string)
    ensures Eat(cfg, Eat(cfg, e, a), b) == Eat(cfg, e, a + b)
  {
    var x := e.pending + a;
    assert e.pending + (a + b) == x + b;
    LinesSplit(x, b);
    RunConcat(cfg, e.m, Lines(x), Lines(Tail(x) + b));
  }

  /** However the network cuts the bytes, the session ends up the same. */
  lemma {:induction false} ChunksDoNotMatter(cfg: Config, e: Endpoint, chunks: seq<string>)
    requires '\n' !in e.pending
    ensures EatAll(cfg, e, chunks) == Eat(cfg, e, Joined(chunks))
    decreases |chunks|
  {
    if chunks == [] {
      assert e.pending + "" == e.pending;
    } else {
      TailHasNoLine(e.pending + chunks[0]);
      ChunksDoNotMatter(cfg, Eat(cfg, e, chunks[0]), chunks[1..]);
      EatSplit(cfg, e, chunks[0], Joined(chunks[1..]));
    }
  }

  // ----- transparency end to end -----------------------------------------------------------------

  /** The sender's half of transparency, section 4.5.2 of RFC 5321. */
  function Stuff(line: string): string {
    if line != "" && line[0] == '.' then "." + line else line
  }

  function StuffAll(lines: seq<string>): (r: seq<string>)
    ensures |r| == |lines| && forall i :: 0 <= i < |r| ==> r[i] == Stuff(lines[i])
  {
    if lines == [] then [] else [Stuff(lines[0])] + StuffAll(lines[1..])
  }

  /** What a client sends for the lines of a message. */
  function Wire(lines: seq<string>): string {
    if lines == [] then "." + CRLF else Stuff(lines[0]) + CRLF + Wire(lines[1..])
  }

  /** The message itself. */
  function Terminated(lines: seq<string>): string {
    if lines == [] then "" else lines[0] + CRLF + Terminated(lines[1..])
  }

  lemma {:induction false} WireLines(lines: seq<string>)
    requires forall i :: 0 <= i < |lines| ==> OneLine(lines[i])
    ensures Lines(Wire(lines)) == StuffAll(lines) + ["."] && Tail(Wire(lines)) == ""
  {
    if lines == [] {
      LineFirst(".", "");
      assert Wire(lines) == "." + CRLF + "";
      assert ["."] + Lines("") == StuffAll(lines) + ["."];
    } else {
      WireLines(lines[1..]);
      LineFirst(Stuff(lines[0]), Wire(lines[1..]));
    }
  }

  lemma {:induction false} StuffedContent(lines: seq<string>)
    ensures Content(StuffAll(lines)) == Terminated(lines)
  {
    if lines != [] {
      StuffedContent(lines[1..]);
      assert StuffAll(lines)[1..] == StuffAll(lines[1..]);
    }
  }

  /**
   * A client that stuffs dots and ends with a lone dot gets its message through any chunking: it is
   * refused for size exactly when it is too big, and if it is handed over, it is the very message.
   */
  lemma MessageSurvivesTransport(cfg: Config, m: Machine, lines: seq<string>, chunks: seq<string>)
    requires Inv(cfg, m) && m.phase == Data && m.accepting && m.msgData == "" && !m.protocols.lmtp
    requires forall i :: 0 <= i < |lines| ==> OneLine(lines[i])
    requires Joined(chunks) == Wire(lines)
    ensures var e := EatAll(cfg, Endpoint("", m), chunks);
            e.pending == "" && Concluded(cfg, m, Terminated(lines), e.m)
  {
    ChunksDoNotMatter(cfg, Endpoint("", m), chunks);
    assert "" + Joined(chunks) == Wire(lines);
    WireLines(lines);
    StuffedContent(lines);
    DataPhaseExact(cfg, m, StuffAll(lines));
  }

  // ----- who may send ----------------------------------------------------------------------------

  ghost predicate PasswordGiven(cfg: Config, m: Machine, line: string) {
    && m.phase == WaitingPassword && line != "*" && m.username.Some?
    && cfg.decode(line).Some? && PasswordMatches(cfg, m.username.value, cfg.decode(line).value)
  }

  /** At line i of the run the password of this user was given, and its hash matched. */
  ghost predicate LoginAt(cfg: Config, m: Machine, lines: seq<string>, i: nat, user: string) {
    && i < |lines|
    && PasswordGiven(cfg, Run(cfg, m, lines[..i]), lines[i])
    && Run(cfg, m, lines[..i]).username == Some(user)
  }

  ghost predicate LoggedIn(cfg: Config, m: Machine, lines: seq<string>, user: string) {
    exists i: nat :: LoginAt(cfg, m, lines, i, user)
  }

  /** A local sender logged in as that very address; a foreign sender writes to somebody here. */
  ghost predicate Allowed(cfg: Config, m: Machine, lines: seq<string>, s: Submission) {
    if DomainOf(s.sender) == cfg.domain then LoggedIn(cfg, m, lines, s.sender)
    else HasLocalRecipient(cfg, s.recipients)
  }

  ghost predicate AllAllowed(cfg: Config, m: Machine, lines: seq<string>, handed: seq<Submission>) {
    forall k :: 0 <= k < |handed| ==> Allowed(cfg, m, lines, handed[k])
  }

  lemma LoggedInLater(cfg: Config, m: Machine, lines: seq<string>, line: string, user: string)
    requires LoggedIn(cfg, m, lines, user)
    ensures LoggedIn(cfg, m, lines + [line], user)
  {
    var i: nat :| LoginAt(cfg, m, lines, i, user);
    assert (lines + [line])[..i] == lines[..i];
    assert LoginAt(cfg, m, lines + [line], i, user);
  }

  lemma LoginSteps(cfg: Config, m: Machine, line: string)
    requires !m.authenticated
    ensures var m' := FetchUsername(cfg, m, line); !m'.authenticated && m'.handed == m.handed
    ensures var m' := FetchPassword(cfg, m, line);
            m'.handed == m.handed && m'.username == m.username
            && (m.phase == WaitingPassword ==> (m'.authenticated <==> PasswordGiven(cfg, m, line)))
  {
  }

  /** One step: authentication is earned by a matching password, never lost, and its name is fixed. */
  lemma PolicyStep(cfg: Config, m: Machine, line: string)
    requires Inv(cfg, m)
    ensures PolicyKept(cfg, m, line, ProcessLine(cfg, m, line))
  {
    if TakesCommands(m) {
      VerbAnswersOnce(cfg, m, VerbOf(line), ParamOf(line));
    } else if m.phase == Data {
      DataKeepsPolicy(cfg, m, line);
    } else {
      LoginSteps(cfg, m, line);
    }
  }

  ghost predicate PolicyKept(cfg: Config, m: Machine, line: string, m': Machine) {
    && (m'.authenticated <==> m.authenticated || PasswordGiven(cfg, m, line))
    && (m'.authenticated ==> m'.username == m.username)
  }

  lemma DataKeepsPolicy(cfg: Config, m: Machine, line: string)
    requires Inv(cfg, m) && m.phase == Data
    ensures PolicyKept(cfg, m, line, ProcessData(cfg, m, line))
  {
    AnswerKeepsLogin(cfg, m);
  }

  ghost predicate MayHand(cfg: Config, m: Machine, s: Submission) {
    if DomainOf(s.sender) == cfg.domain then m.authenticated && m.username == Some(s.sender)
    else HasLocalRecipient(cfg, s.recipients)
  }

  lemma AnswerHands(cfg: Config, m: Machine)
    ensures var m' := AnswerData(cfg, m);
            m'.handed == m.handed
            || exists s: Submission :: m'.handed == m.handed + [s] && MayHand(cfg, m, s)
  {
    if m.protocols.lmtp {
      RespondTimesOnlyTalks(m, |m.recipients|);
    }
  }

  lemma HandStep(cfg: Config, m: Machine, line: string)
    requires Inv(cfg, m)
    ensures var m' := ProcessLine(cfg, m, line);
            m'.handed == m.handed
            || exists s: Submission :: m'.handed == m.handed + [s] && MayHand(cfg, m, s)
  {
    if TakesCommands(m) {
      VerbAnswersOnce(cfg, m, VerbOf(line), ParamOf(line));
    } else if m.phase == Data {
      AnswerHands(cfg, m);
    } else {
      LoginSteps(cfg, m, line);
    }
  }

  /** Every message any run hands to the queue is allowed. */
  lemma {:induction false} PolicyRun(cfg: Config, m: Machine, lines: seq<string>)
    requires Initial(m)
    ensures var m' := Run(cfg, m, lines);
            (m'.authenticated ==> m'.username.Some? && LoggedIn(cfg, m, lines, m'.username.value))
            && AllAllowed(cfg, m, lines, m'.handed)
    decreases |lines|
  {
    InitialInv(cfg, m);
    if lines != [] {
      var init, last := lines[..|lines| - 1], lines[|lines| - 1];
      assert lines == init + [last];
      var b := Run(cfg, m, init);
      PolicyRun(cfg, m, init);
      InvRun(cfg, m, init);
      RunSnoc(cfg, m, init, last);
      PolicyStep(cfg, b, last);
      HandStep(cfg, b, last);
      forall user | LoggedIn(cfg, m, init, user) ensures LoggedIn(cfg, m, lines, user) {
        LoggedInLater(cfg, m, init, last, user);
      }
      assert lines[..|init|] == init;
      if PasswordGiven(cfg, b, last) {
        assert LoginAt(cfg, m, lines, |init|, b.username.value);
      }
    }
  }

  // ----- recipients nobody has -------------------------------------------------------------------

  /**
   * RCPT should refuse local addresses nobody has. For the address the session would store, it does so
   * exactly when the parameter does not end in '>': the domain is taken from the raw parameter, the
   * user from the stripped address.
   */
  lemma UnknownLocalRefused(cfg: Config, m: Machine, raw: string)
    requires |m.recipients| + 1 < cfg.maxRecipients && AtPos(raw) >= 0
    requires DomainOf(StripAddress(raw)) == cfg.domain && StripAddress(raw) !in cfg.users
    ensures RecipientReply(cfg, m, raw) == NoMailbox <==> raw[|raw| - 1] != '>'
    ensures RecipientReply(cfg, m, raw) == RecipientOk <==> raw[|raw| - 1] == '>'
  {
    StripDomain(raw);
  }

  /** A parameter in angle brackets shows the check being missed. */
  lemma UnknownLocalAccepted(cfg: Config, m: Machine)
    requires |m.recipients| + 1 < cfg.maxRecipients && cfg.domain == "d" && cfg.users == map[]
    ensures RecipientReply(cfg, m, "<u@d>") == RecipientOk
  {
    OneAtPos("<u@d>", 2);
    assert DomainOf("<u@d>") == "d>";
  }

  // ----- login -----------------------------------------------------------------------------------

  /** The three lines of AUTH LOGIN authenticate exactly the holders of the password. */
  lemma LoginExact(cfg: Config, m: Machine, user: string, userCode: string, password: string, passwordCode: string)
    requires Inv(cfg, m) && m.phase == BeforeMail && !m.authenticated
    requires userCode != "*" && cfg.decode(userCode) == Some(user)
    requires passwordCode != "*" && cfg.decode(passwordCode) == Some(password)
    ensures var m' := Run(cfg, m, ["AUTH LOGIN", userCode, passwordCode]);
            m'.phase == BeforeMail
            && (m'.authenticated <==> PasswordMatches(cfg, user, password))
            && (m'.authenticated ==> m'.username == Some(user))
  {
    var m1 := ProcessLine(cfg, m, "AUTH LOGIN");
    assert VerbOf("AUTH LOGIN") == Auth && ParamOf("AUTH LOGIN") == "LOGIN";
    var m2, m3 := ProcessLine(cfg, m1, userCode), Run(cfg, m1, [userCode]);
    RunSnoc(cfg, m, [], "AUTH LOGIN");
    RunSnoc(cfg, m, ["AUTH LOGIN"], userCode);
    RunSnoc(cfg, m, ["AUTH LOGIN", userCode], passwordCode);
    assert [] + ["AUTH LOGIN"] == ["AUTH LOGIN"];
    assert ["AUTH LOGIN"] + [userCode] == ["AUTH LOGIN", userCode];
    assert ["AUTH LOGIN", userCode] + [passwordCode] == ["AUTH LOGIN", userCode, passwordCode];
  }
}
