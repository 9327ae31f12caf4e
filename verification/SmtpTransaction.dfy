/** A whole mail transaction of the session of module Smtp, from the client's bytes to the queue. */
module SmtpTransaction {
  import opened CStrings
  import opened Buffer
  import opened Smtp
  import opened SmtpProofs
  import opened SmtpMail

  /** An address as it stands between angle brackets. */
  ghost predicate IsAddress(a: string) {
    && OneLine(a) && AtPos(a) >= 0
    && a[0] != '<' && a[0] != ' ' && a[0] != '\t' && a[|a| - 1] != '>'
  }

  function MailLine(sender: string): string {
    "MAIL FROM:<" + sender + ">"
  }

  function RcptLine(recipient: string): string {
    "RCPT TO:<" + recipient + ">"
  }

  function RcptLines(rs: seq<string>): (ls: seq<string>)
    ensures |ls| == |rs| && forall i :: 0 <= i < |rs| ==> ls[i] == RcptLine(rs[i])
  {
    if rs == [] then [] else [RcptLine(rs[0])] + RcptLines(rs[1..])
  }

  lemma Bracketed(a: string)
    requires IsAddress(a)
    ensures AtPos("<" + a + ">") == AtPos(a) + 1 && StripAddress("<" + a + ">") == a
    ensures DomainOf("<" + a + ">") == DomainOf(a) + ">"
  {
    var raw := "<" + a + ">";
    var p := AtPos(a);
    assert raw[p + 1] == '@';
    forall i | 0 <= i < |raw| && raw[i] == '@' ensures i == p + 1 {
      assert 0 < i < |raw| - 1 && a[i - 1] == '@';
    }
    OneAtPos(raw, p + 1);
    assert raw[1..] == a + ">" && (a + ">")[..|a|] == a;
    assert raw[p + 2..] == a[p + 1..] + ">";
  }

  lemma MailStep(cfg: Config, m: Machine, sender: string)
    requires m.phase == BeforeMail && IsAddress(sender)
    ensures ProcessLine(cfg, m, MailLine(sender))
            == Say(m, SenderOk).(sender := Some(sender), phase := Recipients, recipients := [])
  {
    var line := MailLine(sender);
    assert VerbOf(line) == MailFrom;
    var param := ParamOf(line);
    assert param == "FROM:" + ("<" + sender + ">");
    assert param[5..] == "<" + sender + ">" && param[..5] == "FROM:";
    Bracketed(sender);
  }

  lemma RcptParses(r: string)
    ensures VerbOf(RcptLine(r)) == RcptTo
    ensures var param := ParamOf(RcptLine(r)); "TO:" <= param && param[3..] == "<" + r + ">"
  {
    var line := RcptLine(r);
    assert line[5..] == "TO:" + ("<" + r + ">");
  }

  lemma RcptStep(cfg: Config, m: Machine, r: string)
    requires m.phase == Recipients && IsAddress(r) && |m.recipients| + 1 < cfg.maxRecipients
    requires cfg.domain == "" || cfg.domain[|cfg.domain| - 1] != '>'
    ensures ProcessLine(cfg, m, RcptLine(r)) == Say(m, RecipientOk).(recipients := m.recipients + [r])
  {
    hide VerbOf, ParamOf, StripAddress, RcptLine, IsAddress;
    RcptParses(r);
    Bracketed(r);
    var d := DomainOf("<" + r + ">");
    assert d[|d| - 1] == '>';
  }

  lemma RepeatCons(sent: seq<Reply>, r: Reply, n: nat)
    ensures sent + [r] + Repeat(r, n) == sent + Repeat(r, n + 1)
  {
    assert [r] + Repeat(r, n) == Repeat(r, n + 1);
  }

  lemma {:induction false} RcptRun(cfg: Config, m: Machine, rs: seq<string>)
    requires m.phase == Recipients && |m.recipients| + |rs| < cfg.maxRecipients
    requires forall i :: 0 <= i < |rs| ==> IsAddress(rs[i])
    requires cfg.domain == "" || cfg.domain[|cfg.domain| - 1] != '>'
    ensures Run(cfg, m, RcptLines(rs))
            == m.(recipients := m.recipients + rs, sent := m.sent + Repeat(RecipientOk, |rs|))
    decreases |rs|
  {
    hide IsAddress, ProcessLine, RcptLine, RcptLines, Repeat, Run;
    RcptLinesAre(rs);
    if rs == [] {
      RunNone(cfg, m);
      RepeatNone(m.sent, RecipientOk);
      assert m.recipients + rs == m.recipients;
    } else {
      var m1 := ProcessLine(cfg, m, RcptLine(rs[0]));
      RcptStep(cfg, m, rs[0]);
      RcptRun(cfg, m1, rs[1..]);
      RunCons(cfg, m, RcptLine(rs[0]), RcptLines(rs[1..]));
      RepeatCons(m.sent, RecipientOk, |rs| - 1);
      assert m.recipients + [rs[0]] + rs[1..] == m.recipients + rs;
    }
  }

  lemma RcptLinesAre(rs: seq<string>)
    ensures RcptLines(rs) == if rs == [] then [] else [RcptLine(rs[0])] + RcptLines(rs[1..])
  {
  }

  lemma RunNone(cfg: Config, m: Machine)
    ensures Run(cfg, m, []) == m
  {
  }

  lemma RunCons(cfg: Config, m: Machine, line: string, lines: seq<string>)
    ensures Run(cfg, m, [line] + lines) == Run(cfg, ProcessLine(cfg, m, line), lines)
  {
    assert ([line] + lines)[1..] == lines;
  }

  lemma RepeatNone(sent: seq<Reply>, r: Reply)
    ensures sent + Repeat(r, 0) == sent
  {
  }

  /** The commands of one transaction. */
  function Commands(sender: string, rs: seq<string>): seq<string> {
    [MailLine(sender)] + RcptLines(rs) + ["DATA"]
  }

  /** The session after them. */
  function Opened(m: Machine, sender: string, rs: seq<string>): Machine {
    m.(phase := Data, sender := Some(sender), recipients := rs, accepting := true,
       sent := m.sent + [SenderOk] + Repeat(RecipientOk, |rs|) + [EnterMail])
  }

  /** The envelope is taken exactly as the client wrote it, with one reply for each command. */
  lemma EnvelopeTaken(cfg: Config, m: Machine, sender: string, rs: seq<string>)
    requires m.phase == BeforeMail && IsAddress(sender) && 0 < |rs| < cfg.maxRecipients
    requires forall i :: 0 <= i < |rs| ==> IsAddress(rs[i])
    requires cfg.domain == "" || cfg.domain[|cfg.domain| - 1] != '>'
    ensures Run(cfg, m, Commands(sender, rs)) == Opened(m, sender, rs)
  {
    hide IsAddress, Run, ProcessLine, MailLine;
    var m1 := Run(cfg, m, [MailLine(sender)]);
    RunSnoc(cfg, m, [], MailLine(sender));
    RunNone(cfg, m);
    assert [] + [MailLine(sender)] == [MailLine(sender)];
    MailStep(cfg, m, sender);
    RunConcat(cfg, m, [MailLine(sender)], RcptLines(rs));
    RcptRun(cfg, m1, rs);
    assert [] + rs == rs;
    RunSnoc(cfg, m, [MailLine(sender)] + RcptLines(rs), "DATA");
    DataStep(cfg, Run(cfg, m, [MailLine(sender)] + RcptLines(rs)));
  }

  lemma DataStep(cfg: Config, m: Machine)
    requires m.phase == Recipients && m.recipients != []
    ensures ProcessLine(cfg, m, "DATA") == Say(m, EnterMail).(phase := Data, accepting := true)
  {
    assert VerbOf("DATA") == DataVerb;
  }

  lemma {:induction false} LinesThen(lines: seq<string>, rest: string)
    requires forall i :: 0 <= i < |lines| ==> OneLine(lines[i])
    ensures Lines(Terminated(lines) + rest) == lines + Lines(rest) && Tail(Terminated(lines) + rest) == Tail(rest)
  {
    hide Lines, Tail, OneLine;
    if lines == [] {
      assert "" + rest == rest && lines + Lines(rest) == Lines(rest);
    } else {
      var more := Terminated(lines[1..]) + rest;
      LinesThen(lines[1..], rest);
      LineFirst(lines[0], more);
      assert Terminated(lines) + rest == lines[0] + CRLF + more;
      assert [lines[0]] + (lines[1..] + Lines(rest)) == lines + Lines(rest);
    }
  }

  lemma CommandsAreLines(sender: string, rs: seq<string>)
    requires IsAddress(sender) && forall i :: 0 <= i < |rs| ==> IsAddress(rs[i])
    ensures forall i :: 0 <= i < |Commands(sender, rs)| ==> OneLine(Commands(sender, rs)[i])
  {
    var ls := Commands(sender, rs);
    assert OneLine("DATA") && OneLine("MAIL FROM:<") && OneLine("RCPT TO:<") && OneLine(">");
    forall i | 0 <= i < |ls| ensures OneLine(ls[i]) {
      if 0 < i <= |rs| {
        assert ls[i] == RcptLine(rs[i - 1]);
      }
    }
  }

  /**
   * A client that sends an envelope, the stuffed lines of a message and the lone dot, in any chunks:
   * the message is concluded with that envelope and that content, and the session is ready for more.
   */
  lemma MailGoesThrough(cfg: Config, m: Machine, sender: string, rs: seq<string>, lines: seq<string>,
                        chunks: seq<string>)
    requires Inv(cfg, m) && m.phase == BeforeMail && !m.protocols.lmtp
    requires IsAddress(sender) && 0 < |rs| < cfg.maxRecipients
    requires forall i :: 0 <= i < |rs| ==> IsAddress(rs[i])
    requires cfg.domain == "" || cfg.domain[|cfg.domain| - 1] != '>'
    requires forall i :: 0 <= i < |lines| ==> OneLine(lines[i])
    requires Joined(chunks) == Terminated(Commands(sender, rs)) + Wire(lines)
    ensures var e := EatAll(cfg, Endpoint("", m), chunks);
            e.pending == "" && Concluded(cfg, Opened(m, sender, rs), Terminated(lines), e.m)
  {
    hide IsAddress, Lines, Tail, Run, Commands, Concluded;
    ChunksDoNotMatter(cfg, Endpoint("", m), chunks);
    assert "" + Joined(chunks) == Joined(chunks);
    CommandsAreLines(sender, rs);
    LinesThen(Commands(sender, rs), Wire(lines));
    WireLines(lines);
    EnvelopeTaken(cfg, m, sender, rs);
    RunConcat(cfg, m, Commands(sender, rs), StuffAll(lines) + ["."]);
    InvRun(cfg, m, Commands(sender, rs));
    StuffedContent(lines);
    DataPhaseExact(cfg, Opened(m, sender, rs), StuffAll(lines));
  }

  // ----- recipients nobody has -------------------------------------------------------------------

  ghost predicate AllBlank(s: string) {
    forall i :: 0 <= i < |s| ==> s[i] == ' ' || s[i] == '\t'
  }

  lemma {:induction false} BlanksSkipped(lead: string, s: string)
    requires AllBlank(lead) && s != "" && s[0] != ' ' && s[0] != '\t'
    ensures SkipBlanks(lead + s) == s
    decreases |lead|
  {
    if lead == "" {
      assert lead + s == s;
    } else {
      assert (lead + s)[1..] == lead[1..] + s;
      BlanksSkipped(lead[1..], s);
    }
  }

  /** What stands behind the address belongs to the domain that is looked at. */
  lemma DomainWithTail(head: string, a: string, tail: string)
    requires AtPos(a) >= 0 && '@' !in head && '@' !in tail
    ensures var raw := head + a + tail; AtPos(raw) >= 0 && DomainOf(raw) == DomainOf(a) + tail
  {
    var raw, p := head + a + tail, |head| + AtPos(a);
    assert forall i :: 0 <= i < |head| ==> raw[i] == head[i] != '@';
    assert forall i :: 0 <= i < |a| ==> raw[|head| + i] == a[i];
    assert forall i :: 0 <= i < |tail| ==> raw[|head| + |a| + i] == tail[i] != '@';
    OneAtPos(raw, p);
    assert raw[p + 1..] == a[AtPos(a) + 1..] + tail;
  }

  lemma AddressFound(lead: string, open: string, a: string)
    requires IsAddress(a) && AllBlank(lead) && (open == "" || open == "<")
    ensures StripAddress(lead + (open + a)) == a
  {
    assert (open + a)[0] == (if open == "" then a[0] else '<') && (open + a)[|open|..] == a;
    BlanksSkipped(lead, open + a);
  }

  /** A local address nobody has is refused exactly when nothing stands behind it, be it the closing bracket. */
  lemma UnknownLocalExactly(cfg: Config, m: Machine, lead: string, open: string, a: string, tail: string)
    requires |m.recipients| + 1 < cfg.maxRecipients
    requires IsAddress(a) && DomainOf(a) == cfg.domain && a !in cfg.users
    requires AllBlank(lead) && (open == "" || open == "<") && '@' !in tail
    ensures var r := RecipientReply(cfg, m, lead + open + a + tail);
            && (r == NoMailbox <==> tail == "")
            && (r == RecipientOk <==> tail != "")
  {
    var raw := lead + open + a + tail;
    DomainWithTail(lead + open, a, tail);
    if tail == "" {
      assert raw == lead + (open + a);
      AddressFound(lead, open, a);
    } else {
      assert |DomainOf(raw)| > |cfg.domain|;
    }
  }
}
