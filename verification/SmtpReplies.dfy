/** The replies of the session of module Smtp as bytes on the wire. */
module SmtpReplies {
  import opened CStrings
  import opened Buffer
  import opened Smtp
  import opened SmtpProofs

  /** A line that ends a reply: three digits and a blank (section 4.2.1 of RFC 5321). */
  predicate Final(line: string) {
    |line| >= 4 && Digits3(line) && line[3] == ' '
  }

  /** A line of a reply that goes on. */
  predicate GoesOn(line: string) {
    |line| >= 4 && Digits3(line) && line[3] == '-'
  }

  predicate Digits3(line: string)
    requires |line| >= 4
  {
    forall i :: 0 <= i < 3 ==> '0' <= line[i] <= '9'
  }

  /** How many replies the lines make up. */
  function Finals(lines: seq<string>): nat {
    if lines == [] then 0 else (if Final(lines[0]) then 1 else 0) + Finals(lines[1..])
  }

  lemma {:induction false} FinalsConcat(xs: seq<string>, ys: seq<string>)
    ensures Finals(xs + ys) == Finals(xs) + Finals(ys)
  {
    if xs == [] {
      assert xs + ys == ys;
    } else {
      assert (xs + ys)[1..] == xs[1..] + ys;
      FinalsConcat(xs[1..], ys);
    }
  }

  lemma Joined(a: string, b: string)
    requires OneLine(a) && OneLine(b)
    ensures OneLine(a + b)
  {
  }

  // ----- no reply text holds a line end ----------------------------------------------------------

  /** Printing characters only. */
  predicate Plain(text: string) {
    forall i :: 0 <= i < |text| ==> text[i] >= ' '
  }

  lemma PlainIsLine(text: string)
    ensures Plain(text) ==> OneLine(text)
  {
  }

  lemma PlainJoined(a: string, b: string)
    requires Plain(a) && Plain(b)
    ensures Plain(a + b)
  {
  }

  lemma MailTexts()
    ensures Plain("2.1.0 Sender Ok")
    ensures Plain("5.1.8 Sender address rejected")
    ensures Plain("5.5.2 Syntax error, FROM: expected")
    ensures Plain("5.5.0 say hello first")
    ensures Plain("5.5.0 duplicate MAIL command")
  {
  }

  lemma RcptTexts()
    ensures Plain("2.1.5 Recipient Ok")
    ensures Plain("4.2.0 Mailbox unavailable")
    ensures Plain("5.5.3 Too many recipients")
    ensures Plain("5.1.0 Recipient rejected")
    ensures Plain("5.5.2 Syntax error, TO: expected")
  {
  }

  lemma OrderTexts()
    ensures Plain("5.5.0 Say hello first")
    ensures Plain("5.5.0 Use MAIL command ")
    ensures Plain("to start a message")
    ensures Plain("5.5.0 Say MAIL first")
    ensures Plain("5.5.0 Need at least one recipient")
  {
  }

  lemma SessionTexts()
    ensures Plain("3.3.0 Enter mail, ")
    ensures Plain("end with <CRLF>.<CRLF>")
    ensures Plain("2.0.0 Reset state")
    ensures Plain("2.0.0 OK, no operation done")
    ensures Plain("2.0.0 Good bye")
  {
  }

  lemma AuthTexts()
    ensures Plain("AUTH command during ")
    ensures Plain("mail transaction forbidden")
    ensures Plain("duplicate AUTH command")
    ensures Plain("unimplemented AUTH mechanism")
    ensures Plain("authentication done")
  {
  }

  lemma LoginTexts()
    ensures Plain("VXNlcm5hbWU6")
    ensures Plain("UGFzc3dvcmQ6")
    ensures Plain("authentication rejected by user")
    ensures Plain("invalid BASE64 string. ")
    ensures Plain("Please try again")
    ensures Plain("invalid username/password")
  {
  }

  lemma EndTexts()
    ensures Plain("2.0.0 Ok")
    ensures Plain("4.0.0 Local error")
    ensures Plain("4.3.4 Quota exceeded")
    ensures Plain("5.7.1 Message rejected")
    ensures Plain("5.3.4 Message too big")
    ensures Plain("5.0.0 Failed")
  {
  }

  lemma UnknownTexts()
    ensures Plain("5.5.0 Don't know the protocol version ")
    ensures Plain(" Please use HELO/EHLO/LHLO")
    ensures Plain("5.5.1 Command or ")
    ensures Plain("feature not implemented")
    ensures Plain("5.5.1 Command unrecognized")
  {
  }

  /** The replies to MAIL. */
  lemma MailReplies(cfg: Config)
    ensures Plain(Words(cfg, SenderOk)) && Plain(Words(cfg, SenderRejected))
    ensures Plain(Words(cfg, FromExpected)) && Plain(Words(cfg, HelloFirst))
    ensures Plain(Words(cfg, DuplicateMail))
  {
    hide Plain;
    MailTexts();
  }

  /** The replies to RCPT. */
  lemma RcptReplies(cfg: Config)
    ensures Plain(Words(cfg, RecipientOk)) && Plain(Words(cfg, NoMailbox))
    ensures Plain(Words(cfg, TooManyRecipients)) && Plain(Words(cfg, BadRecipient))
    ensures Plain(Words(cfg, ToExpected)) && Plain(Words(cfg, HelloFirstRcpt))
    ensures Plain(Words(cfg, MailFirstRcpt))
  {
    hide Plain;
    RcptTexts();
    OrderTexts();
    PlainJoined("5.5.0 Use MAIL command ", "to start a message");
  }

  /** The replies to DATA, RSET, NOOP and QUIT. */
  lemma SessionReplies(cfg: Config)
    ensures Plain(Words(cfg, MailFirst)) && Plain(Words(cfg, NeedRecipient))
    ensures Plain(Words(cfg, EnterMail)) && Plain(Words(cfg, ResetDone))
    ensures Plain(Words(cfg, NoopDone)) && Plain(Words(cfg, GoodBye))
  {
    hide Plain;
    OrderTexts();
    SessionTexts();
    PlainJoined("3.3.0 Enter mail, ", "end with <CRLF>.<CRLF>");
  }

  /** The replies to AUTH. */
  lemma AuthReplies(cfg: Config)
    ensures Plain(Words(cfg, AuthDuringMail)) && Plain(Words(cfg, DuplicateAuth))
    ensures Plain(Words(cfg, AuthMechanism)) && Plain(Words(cfg, AuthDone))
  {
    hide Plain;
    AuthTexts();
    PlainJoined("AUTH command during ", "mail transaction forbidden");
  }

  /** The replies to the lines of a login. */
  lemma LoginReplies(cfg: Config)
    ensures Plain(Words(cfg, AskUsername)) && Plain(Words(cfg, AskPassword))
    ensures Plain(Words(cfg, AuthRejected)) && Plain(Words(cfg, BadBase64))
    ensures Plain(Words(cfg, BadLogin))
  {
    hide Plain;
    LoginTexts();
    PlainJoined("invalid BASE64 string. ", "Please try again");
  }

  /** The replies to the end of the data. */
  lemma EndReplies(cfg: Config)
    ensures Plain(Words(cfg, DataOk)) && Plain(Words(cfg, LocalError))
    ensures Plain(Words(cfg, QuotaExceeded)) && Plain(Words(cfg, MessageRejected))
    ensures Plain(Words(cfg, MessageTooBig)) && Plain(Words(cfg, DeliveryFailed))
  {
    hide Plain;
    EndTexts();
  }

  /** The replies to what the server does not know. */
  lemma UnknownReplies(cfg: Config)
    ensures Plain(Words(cfg, UnknownProtocol)) && Plain(Words(cfg, NotImplemented))
    ensures Plain(Words(cfg, NotRecognized))
  {
    hide Plain;
    UnknownTexts();
    PlainJoined("5.5.0 Don't know the protocol version ", " Please use HELO/EHLO/LHLO");
    PlainJoined("5.5.1 Command or ", "feature not implemented");
  }

  lemma OfferTexts()
    ensures Plain("LMTP")
    ensures Plain("SMTP")
    ensures Plain("ESMTP")
    ensures Plain("ESMTP/LMTP")
    ensures Plain("(no protocols available)")
    ensures Plain(" ")
    ensures Plain(" Service ready")
  {
  }

  lemma ServerTexts()
    ensures Plain("5.5.5 wrong protocol version, try ")
    ensures Plain("LHLO ")
    ensures Plain("HELO ")
    ensures Plain("EHLO ")
    ensures Plain("")
    ensures Plain("4.3.0 ")
    ensures Plain(" Internal server error, sorry")
    ensures Plain(" Pleased to meet you")
    ensures Plain("PIPELINING")
  {
  }

  lemma GreetingIsLine(cfg: Config, p: Protocols)
    requires OneLine(cfg.domain)
    ensures OneLine(cfg.domain + " " + Offer(p) + " Service ready")
  {
    hide OneLine, Plain;
    OfferTexts();
    PlainIsLine(" ");
    PlainIsLine(" Service ready");
    PlainIsLine(Offer(p));
    Joined(cfg.domain, " ");
    Joined(cfg.domain + " ", Offer(p));
    Joined(cfg.domain + " " + Offer(p), " Service ready");
  }

  lemma WrongProtocolIsPlain(p: Protocols)
    ensures Plain("5.5.5 wrong protocol version, try "
                  + (if p.lmtp then "LHLO " else "") + (if p.smtp then "HELO " else "")
                  + (if p.esmtp then "EHLO " else ""))
  {
    hide Plain;
    ServerTexts();
    var try := "5.5.5 wrong protocol version, try ";
    var l, h := if p.lmtp then "LHLO " else "", if p.smtp then "HELO " else "";
    PlainJoined(try, l);
    PlainJoined(try + l, h);
    PlainJoined(try + l + h, if p.esmtp then "EHLO " else "");
  }

  lemma DomainIsLine(cfg: Config)
    requires OneLine(cfg.domain)
    ensures OneLine("4.3.0 " + cfg.domain + " Internal server error, sorry")
    ensures OneLine(cfg.domain + " Pleased to meet you") && OneLine("PIPELINING")
  {
    hide OneLine, Plain;
    ServerTexts();
    PlainIsLine("4.3.0 ");
    PlainIsLine(" Internal server error, sorry");
    PlainIsLine(" Pleased to meet you");
    PlainIsLine("PIPELINING");
    Joined("4.3.0 ", cfg.domain);
    Joined("4.3.0 " + cfg.domain, " Internal server error, sorry");
    Joined(cfg.domain, " Pleased to meet you");
  }

  lemma GreetingWords(cfg: Config, p: Protocols)
    requires OneLine(cfg.domain)
    ensures OneLine(Words(cfg, ServiceReady(p))) && OneLine(Words(cfg, WrongProtocol(p)))
  {
    hide OneLine, Offer;
    GreetingIsLine(cfg, p);
    WrongProtocolIsPlain(p);
    PlainIsLine(Words(cfg, WrongProtocol(p)));
  }

  lemma DomainWords(cfg: Config, h: Hello)
    requires OneLine(cfg.domain)
    ensures OneLine(Words(cfg, Pleased(h))) && OneLine(Words(cfg, InternalError))
  {
    hide OneLine;
    DomainIsLine(cfg);
  }

  lemma WordsAreLine(cfg: Config, r: Reply)
    requires OneLine(cfg.domain)
    ensures OneLine(Words(cfg, r))
  {
    hide OneLine, Words, Plain;
    MailReplies(cfg);
    RcptReplies(cfg);
    SessionReplies(cfg);
    AuthReplies(cfg);
    LoginReplies(cfg);
    EndReplies(cfg);
    UnknownReplies(cfg);
    PlainIsLine(Words(cfg, r));
    match r
    case ServiceReady(p) => GreetingWords(cfg, p);
    case WrongProtocol(p) => GreetingWords(cfg, p);
    case InternalError => DomainWords(cfg, HeloSmtp);
    case Pleased(h) => DomainWords(cfg, h);
    case _ =>
  }

  // ----- replies as lines ------------------------------------------------------------------------

  function OpeningLines(cfg: Config, r: Reply): seq<string> {
    if Opening(cfg, r) == "" then [] else ["250-" + cfg.domain + " Pleased to meet you", "250-ENHANCEDSTATUSCODES"]
  }

  function LastLine(cfg: Config, r: Reply): string {
    Code(r) + " " + Words(cfg, r)
  }

  lemma CodeIsDigits(r: Reply)
    ensures |Code(r)| == 3 && forall i :: 0 <= i < 3 ==> '0' <= Code(r)[i] <= '9'
  {
  }

  lemma LastIsFinal(cfg: Config, r: Reply)
    requires OneLine(cfg.domain)
    ensures OneLine(LastLine(cfg, r)) && Final(LastLine(cfg, r))
  {
    hide Words, Code;
    CodeIsDigits(r);
    WordsAreLine(cfg, r);
    Joined(Code(r), " ");
    Joined(Code(r) + " ", Words(cfg, r));
  }

  lemma OpeningGoesOn(cfg: Config)
    requires OneLine(cfg.domain)
    ensures var first := "250-" + cfg.domain + " Pleased to meet you"; OneLine(first) && GoesOn(first)
    ensures OneLine("250-ENHANCEDSTATUSCODES") && GoesOn("250-ENHANCEDSTATUSCODES")
  {
    ServerTexts();
    PlainIsLine(" Pleased to meet you");
    Joined("250-", cfg.domain);
    Joined("250-" + cfg.domain, " Pleased to meet you");
  }

  /** A reply is read as its lines, all but the last of which go on. */
  lemma ReplyLines(cfg: Config, r: Reply)
    requires OneLine(cfg.domain)
    ensures Lines(Text(cfg, r)) == OpeningLines(cfg, r) + [LastLine(cfg, r)] && Tail(Text(cfg, r)) == ""
    ensures Finals(OpeningLines(cfg, r) + [LastLine(cfg, r)]) == 1
  {
    hide Words, Code, OneLine, Lines, Tail, Final, GoesOn;
    var last := LastLine(cfg, r);
    LastIsFinal(cfg, r);
    LineFirst(last, "");
    NoLines();
    assert last + CRLF + "" == last + CRLF && [last] + [] == [last];
    FinalsOfLast(OpeningLines(cfg, r), last, cfg);
    if Opening(cfg, r) != "" {
      OpeningGoesOn(cfg);
      var a, b := "250-" + cfg.domain + " Pleased to meet you", "250-ENHANCEDSTATUSCODES";
      LineFirst(b, last + CRLF);
      LineFirst(a, b + CRLF + (last + CRLF));
      assert Text(cfg, r) == a + CRLF + (b + CRLF + (last + CRLF));
      assert [a] + ([b] + [last]) == [a, b] + [last];
    } else {
      assert Text(cfg, r) == last + CRLF;
    }
  }

  lemma NoLines()
    ensures Lines("") == [] && Tail("") == ""
  {
  }

  lemma FinalsOfLast(opening: seq<string>, last: string, cfg: Config)
    requires OneLine(cfg.domain) && Final(last)
    requires opening == [] || opening == ["250-" + cfg.domain + " Pleased to meet you", "250-ENHANCEDSTATUSCODES"]
    ensures Finals(opening + [last]) == 1
  {
    hide Final, GoesOn;
    FinalsConcat(opening, [last]);
    assert [last][1..] == [] && Finals([last]) == 1;
    if opening != [] {
      OpeningGoesOn(cfg);
      NotBoth(opening[0]);
      NotBoth(opening[1]);
      assert opening[1..] == [opening[1]] && [opening[1]][1..] == [];
    }
  }

  lemma NotBoth(line: string)
    requires GoesOn(line)
    ensures !Final(line)
  {
  }

  /** The output buffer holds exactly as many complete replies as were given, and no piece of another. */
  lemma {:induction false} RenderedReplies(cfg: Config, sent: seq<Reply>)
    requires OneLine(cfg.domain)
    ensures Finals(Lines(Render(cfg, sent))) == |sent| && Tail(Render(cfg, sent)) == ""
  {
    hide Lines, Tail, Text, Finals, OneLine;
    if sent == [] {
      NoLines();
      NoFinals();
    } else {
      var before, r := sent[..|sent| - 1], sent[|sent| - 1];
      RenderedReplies(cfg, before);
      ReplyLines(cfg, r);
      LinesSplit(Render(cfg, before), Text(cfg, r));
      FinalsConcat(Lines(Render(cfg, before)), Lines(Text(cfg, r)));
      assert "" + Text(cfg, r) == Text(cfg, r);
    }
  }

  lemma NoFinals()
    ensures Finals([]) == 0
  {
  }

  /**
   * Over any run of a session, the bytes it sends are the greeting and exactly the replies its lines
   * are owed, each of them complete.
   */
  lemma RepliesOnWire(cfg: Config, m: Machine, lines: seq<string>)
    requires Initial(m) && OneLine(cfg.domain)
    ensures var out := Render(cfg, Run(cfg, m, lines).sent);
            Finals(Lines(out)) == 1 + OwedInAll(cfg, m, lines) && Tail(out) == ""
  {
    hide Lines, Tail, Finals, Render, Run, OwedInAll, OneLine;
    InitialInv(cfg, m);
    RepliesRun(cfg, m, lines);
    RenderedReplies(cfg, Run(cfg, m, lines).sent);
  }

  // ----- what the greeting offers ----------------------------------------------------------------

  /**
   * The greeting names LMTP last exactly when it is offered, and ESMTP first when that is offered; also, wrongly,
   * when SMTP and LMTP are offered without it.
   */
  lemma OfferTells(p: Protocols)
    ensures EndsIn(Offer(p), "LMTP") <==> p.lmtp
    ensures "ESMTP" <= Offer(p) <==> p.esmtp || (p.smtp && p.lmtp)
    ensures Offer(p) == "SMTP" <==> p.smtp && !p.esmtp && !p.lmtp
  {
    var offer := Offer(p);
    assert "ESMTP/LMTP"[6..] == "LMTP" && "ESMTP/LMTP"[..5] == "ESMTP";
    assert "ESMTP"[1..] == "SMTP" && "LMTP"[0] == 'L' && "(no protocols available)"[0] == '(';
    assert "(no protocols available)"[23] == ')';
  }

  predicate EndsIn(s: string, end: string) {
    |end| <= |s| && s[|s| - |end|..] == end
  }
}
