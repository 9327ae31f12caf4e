/** Which lines are commands to the session of server/smtpsrvs.cpp, and how it words them. */
module SmtpVerbs {
  import opened CStrings
  import opened Smtp

  /** The character is this capital or its small letter. */
  predicate Letter(c: char, capital: char) {
    c == capital || c as int == capital as int + 32
  }

  /** A line that starts with these four letters, in capitals or not, and goes on with a blank or not at all. */
  predicate Spells(line: string, verb: string)
    requires |verb| == 4
  {
    && |line| >= 4 && (|line| == 4 || line[4] == ' ')
    && Letter(line[0], verb[0]) && Letter(line[1], verb[1]) && Letter(line[2], verb[2]) && Letter(line[3], verb[3])
  }

  lemma UpperIs(c: char, capital: char)
    requires 'A' <= capital <= 'Z'
    ensures ToUpper(c) == capital <==> Letter(c, capital)
  {
  }

  lemma SpelledIs(line: string, verb: string)
    requires |verb| == 4 && forall i :: 0 <= i < 4 ==> 'A' <= verb[i] <= 'Z'
    ensures Spells(line, verb) <==>
            |line| >= 4 && (|line| == 4 || line[4] == ' ')
            && [ToUpper(line[0]), ToUpper(line[1]), ToUpper(line[2]), ToUpper(line[3])] == verb
  {
    hide ToUpper, Letter;
    if |line| >= 4 {
      UpperIs(line[0], verb[0]);
      UpperIs(line[1], verb[1]);
      UpperIs(line[2], verb[2]);
      UpperIs(line[3], verb[3]);
    }
  }

  /** The commands of the envelope and the session, in capitals or small letters. */
  lemma CommandsSpelled(line: string)
    ensures VerbOf(line) == Helo <==> Spells(line, "HELO")
    ensures VerbOf(line) == Ehlo <==> Spells(line, "EHLO")
    ensures VerbOf(line) == Lhlo <==> Spells(line, "LHLO")
    ensures VerbOf(line) == MailFrom <==> Spells(line, "MAIL")
    ensures VerbOf(line) == RcptTo <==> Spells(line, "RCPT")
    ensures VerbOf(line) == DataVerb <==> Spells(line, "DATA")
    ensures VerbOf(line) == Rset <==> Spells(line, "RSET")
    ensures VerbOf(line) == Noop <==> Spells(line, "NOOP")
    ensures VerbOf(line) == Quit <==> Spells(line, "QUIT")
    ensures VerbOf(line) == Auth <==> Spells(line, "AUTH")
  {
    hide ToUpper, Spells;
    SpelledIs(line, "HELO");
    SpelledIs(line, "EHLO");
    SpelledIs(line, "LHLO");
    SpelledIs(line, "MAIL");
    SpelledIs(line, "RCPT");
    SpelledIs(line, "DATA");
    SpelledIs(line, "RSET");
    SpelledIs(line, "NOOP");
    SpelledIs(line, "QUIT");
    SpelledIs(line, "AUTH");
  }

  lemma Listed(cmd: string)
    ensures cmd in UNIMPLEMENTED <==>
            || cmd == "SEND" || cmd == "SAML" || cmd == "SOML" || cmd == "VRFY"
            || cmd == "EXPN" || cmd == "HELP" || cmd == "TURN" || cmd == "ETRN"
  {
    var u := UNIMPLEMENTED;
    assert u[0] == "SEND" && u[1] == "SAML" && u[2] == "SOML" && u[3] == "VRFY";
    assert u[4] == "EXPN" && u[5] == "HELP" && u[6] == "TURN" && u[7] == "ETRN";
  }

  lemma ListedOnly(cmd: string)
    requires |cmd| == 4
    ensures VerbNamed(cmd) == Unimplemented <==> cmd in UNIMPLEMENTED
  {
    Listed(cmd);
    if cmd == "HELO" || cmd == "EHLO" || cmd == "LHLO" || cmd == "MAIL" || cmd == "RCPT" {
      assert cmd[3] == 'O' || cmd[3] == 'L' || cmd[0] == 'R';
    } else if cmd == "DATA" || cmd == "RSET" || cmd == "NOOP" || cmd == "QUIT" || cmd == "AUTH" {
      assert cmd[3] == 'A' || cmd[0] == 'R' || cmd[0] == 'N' || cmd[0] == 'Q' || cmd[0] == 'A';
    }
  }

  /** The commands the server knows but does not carry out. */
  lemma UnimplementedSpelled(line: string)
    ensures VerbOf(line) == Unimplemented <==>
            || Spells(line, "SEND") || Spells(line, "SAML") || Spells(line, "SOML") || Spells(line, "VRFY")
            || Spells(line, "EXPN") || Spells(line, "HELP") || Spells(line, "TURN") || Spells(line, "ETRN")
  {
    hide ToUpper, Spells, VerbNamed;
    if |line| >= 4 {
      var cmd := [ToUpper(line[0]), ToUpper(line[1]), ToUpper(line[2]), ToUpper(line[3])];
      Listed(cmd);
      ListedOnly(cmd);
    }
    SpelledIs(line, "SEND");
    SpelledIs(line, "SAML");
    SpelledIs(line, "SOML");
    SpelledIs(line, "VRFY");
    SpelledIs(line, "EXPN");
    SpelledIs(line, "HELP");
    SpelledIs(line, "TURN");
    SpelledIs(line, "ETRN");
  }
}
