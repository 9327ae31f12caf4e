/**
 * What MessageDataEnd of server/smtpsrvs.cpp makes of an accepted message before it is queued: the
 * header is read, the fields the server owes are added, and header and body are written back.
 */
module Stamp {
  import opened CStrings
  import opened Buffer
  import opened Header
  import opened HeaderFields
  import opened HeaderLines
  import opened HeaderExact
  import opened Smtp
  import opened SmtpProofs
  import opened SmtpMail
  import opened SmtpTransaction
  import P = HeaderParser

  /** The values the server supplies; the clock, the random id and the peer's name go into them. */
  datatype Marks = Marks(date: string, id: string, received: string)

  predicate Fits(k: Marks) {
    |k.date| < MAX_VALUE && |k.id| < MAX_VALUE && |k.received| < MAX_VALUE
  }

  function AddMissing(fs: seq<Field>, name: string, value: string): seq<Field>
    requires |name| < MAX_NAME && |value| < MAX_VALUE
  {
    if FindField(fs, name) < |fs| then fs else SetField(fs, name, value).value.0
  }

  function StampFields(fs: seq<Field>, k: Marks): seq<Field>
    requires Fits(k)
  {
    var gs := AddMissing(AddMissing(fs, "Date", k.date), "Message-ID", k.id);
    if |gs| == MAX_HEADERS then gs else gs + [Field("Received", k.received)]
  }

  /** The text that is queued; None where reading the header gives no result. */
  function Stamped(content: string, k: Marks): Option<string>
    requires Fits(k)
  {
    match ReadMail(content)
    case None => None
    case Some(p) => Some(HeaderText(StampFields(p.fields, k)) + p.body)
  }

  /** Adds a field the sender left out. */
  method AddIfMissing(parser: P.HeaderParser, name: string, value: string)
    requires parser.Valid() && |name| < MAX_NAME && |value| < MAX_VALUE
    modifies parser`headerCount, parser.names, parser.values
    ensures parser.Valid() && parser.Fields() == AddMissing(old(parser.Fields()), name, value)
  {
    var present := parser.GetField(name);
    if present.None? {
      var _, ok := parser.SetField(name, value);
    }
  }

  /** The part of MessageDataEnd between the policy and the queue. */
  method StampMessage(parser: P.HeaderParser, msgData: string, k: Marks) returns (text: Option<string>)
    requires parser.Valid() && Fits(k)
    modifies parser, parser.names, parser.values
    ensures parser.Valid() && text == Stamped(msgData, k)
  {
    hide ReadMail, HeaderText, FindField;
    var ok := parser.ReadMail(msgData);
    if !ok {
      return None;
    }
    ghost var p := ReadMail(msgData).value;
    AddIfMissing(parser, "Date", k.date);
    AddIfMissing(parser, "Message-ID", k.id);
    var index := parser.AddField("Received", k.received);
    assert parser.Fields() == StampFields(p.fields, k);
    parser.GenerateHeader();
    assert parser.mailBody == p.body;
    return Some(parser.mailHeader + parser.mailBody);
  }

  // ----- what becomes of the sender's header -----------------------------------------------------

  /** The lines of a mail: the header's, an empty line, the body. */
  function MailLines(ps: seq<Part>, body: seq<string>): seq<string> {
    PartLines(ps) + ([""] + body)
  }

  function IfMissing(fs: seq<Field>, name: string, value: string): seq<Field> {
    if FindField(fs, name) < |fs| then [] else [Field(name, Chomp(value))]
  }

  /** The fields the server owes a header. */
  function Owed(fs: seq<Field>, k: Marks): seq<Field> {
    IfMissing(fs, "Date", k.date) + IfMissing(fs, "Message-ID", k.id) + [Field("Received", k.received)]
  }

  lemma TerminatedLines(lines: seq<string>)
    requires forall i :: 0 <= i < |lines| ==> OneLine(lines[i])
    ensures Lines(Terminated(lines)) == lines
  {
    LinesThen(lines, "");
    assert Terminated(lines) + "" == Terminated(lines) && lines + Lines("") == lines;
  }

  ghost predicate AllLines(lines: seq<string>) {
    forall i :: 0 <= i < |lines| ==> OneLine(lines[i])
  }

  lemma ConcatLines(xs: seq<string>, ys: seq<string>)
    requires AllLines(xs) && AllLines(ys)
    ensures AllLines(xs + ys)
  {
  }

  lemma {:induction false} PartLinesAreLines(ps: seq<Part>)
    requires Shapes(ps)
    ensures AllLines(PartLines(ps))
  {
    hide OneLine, NameShape, FoldShape, AllLines;
    if ps == [] {
      NoLines();
    } else {
      var p := ps[0];
      assert Shape(p);
      PartLinesAreLines(ps[1..]);
      FirstPart(p);
      ConcatLines([FieldLine(p)], p.folds);
      ConcatLines([FieldLine(p)] + p.folds, PartLines(ps[1..]));
    }
  }

  lemma NoLines()
    ensures AllLines([])
  {
  }

  lemma FirstPart(p: Part)
    requires Shape(p)
    ensures AllLines([FieldLine(p)]) && AllLines(p.folds)
  {
    assert OneLine(":");
  }

  lemma MailLinesAreLines(ps: seq<Part>, body: seq<string>)
    requires Shapes(ps) && AllLines(body)
    ensures AllLines(MailLines(ps, body))
  {
    PartLinesAreLines(ps);
    ConcatLines([""], body);
    ConcatLines(PartLines(ps), [""] + body);
  }

  /** The mail's text is read line by line. */
  lemma MailIsLines(ps: seq<Part>, body: seq<string>)
    requires Shapes(ps) && AllLines(body)
    ensures ReadMail(Terminated(MailLines(ps, body))) == ReadLines(EMPTY, PartLines(ps) + ([""] + body))
  {
    hide Lines, ReadLines, Terminated, Shapes;
    MailLinesAreLines(ps, body);
    TerminatedLines(MailLines(ps, body));
  }

  lemma FoundAppended(fs: seq<Field>, g: Field, name: string)
    requires g.name != name
    ensures FindField(fs + [g], name) < |fs| + 1 <==> FindField(fs, name) < |fs|
  {
    var i, j := FindField(fs + [g], name), FindField(fs, name);
    if j < |fs| {
      assert (fs + [g])[j].name == name;
    }
  }

  /** As much of it as the table holds. */
  function InTable(fs: seq<Field>): seq<Field> {
    if |fs| <= MAX_HEADERS then fs else fs[..MAX_HEADERS]
  }

  /** What the server owes stands behind the other fields, as far as the table has room. */
  lemma StampFieldsAre(fs: seq<Field>, k: Marks)
    requires Fits(k) && |fs| <= MAX_HEADERS
    ensures StampFields(fs, k) == InTable(fs + Owed(fs, k))
  {
    hide FindField;
    var d, i := IfMissing(fs, "Date", k.date), IfMissing(fs, "Message-ID", k.id);
    var gs := AddMissing(fs, "Date", k.date);
    MissingAdded(fs, "Date", k.date);
    FoundWithDate(fs, k);
    MissingAdded(gs, "Message-ID", k.id);
    ThriceAdded(fs, d, i, [Field("Received", k.received)]);
  }

  lemma MissingAdded(fs: seq<Field>, name: string, value: string)
    requires |name| < MAX_NAME && |value| < MAX_VALUE && |fs| <= MAX_HEADERS
    ensures AddMissing(fs, name, value) == InTable(fs + IfMissing(fs, name, value))
  {
    hide FindField;
    assert fs + [] == fs;
  }

  /** Adding the date does not change whether there is an id, unless nothing more fits. */
  lemma FoundWithDate(fs: seq<Field>, k: Marks)
    requires Fits(k) && |fs| <= MAX_HEADERS
    ensures var gs := AddMissing(fs, "Date", k.date);
            IfMissing(gs, "Message-ID", k.id) == IfMissing(fs, "Message-ID", k.id)
  {
    FoundAppended(fs, Field("Date", Chomp(k.date)), "Message-ID");
    hide FindField;
  }

  lemma ThriceAdded(fs: seq<Field>, a: seq<Field>, b: seq<Field>, c: seq<Field>)
    requires |fs| <= MAX_HEADERS
    ensures InTable(InTable(InTable(fs + a) + b) + c) == InTable(fs + (a + b + c))
  {
    assert fs + a + b + c == fs + (a + b + c);
  }

  /**
   * A stamped header with room has a date and an id: the sender's, or else the server's, without the line
   * break that ctime puts behind the date. Its last field is the trace field.
   */
  lemma StampNames(fs: seq<Field>, k: Marks, day: string)
    requires Fits(k) && |fs| + 3 <= MAX_HEADERS && k.date == day + "\n"
    ensures var gs := StampFields(fs, k);
            && fs <= gs && |gs| > |fs| && gs[|gs| - 1] == Field("Received", k.received)
            && Named(gs, "Date") && Named(gs, "Message-ID")
    ensures !Named(fs, "Date") ==> StampFields(fs, k)[|fs|] == Field("Date", day)
    ensures Named(fs, "Date") && Named(fs, "Message-ID") ==>
              StampFields(fs, k) == fs + [Field("Received", k.received)]
  {
    ChompExactly(day, '\n');
    StampFieldsAre(fs, k);
    hide StampFields;
    NamedIsFound(fs, "Date");
    NamedIsFound(fs, "Message-ID");
    var gs := StampFields(fs, k);
    assert gs == fs + Owed(fs, k);
    assert forall i :: 0 <= i < |fs| ==> gs[i] == fs[i];
    hide FindField;
    assert Named(fs, "Date") ==> gs == fs + (IfMissing(fs, "Message-ID", k.id) + [Field("Received", k.received)]);
    assert !Named(fs, "Date") ==> gs[|fs|] == Field("Date", day);
    assert !Named(fs, "Message-ID") ==> gs[|gs| - 2].name == "Message-ID";
  }

  lemma NamedIsFound(fs: seq<Field>, name: string)
    ensures Named(fs, name) <==> FindField(fs, name) < |fs|
  {
  }

  ghost predicate Named(fs: seq<Field>, name: string) {
    exists i :: 0 <= i < |fs| && fs[i].name == name
  }

  /** The queued text: the merged fields, what the server owes, an empty line, every line of the body. */
  lemma StampedMail(ps: seq<Part>, body: seq<string>, k: Marks)
    requires Fits(k) && Shapes(ps) && AllFit(ps) && |Merged(Read(ps))| <= MAX_HEADERS && AllLines(body)
    ensures Stamped(Terminated(MailLines(ps, body)), k)
            == Some(HeaderText(StampFields(Merged(Read(ps)), k)) + JoinLines(body))
  {
    hide Lines, ReadLines, HeaderText, StampFields, Shapes, AllFit, MergeFrom, PartLines, Terminated;
    MailIsLines(ps, body);
    MailRead(ps, body);
  }

  lemma OwedNames(fs: seq<Field>, k: Marks)
    ensures forall i :: 0 <= i < |Owed(fs, k)| ==> !BlankName(Owed(fs, k)[i].name)
  {
    hide FindField;
  }

  /** When fields start like those sent and others, the first of the others is new. */
  lemma NewName(gs: seq<Field>, fs: seq<Field>, more: seq<Field>)
    requires gs <= fs + more && DistinctNames(gs)
    requires forall i :: 0 <= i < |more| ==> !BlankName(more[i].name)
    ensures |gs| > |fs| ==> !KnownName(fs, gs[|fs|].name)
  {
    hide FindField, BlankName;
    var n := |fs|;
    if |gs| > n {
      assert gs[n] == more[0];
      assert forall j :: 0 <= j < n ==> gs[j] == fs[j] && gs[j].name != gs[n].name;
    }
  }

  lemma SameOwed(gs: seq<Field>, ps: seq<Part>, k: Marks)
    requires gs <= Sent(ps) && forall i :: 0 <= i < |ps| ==> Found(gs, ps[i].name)
    ensures Owed(gs, k) == Owed(Sent(ps), k)
  {
    hide FindField;
    FoundBoth(gs, ps, "Date");
    FoundBoth(gs, ps, "Message-ID");
  }

  lemma FoundBoth(gs: seq<Field>, ps: seq<Part>, name: string)
    requires gs <= Sent(ps) && forall i :: 0 <= i < |ps| ==> Found(gs, ps[i].name)
    ensures FindField(gs, name) < |gs| <==> FindField(Sent(ps), name) < |ps|
  {
    hide FindField;
    var i, j := FindField(gs, name), FindField(Sent(ps), name);
    if i < |gs| {
      assert Sent(ps)[i] == gs[i];
    }
    if j < |ps| {
      assert Found(gs, ps[j].name);
    }
  }

  /** Fields that come back from a header and are those sent once the server's are added. */
  lemma OnlySent(ps: seq<Part>, gs: seq<Field>, k: Marks)
    requires Fits(k) && Headed(ps) && |gs| <= MAX_HEADERS
    requires DistinctNames(gs) && KnownNames(Sent(ps), gs)
    requires |gs| < MAX_HEADERS ==> forall i :: 0 <= i < |ps| ==> Found(gs, ps[i].name)
    requires StampFields(gs, k) == Sent(ps) + Owed(Sent(ps), k)
    ensures gs == Sent(ps)
  {
    hide FindField, StampFields, KnownName, DistinctNames, Found;
    StampFieldsAre(gs, k);
    OwedNames(Sent(ps), k);
    assert |gs| > |ps| ==> KnownName(Sent(ps), gs[|ps|].name);
    NewName(gs, Sent(ps), Owed(Sent(ps), k));
    SameOwed(gs, ps, k);
    assert |gs| == |ps|;
  }

  /** The header is intact and the table has room for what the server owes it. */
  ghost predicate Survives(ps: seq<Part>, k: Marks) {
    Intact(ps) && |ps| + |Owed(Sent(ps), k)| <= 64
  }

  /** The mail's fields, stamped, are those sent and those the server owes. */
  ghost predicate StampedAsSent(mail: string, ps: seq<Part>, k: Marks)
    requires Fits(k)
  {
    var r := ReadMail(mail);
    r.Some? && StampFields(r.value.fields, k) == Sent(ps) + Owed(Sent(ps), k)
  }

  /**
   * All of the sender's fields are queued unchanged, in order and before all the server owes, exactly when
   * the header is intact and the table has room for them.
   */
  lemma StampKeepsExactly(ps: seq<Part>, body: seq<string>, k: Marks)
    requires Fits(k) && Headed(ps) && AllLines(body)
    ensures StampedAsSent(Terminated(MailLines(ps, body)), ps, k) <==> Survives(ps, k)
  {
    hide FindField, StampFields, Intact, Steps, ReadLines, PartLines, Proper, Owed, Found, KnownNames, Terminated;
    HeadedShapes(ps);
    MailIsLines(ps, body);
    KeptExactly(ps, body);
    NoneEnds(ps);
    StepsRead(EMPTY, PartLines(ps), body);
    StepsKeepTable(EMPTY, PartLines(ps));
    NamesKnown(ps);
    AllFound(EMPTY, ps);
    var r := Steps(EMPTY, PartLines(ps));
    if r.Some? {
      StampFieldsAre(r.value.fields, k);
      if StampFields(r.value.fields, k) == Sent(ps) + Owed(Sent(ps), k) {
        OnlySent(ps, r.value.fields, k);
      }
    }
  }

  lemma HeadedShapes(ps: seq<Part>)
    requires Headed(ps)
    ensures Shapes(ps)
  {
    hide Shape, BlankName;
    assert forall i :: 0 <= i < |ps| ==> Proper(ps[i]);
  }

  /**
   * From the client's bytes to the queue, through any chunking: a mail that fits, from a sender who
   * may send it, is handed over with its envelope and as it was sent. What is queued is its merged
   * header with the server's fields, and all of its body; the sender's fields are all among them and
   * unchanged exactly when the header survives.
   */
  lemma MailReachesQueue(cfg: Config, m: Machine, sender: string, rs: seq<string>,
                         ps: seq<Part>, body: seq<string>, k: Marks, chunks: seq<string>)
    returns (e: Machine, s: Submission)
    requires Inv(cfg, m) && m.phase == BeforeMail && !m.protocols.lmtp
    requires IsAddress(sender) && 0 < |rs| < cfg.maxRecipients
    requires forall i :: 0 <= i < |rs| ==> IsAddress(rs[i])
    requires cfg.domain == "" || cfg.domain[|cfg.domain| - 1] != '>'
    requires Fits(k) && Headed(ps) && AllLines(body)
    requires Joined(chunks) == Terminated(Commands(sender, rs)) + Wire(MailLines(ps, body))
    requires |Terminated(MailLines(ps, body))| <= cfg.maxMessageSize && Entitled(cfg, Opened(m, sender, rs))
    ensures e == EatAll(cfg, Endpoint("", m), chunks).m && e.handed == m.handed + [s]
    ensures s.sender == sender && s.recipients == rs && s.data == Terminated(MailLines(ps, body))
    ensures AllFit(ps) && |Merged(Read(ps))| <= MAX_HEADERS ==>
              Stamped(s.data, k) == Some(HeaderText(StampFields(Merged(Read(ps)), k)) + JoinLines(body))
    ensures StampedAsSent(s.data, ps, k) <==> Survives(ps, k)
  {
    hide Inv, Entitled, Shapes, Headed, AllFit, MailLines, Commands, Terminated, Wire, EatAll, Stamped, HeaderText,
         MergeFrom, StampFields, StampedAsSent, Survives, Read;
    HeadedShapes(ps);
    MailLinesAreLines(ps, body);
    MailGoesThrough(cfg, m, sender, rs, MailLines(ps, body), chunks);
    e := EatAll(cfg, Endpoint("", m), chunks).m;
    s := e.handed[|m.handed|];
    if AllFit(ps) && |Merged(Read(ps))| <= MAX_HEADERS {
      StampedMail(ps, body, k);
    }
    StampKeepsExactly(ps, body, k);
  }
}
