/** Mail headers as server/header.cpp reads and writes them. */
module Header {
  import opened CStrings
  import opened Buffer

  const MAX_NAME := 128
  const MAX_VALUE := 2048
  const MAX_HEADERS := 64

  datatype Field = Field(name: string, value: string)

  /**
   * The parser's state: the fields, the field a continuation line belongs to (-1 after the table
   * overflowed), what continuation lines before the first field left in slot 0, and the body.
   */
  datatype Parsed = Parsed(fields: seq<Field>, index: int, scratch: string, body: string)

  const EMPTY := Parsed([], 0, "", "")

  /** The first field of that name, or the number of fields. */
  function FindField(fs: seq<Field>, name: string): (i: nat)
    ensures i <= |fs| && (i < |fs| ==> fs[i].name == name)
    ensures forall j :: 0 <= j < i ==> fs[j].name != name
  {
    if fs == [] || fs[0].name == name then 0 else 1 + FindField(fs[1..], name)
  }

  /** SetField drops one line break at the end of the value. */
  function Chomp(value: string): string {
    if value != "" && (value[|value| - 1] == '\r' || value[|value| - 1] == '\n') then value[..|value| - 1] else value
  }

  /** SetField: None when the name or the value does not fit its array; index -1 when the table is full. */
  function SetField(fs: seq<Field>, name: string, value: string): Option<(seq<Field>, int)> {
    var i := FindField(fs, name);
    if i < |fs| then
      if |value| >= MAX_VALUE then None else Some((fs[i := Field(name, Chomp(value))], i))
    else if |fs| == MAX_HEADERS then Some((fs, -1))
    else if |name| >= MAX_NAME || |value| >= MAX_VALUE then None
    else Some((fs + [Field(name, Chomp(value))], |fs|))
  }

  /** A continuation line is appended to the current value. */
  function Continue(p: Parsed, line: string): Option<Parsed> {
    if p.index < 0 then None
    else if p.index < |p.fields| then
      var f := p.fields[p.index];
      if |f.value| + |line| >= MAX_VALUE then None
      else Some(p.(fields := p.fields[p.index := f.(value := f.value + line)]))
    else if |p.scratch| + |line| >= MAX_VALUE then None
    else Some(p.(scratch := p.scratch + line))
  }

  /** A field line; None also when nothing follows the colon. */
  function ReadField(p: Parsed, line: string): Option<Parsed> {
    var k := IndexOf(line, ':');
    if k == |line| then Some(p)
    else if k + 1 == |line| then None
    else
      match SetField(p.fields, line[..k], line[k + 2..])
      case None => None
      case Some((fs, i)) => Some(p.(fields := fs, index := i))
  }

  /** The body starts after an empty line, or after a line that starts with a colon. */
  predicate EndsHeader(line: string) {
    line == "" || line[0] == ':'
  }

  function JoinLines(lines: seq<string>): string {
    if lines == [] then "" else lines[0] + "\n" + JoinLines(lines[1..])
  }

  /** One header line: a tab continues a field, any other line may start one. */
  function AfterLine(p: Parsed, line: string): Option<Parsed> {
    if line != "" && line[0] == '\t' then Continue(p, line) else ReadField(p, line)
  }

  /**
   * ReadMail on the lines of the mail; None where a name or a value is copied without its NUL, where a
   * continuation line is appended past its array, and where nothing follows a colon.
   */
  function ReadLines(p: Parsed, lines: seq<string>): Option<Parsed>
    decreases |lines|
  {
    if lines == [] then Some(p)
    else
      var line := lines[0];
      match AfterLine(p, line)
      case None => None
      case Some(q) =>
        if EndsHeader(line) then Some(q.(body := q.body + JoinLines(lines[1..]))) else ReadLines(q, lines[1..])
  }

  function ReadMail(mail: string): Option<Parsed> {
    ReadLines(EMPTY, Lines(mail))
  }

  function FieldText(f: Field): string {
    f.name + ": " + f.value + "\r\n"
  }

  function FieldsText(fs: seq<Field>): string {
    if fs == [] then "" else FieldText(fs[0]) + FieldsText(fs[1..])
  }

  /** GenerateHeader */
  function HeaderText(fs: seq<Field>): string {
    FieldsText(fs) + "\n"
  }

  // ----- round trip ------------------------------------------------------------------------------

  /** A field whose line reads back as the field. */
  predicate FieldOk(f: Field) {
    && f.name != "" && OneLine(f.name) && ':' !in f.name && f.name[0] != '\t' && |f.name| < MAX_NAME
    && OneLine(f.value) && Chomp(f.value) == f.value && |f.value| < MAX_VALUE
  }

  /** Bodies that ReadMail keeps: every line ended by LF, no CR before it, no NUL. */
  ghost predicate PlainBody(b: string) {
    && '\0' !in b && (b != "" ==> b[|b| - 1] == '\n')
    && forall i :: 0 < i < |b| && b[i] == '\n' ==> b[i - 1] != '\r'
  }

  /** Reading a body and writing it back keeps it exactly when it is plain. */
  lemma {:induction false} BodySurvives(b: string)
    ensures |JoinLines(Lines(b))| <= |b|
    ensures JoinLines(Lines(b)) == b <==> PlainBody(b)
    decreases |b|
  {
    hide Clean, PlainBody;
    var k := IndexOf(b, '\n');
    if k < |b| {
      var raw, rest := b[..k], b[k + 1..];
      BodySurvives(rest);
      BodyCut(b, k);
      CleanKeeps(raw);
      var l := Clean(raw);
      assert Lines(b)[0] == l && Lines(b)[1..] == Lines(rest);
      assert b == raw + "\n" + rest;
      JoinEqual(l, raw, JoinLines(Lines(rest)), rest);
    } else {
      NoLineBody(b);
    }
  }

  /** A body with ordinary line ends loses its carriage returns. */
  lemma CrLost()
    ensures JoinLines(Lines("a\r\n")) == "a\n" && !PlainBody("a\r\n")
  {
    hide Lines, JoinLines;
    LineFirst("a", "");
    assert "a\r\n" == "a" + "\r\n" + "";
    OneLineBody("a");
    BodySurvives("a\r\n");
  }

  lemma OneLineBody(line: string)
    ensures JoinLines([line] + Lines("")) == line + "\n"
  {
    assert Lines("") == [] && [line] + [] == [line] && [line][1..] == [];
    assert line + "\n" + "" == line + "\n";
  }

  lemma NoLineBody(b: string)
    requires '\n' !in b
    ensures PlainBody(b) <==> b == ""
  {
  }

  lemma JoinEqual(l: string, raw: string, j: string, rest: string)
    requires |l| <= |raw| && |j| <= |rest|
    ensures l + "\n" + j == raw + "\n" + rest <==> l == raw && j == rest
  {
    var x, y := l + "\n" + j, raw + "\n" + rest;
    if x == y {
      assert x[..|l|] == l && y[..|raw|] == raw;
      assert x[|l| + 1..] == j && y[|raw| + 1..] == rest;
    }
  }

  lemma CleanKeeps(raw: string)
    requires '\n' !in raw
    ensures |Clean(raw)| <= |raw|
    ensures Clean(raw) == raw <==> '\0' !in raw && (raw == "" || raw[|raw| - 1] != '\r')
    ensures Clean(raw) != raw ==> |Clean(raw)| < |raw|
  {
    var kept := if raw != [] && raw[|raw| - 1] == '\r' then raw[..|raw| - 1] else raw;
    var n := IndexOf(kept, '\0');
    assert kept[..|kept|] == kept;
  }

  lemma BodyCut(b: string, k: nat)
    requires k < |b| && b[k] == '\n' && forall i :: 0 <= i < k ==> b[i] != '\n'
    ensures PlainBody(b) <==> '\0' !in b[..k] && (k > 0 ==> b[k - 1] != '\r') && PlainBody(b[k + 1..])
  {
    var rest := b[k + 1..];
    assert b == b[..k] + ['\n'] + rest;
    if PlainBody(b) {
      forall i | 0 < i < |rest| && rest[i] == '\n' ensures rest[i - 1] != '\r' {
        assert b[k + 1 + i] == rest[i];
      }
    }
    if PlainBody(rest) {
      forall i | k + 1 < i < |b| && b[i] == '\n' ensures b[i - 1] != '\r' {
        assert rest[i - k - 1] == b[i];
      }
    }
  }

  /** One line break at the end of a value is dropped, and nothing else. */
  lemma ChompExactly(value: string, c: char)
    ensures Chomp(value + [c]) == if c as int == 13 || c as int == 10 then value else value + [c]
    ensures Chomp("") == ""
  {
  }
}
