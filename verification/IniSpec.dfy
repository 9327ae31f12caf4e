/** What iniparser/iniparser.c reads and writes, as functions on text and on the dictionary's slots. */
module IniSpec {
  import opened CStrings
  import opened Dictionary

  const ASCIILINESZ := 1024

  predicate IsSpace(c: char) {
    c == ' ' || c == '\t' || c == '\n' || c == '\r' || c == 11 as char || c == 12 as char
  }

  function ToLower(c: char): char {
    if 'A' <= c <= 'Z' then c + 32 as char else c
  }

  /** strlwc: at most n characters, in lower case. */
  function Lower(s: string, n: nat): (r: string)
    ensures |r| == if |s| <= n then |s| else n
  {
    if s == "" || n == 0 then "" else [ToLower(s[0])] + Lower(s[1..], n - 1)
  }

  function LStrip(s: string): (r: string)
    ensures |r| <= |s| && r == s[|s| - |r|..]
    ensures r != "" ==> !IsSpace(r[0])
    ensures forall i :: 0 <= i < |s| - |r| ==> IsSpace(s[i])
  {
    if s != "" && IsSpace(s[0]) then LStrip(s[1..]) else s
  }

  function RStrip(s: string): (r: string)
    ensures |r| <= |s| && r == s[..|r|]
    ensures r != "" ==> !IsSpace(r[|r| - 1])
    ensures forall i :: |r| <= i < |s| ==> IsSpace(s[i])
  {
    if s != "" && IsSpace(s[|s| - 1]) then RStrip(s[..|s| - 1]) else s
  }

  /** strstrip */
  function Strip(s: string): string {
    RStrip(LStrip(s))
  }

  // ----- sscanf ----------------------------------------------------------------------------------

  /** The longest prefix without the two given characters: what %[^ab] reads. */
  function Upto(s: string, a: char, b: char): (r: string)
    ensures |r| <= |s| && r == s[..|r|]
    ensures forall i :: 0 <= i < |r| ==> r[i] != a && r[i] != b
    ensures |r| < |s| ==> s[|r|] == a || s[|r|] == b
  {
    if s == "" || s[0] == a || s[0] == b then "" else [s[0]] + Upto(s[1..], a, b)
  }

  /** "%[^=] = ": the key and what follows the equals sign and blanks, when there are both. */
  function KeyThenRest(line: string): Option<(string, string)> {
    var key := Upto(line, '=', '=');
    if key == "" || |key| == |line| then None else Some((key, LStrip(line[|key| + 1..])))
  }

  /** "%[^=] = q%[^q]q" with a quote q; the closing quote is not needed for both to be assigned. */
  function Quoted(line: string, q: char): Option<(string, string)> {
    match KeyThenRest(line)
    case None => None
    case Some((key, rest)) =>
      if rest == "" || rest[0] != q || Upto(rest[1..], q, q) == "" then None
      else Some((key, Upto(rest[1..], q, q)))
  }

  /** "%[^=] = %[^;#]" */
  function Plain(line: string): Option<(string, string)> {
    match KeyThenRest(line)
    case None => None
    case Some((key, rest)) => if Upto(rest, ';', '#') == "" then None else Some((key, Upto(rest, ';', '#')))
  }

  /** "%[^=] = %[;#]" or "%[^=] %[=]": a key with nothing after it. */
  function Bare(line: string): Option<string> {
    match KeyThenRest(line)
    case None => None
    case Some((key, _)) => Some(key)
  }

  /** The patterns in the order they are tried: the key field as scanned, and the value. */
  function ParsedValue(line: string): Option<(string, string)> {
    if Quoted(line, '"').Some? then Quoted(line, '"')
    else if Quoted(line, '\'').Some? then Quoted(line, '\'')
    else if Plain(line).Some? then
      var value := Strip(Plain(line).value.1);
      Some((Plain(line).value.0, if value == "\"\"" || value == "''" then "" else value))
    else if Bare(line).Some? then Some((Bare(line).value, ""))
    else None
  }

  // ----- reading ---------------------------------------------------------------------------------

  datatype Line =
    | EmptyLine
    | CommentLine
    | SectionLine(section: string)
    | ValueLine(key: string, val: string)
    | ErrorLine

  /** iniparser_line; the old section survives a "[]". */
  function ParseLine(input: string, section: string): Line {
    var line := Strip(input);
    var len := |line|;
    if len < 1 then EmptyLine
    else if line[0] == '#' || line[0] == ';' then CommentLine
    else if line[0] == '[' && line[len - 1] == ']' then
      var name := Upto(line[1..], ']', ']');
      SectionLine(Lower(Strip(if name == "" then section else name), len - 1))
    else
      match ParsedValue(line)
      case Some((key, val)) => ValueLine(Lower(Strip(key), len - 1), val)
      case None => ErrorLine
  }

  /** What the loader carries from line to line. */
  datatype Loader = Loader(section: string, dict: map<string, Value>, errs: bool)

  function LoadLine(l: Loader, line: string): Loader {
    match ParseLine(line, l.section)
    case EmptyLine => l
    case CommentLine => l
    case SectionLine(s) => l.(section := s, dict := l.dict[s := None])
    case ValueLine(k, v) => l.(dict := l.dict[l.section + ":" + k := Some(v)])
    case ErrorLine => l.(errs := true)
  }

  /** fgets: at most room characters, up to and including the first LF. */
  function Fgets(text: string, room: nat): (chunk: string)
    ensures chunk <= text && |chunk| <= room
    ensures text != "" && room > 0 ==> chunk != ""
  {
    var k := IndexOf(text, '\n');
    var n := if k < |text| then k + 1 else |text|;
    if n <= room then text[..n] else text[..room]
  }

  /**
   * The loop of iniparser_load on the text still unread. The pending part holds a continued line
   * without its backslash; None is the "line too long" exit.
   */
  function LoadFrom(text: string, pending: string, l: Loader): Option<Loader>
    requires |pending| <= ASCIILINESZ - 2
    decreases |text|
  {
    if text == "" then Some(l)
    else
      var room := ASCIILINESZ - 1 - |pending|;
      var chunk := Fgets(text, room);
      var eof := |chunk| == |text| && chunk[|chunk| - 1] != '\n' && |chunk| < room;
      var rest, line := text[|chunk|..], CStr(pending + chunk);
      if |line| <= 1 then LoadFrom(rest, pending, l)
      else if line[|line| - 1] != '\n' && !eof then None
      else
        var stripped := RStrip(line);
        if stripped != "" && stripped[|stripped| - 1] == '\\' then
          LoadFrom(rest, stripped[..|stripped| - 1], l)
        else LoadFrom(rest, "", LoadLine(l, stripped))
  }

  /** iniparser_load: None when a line is too long or any line is in error. */
  function Load(text: string): Option<map<string, Value>> {
    match LoadFrom(text, "", Loader("", map[], false))
    case None => None
    case Some(l) => if l.errs then None else Some(l.dict)
  }

  // ----- writing ---------------------------------------------------------------------------------

  /** printf's %-30s */
  function Pad30(s: string): (r: string)
    ensures |r| == if |s| < 30 then 30 else |s|
    ensures r[..|s|] == s && forall i :: |s| <= i < |r| ==> r[i] == ' '
  {
    if |s| >= 30 then s else s + seq(30 - |s|, _ => ' ')
  }

  function OrElse(v: Value, default: string): string {
    if v.Some? then v.value else default
  }

  function EntryLine(key: string, val: string): string {
    Pad30(key) + " = " + val
  }

  /** The entries of one section, in slot order. */
  function EntriesText(keys: seq<Key>, vals: seq<Value>, s: string): string
    requires |keys| == |vals|
  {
    if keys == [] then ""
    else
      var n := |keys| - 1;
      EntriesText(keys[..n], vals[..n], s) +
      (if keys[n].Some? && s + ":" <= keys[n].value
       then EntryLine(keys[n].value[|s| + 1..], OrElse(vals[n], "")) + "\n" else "")
  }

  /** iniparser_dumpsection_ini */
  function SectionText(keys: seq<Key>, vals: seq<Value>, s: string): string
    requires |keys| == |vals|
  {
    if Some(Lower(s, ASCIILINESZ)) !in keys then ""
    else "\n[" + s + "]\n" + EntriesText(keys, vals, s) + "\n"
  }

  /** The names of the sections, in slot order: the keys without a colon. */
  function Sections(keys: seq<Key>): seq<string> {
    if keys == [] then []
    else
      var k := keys[|keys| - 1];
      Sections(keys[..|keys| - 1]) + (if k.Some? && ':' !in k.value then [k.value] else [])
  }

  function SectionsText(keys: seq<Key>, vals: seq<Value>, ss: seq<string>): string
    requires |keys| == |vals|
  {
    if ss == [] then ""
    else SectionsText(keys, vals, ss[..|ss| - 1]) + SectionText(keys, vals, ss[|ss| - 1])
  }

  /** Without any section every entry is written as it is. */
  function FlatText(keys: seq<Key>, vals: seq<Value>): string
    requires |keys| == |vals|
  {
    if keys == [] then ""
    else
      var n := |keys| - 1;
      FlatText(keys[..n], vals[..n]) +
      (if keys[n].Some? then keys[n].value + " = " + OrElse(vals[n], "(null)") + "\n" else "")
  }

  /** iniparser_dump_ini */
  function DumpText(keys: seq<Key>, vals: seq<Value>): string
    requires |keys| == |vals|
  {
    var ss := Sections(keys);
    if ss == [] then FlatText(keys, vals) else SectionsText(keys, vals, ss) + "\n"
  }
}
