/** What any text at all is loaded as by iniparser/iniparser.c: keys, continued lines, comments, bad lines. */
module IniFacts {
  import opened CStrings
  import opened Dictionary
  import opened IniSpec
  import opened IniRoundTrip
  import opened IniExact

  // ----- every key is in lower case --------------------------------------------------------------

  predicate NoCapitals(s: string) {
    forall i :: 0 <= i < |s| ==> !(65 <= s[i] as int <= 90)
  }

  ghost predicate LowerKeys(d: map<string, Value>) {
    forall k :: k in d ==> NoCapitals(k)
  }

  lemma LowerHasNone(s: string, n: nat)
    ensures NoCapitals(Lower(s, n))
  {
    forall i | 0 <= i < |Lower(s, n)| ensures !(65 <= Lower(s, n)[i] as int <= 90) {
      LowerCodes(s, n, i);
    }
  }

  lemma LoadLineLower(l: Loader, line: string)
    requires LowerKeys(l.dict) && NoCapitals(l.section)
    ensures LowerKeys(LoadLine(l, line).dict) && NoCapitals(LoadLine(l, line).section)
  {
    hide Lower, NoCapitals, ParsedValue, Strip, Upto;
    var r := ParseLine(line, l.section);
    match r {
      case SectionLine(s) =>
        var text := Strip(line);
        var name := Upto(text[1..], ']', ']');
        LowerHasNone(Strip(if name == "" then l.section else name), |text| - 1);
      case ValueLine(k, v) =>
        var text := Strip(line);
        LowerHasNone(Strip(ParsedValue(text).value.0), |text| - 1);
        JoinedLower(l.section, k);
      case _ =>
    }
  }

  lemma JoinedLower(section: string, k: string)
    requires NoCapitals(section) && NoCapitals(k)
    ensures NoCapitals(section + ":" + k)
  {
  }

  lemma {:induction false} LoadedLower(text: string, pending: string, l: Loader)
    requires |pending| <= ASCIILINESZ - 2 && LowerKeys(l.dict) && NoCapitals(l.section)
    ensures var r := LoadFrom(text, pending, l); r.Some? ==> LowerKeys(r.value.dict)
    decreases |text|
  {
    hide Fgets, CStr, RStrip, LoadLine, LowerKeys, NoCapitals;
    if text != "" {
      var room := ASCIILINESZ - 1 - |pending|;
      var chunk := Fgets(text, room);
      var rest, line := text[|chunk|..], CStr(pending + chunk);
      var s := RStrip(line);
      if |line| <= 1 {
        LoadedLower(rest, pending, l);
      } else if s != "" && s[|s| - 1] == '\\' {
        LoadedLower(rest, s[..|s| - 1], l);
      } else {
        LoadLineLower(l, s);
        LoadedLower(rest, "", LoadLine(l, s));
      }
    }
  }

  /** Whatever the text, the keys it loads have no capitals. */
  lemma KeysAreLower(text: string)
    ensures Load(text).Some? ==> LowerKeys(Load(text).value)
  {
    hide LoadFrom;
    LoadedLower(text, "", Loader("", map[], false));
  }

  // ----- continued lines -------------------------------------------------------------------------

  /** A backslash at the end of a line joins the next one to it. */
  lemma ContinuedJoins(u: string, v: string, rest: string, l: Loader)
    requires OneLine(u) && OneLine(v) && |u| + 1 <= 1022 && |u| + |v| <= 1022
    ensures LoadFrom(u + "\\" + "\n" + (v + "\n" + rest), "", l) == LoadFrom(u + v + "\n" + rest, "", l)
  {
    hide LoadFrom, RStrip, LoadLine;
    var first := u + "\\";
    Backslashed(u);
    ChunkStep("", first, v + "\n" + rest, l);
    assert "" + first + "\n" == first + "\n" && first[..|first| - 1] == u;
    if u + v == "" {
      assert u + v + "\n" + rest == v + "\n" + rest;
    } else {
      ChunkStep(u, v, rest, l);
      JoinedLine(u, v);
      ChunkStep("", u + v, rest, l);
      assert "" + (u + v) + "\n" == u + v + "\n";
    }
  }

  lemma Backslashed(u: string)
    requires OneLine(u)
    ensures OneLine(u + "\\") && RStrip(u + "\\" + "\n") == u + "\\"
  {
    var all := u + "\\" + "\n";
    assert all[..|all| - 1] == u + "\\" && all[|all| - 1] == '\n' && all[|all| - 2] == '\\';
  }

  lemma JoinedLine(u: string, v: string)
    requires OneLine(u) && OneLine(v)
    ensures OneLine(u + v)
  {
  }

  // ----- comments and bad lines ------------------------------------------------------------------

  /** A line that starts with '#' or ';' is passed over, unless it is continued. */
  lemma CommentsPassed(c: char, text: string, rest: string, l: Loader)
    requires c as int == 35 || c as int == 59
    requires OneLine(text) && |text| <= 1021 && !Continued(RStrip([c] + text + "\n"))
    ensures LoadFrom([c] + text + "\n" + rest, "", l) == LoadFrom(rest, "", l)
  {
    hide LoadFrom, RStrip, Continued, ParsedValue;
    var line := [c] + text;
    assert OneLine([c]) && OneLine(line);
    ChunkStep("", line, rest, l);
    assert "" + line + "\n" == line + "\n";
    StartKept(line);
    CommentLoads(RStrip(line + "\n"), l);
  }

  lemma StartKept(line: string)
    requires line != "" && !IsSpace(line[0])
    ensures RStrip(line + "\n") != "" && RStrip(line + "\n")[0] == line[0]
  {
    var all := line + "\n";
    var r := RStrip(all);
    assert all[0] == line[0];
  }

  lemma CommentLoads(s: string, l: Loader)
    requires s != "" && (s[0] as int == 35 || s[0] as int == 59)
    ensures LoadLine(l, s) == l
  {
    var line := Strip(s);
    assert LStrip(s) == s;
    assert line != "" && line[0] == s[0];
  }

  lemma {:induction false} ErrorStays(text: string, pending: string, l: Loader)
    requires |pending| <= ASCIILINESZ - 2 && l.errs
    ensures var r := LoadFrom(text, pending, l); r.Some? ==> r.value.errs
    decreases |text|
  {
    hide Fgets, CStr, RStrip, ParseLine;
    if text != "" {
      var room := ASCIILINESZ - 1 - |pending|;
      var chunk := Fgets(text, room);
      var rest, line := text[|chunk|..], CStr(pending + chunk);
      var s := RStrip(line);
      if |line| <= 1 {
        ErrorStays(rest, pending, l);
      } else if s != "" && s[|s| - 1] == '\\' {
        ErrorStays(rest, s[..|s| - 1], l);
      } else {
        ErrorStays(rest, "", LoadLine(l, s));
      }
    }
  }

  /** A first line without an equals sign that is no comment and no section refuses the whole file. */
  lemma NoEqualsRefused(line: string, rest: string)
    requires OneLine(line) && line != "" && |line| <= 1022 && '=' !in line
    requires !IsSpace(line[0]) && !IsSpace(line[|line| - 1]) && line[|line| - 1] != '\\'
    requires line[0] != '#' && line[0] != ';' && line[0] != '['
    ensures Load(line + "\n" + rest) == None
  {
    hide LoadFrom, RStrip, LoadLine;
    var l := Loader("", map[], false);
    ChunkStep("", line, rest, l);
    assert "" + line + "\n" == line + "\n";
    NoBlankAtEnd(line);
    BadLine(line, l);
    ErrorStays(rest, "", LoadLine(l, line));
  }

  lemma NoBlankAtEnd(line: string)
    requires line != "" && !IsSpace(line[|line| - 1])
    ensures RStrip(line + "\n") == line && RStrip(line) == line
  {
    var all := line + "\n";
    assert all[..|all| - 1] == line;
  }

  lemma BadLine(line: string, l: Loader)
    requires line != "" && '=' !in line && !IsSpace(line[0]) && !IsSpace(line[|line| - 1])
    requires line[0] != '#' && line[0] != ';' && line[0] != '['
    ensures LoadLine(l, line).errs
  {
    NoBlankAtEnd(line);
    assert Strip(line) == line;
    assert |Upto(line, '=', '=')| == |line|;
  }

  lemma BracketsStrip()
    ensures Strip("[]") == "[]" && Upto("[]"[1..], ']', ']') == ""
  {
    assert "[]"[1..] == "]" && RStrip("[]") == "[]";
  }

  lemma NoBlanksStrip(s: string)
    requires s != "" && !IsSpace(s[0]) && !IsSpace(s[|s| - 1])
    ensures Strip(s) == s
  {
    hide IsSpace;
  }

  /** An empty pair of brackets keeps the section, but only its first character. */
  lemma EmptyBrackets(l: Loader)
    requires l.section != "" && !IsSpace(l.section[0]) && !IsSpace(l.section[|l.section| - 1])
    requires NoCapitals(l.section)
    ensures LoadLine(l, "[]").section == [l.section[0]]
  {
    hide ParsedValue, Strip, Upto, Lower, IsSpace;
    BracketsStrip();
    NoBlanksStrip(l.section);
    LowerCodes(l.section, 1, 0);
    assert ParseLine("[]", l.section) == SectionLine(Lower(l.section, 1));
  }

  // ----- two dumps, spelled out ------------------------------------------------------------------

  /** A dictionary without sections: each entry on its line, a missing value as "(null)". */
  lemma KnownFlatDump()
    ensures DumpText([Some("a:b")], [None]) == "a:b = (null)\n"
  {
    assert "a:b"[1] == ':';
    var keys: seq<Key>, vals: seq<Value> := [Some("a:b")], [None];
    assert keys[..0] == [] && Sections(keys[..0]) == [];
    assert Sections(keys) == [];
    assert FlatText(keys[..0], vals[..0]) == "";
  }

  /** A section: its head after an empty line, its entries, an empty line, and one more at the end. */
  lemma KnownDump(vals: seq<Value>)
    requires vals == [None, Some("c")]
    ensures DumpText([Some("a"), Some("a:b")], vals)
            == "\n[a]\n" + ("b" + Blanks(29) + " = c" + "\n") + "\n" + "\n"
  {
    var keys: seq<Key> := [Some("a"), Some("a:b")];
    assert "a:b"[1] == ':' && keys[..1] == [Some("a")] && keys[..1][..0] == [];
    assert Sections(keys[..1]) == ["a"];
    assert Sections(keys) == ["a"] && ["a"][..0] == [];
    OneSection(keys, vals);
  }

  function Blanks(n: nat): string {
    seq(n, _ => ' ')
  }

  lemma OneSection(keys: seq<Key>, vals: seq<Value>)
    requires keys == [Some("a"), Some("a:b")] && vals == [None, Some("c")]
    ensures SectionsText(keys, vals, ["a"]) == "\n[a]\n" + ("b" + Blanks(29) + " = c" + "\n") + "\n"
  {
    assert keys[0] == Some("a") && Lower("a", ASCIILINESZ) == "a";
    assert ["a"][..0] == [] && SectionsText(keys, vals, []) == "";
    OneEntry(keys, vals);
    assert SectionText(keys, vals, "a") == "\n[" + "a" + "]\n" + EntriesText(keys, vals, "a") + "\n";
  }

  lemma OneEntry(keys: seq<Key>, vals: seq<Value>)
    requires keys == [Some("a"), Some("a:b")] && vals == [None, Some("c")]
    ensures EntriesText(keys, vals, "a") == "b" + Blanks(29) + " = c" + "\n"
  {
    assert "a" + ":" <= "a:b" && "a:b"[2..] == "b" && !("a" + ":" <= "a");
    assert keys[..1] == [Some("a")] && vals[..1] == [None] && keys[..1][..0] == [] && vals[..1][..0] == [];
    assert EntriesText(keys[..1], vals[..1], "a") == "";
    assert Pad30("b") == "b" + Blanks(29);
    assert EntryLine("b", "c") == "b" + Blanks(29) + " = " + "c";
  }
}
