/** Exactly which entries come back from a written line, and from a file of such lines. */
module IniExact {
  import opened CStrings
  import opened Dictionary
  import opened IniSpec
  import opened IniRoundTrip

  // ----- one round of loading --------------------------------------------------------------------

  ghost predicate Continued(s: string) {
    s != "" && s[|s| - 1] == '\\'
  }

  /** The loader has a continued line, reads the next one and goes on. */
  lemma ChunkStep(pending: string, line: string, rest: string, l: Loader)
    requires OneLine(pending) && OneLine(line) && pending + line != ""
    requires |pending| + |line| <= ASCIILINESZ - 2
    ensures var s := RStrip(pending + line + "\n");
            && |s| <= ASCIILINESZ - 1
            && LoadFrom(line + "\n" + rest, pending, l) ==
               if Continued(s) then LoadFrom(rest, s[..|s| - 1], l) else LoadFrom(rest, "", LoadLine(l, s))
  {
    hide LoadLine, RStrip, Fgets, CStr;
    var text, chunk := line + "\n" + rest, line + "\n";
    ChunkTaken(pending, line, rest);
    assert chunk[|chunk| - 1] == '\n' && pending + chunk == pending + line + "\n";
    assert text[|chunk|..] == rest;
  }

  lemma ChunkTaken(pending: string, line: string, rest: string)
    requires OneLine(pending) && OneLine(line) && |pending| + |line| <= ASCIILINESZ - 2
    ensures Fgets(line + "\n" + rest, ASCIILINESZ - 1 - |pending|) == line + "\n"
    ensures CStr(pending + (line + "\n")) == pending + line + "\n"
  {
    var text := line + "\n" + rest;
    IndexOfUnique(text, '\n', |line|);
    assert text[..|line| + 1] == line + "\n";
    var all := pending + (line + "\n");
    IndexOfUnique(all, '\0', |all|);
    assert all[..|all|] == all && all == pending + line + "\n";
  }

  /** A line that does not fit ends the loading. */
  lemma TooLong(pending: string, line: string, rest: string, l: Loader)
    requires OneLine(pending) && OneLine(line)
    requires |pending| <= ASCIILINESZ - 2 < |pending| + |line|
    ensures LoadFrom(line + "\n" + rest, pending, l) == None
  {
    hide LoadLine, RStrip, Fgets, CStr;
    LongTaken(pending, line, rest);
  }

  lemma LongTaken(pending: string, line: string, rest: string)
    requires OneLine(pending) && OneLine(line)
    requires |pending| <= ASCIILINESZ - 2 < |pending| + |line|
    ensures var text, room := line + "\n" + rest, ASCIILINESZ - 1 - |pending|;
            && Fgets(text, room) == line[..room] && |Fgets(text, room)| == room
            && CStr(pending + Fgets(text, room)) == pending + line[..room]
            && line[room - 1] != '\n'
  {
    var text, room := line + "\n" + rest, ASCIILINESZ - 1 - |pending|;
    IndexOfUnique(text, '\n', |line|);
    assert text[..room] == line[..room];
    var all := pending + line[..room];
    IndexOfUnique(all, '\0', |all|);
    assert all[..|all|] == all;
  }

  // ----- values are one line ---------------------------------------------------------------------

  lemma SliceOneLine(s: string, i: nat, j: nat)
    requires OneLine(s) && i <= j <= |s|
    ensures OneLine(s[i..j])
  {
  }

  lemma ScanOneLine(s: string)
    requires OneLine(s)
    ensures OneLine(LStrip(s)) && OneLine(RStrip(s)) && OneLine(Strip(s))
  {
    hide LStrip, RStrip, IsSpace;
    var t := LStrip(s);
    SliceOneLine(s, |s| - |t|, |s|);
    SliceOneLine(s, 0, |RStrip(s)|);
    SliceOneLine(t, 0, |RStrip(t)|);
  }

  lemma UptoOneLine(s: string, a: char, b: char)
    requires OneLine(s)
    ensures OneLine(Upto(s, a, b))
  {
    hide Upto;
    SliceOneLine(s, 0, |Upto(s, a, b)|);
  }

  lemma RestOneLine(line: string)
    requires OneLine(line)
    ensures KeyThenRest(line).Some? ==> OneLine(KeyThenRest(line).value.1)
  {
    hide LStrip, Upto, OneLine;
    var n := |Upto(line, '=', '=')|;
    if n < |line| {
      SliceOneLine(line, n + 1, |line|);
      assert line[n + 1..|line|] == line[n + 1..];
      ScanOneLine(line[n + 1..]);
    }
  }

  lemma ValueOneLine(line: string)
    requires OneLine(line)
    ensures ParsedValue(line).Some? ==> OneLine(ParsedValue(line).value.1)
  {
    hide KeyThenRest, Upto, Strip, OneLine;
    RestOneLine(line);
    if KeyThenRest(line).Some? {
      var w := KeyThenRest(line).value.1;
      UptoOneLine(w, ';', '#');
      ScanOneLine(Upto(w, ';', '#'));
      EmptyOneLine();
      if w != "" {
        SliceOneLine(w, 1, |w|);
        assert w[1..|w|] == w[1..];
        UptoOneLine(w[1..], '"', '"');
        UptoOneLine(w[1..], '\'', '\'');
      }
    }
  }

  lemma EmptyOneLine()
    ensures OneLine("")
  {
  }

  /** Every value of e is one line, or was there before. */
  ghost predicate Tame(d: map<string, Value>, e: map<string, Value>) {
    forall x :: x in e ==> (x in d && d[x] == e[x]) || e[x].None? || OneLine(e[x].value)
  }

  lemma LoadLineTame(l: Loader, line: string)
    requires OneLine(line)
    ensures Tame(l.dict, LoadLine(l, line).dict)
  {
    hide ParsedValue, Strip, Lower, OneLine, Upto;
    ScanOneLine(line);
    ValueOneLine(Strip(line));
  }

  /** What is left of a chunk without its blanks at the end has no LF. */
  lemma StrippedOneLine(pending: string, chunk: string)
    requires OneLine(pending) && '\n' !in chunk[..if chunk == "" then 0 else |chunk| - 1]
    ensures OneLine(RStrip(CStr(pending + chunk)))
  {
    hide RStrip, CStr;
    var all := pending + chunk;
    CStrPrefix(all);
    var line := CStr(all);
    var s := RStrip(line);
    forall i | 0 <= i < |s| ensures s[i] != '\n' && s[i] != '\0' {
      assert s[i] == line[i] == all[i];
      assert i < |pending| ==> all[i] == pending[i];
      assert i >= |pending| ==> all[i] == chunk[i - |pending|];
      assert i < |all| - 1 && i >= |pending| ==> chunk[i - |pending|] == chunk[..|chunk| - 1][i - |pending|];
      if i == |all| - 1 {
        SpaceFacts();
        assert i == |s| - 1;
      }
    }
  }

  lemma CStrPrefix(mem: string)
    ensures CStr(mem) <= mem
  {
  }

  lemma FgetsCut(text: string, room: nat)
    ensures var chunk := Fgets(text, room); '\n' !in chunk[..if chunk == "" then 0 else |chunk| - 1]
  {
  }

  /** Whatever the text, the values it loads are one line each. */
  lemma {:induction false} LoadedTame(text: string, pending: string, l: Loader)
    requires |pending| <= ASCIILINESZ - 2 && OneLine(pending)
    ensures var r := LoadFrom(text, pending, l); r.Some? ==> Tame(l.dict, r.value.dict)
    decreases |text|
  {
    hide Fgets, CStr, RStrip, LoadLine, OneLine;
    if text != "" {
      var room := ASCIILINESZ - 1 - |pending|;
      var chunk := Fgets(text, room);
      var rest, line := text[|chunk|..], CStr(pending + chunk);
      var s := RStrip(line);
      FgetsCut(text, room);
      StrippedOneLine(pending, chunk);
      if |line| <= 1 {
        LoadedTame(rest, pending, l);
      } else if s != "" && s[|s| - 1] == '\\' {
        SliceOneLine(s, 0, |s| - 1);
        LoadedTame(rest, s[..|s| - 1], l);
      } else {
        EmptyOneLine();
        LoadLineTame(l, s);
        LoadedTame(rest, "", LoadLine(l, s));
      }
    }
  }

  // ----- one entry -------------------------------------------------------------------------------

  /** The value without the backslash that continues its line. */
  function Cut(v: string): string
    requires Continued(RStrip(v))
  {
    RStrip(v)[..|RStrip(v)| - 1]
  }

  function Bind(l: Loader, k: string, v: string): Loader {
    l.(dict := l.dict[l.section + ":" + k := Some(v)])
  }

  lemma BlankRStrip(v: string)
    ensures RStrip(" " + v) == if RStrip(v) == "" then "" else " " + RStrip(v)
  {
    hide RStrip, IsSpace;
    SpaceFacts();
    var s, n := " " + v, |RStrip(v)|;
    forall i | n + 1 <= i < |s| ensures IsSpace(s[i]) {
      assert s[i] == v[i - 1];
    }
    if n == 0 {
      RStripIs(s, 0);
    } else {
      assert s[n] == RStrip(v)[n - 1];
      RStripIs(s, n + 1);
      assert s[..n + 1] == " " + v[..n];
    }
  }

  /** The written line without its blanks at the end: continued exactly when its value is. */
  lemma EntryEnd(k: string, v: string)
    requires KeyOk(k)
    ensures var s := RStrip(EntryLine(k, v) + "\n");
            && s == RStrip(EntryLine(k, v))
            && (Continued(s) <==> Continued(RStrip(v)))
            && (Continued(s) ==> s[..|s| - 1] == EntryLine(k, Cut(v)))
  {
    hide RStrip, Strip, IsSpace, KeyOk, Lower;
    EntryStripped(k, v);
    BlankRStrip(v);
    var s, r := RStrip(EntryLine(k, v) + "\n"), RStrip(v);
    if r != "" {
      assert s == Pad30(k) + " = " + r;
      assert s[|s| - 1] == r[|r| - 1];
      assert s[..|s| - 1] == Pad30(k) + " = " + r[..|r| - 1];
    } else {
      assert s[|s| - 1] == '=';
    }
  }

  /** The next line is empty or the value's own: what the loader does with an entry so far. */
  lemma EntryStep(k: string, v: string, pending: string, line: string, rest: string, l: Loader)
    requires KeyOk(k) && OneLine(v) && OneLine(pending) && OneLine(line)
    requires pending + line == EntryLine(k, v) && |EntryLine(k, v)| <= ASCIILINESZ - 2
    ensures Continued(RStrip(v)) ==>
              && |EntryLine(k, Cut(v))| <= ASCIILINESZ - 2
              && LoadFrom(line + "\n" + rest, pending, l) == LoadFrom(rest, EntryLine(k, Cut(v)), l)
    ensures !Continued(RStrip(v)) ==>
              LoadFrom(line + "\n" + rest, pending, l) == LoadFrom(rest, "", Bind(l, k, ValueOf(Strip(v))))
  {
    hide RStrip, Strip, IsSpace, KeyOk, ValueOf, LoadFrom, OneLine, EntryLine, ParseLine;
    LineIsOne(k, v);
    ChunkStep(pending, line, rest, l);
    EntryEnd(k, v);
    EntryParses(k, v, l.section);
  }

  lemma CutOneLine(k: string, v: string)
    requires OneLine(v) && Continued(RStrip(v))
    ensures OneLine(Cut(v)) && |Cut(v)| < |v|
  {
    hide RStrip;
    SliceOneLine(v, 0, |RStrip(v)| - 1);
    assert Cut(v) == v[..|RStrip(v)| - 1];
  }

  lemma ValueShort(v: string)
    ensures |ValueOf(Strip(v))| <= |v|
  {
    hide LStrip, RStrip, Upto;
  }

  lemma TakeIsBind(l: Loader, k: string, v: string)
    ensures Take(l, Entry(k, v)) == Bind(l, k, v)
  {
  }

  /** An entry without a continuation is bound to its very value exactly for the values of ValueOk. */
  lemma BoundExactly(v: string)
    ensures !Continued(RStrip(v)) ==>
              (ValueOf(Strip(v)) == v <==> ValueOk(v) && (v != "" ==> v[|v| - 1] != '\\'))
    ensures Continued(RStrip(v)) ==> !(ValueOk(v) && (v != "" ==> v[|v| - 1] != '\\'))
  {
    hide RStrip, Strip, ValueOf;
    ValueSurvives(v);
    if ValueOk(v) {
      StrippedEnd(v);
    }
    if v != "" && v[|v| - 1] == '\\' {
      RStripIs(v, |v|);
      assert v[..|v|] == v;
    }
  }

  lemma StrippedEnd(v: string)
    requires Strip(v) == v
    ensures RStrip(v) == v
  {
    hide RStrip, Strip, IsSpace;
    var i, j := StripBounds(v);
    assert i == 0 && j == |v|;
    RStripIs(v, |v|);
    assert v[..|v|] == v;
  }

  /**
   * An entry written on its line, with the empty line that ends its section, is loaded as the same
   * key and value exactly when the line fits the buffer, the value is one line, does not end in a
   * backslash, and is of the form of ValueOk.
   */
  lemma EntryLoadsExactly(k: string, v: string, l: Loader)
    requires KeyOk(k) && l.section + ":" + k !in l.dict
    ensures LoadFrom(EntryLine(k, v) + "\n" + "\n", "", l) == Some(Take(l, Entry(k, v))) <==> ItemOk(Entry(k, v))
  {
    hide LoadFrom, EntryLine, Strip, RStrip, ValueOf, ValueOk, KeyOk, OneLine;
    var r := LoadFrom(EntryLine(k, v) + "\n" + "\n", "", l);
    var key := l.section + ":" + k;
    TakeIsBind(l, k, v);
    if ItemOk(Entry(k, v)) {
      LoadItem(Entry(k, v), "\n", l);
      GapAtEnd(Take(l, Entry(k, v)));
    } else if !OneLine(v) {
      EmptyOneLine();
      LoadedTame(EntryLine(k, v) + "\n" + "\n", "", l);
      assert r.Some? && key in r.value.dict ==> r.value.dict[key] != Some(v);
    } else {
      BadEntryLost(k, v, l);
    }
  }

  lemma GapAtEnd(l: Loader)
    ensures LoadFrom("\n", "", l) == Some(l)
  {
    hide LoadLine, RStrip, Fgets, CStr;
    LoadGap("", l);
    assert "\n" + "" == "\n";
  }

  lemma BadEntryLost(k: string, v: string, l: Loader)
    requires KeyOk(k) && OneLine(v) && !ItemOk(Entry(k, v)) && l.section + ":" + k !in l.dict
    ensures LoadFrom(EntryLine(k, v) + "\n" + "\n", "", l) != Some(Bind(l, k, v))
  {
    hide LoadFrom, EntryLine, Strip, RStrip, ValueOf, ValueOk, KeyOk, OneLine;
    var line := EntryLine(k, v);
    EmptyOneLine();
    LineIsOne(k, v);
    assert "" + line == line;
    if |line| > ASCIILINESZ - 2 {
      TooLong("", line, "\n", l);
    } else {
      EntryStep(k, v, "", line, "\n", l);
      BoundExactly(v);
      if Continued(RStrip(v)) {
        CutLost(k, v, l);
      } else {
        GapAtEnd(Bind(l, k, ValueOf(Strip(v))));
      }
    }
  }

  lemma LineIsOne(k: string, v: string)
    requires KeyOk(k) && OneLine(v)
    ensures OneLine(EntryLine(k, v)) && EntryLine(k, v) != ""
  {
    EntryOneLine(k, v);
  }

  lemma CutLost(k: string, v: string, l: Loader)
    requires KeyOk(k) && OneLine(v) && Continued(RStrip(v)) && |EntryLine(k, Cut(v))| <= ASCIILINESZ - 2
    requires l.section + ":" + k !in l.dict
    ensures LoadFrom("\n", EntryLine(k, Cut(v)), l) != Some(Bind(l, k, v))
  {
    hide LoadFrom, EntryLine, Strip, RStrip, ValueOf, KeyOk, OneLine, Cut;
    var u := Cut(v);
    CutOneLine(k, v);
    LineIsOne(k, u);
    EmptyOneLine();
    assert EntryLine(k, u) + "" == EntryLine(k, u) && "" + "\n" + "" == "\n";
    EntryStep(k, u, EntryLine(k, u), "", "", l);
    if Continued(RStrip(u)) {
      NothingLeft(EntryLine(k, Cut(u)), l);
    } else {
      NothingLeft("", Bind(l, k, ValueOf(Strip(u))));
      ValueShort(u);
    }
  }

  lemma NothingLeft(pending: string, l: Loader)
    requires |pending| <= ASCIILINESZ - 2
    ensures LoadFrom("", pending, l) == Some(l)
  {
  }

  /** A value that ends in a backslash loses it, and its line takes the next one in. */
  lemma BackslashLost(k: string, l: Loader)
    requires KeyOk(k) && |k| <= 1000
    ensures ValueOk("a\\") && LoadFrom(EntryLine(k, "a\\") + "\n" + "\n", "", l) == Some(Bind(l, k, "a"))
  {
    hide LoadFrom, KeyOk, EntryLine, RStrip, Strip, ValueOf, ValueOk, Cut, OneLine;
    var v, line := "a\\", EntryLine(k, "a\\");
    BackslashCut();
    LineIsOne(k, v);
    EmptyOneLine();
    EntryFits(k);
    assert "" + line == line;
    EntryStep(k, v, "", line, "\n", l);
    LineIsOne(k, "a");
    assert EntryLine(k, "a") + "" == EntryLine(k, "a") && "" + "\n" + "" == "\n";
    EntryStep(k, "a", EntryLine(k, "a"), "", "", l);
    NothingLeft("", Bind(l, k, "a"));
  }

  lemma EntryFits(k: string)
    requires |k| <= 1000
    ensures |EntryLine(k, "a\\")| <= ASCIILINESZ - 2 && |EntryLine(k, "a")| <= ASCIILINESZ - 2
  {
  }

  lemma BackslashCut()
    ensures var v := "a\\";
            && OneLine(v) && OneLine("a") && ValueOk(v)
            && Continued(RStrip(v)) && Cut(v) == "a" && !Continued(RStrip("a")) && ValueOf(Strip("a")) == "a"
  {
    hide RStrip, LStrip, Strip;
    var v := "a\\";
    StripIs(v, 0, 2);
    StripIs("a", 0, 1);
    assert v[0..2] == v && "a"[0..1] == "a";
    StrippedEnd(v);
    StrippedEnd("a");
    assert v[..1] == "a";
    ValueSurvives("a");
  }
}
