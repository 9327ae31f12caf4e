/** The loops of iniparser/iniparser.c, proved to read and write what module IniSpec says. */
module IniParser {
  import opened CStrings
  import opened Dictionary
  import opened IniSpec
  import opened IniRoundTrip

  method StrLwc(s: string, len: nat) returns (out: string)
    requires len > 0
    ensures out == Lower(s, len - 1)
  {
    out := "";
    var i := 0;
    while i < |s| && i < len - 1
      invariant i <= |s| && i <= len - 1 && out + Lower(s[i..], len - 1 - i) == Lower(s, len - 1)
    {
      assert s[i..][1..] == s[i + 1..];
      out := out + [ToLower(s[i])];
      i := i + 1;
    }
  }

  method StrStrip(s: string) returns (out: string)
    ensures out == Strip(s)
  {
    hide IsSpace, LStrip, RStrip;
    var first := 0;
    while first < |s| && IsSpace(s[first])
      invariant first <= |s| && forall i :: 0 <= i < first ==> IsSpace(s[i])
    {
      first := first + 1;
    }
    var last := |s|;
    while last > first && IsSpace(s[last - 1])
      invariant first <= last <= |s| && forall i :: last <= i < |s| ==> IsSpace(s[i])
    {
      last := last - 1;
    }
    out := s[first..last];
    StripIs(s, first, last);
  }

  /** Reads one line; the old section name is kept by a "[]". */
  method IniparserLine(input: string, section: string) returns (l: Line)
    ensures l == ParseLine(input, section)
  {
    hide LStrip, RStrip, Upto, Lower, ParsedValue;
    var line := StrStrip(input);
    var len := |line|;
    if len < 1 {
      return EmptyLine;
    } else if line[0] == '#' || line[0] == ';' {
      return CommentLine;
    } else if line[0] == '[' && line[len - 1] == ']' {
      var name := Upto(line[1..], ']', ']');
      var s := StrStrip(if name == "" then section else name);
      s := StrLwc(s, len);
      return SectionLine(s);
    }
    var scanned := ParsedValue(line);
    if scanned == None {
      return ErrorLine;
    }
    var key := StrStrip(scanned.value.0);
    key := StrLwc(key, len);
    return ValueLine(key, scanned.value.1);
  }

  /** Stores what one line says. */
  method StoreLine(dict: Dictionary, line: string, section: string, errs: nat) returns (section': string, errs': nat)
    requires dict.Valid()
    modifies dict, dict.key, dict.val, dict.hash
    ensures dict.Valid()
    ensures dict.key == old(dict.key) || fresh(dict.key)
    ensures dict.val == old(dict.val) || fresh(dict.val)
    ensures dict.hash == old(dict.hash) || fresh(dict.hash)
    ensures Loader(section', dict.Map(), errs' > 0) == LoadLine(Loader(section, old(dict.Map()), errs > 0), line)
  {
    hide ParseLine, SlotMap, Taken;
    section', errs' := section, errs;
    var parsed := IniparserLine(line, section);
    match parsed {
      case EmptyLine =>
      case CommentLine =>
      case SectionLine(s) =>
        section' := s;
        var rc := dict.Set(s, None);
      case ValueLine(k, v) =>
        var rc := dict.Set(section + ":" + k, Some(v));
      case ErrorLine =>
        errs' := errs + 1;
    }
  }

  /** Reads a whole file into a new dictionary; null when a line is too long or in error. */
  method IniparserLoad(text: string) returns (result: Dictionary?)
    ensures result == null <==> Load(text) == None
    ensures result != null ==> fresh(result) && result.Valid() && Load(text) == Some(result.Map())
  {
    hide LoadLine, RStrip, Fgets, SlotMap, Taken, CStr;
    var dict := new Dictionary(0);
    var rest, pending, section := text, "", "";
    var errs: nat := 0;
    while rest != ""
      invariant fresh(dict) && fresh(dict.key) && fresh(dict.val) && fresh(dict.hash) && dict.Valid()
      invariant |pending| <= ASCIILINESZ - 2 && errs >= 0
      invariant LoadFrom(rest, pending, Loader(section, dict.Map(), errs > 0))
             == LoadFrom(text, "", Loader("", map[], false))
      decreases |rest|
    {
      var room := ASCIILINESZ - 1 - |pending|;
      var chunk := Fgets(rest, room);
      var eof := |chunk| == |rest| && chunk[|chunk| - 1] != '\n' && |chunk| < room;
      rest := rest[|chunk|..];
      var line := CStr(pending + chunk);
      if |line| <= 1 {
        continue;
      }
      if line[|line| - 1] != '\n' && !eof {
        return null;
      }
      line := RStrip(line);
      if line != "" && line[|line| - 1] == '\\' {
        pending := line[..|line| - 1];
        continue;
      }
      pending := "";
      section, errs := StoreLine(dict, line, section, errs);
    }
    result := if errs > 0 then null else dict;
  }

  // ----- dumping ---------------------------------------------------------------------------------

  lemma {:induction false} SectionsPrefix(keys: seq<Key>, i: nat)
    requires i <= |keys|
    ensures Sections(keys[..i]) <= Sections(keys)
  {
    if i < |keys| {
      SectionsPrefix(keys[..|keys| - 1], i);
      assert keys[..|keys| - 1][..i] == keys[..i];
    } else {
      assert keys[..i] == keys;
    }
  }

  method GetNSec(d: Dictionary) returns (nsec: nat)
    requires d.Valid()
    ensures nsec == |Sections(d.key[..])|
  {
    nsec := 0;
    for i := 0 to d.size
      invariant nsec == |Sections(d.key[..i])|
    {
      assert d.key[..i + 1][..i] == d.key[..i];
      if d.key[i].Some? && ':' !in d.key[i].value {
        nsec := nsec + 1;
      }
    }
    assert d.key[..d.size] == d.key[..];
  }

  /** The name of the n-th section, NULL when there is none. */
  method GetSecName(d: Dictionary, n: int) returns (name: Option<string>)
    requires d.Valid()
    ensures name == if 0 <= n < |Sections(d.key[..])| then Some(Sections(d.key[..])[n]) else None
  {
    if n < 0 {
      return None;
    }
    var foundsec := 0;
    for i := 0 to d.size
      invariant foundsec == |Sections(d.key[..i])| <= n
    {
      assert d.key[..i + 1][..i] == d.key[..i];
      if d.key[i].Some? && ':' !in d.key[i].value {
        foundsec := foundsec + 1;
        if foundsec > n {
          SectionsPrefix(d.key[..], i + 1);
          assert d.key[..][..i + 1] == d.key[..i + 1];
          return d.key[i];
        }
      }
    }
    assert d.key[..d.size] == d.key[..];
    return None;
  }

  method DumpSectionIni(d: Dictionary, s: string) returns (text: string)
    requires d.Valid()
    ensures text == SectionText(d.key[..], d.val[..], s)
  {
    var lower := StrLwc(s, ASCIILINESZ + 1);
    var found := d.Find(lower);
    if found == d.size {
      return "";
    }
    assert d.key[..][found] == Some(lower);
    var entries := "";
    for j := 0 to d.size
      invariant entries == EntriesText(d.key[..j], d.val[..j], s)
    {
      assert d.key[..j + 1][..j] == d.key[..j] && d.val[..j + 1][..j] == d.val[..j];
      if d.key[j].Some? && s + ":" <= d.key[j].value {
        entries := entries + (EntryLine(d.key[j].value[|s| + 1..], OrElse(d.val[j], "")) + "\n");
      }
    }
    assert d.key[..d.size] == d.key[..] && d.val[..d.size] == d.val[..];
    text := "\n[" + s + "]\n" + entries + "\n";
  }

  method DumpIni(d: Dictionary) returns (text: string)
    requires d.Valid()
    ensures text == DumpText(d.key[..], d.val[..])
  {
    hide SectionText, Sections;
    var nsec := GetNSec(d);
    text := "";
    if nsec < 1 {
      text := DumpFlat(d);
      return;
    }
    ghost var ss := Sections(d.key[..]);
    for i := 0 to nsec
      invariant text == SectionsText(d.key[..], d.val[..], ss[..i])
    {
      assert ss[..i + 1][..i] == ss[..i];
      var secname := GetSecName(d, i);
      var section := DumpSectionIni(d, secname.value);
      text := text + section;
    }
    assert ss[..nsec] == ss;
    text := text + "\n";
  }

  method DumpFlat(d: Dictionary) returns (text: string)
    requires d.Valid()
    ensures text == FlatText(d.key[..], d.val[..])
  {
    text := "";
    for i := 0 to d.size
      invariant text == FlatText(d.key[..i], d.val[..i])
    {
      assert d.key[..i + 1][..i] == d.key[..i] && d.val[..i + 1][..i] == d.val[..i];
      if d.key[i].Some? {
        text := text + (d.key[i].value + " = " + OrElse(d.val[i], "(null)") + "\n");
      }
    }
    assert d.key[..d.size] == d.key[..] && d.val[..d.size] == d.val[..];
  }
}
