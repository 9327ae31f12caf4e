/** The header parser object of server/header.cpp, proved to read and write what module Header says. */
module HeaderParser {
  import opened CStrings
  import opened Buffer
  import opened Header

  class HeaderParser {
    const names: array<string>
    const values: array<string>
    var headerCount: nat
    var mailHeader: string
    var mailBody: string

    ghost predicate Valid()
      reads this
    {
      names.Length == MAX_HEADERS && values.Length == MAX_HEADERS && names != values && headerCount <= MAX_HEADERS
    }

    /** The fields in use. */
    ghost function Fields(): (fs: seq<Field>)
      requires Valid()
      reads this, names, values
      ensures |fs| == headerCount && forall i :: 0 <= i < headerCount ==> fs[i] == Field(names[i], values[i])
    {
      seq(headerCount,
          i requires 0 <= i < headerCount && Valid() reads this, names, values => Field(names[i], values[i]))
    }

    constructor ()
      ensures Valid() && headerCount == 0 && mailHeader == "" && mailBody == ""
      ensures fresh(names) && fresh(values) && values[0] == ""
    {
      names := new string[MAX_HEADERS](_ => "");
      values := new string[MAX_HEADERS](_ => "");
      headerCount := 0;
      mailHeader, mailBody := "", "";
    }

    method Find(name: string) returns (i: nat)
      requires Valid()
      ensures i == FindField(Fields(), name)
    {
      i := 0;
      while i < headerCount
        invariant i <= headerCount && forall j :: 0 <= j < i ==> names[j] != name
      {
        if names[i] == name {
          FindIs(Fields(), name, i);
          return;
        }
        i := i + 1;
      }
      FindIs(Fields(), name, i);
    }

    method GetField(name: string) returns (value: Option<string>)
      requires Valid()
      ensures value == if FindField(Fields(), name) < headerCount then Some(Fields()[FindField(Fields(), name)].value)
                       else None
    {
      var i := Find(name);
      return if i < headerCount then Some(values[i]) else None;
    }

    /** Sets the first field of that name or appends one; ok is false where strncpy leaves out the NUL. */
    method SetField(name: string, value: string) returns (index: int, ok: bool)
      requires Valid()
      modifies this`headerCount, names, values
      ensures Valid()
      ensures ok <==> Header.SetField(old(Fields()), name, value).Some?
      ensures ok ==> Some((Fields(), index)) == Header.SetField(old(Fields()), name, value)
      ensures !ok ==> Fields() == old(Fields())
      ensures old(headerCount) > 0 ==> headerCount > 0
      ensures ok ==> headerCount > 0
    {
      ghost var fs := Fields();
      var i := Find(name);
      if i == headerCount {
        if headerCount == MAX_HEADERS {
          return -1, true;
        }
        if |name| >= MAX_NAME || |value| >= MAX_VALUE {
          return -1, false;
        }
        names[i] := name;
        headerCount := headerCount + 1;
      } else if |value| >= MAX_VALUE {
        return -1, false;
      }
      values[i] := value;
      if value != "" && (value[|value| - 1] == '\r' || value[|value| - 1] == '\n') {
        values[i] := value[..|value| - 1];
      }
      assert Fields() == if i < |fs| then fs[i := Field(name, Chomp(value))] else fs + [Field(name, Chomp(value))];
      return i, true;
    }

    /** Appends a field without looking for its name. */
    method AddField(name: string, value: string) returns (index: int)
      requires Valid() && |name| < MAX_NAME && |value| < MAX_VALUE
      modifies this`headerCount, names, values
      ensures Valid()
      ensures index == if old(headerCount) == MAX_HEADERS then -1 else old(headerCount)
      ensures Fields() == old(Fields()) + (if index < 0 then [] else [Field(name, value)])
    {
      ghost var fs := Fields();
      if headerCount == MAX_HEADERS {
        return -1;
      }
      index := headerCount;
      names[index] := name;
      values[index] := value;
      headerCount := headerCount + 1;
      assert Fields() == fs + [Field(name, value)];
    }

    method GenerateHeader()
      requires Valid()
      modifies this`mailHeader
      ensures Fields() == old(Fields()) && mailHeader == HeaderText(Fields())
    {
      mailHeader := "";
      ghost var fs := Fields();
      for i := 0 to headerCount
        invariant mailHeader + FieldsText(fs[i..]) == FieldsText(fs)
      {
        assert fs[i..][1..] == fs[i + 1..];
        mailHeader := mailHeader + FieldText(Field(names[i], values[i]));
      }
      assert fs[headerCount..] == [] && fs[0..] == fs && mailHeader + "" == mailHeader;
      mailHeader := mailHeader + "\n";
      assert Fields() == fs;
    }

    /** The state in the middle of reading, with the field continuation lines belong to. */
    ghost predicate Reading(index: int, p: Parsed)
      reads this, names, values
    {
      && Valid() && p.fields == Fields() && p.index == index && p.body == mailBody
      && (headerCount == 0 ==> index == 0 && values[0] == p.scratch)
      && -1 <= index && (headerCount > 0 ==> index < headerCount)
    }

    lemma ReadingIs(index: int, p: Parsed)
      requires Reading(index, p)
      ensures Valid() && p.fields == Fields() && p.body == mailBody
    {
    }

    /** strcat of a continuation line. */
    method ContinueField(index: int, line: string, ghost p: Parsed) returns (ok: bool)
      requires Reading(index, p)
      modifies values
      ensures ok <==> Continue(p, line).Some?
      ensures ok ==> Reading(index, Continue(p, line).value)
    {
      if index < 0 || |values[index]| + |line| >= MAX_VALUE {
        return false;
      }
      values[index] := values[index] + line;
      return true;
    }

    method FieldLine(index: int, line: string, ghost p: Parsed) returns (index': int, ok: bool)
      requires Reading(index, p)
      modifies this`headerCount, names, values
      ensures Valid() && (ok <==> ReadField(p, line).Some?)
      ensures ok ==> Reading(index', ReadField(p, line).value)
    {
      index', ok := index, true;
      var colon := IndexOf(line, ':');
      if colon < |line| {
        if colon + 1 == |line| {
          return index, false;
        }
        index', ok := SetField(line[..colon], line[colon + 2..]);
      }
    }

    method HeaderLine(index: int, line: string, ghost p: Parsed) returns (index': int, ok: bool)
      requires Reading(index, p)
      modifies this`headerCount, names, values
      ensures Valid() && (ok <==> AfterLine(p, line).Some?)
      ensures ok ==> Reading(index', AfterLine(p, line).value)
    {
      hide Continue, ReadField;
      index' := index;
      if line != "" && line[0] == '\t' {
        ok := ContinueField(index, line, p);
      } else {
        index', ok := FieldLine(index, line, p);
      }
    }

    method Clear()
      requires Valid()
      modifies this, names, values
      ensures Reading(0, EMPTY)
    {
      headerCount := 0;
      mailBody, mailHeader := "", "";
      forall i | 0 <= i < MAX_HEADERS {
        names[i] := "";
      }
      forall i | 0 <= i < MAX_HEADERS {
        values[i] := "";
      }
    }

    /** Everything after the header, line by line. */
    method ReadBody(buf: InoutBuffer)
      requires Valid() && buf.Valid()
      modifies this`mailBody, buf, buf.data
      ensures mailBody == old(mailBody) + JoinLines(Lines(old(buf.View())))
    {
      hide Lines, Tail, CStr;
      var curline := new InoutBuffer();
      while true
        invariant buf.Valid() && curline.Valid() && fresh(curline) && fresh(curline.data)
        invariant buf.data == old(buf.data)
        invariant mailBody + JoinLines(Lines(buf.View())) == old(mailBody) + JoinLines(Lines(old(buf.View())))
        decreases |buf.View()|
      {
        ghost var view := buf.View();
        var more := buf.ReadLine(curline);
        if !more {
          NoMoreLines(view);
          assert mailBody + "" == mailBody;
          break;
        }
        var line := CStr(curline.data[..]);
        JoinFirst(line, Lines(buf.View()));
        mailBody := mailBody + line + "\n";
      }
    }

    /** Reads a mail; ok is false where module Header gives no result. */
    method ReadMail(mail: string) returns (ok: bool)
      requires Valid()
      modifies this, names, values
      ensures Valid() && (ok <==> Header.ReadMail(mail).Some?)
      ensures ok ==> Fields() == Header.ReadMail(mail).value.fields && mailBody == Header.ReadMail(mail).value.body
    {
      hide Lines, Tail, CStr, ReadLines, JoinLines, AfterLine, Reading;
      Clear();
      var buf := new InoutBuffer();
      buf.AddData(mail);
      assert buf.View() == mail;
      var curline := new InoutBuffer();
      var index := 0;
      ghost var p := EMPTY;
      while true
        invariant buf.Valid() && fresh(buf) && fresh(buf.data)
        invariant curline.Valid() && fresh(curline) && fresh(curline.data)
        invariant buf != curline && buf.data != curline.data
        invariant Reading(index, p)
        invariant ReadLines(p, Lines(buf.View())) == Header.ReadMail(mail)
        decreases |buf.View()|
      {
        ghost var view := buf.View();
        var more := buf.ReadLine(curline);
        if !more {
          NoMoreLines(view);
          ReadNothing(p);
          ReadingIs(index, p);
          return true;
        }
        var line := CStr(curline.data[..]);
        ghost var rest := Lines(buf.View());
        LinesStep(p, line, rest);
        assert ReadLines(p, [line] + rest) == Header.ReadMail(mail);
        index, ok := HeaderLine(index, line, p);
        if !ok {
          return false;
        }
        p := AfterLine(p, line).value;
        if EndsHeader(line) {
          ReadingIs(index, p);
          ghost var fs := Fields();
          ReadBody(buf);
          assert Fields() == fs;
          return true;
        }
      }
    }
  }

  lemma NoMoreLines(s: string)
    requires '\n' !in s
    ensures Lines(s) == [] && JoinLines(Lines(s)) == ""
  {
  }

  lemma JoinFirst(line: string, rest: seq<string>)
    ensures JoinLines([line] + rest) == line + "\n" + JoinLines(rest)
  {
    assert ([line] + rest)[1..] == rest;
  }

  lemma ReadNothing(p: Parsed)
    ensures ReadLines(p, []) == Some(p)
  {
  }

  /** One round of reading. */
  lemma LinesStep(p: Parsed, line: string, rest: seq<string>)
    ensures ReadLines(p, [line] + rest) ==
            match AfterLine(p, line)
            case None => None
            case Some(q) => if EndsHeader(line) then Some(q.(body := q.body + JoinLines(rest))) else ReadLines(q, rest)
  {
    assert ([line] + rest)[1..] == rest;
  }

  lemma FindIs(fs: seq<Field>, name: string, i: nat)
    requires i <= |fs| && (i < |fs| ==> fs[i].name == name) && forall j :: 0 <= j < i ==> fs[j].name != name
    ensures FindField(fs, name) == i
  {
  }
}
