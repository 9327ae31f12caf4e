/** What module Header reads from the lines of a mail's header, and exactly when it is what was sent. */
module HeaderLines {
  import opened CStrings
  import opened Buffer
  import opened Header
  import opened HeaderFields

  // ----- line by line ----------------------------------------------------------------------------

  function Steps(p: Parsed, lines: seq<string>): Option<Parsed>
    decreases |lines|
  {
    if lines == [] then Some(p)
    else
      match AfterLine(p, lines[0])
      case None => None
      case Some(q) => Steps(q, lines[1..])
  }

  lemma StepsCons(p: Parsed, line: string, lines: seq<string>)
    ensures Steps(p, [line] + lines) ==
            match AfterLine(p, line)
            case None => None
            case Some(q) => Steps(q, lines)
  {
    assert ([line] + lines)[1..] == lines;
  }

  lemma {:induction false} StepsConcat(p: Parsed, xs: seq<string>, ys: seq<string>)
    ensures Steps(p, xs + ys) ==
            match Steps(p, xs)
            case None => None
            case Some(q) => Steps(q, ys)
    decreases |xs|
  {
    hide AfterLine;
    if xs == [] {
      assert xs + ys == ys;
    } else {
      assert (xs + ys)[0] == xs[0] && (xs + ys)[1..] == xs[1..] + ys;
      if AfterLine(p, xs[0]).Some? {
        StepsConcat(AfterLine(p, xs[0]).value, xs[1..], ys);
      }
    }
  }

  lemma BodyKept(p: Parsed, line: string)
    ensures AfterLine(p, line).Some? ==> AfterLine(p, line).value.body == p.body
  {
    hide SetField, IndexOf;
  }

  ghost predicate InHeader(lines: seq<string>) {
    forall i :: 0 <= i < |lines| ==> !EndsHeader(lines[i])
  }

  /** Lines within the header are read as the steps say, and the others from where they have got to. */
  lemma {:induction false} StepsThen(p: Parsed, lines: seq<string>, rest: seq<string>)
    requires InHeader(lines)
    ensures ReadLines(p, lines + rest) == match Steps(p, lines) case None => None case Some(q) => ReadLines(q, rest)
    ensures Steps(p, lines).Some? ==> Steps(p, lines).value.body == p.body
    decreases |lines|
  {
    hide AfterLine;
    if lines == [] {
      assert lines + rest == rest;
    } else {
      assert (lines + rest)[0] == lines[0] && (lines + rest)[1..] == lines[1..] + rest;
      BodyKept(p, lines[0]);
      if AfterLine(p, lines[0]).Some? {
        StepsThen(AfterLine(p, lines[0]).value, lines[1..], rest);
      }
    }
  }

  /** The lines of a header, the empty line and the body's lines are read as the header's steps say. */
  lemma StepsRead(p: Parsed, lines: seq<string>, body: seq<string>)
    requires p.body == "" && InHeader(lines)
    ensures ReadLines(p, lines + ([""] + body)) ==
            match Steps(p, lines)
            case None => None
            case Some(q) => Some(q.(body := JoinLines(body)))
  {
    hide Steps, AfterLine;
    StepsThen(p, lines, [""] + body);
    var r := Steps(p, lines);
    if r.Some? {
      EmptyLine(r.value);
      assert ([""] + body)[1..] == body && "" + JoinLines(body) == JoinLines(body);
    }
  }

  lemma EmptyLine(p: Parsed)
    ensures AfterLine(p, "") == Some(p)
  {
  }

  // ----- what the sender writes ------------------------------------------------------------------

  /** A field line, with all that stands behind its colon, and the lines that continue it. */
  datatype Part = Part(name: string, text: string, folds: seq<string>)

  predicate IsBlank(c: char) {
    c == ' ' || c == '\t'
  }

  predicate Tabbed(t: string) {
    t != "" && t[0] == '\t'
  }

  /** A line that starts no field for the sender: it starts with a blank or has no colon. */
  predicate FoldShape(t: string) {
    t != "" && OneLine(t) && (IsBlank(t[0]) || ':' !in t)
  }

  predicate NameShape(name: string) {
    name != "" && OneLine(name) && ':' !in name && name[0] != '\t'
  }

  predicate Shape(p: Part) {
    && NameShape(p.name) && OneLine(p.text)
    && forall i :: 0 <= i < |p.folds| ==> FoldShape(p.folds[i])
  }

  predicate Shapes(ps: seq<Part>) {
    forall i :: 0 <= i < |ps| ==> Shape(ps[i])
  }

  function FieldLine(p: Part): string {
    p.name + ":" + p.text
  }

  function PartLines(ps: seq<Part>): seq<string> {
    if ps == [] then [] else [FieldLine(ps[0])] + ps[0].folds + PartLines(ps[1..])
  }

  function AllText(folds: seq<string>): string {
    if folds == [] then "" else folds[0] + AllText(folds[1..])
  }

  /** One blank behind the colon is not part of the value. */
  function SentValue(text: string): string {
    if text != "" && IsBlank(text[0]) then text[1..] else text
  }

  /** The fields with all the text the sender gave them. */
  function Sent(ps: seq<Part>): (fs: seq<Field>)
    ensures |fs| == |ps|
    ensures forall i :: 0 <= i < |ps| ==> fs[i] == Field(ps[i].name, SentValue(ps[i].text) + AllText(ps[i].folds))
  {
    seq(|ps|, i requires 0 <= i < |ps| => Field(ps[i].name, SentValue(ps[i].text) + AllText(ps[i].folds)))
  }

  // ----- what each line does ---------------------------------------------------------------------

  lemma FieldLineCut(p: Part)
    requires NameShape(p.name)
    ensures var line := FieldLine(p);
            && IndexOf(line, ':') == |p.name| && line[..|p.name|] == p.name && line[|p.name| + 1..] == p.text
            && line != "" && line[0] == p.name[0]
  {
    var line := FieldLine(p);
    IndexOfUnique(line, ':', |p.name|);
    assert line[..|p.name|] == p.name && line[|p.name| + 1..] == p.text && line[0] == p.name[0];
  }

  /** The value of a field line starts two characters behind its name, whatever stands there. */
  lemma AfterField(p: Parsed, part: Part)
    requires NameShape(part.name)
    ensures !EndsHeader(FieldLine(part))
    ensures AfterLine(p, FieldLine(part)) ==
            if part.text == "" then None
            else
              match SetField(p.fields, part.name, part.text[1..])
              case None => None
              case Some((fs, i)) => Some(p.(fields := fs, index := i))
  {
    hide SetField, IndexOf;
    FieldLineCut(part);
    var line := FieldLine(part);
    assert part.text != "" ==> line[|part.name| + 2..] == line[|part.name| + 1..][1..];
  }

  /** A continuation line with a colon that does not start with a tab is read as a field of its own. */
  lemma AfterFold(p: Parsed, t: string)
    requires FoldShape(t)
    ensures !EndsHeader(t)
    ensures AfterLine(p, t) ==
            if Tabbed(t) then Continue(p, t)
            else if ':' !in t then Some(p)
            else
              var k := IndexOf(t, ':');
              if k + 1 == |t| then None
              else
                match SetField(p.fields, t[..k], t[k + 2..])
                case None => None
                case Some((fs, i)) => Some(p.(fields := fs, index := i))
    ensures !Tabbed(t) && ':' in t ==> 0 < IndexOf(t, ':') < |t| && t[0] == ' '
  {
    hide SetField;
    assert ':' !in t ==> IndexOf(t, ':') == |t| by {
      if ':' !in t {
        IndexOfUnique(t, ':', |t|);
      }
    }
  }

  // ----- what the lines are read as --------------------------------------------------------------

  /** The fields a field and the lines behind it are read as. */
  function Units(f: Field, folds: seq<string>): (fs: seq<Field>)
    ensures fs != [] && fs[0].name == f.name && f.value <= fs[0].value
    decreases |folds|
  {
    if folds == [] then [f]
    else
      var t, more := folds[0], folds[1..];
      if Tabbed(t) then Units(f.(value := f.value + t), more)
      else if ':' !in t then Units(f, more)
      else [f] + Units(OwnField(t), more)
  }

  /** The field a continuation line with a colon is taken for. */
  function OwnField(t: string): Field
    requires ':' in t
  {
    var k := IndexOf(t, ':');
    Field(t[..k], Chomp(if k + 2 <= |t| then t[k + 2..] else ""))
  }

  function OpeningField(p: Part): Field {
    Field(p.name, Chomp(if p.text == "" then "" else p.text[1..]))
  }

  /** All fields the header is read as, one by one. */
  function Read(ps: seq<Part>): seq<Field> {
    if ps == [] then [] else Units(OpeningField(ps[0]), ps[0].folds) + Read(ps[1..])
  }

  predicate FoldFits(t: string) {
    !Tabbed(t) && ':' in t ==>
      var k := IndexOf(t, ':');
      k + 1 < |t| && k < MAX_NAME && |t| < k + 2 + MAX_VALUE
  }

  /** Something stands behind every colon and the parser's arrays hold every line. */
  predicate Fit(p: Part) {
    && p.text != "" && |p.name| < MAX_NAME && |p.text| <= MAX_VALUE
    && (forall i :: 0 <= i < |p.folds| ==> FoldFits(p.folds[i]))
    && forall i :: 0 <= i < |Units(OpeningField(p), p.folds)| ==> |Units(OpeningField(p), p.folds)[i].value| < MAX_VALUE
  }

  predicate AllFit(ps: seq<Part>) {
    forall i :: 0 <= i < |ps| ==> Fit(ps[i])
  }

  ghost predicate ShortValues(fs: seq<Field>) {
    forall i :: 0 <= i < |fs| ==> |fs[i].value| < MAX_VALUE
  }

  lemma ContinueIs(p: Parsed, gs: seq<Field>, f: Field, t: string)
    requires p.fields == Merge(gs, f) && p.index == FindField(gs, f.name) && |f.value| + |t| < MAX_VALUE
    ensures Continue(p, t) == Some(p.(fields := Merge(gs, f.(value := f.value + t))))
  {
    hide FindField;
    var i := FindField(gs, f.name);
    assert p.fields[i] == f;
    assert Merge(gs, f)[i := f.(value := f.value + t)] == Merge(gs, f.(value := f.value + t));
  }

  lemma {:induction false} FoldsRead(p: Parsed, gs: seq<Field>, f: Field, folds: seq<string>)
    requires p.fields == Merge(gs, f) && p.index == FindField(gs, f.name)
    requires forall i :: 0 <= i < |folds| ==> FoldShape(folds[i]) && FoldFits(folds[i])
    requires ShortValues(Units(f, folds)) && |MergeFrom(gs, Units(f, folds))| <= MAX_HEADERS
    ensures var r := Steps(p, folds);
            r.Some? && r.value == p.(fields := MergeFrom(gs, Units(f, folds)), index := r.value.index)
    decreases |folds|, 1
  {
    hide AfterLine, FoldShape, Merge, FindField, OwnField;
    if folds == [] {
      assert [f][1..] == [];
    } else {
      var t, more := folds[0], folds[1..];
      AfterFold(p, t);
      if Tabbed(t) {
        var f' := f.(value := f.value + t);
        assert |f'.value| <= |Units(f', more)[0].value| < MAX_VALUE;
        ContinueIs(p, gs, f, t);
        FoldsRead(p.(fields := Merge(gs, f')), gs, f', more);
      } else if ':' !in t {
        FoldsRead(p, gs, f, more);
      } else {
        OwnRead(p, gs, f, t, more);
      }
    }
  }

  lemma {:induction false} OwnRead(p: Parsed, gs: seq<Field>, f: Field, t: string, more: seq<string>)
    requires p.fields == Merge(gs, f) && FoldShape(t) && FoldFits(t) && !Tabbed(t) && ':' in t
    requires forall i :: 0 <= i < |more| ==> FoldShape(more[i]) && FoldFits(more[i])
    requires ShortValues([f] + Units(OwnField(t), more))
    requires |MergeFrom(gs, [f] + Units(OwnField(t), more))| <= MAX_HEADERS
    ensures AfterLine(p, t).Some?
    ensures var r := Steps(AfterLine(p, t).value, more);
            r.Some? && r.value == p.(fields := MergeFrom(gs, [f] + Units(OwnField(t), more)), index := r.value.index)
    decreases |more| + 1, 0
  {
    hide AfterLine, FoldShape, Merge, FindField;
    var k, g, us := IndexOf(t, ':'), OwnField(t), Units(OwnField(t), more);
    AfterFold(p, t);
    assert ([f] + us)[1..] == us;
    assert MergeFrom(gs, [f] + us) == MergeFrom(p.fields, us);
    assert us == [us[0]] + us[1..];
    MergeLength(p.fields, g, us);
    FieldSet(p.fields, t[..k], t[k + 2..]);
    assert forall i :: 0 <= i < |us| ==> us[i] == ([f] + us)[i + 1];
    FoldsRead(AfterLine(p, t).value, p.fields, g, more);
  }

  lemma MergeLength(gs: seq<Field>, g: Field, us: seq<Field>)
    requires us != [] && us[0].name == g.name
    ensures |Merge(gs, g)| <= |MergeFrom(gs, us)|
  {
    hide FindField;
    assert |Merge(gs, g)| == |Merge(gs, us[0])|;
  }

  /** The lines of all parts are read as their fields, merged one by one. */
  lemma {:induction false} PartsRead(p: Parsed, ps: seq<Part>)
    requires Shapes(ps) && AllFit(ps) && |MergeFrom(p.fields, Read(ps))| <= MAX_HEADERS
    ensures var r := Steps(p, PartLines(ps));
            r.Some? && r.value == p.(fields := MergeFrom(p.fields, Read(ps)), index := r.value.index)
    decreases |ps|
  {
    hide AfterLine, Merge, FindField, FoldShape, FoldFits, NameShape, Units;
    if ps != [] {
      var x, f, us := ps[0], OpeningField(ps[0]), Units(OpeningField(ps[0]), ps[0].folds);
      assert Shape(x) && Fit(x);
      MergeFromConcat(p.fields, us, Read(ps[1..]));
      MergeLength(p.fields, f, us);
      AfterField(p, x);
      FieldSet(p.fields, x.name, x.text[1..]);
      var p1 := AfterLine(p, FieldLine(x)).value;
      FoldsRead(p1, p.fields, f, x.folds);
      var p2 := Steps(p1, x.folds).value;
      PartsRead(p2, ps[1..]);
      assert [FieldLine(x)] + x.folds + PartLines(ps[1..]) == [FieldLine(x)] + (x.folds + PartLines(ps[1..]));
      StepsCons(p, FieldLine(x), x.folds + PartLines(ps[1..]));
      StepsConcat(p1, x.folds, PartLines(ps[1..]));
    }
  }

  lemma {:induction false} NoneEnds(ps: seq<Part>)
    requires Shapes(ps)
    ensures InHeader(PartLines(ps))
    decreases |ps|
  {
    hide AfterLine, EndsHeader, SetField, NameShape;
    if ps != [] {
      var x := ps[0];
      assert Shape(x);
      NoneEnds(ps[1..]);
      AfterField(EMPTY, x);
      forall i | 0 <= i < |x.folds| ensures !EndsHeader(x.folds[i]) {
        AfterFold(EMPTY, x.folds[i]);
      }
    }
  }

  /** A mail is read as its merged fields and the lines of its body. */
  lemma MailRead(ps: seq<Part>, body: seq<string>)
    requires Shapes(ps) && AllFit(ps) && |Merged(Read(ps))| <= MAX_HEADERS
    ensures var r := ReadLines(EMPTY, PartLines(ps) + ([""] + body));
            r.Some? && r.value.fields == Merged(Read(ps)) && r.value.body == JoinLines(body)
  {
    hide Shapes, AllFit, MergeFrom, PartLines, Steps, ReadLines;
    NoneEnds(ps);
    PartsRead(EMPTY, ps);
    StepsRead(EMPTY, PartLines(ps), body);
  }

  // ----- exactly what comes back -----------------------------------------------------------------

  ghost predicate AllTabbed(folds: seq<string>) {
    forall j :: 0 <= j < |folds| ==> Tabbed(folds[j])
  }

  /** A field that is read as it was sent. */
  ghost predicate Good(p: Part) {
    && |p.name| < 128 && p.text != "" && IsBlank(p.text[0])
    && p.text[|p.text| - 1] != '\r' && AllTabbed(p.folds)
    && |p.text| + |AllText(p.folds)| <= 2048
  }

  /**
   * No name is repeated, the table holds all fields, one blank stands behind every colon, every line
   * that continues a field starts with a tab, no field's line ends in a CR and the arrays are large enough.
   */
  ghost predicate Intact(ps: seq<Part>) {
    DistinctNames(Sent(ps)) && |ps| <= 64 && forall i :: 0 <= i < |ps| ==> Good(ps[i])
  }

  /** The text of the lines that start with a tab. */
  function TabText(folds: seq<string>): (t: string)
    ensures |t| <= |AllText(folds)|
  {
    if folds == [] then "" else (if Tabbed(folds[0]) then folds[0] else "") + TabText(folds[1..])
  }

  lemma {:induction false} TabsOnly(folds: seq<string>)
    requires forall j :: 0 <= j < |folds| ==> FoldShape(folds[j])
    ensures |TabText(folds)| == |AllText(folds)| ==> AllTabbed(folds)
  {
    if folds != [] {
      TabsOnly(folds[1..]);
    }
  }

  lemma {:induction false} TabsRead(f: Field, folds: seq<string>)
    requires AllTabbed(folds)
    ensures Units(f, folds) == [f.(value := f.value + AllText(folds))]
    decreases |folds|
  {
    if folds == [] {
      assert f.value + "" == f.value;
    } else {
      var t, more := folds[0], folds[1..];
      TabsRead(f.(value := f.value + t), more);
      assert f.value + t + AllText(more) == f.value + (t + AllText(more));
    }
  }

  lemma SentCons(ps: seq<Part>)
    requires ps != []
    ensures Sent(ps) == [Sent(ps)[0]] + Sent(ps[1..])
  {
  }

  lemma {:induction false} GoodRead(ps: seq<Part>)
    requires Shapes(ps) && forall i :: 0 <= i < |ps| ==> Good(ps[i])
    ensures AllFit(ps) && Read(ps) == Sent(ps)
  {
    hide Good, Shape, Fit, Sent;
    if ps != [] {
      GoodRead(ps[1..]);
      GoodPart(ps[0]);
      SentCons(ps);
    }
  }

  lemma GoodPart(p: Part)
    requires Shape(p) && Good(p)
    ensures Fit(p) && Units(OpeningField(p), p.folds) == [Field(p.name, SentValue(p.text) + AllText(p.folds))]
  {
    assert Chomp(p.text[1..]) == p.text[1..];
    hide Chomp;
    TabsRead(OpeningField(p), p.folds);
  }
}
