/** A header is read as it was sent exactly when it is intact. */
module HeaderExact {
  import opened CStrings
  import opened Buffer
  import opened Header
  import opened HeaderFields
  import opened HeaderLines

  // ----- nothing else comes back -----------------------------------------------------------------

  predicate BlankName(name: string) {
    name != "" && IsBlank(name[0])
  }

  /** A sender's field: a line that starts with a blank continues the field before it. */
  predicate Proper(p: Part) {
    Shape(p) && !BlankName(p.name)
  }

  predicate Headed(ps: seq<Part>) {
    forall i :: 0 <= i < |ps| ==> Proper(ps[i])
  }

  ghost predicate NoBlankName(fs: seq<Field>) {
    forall i :: 0 <= i < |fs| ==> !BlankName(fs[i].name)
  }

  ghost predicate TableOk(fs: seq<Field>) {
    DistinctNames(fs) && |fs| <= MAX_HEADERS
  }

  ghost predicate NamesKept(xs: seq<Field>, ys: seq<Field>) {
    |xs| <= |ys| && forall i :: 0 <= i < |xs| ==> xs[i].name == ys[i].name
  }

  lemma SetKeepsTable(fs: seq<Field>, name: string, value: string)
    requires TableOk(fs)
    ensures var r := SetField(fs, name, value);
            r.Some? ==> TableOk(r.value.0) && NamesKept(fs, r.value.0)
  {
  }

  lemma StepKeepsTable(p: Parsed, line: string)
    requires TableOk(p.fields)
    ensures var r := AfterLine(p, line);
            r.Some? ==> TableOk(r.value.fields) && NamesKept(p.fields, r.value.fields)
  {
    hide SetField;
    var k := IndexOf(line, ':');
    if k + 1 < |line| {
      SetKeepsTable(p.fields, line[..k], line[k + 2..]);
    }
  }

  lemma {:induction false} StepsKeepTable(p: Parsed, lines: seq<string>)
    requires TableOk(p.fields)
    ensures var r := Steps(p, lines);
            r.Some? ==> TableOk(r.value.fields) && NamesKept(p.fields, r.value.fields)
    decreases |lines|
  {
    hide AfterLine, TableOk;
    if lines != [] {
      StepKeepsTable(p, lines[0]);
      if AfterLine(p, lines[0]).Some? {
        StepsKeepTable(AfterLine(p, lines[0]).value, lines[1..]);
      }
    }
  }

  /** A line that does not set a field of base. */
  ghost predicate Passes(base: seq<Field>, line: string) {
    Tabbed(line) || ':' !in line || FindField(base, line[..IndexOf(line, ':')]) == |base|
  }

  /** The current field is none of the first n. */
  predicate Behind(p: Parsed, n: nat) {
    p.index < 0 || p.index >= n
  }

  lemma FindInPrefix(base: seq<Field>, fs: seq<Field>, name: string)
    requires base <= fs && FindField(base, name) == |base|
    ensures FindField(fs, name) >= |base|
  {
    hide FindField;
    forall j | 0 <= j < |base| ensures fs[j].name != name {
      assert fs[j] == base[j];
    }
  }

  lemma StepPasses(base: seq<Field>, p: Parsed, line: string)
    requires base <= p.fields && Passes(base, line) && (Behind(p, |base|) || (!Tabbed(line) && ':' in line))
    ensures var r := AfterLine(p, line);
            r.Some? ==> base <= r.value.fields && Behind(r.value, |base|)
  {
    hide FindField;
    var k := IndexOf(line, ':');
    if !Tabbed(line) && k + 1 < |line| {
      FindInPrefix(base, p.fields, line[..k]);
    }
    if ':' !in line {
      IndexOfUnique(line, ':', |line|);
    }
  }

  lemma {:induction false} StepsPass(base: seq<Field>, p: Parsed, lines: seq<string>)
    requires base <= p.fields && Behind(p, |base|)
    requires forall i :: 0 <= i < |lines| ==> Passes(base, lines[i])
    ensures var r := Steps(p, lines); r.Some? ==> base <= r.value.fields
    decreases |lines|
  {
    hide AfterLine, Passes;
    if lines != [] {
      StepPasses(base, p, lines[0]);
      if AfterLine(p, lines[0]).Some? {
        StepsPass(base, AfterLine(p, lines[0]).value, lines[1..]);
      }
    }
  }

  /** The lines of parts with other names pass, when no name of base starts with a blank. */
  lemma {:induction false} PartsPass(base: seq<Field>, ps: seq<Part>)
    requires Headed(ps) && NoBlankName(base)
    requires forall i :: 0 <= i < |ps| ==> FindField(base, ps[i].name) == |base|
    ensures forall i :: 0 <= i < |PartLines(ps)| ==> Passes(base, PartLines(ps)[i])
    decreases |ps|
  {
    hide Passes, NameShape, FoldShape, FindField;
    if ps != [] {
      var x := ps[0];
      assert Proper(x);
      PartsPass(base, ps[1..]);
      FieldPasses(base, x);
      forall i | 0 <= i < |x.folds| ensures Passes(base, x.folds[i]) {
        FoldPasses(base, x.folds[i]);
      }
    }
  }

  lemma FieldPasses(base: seq<Field>, p: Part)
    requires NameShape(p.name) && FindField(base, p.name) == |base|
    ensures Passes(base, FieldLine(p)) && !Tabbed(FieldLine(p)) && ':' in FieldLine(p)
  {
    hide FindField, IndexOf;
    FieldLineCut(p);
    assert FieldLine(p)[|p.name|] == ':';
  }

  lemma FoldPasses(base: seq<Field>, t: string)
    requires FoldShape(t) && NoBlankName(base)
    ensures Passes(base, t)
  {
    hide FindField, IndexOf;
    if !Tabbed(t) && ':' in t {
      AfterFold(EMPTY, t);
      var name := t[..IndexOf(t, ':')];
      assert BlankName(name);
      assert forall j :: 0 <= j < |base| ==> base[j].name != name;
    }
  }

  /** While the lines of one part are read, its field is the last one without a blank name. */
  ghost predicate Growing(p: Parsed, base: seq<Field>, name: string, length: nat) {
    var n := |base|;
    && n < |p.fields| && p.fields[..n] == base && p.fields[n].name == name && Behind(p, n)
    && |p.fields[n].value| <= length && |p.fields[n].value| < MAX_VALUE
    && forall j :: n < j < |p.fields| ==> BlankName(p.fields[j].name)
  }

  lemma FoldGrows(p: Parsed, base: seq<Field>, name: string, length: nat, t: string)
    requires Growing(p, base, name, length) && NoBlankName(base) && !BlankName(name) && FoldShape(t)
    ensures var r := AfterLine(p, t);
            r.Some? ==> Growing(r.value, base, name, length + if Tabbed(t) then |t| else 0)
  {
    hide FindField, SetField, IndexOf;
    AfterFold(p, t);
    if !Tabbed(t) && ':' in t && AfterLine(p, t).Some? {
      var k := IndexOf(t, ':');
      OwnGrows(p, base, name, length, t[..k], t[k + 2..]);
    }
  }

  lemma OwnGrows(p: Parsed, base: seq<Field>, name: string, length: nat, own: string, value: string)
    requires Growing(p, base, name, length) && NoBlankName(base) && !BlankName(name) && BlankName(own)
    ensures var r := SetField(p.fields, own, value);
            r.Some? ==> Growing(p.(fields := r.value.0, index := r.value.1), base, name, length)
  {
    hide FindField;
    var i := FindField(p.fields, own);
    assert i < |p.fields| ==> p.fields[i].name == own;
    assert forall j :: 0 <= j < |base| ==> p.fields[j] == base[j];
    assert i > |base|;
  }

  lemma {:induction false} FoldsGrow(p: Parsed, base: seq<Field>, name: string, length: nat, folds: seq<string>)
    requires Growing(p, base, name, length) && NoBlankName(base) && !BlankName(name)
    requires forall i :: 0 <= i < |folds| ==> FoldShape(folds[i])
    ensures var r := Steps(p, folds);
            r.Some? ==> Growing(r.value, base, name, length + |TabText(folds)|)
    decreases |folds|
  {
    hide AfterLine, FoldShape, Growing;
    if folds != [] {
      var t := folds[0];
      FoldGrows(p, base, name, length, t);
      if AfterLine(p, t).Some? {
        FoldsGrow(AfterLine(p, t).value, base, name, length + if Tabbed(t) then |t| else 0, folds[1..]);
      }
    }
  }

  lemma NameAbsent(base: seq<Field>, more: seq<Field>, i: nat)
    requires DistinctNames(base + more) && i < |more|
    ensures FindField(base, more[i].name) == |base|
  {
    forall j | 0 <= j < |base| ensures base[j].name != more[i].name {
      assert (base + more)[j] == base[j] && (base + more)[|base| + i] == more[i];
    }
  }

  /** The first line of a part appends its field, when the name is new and there is room. */
  lemma FieldAppends(p: Parsed, x: Part)
    requires NameShape(x.name) && FindField(p.fields, x.name) == |p.fields| < MAX_HEADERS
    ensures var r := AfterLine(p, FieldLine(x));
            r.Some? ==>
              && x.text != "" && |x.name| < MAX_NAME
              && Growing(r.value, p.fields, x.name, |Chomp(x.text[1..])|) && |r.value.fields| == |p.fields| + 1
  {
    hide FindField;
    AfterField(p, x);
  }

  /** The lines behind a part do not touch its field. */
  lemma RestPasses(p: Parsed, base: seq<Field>, ps: seq<Part>)
    requires Headed(ps) && NoBlankName(base) && base <= p.fields
    requires forall i :: 0 <= i < |ps| ==> FindField(base, ps[i].name) == |base|
    ensures var r := Steps(p, PartLines(ps)); r.Some? ==> base <= r.value.fields
  {
    hide AfterLine, Passes, FindField, NameShape, FoldShape;
    if ps != [] {
      PartsPass(base, ps);
      var x, lines := ps[0], PartLines(ps);
      assert Proper(x);
      FieldPasses(base, x);
      assert lines[0] == FieldLine(x);
      StepPasses(base, p, lines[0]);
      if AfterLine(p, lines[0]).Some? {
        StepsPass(base, AfterLine(p, lines[0]).value, lines[1..]);
      }
    }
  }

  /** The steps of a header are those of its first part and then those of the others. */
  lemma FirstSteps(p: Parsed, ps: seq<Part>) returns (p0: Parsed, p1: Parsed)
    requires ps != [] && Steps(p, PartLines(ps)).Some?
    ensures AfterLine(p, FieldLine(ps[0])) == Some(p0) && Steps(p0, ps[0].folds) == Some(p1)
    ensures Steps(p1, PartLines(ps[1..])) == Steps(p, PartLines(ps))
  {
    hide AfterLine, Steps;
    var x, rest := ps[0], PartLines(ps[1..]);
    assert PartLines(ps) == [FieldLine(x)] + (x.folds + rest);
    StepsCons(p, FieldLine(x), x.folds + rest);
    p0 := AfterLine(p, FieldLine(x)).value;
    StepsConcat(p0, x.folds, rest);
    p1 := Steps(p0, x.folds).value;
  }

  function Room(x: Part): nat
    requires x.text != ""
  {
    |Chomp(x.text[1..])| + |TabText(x.folds)|
  }

  /** Its own lines leave a part's field with no more text than they have. */
  lemma FirstGrown(p: Parsed, x: Part, p0: Parsed, p1: Parsed)
    requires Proper(x) && NoBlankName(p.fields) && FindField(p.fields, x.name) == |p.fields| < MAX_HEADERS
    requires AfterLine(p, FieldLine(x)) == Some(p0) && Steps(p0, x.folds) == Some(p1)
    ensures x.text != "" && |x.name| < MAX_NAME && Growing(p1, p.fields, x.name, Room(x))
  {
    hide AfterLine, FindField, FoldShape, Growing, BlankName, NameShape, Steps;
    FieldAppends(p, x);
    NotBlank(x);
    FoldsGrow(p0, p.fields, x.name, |Chomp(x.text[1..])|, x.folds);
  }

  /** Reading one part's lines, then the others', when the outcome is what was sent. */
  lemma FirstGood(p: Parsed, ps: seq<Part>, q: Parsed) returns (p1: Parsed)
    requires ps != [] && Headed(ps) && TableOk(p.fields) && NoBlankName(p.fields)
    requires Steps(p, PartLines(ps)) == Some(q) && q.fields == p.fields + Sent(ps)
    ensures Good(ps[0]) && p1.fields == p.fields + [Sent(ps)[0]] && Steps(p1, PartLines(ps[1..])) == Some(q)
  {
    hide AfterLine, FindField, Proper, Growing, TableOk, NoBlankName, Steps, PartLines, Good, NamesKept;
    var p0;
    p0, p1 := FirstSteps(p, ps);
    StepsKeepTable(p, PartLines(ps));
    TableDistinct(q.fields);
    NameAbsent(p.fields, Sent(ps), 0);
    FirstGrown(p, ps[0], p0, p1);
    PartsKeepNames(p, p0, p1, ps, q);
    OnlyOne(p1, p.fields, ps[0].name, Room(ps[0]), ps, q);
    FirstKept(p, ps, p1, q);
  }

  lemma FirstKept(p: Parsed, ps: seq<Part>, p1: Parsed, q: Parsed)
    requires ps != [] && Headed(ps) && NoBlankName(p.fields) && DistinctNames(q.fields)
    requires Steps(p1, PartLines(ps[1..])) == Some(q) && q.fields == p.fields + Sent(ps)
    requires ps[0].text != "" && |ps[0].name| < MAX_NAME && Growing(p1, p.fields, ps[0].name, Room(ps[0]))
    requires |p1.fields| == |p.fields| + 1
    ensures Good(ps[0]) && p1.fields == p.fields + [Sent(ps)[0]]
  {
    hide FindField, Proper, NoBlankName, Steps, PartLines, Good, Growing, DistinctNames, Room;
    var g := LastGrown(p1, p.fields, ps[0].name, Room(ps[0]));
    var base, n := p.fields + [g], |p.fields|;
    OthersAbsent(p.fields, ps, g);
    RestPasses(p1, base, ps[1..]);
    assert base[n] == g && q.fields[n] == g;
    GoodByLength(ps[0], g);
  }

  lemma TableDistinct(fs: seq<Field>)
    requires TableOk(fs)
    ensures DistinctNames(fs) && |fs| <= MAX_HEADERS
  {
  }

  lemma NotBlank(p: Part)
    requires Proper(p)
    ensures !BlankName(p.name)
  {
  }

  lemma LastGrown(p: Parsed, base: seq<Field>, name: string, length: nat) returns (g: Field)
    requires Growing(p, base, name, length)
    ensures |base| < |p.fields| && g == p.fields[|base|] && base + [g] <= p.fields
    ensures g.name == name && |g.value| <= length && |g.value| < MAX_VALUE
  {
    g := p.fields[|base|];
    assert p.fields[..|base| + 1] == base + [g];
  }

  lemma {:induction false} OthersAbsent(base: seq<Field>, ps: seq<Part>, g: Field)
    requires ps != [] && Headed(ps) && NoBlankName(base) && DistinctNames(base + Sent(ps)) && g.name == ps[0].name
    ensures NoBlankName(base + [g])
    ensures forall i :: 0 <= i < |ps| - 1 ==> FindField(base + [g], ps[1..][i].name) == |base| + 1
  {
    hide FindField, NameShape, FoldShape;
    assert Proper(ps[0]);
    NotBlank(ps[0]);
    var all := base + Sent(ps);
    forall i | 0 <= i < |ps| - 1 ensures FindField(base + [g], ps[1..][i].name) == |base| + 1 {
      var name := ps[1..][i].name;
      assert all[|base| + 1 + i].name == name && all[|base|].name == g.name;
      forall j | 0 <= j < |base| + 1 ensures (base + [g])[j].name != name {
        assert j < |base| ==> (base + [g])[j] == all[j];
      }
    }
  }

  lemma PartsKeepNames(p: Parsed, p0: Parsed, p1: Parsed, ps: seq<Part>, q: Parsed)
    requires ps != [] && TableOk(p.fields) && AfterLine(p, FieldLine(ps[0])) == Some(p0)
    requires Steps(p0, ps[0].folds) == Some(p1) && Steps(p1, PartLines(ps[1..])) == Some(q)
    ensures NamesKept(p1.fields, q.fields)
  {
    hide AfterLine, TableOk, Steps;
    StepKeepsTable(p, FieldLine(ps[0]));
    StepsKeepTable(p0, ps[0].folds);
    StepsKeepTable(p1, PartLines(ps[1..]));
  }

  lemma OnlyOne(p1: Parsed, base: seq<Field>, name: string, length: nat, ps: seq<Part>, q: Parsed)
    requires Growing(p1, base, name, length) && NamesKept(p1.fields, q.fields)
    requires Headed(ps) && ps != [] && q.fields == base + Sent(ps)
    ensures |p1.fields| == |base| + 1 && p1.fields == base + [p1.fields[|base|]]
  {
    hide NameShape, FoldShape;
    var n := |base|;
    assert |p1.fields| > n + 1 ==> BlankName(p1.fields[n + 1].name);
    forall j | n <= j < |q.fields| ensures !BlankName(q.fields[j].name) {
      assert Proper(ps[j - n]);
      NotBlank(ps[j - n]);
    }
  }

  /** A value as long as the one sent has lost nothing. */
  lemma GoodByLength(x: Part, g: Field)
    requires Proper(x) && x.text != "" && |x.name| < MAX_NAME && |g.value| < MAX_VALUE
    requires |g.value| <= Room(x)
    requires g == Field(x.name, SentValue(x.text) + AllText(x.folds))
    ensures Good(x)
  {
    TabsOnly(x.folds);
  }

  lemma {:induction false} OnlyGood(p: Parsed, ps: seq<Part>, q: Parsed)
    requires Headed(ps) && TableOk(p.fields) && NoBlankName(p.fields)
    requires Steps(p, PartLines(ps)) == Some(q) && q.fields == p.fields + Sent(ps)
    ensures TableOk(q.fields) && forall i :: 0 <= i < |ps| ==> Good(ps[i])
    decreases |ps|
  {
    hide Good, AfterLine, Steps, NameShape, FoldShape, PartLines, TableOk, Sent, BlankName;
    StepsKeepTable(p, PartLines(ps));
    if ps != [] {
      var p1 := FirstGood(p, ps, q);
      SentCons(ps);
      SentPrefix(p, ps, p1, q);
      OnlyGood(p1, ps[1..], q);
    }
  }

  lemma SentPrefix(p: Parsed, ps: seq<Part>, p1: Parsed, q: Parsed)
    requires ps != [] && Headed(ps) && TableOk(q.fields) && NoBlankName(p.fields)
    requires q.fields == p.fields + Sent(ps) && p1.fields == p.fields + [Sent(ps)[0]]
    ensures q.fields == p1.fields + Sent(ps[1..]) && TableOk(p1.fields) && NoBlankName(p1.fields)
  {
    hide Proper, TableOk, NoBlankName, Sent;
    var more := Sent(ps[1..]);
    SentCons(ps);
    SeqAssoc(p.fields, [Sent(ps)[0]], more);
    assert q.fields == p1.fields + more;
    PrefixTable(p1.fields, q.fields);
    assert Proper(ps[0]);
    NotBlank(ps[0]);
    OneMore(p.fields, Sent(ps)[0]);
  }

  lemma OneMore(fs: seq<Field>, g: Field)
    requires NoBlankName(fs) && !BlankName(g.name)
    ensures NoBlankName(fs + [g])
  {
    hide BlankName;
  }

  lemma PrefixTable(xs: seq<Field>, ys: seq<Field>)
    requires xs <= ys && TableOk(ys)
    ensures TableOk(xs)
  {
  }

  /** A header is read as it was sent exactly when it is intact. */
  lemma KeptExactly(ps: seq<Part>, body: seq<string>)
    requires Headed(ps)
    ensures var r := ReadLines(EMPTY, PartLines(ps) + ([""] + body));
            r.Some? && r.value.fields == Sent(ps) <==> Intact(ps)
  {
    hide Good, Shape, Steps, PartLines, ReadLines, MergeFrom;
    NoneEnds(ps);
    StepsRead(EMPTY, PartLines(ps), body);
    if Intact(ps) {
      GoodRead(ps);
      MergedSame(Sent(ps));
      MailRead(ps, body);
    }
    var r := Steps(EMPTY, PartLines(ps));
    if r.Some? && r.value.fields == Sent(ps) {
      assert [] + Sent(ps) == Sent(ps);
      OnlyGood(EMPTY, ps, r.value);
    }
  }

  // ----- the names that come back ----------------------------------------------------------------

  ghost predicate KnownName(base: seq<Field>, name: string) {
    BlankName(name) || FindField(base, name) < |base|
  }

  ghost predicate KnownNames(base: seq<Field>, fs: seq<Field>) {
    forall i :: 0 <= i < |fs| ==> KnownName(base, fs[i].name)
  }

  /** A line that brings no name but those of base and blank ones. */
  ghost predicate Knows(base: seq<Field>, line: string) {
    Tabbed(line) || ':' !in line || KnownName(base, line[..IndexOf(line, ':')])
  }

  lemma StepKnown(base: seq<Field>, p: Parsed, line: string)
    requires KnownNames(base, p.fields) && Knows(base, line)
    ensures var r := AfterLine(p, line); r.Some? ==> KnownNames(base, r.value.fields)
  {
    hide FindField, KnownName, IndexOf;
    if ':' !in line {
      IndexOfUnique(line, ':', |line|);
    }
  }

  lemma {:induction false} StepsKnown(base: seq<Field>, p: Parsed, lines: seq<string>)
    requires KnownNames(base, p.fields) && forall i :: 0 <= i < |lines| ==> Knows(base, lines[i])
    ensures var r := Steps(p, lines); r.Some? ==> KnownNames(base, r.value.fields)
    decreases |lines|
  {
    hide AfterLine, Knows, KnownNames;
    if lines != [] {
      StepKnown(base, p, lines[0]);
      if AfterLine(p, lines[0]).Some? {
        StepsKnown(base, AfterLine(p, lines[0]).value, lines[1..]);
      }
    }
  }

  lemma FieldKnown(base: seq<Field>, p: Part)
    requires NameShape(p.name) && KnownName(base, p.name)
    ensures Knows(base, FieldLine(p))
  {
    hide FindField, IndexOf, KnownName;
    FieldLineCut(p);
  }

  lemma FoldKnown(base: seq<Field>, t: string)
    requires FoldShape(t)
    ensures Knows(base, t)
  {
    hide FindField, IndexOf;
    if !Tabbed(t) && ':' in t {
      AfterFold(EMPTY, t);
      assert BlankName(t[..IndexOf(t, ':')]);
    }
  }

  lemma {:induction false} PartsKnown(base: seq<Field>, ps: seq<Part>)
    requires Headed(ps) && forall i :: 0 <= i < |ps| ==> KnownName(base, ps[i].name)
    ensures forall i :: 0 <= i < |PartLines(ps)| ==> Knows(base, PartLines(ps)[i])
    decreases |ps|
  {
    hide Knows, NameShape, FoldShape, FindField, KnownName;
    if ps != [] {
      var x := ps[0];
      assert Proper(x);
      PartsKnown(base, ps[1..]);
      FieldKnown(base, x);
      forall i | 0 <= i < |x.folds| ensures Knows(base, x.folds[i]) {
        FoldKnown(base, x.folds[i]);
      }
    }
  }

  /** Reading brings no name that was not sent, but for names that start with a blank. */
  lemma NamesKnown(ps: seq<Part>)
    requires Headed(ps)
    ensures var r := Steps(EMPTY, PartLines(ps)); r.Some? ==> KnownNames(Sent(ps), r.value.fields)
  {
    hide FindField, Proper, Steps, PartLines, Knows;
    forall i | 0 <= i < |ps| ensures KnownName(Sent(ps), ps[i].name) {
      assert Sent(ps)[i].name == ps[i].name;
    }
    PartsKnown(Sent(ps), ps);
    StepsKnown(Sent(ps), EMPTY, PartLines(ps));
  }

  ghost predicate Found(fs: seq<Field>, name: string) {
    FindField(fs, name) < |fs|
  }

  lemma FoundKept(fs: seq<Field>, gs: seq<Field>, name: string)
    requires NamesKept(fs, gs) && Found(fs, name)
    ensures Found(gs, name)
  {
    hide FindField;
    assert gs[FindField(fs, name)].name == name;
  }

  lemma FieldFound(p: Parsed, x: Part)
    requires NameShape(x.name)
    ensures var r := AfterLine(p, FieldLine(x));
            r.Some? && |r.value.fields| < MAX_HEADERS ==> Found(r.value.fields, x.name)
  {
    hide FindField, AfterLine;
    AfterField(p, x);
    var r := AfterLine(p, FieldLine(x));
    if r.Some? && |r.value.fields| < MAX_HEADERS {
      assert 0 <= r.value.index < |r.value.fields| && r.value.fields[r.value.index].name == x.name;
    }
  }

  /** Every name that was sent is found until the table is full. */
  lemma {:induction false} AllFound(p: Parsed, ps: seq<Part>)
    requires Headed(ps) && TableOk(p.fields)
    ensures var r := Steps(p, PartLines(ps));
            r.Some? && |r.value.fields| < MAX_HEADERS ==>
              forall i :: 0 <= i < |ps| ==> Found(r.value.fields, ps[i].name)
    decreases |ps|
  {
    hide AfterLine, TableOk, Steps, Found, NameShape, FoldShape, PartLines, BlankName;
    if ps != [] && Steps(p, PartLines(ps)).Some? {
      var q := Steps(p, PartLines(ps)).value;
      var p0, p1 := FirstSteps(p, ps);
      assert Proper(ps[0]);
      FieldFound(p, ps[0]);
      StepKeepsTable(p, FieldLine(ps[0]));
      StepsKeepTable(p0, ps[0].folds);
      StepsKeepTable(p1, PartLines(ps[1..]));
      AllFound(p1, ps[1..]);
      if |q.fields| < MAX_HEADERS {
        FoundKept(p0.fields, q.fields, ps[0].name);
      }
    }
  }

  // ----- what is lost ----------------------------------------------------------------------------

  /** A header of one field whose lines fit is read as the units of that field. */
  lemma OnePart(p: Part, body: seq<string>)
    requires Shape(p) && Fit(p) && |Merged(Units(OpeningField(p), p.folds))| <= MAX_HEADERS
    ensures var r := ReadLines(EMPTY, [FieldLine(p)] + p.folds + ([""] + body));
            r.Some? && r.value.fields == Merged(Units(OpeningField(p), p.folds))
  {
    hide Shape, Fit, ReadLines, MergeFrom, Units;
    assert [p][1..] == [] && [FieldLine(p)] + p.folds + [] == [FieldLine(p)] + p.folds;
    var us := Units(OpeningField(p), p.folds);
    assert us + [] == us;
    MailRead([p], body);
  }

  /** A field without a blank behind its colon loses the first character of its value. */
  lemma SubjectCut(body: seq<string>)
    ensures var r := ReadLines(EMPTY, ["Subject:hello"] + ([""] + body));
            r.Some? && r.value.fields == [Field("Subject", "ello")]
  {
    hide ReadLines;
    var p := Part("Subject", "hello", []);
    assert FieldLine(p) == "Subject:hello" && ["Subject:hello"] + [] == ["Subject:hello"];
    assert [OpeningField(p)][1..] == [];
    OnePart(p, body);
  }

  /** A line that continues a field with a blank and has no colon is lost, wherever it stands in the header. */
  lemma BlankFoldLost(p: Parsed, xs: seq<string>, t: string, rest: seq<string>)
    requires InHeader(xs) && FoldShape(t) && !Tabbed(t) && ':' !in t
    ensures ReadLines(p, xs + ([t] + rest)) == ReadLines(p, xs + rest)
  {
    hide Steps, AfterLine;
    StepsThen(p, xs, [t] + rest);
    StepsThen(p, xs, rest);
    var r := Steps(p, xs);
    if r.Some? {
      AfterFold(r.value, t);
      assert ([t] + rest)[1..] == rest;
    }
  }

  /** One that has a colon becomes a field of its own, wherever it stands, if the table has room for it. */
  lemma BlankFoldIsField(p: Parsed, xs: seq<string>, name: string, skipped: char, value: string, rest: seq<string>)
    requires InHeader(xs) && Steps(p, xs).Some?
    requires OneLine(name) && ':' !in name && BlankName(name) && !Tabbed(name) && |name| < MAX_NAME
    requires OneLine([skipped] + value) && |value| < MAX_VALUE
    requires |Merge(Steps(p, xs).value.fields, Field(name, Chomp(value)))| <= MAX_HEADERS
    ensures var q, f := Steps(p, xs).value, Field(name, Chomp(value));
            ReadLines(p, xs + ([name + ":" + [skipped] + value] + rest))
            == ReadLines(q.(fields := Merge(q.fields, f), index := FindField(q.fields, name)), rest)
  {
    hide Steps, AfterLine, Merge, FindField, SetField, Chomp, OneLine;
    var t, q := name + ":" + [skipped] + value, Steps(p, xs).value;
    StepsThen(p, xs, [t] + rest);
    ColonCut(name, skipped, value);
    AfterFold(q, t);
    FieldSet(q.fields, name, value);
    assert ([t] + rest)[1..] == rest;
  }

  lemma ColonCut(name: string, skipped: char, value: string)
    requires OneLine(name) && ':' !in name && BlankName(name) && !Tabbed(name) && OneLine([skipped] + value)
    ensures var t, k := name + ":" + [skipped] + value, |name|;
            && IndexOf(t, ':') == k && t[..k] == name && |t| == k + 2 + |value| && t[k + 2..] == value
            && FoldShape(t) && !Tabbed(t) && ':' in t
  {
    var t, k := name + ":" + [skipped] + value, |name|;
    IndexOfUnique(t, ':', k);
    assert t[..k] == name && t[k + 2..] == value && t[0] == name[0];
    assert t == name + ":" + ([skipped] + value);
  }

  /** The time of a trace field behind a blank, for one. */
  lemma BlankFoldWithColon(body: seq<string>)
    ensures var r := ReadLines(EMPTY, ["Received: x"] + ([" at 10:20"] + ([""] + body)));
            r.Some? && r.value.fields == [Field("Received", "x"), Field(" at 10", "0")]
  {
    hide ReadLines, FindField, Steps, Merge;
    var p, f, g := Part("Received", " x", []), Field("Received", "x"), Field(" at 10", "0");
    assert FieldLine(p) == "Received: x" && OpeningField(p) == f;
    FirstField(p);
    MergeNew(f, g);
    assert " at 10" + ":" + ['2'] + "0" == " at 10:20";
    BlankFoldIsField(EMPTY, ["Received: x"], " at 10", '2', "0", [""] + body);
    HeaderOver(Parsed([f, g], 1, "", ""), body);
  }

  lemma FirstField(x: Part)
    requires NameShape(x.name) && x.text != "" && |x.name| < MAX_NAME && |x.text| <= MAX_VALUE
    ensures InHeader([FieldLine(x)])
    ensures Steps(EMPTY, [FieldLine(x)]) == Some(Parsed([OpeningField(x)], 0, "", ""))
  {
    hide AfterLine;
    AfterField(EMPTY, x);
    assert [FieldLine(x)] + [] == [FieldLine(x)] && [] + [OpeningField(x)] == [OpeningField(x)];
    StepsCons(EMPTY, FieldLine(x), []);
  }

  lemma MergeNew(f: Field, g: Field)
    requires f.name != g.name
    ensures Merge([f], g) == [f, g] && FindField([f], g.name) == 1
  {
    FindIsFirst([f], g.name, 1);
  }

  lemma HeaderOver(q: Parsed, body: seq<string>)
    requires q.body == ""
    ensures ReadLines(q, [""] + body) == Some(q.(body := JoinLines(body)))
  {
    hide ReadLines;
    assert [] + ([""] + body) == [""] + body;
    StepsRead(q, [], body);
  }

  /** Of two trace fields only the later value is left. */
  lemma ReceivedLost(body: seq<string>)
    ensures var r := ReadLines(EMPTY, ["Received: a", "Received: b"] + ([""] + body));
            r.Some? && r.value.fields == [Field("Received", "b")]
  {
    hide ReadLines, Units, MergeFrom, FindField;
    var p, q := Part("Received", " a", []), Part("Received", " b", []);
    var f, g := Field("Received", "a"), Field("Received", "b");
    assert FieldLine(p) == "Received: a" && FieldLine(q) == "Received: b";
    NoFolds(f);
    NoFolds(g);
    PlainTwo(p, q, f, g);
    MergeTwice(f, g);
    MailRead([p, q], body);
  }

  lemma NoFolds(f: Field)
    ensures Units(f, []) == [f]
  {
  }

  lemma PlainTwo(p: Part, q: Part, f: Field, g: Field)
    requires OpeningField(p) == f && OpeningField(q) == g && p.folds == q.folds == []
    ensures PartLines([p, q]) == [FieldLine(p), FieldLine(q)] && Read([p, q]) == [f] + [g]
  {
    hide FieldLine, OpeningField;
    assert [p, q][1..] == [q] && [q][1..] == [];
    assert PartLines([q]) == [FieldLine(q)] && Read([q]) == [g];
  }

  lemma MergeTwice(f: Field, g: Field)
    requires f.name == g.name
    ensures Merged([f] + [g]) == [g]
  {
    FindIsFirst([f], g.name, 0);
    assert Merge([], f) == [f] && Merge([f], g) == [g];
    assert MergeFrom([f], [g]) == MergeFrom([g], []);
    assert ([f] + [g])[0] == f && ([f] + [g])[1..] == [g];
  }

  /** A field with a new name is lost when the table is full, and so is the memory behind it if it is continued. */
  lemma TableFull(p: Parsed, part: Part, t: string)
    requires NameShape(part.name) && part.text != "" && |p.fields| == MAX_HEADERS == FindField(p.fields, part.name)
    ensures AfterLine(p, FieldLine(part)) == Some(p.(index := -1))
    ensures Tabbed(t) ==> AfterLine(p.(index := -1), t) == None
  {
    AfterField(p, part);
    FieldFull(p.fields, part.name, part.text[1..]);
  }

  lemma FieldFull(gs: seq<Field>, name: string, value: string)
    requires |gs| == MAX_HEADERS == FindField(gs, name)
    ensures SetField(gs, name, value) == Some((gs, -1))
  {
  }

  /** A line that starts with a colon ends the header, and sets a field without a name first. */
  lemma ColonEndsHeader(p: Parsed, t: string, rest: seq<string>)
    ensures ReadLines(p, [":" + t] + rest) ==
            if t == "" then None
            else
              match SetField(p.fields, "", t[1..])
              case None => None
              case Some((fs, i)) => Some(p.(fields := fs, index := i, body := p.body + JoinLines(rest)))
  {
    hide SetField, JoinLines;
    var line := ":" + t;
    IndexOfUnique(line, ':', 0);
    assert line[..0] == "" && (t != "" ==> line[2..] == t[1..]);
    assert ([line] + rest)[1..] == rest;
  }

  /** A tab line before the first field adds no field. */
  lemma TabFirst(t: string)
    requires Tabbed(t) && |t| < 2048
    ensures AfterLine(EMPTY, t) == Some(EMPTY.(scratch := t))
  {
    assert "" + t == t;
  }

  // ----- round trip ------------------------------------------------------------------------------

  function Plainly(fs: seq<Field>): (ps: seq<Part>)
    ensures |ps| == |fs| && forall i :: 0 <= i < |fs| ==> ps[i] == Part(fs[i].name, " " + fs[i].value, [])
  {
    seq(|fs|, i requires 0 <= i < |fs| => Part(fs[i].name, " " + fs[i].value, []))
  }

  lemma {:induction false} FieldsTextLines(fs: seq<Field>, tail: string)
    requires forall i :: 0 <= i < |fs| ==> FieldOk(fs[i])
    ensures Lines(FieldsText(fs) + tail) == PartLines(Plainly(fs)) + Lines(tail)
    decreases |fs|
  {
    hide Lines, FieldOk, OneLine, FieldsText, PartLines, Plainly;
    if fs == [] {
      NoFields(tail);
    } else {
      var f, rest := fs[0], FieldsText(fs[1..]) + tail;
      var line := f.name + ": " + f.value;
      FieldsCons(fs, tail);
      FieldIsLine(f);
      FieldsTextLines(fs[1..], tail);
      LineFirst(line, rest);
      SeqAssoc([line], PartLines(Plainly(fs[1..])), Lines(tail));
    }
  }

  lemma NoFields(tail: string)
    ensures FieldsText([]) + tail == tail && PartLines(Plainly([])) + Lines(tail) == Lines(tail)
  {
  }

  lemma FieldsCons(fs: seq<Field>, tail: string)
    requires fs != []
    ensures var line := fs[0].name + ": " + fs[0].value;
            && FieldsText(fs) + tail == line + "\r\n" + (FieldsText(fs[1..]) + tail)
            && PartLines(Plainly(fs)) == [line] + PartLines(Plainly(fs[1..]))
  {
    assert Plainly(fs)[1..] == Plainly(fs[1..]);
    assert FieldLine(Plainly(fs)[0]) == fs[0].name + ": " + fs[0].value;
  }

  lemma FieldIsLine(f: Field)
    requires FieldOk(f)
    ensures OneLine(f.name + ": " + f.value)
  {
    assert OneLine(": ");
  }

  lemma PlainlyGood(fs: seq<Field>)
    requires forall i :: 0 <= i < |fs| ==> FieldOk(fs[i])
    ensures Shapes(Plainly(fs)) && Sent(Plainly(fs)) == fs
    ensures forall i :: 0 <= i < |fs| ==> Good(Plainly(fs)[i])
  {
    hide FieldOk;
    forall i | 0 <= i < |fs|
      ensures Shape(Plainly(fs)[i]) && Good(Plainly(fs)[i]) && Sent(Plainly(fs))[i] == fs[i]
    {
      PlainGood(fs[i]);
    }
  }

  lemma PlainGood(f: Field)
    requires FieldOk(f)
    ensures var p := Part(f.name, " " + f.value, []);
            Shape(p) && Good(p) && f.value == SentValue(p.text) + AllText(p.folds)
  {
    assert (" " + f.value)[1..] == f.value && f.value + "" == f.value;
  }

  /**
   * Reading back a generated header with a body gives its merged fields, which are the same fields in
   * the same order exactly when no name is repeated, and the body's lines, which are the body exactly
   * when it is plain.
   */
  lemma HeaderRoundTrip(fs: seq<Field>, body: string)
    requires |Merged(fs)| <= MAX_HEADERS && forall i :: 0 <= i < |fs| ==> FieldOk(fs[i])
    ensures var r := ReadMail(HeaderText(fs) + body);
            && r.Some? && r.value.fields == Merged(fs) && r.value.body == JoinLines(Lines(body))
            && (r.value.fields == fs <==> DistinctNames(fs))
            && (r.value.body == body <==> PlainBody(body))
  {
    hide ReadLines, Lines, JoinLines, PlainBody, FieldsText, FieldOk, MergeFrom, PartLines, Good, Shape;
    var tail := "\n" + body;
    assert HeaderText(fs) + body == FieldsText(fs) + tail;
    FieldsTextLines(fs, tail);
    BlankLine(body);
    PlainlyGood(fs);
    GoodRead(Plainly(fs));
    MailRead(Plainly(fs), Lines(body));
    MergedSame(fs);
    BodySurvives(body);
  }

  lemma BlankLine(body: string)
    ensures Lines("\n" + body) == [""] + Lines(body)
  {
    var tail := "\n" + body;
    IndexOfUnique(tail, '\n', 0);
    assert tail[..0] == "" && tail[1..] == body;
    assert Clean("") == "";
  }
}
