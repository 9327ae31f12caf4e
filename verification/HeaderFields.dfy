/** What repeated names leave of a list of header fields. */
module HeaderFields {
  import opened CStrings
  import opened Buffer
  import opened Header

  // ----- repeated names --------------------------------------------------------------------------

  ghost predicate DistinctNames(fs: seq<Field>) {
    forall i, j :: 0 <= i < j < |fs| ==> fs[i].name != fs[j].name
  }

  /** A field takes the place of the first one of its name, or is appended. */
  function Merge(gs: seq<Field>, f: Field): (r: seq<Field>)
    ensures |gs| <= |r| <= |gs| + 1
  {
    var i := FindField(gs, f.name);
    if i < |gs| then gs[i := f] else gs + [f]
  }

  function MergeFrom(gs: seq<Field>, fs: seq<Field>): (r: seq<Field>)
    ensures |gs| <= |r| <= |gs| + |fs|
    decreases |fs|
  {
    if fs == [] then gs else MergeFrom(Merge(gs, fs[0]), fs[1..])
  }

  /** The fields a header with these field lines is read as. */
  function Merged(fs: seq<Field>): seq<Field> {
    MergeFrom([], fs)
  }

  lemma {:induction false} MergeSnoc(gs: seq<Field>, fs: seq<Field>, f: Field)
    ensures MergeFrom(gs, fs + [f]) == Merge(MergeFrom(gs, fs), f)
    decreases |fs|
  {
    if fs == [] {
      assert [f][1..] == [] && fs + [f] == [f];
    } else {
      assert (fs + [f])[1..] == fs[1..] + [f];
      MergeSnoc(Merge(gs, fs[0]), fs[1..], f);
    }
  }

  lemma FindIsFirst(fs: seq<Field>, name: string, i: nat)
    requires i <= |fs| && (i < |fs| ==> fs[i].name == name) && forall j :: 0 <= j < i ==> fs[j].name != name
    ensures FindField(fs, name) == i
  {
  }

  /** f is the last field of its name. */
  ghost predicate LastOfName(fs: seq<Field>, f: Field) {
    exists i :: 0 <= i < |fs| && fs[i] == f && forall j :: i < j < |fs| ==> fs[j].name != f.name
  }

  /** What merging keeps: each name once, in the order of first appearance, with its last value. */
  ghost predicate Keeps(fs: seq<Field>, r: seq<Field>) {
    && DistinctNames(r)
    && (forall i :: 0 <= i < |r| ==> LastOfName(fs, r[i]))
    && (forall i :: 0 <= i < |fs| ==> FindField(r, fs[i].name) < |r|)
    && (forall a, b :: 0 <= a < b < |r| ==> FindField(fs, r[a].name) < FindField(fs, r[b].name))
  }

  lemma {:induction false} MergedKeeps(fs: seq<Field>)
    ensures Keeps(fs, Merged(fs))
  {
    if fs != [] {
      var xs, f := fs[..|fs| - 1], fs[|fs| - 1];
      assert fs == xs + [f];
      MergedKeeps(xs);
      MergeSnoc([], xs, f);
      MergeKeeps(xs, Merged(xs), f);
    }
  }

  lemma MergeKeeps(xs: seq<Field>, r: seq<Field>, f: Field)
    requires Keeps(xs, r)
    ensures Keeps(xs + [f], Merge(r, f))
  {
    hide FindField;
    var fs, r', k := xs + [f], Merge(r, f), FindField(r, f.name);
    assert fs[|xs|] == f;
    MergeDistinct(r, f);
    forall i | 0 <= i < |r'| ensures LastOfName(fs, r'[i]) {
      MergeLast(xs, r, f, i);
    }
    forall i | 0 <= i < |fs| ensures FindField(r', fs[i].name) < |r'| {
      if i < |xs| {
        assert fs[i] == xs[i];
        StillFound(r, f, fs[i].name);
      } else {
        assert r'[k].name == f.name;
      }
    }
    forall a, b | 0 <= a < b < |r'| ensures FindField(fs, r'[a].name) < FindField(fs, r'[b].name) {
      MergeOrder(xs, r, f, a, b);
    }
  }

  lemma MergeDistinct(r: seq<Field>, f: Field)
    requires DistinctNames(r)
    ensures DistinctNames(Merge(r, f))
  {
  }

  lemma StillFound(r: seq<Field>, f: Field, name: string)
    requires FindField(r, name) < |r|
    ensures FindField(Merge(r, f), name) < |Merge(r, f)|
  {
    hide FindField;
    var i := FindField(r, name);
    assert Merge(r, f)[i].name == name;
  }

  lemma MergeLast(xs: seq<Field>, r: seq<Field>, f: Field, i: nat)
    requires Keeps(xs, r) && i < |Merge(r, f)|
    ensures LastOfName(xs + [f], Merge(r, f)[i])
  {
    hide FindField;
    var fs, g := xs + [f], Merge(r, f)[i];
    assert fs[|xs|] == f;
    if g != f {
      assert g == r[i] && g.name != f.name;
      var j :| 0 <= j < |xs| && xs[j] == g && forall n :: j < n < |xs| ==> xs[n].name != g.name;
      assert fs[j] == g;
    }
  }

  lemma MergeOrder(xs: seq<Field>, r: seq<Field>, f: Field, a: nat, b: nat)
    requires Keeps(xs, r) && a < b < |Merge(r, f)|
    ensures FindField(xs + [f], Merge(r, f)[a].name) < FindField(xs + [f], Merge(r, f)[b].name)
  {
    hide FindField;
    var fs, r' := xs + [f], Merge(r, f);
    FoundBefore(xs, f, r'[a].name);
    FoundBefore(xs, f, r'[b].name);
    assert a < |r| && r'[a].name == r[a].name;
    LastFound(xs, r[a]);
    if b < |r| {
      assert r'[b].name == r[b].name;
      LastFound(xs, r[b]);
    } else {
      FoundThere(xs, r, f.name);
    }
  }

  lemma LastFound(xs: seq<Field>, g: Field)
    requires LastOfName(xs, g)
    ensures FindField(xs, g.name) < |xs|
  {
    var j :| 0 <= j < |xs| && xs[j] == g;
  }

  lemma FoundThere(xs: seq<Field>, r: seq<Field>, name: string)
    requires Keeps(xs, r)
    ensures FindField(xs, name) < |xs| ==> FindField(r, name) < |r|
  {
    hide FindField;
    var i := FindField(xs, name);
    if i < |xs| {
      assert xs[i].name == name;
    }
  }

  lemma FoundBefore(xs: seq<Field>, f: Field, name: string)
    ensures FindField(xs, name) < |xs| ==> FindField(xs + [f], name) == FindField(xs, name)
    ensures FindField(xs, name) == |xs| && f.name == name ==> FindField(xs + [f], name) == |xs|
  {
    hide FindField;
    var i := FindField(xs, name);
    if i < |xs| || f.name == name {
      assert (xs + [f])[i].name == name;
      FindIsFirst(xs + [f], name, i);
    }
  }

  lemma {:induction false} MergeFromDistinct(gs: seq<Field>, fs: seq<Field>)
    requires DistinctNames(gs)
    ensures DistinctNames(gs + fs) ==> MergeFrom(gs, fs) == gs + fs
    ensures |MergeFrom(gs, fs)| == |gs| + |fs| ==> DistinctNames(gs + fs)
    decreases |fs|
  {
    hide FindField;
    if fs == [] {
      assert gs + fs == gs;
    } else {
      var f, k := fs[0], FindField(gs, fs[0].name);
      assert gs + [f] + fs[1..] == gs + fs;
      MergeDistinct(gs, f);
      if k < |gs| {
        assert (gs + fs)[k].name == (gs + fs)[|gs|].name;
      }
      MergeFromDistinct(Merge(gs, f), fs[1..]);
    }
  }

  /** The fields come back as they were exactly when no name is repeated. */
  lemma MergedSame(fs: seq<Field>)
    ensures Merged(fs) == fs <==> DistinctNames(fs)
    ensures |Merged(fs)| == |fs| ==> DistinctNames(fs)
  {
    assert [] + fs == fs;
    MergeFromDistinct([], fs);
  }

  lemma {:induction false} MergeFromConcat(gs: seq<Field>, xs: seq<Field>, ys: seq<Field>)
    ensures MergeFrom(gs, xs + ys) == MergeFrom(MergeFrom(gs, xs), ys)
    decreases |xs|
  {
    if xs == [] {
      assert xs + ys == ys;
    } else {
      assert (xs + ys)[1..] == xs[1..] + ys;
      MergeFromConcat(Merge(gs, xs[0]), xs[1..], ys);
    }
  }

  /** SetField merges, unless the table is full or its arrays are too small. */
  lemma FieldSet(gs: seq<Field>, name: string, value: string)
    requires |name| < MAX_NAME && |value| < MAX_VALUE
    ensures var f := Field(name, Chomp(value));
            |Merge(gs, f)| <= MAX_HEADERS ==> SetField(gs, name, value) == Some((Merge(gs, f), FindField(gs, name)))
  {
    hide FindField;
  }
}
