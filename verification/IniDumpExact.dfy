/** Exactly which dictionaries come back from their dumped text. */
module IniDumpExact {
  import opened CStrings
  import opened Dictionary
  import opened IniSpec
  import opened IniRoundTrip
  import opened IniExact
  import opened IniDump

  type Dict = map<string, Value>

  // ----- every line binds at most one key --------------------------------------------------------

  /** At most n keys were added; if as many as that, no binding was lost or replaced. */
  ghost predicate Grown(d: Dict, e: Dict, n: nat) {
    |e| <= |d| + n && (|e| == |d| + n ==> forall x :: x in d ==> x in e && e[x] == d[x])
  }

  lemma GrownBind(d: Dict, x: string, v: Value)
    ensures Grown(d, d[x := v], 1)
  {
    if x in d {
      assert d[x := v].Keys == d.Keys;
    } else {
      assert d[x := v].Keys == d.Keys + {x};
    }
  }

  lemma GrownTrans(d: Dict, e: Dict, f: Dict, m: nat, n: nat)
    requires Grown(d, e, m) && Grown(e, f, n)
    ensures Grown(d, f, m + n)
  {
  }

  lemma LoadLineGrown(l: Loader, line: string)
    ensures Grown(l.dict, LoadLine(l, line).dict, 1)
  {
    hide ParseLine;
    match ParseLine(line, l.section)
    case SectionLine(s) => GrownBind(l.dict, s, None);
    case ValueLine(k, v) => GrownBind(l.dict, l.section + ":" + k, Some(v));
    case _ =>
  }

  /** How many keys the items may bind. */
  function Count(items: seq<Item>): nat {
    if items == [] then 0 else (if items[0].Gap? then 0 else 1) + Count(items[1..])
  }

  lemma {:induction false} CountConcat(xs: seq<Item>, ys: seq<Item>)
    ensures Count(xs + ys) == Count(xs) + Count(ys)
  {
    if xs == [] {
      assert xs + ys == ys;
    } else {
      assert (xs + ys)[1..] == xs[1..] + ys;
      CountConcat(xs[1..], ys);
    }
  }

  /** The keys have the form of the dump; the values are one line each. */
  ghost predicate Shaped(item: Item) {
    match item
    case Gap => true
    case Head(s) => ItemOk(item)
    case Entry(k, v) => KeyOk(k) && OneLine(v)
  }

  ghost predicate AllShaped(items: seq<Item>) {
    forall i :: 0 <= i < |items| ==> Shaped(items[i])
  }

  lemma ShapedLine(item: Item)
    requires Shaped(item)
    ensures OneLine(LineOf(item)) && (LineOf(item) == "" <==> item.Gap?)
  {
    hide EntryLine, KeyOk;
    match item
    case Gap => EmptyOneLine();
    case Head(s) => HeadIsLine(s);
    case Entry(k, v) => LineIsOne(k, v);
  }

  lemma HeadIsLine(s: string)
    requires NameOk(s)
    ensures OneLine("[" + s + "]")
  {
  }

  /** How many keys are bound when a continued line is pending: two lines made one bind one. */
  function Room(items: seq<Item>, pending: string): nat {
    Count(items) + if pending != "" && (items == [] || items[0].Gap?) then 1 else 0
  }

  lemma {:induction false} Tally(items: seq<Item>, pending: string, l: Loader)
    requires AllShaped(items) && OneLine(pending) && |pending| <= ASCIILINESZ - 2
    ensures var r := LoadFrom(Render(items), pending, l);
            r.Some? ==> Grown(l.dict, r.value.dict, Room(items, pending))
    decreases |items|
  {
    hide LoadFrom, LoadLine, LineOf, Shaped, OneLine, RStrip, Grown;
    if items == [] {
      NothingLeft(pending, l);
      GrownSame(l.dict, Room(items, pending));
    } else {
      var line, rest := LineOf(items[0]), Render(items[1..]);
      ShapedLine(items[0]);
      if pending + line == "" {
        assert line + "\n" + rest == "\n" + rest;
        LoadGap(rest, l);
        Tally(items[1..], "", l);
      } else if |pending| + |line| > ASCIILINESZ - 2 {
        TooLong(pending, line, rest, l);
      } else {
        TallyLine(items, pending, l);
      }
    }
  }

  lemma GrownSame(d: Dict, n: nat)
    ensures Grown(d, d, n)
  {
  }

  lemma GrownMore(d: Dict, e: Dict, m: nat, n: nat)
    requires Grown(d, e, m) && m <= n
    ensures Grown(d, e, n)
  {
  }

  lemma {:induction false} TallyLine(items: seq<Item>, pending: string, l: Loader)
    requires AllShaped(items) && OneLine(pending) && items != [] && OneLine(LineOf(items[0]))
    requires pending + LineOf(items[0]) != "" && |pending| + |LineOf(items[0])| <= ASCIILINESZ - 2
    requires LineOf(items[0]) == "" <==> items[0].Gap?
    ensures var r := LoadFrom(Render(items), pending, l);
            r.Some? ==> Grown(l.dict, r.value.dict, Room(items, pending))
    decreases |items|, -1
  {
    hide LoadFrom, LoadLine, LineOf, Shaped, OneLine, RStrip, Grown, CStr;
    var line, rest := LineOf(items[0]), Render(items[1..]);
    ChunkStep(pending, line, rest, l);
    var s := RStrip(pending + line + "\n");
    LineStripped(pending, line);
    assert Room(items, pending) == 1 + Count(items[1..]);
    if Continued(s) {
      SliceOneLine(s, 0, |s| - 1);
      assert s[0..|s| - 1] == s[..|s| - 1];
      Tally(items[1..], s[..|s| - 1], l);
      if LoadFrom(rest, s[..|s| - 1], l).Some? {
        var loaded := LoadFrom(rest, s[..|s| - 1], l).value;
        GrownMore(l.dict, loaded.dict, Room(items[1..], s[..|s| - 1]), Room(items, pending));
      }
    } else {
      var l1 := LoadLine(l, s);
      LoadLineGrown(l, s);
      EmptyOneLine();
      Tally(items[1..], "", l1);
      if LoadFrom(rest, "", l1).Some? {
        GrownTrans(l.dict, l1.dict, LoadFrom(rest, "", l1).value.dict, 1, Count(items[1..]));
      }
    }
  }

  lemma LineStripped(pending: string, line: string)
    requires OneLine(pending) && OneLine(line)
    ensures OneLine(RStrip(pending + line + "\n"))
  {
    hide RStrip, CStr;
    var chunk := line + "\n";
    assert chunk[..|chunk| - 1] == line;
    StrippedOneLine(pending, chunk);
    var all := pending + chunk;
    assert all == pending + line + "\n";
    WholeCStr(all);
  }

  lemma WholeCStr(s: string)
    requires '\0' !in s
    ensures CStr(s) == s
  {
    IndexOfUnique(s, '\0', |s|);
    assert s[..|s|] == s;
  }

  /** An entry whose line is continued is bound to a shorter value, or some key of the file is lost. */
  lemma {:induction false} Swallowed(k: string, u: string, items: seq<Item>, l: Loader)
    requires AllShaped(items) && KeyOk(k) && OneLine(u) && |EntryLine(k, u)| <= ASCIILINESZ - 2
    ensures var r, x := LoadFrom(Render(items), EntryLine(k, u), l), l.section + ":" + k;
            r.Some? && |r.value.dict| == |l.dict| + 1 + Count(items) ==>
              x in r.value.dict && r.value.dict[x].Some? && |r.value.dict[x].value| <= |u|
    decreases |items|
  {
    hide LoadFrom, EntryLine, Shaped, OneLine, RStrip, Strip, ValueOf, KeyOk, Cut;
    var pending, x := EntryLine(k, u), l.section + ":" + k;
    LineIsOne(k, u);
    if items == [] {
      NothingLeft(pending, l);
    } else if items[0].Gap? {
      var rest := Render(items[1..]);
      EmptyOneLine();
      assert pending + "" == pending;
      assert Render(items) == "" + "\n" + rest;
      EntryStep(k, u, pending, "", rest, l);
      if Continued(RStrip(u)) {
        CutOneLine(k, u);
        Swallowed(k, Cut(u), items[1..], l);
      } else {
        var l1 := Bind(l, k, ValueOf(Strip(u)));
        GrownBind(l.dict, x, Some(ValueOf(Strip(u))));
        Tally(items[1..], "", l1);
        ValueShort(u);
      }
    } else {
      Tally(items, pending, l);
    }
  }

  // ----- a file that comes back has only good entries --------------------------------------------

  function SectionAfter(section: string, items: seq<Item>): string
    decreases |items|
  {
    if items == [] then section
    else SectionAfter(if items[0].Head? then items[0].section else section, items[1..])
  }

  /** Where m has a value for the key of an entry, it is the written one. */
  ghost predicate Wanted(section: string, items: seq<Item>, m: Dict)
    decreases |items|
  {
    items != [] ==>
      match items[0]
      case Gap => Wanted(section, items[1..], m)
      case Head(s) => Wanted(s, items[1..], m)
      case Entry(k, v) =>
        var x := section + ":" + k;
        (x in m && m[x].Some? ==> m[x].value == v) && Wanted(section, items[1..], m)
  }

  lemma {:induction false} WantedConcat(section: string, xs: seq<Item>, ys: seq<Item>, m: Dict)
    requires Wanted(section, xs, m) && Wanted(SectionAfter(section, xs), ys, m)
    ensures Wanted(section, xs + ys, m)
    decreases |xs|
  {
    if xs == [] {
      assert xs + ys == ys;
    } else {
      assert (xs + ys)[1..] == xs[1..] + ys;
      WantedConcat(if xs[0].Head? then xs[0].section else section, xs[1..], ys, m);
    }
  }

  /** When as many keys were bound as there are lines for them, and rightly, every item was good. */
  lemma {:induction false} AllGood(items: seq<Item>, l: Loader, m: Dict)
    requires AllShaped(items) && Wanted(l.section, items, m)
    requires LoadFrom(Render(items), "", l).Some? && LoadFrom(Render(items), "", l).value.dict == m
    requires |m| == |l.dict| + Count(items)
    ensures forall i :: 0 <= i < |items| ==> ItemOk(items[i])
    decreases |items|
  {
    hide LoadFrom, EntryLine, Shaped, ItemOk, OneLine, Take, Grown;
    if items != [] {
      var x, rest := items[0], Render(items[1..]);
      EmptyOneLine();
      if ItemOk(x) {
        LoadItem(x, rest, l);
        var l1 := Take(l, x);
        TakeGrown(x, l);
        Tally(items[1..], "", l1);
        StepExact(l.dict, l1.dict, m, if x.Gap? then 0 else 1, Count(items[1..]));
        TakeSection(x, l);
        AllGood(items[1..], l1, m);
      } else {
        ShapedGap(x);
        BadEntryShows(items, l, m);
      }
    }
  }

  lemma TakeGrown(x: Item, l: Loader)
    ensures Grown(l.dict, Take(l, x).dict, if x.Gap? then 0 else 1)
  {
    match x
    case Gap =>
    case Head(s) => GrownBind(l.dict, s, None);
    case Entry(k, v) => GrownBind(l.dict, l.section + ":" + k, Some(v));
  }

  lemma TakeSection(x: Item, l: Loader)
    ensures Take(l, x).section == if x.Head? then x.section else l.section
  {
  }

  lemma StepExact(d: Dict, e: Dict, f: Dict, m: nat, n: nat)
    requires Grown(d, e, m) && Grown(e, f, n) && |f| == |d| + m + n
    ensures |f| == |e| + n && forall x :: x in e ==> x in f && f[x] == e[x]
  {
  }

  lemma ShapedGap(x: Item)
    requires Shaped(x) && !ItemOk(x)
    ensures x.Entry? && KeyOk(x.key) && OneLine(x.val)
  {
    if x.Gap? {
      GapOk();
    }
  }

  lemma BadEntryShows(items: seq<Item>, l: Loader, m: Dict)
    requires AllShaped(items) && Wanted(l.section, items, m) && items != []
    requires items[0].Entry? && KeyOk(items[0].key) && OneLine(items[0].val) && !ItemOk(items[0])
    requires |m| == |l.dict| + Count(items)
    ensures var r := LoadFrom(Render(items), "", l); r.Some? ==> r.value.dict != m
  {
    hide LoadFrom, EntryLine, Shaped, OneLine, Grown, RStrip, Strip, ValueOf, ValueOk, KeyOk, Cut;
    var k, v, rest := items[0].key, items[0].val, Render(items[1..]);
    var line, x := EntryLine(k, v), l.section + ":" + k;
    LineIsOne(k, v);
    EmptyOneLine();
    assert "" + line == line;
    if |line| > ASCIILINESZ - 2 {
      TooLong("", line, rest, l);
    } else {
      EntryStep(k, v, "", line, rest, l);
      BoundExactly(v);
      if Continued(RStrip(v)) {
        CutOneLine(k, v);
        Swallowed(k, Cut(v), items[1..], l);
      } else {
        var w := ValueOf(Strip(v));
        var l1 := Bind(l, k, w);
        GrownBind(l.dict, x, Some(w));
        Tally(items[1..], "", l1);
        var r := LoadFrom(rest, "", l1);
        if r.Some? && |r.value.dict| == |m| {
          StepExact(l.dict, l1.dict, r.value.dict, 1, Count(items[1..]));
          assert x in l1.dict && r.value.dict[x] == Some(w);
        }
      }
    }
  }

  // ----- the dictionary --------------------------------------------------------------------------

  /** The keys are those of an INI dictionary; nothing is said of the values. */
  ghost predicate WellKeyed(keys: seq<Key>) {
    && DistinctKeys(keys)
    && forall i :: 0 <= i < |keys| && keys[i].Some? ==> KeyFormed(keys, keys[i].value)
  }

  ghost predicate KeyFormed(keys: seq<Key>, k: string) {
    if ':' !in k then ItemOk(Head(k))
    else Some(SectionOf(k)) in keys && KeyOk(k[|SectionOf(k)| + 1..])
  }

  /** What the dump writes: sections have no value, and a missing value is the empty text. */
  function WrittenValue(k: Key, v: Value): Value {
    if k.None? then v else if ':' in k.value then Some(OrElse(v, "")) else None
  }

  function WrittenValues(keys: seq<Key>, vals: seq<Value>): (ws: seq<Value>)
    requires |keys| == |vals|
    ensures |ws| == |vals| && forall i :: 0 <= i < |ws| ==> ws[i] == WrittenValue(keys[i], vals[i])
  {
    seq(|vals|, i requires 0 <= i < |vals| => WrittenValue(keys[i], vals[i]))
  }

  /** The entry of a slot as it is written. */
  function SlotEntry(k: string, v: Value): Item
    requires ':' in k
  {
    Entry(k[|SectionOf(k)| + 1..], OrElse(v, ""))
  }

  lemma {:induction false} EntriesWanted(keys: seq<Key>, vals: seq<Value>, n: nat, s: string, m: Dict)
    requires |keys| == |vals| && n <= |keys| && WellKeyed(keys) && ':' !in s && m == SlotMap(keys, vals)
    requires forall i :: 0 <= i < |keys| && keys[i].Some? ==> OneLine(OrElse(vals[i], ""))
    ensures var items := EntryItems(keys[..n], vals[..n], s);
            && AllShaped(items) && Wanted(s, items, m) && SectionAfter(s, items) == s
            && Count(items) == |KeysUnder(keys[..n], vals[..n], s)|
            && forall i :: 0 <= i < n && keys[i].Some? && s + ":" <= keys[i].value ==>
                 ':' in keys[i].value && SlotEntry(keys[i].value, vals[i]) in items
  {
    hide SlotMap, OneLine, KeyOk, EntryItems, KeysUnder, WellKeyed, Shaped, Wanted, SectionAfter, Count, SlotEntry;
    NoEntries(s, m);
    if n == 0 {
      assert keys[..n] == [] && vals[..n] == [];
    } else {
      EntriesWanted(keys, vals, n - 1, s, m);
      EntryItemsStep(keys, vals, n - 1, s);
      assert DistinctKeys(keys) by {
        KeysApart(keys);
      }
      KeysUnderStep(keys, vals, n - 1, s);
      var k, before := keys[n - 1], EntryItems(keys[..n - 1], vals[..n - 1], s);
      if k.Some? && s + ":" <= k.value {
        SlotWanted(keys, vals, n - 1, s, m);
        var e := SlotEntry(k.value, vals[n - 1]);
        WantedConcat(s, before, [e], m);
        SectionConcat(s, before, [e]);
        CountConcat(before, [e]);
      } else {
        assert before + [] == before;
      }
    }
  }

  lemma KeysApart(keys: seq<Key>)
    requires WellKeyed(keys)
    ensures DistinctKeys(keys)
  {
  }

  lemma SlotWanted(keys: seq<Key>, vals: seq<Value>, i: nat, s: string, m: Dict)
    requires |keys| == |vals| && i < |keys| && WellKeyed(keys) && ':' !in s && m == SlotMap(keys, vals)
    requires keys[i].Some? && s + ":" <= keys[i].value && OneLine(OrElse(vals[i], ""))
    ensures ':' in keys[i].value
    ensures var e := SlotEntry(keys[i].value, vals[i]);
            && e == Entry(keys[i].value[|s| + 1..], OrElse(vals[i], ""))
            && Shaped(e) && Wanted(s, [e], m) && SectionAfter(s, [e]) == s && Count([e]) == 1
  {
    hide SlotMap, OneLine, KeyOk;
    var k := keys[i].value;
    SectionIs(s, k);
    SlotMapLookup(keys, vals, i);
    assert KeyFormed(keys, k);
    assert s + ":" + k[|s| + 1..] == k;
    OneWanted(s, SlotEntry(k, vals[i]), m);
  }

  lemma NoEntries(s: string, m: Dict)
    ensures EntryItems([], [], s) == [] && KeysUnder([], [], s) == {}
    ensures Wanted(s, [], m) && SectionAfter(s, []) == s && Count([]) == 0
  {
  }

  lemma OneWanted(s: string, e: Item, m: Dict)
    requires e.Entry? && (s + ":" + e.key in m && m[s + ":" + e.key].Some? ==> m[s + ":" + e.key].value == e.val)
    ensures Wanted(s, [e], m) && SectionAfter(s, [e]) == s && Count([e]) == 1
  {
    assert [e][1..] == [];
  }

  lemma {:induction false} SectionConcat(section: string, xs: seq<Item>, ys: seq<Item>)
    ensures SectionAfter(section, xs + ys) == SectionAfter(SectionAfter(section, xs), ys)
    decreases |xs|
  {
    if xs == [] {
      assert xs + ys == ys;
    } else {
      assert (xs + ys)[1..] == xs[1..] + ys;
      SectionConcat(if xs[0].Head? then xs[0].section else section, xs[1..], ys);
    }
  }

  /** The keys of the entries of one section. */
  ghost function KeysUnder(keys: seq<Key>, vals: seq<Value>, s: string): set<string>
    requires |keys| == |vals|
  {
    set x | x in SlotMap(keys, vals) && s + ":" <= x
  }

  lemma KeysUnderStep(keys: seq<Key>, vals: seq<Value>, n: nat, s: string)
    requires |keys| == |vals| && n < |keys| && DistinctKeys(keys)
    ensures |KeysUnder(keys[..n + 1], vals[..n + 1], s)| == |KeysUnder(keys[..n], vals[..n], s)|
              + if keys[n].Some? && s + ":" <= keys[n].value then 1 else 0
  {
    assert keys[..n + 1][..n] == keys[..n] && vals[..n + 1][..n] == vals[..n];
    var before, after := KeysUnder(keys[..n], vals[..n], s), KeysUnder(keys[..n + 1], vals[..n + 1], s);
    if keys[n].Some? {
      var k := keys[n].value;
      SlotMapKeys(keys[..n], vals[..n], k);
      if s + ":" <= k {
        assert after == before + {k};
      } else {
        assert after == before;
      }
    } else {
      assert after == before;
    }
  }

  /** The section itself and the keys of its entries. */
  ghost function SectionKeys(m: Dict, s: string): set<string> {
    set x | x in m && (x == s || s + ":" <= x)
  }

  lemma SectionWanted(keys: seq<Key>, vals: seq<Value>, s: string, section: string, m: Dict)
    requires |keys| == |vals| && WellKeyed(keys) && ':' !in s && Some(s) in keys && m == SlotMap(keys, vals)
    requires forall i :: 0 <= i < |keys| && keys[i].Some? ==> OneLine(OrElse(vals[i], ""))
    ensures var items := SectionItems(keys, vals, s);
            && AllShaped(items) && Wanted(section, items, m) && Count(items) == |SectionKeys(m, s)|
            && forall i :: 0 <= i < |keys| && keys[i].Some? && s + ":" <= keys[i].value ==>
                 ':' in keys[i].value && SlotEntry(keys[i].value, vals[i]) in items
  {
    hide SlotMap, OneLine, KeyOk, EntryItems, ItemOk;
    assert keys[..|keys|] == keys && vals[..|vals|] == vals;
    EntriesWanted(keys, vals, |keys|, s, m);
    var es := EntryItems(keys, vals, s);
    SectionFrame(section, s, es, m);
    SlotMapKeys(keys, vals, s);
    assert SectionKeys(m, s) == {s} + KeysUnder(keys, vals, s);
    var j :| 0 <= j < |keys| && keys[j] == Some(s);
    assert KeyFormed(keys, s);
  }

  lemma HeadWanted(section: string, s: string, m: Dict)
    ensures var head := [Gap, Head(s)]; Wanted(section, head, m) && SectionAfter(section, head) == s && Count(head) == 1
    ensures Wanted(s, [Gap], m)
  {
    assert [Gap][1..] == [] && [Head(s)][1..] == [] && [Gap, Head(s)][1..] == [Head(s)];
    assert Wanted(section, [Head(s)], m) && SectionAfter(section, [Head(s)]) == s && Count([Head(s)]) == 1;
  }

  /** A section is an empty line, its name, its entries and an empty line. */
  lemma SectionFrame(section: string, s: string, es: seq<Item>, m: Dict)
    requires Wanted(s, es, m)
    ensures var items := [Gap, Head(s)] + es + [Gap]; Wanted(section, items, m) && Count(items) == 1 + Count(es)
  {
    var head := [Gap, Head(s)];
    assert head[1..] == [Head(s)] && [Head(s)][1..] == [] && [Gap][1..] == [];
    CountConcat(head, es);
    CountConcat(head + es, [Gap]);
    HeadWanted(section, s, m);
    WantedConcat(section, head, es, m);
    WantedConcat(section, head + es, [Gap], m);
  }

  /** All keys of the given sections. */
  ghost function ListedKeys(m: Dict, ss: seq<string>): set<string> {
    if ss == [] then {} else ListedKeys(m, ss[..|ss| - 1]) + SectionKeys(m, ss[|ss| - 1])
  }

  lemma {:induction false} ListedApart(m: Dict, ss: seq<string>, s: string)
    requires ':' !in s && forall i :: 0 <= i < |ss| ==> ':' !in ss[i] && ss[i] != s
    ensures ListedKeys(m, ss) !! SectionKeys(m, s) && ListedKeys(m, ss) <= m.Keys
  {
    if ss != [] {
      var n := |ss| - 1;
      ListedApart(m, ss[..n], s);
      forall x | x in SectionKeys(m, ss[n]) ensures x !in SectionKeys(m, s) {
        if s + ":" <= x {
          SectionIs(s, x);
        }
        if ss[n] + ":" <= x {
          SectionIs(ss[n], x);
        }
      }
    }
  }

  ghost predicate DistinctNames(ss: seq<string>) {
    forall i, j :: 0 <= i < j < |ss| ==> ss[i] != ss[j]
  }

  lemma {:induction false} AllWanted(keys: seq<Key>, vals: seq<Value>, ss: seq<string>, m: Dict)
    requires |keys| == |vals| && WellKeyed(keys) && m == SlotMap(keys, vals) && DistinctNames(ss)
    requires forall i :: 0 <= i < |ss| ==> ':' !in ss[i] && Some(ss[i]) in keys
    requires forall i :: 0 <= i < |keys| && keys[i].Some? ==> OneLine(OrElse(vals[i], ""))
    ensures var items := AllItems(keys, vals, ss);
            && AllShaped(items) && Wanted("", items, m) && Count(items) == |ListedKeys(m, ss)| <= |m|
            && forall i, j :: 0 <= i < |keys| && 0 <= j < |ss| && keys[i].Some? && ss[j] + ":" <= keys[i].value ==>
                 ':' in keys[i].value && SlotEntry(keys[i].value, vals[i]) in items
  {
    hide SlotMap, OneLine, KeyOk, SectionItems, ItemOk, SectionKeys, WellKeyed;
    if ss != [] {
      var n := |ss| - 1;
      var before, items := AllItems(keys, vals, ss[..n]), SectionItems(keys, vals, ss[n]);
      AllWanted(keys, vals, ss[..n], m);
      SectionWanted(keys, vals, ss[n], SectionAfter("", before), m);
      WantedConcat("", before, items, m);
      CountConcat(before, items);
      ListedApart(m, ss[..n], ss[n]);
      ListedWithin(m, ss);
      forall i, j | 0 <= i < |keys| && 0 <= j < |ss| && keys[i].Some? && ss[j] + ":" <= keys[i].value
        ensures ':' in keys[i].value && SlotEntry(keys[i].value, vals[i]) in before + items
      {
        if j < n {
          assert ss[..n][j] == ss[j];
        }
      }
    } else {
      ListedWithin(m, ss);
    }
  }

  lemma {:induction false} ListedWithin(m: Dict, ss: seq<string>)
    ensures ListedKeys(m, ss) <= m.Keys && |ListedKeys(m, ss)| <= |m|
  {
    if ss != [] {
      ListedWithin(m, ss[..|ss| - 1]);
    }
    Fewer(ListedKeys(m, ss), m.Keys);
  }

  lemma Fewer(xs: set<string>, ys: set<string>)
    requires xs <= ys
    ensures |xs| <= |ys|
  {
    assert ys == xs + (ys - xs);
  }

  lemma {:induction false} SectionsDistinct(keys: seq<Key>)
    requires DistinctKeys(keys)
    ensures DistinctNames(Sections(keys))
  {
    if keys != [] {
      var n := |keys| - 1;
      SectionsDistinct(keys[..n]);
      if keys[n].Some? {
        SectionsAre(keys[..n], keys[n].value);
      }
    }
  }

  // ----- the written values are what counts ------------------------------------------------------

  lemma WrittenTake(keys: seq<Key>, vals: seq<Value>, n: nat)
    requires |keys| == |vals| && n <= |keys|
    ensures WrittenValues(keys, vals)[..n] == WrittenValues(keys[..n], vals[..n])
  {
  }

  lemma {:induction false} SameEntries(keys: seq<Key>, vals: seq<Value>, s: string)
    requires |keys| == |vals|
    ensures EntriesText(keys, vals, s) == EntriesText(keys, WrittenValues(keys, vals), s)
  {
    hide EntryLine;
    if keys != [] {
      var n := |keys| - 1;
      SameEntries(keys[..n], vals[..n], s);
      WrittenTake(keys, vals, n);
      if keys[n].Some? && s + ":" <= keys[n].value {
        assert keys[n].value[|s|] == (s + ":")[|s|];
      }
    }
  }

  lemma {:induction false} SameSections(keys: seq<Key>, vals: seq<Value>, ss: seq<string>)
    requires |keys| == |vals|
    ensures SectionsText(keys, vals, ss) == SectionsText(keys, WrittenValues(keys, vals), ss)
  {
    hide EntriesText, Lower, WrittenValues;
    if ss != [] {
      SameSections(keys, vals, ss[..|ss| - 1]);
      SameEntries(keys, vals, ss[|ss| - 1]);
    }
  }

  /** Two values that are written alike can not both come back. */
  lemma SameMap(keys: seq<Key>, vals: seq<Value>, ws: seq<Value>, i: nat)
    requires |keys| == |vals| == |ws| && DistinctKeys(keys) && SlotMap(keys, vals) == SlotMap(keys, ws)
    requires i < |keys| && keys[i].Some?
    ensures vals[i] == ws[i]
  {
    hide SlotMap;
    SlotMapLookup(keys, vals, i);
    SlotMapLookup(keys, ws, i);
  }

  // ----- the theorem -----------------------------------------------------------------------------

  lemma SectionsAsDumped(keys: seq<Key>)
    requires WellKeyed(keys)
    ensures forall i :: 0 <= i < |Sections(keys)| ==>
              ':' !in Sections(keys)[i] && Some(Sections(keys)[i]) in keys
              && Lower(Sections(keys)[i], ASCIILINESZ) == Sections(keys)[i]
  {
    hide ItemOk, Lower;
    var ss := Sections(keys);
    forall i | 0 <= i < |ss|
      ensures ':' !in ss[i] && Some(ss[i]) in keys && Lower(ss[i], ASCIILINESZ) == ss[i]
    {
      SectionsAre(keys, ss[i]);
      var j :| 0 <= j < |keys| && keys[j] == Some(ss[i]);
      assert KeyFormed(keys, ss[i]);
      NameLower(ss[i]);
    }
  }

  lemma DumpIsRendered(keys: seq<Key>, vals: seq<Value>)
    requires |keys| == |vals| && WellKeyed(keys) && Sections(keys) != []
    ensures DumpText(keys, vals) == Render(AllItems(keys, vals, Sections(keys)) + [Gap])
  {
    hide SectionsText, AllItems, Sections, Render, WellKeyed, Lower, FlatText;
    var ss := Sections(keys);
    SectionsAsDumped(keys);
    SectionsRender(keys, vals, ss);
    RenderConcat(AllItems(keys, vals, ss), [Gap]);
    RenderOne(Gap);
    assert "" + "\n" == "\n";
  }

  /** The values of a text that loads to this very dictionary are one line each. */
  lemma LoadedOneLine(keys: seq<Key>, vals: seq<Value>, text: string)
    requires |keys| == |vals| && DistinctKeys(keys) && Load(text) == Some(SlotMap(keys, vals))
    ensures forall i :: 0 <= i < |keys| && keys[i].Some? ==> OneLine(OrElse(vals[i], ""))
  {
    hide SlotMap, LoadFrom, OneLine;
    EmptyOneLine();
    LoadedTame(text, "", Loader("", map[], false));
    forall i | 0 <= i < |keys| && keys[i].Some? ensures OneLine(OrElse(vals[i], "")) {
      SlotMapLookup(keys, vals, i);
    }
  }

  lemma EntriesGood(keys: seq<Key>, vals: seq<Value>)
    requires |keys| == |vals| && WellKeyed(keys) && Sections(keys) != []
    requires Load(DumpText(keys, vals)) == Some(SlotMap(keys, vals))
    ensures forall i :: 0 <= i < |keys| && keys[i].Some? && ':' in keys[i].value ==>
              ItemOk(SlotEntry(keys[i].value, vals[i]))
  {
    hide SlotMap, LoadFrom, OneLine, ItemOk, AllItems, Sections, Render, DumpText, WellKeyed, Shaped, Wanted,
         Lower, Count, ListedKeys, SlotEntry;
    var ss, m, l := Sections(keys), SlotMap(keys, vals), Loader("", map[], false);
    KeysApart(keys);
    LoadedOneLine(keys, vals, DumpText(keys, vals));
    SectionsAsDumped(keys);
    SectionsDistinct(keys);
    AllWanted(keys, vals, ss, m);
    var items := AllItems(keys, vals, ss);
    DumpIsRendered(keys, vals);
    FinalGap(items, m);
    EmptyOneLine();
    Tally(items + [Gap], "", l);
    AllGood(items + [Gap], l, m);
    forall i | 0 <= i < |keys| && keys[i].Some? && ':' in keys[i].value
      ensures ItemOk(SlotEntry(keys[i].value, vals[i]))
    {
      var k := keys[i].value;
      SectionListed(keys, i);
      var j :| 0 <= j < |ss| && ss[j] + ":" <= k;
      var e :| 0 <= e < |items| && items[e] == SlotEntry(k, vals[i]);
      assert (items + [Gap])[e] == items[e];
    }
  }

  lemma FinalGap(items: seq<Item>, m: Dict)
    requires AllShaped(items) && Wanted("", items, m)
    ensures AllShaped(items + [Gap]) && Wanted("", items + [Gap], m) && Count(items + [Gap]) == Count(items)
  {
    hide ItemOk, KeyOk, OneLine;
    HeadWanted("", SectionAfter("", items), m);
    WantedConcat("", items, [Gap], m);
    CountConcat(items, [Gap]);
    assert Count([Gap]) == 0 by {
      assert [Gap][1..] == [];
    }
  }

  lemma SectionListed(keys: seq<Key>, i: nat)
    requires WellKeyed(keys) && i < |keys| && keys[i].Some? && ':' in keys[i].value
    ensures exists j :: 0 <= j < |Sections(keys)| && Sections(keys)[j] + ":" <= keys[i].value
  {
    hide ItemOk, KeyOk, Sections;
    var k := keys[i].value;
    assert KeyFormed(keys, k);
    SectionPrefix(k);
    SectionsAre(keys, SectionOf(k));
    var j :| 0 <= j < |Sections(keys)| && Sections(keys)[j] == SectionOf(k);
  }

  lemma WrittenWellFormed(keys: seq<Key>, vals: seq<Value>)
    requires |keys| == |vals| && WellKeyed(keys)
    requires forall i :: 0 <= i < |keys| && keys[i].Some? && ':' in keys[i].value ==>
               ItemOk(SlotEntry(keys[i].value, vals[i]))
    ensures WellFormed(keys, WrittenValues(keys, vals))
  {
    hide ItemOk, KeyOk;
    forall i | 0 <= i < |keys| && keys[i].Some?
      ensures SlotOk(keys, keys[i].value, WrittenValue(keys[i], vals[i]))
    {
      assert KeyFormed(keys, keys[i].value);
    }
  }

  lemma WellFormedOnly(keys: seq<Key>, vals: seq<Value>)
    requires |keys| == |vals| && WellKeyed(keys)
    requires Load(DumpText(keys, vals)) == Some(SlotMap(keys, vals))
    ensures WellFormed(keys, vals)
  {
    hide SlotMap, ItemOk, KeyOk, Load, Sections, SectionsText, SlotEntry, WellFormed;
    KeysApart(keys);
    if Sections(keys) == [] {
      NoSections(keys, vals);
    } else {
      var ws := WrittenValues(keys, vals);
      EntriesGood(keys, vals);
      WrittenWellFormed(keys, vals);
      DumpLoadRoundTrip(keys, ws);
      SameSections(keys, vals, Sections(keys));
      forall i | 0 <= i < |keys| && keys[i].Some? ensures vals[i] == ws[i] {
        SameMap(keys, vals, ws, i);
      }
      WellFormedSame(keys, vals, ws);
    }
  }

  lemma WellFormedSame(keys: seq<Key>, vals: seq<Value>, ws: seq<Value>)
    requires |keys| == |vals| == |ws| && WellFormed(keys, ws)
    requires forall i :: 0 <= i < |keys| && keys[i].Some? ==> vals[i] == ws[i]
    ensures WellFormed(keys, vals)
  {
    hide SlotOk;
  }

  lemma NoSections(keys: seq<Key>, vals: seq<Value>)
    requires |keys| == |vals| && WellKeyed(keys) && Sections(keys) == []
    ensures WellFormed(keys, vals)
  {
    hide ItemOk, KeyOk;
    forall i | 0 <= i < |keys| ensures keys[i].None? {
      if keys[i].Some? {
        if ':' in keys[i].value {
          SectionListed(keys, i);
        } else {
          SectionsAre(keys, keys[i].value);
        }
      }
    }
  }

  /**
   * A dictionary with the keys of an INI file is loaded back from its dumped text exactly when it is
   * well formed: sections have no value, and every entry has one that survives on its line.
   */
  lemma DumpLoadsExactly(keys: seq<Key>, vals: seq<Value>)
    requires |keys| == |vals| && WellKeyed(keys)
    ensures Load(DumpText(keys, vals)) == Some(SlotMap(keys, vals)) <==> WellFormed(keys, vals)
  {
    if WellFormed(keys, vals) {
      DumpLoadRoundTrip(keys, vals);
    }
    if Load(DumpText(keys, vals)) == Some(SlotMap(keys, vals)) {
      WellFormedOnly(keys, vals);
    }
  }
}
