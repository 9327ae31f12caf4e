/** The text of a well-formed dictionary loads back to the same dictionary. */
module IniDump {
  import opened CStrings
  import opened Dictionary
  import opened IniSpec
  import opened IniRoundTrip

  // ----- the dump as a list of lines -------------------------------------------------------------

  ghost function EntryItems(keys: seq<Key>, vals: seq<Value>, s: string): seq<Item>
    requires |keys| == |vals|
  {
    if keys == [] then []
    else
      var n := |keys| - 1;
      EntryItems(keys[..n], vals[..n], s) +
      (if keys[n].Some? && s + ":" <= keys[n].value
       then [Entry(keys[n].value[|s| + 1..], OrElse(vals[n], ""))] else [])
  }

  ghost function SectionItems(keys: seq<Key>, vals: seq<Value>, s: string): seq<Item>
    requires |keys| == |vals|
  {
    [Gap, Head(s)] + EntryItems(keys, vals, s) + [Gap]
  }

  ghost function AllItems(keys: seq<Key>, vals: seq<Value>, ss: seq<string>): seq<Item>
    requires |keys| == |vals|
  {
    if ss == [] then []
    else AllItems(keys, vals, ss[..|ss| - 1]) + SectionItems(keys, vals, ss[|ss| - 1])
  }

  lemma RenderOne(item: Item)
    ensures Render([item]) == LineOf(item) + "\n"
  {
    assert [item][1..] == [];
    assert LineOf(item) + "\n" + "" == LineOf(item) + "\n";
  }

  lemma {:induction false} EntriesRender(keys: seq<Key>, vals: seq<Value>, s: string)
    requires |keys| == |vals|
    ensures EntriesText(keys, vals, s) == Render(EntryItems(keys, vals, s))
  {
    hide EntryLine;
    if keys != [] {
      var n := |keys| - 1;
      EntriesRender(keys[..n], vals[..n], s);
      if keys[n].Some? && s + ":" <= keys[n].value {
        var e := Entry(keys[n].value[|s| + 1..], OrElse(vals[n], ""));
        RenderConcat(EntryItems(keys[..n], vals[..n], s), [e]);
        RenderOne(e);
      } else {
        assert EntriesText(keys[..n], vals[..n], s) + "" == EntriesText(keys[..n], vals[..n], s);
        assert EntryItems(keys[..n], vals[..n], s) + [] == EntryItems(keys[..n], vals[..n], s);
      }
    }
  }

  lemma HeadRender(s: string)
    ensures Render([Gap, Head(s)]) == "\n[" + s + "]\n"
  {
    RenderConcat([Gap], [Head(s)]);
    assert [Gap, Head(s)] == [Gap] + [Head(s)];
    RenderOne(Gap);
    RenderOne(Head(s));
    assert "\n[" + s + "]\n" == ("" + "\n") + ("[" + s + "]" + "\n");
  }

  lemma SectionRender(keys: seq<Key>, vals: seq<Value>, s: string)
    requires |keys| == |vals| && Some(Lower(s, ASCIILINESZ)) in keys
    ensures SectionText(keys, vals, s) == Render(SectionItems(keys, vals, s))
  {
    hide EntriesText, EntryItems, Lower, Render;
    var es := EntryItems(keys, vals, s);
    EntriesRender(keys, vals, s);
    HeadRender(s);
    RenderConcat([Gap, Head(s)] + es, [Gap]);
    RenderConcat([Gap, Head(s)], es);
    RenderOne(Gap);
    assert "" + "\n" == "\n";
  }

  lemma {:induction false} SectionsRender(keys: seq<Key>, vals: seq<Value>, ss: seq<string>)
    requires |keys| == |vals|
    requires forall i :: 0 <= i < |ss| ==> Some(Lower(ss[i], ASCIILINESZ)) in keys
    ensures SectionsText(keys, vals, ss) == Render(AllItems(keys, vals, ss))
  {
    hide SectionText, SectionItems, Lower;
    if ss != [] {
      var n := |ss| - 1;
      SectionsRender(keys, vals, ss[..n]);
      SectionRender(keys, vals, ss[n]);
      RenderConcat(AllItems(keys, vals, ss[..n]), SectionItems(keys, vals, ss[n]));
    }
  }

  // ----- well-formed dictionaries ----------------------------------------------------------------

  function SectionOf(k: string): string {
    k[..IndexOf(k, ':')]
  }

  /**
   * A section is a key without a colon and without a value. Any other key names its section before
   * the first colon, the section is present, and its entry survives on one line.
   */
  ghost predicate SlotOk(keys: seq<Key>, k: string, v: Value) {
    if ':' !in k then v == None && ItemOk(Head(k))
    else
      && Some(SectionOf(k)) in keys && v.Some?
      && ItemOk(Entry(k[|SectionOf(k)| + 1..], v.value))
  }

  ghost predicate WellFormed(keys: seq<Key>, vals: seq<Value>)
    requires |keys| == |vals|
  {
    && DistinctKeys(keys)
    && forall i :: 0 <= i < |keys| && keys[i].Some? ==> SlotOk(keys, keys[i].value, vals[i])
  }

  lemma SectionIs(s: string, k: string)
    requires ':' !in s && s + ":" <= k
    ensures SectionOf(k) == s && ':' in k
  {
    assert k[|s|] == (s + ":")[|s|];
    forall i | 0 <= i < |s| ensures k[i] != ':' {
      assert k[i] == (s + ":")[i] == s[i];
    }
    IndexOfUnique(k, ':', |s|);
    assert k[..|s|] == (s + ":")[..|s|] == s;
  }

  lemma SectionPrefix(k: string)
    requires ':' in k
    ensures ':' !in SectionOf(k) && SectionOf(k) + ":" <= k
  {
    var n := IndexOf(k, ':');
    assert n < |k|;
    assert k[..n] + [k[n]] == k[..n + 1];
  }

  lemma {:induction false} SectionsAre(keys: seq<Key>, s: string)
    ensures s in Sections(keys) <==> Some(s) in keys && ':' !in s
  {
    if keys != [] {
      var n := |keys| - 1;
      SectionsAre(keys[..n], s);
      assert keys == keys[..n] + [keys[n]];
    }
  }

  // ----- what loading the lines builds -----------------------------------------------------------

  /** Every binding of d is one of m. */
  ghost predicate Agrees(d: map<string, Value>, m: map<string, Value>) {
    forall x :: x in d ==> x in m && m[x] == d[x]
  }

  /** l' extends l by bindings of m. */
  ghost predicate Extends(l: Loader, l': Loader, m: map<string, Value>) {
    l'.errs == l.errs && Agrees(l'.dict, m) && l.dict.Keys <= l'.dict.Keys
  }

  lemma TakeSnoc(l: Loader, xs: seq<Item>, x: Item)
    ensures TakeAll(l, xs + [x]) == Take(TakeAll(l, xs), x)
  {
    TakeConcat(l, xs, [x]);
    var l' := TakeAll(l, xs);
    assert TakeAll(l', [x]) == TakeAll(Take(l', x), [x][1..]);
  }

  /** The entry of one slot, loaded within its section, binds that slot's key as the dictionary does. */
  lemma EntryTake(keys: seq<Key>, vals: seq<Value>, i: nat, s: string, l: Loader)
    requires |keys| == |vals| && WellFormed(keys, vals) && i < |keys| && ':' !in s
    requires l.section == s && Agrees(l.dict, SlotMap(keys, vals))
    requires keys[i].Some? && s + ":" <= keys[i].value
    ensures var e := Entry(keys[i].value[|s| + 1..], OrElse(vals[i], "")); var l' := Take(l, e);
      ItemOk(e) && l'.section == s && Extends(l, l', SlotMap(keys, vals)) && keys[i].value in l'.dict
  {
    hide SlotMap, ItemOk;
    var k := keys[i].value;
    SectionIs(s, k);
    SlotMapLookup(keys, vals, i);
    assert s + ":" + k[|s| + 1..] == k;
  }

  lemma EntryItemsStep(keys: seq<Key>, vals: seq<Value>, n: nat, s: string)
    requires |keys| == |vals| && n < |keys|
    ensures EntryItems(keys[..n + 1], vals[..n + 1], s) == EntryItems(keys[..n], vals[..n], s)
              + if keys[n].Some? && s + ":" <= keys[n].value
                then [Entry(keys[n].value[|s| + 1..], OrElse(vals[n], ""))] else []
  {
    assert keys[..n + 1][..n] == keys[..n] && vals[..n + 1][..n] == vals[..n];
  }

  /** Loading the first n slots' entries of section s. */
  lemma {:induction false} EntriesTake(keys: seq<Key>, vals: seq<Value>, n: nat, s: string, l: Loader)
    requires |keys| == |vals| && WellFormed(keys, vals) && n <= |keys| && ':' !in s
    requires l.section == s && Agrees(l.dict, SlotMap(keys, vals))
    ensures var l' := TakeAll(l, EntryItems(keys[..n], vals[..n], s));
            && l'.section == s && Extends(l, l', SlotMap(keys, vals))
            && forall i :: 0 <= i < n && keys[i].Some? && s + ":" <= keys[i].value ==> keys[i].value in l'.dict
    ensures var items := EntryItems(keys[..n], vals[..n], s); forall i :: 0 <= i < |items| ==> ItemOk(items[i])
  {
    hide SlotMap, ItemOk, WellFormed, Take;
    if n > 0 {
      hide EntryItems, TakeAll;
      EntriesTake(keys, vals, n - 1, s, l);
      EntryItemsStep(keys, vals, n - 1, s);
      var k := keys[n - 1];
      var before := EntryItems(keys[..n - 1], vals[..n - 1], s);
      assert before + [] == before;
      if k.Some? && s + ":" <= k.value {
        EntryTake(keys, vals, n - 1, s, TakeAll(l, before));
        TakeSnoc(l, before, Entry(k.value[|s| + 1..], OrElse(vals[n - 1], "")));
      }
    }
  }

  /** Loading one section binds its name and all its entries. */
  lemma SectionTake(keys: seq<Key>, vals: seq<Value>, s: string, l: Loader)
    requires |keys| == |vals| && WellFormed(keys, vals) && ':' !in s && Some(s) in keys
    requires Agrees(l.dict, SlotMap(keys, vals))
    ensures var l' := TakeAll(l, SectionItems(keys, vals, s));
            && Extends(l, l', SlotMap(keys, vals)) && s in l'.dict
            && forall i :: 0 <= i < |keys| && keys[i].Some? && s + ":" <= keys[i].value ==> keys[i].value in l'.dict
    ensures forall i :: 0 <= i < |SectionItems(keys, vals, s)| ==> ItemOk(SectionItems(keys, vals, s)[i])
  {
    hide SlotMap, ItemOk, EntryItems;
    var j :| 0 <= j < |keys| && keys[j] == Some(s);
    SlotMapLookup(keys, vals, j);
    var es := EntryItems(keys, vals, s);
    var l1 := l.(section := s, dict := l.dict[s := None]);
    assert TakeAll(l, [Gap, Head(s)]) == l1 by {
      TakeSnoc(l, [Gap], Head(s));
      TakeSnoc(l, [], Gap);
      assert [] + [Gap] == [Gap] && [Gap] + [Head(s)] == [Gap, Head(s)];
    }
    assert keys[..|keys|] == keys && vals[..|vals|] == vals;
    EntriesTake(keys, vals, |keys|, s, l1);
    TakeConcat(l, [Gap, Head(s)], es);
    TakeSnoc(l, [Gap, Head(s)] + es, Gap);
    GapOk();
  }

  lemma GapOk()
    ensures ItemOk(Gap)
  {
  }

  /** Loading the given sections binds each name and all their entries. */
  lemma {:induction false} AllTake(keys: seq<Key>, vals: seq<Value>, ss: seq<string>, l: Loader)
    requires |keys| == |vals| && WellFormed(keys, vals)
    requires forall i :: 0 <= i < |ss| ==> ':' !in ss[i] && Some(ss[i]) in keys
    requires Agrees(l.dict, SlotMap(keys, vals))
    ensures var l' := TakeAll(l, AllItems(keys, vals, ss));
            && Extends(l, l', SlotMap(keys, vals))
            && (forall i :: 0 <= i < |ss| ==> ss[i] in l'.dict)
            && forall i, j :: 0 <= i < |keys| && 0 <= j < |ss| && keys[i].Some? && ss[j] + ":" <= keys[i].value
                 ==> keys[i].value in l'.dict
    ensures forall i :: 0 <= i < |AllItems(keys, vals, ss)| ==> ItemOk(AllItems(keys, vals, ss)[i])
  {
    hide SlotMap, ItemOk, SectionItems, WellFormed;
    if ss != [] {
      var n := |ss| - 1;
      AllTake(keys, vals, ss[..n], l);
      var l1 := TakeAll(l, AllItems(keys, vals, ss[..n]));
      SectionTake(keys, vals, ss[n], l1);
      TakeConcat(l, AllItems(keys, vals, ss[..n]), SectionItems(keys, vals, ss[n]));
      forall i, j | 0 <= i < |keys| && 0 <= j < |ss| && keys[i].Some? && ss[j] + ":" <= keys[i].value
        ensures keys[i].value in TakeAll(l, AllItems(keys, vals, ss)).dict
      {
        if j < n {
          assert ss[..n][j] == ss[j];
        }
      }
    }
  }

  lemma SectionsPresent(keys: seq<Key>, vals: seq<Value>)
    requires |keys| == |vals| && WellFormed(keys, vals)
    ensures forall i :: 0 <= i < |Sections(keys)| ==>
              ':' !in Sections(keys)[i] && Some(Sections(keys)[i]) in keys
              && Lower(Sections(keys)[i], ASCIILINESZ) == Sections(keys)[i]
  {
    var ss := Sections(keys);
    forall i | 0 <= i < |ss|
      ensures ':' !in ss[i] && Some(ss[i]) in keys && Lower(ss[i], ASCIILINESZ) == ss[i]
    {
      SectionsAre(keys, ss[i]);
      var j :| 0 <= j < |keys| && keys[j] == Some(ss[i]);
      NameLower(ss[i]);
    }
  }

  lemma NameLower(s: string)
    requires ItemOk(Head(s))
    ensures Lower(s, ASCIILINESZ) == s
  {
    LowerAll(s, ASCIILINESZ);
  }

  /** Every key of a well-formed dictionary is a listed section or an entry of one. */
  lemma KeyIsReached(keys: seq<Key>, vals: seq<Value>, i: nat)
    requires |keys| == |vals| && WellFormed(keys, vals) && i < |keys| && keys[i].Some?
    ensures keys[i].value in Sections(keys)
            || exists j :: 0 <= j < |Sections(keys)| && Sections(keys)[j] + ":" <= keys[i].value
  {
    hide ItemOk;
    var k := keys[i].value;
    if ':' !in k {
      SectionsAre(keys, k);
    } else {
      SectionPrefix(k);
      SectionsAre(keys, SectionOf(k));
      var j :| 0 <= j < |Sections(keys)| && Sections(keys)[j] == SectionOf(k);
    }
  }

  /** A dictionary with no section is empty when it is well formed, and so is its text. */
  lemma {:induction false} NothingToDump(keys: seq<Key>, vals: seq<Value>)
    requires |keys| == |vals| && forall i :: 0 <= i < |keys| ==> keys[i].None?
    ensures FlatText(keys, vals) == "" && SlotMap(keys, vals) == map[]
  {
    if keys != [] {
      var n := |keys| - 1;
      NothingToDump(keys[..n], vals[..n]);
    }
  }

  /** Loading the text that dumping wrote gives back the same keys with the same values. */
  lemma DumpLoadRoundTrip(keys: seq<Key>, vals: seq<Value>)
    requires |keys| == |vals| && WellFormed(keys, vals)
    ensures Load(DumpText(keys, vals)) == Some(SlotMap(keys, vals))
  {
    hide SlotMap, ItemOk, WellFormed, LoadFrom, Sections, AllItems, Render, FlatText, SectionsText;
    var ss, m := Sections(keys), SlotMap(keys, vals);
    var l0 := Loader("", map[], false);
    SectionsPresent(keys, vals);
    if ss == [] {
      forall i | 0 <= i < |keys| ensures keys[i].None? {
        if keys[i].Some? {
          KeyIsReached(keys, vals, i);
        }
      }
      NothingToDump(keys, vals);
      LoadRendered([], l0);
      RenderNone();
    } else {
      AllTake(keys, vals, ss, l0);
      var items := AllItems(keys, vals, ss);
      var l := TakeAll(l0, items);
      SectionsRender(keys, vals, ss);
      RenderConcat(items, [Gap]);
      RenderOne(Gap);
      GapOk();
      TakeSnoc(l0, items, Gap);
      LoadRendered(items + [Gap], l0);
      assert "" + "\n" == "\n";
      AllBound(keys, vals, l.dict);
    }
  }

  lemma RenderNone()
    ensures Render([]) == ""
  {
  }

  /** A map that agrees with the dictionary and reaches all its keys is the dictionary. */
  lemma AllBound(keys: seq<Key>, vals: seq<Value>, d: map<string, Value>)
    requires |keys| == |vals| && WellFormed(keys, vals) && Agrees(d, SlotMap(keys, vals))
    requires forall i :: 0 <= i < |Sections(keys)| ==> Sections(keys)[i] in d
    requires forall i, j ::
      (0 <= i < |keys| && 0 <= j < |Sections(keys)| && keys[i].Some? && Sections(keys)[j] + ":" <= keys[i].value)
      ==> keys[i].value in d
    ensures d == SlotMap(keys, vals)
  {
    hide SlotMap, ItemOk, WellFormed, Sections;
    var m := SlotMap(keys, vals);
    forall x | x in m ensures x in d {
      SlotMapKeys(keys, vals, x);
      var i :| 0 <= i < |keys| && keys[i] == Some(x);
      KeyIsReached(keys, vals, i);
    }
  }
}
