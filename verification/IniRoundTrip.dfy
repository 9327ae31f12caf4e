/** Dumping a dictionary and loading the text gives the dictionary back. */
module IniRoundTrip {
  import opened CStrings
  import opened Dictionary
  import opened IniSpec

  // ----- scanning facts --------------------------------------------------------------------------

  lemma RStripIs(s: string, n: nat)
    requires n <= |s| && (n > 0 ==> !IsSpace(s[n - 1])) && forall i :: n <= i < |s| ==> IsSpace(s[i])
    ensures RStrip(s) == s[..n]
  {
  }

  lemma LStripIs(s: string, n: nat)
    requires n <= |s| && (n < |s| ==> !IsSpace(s[n])) && forall i :: 0 <= i < n ==> IsSpace(s[i])
    ensures LStrip(s) == s[n..]
  {
    var r := LStrip(s);
    assert |s| - |r| == n;
  }

  lemma UptoIs(s: string, a: char, b: char, n: nat)
    requires n <= |s| && forall i :: 0 <= i < n ==> s[i] != a && s[i] != b
    requires n < |s| ==> s[n] == a || s[n] == b
    ensures Upto(s, a, b) == s[..n]
  {
  }

  lemma {:induction false} LowerAll(s: string, n: nat)
    requires |s| <= n
    ensures Lower(s, n) == Lower(s, |s|)
  {
    if s != "" {
      LowerAll(s[1..], n - 1);
    }
  }

  /** s is blanks, then s[i..j] with no blank at its ends, then blanks. */
  ghost predicate TrimAt(s: string, i: nat, j: nat) {
    && i <= j <= |s|
    && (forall k :: 0 <= k < i ==> IsSpace(s[k])) && (forall k :: j <= k < |s| ==> IsSpace(s[k]))
    && (i < j ==> !IsSpace(s[i]) && !IsSpace(s[j - 1]))
  }

  lemma StripIs(s: string, i: nat, j: nat)
    requires i <= j <= |s| && TrimAt(s, i, j)
    ensures Strip(s) == s[i..j] && LStrip(RStrip(s)) == s[i..j]
  {
    hide IsSpace, LStrip, RStrip, TrimAt;
    if i < j {
      LeftFirst(s, i, j);
      RightFirst(s, i, j);
    } else {
      EmptyTrim(s, i);
      AllBlank(s);
    }
  }

  lemma EmptyTrim(s: string, i: nat)
    requires i <= |s| && TrimAt(s, i, i)
    ensures s[i..i] == "" && forall k :: 0 <= k < |s| ==> IsSpace(s[k])
  {
    hide IsSpace;
  }

  lemma AllBlank(s: string)
    requires forall k :: 0 <= k < |s| ==> IsSpace(s[k])
    ensures RStrip(LStrip(s)) == "" && LStrip(RStrip(s)) == ""
  {
    hide IsSpace, LStrip, RStrip;
    LStripIs(s, |s|);
    RStripIs(s, 0);
    LStripIs("", 0);
    RStripIs("", 0);
  }

  lemma LeftFirst(s: string, i: nat, j: nat)
    requires TrimAt(s, i, j) && i < j
    ensures RStrip(LStrip(s)) == s[i..j]
  {
    hide IsSpace, LStrip, RStrip;
    var t := s[i..];
    assert t[..j - i] == s[i..j];
    assert t[j - i - 1] == s[j - 1];
    assert forall k :: j - i <= k < |t| ==> t[k] == s[k + i];
    LStripIs(s, i);
    RStripIs(t, j - i);
  }

  lemma RightFirst(s: string, i: nat, j: nat)
    requires TrimAt(s, i, j) && i < j
    ensures LStrip(RStrip(s)) == s[i..j]
  {
    hide IsSpace, LStrip, RStrip;
    RStripIs(s, j);
    LStripIs(s[..j], i);
    assert s[..j][i..] == s[i..j];
  }

  lemma StripBounds(s: string) returns (i: nat, j: nat)
    ensures i <= j <= |s| && TrimAt(s, i, j) && Strip(s) == s[i..j]
  {
    hide IsSpace, LStrip, RStrip;
    var r := LStrip(s);
    i := |s| - |r|;
    j := i + |RStrip(r)|;
    forall k | j <= k < |s| ensures IsSpace(s[k]) {
      assert s[k] == r[k - i];
    }
    assert i < j ==> s[i] == r[0] && s[j - 1] == r[j - i - 1];
  }

  lemma BlankInFront(v: string, i: nat, j: nat)
    requires TrimAt(v, i, j)
    ensures TrimAt(" " + v, i + 1, j + 1) && (" " + v)[i + 1..j + 1] == v[i..j]
  {
    hide IsSpace;
    SpaceFacts();
    var s := " " + v;
    assert s[0] == ' ' && forall k :: 0 <= k < |v| ==> s[k + 1] == v[k];
    forall k | 0 <= k < i + 1 ensures IsSpace(s[k]) {
      assert k > 0 ==> s[k] == v[k - 1];
    }
    forall k | j + 1 <= k < |s| ensures IsSpace(s[k]) {
      assert s[k] == v[k - 1];
    }
    assert s[i + 1..j + 1] == v[i..j];
  }

  /** A leading blank makes no difference, nor does the order of stripping the two ends. */
  lemma StripAfterBlank(v: string)
    ensures LStrip(RStrip(" " + v)) == Strip(v)
  {
    hide LStrip, RStrip, Strip, IsSpace, TrimAt;
    var i, j := StripBounds(v);
    BlankInFront(v, i, j);
    StripIs(" " + v, i + 1, j + 1);
  }

  // ----- which values survive --------------------------------------------------------------------

  ghost predicate OpensQuote(v: string, q: char) {
    |v| >= 2 && v[0] == q && v[1] != q
  }

  /** What the loader makes of the text after the equals sign. */
  function ValueOf(w: string): string {
    if w != "" && w[0] == '"' && Upto(w[1..], '"', '"') != "" then Upto(w[1..], '"', '"')
    else if w != "" && w[0] == '\'' && Upto(w[1..], '\'', '\'') != "" then Upto(w[1..], '\'', '\'')
    else
      var value := Strip(Upto(w, ';', '#'));
      if value == "\"\"" || value == "''" then "" else value
  }

  /**
   * The values that survive a dump and a load on one line: no edge blanks, no comment sign, not an
   * empty pair of quotes, and no quote that opens something.
   */
  ghost predicate ValueOk(v: string) {
    && Strip(v) == v && ';' !in v && '#' !in v
    && v != "\"\"" && v != "''" && !OpensQuote(v, '"') && !OpensQuote(v, '\'')
  }

  lemma QuoteOpens(w: string, q: char)
    requires w != "" && w[0] == q
    ensures Upto(w[1..], q, q) != "" <==> OpensQuote(w, q)
    ensures OpensQuote(w, q) ==> q !in Upto(w[1..], q, q)
  {
  }

  lemma StripTwice(v: string)
    ensures Strip(Strip(v)) == Strip(v)
  {
    hide IsSpace, Strip;
    var i, j := StripBounds(v);
    StripIs(v[i..j], 0, j - i);
  }

  lemma StripWithin(u: string, c: char)
    ensures c in Strip(u) ==> c in u
  {
    var i, j := StripBounds(u);
  }

  lemma UptoWhole(w: string)
    ensures ';' !in w && '#' !in w ==> Upto(w, ';', '#') == w
    ensures ';' !in Upto(w, ';', '#') && '#' !in Upto(w, ';', '#')
  {
    if ';' !in w && '#' !in w {
      UptoIs(w, ';', '#', |w|);
    }
  }

  /** Exactly these values come back. */
  lemma ValueSurvives(v: string)
    ensures ValueOf(Strip(v)) == v <==> ValueOk(v)
  {
    hide Strip, Upto;
    var w := Strip(v);
    var u := Upto(w, ';', '#');
    StripTwice(v);
    StripTwice(u);
    UptoWhole(w);
    StripWithin(u, ';');
    StripWithin(u, '#');
    StripIs("", 0, 0);
    if w != "" {
      QuoteOpens(w, w[0]);
      StripWithin(v, w[0]);
      assert w[0] in w;
    }
    if ValueOk(v) {
      assert w == v && u == v;
    }
  }

  // ----- one line --------------------------------------------------------------------------------

  /** Key parts the loader reads back: stripped, in lower case, nothing that starts another kind of line. */
  ghost predicate KeyOk(k: string) {
    && k != "" && OneLine(k) && '=' !in k
    && Strip(k) == k && Lower(k, |k|) == k
    && k[0] != '#' && k[0] != ';' && k[0] != '['
  }

  ghost predicate NameOk(s: string) {
    && s != "" && OneLine(s) && ']' !in s && ':' !in s
    && Strip(s) == s && Lower(s, |s|) == s
  }

  /** The key field as written: the key and at least one blank. */
  function Field(k: string): (f: string)
    ensures |f| > |k| && f[..|k|] == k && forall i :: |k| <= i < |f| ==> f[i] == ' '
  {
    Pad30(k) + " "
  }

  lemma FieldStrips(k: string)
    requires KeyOk(k)
    ensures Strip(Field(k)) == k && !IsSpace(Field(k)[0]) && '=' !in Field(k) && Field(k)[0] == k[0]
  {
    hide Strip, Field, Lower;
    var i, j := StripBounds(k);
    assert i == 0 && j == |k|;
    StripIs(Field(k), 0, |k|);
    assert Field(k)[0] == k[0];
    forall n | 0 <= n < |Field(k)| ensures Field(k)[n] != '=' {
      assert n < |k| ==> Field(k)[n] == k[n];
    }
  }

  /** Trailing blanks of an entry line belong to its value. */
  lemma EntryStripped(k: string, v: string)
    requires KeyOk(k)
    ensures var l := Field(k) + "=" + RStrip(" " + v);
            RStrip(EntryLine(k, v)) == l && Strip(l) == l && RStrip(EntryLine(k, v) + "\n") == l
  {
    hide RStrip, Strip, IsSpace, KeyOk, Lower;
    FieldStrips(k);
    var f, t := Field(k) + "=", " " + v;
    var r := RStrip(t);
    var l := f + r;
    assert EntryLine(k, v) == f + t;
    SpaceFacts();
    forall i | |l| <= i < |f + t| ensures IsSpace((f + t)[i]) {
      assert (f + t)[i] == t[i - |f|];
    }
    assert !IsSpace(l[|l| - 1]) && (f + t)[..|l|] == l by {
      assert r != "" ==> l[|l| - 1] == r[|r| - 1];
    }
    RStripIs(f + t, |l|);
    RStripIs(f + t + "\n", |l|);
    assert (f + t + "\n")[..|l|] == l;
    StripIs(l, 0, |l|);
  }

  lemma SpaceFacts()
    ensures !IsSpace('=') && !IsSpace(']') && !IsSpace('[') && IsSpace('\n') && IsSpace(' ')
  {
  }

  /** How the loader splits an entry line at its equals sign. */
  lemma EntrySplits(k: string, v: string)
    requires KeyOk(k)
    ensures KeyThenRest(Field(k) + "=" + RStrip(" " + v)) == Some((Field(k), Strip(v)))
  {
    hide RStrip, LStrip, Strip, KeyOk, Field;
    FieldStrips(k);
    var l := Field(k) + "=" + RStrip(" " + v);
    UptoIs(l, '=', '=', |Field(k)|);
    assert l[..|Field(k)|] == Field(k);
    assert l[|Field(k)| + 1..] == RStrip(" " + v);
    StripAfterBlank(v);
  }

  /** The line of an entry is read as that key with the value ValueOf makes of it. */
  lemma EntryParses(k: string, v: string, section: string)
    requires KeyOk(k)
    ensures ParseLine(RStrip(EntryLine(k, v)), section) == ValueLine(k, ValueOf(Strip(v)))
  {
    hide RStrip, LStrip, Strip, Field, Lower, IsSpace, ParsedValue, ValueOf, EntryLine, KeyThenRest, Upto;
    var l := Field(k) + "=" + RStrip(" " + v);
    EntryStripped(k, v);
    EntrySplits(k, v);
    FieldStrips(k);
    assert |l| - 1 >= |Field(k)| && l[0] == k[0];
    LowerAll(k, |l| - 1);
    EntryValue(l, Field(k), Strip(v));
  }

  /** The four sscanf patterns, tried in order, give ValueOf. */
  lemma EntryValue(l: string, f: string, w: string)
    requires KeyThenRest(l) == Some((f, w))
    ensures ParsedValue(l) == Some((f, ValueOf(w)))
  {
    hide KeyThenRest, Strip, Upto;
    StripIs("", 0, 0);
    assert Upto(w, ';', '#') == "" ==> Strip(Upto(w, ';', '#')) == "";
  }

  /** An entry line comes back as the same key and value exactly for the values of ValueOk. */
  lemma EntryLineRoundTrip(k: string, v: string, section: string)
    requires KeyOk(k)
    ensures ParseLine(RStrip(EntryLine(k, v)), section) == ValueLine(k, v) <==> ValueOk(v)
  {
    hide *;
    EntryParses(k, v, section);
    ValueSurvives(v);
  }

  lemma HeadParses(s: string, section: string)
    requires NameOk(s)
    ensures RStrip("[" + s + "]\n") == "[" + s + "]"
    ensures ParseLine("[" + s + "]", section) == SectionLine(s)
  {
    hide RStrip, LStrip, Strip, Lower, IsSpace;
    var l := "[" + s + "]";
    SpaceFacts();
    RStripIs("[" + s + "]\n", |l|);
    assert ("[" + s + "]\n")[..|l|] == l;
    StripIs(l, 0, |l|);
    assert l[0..|l|] == l && l[1..] == s + "]";
    UptoIs(s + "]", ']', ']', |s|);
    assert (s + "]")[..|s|] == s;
    LowerAll(s, |l| - 1);
  }

  // ----- a file of well-formed lines -------------------------------------------------------------

  datatype Item = Gap | Head(section: string) | Entry(key: string, val: string)

  function LineOf(item: Item): string {
    match item
    case Gap => ""
    case Head(s) => "[" + s + "]"
    case Entry(k, v) => EntryLine(k, v)
  }

  function Render(items: seq<Item>): string {
    if items == [] then "" else LineOf(items[0]) + "\n" + Render(items[1..])
  }

  /** Lines the loader reads one by one: short enough for its buffer and not continued. */
  ghost predicate ItemOk(item: Item) {
    |LineOf(item)| <= 1022 &&
    match item
    case Gap => true
    case Head(s) => NameOk(s)
    case Entry(k, v) => KeyOk(k) && OneLine(v) && ValueOk(v) && (v != "" ==> v[|v| - 1] != '\\')
  }

  function Take(l: Loader, item: Item): Loader {
    match item
    case Gap => l
    case Head(s) => l.(section := s, dict := l.dict[s := None])
    case Entry(k, v) => l.(dict := l.dict[l.section + ":" + k := Some(v)])
  }

  function TakeAll(l: Loader, items: seq<Item>): Loader
    decreases |items|
  {
    if items == [] then l else TakeAll(Take(l, items[0]), items[1..])
  }

  lemma {:induction false} TakeConcat(l: Loader, xs: seq<Item>, ys: seq<Item>)
    ensures TakeAll(l, xs + ys) == TakeAll(TakeAll(l, xs), ys)
    decreases |xs|
  {
    if xs == [] {
      assert xs + ys == ys;
    } else {
      assert (xs + ys)[1..] == xs[1..] + ys;
      TakeConcat(Take(l, xs[0]), xs[1..], ys);
    }
  }

  lemma {:induction false} RenderConcat(xs: seq<Item>, ys: seq<Item>)
    ensures Render(xs + ys) == Render(xs) + Render(ys)
  {
    if xs == [] {
      assert xs + ys == ys;
    } else {
      assert (xs + ys)[1..] == xs[1..] + ys;
      RenderConcat(xs[1..], ys);
      assert LineOf(xs[0]) + "\n" + (Render(xs[1..]) + Render(ys))
          == LineOf(xs[0]) + "\n" + Render(xs[1..]) + Render(ys);
    }
  }

  /** fgets takes exactly one line. */
  lemma FgetsLine(line: string, rest: string)
    requires OneLine(line) && |line| <= ASCIILINESZ - 2
    ensures Fgets(line + "\n" + rest, ASCIILINESZ - 1) == line + "\n"
    ensures (line + "\n" + rest)[|line| + 1..] == rest && CStr("" + (line + "\n")) == line + "\n"
  {
    var text := line + "\n" + rest;
    IndexOfUnique(text, '\n', |line|);
    assert text[..|line| + 1] == line + "\n";
    var l := "" + (line + "\n");
    assert l == line + "\n";
    IndexOfUnique(l, '\0', |l|);
    assert l[..|l|] == l;
  }

  lemma EntryOneLine(k: string, v: string)
    requires OneLine(k) && OneLine(v)
    ensures OneLine(EntryLine(k, v))
  {
    assert OneLine(Pad30(k));
    assert OneLine(" = ");
  }

  /** An entry line ends where its value ends, or at the equals sign. */
  lemma EntryEnds(v: string)
    requires Strip(v) == v
    ensures RStrip(" " + v) == if v == "" then "" else " " + v
  {
    hide Strip, RStrip, IsSpace;
    SpaceFacts();
    var i, j := StripBounds(v);
    assert i == 0 && j == |v|;
    if v == "" {
      RStripIs(" " + v, 0);
    } else {
      RStripIs(" " + v, |v| + 1);
      assert (" " + v)[..|v| + 1] == " " + v;
    }
  }

  /** What the loader keeps of the line of an item, and what it makes of it. */
  ghost predicate Understood(line: string, item: Item, l: Loader) {
    var r := RStrip(line + "\n");
    OneLine(line) && line != "" && r != "" && r[|r| - 1] != '\\' && LoadLine(l, r) == Take(l, item)
  }

  lemma HeadUnderstood(s: string, l: Loader)
    requires NameOk(s)
    ensures Understood("[" + s + "]", Head(s), l)
  {
    hide ParseLine, RStrip, Strip, Lower;
    HeadParses(s, l.section);
    var line := "[" + s + "]";
    assert line + "\n" == "[" + s + "]\n";
    assert line[|line| - 1] == ']';
  }

  lemma EntryUnderstood(k: string, v: string, l: Loader)
    requires ItemOk(Entry(k, v))
    ensures Understood(EntryLine(k, v), Entry(k, v), l)
  {
    hide ParseLine, RStrip, Strip, Lower, Field, EntryLine, IsSpace, OneLine;
    EntryStripped(k, v);
    EntryLineRoundTrip(k, v, l.section);
    EntryEnds(v);
    EntryOneLine(k, v);
    var r := RStrip(EntryLine(k, v) + "\n");
    assert r[|r| - 1] == if v == "" then '=' else v[|v| - 1];
    assert |RStrip(EntryLine(k, v))| > 0;
  }

  lemma LoadGap(rest: string, l: Loader)
    ensures LoadFrom("\n" + rest, "", l) == LoadFrom(rest, "", l)
  {
    hide LoadLine, RStrip, Fgets;
    FgetsLine("", rest);
    assert "" + "\n" + rest == "\n" + rest && "" + "\n" == "\n";
  }

  lemma LoadUnderstood(line: string, item: Item, rest: string, l: Loader)
    requires Understood(line, item, l) && |line| <= ASCIILINESZ - 2
    ensures LoadFrom(line + "\n" + rest, "", l) == LoadFrom(rest, "", Take(l, item))
  {
    hide LoadLine, RStrip, Fgets, CStr, Take;
    FgetsLine(line, rest);
    var text, chunk := line + "\n" + rest, line + "\n";
    assert chunk[|chunk| - 1] == '\n' && |chunk| > 1 && text != "";
    assert LoadFrom(text, "", l) == LoadFrom(text[|chunk|..], "", LoadLine(l, RStrip(chunk)));
  }

  /** Loading one well-formed line. */
  lemma LoadItem(item: Item, rest: string, l: Loader)
    requires ItemOk(item)
    ensures LoadFrom(LineOf(item) + "\n" + rest, "", l) == LoadFrom(rest, "", Take(l, item))
  {
    hide LoadFrom, Understood, EntryLine;
    match item {
      case Gap =>
        assert "" + "\n" + rest == "\n" + rest;
        LoadGap(rest, l);
      case Head(s) =>
        HeadUnderstood(s, l);
        LoadUnderstood("[" + s + "]", item, rest, l);
      case Entry(k, v) =>
        EntryUnderstood(k, v, l);
        LoadUnderstood(EntryLine(k, v), item, rest, l);
    }
  }

  lemma {:induction false} LoadRendered(items: seq<Item>, l: Loader)
    requires forall i :: 0 <= i < |items| ==> ItemOk(items[i])
    ensures LoadFrom(Render(items), "", l) == Some(TakeAll(l, items))
    decreases |items|
  {
    if items != [] {
      LoadItem(items[0], Render(items[1..]), l);
      LoadRendered(items[1..], Take(l, items[0]));
    }
  }

  // ----- characters and columns ------------------------------------------------------------------

  /** isspace in the C locale: the blank and the codes 9 to 13. */
  lemma SpaceCodes(c: char)
    ensures IsSpace(c) <==> c as int == 32 || 9 <= c as int <= 13
  {
  }

  /** Lower case adds 32 to the codes 65 to 90 and leaves every other character, and the length up to n. */
  lemma {:induction false} LowerCodes(s: string, n: nat, i: nat)
    requires i < |Lower(s, n)|
    ensures Lower(s, n)[i] as int == if 65 <= s[i] as int <= 90 then s[i] as int + 32 else s[i] as int
    decreases i
  {
    if i > 0 {
      LowerCodes(s[1..], n - 1, i - 1);
    }
  }

  /** The equals sign of an entry stands in column 32, or behind a longer key and one blank. */
  lemma EntryColumns(key: string, val: string)
    ensures var line, n := EntryLine(key, val), if |key| < 30 then 30 else |key|;
            |line| == n + 3 + |val| && line[..|key|] == key && line[n..n + 3] == " = " && line[n + 3..] == val
            && forall i :: |key| <= i < n ==> line[i] == ' '
  {
    var line, n := EntryLine(key, val), if |key| < 30 then 30 else |key|;
    assert line[..n] == Pad30(key) && line[..|key|] == Pad30(key)[..|key|];
    assert forall i :: |key| <= i < n ==> line[i] == Pad30(key)[i];
  }
}
