/** Domain names in DNS messages, as server/resolve.cpp writes and reads them (RFC 1035, 3.1 and 4.1.4). */
module DnsName {
  import opened Bytes
  import opened CStrings

  type Label = seq<Byte>

  const DOT: Byte := 46

  // ----- the forms of a name ---------------------------------------------------------------------

  /** Labels that can stand in a message: no byte is zero, and neither length nor byte reads as a pointer. */
  predicate IsLabel(l: Label) {
    1 <= |l| < 192 && forall i :: 0 <= i < |l| ==> 0 < l[i] < 192
  }

  predicate AllLabels(ls: seq<Label>) {
    forall i :: 0 <= i < |ls| ==> IsLabel(ls[i])
  }

  /** Every label behind its length: a name in a message, without the final zero. */
  function Packed(ls: seq<Label>): seq<Byte>
    requires AllLabels(ls)
  {
    if ls == [] then [] else [|ls[0]| as Byte] + ls[0] + Packed(ls[1..])
  }

  /** Every label followed by a dot. */
  function Dots(ls: seq<Label>): seq<Byte> {
    if ls == [] then [] else ls[0] + [DOT] + Dots(ls[1..])
  }

  /** The dotted name. */
  function Dotted(ls: seq<Label>): seq<Byte> {
    var d := Dots(ls);
    if d == [] then [] else d[..|d| - 1]
  }

  // ----- the copy loop ---------------------------------------------------------------------------

  /** Where the two bytes of a pointer point. */
  function Target(buf: seq<Byte>, pos: nat): nat
    requires pos + 1 < |buf| && buf[pos] >= 192
  {
    buf[pos] as int * 256 + buf[pos + 1] as int - 49152
  }

  /** Where the loop of ReadName goes next. */
  function Next(buf: seq<Byte>, pos: nat): nat
    requires pos < |buf| && (buf[pos] >= 192 ==> pos + 1 < |buf|)
  {
    if buf[pos] >= 192 then Target(buf, pos) else pos + 1
  }

  /** The loop meets a zero after so many rounds, and looks at nothing outside the message. */
  predicate Ends(buf: seq<Byte>, pos: nat, rounds: nat)
    decreases rounds
  {
    pos < |buf| &&
    if buf[pos] == 0 then rounds == 0
    else rounds > 0 && (buf[pos] >= 192 ==> pos + 1 < |buf|) && Ends(buf, Next(buf, pos), rounds - 1)
  }

  /** The bytes the loop copies: all it meets but pointers. */
  function Copied(buf: seq<Byte>, pos: nat, rounds: nat): seq<Byte>
    requires Ends(buf, pos, rounds)
    decreases rounds
  {
    if buf[pos] == 0 then []
    else if buf[pos] >= 192 then Copied(buf, Target(buf, pos), rounds - 1)
    else [buf[pos]] + Copied(buf, pos + 1, rounds - 1)
  }

  /** The bytes the name occupies where it stands: up to its zero, or through its first pointer. */
  function Occupied(buf: seq<Byte>, pos: nat, rounds: nat): nat
    requires Ends(buf, pos, rounds)
    decreases rounds
  {
    if buf[pos] == 0 then 1
    else if buf[pos] >= 192 then 2
    else 1 + Occupied(buf, pos + 1, rounds - 1)
  }

  /** The first half of ReadName copies byte by byte, lengths and labels alike, and follows pointers. */
  method CopyName(buf: seq<Byte>, pos: nat, name: array<Byte>, ghost rounds: nat) returns (p: nat, count: nat)
    requires Ends(buf, pos, rounds) && |Copied(buf, pos, rounds)| < name.Length
    modifies name
    ensures p == |Copied(buf, pos, rounds)| < name.Length
    ensures name[..p] == Copied(buf, pos, rounds) && name[p] == 0
    ensures count == Occupied(buf, pos, rounds)
  {
    ghost var left := rounds;
    ghost var all := Copied(buf, pos, rounds);
    var reader: nat, jumped := pos, false;
    p, count := 0, 1;
    while buf[reader] != 0
      invariant Ends(buf, reader, left) && p <= |all|
      invariant all == name[..p] + Copied(buf, reader, left)
      invariant Occupied(buf, pos, rounds) == if jumped then count + 1 else count - 1 + Occupied(buf, reader, left)
      decreases left
    {
      if buf[reader] >= 192 {
        reader := Target(buf, reader);
        jumped := true;
      } else {
        ghost var before, rest := name[..p], Copied(buf, reader + 1, left - 1);
        assert all == before + [buf[reader]] + rest;
        name[p] := buf[reader];
        p := p + 1;
        assert name[..p] == before + [buf[reader]];
        reader := reader + 1;
        if !jumped {
          count := count + 1;
        }
      }
      left := left - 1;
    }
    name[p] := 0;
    if jumped {
      count := count + 1;
    }
  }

  // ----- when the loop ends ----------------------------------------------------------------------

  /** From a position the loop can end in one way only. */
  lemma {:induction false} EndsOnce(buf: seq<Byte>, pos: nat, m: nat, n: nat)
    requires Ends(buf, pos, m) && Ends(buf, pos, n)
    ensures m == n
    decreases m
  {
    if buf[pos] != 0 {
      EndsOnce(buf, Next(buf, pos), m - 1, n - 1);
    }
  }

  /** The positions the loop visits. */
  ghost function Visited(buf: seq<Byte>, pos: nat, rounds: nat): set<nat>
    requires Ends(buf, pos, rounds)
    decreases rounds
  {
    {pos} + if buf[pos] == 0 then {} else Visited(buf, Next(buf, pos), rounds - 1)
  }

  ghost predicate EndsWithin(buf: seq<Byte>, pos: nat, rounds: nat) {
    exists m: nat :: m <= rounds && Ends(buf, pos, m)
  }

  /** No position is visited twice: from each one the loop has another number of rounds to go. */
  lemma {:induction false} VisitedOnce(buf: seq<Byte>, pos: nat, rounds: nat)
    requires Ends(buf, pos, rounds)
    ensures |Visited(buf, pos, rounds)| == rounds + 1
    ensures forall x :: x in Visited(buf, pos, rounds) ==> x < |buf| && EndsWithin(buf, x, rounds)
    decreases rounds
  {
    hide Next;
    var all := Visited(buf, pos, rounds);
    assert forall x :: x in all && x == pos ==> Ends(buf, x, rounds);
    if buf[pos] == 0 {
      assert all == {pos};
    } else {
      var rest := Visited(buf, Next(buf, pos), rounds - 1);
      VisitedOnce(buf, Next(buf, pos), rounds - 1);
      if pos in rest {
        var m: nat :| m <= rounds - 1 && Ends(buf, pos, m);
        EndsOnce(buf, pos, m, rounds);
      }
      assert all == {pos} + rest;
    }
  }

  lemma {:induction false} Bounded(xs: set<nat>, n: nat)
    requires forall x :: x in xs ==> x < n
    ensures |xs| <= n
  {
    if n > 0 {
      Bounded(xs - {n - 1}, n - 1);
    } else {
      assert xs == {};
    }
  }

  /** On any message the loop ends, if it ends at all, in fewer rounds than the message has bytes. */
  lemma EndsSoon(buf: seq<Byte>, pos: nat, rounds: nat)
    requires Ends(buf, pos, rounds)
    ensures rounds < |buf|
  {
    VisitedOnce(buf, pos, rounds);
    Bounded(Visited(buf, pos, rounds), |buf|);
  }

  /** Bytes the loop just copies. */
  predicate Plain(buf: seq<Byte>, from: nat, to: nat) {
    from <= to <= |buf| && forall i :: from <= i < to ==> 0 < buf[i] < 192
  }

  /** A pointer back into its own run is followed for ever. */
  lemma {:induction false} IntoRunNeverEnds(buf: seq<Byte>, pos: nat, t: nat, q: nat, rounds: nat)
    requires t <= pos <= q && Plain(buf, t, q) && q + 1 < |buf| && buf[q] >= 192 && Target(buf, q) == t
    ensures !Ends(buf, pos, rounds)
    decreases rounds
  {
    if rounds > 0 {
      IntoRunNeverEnds(buf, Next(buf, pos), t, q, rounds - 1);
    }
  }

  /** Every pointer the loop follows in these rounds goes back from where it stands. */
  predicate GoesBack(buf: seq<Byte>, pos: nat, rounds: nat)
    decreases rounds
  {
    rounds > 0 && pos < |buf| && buf[pos] != 0 && (buf[pos] >= 192 ==> pos + 1 < |buf|) ==>
      (buf[pos] >= 192 ==> Target(buf, pos) < pos) && GoesBack(buf, Next(buf, pos), rounds - 1)
  }

  /** Every followed pointer goes before the start of the run of bytes it stands in, down to a zero. */
  predicate PastOnly(buf: seq<Byte>, pos: nat, start: nat)
    decreases start, |buf| - pos
  {
    pos < |buf| &&
    if buf[pos] == 0 then true
    else if buf[pos] >= 192 then
      pos + 1 < |buf| && Target(buf, pos) < start && PastOnly(buf, Target(buf, pos), Target(buf, pos))
    else PastOnly(buf, pos + 1, start)
  }

  lemma {:induction false} PastOnlyEnds(buf: seq<Byte>, pos: nat, start: nat) returns (rounds: nat)
    requires PastOnly(buf, pos, start)
    ensures Ends(buf, pos, rounds)
    decreases start, |buf| - pos
  {
    if buf[pos] == 0 {
      rounds := 0;
    } else if buf[pos] >= 192 {
      rounds := PastOnlyEnds(buf, Target(buf, pos), Target(buf, pos));
      rounds := rounds + 1;
    } else {
      rounds := PastOnlyEnds(buf, pos + 1, start);
      rounds := rounds + 1;
    }
  }

  lemma {:induction false} EndsPastOnly(buf: seq<Byte>, pos: nat, start: nat, rounds: nat)
    requires Plain(buf, start, pos) && Ends(buf, pos, rounds) && GoesBack(buf, pos, rounds)
    ensures PastOnly(buf, pos, start)
    decreases rounds
  {
    if buf[pos] >= 192 {
      var t := Target(buf, pos);
      if start <= t {
        IntoRunNeverEnds(buf, t, t, pos, rounds - 1);
      } else {
        EndsPastOnly(buf, t, t, rounds - 1);
      }
    } else if buf[pos] != 0 {
      EndsPastOnly(buf, pos + 1, start, rounds - 1);
    }
  }

  ghost predicate EndsAtAll(buf: seq<Byte>, pos: nat) {
    exists rounds: nat :: Ends(buf, pos, rounds)
  }

  /**
   * When the followed pointers go back from where they stand, the loop ends exactly when each of them
   * goes before the start of its run.
   */
  lemma EndsExactly(buf: seq<Byte>, pos: nat)
    requires pos <= |buf| && forall rounds: nat :: GoesBack(buf, pos, rounds)
    ensures EndsAtAll(buf, pos) <==> PastOnly(buf, pos, pos)
  {
    if EndsAtAll(buf, pos) {
      var rounds: nat :| Ends(buf, pos, rounds);
      EndsPastOnly(buf, pos, pos, rounds);
    }
    if PastOnly(buf, pos, pos) {
      var rounds := PastOnlyEnds(buf, pos, pos);
    }
  }

  const LOOP: seq<Byte> := [1, 97, 192, 0]

  /** A name whose pointer goes back to its own start. */
  lemma LoopNeverEnds(rounds: nat)
    ensures !Ends(LOOP, 0, rounds)
  {
    IntoRunNeverEnds(LOOP, 0, 0, 2, rounds);
  }

  // ----- names in a message ----------------------------------------------------------------------

  /** A name stands at pos: labels, then a zero or a pointer to the rest; jumps bounds the pointers. */
  predicate Readable(buf: seq<Byte>, pos: nat, jumps: nat)
    decreases jumps, |buf| - pos
  {
    pos < |buf| &&
    if buf[pos] == 0 then true
    else if buf[pos] >= 192 then jumps > 0 && pos + 1 < |buf| && Readable(buf, Target(buf, pos), jumps - 1)
    else
      pos + 1 + buf[pos] as int <= |buf| && IsLabel(buf[pos + 1..pos + 1 + buf[pos] as int])
      && Readable(buf, pos + 1 + buf[pos] as int, jumps)
  }

  /** The labels of the name, with the pointers followed. */
  function Labels(buf: seq<Byte>, pos: nat, jumps: nat): (ls: seq<Label>)
    requires Readable(buf, pos, jumps)
    ensures AllLabels(ls)
    decreases jumps, |buf| - pos
  {
    if buf[pos] == 0 then []
    else if buf[pos] >= 192 then Labels(buf, Target(buf, pos), jumps - 1)
    else [buf[pos + 1..pos + 1 + buf[pos] as int]] + Labels(buf, pos + 1 + buf[pos] as int, jumps)
  }

  /** The bytes of the name where it stands, counted label by label. */
  function Extent(buf: seq<Byte>, pos: nat, jumps: nat): nat
    requires Readable(buf, pos, jumps)
    decreases |buf| - pos
  {
    if buf[pos] == 0 then 1
    else if buf[pos] >= 192 then 2
    else 1 + buf[pos] as int + Extent(buf, pos + 1 + buf[pos] as int, jumps)
  }

  lemma PlainStep(buf: seq<Byte>, pos: nat, rounds: nat)
    requires pos < |buf| && 0 < buf[pos] < 192 && Ends(buf, pos + 1, rounds)
    ensures Ends(buf, pos, rounds + 1)
    ensures Copied(buf, pos, rounds + 1) == [buf[pos]] + Copied(buf, pos + 1, rounds)
    ensures Occupied(buf, pos, rounds + 1) == 1 + Occupied(buf, pos + 1, rounds)
  {
  }

  /** The loop copies plain bytes one by one. */
  lemma {:induction false} PlainCopied(buf: seq<Byte>, pos: nat, to: nat, rounds: nat) returns (n: nat)
    requires pos <= to && Plain(buf, pos, to) && Ends(buf, to, rounds)
    ensures Ends(buf, pos, n) && Copied(buf, pos, n) == buf[pos..to] + Copied(buf, to, rounds)
    ensures Occupied(buf, pos, n) == to - pos + Occupied(buf, to, rounds)
    decreases |buf| - pos
  {
    hide Ends, Copied, Occupied;
    if pos == to {
      n := rounds;
      assert buf[pos..to] + Copied(buf, to, rounds) == Copied(buf, to, rounds);
    } else {
      n := PlainCopied(buf, pos + 1, to, rounds);
      PlainStep(buf, pos, n);
      n := n + 1;
      Associates([buf[pos]], buf[pos + 1..to], Copied(buf, to, rounds));
      assert buf[pos..to] == [buf[pos]] + buf[pos + 1..to];
    }
  }

  lemma Associates(a: seq<Byte>, b: seq<Byte>, c: seq<Byte>)
    ensures a + (b + c) == a + b + c
  {
  }

  lemma PackedCons(l: Label, ls: seq<Label>)
    requires IsLabel(l) && AllLabels(ls)
    ensures AllLabels([l] + ls) && Packed([l] + ls) == [|l| as Byte] + l + Packed(ls)
  {
    assert ([l] + ls)[1..] == ls;
  }

  /** On a name the loop ends, and copies exactly its labels behind their lengths. */
  lemma {:induction false} NameCopied(buf: seq<Byte>, pos: nat, jumps: nat) returns (rounds: nat)
    requires Readable(buf, pos, jumps)
    ensures Ends(buf, pos, rounds) && Copied(buf, pos, rounds) == Packed(Labels(buf, pos, jumps))
    ensures Occupied(buf, pos, rounds) == Extent(buf, pos, jumps)
    decreases jumps, |buf| - pos
  {
    if buf[pos] == 0 {
      rounds := 0;
    } else if buf[pos] >= 192 {
      rounds := NameCopied(buf, Target(buf, pos), jumps - 1);
      rounds := rounds + 1;
    } else {
      hide Target, Packed, Ends, Copied, Occupied;
      var n: nat := buf[pos];
      var l, to := buf[pos + 1..pos + 1 + n], pos + 1 + n;
      rounds := NameCopied(buf, to, jumps);
      LabelPlain(buf, pos, l);
      PackedCons(l, Labels(buf, to, jumps));
      rounds := PlainCopied(buf, pos, to, rounds);
    }
  }

  lemma LabelPlain(buf: seq<Byte>, pos: nat, l: Label)
    requires IsLabel(l) && pos + 1 + |l| <= |buf| && buf[pos] == |l| && buf[pos + 1..pos + 1 + |l|] == l
    ensures Plain(buf, pos, pos + 1 + |l|) && buf[pos..pos + 1 + |l|] == [|l| as Byte] + l
  {
    forall i | pos + 1 <= i < pos + 1 + |l| ensures 0 < buf[i] < 192 {
      assert buf[i] == l[i - pos - 1];
    }
  }

  // ----- dots ------------------------------------------------------------------------------------

  lemma {:induction false} DotsConcat(xs: seq<Label>, ys: seq<Label>)
    ensures Dots(xs + ys) == Dots(xs) + Dots(ys)
  {
    if xs == [] {
      assert xs + ys == ys;
    } else {
      assert (xs + ys)[1..] == xs[1..] + ys;
      DotsConcat(xs[1..], ys);
      assert xs[0] + [DOT] + (Dots(xs[1..]) + Dots(ys)) == xs[0] + [DOT] + Dots(xs[1..]) + Dots(ys);
    }
  }

  lemma DotsSnoc(xs: seq<Label>, l: Label)
    ensures Dots(xs + [l]) == Dots(xs) + l + [DOT]
  {
    DotsConcat(xs, [l]);
    assert [l][1..] == [];
    assert Dots(xs) + (l + [DOT] + []) == Dots(xs) + l + [DOT];
  }

  lemma {:induction false} SameLength(ls: seq<Label>)
    requires AllLabels(ls)
    ensures |Dots(ls)| == |Packed(ls)| && |ls| <= |Dots(ls)|
  {
    if ls != [] {
      SameLength(ls[1..]);
    }
  }

  /** Moves one label down over its length byte and puts a dot behind it. */
  method ShiftLabel(name: array<Byte>, i: nat, ghost l: Label)
    requires i + |l| < name.Length && name[i] == |l|
    requires name[i + 1..i + 1 + |l|] == l
    modifies name
    ensures name[..] == old(name[..i]) + l + [DOT] + old(name[i + 1 + |l|..])
  {
    ghost var was := name[..];
    var p: nat := name[i];
    var k := i;
    for j := 0 to p
      invariant k == i + j
      invariant name[..i] == was[..i] && name[k..] == was[k..]
      invariant name[i..k] == l[..j]
    {
      assert name[k + 1] == name[k..][1] == was[k + 1] == was[i + 1..i + 1 + |l|][j];
      name[k] := name[k + 1];
      k := k + 1;
      assert name[k..] == was[k..] by {
        assert was[k - 1..][1..] == was[k..];
      }
      assert name[i..k] == name[i..k - 1] + [l[j]];
    }
    name[k] := DOT;
    assert name[..] == name[..i] + name[i..k] + [name[k]] + name[k + 1..];
    assert name[k + 1..] == was[k + 1..];
  }

  /** The first i bytes of the name have their dots, the others up to n are still packed. */
  ghost predicate HalfDotted(cells: seq<Byte>, i: nat, n: nat, ls: seq<Label>, m: nat)
    requires AllLabels(ls)
  {
    && i <= n <= |cells| && m <= |ls|
    && cells[..i] == Dots(ls[..m]) && cells[i..n] == Packed(ls[m..])
  }

  lemma LabelHere(cells: seq<Byte>, i: nat, n: nat, ls: seq<Label>, m: nat)
    requires AllLabels(ls) && HalfDotted(cells, i, n, ls, m) && i < n
    ensures m < |ls| && i + 1 + |ls[m]| <= n && cells[i] == |ls[m]|
    ensures cells[i + 1..i + 1 + |ls[m]|] == ls[m] && cells[i + 1 + |ls[m]|..n] == Packed(ls[m + 1..])
  {
    hide Packed, Dots;
    FirstLabel(ls[m..], cells[i..n]);
    var l := ls[m];
    assert ls[m..][0] == l && ls[m..][1..] == ls[m + 1..];
    SliceOfSlice(cells, i, n, 1, 1 + |l|);
    SliceOfSlice(cells, i, n, 1 + |l|, n - i);
  }

  lemma SliceOfSlice(s: seq<Byte>, i: nat, n: nat, a: nat, b: nat)
    requires i <= n <= |s| && a <= b <= n - i
    ensures s[i..n][a..b] == s[i + a..i + b]
  {
    var t, u := s[i..n][a..b], s[i + a..i + b];
    assert forall k :: 0 <= k < |t| ==> t[k] == u[k];
  }

  lemma LabelDotted(was: seq<Byte>, cells: seq<Byte>, i: nat, n: nat, ls: seq<Label>, m: nat)
    requires AllLabels(ls) && HalfDotted(was, i, n, ls, m) && i < n && m < |ls|
    requires i + 1 + |ls[m]| <= n && was[i + 1 + |ls[m]|..n] == Packed(ls[m + 1..])
    requires cells == was[..i] + ls[m] + [DOT] + was[i + 1 + |ls[m]|..]
    ensures HalfDotted(cells, i + 1 + |ls[m]|, n, ls, m + 1)
  {
    hide Packed, Dots;
    var k := i + 1 + |ls[m]|;
    DotsSnoc(ls[..m], ls[m]);
    assert ls[..m] + [ls[m]] == ls[..m + 1];
    assert cells[..k] == was[..i] + ls[m] + [DOT];
    assert cells[k..n] == was[k..n];
  }

  /** The second half of ReadName turns length bytes into dots, in place, and cuts the last dot. */
  method DotsInPlace(name: array<Byte>, n: nat, ghost ls: seq<Label>)
    requires AllLabels(ls) && ls != [] && n < name.Length && name[..n] == Packed(ls)
    modifies name
    ensures 0 < n && name[..n - 1] == Dotted(ls) && name[n - 1] == 0
  {
    hide Packed, Dots, HalfDotted;
    var i := 0;
    ghost var m := 0;
    SameLength(ls);
    StartDots(name[..], n, ls);
    while i < n
      invariant i <= n && HalfDotted(name[..], i, n, ls, m)
    {
      LabelHere(name[..], i, n, ls, m);
      ghost var was := name[..];
      var len: nat := name[i];
      assert was[..i] == name[..i] && was[i + 1 + |ls[m]|..] == name[i + 1 + |ls[m]|..];
      assert name[i + 1..i + 1 + |ls[m]|] == was[i + 1..i + 1 + |ls[m]|];
      ShiftLabel(name, i, ls[m]);
      LabelDotted(was, name[..], i, n, ls, m);
      i := i + len + 1;
      m := m + 1;
    }
    AllDotted(name[..], n, ls, m);
    assert name[..n] == name[..][..n];
    name[i - 1] := 0;
    assert name[..n - 1] == Dots(ls)[..n - 1];
  }

  lemma StartDots(cells: seq<Byte>, n: nat, ls: seq<Label>)
    requires AllLabels(ls) && n <= |cells| && cells[..n] == Packed(ls)
    ensures HalfDotted(cells, 0, n, ls, 0)
  {
    assert ls[0..] == ls && ls[..0] == [];
  }

  lemma AllDotted(cells: seq<Byte>, n: nat, ls: seq<Label>, m: nat)
    requires AllLabels(ls) && HalfDotted(cells, n, n, ls, m)
    ensures cells[..n] == Dots(ls)
  {
    PackedNone(ls[m..]);
    assert ls[..m] == ls;
  }

  lemma PackedNone(ls: seq<Label>)
    requires AllLabels(ls) && Packed(ls) == []
    ensures ls == []
  {
  }

  lemma FirstLabel(ls: seq<Label>, packed: seq<Byte>)
    requires AllLabels(ls) && packed == Packed(ls) && packed != []
    ensures ls != [] && 1 + |ls[0]| <= |packed| && packed[0] == |ls[0]|
    ensures packed[1..1 + |ls[0]|] == ls[0] && packed[1 + |ls[0]|..] == Packed(ls[1..])
  {
    assert packed[1..1 + |ls[0]|] == ls[0];
  }

  /**
   * ReadName: the dotted name with pointers followed, and the bytes it takes where it stands. The
   * source's 256 bytes have to hold the name. For the empty name the source writes before its array.
   */
  method ReadName(buf: seq<Byte>, pos: nat, ghost jumps: nat) returns (name: Option<seq<Byte>>, count: nat)
    requires Readable(buf, pos, jumps) && |Packed(Labels(buf, pos, jumps))| < 256
    ensures var ls := Labels(buf, pos, jumps); name == if ls == [] then None else Some(Dotted(ls))
    ensures count == Extent(buf, pos, jumps)
  {
    hide Packed, Labels, Readable, Extent, Dotted, Copied, Occupied, Ends;
    var cells := new Byte[256];
    var p: nat;
    ghost var rounds := NameCopied(buf, pos, jumps);
    p, count := CopyName(buf, pos, cells, rounds);
    PackedSome(Labels(buf, pos, jumps));
    if p == 0 {
      return None, count;
    }
    DotsInPlace(cells, p, Labels(buf, pos, jumps));
    name := Some(cells[..p - 1]);
  }

  lemma PackedSome(ls: seq<Label>)
    requires AllLabels(ls)
    ensures Packed(ls) != [] <==> ls != []
  {
  }

  // ----- writing ---------------------------------------------------------------------------------

  function DotIndex(h: seq<Byte>): (k: nat)
    ensures k <= |h| && (forall i :: 0 <= i < k ==> h[i] != DOT) && (k < |h| ==> h[k] == DOT)
  {
    if h == [] || h[0] == DOT then 0 else 1 + DotIndex(h[1..])
  }

  /** The parts of a text that end in a dot. */
  function Parts(h: seq<Byte>): seq<Label> {
    var k := DotIndex(h);
    if k == |h| then [] else [h[..k]] + Parts(h[k + 1..])
  }

  /** The labels of a host name, which has no final dot of its own. */
  function Split(host: seq<Byte>): seq<Label> {
    Parts(host + [DOT])
  }

  /** Lengths and labels as written, whatever the lengths are. */
  function Written(ls: seq<Label>): seq<Byte> {
    if ls == [] then [] else [(|ls[0]| % 256) as Byte] + ls[0] + Written(ls[1..])
  }

  lemma PartsStep(h: seq<Byte>, k: nat)
    requires k < |h| && h[k] == DOT && forall i :: 0 <= i < k ==> h[i] != DOT
    ensures Written(Parts(h)) == [(k % 256) as Byte] + h[..k] + Written(Parts(h[k + 1..]))
    ensures |Written(Parts(h))| == k + 1 + |Written(Parts(h[k + 1..]))|
  {
    assert DotIndex(h) == k;
    var ls := Parts(h);
    assert ls[0] == h[..k] && ls[1..] == Parts(h[k + 1..]);
  }

  lemma NoParts(h: seq<Byte>)
    requires forall i :: 0 <= i < |h| ==> h[i] != DOT
    ensures Written(Parts(h)) == []
  {
  }

  /** Every byte of the host is written once, with one length per label. */
  lemma {:induction false} PartsLength(h: seq<Byte>)
    ensures |Written(Parts(h))| <= |h|
    ensures h != [] && h[|h| - 1] == DOT ==> |Written(Parts(h))| == |h|
  {
    var k := DotIndex(h);
    if k < |h| {
      PartsLength(h[k + 1..]);
      PartsStep(h, k);
    }
  }

  /** One length byte and its label. */
  method WriteLabel(dns: array<Byte>, d: nat, l: Label)
    requires d + 1 + |l| <= dns.Length
    modifies dns
    ensures dns[..d + 1 + |l|] == old(dns[..d]) + ([(|l| % 256) as Byte] + l)
  {
    dns[d] := (|l| % 256) as Byte;
    for k := 0 to |l|
      invariant dns[..d + 1 + k] == old(dns[..d]) + ([(|l| % 256) as Byte] + l[..k])
    {
      dns[d + 1 + k] := l[k];
    }
  }

  /** Writes each label behind its length when its dot is reached, then the final zero. */
  method ChangetoDNSNameFormat(dns: array<Byte>, host: seq<Byte>)
    requires dns.Length >= |host| + 2
    modifies dns
    ensures |Written(Split(host))| == |host| + 1
    ensures dns[..|host| + 2] == Written(Split(host)) + [0]
  {
    hide Written, Parts, DotIndex;
    var h := host + [DOT];
    ghost var all := Written(Parts(h));
    PartsLength(h);
    var lock, d := 0, 0;
    assert h[0..] == h && dns[..0] + all == all;
    for i := 0 to |h|
      invariant 0 <= lock == d <= i && forall k :: lock <= k < i ==> h[k] != DOT
      invariant i > 0 && h[i - 1] == DOT ==> lock == i
      invariant dns[..d] + Written(Parts(h[lock..])) == all
    {
      if h[i] == DOT {
        var l := h[lock..i];
        LabelStep(h, lock, i);
        WriteLabel(dns, d, l);
        d := d + 1 + |l|;
        lock := i + 1;
      }
    }
    assert lock == |h|;
    NoParts(h[lock..]);
    dns[d] := 0;
    assert dns[..d] + [] == dns[..d];
  }

  lemma LabelStep(h: seq<Byte>, lock: nat, i: nat)
    requires lock <= i < |h| && h[i] == DOT && forall k :: lock <= k < i ==> h[k] != DOT
    ensures Written(Parts(h[lock..]))
            == [((i - lock) % 256) as Byte] + h[lock..i] + Written(Parts(h[i + 1..]))
  {
    hide Written, Parts, DotIndex;
    var t := h[lock..];
    PartsStep(t, i - lock);
    assert t[..i - lock] == h[lock..i] && t[i - lock + 1..] == h[i + 1..];
  }

  // ----- round trip ------------------------------------------------------------------------------

  /** Labels of a host name: no dot inside. */
  predicate HostLabels(ls: seq<Label>) {
    AllLabels(ls) && forall i :: 0 <= i < |ls| ==> DOT !in ls[i]
  }

  lemma {:induction false} WrittenPacked(ls: seq<Label>)
    requires AllLabels(ls)
    ensures Written(ls) == Packed(ls)
  {
    if ls != [] {
      WrittenPacked(ls[1..]);
    }
  }

  lemma DotIndexIs(h: seq<Byte>, k: nat)
    requires k < |h| && h[k] == DOT && forall i :: 0 <= i < k ==> h[i] != DOT
    ensures DotIndex(h) == k
  {
  }

  lemma {:induction false} PartsOfDots(ls: seq<Label>)
    requires HostLabels(ls)
    ensures Parts(Dots(ls)) == ls
  {
    hide DotIndex, IsLabel;
    var h := Dots(ls);
    if ls != [] {
      PartsOfDots(ls[1..]);
      var l, rest := ls[0], Dots(ls[1..]);
      assert h == l + [DOT] + rest;
      forall i | 0 <= i < |l| ensures h[i] != DOT {
        assert h[i] == l[i];
      }
      DotIndexIs(h, |l|);
      assert h[..|l|] == l && h[|l| + 1..] == rest;
      assert ls == [l] + ls[1..];
    } else {
      assert DotIndex(h) == 0;
    }
  }

  lemma {:induction false} DotsEnd(ls: seq<Label>)
    requires ls != []
    ensures Dots(ls) != [] && Dots(ls)[|Dots(ls)| - 1] == DOT
  {
    if |ls| > 1 {
      DotsEnd(ls[1..]);
    }
  }

  /** A dotted host name splits into the labels it was made of. */
  lemma SplitDotted(ls: seq<Label>)
    requires HostLabels(ls) && ls != []
    ensures Split(Dotted(ls)) == ls && Written(Split(Dotted(ls))) == Packed(ls)
  {
    DotsEnd(ls);
    assert Dotted(ls) + [DOT] == Dots(ls);
    PartsOfDots(ls);
    WrittenPacked(ls);
  }

  /** A written name with its zero can be read wherever it stands in a message. */
  lemma {:induction false} WrittenIsReadable(buf: seq<Byte>, at: nat, ls: seq<Label>, jumps: nat)
    requires AllLabels(ls) && at + |Packed(ls)| < |buf|
    requires buf[at..at + |Packed(ls)|] == Packed(ls) && buf[at + |Packed(ls)|] == 0
    ensures Readable(buf, at, jumps) && Labels(buf, at, jumps) == ls
    ensures Extent(buf, at, jumps) == |Packed(ls)| + 1
    decreases |ls|
  {
    if ls != [] {
      var l, rest := ls[0], Packed(ls[1..]);
      assert Packed(ls) == [|l| as Byte] + l + rest;
      hide Packed;
      LabelAndRest(buf, at, |l| as Byte, l, rest);
      WrittenIsReadable(buf, at + 1 + |l|, ls[1..], jumps);
    }
  }

  lemma LabelAndRest(buf: seq<Byte>, at: nat, n: Byte, l: Label, rest: seq<Byte>)
    requires at + 1 + |l| + |rest| <= |buf|
    requires buf[at..at + |[n] + l + rest|] == [n] + l + rest
    ensures buf[at] == n && buf[at + 1..at + 1 + |l|] == l
    ensures buf[at + 1 + |l|..at + 1 + |l| + |rest|] == rest
  {
    var k := |[n] + l + rest|;
    assert buf[at..at + k][0] == n;
    SliceOfSlice(buf, at, at + k, 1, 1 + |l|);
    SliceOfSlice(buf, at, at + k, 1 + |l|, k);
    assert ([n] + l + rest)[1..1 + |l|] == l && ([n] + l + rest)[1 + |l|..] == rest;
  }

  /**
   * ReadName undoes ChangetoDNSNameFormat: the bytes written for a host name, anywhere in a message,
   * read back as the host name, and take one byte more than the name and its length byte.
   */
  lemma NameRoundTrip(pre: seq<Byte>, ls: seq<Label>, post: seq<Byte>)
    requires HostLabels(ls) && ls != []
    ensures var host := Dotted(ls);
            var buf := pre + (Written(Split(host)) + [0]) + post;
            Readable(buf, |pre|, 0) && Dotted(Labels(buf, |pre|, 0)) == host
            && Extent(buf, |pre|, 0) == |host| + 2
  {
    hide Packed, Dots, Readable, Labels, Extent, Split, Written;
    SplitDotted(ls);
    var packed := Packed(ls);
    var buf := pre + (packed + [0]) + post;
    NameWithin(pre, packed, post);
    WrittenIsReadable(buf, |pre|, ls, 0);
    SameLength(ls);
    DotsEnd(ls);
  }

  lemma NameWithin(pre: seq<Byte>, packed: seq<Byte>, post: seq<Byte>)
    ensures var buf := pre + (packed + [0]) + post;
            buf[|pre|..|pre| + |packed|] == packed && buf[|pre| + |packed|] == 0
  {
    var buf := pre + (packed + [0]) + post;
    assert forall k :: 0 <= k < |packed| ==> buf[|pre| + k] == packed[k];
  }

  /** "www.a" as it stands in a message: byte codes, section 3.1 of RFC 1035. */
  lemma KnownName()
    ensures Written(Split([119, 119, 119, 46, 97])) == [3, 119, 119, 119, 1, 97]
  {
    var www: Label, a: Label := [119, 119, 119], [97];
    var ls := [www, a];
    assert IsLabel(www) && IsLabel(a) && ls[1..] == [a] && [a][1..] == [];
    PackedCons(a, []);
    PackedCons(www, [a]);
    assert [a] + [] == [a] && [www] + [a] == ls && Packed([]) == [];
    assert Dots([a]) == [97, 46] && Packed([a]) == [1, 97];
    assert Dots(ls) == www + [46] + Dots([a]);
    assert Packed(ls) == [3] + www + Packed([a]);
    assert Dotted(ls) == [119, 119, 119, 46, 97];
    hide Packed, Dots, Dotted, Split, Written;
    SplitDotted(ls);
  }

  // ----- compressed names ------------------------------------------------------------------------

  /** The two bytes of a pointer to o, section 4.1.4 of RFC 1035. */
  function Pointer(o: nat): (p: seq<Byte>)
    requires o < 16384
    ensures |p| == 2
  {
    [(192 + o / 256) as Byte, (o % 256) as Byte]
  }

  /** A pointer is followed to where it points. */
  lemma PointerFollowed(buf: seq<Byte>, at: nat, o: nat)
    requires o < 16384 && at + 1 < |buf| && buf[at] == 192 + o / 256 && buf[at + 1] == o % 256
    ensures buf[at] >= 192 && Target(buf, at) == o && Next(buf, at) == o
  {
  }

  /** Labels and a pointer behind them are read as the labels and the name pointed to. */
  lemma {:induction false} CompressedIsReadable(buf: seq<Byte>, at: nat, ls: seq<Label>, o: nat, jumps: nat)
    requires AllLabels(ls) && o < 16384 && at + |Packed(ls)| + 2 <= |buf|
    requires buf[at..at + |Packed(ls)|] == Packed(ls) && buf[at + |Packed(ls)|..at + |Packed(ls)| + 2] == Pointer(o)
    requires Readable(buf, o, jumps)
    ensures Readable(buf, at, jumps + 1) && Labels(buf, at, jumps + 1) == ls + Labels(buf, o, jumps)
    ensures Extent(buf, at, jumps + 1) == |Packed(ls)| + 2
    decreases |ls|
  {
    hide Packed, Pointer, Readable, Labels, Extent, IsLabel;
    if ls == [] {
      NonePacked();
      PointerOnly(buf, at, o, jumps);
      assert [] + Labels(buf, o, jumps) == Labels(buf, o, jumps);
    } else {
      var l, rest := ls[0], Packed(ls[1..]);
      PackedFirst(ls);
      LabelBeforePointer(buf, at, l, rest, o);
      CompressedIsReadable(buf, at + 1 + |l|, ls[1..], o, jumps);
      OneLabelMore(buf, at, l, jumps + 1);
      LabelsCons(ls, Labels(buf, o, jumps));
    }
  }

  lemma NonePacked()
    ensures Packed([]) == []
  {
  }

  lemma PackedFirst(ls: seq<Label>)
    requires AllLabels(ls) && ls != []
    ensures IsLabel(ls[0]) && AllLabels(ls[1..]) && |ls[0]| < 256
    ensures Packed(ls) == [|ls[0]| as Byte] + ls[0] + Packed(ls[1..])
  {
  }

  lemma LabelBeforePointer(buf: seq<Byte>, at: nat, l: Label, rest: seq<Byte>, o: nat)
    requires IsLabel(l) && o < 16384
    requires var n := |[|l| as Byte] + l + rest|;
             at + n + 2 <= |buf| && buf[at..at + n] == [|l| as Byte] + l + rest && buf[at + n..at + n + 2] == Pointer(o)
    ensures var to := at + 1 + |l|;
            && buf[at] == |l| && buf[at + 1..to] == l && buf[to..to + |rest|] == rest
            && buf[to + |rest|..to + |rest| + 2] == Pointer(o)
  {
    hide Pointer;
    LabelAndRest(buf, at, |l| as Byte, l, rest);
    assert |[|l| as Byte] + l + rest| == 1 + |l| + |rest|;
  }

  lemma PointerOnly(buf: seq<Byte>, at: nat, o: nat, jumps: nat)
    requires o < 16384 && at + 2 <= |buf| && buf[at..at + 2] == Pointer(o) && Readable(buf, o, jumps)
    ensures Readable(buf, at, jumps + 1) && Labels(buf, at, jumps + 1) == Labels(buf, o, jumps)
    ensures Extent(buf, at, jumps + 1) == 2
  {
    assert buf[at..at + 2][0] == buf[at] && buf[at..at + 2][1] == buf[at + 1];
    PointerFollowed(buf, at, o);
  }

  lemma OneLabelMore(buf: seq<Byte>, at: nat, l: Label, jumps: nat)
    requires IsLabel(l) && at + 1 + |l| <= |buf| && buf[at] == |l| && buf[at + 1..at + 1 + |l|] == l
    requires Readable(buf, at + 1 + |l|, jumps)
    ensures Readable(buf, at, jumps) && Labels(buf, at, jumps) == [l] + Labels(buf, at + 1 + |l|, jumps)
    ensures Extent(buf, at, jumps) == 1 + |l| + Extent(buf, at + 1 + |l|, jumps)
  {
  }

  lemma LabelsCons(ls: seq<Label>, more: seq<Label>)
    requires ls != []
    ensures [ls[0]] + (ls[1..] + more) == ls + more
  {
  }

  /**
   * A name written at o, and labels with a pointer to it anywhere else: ReadName gives the labels and the
   * name joined, and counts the labels and the pointer.
   */
  lemma CompressedRoundTrip(buf: seq<Byte>, o: nat, at: nat, head: seq<Label>, tail: seq<Label>)
    requires HostLabels(head) && HostLabels(tail) && head != [] && tail != [] && o < 16384
    requires StandsAt(buf, o, Written(Split(Dotted(tail))) + [0])
    requires StandsAt(buf, at, Written(Split(Dotted(head))) + Pointer(o))
    ensures Readable(buf, at, 1) && Dotted(Labels(buf, at, 1)) == Dotted(head) + [DOT] + Dotted(tail)
    ensures Extent(buf, at, 1) == |Dotted(head)| + 3
  {
    hide Packed, Readable, Labels, Extent, Split, Written, Pointer, IsLabel, Dots;
    SplitDotted(head);
    SplitDotted(tail);
    StandsFirst(buf, o, Packed(tail), [0]);
    StandsFirst(buf, at, Packed(head), Pointer(o));
    WrittenIsReadable(buf, o, tail, 0);
    CompressedIsReadable(buf, at, head, o, 0);
    JoinedDots(head, tail);
    SameLength(head);
    DotsEnd(head);
  }

  /** The bytes stand in the message at that offset. */
  predicate StandsAt(buf: seq<Byte>, at: nat, bytes: seq<Byte>) {
    at + |bytes| <= |buf| && buf[at..at + |bytes|] == bytes
  }

  lemma StandsFirst(buf: seq<Byte>, at: nat, xs: seq<Byte>, ys: seq<Byte>)
    requires StandsAt(buf, at, xs + ys)
    ensures buf[at..at + |xs|] == xs && buf[at + |xs|..at + |xs| + |ys|] == ys
    ensures ys != [] ==> buf[at + |xs|] == ys[0]
  {
    var n := |xs + ys|;
    SliceOfSlice(buf, at, at + n, 0, |xs|);
    SliceOfSlice(buf, at, at + n, |xs|, n);
    assert (xs + ys)[..|xs|] == xs && (xs + ys)[|xs|..] == ys;
    assert ys != [] ==> buf[at..at + n][|xs|] == ys[0];
  }

  lemma JoinedDots(head: seq<Label>, tail: seq<Label>)
    requires head != [] && tail != []
    ensures Dotted(head + tail) == Dotted(head) + [DOT] + Dotted(tail)
  {
    hide Dots;
    DotsConcat(head, tail);
    DotsEnd(head);
    DotsEnd(tail);
    var h, t := Dots(head), Dots(tail);
    assert h == h[..|h| - 1] + [DOT];
    assert (h + t)[..|h + t| - 1] == h + t[..|t| - 1];
  }
}
