/** iniparser/dictionary.c: a growable slot table with holes, proved to behave as a map. */
module Dictionary {
  import opened CStrings

  // ----- hashing ---------------------------------------------------------------------------------

  /** (unsigned)key[i]: a plain char is signed, so bytes from 128 on extend their sign. */
  function CharWord(c: char): bv32 {
    var b := c as int % 256;
    if b < 128 then b as bv32 else 0xffffff00 + b as bv32
  }

  function HashStep(hash: bv32, c: char): bv32 {
    var h1 := hash + CharWord(c);
    var h2 := h1 + (h1 << 10);
    h2 ^ (h2 >> 6)
  }

  function HashChars(key: string): bv32 {
    if key == "" then 0 else HashStep(HashChars(key[..|key| - 1]), key[|key| - 1])
  }

  function Finish(h: bv32): bv32 {
    var h1 := h + (h << 3);
    var h2 := h1 ^ (h1 >> 11);
    h2 + (h2 << 15)
  }

  function Hash(key: string): bv32 {
    Finish(HashChars(key))
  }

  method DictionaryHash(key: string) returns (hash: bv32)
    ensures hash == Hash(key)
  {
    hide HashStep, Finish;
    hash := 0;
    for i := 0 to |key|
      invariant hash == HashChars(key[..i])
    {
      assert key[..i + 1][..i] == key[..i];
      hash := HashStep(hash, key[i]);
    }
    assert key[..|key|] == key;
    hash := Finish(hash);
  }

  lemma AsWord(b: int, w: bv32)
    requires 0 <= b < 0x1_0000_0000 && w as int == b
    ensures b as bv32 == w
  {
  }

  lemma KnownChars()
    ensures CharWord('a') == 97 && CharWord('b') == 98 && CharWord(200 as char) == 0xffffffc8
  {
    AsWord(97, 97);
    AsWord(98, 98);
    AsWord(200, 200);
  }

  lemma KnownSteps()
    ensures HashStep(0, 'a') == 0x18270 && HashStep(0x18270, 'b') == 0x614f9f9
    ensures Finish(0x18270) == 0xca2e9442 && Finish(0x614f9f9) == 0x45e61e58
  {
    hide CharWord;
    KnownChars();
  }

  /** Two known values of this hash, Jenkins's one-at-a-time. */
  lemma KnownHashes()
    ensures Hash("a") == 0xca2e9442 && Hash("ab") == 0x45e61e58
  {
    hide HashStep, Finish;
    KnownSteps();
    assert HashChars("") == 0;
    assert "a"[..0] == "" && HashChars("a") == HashStep(0, 'a');
    assert "ab"[..1] == "a" && HashChars("ab") == HashStep(HashChars("a"), 'b');
  }

  // ----- slots as a map --------------------------------------------------------------------------

  /** A key, when the slot is taken, and its value, which may be NULL. */
  type Key = Option<string>
  type Value = Option<string>

  ghost predicate DistinctKeys(keys: seq<Key>) {
    forall i, j :: 0 <= i < j < |keys| && keys[i].Some? ==> keys[i] != keys[j]
  }

  ghost function Taken(keys: seq<Key>): (n: nat)
    ensures n <= |keys|
  {
    if keys == [] then 0 else Taken(keys[..|keys| - 1]) + (if keys[|keys| - 1].Some? then 1 else 0)
  }

  ghost function SlotMap(keys: seq<Key>, vals: seq<Value>): map<string, Value>
    requires |keys| == |vals|
  {
    if keys == [] then map[]
    else
      var n := |keys| - 1;
      var m := SlotMap(keys[..n], vals[..n]);
      if keys[n].Some? then m[keys[n].value := vals[n]] else m
  }

  lemma {:induction false} SlotMapLookup(keys: seq<Key>, vals: seq<Value>, i: nat)
    requires |keys| == |vals| && DistinctKeys(keys) && i < |keys| && keys[i].Some?
    ensures keys[i].value in SlotMap(keys, vals) && SlotMap(keys, vals)[keys[i].value] == vals[i]
  {
    var n := |keys| - 1;
    if i < n {
      SlotMapLookup(keys[..n], vals[..n], i);
    }
  }

  lemma {:induction false} SlotMapKeys(keys: seq<Key>, vals: seq<Value>, k: string)
    requires |keys| == |vals|
    ensures k in SlotMap(keys, vals) <==> Some(k) in keys
  {
    if keys != [] {
      var n := |keys| - 1;
      SlotMapKeys(keys[..n], vals[..n], k);
      assert keys == keys[..n] + [keys[n]];
    }
  }

  /** Two slot tables with the same lookups are the same map. */
  lemma SlotMapUpdate(keys: seq<Key>, vals: seq<Value>, i: nat, k: string, v: Value)
    requires |keys| == |vals| && i < |keys| && DistinctKeys(keys)
    requires keys[i] == Some(k) || (keys[i].None? && Some(k) !in keys)
    ensures DistinctKeys(keys[i := Some(k)])
    ensures SlotMap(keys[i := Some(k)], vals[i := v]) == SlotMap(keys, vals)[k := v]
  {
    var keys', vals' := keys[i := Some(k)], vals[i := v];
    var m, m' := SlotMap(keys, vals), SlotMap(keys', vals');
    forall x ensures x in m' <==> x in m[k := v] {
      SlotMapKeys(keys, vals, x);
      SlotMapKeys(keys', vals', x);
      if x != k && Some(x) in keys {
        var j :| 0 <= j < |keys| && keys[j] == Some(x);
        assert keys'[j] == Some(x);
      }
      assert keys'[i] == Some(k);
    }
    forall x | x in m' ensures m'[x] == m[k := v][x] {
      SlotMapKeys(keys', vals', x);
      var j :| 0 <= j < |keys'| && keys'[j] == Some(x);
      SlotMapLookup(keys', vals', j);
      if j != i {
        SlotMapLookup(keys, vals, j);
      }
    }
  }

  lemma SlotMapRemove(keys: seq<Key>, vals: seq<Value>, i: nat, k: string)
    requires |keys| == |vals| && i < |keys| && DistinctKeys(keys) && keys[i] == Some(k)
    ensures DistinctKeys(keys[i := None])
    ensures SlotMap(keys[i := None], vals[i := None]) == SlotMap(keys, vals) - {k}
  {
    var keys', vals' := keys[i := None], vals[i := None];
    var m, m' := SlotMap(keys, vals), SlotMap(keys', vals');
    forall x ensures x in m' <==> x in m - {k} {
      SlotMapKeys(keys, vals, x);
      SlotMapKeys(keys', vals', x);
      if x != k && Some(x) in keys {
        var j :| 0 <= j < |keys| && keys[j] == Some(x);
        assert keys'[j] == Some(x);
      }
    }
    forall x | x in m' ensures m'[x] == (m - {k})[x] {
      SlotMapKeys(keys', vals', x);
      var j :| 0 <= j < |keys'| && keys'[j] == Some(x);
      SlotMapLookup(keys', vals', j);
      SlotMapLookup(keys, vals, j);
    }
  }

  ghost function Blank(k: nat): (b: seq<Option<string>>)
    ensures |b| == k && forall i :: 0 <= i < k ==> b[i] == None
  {
    seq(k, _ => None)
  }

  /** Empty slots at the end add nothing. */
  lemma {:induction false} SlotMapGrow(keys: seq<Key>, vals: seq<Value>, k: nat)
    requires |keys| == |vals|
    ensures SlotMap(keys + Blank(k), vals + Blank(k)) == SlotMap(keys, vals)
    ensures Taken(keys + Blank(k)) == Taken(keys)
  {
    var ks, vs := keys + Blank(k), vals + Blank(k);
    if k == 0 {
      assert ks == keys && vs == vals;
    } else {
      SlotMapGrow(keys, vals, k - 1);
      assert ks[..|ks| - 1] == keys + Blank(k - 1);
      assert vs[..|vs| - 1] == vals + Blank(k - 1);
    }
  }

  lemma GrowDistinct(keys: seq<Key>, k: nat)
    requires DistinctKeys(keys)
    ensures DistinctKeys(keys + Blank(k))
  {
  }

  lemma {:induction false} TakenUpdate(keys: seq<Key>, i: nat, k: Key)
    requires i < |keys|
    ensures Taken(keys[i := k]) ==
            Taken(keys) + (if k.Some? then 1 else 0) - (if keys[i].Some? then 1 else 0)
  {
    var n := |keys| - 1;
    if i < n {
      TakenUpdate(keys[..n], i, k);
      assert keys[i := k][..n] == keys[..n][i := k];
    } else {
      assert keys[i := k][..n] == keys[..n];
    }
  }

  /** With fewer keys than slots there is a hole, and with no keys nothing is stored. */
  lemma {:induction false} TakenMeaning(keys: seq<Key>)
    ensures Taken(keys) < |keys| ==> exists i :: 0 <= i < |keys| && keys[i].None?
    ensures Taken(keys) == 0 ==> forall i :: 0 <= i < |keys| ==> keys[i].None?
  {
    if keys != [] {
      var n := |keys| - 1;
      TakenMeaning(keys[..n]);
      if Taken(keys[..n]) < n {
        var i :| 0 <= i < n && keys[..n][i].None?;
        assert keys[i].None?;
      }
      forall i | 0 <= i < |keys| && Taken(keys) == 0 ensures keys[i].None? {
        assert i < n ==> keys[..n][i] == keys[i];
      }
    }
  }

  const DICTMINSZ := 128

  class Dictionary {
    var key: array<Key>
    var val: array<Value>
    var hash: array<bv32>
    var n: nat
    var size: nat

    ghost predicate Valid()
      reads this, key, val, hash
    {
      && size == key.Length == val.Length == hash.Length && 0 < size
      && key != val && hash as object != key && hash as object != val
      && DistinctKeys(key[..])
      && n == Taken(key[..])
      && forall i :: 0 <= i < size && key[i].Some? ==> hash[i] == Hash(key[i].value)
    }

    /** The dictionary as a map from keys to values that may be NULL. */
    ghost function Map(): map<string, Value>
      reads this, key, val
      requires key.Length == val.Length
    {
      SlotMap(key[..], val[..])
    }

    constructor (initialSize: nat)
      ensures Valid() && Map() == map[] && n == 0
      ensures size == if initialSize < 128 then 128 else initialSize
      ensures fresh(key) && fresh(val) && fresh(hash)
    {
      var s := if initialSize < DICTMINSZ then DICTMINSZ else initialSize;
      size := s;
      key := new Key[s](_ => None);
      val := new Value[s](_ => None);
      hash := new bv32[s](_ => 0);
      n := 0;
      new;
      assert key[..] == [] + Blank(s) && val[..] == [] + Blank(s);
      SlotMapGrow([], [], s);
    }

    /** The slot of a key, or size. Deletion holes are skipped; hashes are compared before keys. */
    method Find(k: string) returns (i: nat)
      requires Valid()
      ensures i <= size
      ensures i < size ==> key[i] == Some(k)
      ensures i == size ==> Some(k) !in key[..]
    {
      var h := DictionaryHash(k);
      i := 0;
      while i < size
        invariant i <= size && forall j :: 0 <= j < i ==> key[j] != Some(k)
      {
        if key[i].Some? && h == hash[i] && k == key[i].value {
          return;
        }
        i := i + 1;
      }
    }

    method Get(k: string, def: Value) returns (v: Value)
      requires Valid()
      ensures v == if k in Map() then Map()[k] else def
    {
      var i := Find(k);
      SlotMapKeys(key[..], val[..], k);
      if i < size {
        SlotMapLookup(key[..], val[..], i);
        return val[i];
      }
      return def;
    }

    /** Doubles the table; what is stored stays where it is. */
    method Grow()
      requires Valid()
      modifies this`key, this`val, this`hash, this`size
      ensures Valid() && size == 2 * old(size) && n == old(n) && Map() == old(Map())
      ensures fresh(key) && fresh(val) && fresh(hash)
    {
      hide SlotMap, Taken, Hash;
      ghost var keys, vals := key[..], val[..];
      SlotMapGrow(keys, vals, size);
      GrowDistinct(keys, size);
      var newVal := new Value[size * 2](_ => None);
      var newKey := new Key[size * 2](_ => None);
      var newHash := new bv32[size * 2](_ => 0);
      forall i | 0 <= i < size {
        newVal[i] := val[i];
      }
      forall i | 0 <= i < size {
        newKey[i] := key[i];
      }
      forall i | 0 <= i < size {
        newHash[i] := hash[i];
      }
      assert newKey[..] == keys + Blank(size);
      assert newVal[..] == vals + Blank(size);
      size := size * 2;
      val, key, hash := newVal, newKey, newHash;
    }

    /** The first free slot from n on, wrapping around at size. */
    method FreeSlot() returns (i: nat)
      requires Valid() && n < size
      ensures i < size && key[i].None?
    {
      TakenMeaning(key[..]);
      ghost var free: nat :| free < size && key[..][free].None?;
      i := n;
      while key[i].Some?
        invariant i < size
        decreases if i <= free then free - i else free + size - i
      {
        i := i + 1;
        if i == size {
          i := 0;
        }
      }
    }

    method Set(k: string, v: Value) returns (rc: int)
      requires Valid()
      modifies this, key, val, hash
      ensures Valid() && Map() == old(Map())[k := v] && rc == 0
      ensures key == old(key) || fresh(key)
      ensures val == old(val) || fresh(val)
      ensures hash == old(hash) || fresh(hash)
    {
      hide SlotMap, Taken, Hash;
      SlotMapKeys(key[..], val[..], k);
      var h := DictionaryHash(k);
      if n > 0 {
        var i := Find(k);
        if i < size {
          SlotMapUpdate(key[..], val[..], i, k, v);
          TakenUpdate(key[..], i, Some(k));
          val[i] := v;
          assert key[..] == old(key[..])[i := Some(k)];
          assert val[..] == old(val[..])[i := v];
          return 0;
        }
      } else {
        TakenMeaning(key[..]);
      }
      assert Some(k) !in key[..];
      ghost var m := Map();
      if n == size {
        Grow();
      }
      Insert(k, v, h, m);
      return 0;
    }

    method Insert(k: string, v: Value, h: bv32, ghost m: map<string, Value>)
      requires Valid() && n < size && k !in Map() && h == Hash(k) && Map() == m
      modifies this`n, key, val, hash
      ensures Valid() && Map() == m[k := v] && n == old(n) + 1
    {
      hide SlotMap, Taken, Hash;
      SlotMapKeys(key[..], val[..], k);
      var i := FreeSlot();
      SlotMapUpdate(key[..], val[..], i, k, v);
      TakenUpdate(key[..], i, Some(k));
      key[i] := Some(k);
      val[i] := v;
      hash[i] := h;
      n := n + 1;
      assert key[..] == old(key[..])[i := Some(k)];
      assert val[..] == old(val[..])[i := v];
    }

    method Unset(k: string)
      requires Valid()
      modifies this`n, key, val, hash
      ensures Valid() && Map() == old(Map()) - {k}
      ensures n == old(n) - (if k in old(Map()) then 1 else 0)
    {
      hide SlotMap, Taken, Hash;
      var i := Find(k);
      SlotMapKeys(key[..], val[..], k);
      if i >= size {
        return;
      }
      SlotMapRemove(key[..], val[..], i, k);
      TakenUpdate(key[..], i, None);
      key[i] := None;
      val[i] := None;
      hash[i] := 0;
      n := n - 1;
      assert key[..] == old(key[..])[i := None];
      assert val[..] == old(val[..])[i := None];
    }
  }
}
