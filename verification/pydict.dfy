/**
 * Python's insertion-ordered dict (and OrderedDict) as a sequence of entries.
 *
 * A lookup compares each stored key with the probe (`stored == probe`) and
 * takes the first that matches; an assignment to a present key replaces the
 * value in place and keeps the stored key object and its position; a new key
 * is appended.
 */
module PyDict {
  import opened PyObjects
  import opened Convert

  /** The entries of a dict, in insertion order. */
  type Dict = seq<(Value, Value)>

  function Keys(d: Dict): (r: seq<Value>)
    ensures |r| == |d| && forall i :: 0 <= i < |d| ==> r[i] == d[i].0
  {
    seq(|d|, i requires 0 <= i < |d| => d[i].0)
  }

  function Values(d: Dict): (r: seq<Value>)
    ensures |r| == |d| && forall i :: 0 <= i < |d| ==> r[i] == d[i].1
  {
    seq(|d|, i requires 0 <= i < |d| => d[i].1)
  }

  /** The first position whose stored key equals `probe`, if any. */
  function IndexOf(keys: seq<Value>, probe: Value): (r: Option<nat>)
    ensures r.Some? ==> r.value < |keys| && PyEq(keys[r.value], probe)
    ensures r.Some? ==> forall j :: 0 <= j < r.value ==> !PyEq(keys[j], probe)
    ensures r.None? <==> forall j :: 0 <= j < |keys| ==> !PyEq(keys[j], probe)
  {
    if keys == [] then None
    else if PyEq(keys[0], probe) then Some(0)
    else
      match IndexOf(keys[1..], probe)
      case None => None
      case Some(j) => Some(j + 1)
  }

  /** `x in list(xs)` */
  predicate InList(xs: seq<Value>, x: Value)
  {
    exists i :: 0 <= i < |xs| && PyEq(xs[i], x)
  }

  function Find(d: Dict, probe: Value): Option<nat>
  {
    IndexOf(Keys(d), probe)
  }

  /** `d[probe]` for a probe whose hash is defined, with None for a missing key. */
  function Lookup(d: Dict, probe: Value): (r: Option<Value>)
    ensures r.Some? <==> Find(d, probe).Some?
  {
    match Find(d, probe)
    case None => None
    case Some(i) => Some(d[i].1)
  }

  /** `d[key] = value` */
  function Store(d: Dict, key: Value, value: Value): (r: Dict)
    ensures Lookup(r, key) == Some(value)
    ensures Find(d, key).Some? ==> Keys(r) == Keys(d) && |r| == |d|
    ensures Find(d, key).None? ==> Keys(r) == Keys(d) + [key] && |r| == |d| + 1
  {
    match Find(d, key)
    case Some(i) =>
      var r := d[i := (d[i].0, value)];
      assert Keys(r) == Keys(d);
      r
    case None =>
      PyEqReflexive(key);
      var r := d + [(key, value)];
      assert Keys(r) == Keys(d) + [key];
      assert PyEq(Keys(r)[|d|], key);
      r
  }

  /** A store changes only the entry under `key` (or appends it): every other
      entry stays where it was, and the keys stay distinct. */
  lemma StoreEntries(d: Dict, key: Value, value: Value)
    ensures forall i :: 0 <= i < |d| && Find(d, key) != Some(i) ==> Store(d, key, value)[i] == d[i]
    ensures forall i :: 0 <= i < |Store(d, key, value)| ==>
              (i < |d| && Store(d, key, value)[i] == d[i]) || Store(d, key, value)[i].1 == value
    ensures forall i :: 0 <= i < |Store(d, key, value)| ==>
              (i < |d| && Store(d, key, value)[i].0 == d[i].0) || Store(d, key, value)[i].0 == key
    ensures DistinctKeys(d) ==> DistinctKeys(Store(d, key, value))
  {
    match Find(d, key)
    case Some(i) =>
    case None =>
      var r := Store(d, key, value);
      assert forall j :: 0 <= j < |d| ==> !PyEq(Keys(d)[j], key);
      assert forall j :: 0 <= j < |d| ==> r[j] == d[j];
  }

  /** `del d[...]` of the entry at position `i`. */
  function RemoveAt(d: Dict, i: nat): (r: Dict)
    requires i < |d|
    ensures |r| == |d| - 1
    ensures forall j :: 0 <= j < i ==> r[j] == d[j]
    ensures forall j :: i <= j < |r| ==> r[j] == d[j + 1]
  {
    d[..i] + d[i + 1..]
  }

  /** Removing an entry keeps the remaining keys distinct and hashable. */
  /** Removing one entry of a dict leaves every other key reading its own value. */
  lemma RemoveAtKeepsLookup(d: Dict, i: nat, j: nat)
    requires DistinctKeys(d) && i < |d| && j < |d| && j != i
    ensures Lookup(RemoveAt(d, i), d[j].0) == Some(d[j].1)
  {
    var r := RemoveAt(d, i);
    var k := d[j].0;
    var j' := if j < i then j else j - 1;
    assert r[j'] == d[j];
    PyEqReflexive(k);
    forall a | 0 <= a < j'
      ensures !PyEq(Keys(r)[a], k)
    {
      var b := if a < i then a else a + 1;
      assert Keys(r)[a] == r[a].0 == d[b].0;
    }
    assert PyEq(Keys(r)[j'], k);
    assert Find(r, k) == Some(j');
  }

  lemma RemoveAtKeepsKeys(d: Dict, i: nat)
    requires i < |d| && DistinctKeys(d) && HashableKeys(d)
    ensures DistinctKeys(RemoveAt(d, i)) && HashableKeys(RemoveAt(d, i))
  {
    var r := RemoveAt(d, i);
    forall a, b | 0 <= a < b < |r|
      ensures !PyEq(r[a].0, r[b].0)
    {
      var a', b' := if a < i then a else a + 1, if b < i then b else b + 1;
      assert r[a] == d[a'] && r[b] == d[b'];
    }
    forall a | 0 <= a < |r|
      ensures Hashable(r[a].0)
    {
      assert r[a] == d[if a < i then a else a + 1];
    }
  }

  /** No stored key equals a key stored after it: what a dict's insertions keep. */
  predicate DistinctKeys(d: Dict)
  {
    forall i, j :: 0 <= i < j < |d| ==> !PyEq(d[i].0, d[j].0)
  }

  /** Every key is a Convertible and no two keys share a frozen form: the shape
      of a table keyed by `convertible(...)`. */
  predicate FrozenKeyed(d: Dict)
  {
    && (forall i :: 0 <= i < |d| ==> d[i].0.VConv?)
    && (forall i, j :: 0 <= i < j < |d| ==> WrappedKey(d[i].0) != WrappedKey(d[j].0))
  }

  /** Every key of the entries can be hashed. */
  predicate HashableKeys(pairs: seq<(Value, Value)>)
  {
    forall i :: 0 <= i < |pairs| ==> Hashable(pairs[i].0)
  }

  /** `dict(pairs)`: the pairs inserted one after another; an unhashable key raises TypeError. */
  function FromPairs(pairs: seq<(Value, Value)>): (r: Result<Dict>)
    ensures r.Ok? <==> HashableKeys(pairs)
    ensures r.Ok? ==> DistinctKeys(r.value) && HashableKeys(r.value)
  {
    if pairs == [] then Ok([])
    else
      var last := pairs[|pairs| - 1];
      match FromPairs(pairs[..|pairs| - 1])
      case Err(e) => Err(e)
      case Ok(d) =>
        if !Hashable(last.0) then Err(TypeError)
        else
          assert forall i :: 0 <= i < |pairs| - 1 ==> pairs[i] == pairs[..|pairs| - 1][i];
          StoreEntries(d, last.0, last.1);
          Ok(Store(d, last.0, last.1))
  }

  /** A key present before a store is present after it. */
  lemma StoreKeepsFound(d: Dict, key: Value, value: Value, p: Value)
    requires Find(d, p).Some?
    ensures Find(Store(d, key, value), p).Some?
  {
    var r := Store(d, key, value);
    var k := Find(d, p).value;
    assert Keys(r)[k] == Keys(d)[k];
  }

  /** Every key given to `dict(pairs)` is a key of the result. */
  lemma {:induction false} FromPairsHoldsEveryKey(pairs: seq<(Value, Value)>, d: Dict, i: nat)
    requires FromPairs(pairs) == Ok(d) && i < |pairs|
    ensures Find(d, pairs[i].0).Some?
    decreases |pairs|
  {
    var n := |pairs| - 1;
    var e := FromPairs(pairs[..n]).value;
    assert d == Store(e, pairs[n].0, pairs[n].1);
    if i < n {
      assert pairs[..n][i] == pairs[i];
      FromPairsHoldsEveryKey(pairs[..n], e, i);
      StoreKeepsFound(e, pairs[n].0, pairs[n].1, pairs[i].0);
      assert Find(d, pairs[i].0).Some?;
    } else {
      assert i == n;
      assert Lookup(d, pairs[n].0).Some?;
      assert Find(d, pairs[n].0).Some?;
    }
  }

  /** In a table keyed by Convertibles, a Convertible probe finds the one
      entry with its frozen form, or nothing when no entry has it. */
  lemma FindByFrozenKey(d: Dict, p: Value)
    requires FrozenKeyed(d) && p.VConv?
    ensures forall i :: 0 <= i < |d| ==> (Find(d, p) == Some(i) <==> WrappedKey(d[i].0) == WrappedKey(p))
    ensures Find(d, p).None? <==> forall i :: 0 <= i < |d| ==> WrappedKey(d[i].0) != WrappedKey(p)
  {
    forall i | 0 <= i < |d|
      ensures PyEq(d[i].0, p) <==> WrappedKey(d[i].0) == WrappedKey(p)
    {
      PyEqOnConvertibles(d[i].0, p);
    }
  }

  /** Storing under a Convertible key keeps a table frozen-keyed and changes
      the lookup of exactly the probes with that key's frozen form. */
  lemma {:induction false} StoreByFrozenKey(d: Dict, k: Value, v: Value, p: Value)
    requires FrozenKeyed(d) && k.VConv? && p.VConv?
    ensures FrozenKeyed(Store(d, k, v))
    ensures Lookup(Store(d, k, v), p) == if WrappedKey(k) == WrappedKey(p) then Some(v) else Lookup(d, p)
  {
    var r := Store(d, k, v);
    StoreEntries(d, k, v);
    FindByFrozenKey(d, k);
    assert forall i :: 0 <= i < |r| ==> r[i].0 == Keys(r)[i];
    if Find(d, k).None? {
      assert forall i :: 0 <= i < |d| ==> r[i].0 == d[i].0;
      assert r[|d|].0 == k;
    } else {
      assert forall i :: 0 <= i < |d| ==> r[i].0 == d[i].0;
    }
    assert FrozenKeyed(r);
    FindByFrozenKey(r, p);
    FindByFrozenKey(d, p);
    if WrappedKey(k) != WrappedKey(p) {
      match Find(d, p)
      case None =>
      case Some(i) =>
        assert Find(r, p) == Some(i);
    }
  }

  /** The entries stored one after another, as a run of `d[k] = v` statements. */
  function StoreAll(d: Dict, pairs: seq<(Value, Value)>): Dict
    decreases |pairs|
  {
    if pairs == [] then d
    else Store(StoreAll(d, pairs[..|pairs| - 1]), pairs[|pairs| - 1].0, pairs[|pairs| - 1].1)
  }

  predicate ConvertibleKeys(pairs: seq<(Value, Value)>)
  {
    forall i :: 0 <= i < |pairs| ==> pairs[i].0.VConv?
  }

  /** A run of stores under Convertible keys keeps a table frozen-keyed, and a
      probe whose frozen form no stored key has looks up what it did before. */
  lemma {:induction false} StoreAllUntouched(d: Dict, pairs: seq<(Value, Value)>, p: Value)
    requires FrozenKeyed(d) && ConvertibleKeys(pairs) && p.VConv?
    requires forall i :: 0 <= i < |pairs| ==> WrappedKey(pairs[i].0) != WrappedKey(p)
    ensures FrozenKeyed(StoreAll(d, pairs))
    ensures Lookup(StoreAll(d, pairs), p) == Lookup(d, p)
    decreases |pairs|
  {
    if pairs != [] {
      var n := |pairs| - 1;
      StoreAllUntouched(d, pairs[..n], p);
      StoreByFrozenKey(StoreAll(d, pairs[..n]), pairs[n].0, pairs[n].1, p);
    }
  }

  /** In a run of stores under Convertible keys, the last store with a given
      frozen form decides what a probe with that form finds. */
  lemma {:induction false} StoreAllLastWins(d: Dict, pairs: seq<(Value, Value)>, j: nat)
    requires FrozenKeyed(d) && ConvertibleKeys(pairs) && j < |pairs|
    requires forall i :: j < i < |pairs| ==> WrappedKey(pairs[i].0) != WrappedKey(pairs[j].0)
    ensures FrozenKeyed(StoreAll(d, pairs))
    ensures Lookup(StoreAll(d, pairs), pairs[j].0) == Some(pairs[j].1)
  {
    var prefix, suffix := pairs[..j + 1], pairs[j + 1..];
    var mid := StoreAll(d, prefix);
    assert FrozenKeyed(mid) && Lookup(mid, pairs[j].0) == Some(pairs[j].1) by {
      assert prefix[..j] == pairs[..j];
      assert ConvertibleKeys(pairs[..j]);
      StoreAllFrozenKeyed(d, pairs[..j]);
      StoreByFrozenKey(StoreAll(d, pairs[..j]), pairs[j].0, pairs[j].1, pairs[j].0);
    }
    assert StoreAll(d, pairs) == StoreAll(mid, suffix) by {
      assert pairs == prefix + suffix;
      StoreAllAppend(d, prefix, suffix);
    }
    StoreAllUntouched(mid, suffix, pairs[j].0);
  }

  /** Storing a run in two parts is storing it at once. */
  lemma {:induction false} StoreAllAppend(d: Dict, a: seq<(Value, Value)>, b: seq<(Value, Value)>)
    ensures StoreAll(d, a + b) == StoreAll(StoreAll(d, a), b)
    decreases |b|
  {
    if b == [] {
      assert a + b == a;
    } else {
      var m := |b| - 1;
      assert (a + b)[..|a + b| - 1] == a + b[..m];
      StoreAllAppend(d, a, b[..m]);
    }
  }

  /** A run of stores under Convertible keys keeps a table frozen-keyed. */
  lemma {:induction false} StoreAllFrozenKeyed(d: Dict, pairs: seq<(Value, Value)>)
    requires FrozenKeyed(d) && ConvertibleKeys(pairs)
    ensures FrozenKeyed(StoreAll(d, pairs))
    decreases |pairs|
  {
    if pairs != [] {
      var n := |pairs| - 1;
      StoreAllFrozenKeyed(d, pairs[..n]);
      StoreByFrozenKey(StoreAll(d, pairs[..n]), pairs[n].0, pairs[n].1, pairs[n].0);
    }
  }

  /** Every key stored by the run is found afterwards. */
  lemma {:induction false} StoreAllFindsStored(d: Dict, pairs: seq<(Value, Value)>, i: nat)
    requires FrozenKeyed(d) && ConvertibleKeys(pairs) && i < |pairs|
    ensures Find(StoreAll(d, pairs), pairs[i].0).Some?
    decreases |pairs|
  {
    var n := |pairs| - 1;
    StoreAllFrozenKeyed(d, pairs[..n]);
    StoreByFrozenKey(StoreAll(d, pairs[..n]), pairs[n].0, pairs[n].1, pairs[i].0);
    if i < n {
      StoreAllFindsStored(d, pairs[..n], i);
    }
  }

  /** A key present before the run is still found after it: stores never remove keys. */
  lemma {:induction false} StoreAllKeeps(d: Dict, pairs: seq<(Value, Value)>, p: Value)
    requires FrozenKeyed(d) && ConvertibleKeys(pairs) && p.VConv? && Find(d, p).Some?
    ensures Find(StoreAll(d, pairs), p).Some?
    decreases |pairs|
  {
    if pairs != [] {
      var n := |pairs| - 1;
      StoreAllFrozenKeyed(d, pairs[..n]);
      StoreAllKeeps(d, pairs[..n], p);
      StoreByFrozenKey(StoreAll(d, pairs[..n]), pairs[n].0, pairs[n].1, p);
    }
  }

  /** `d[key]` for an arbitrary key: hashing an unhashable key raises
      TypeError, a missing key raises KeyError. */
  function Get(d: Dict, key: Value): (r: Result<Value>)
    ensures r.Ok? <==> Hashable(key) && Find(d, key).Some?
    ensures r.Err? ==> r.error == (if Hashable(key) then KeyError else TypeError)
    ensures r.Ok? ==> Lookup(d, key) == Some(r.value)
  {
    if !Hashable(key) then Err(TypeError)
    else match Lookup(d, key)
      case None => Err(KeyError)
      case Some(v) => Ok(v)
  }

  /** `key in d` for an arbitrary key: hashing an unhashable key raises TypeError. */
  function Has(d: Dict, key: Value): (r: Result<bool>)
    ensures r.Err? <==> !Hashable(key)
    ensures r.Err? ==> r.error == TypeError
    ensures r.Ok? ==> (r.value <==> InList(Keys(d), key))
  {
    if !Hashable(key) then Err(TypeError) else Ok(Find(d, key).Some?)
  }

  /** A Convertible probe is in a list of keys exactly when `Find` locates it. */
  lemma InListIffFound(d: Dict, p: Value)
    ensures InList(Keys(d), p) <==> Find(d, p).Some?
  {
    if InList(Keys(d), p) {
      var i :| 0 <= i < |Keys(d)| && PyEq(Keys(d)[i], p);
    }
  }

  /** A frozen-keyed table has pairwise distinct keys. */
  lemma FrozenKeyedIsDistinct(d: Dict)
    requires FrozenKeyed(d)
    ensures DistinctKeys(d)
  {
    forall i, j | 0 <= i < j < |d|
      ensures !PyEq(d[i].0, d[j].0)
    {
      PyEqOnConvertibles(d[i].0, d[j].0);
    }
  }

  /** `dict(pairs + [(k, v)])` is `dict(pairs)` followed by `d[k] = v`. */
  lemma FromPairsSnoc(pairs: seq<(Value, Value)>, k: Value, v: Value)
    requires FromPairs(pairs).Ok? && Hashable(k)
    ensures FromPairs(pairs + [(k, v)]) == Ok(Store(FromPairs(pairs).value, k, v))
  {
    assert (pairs + [(k, v)])[..|pairs|] == pairs;
  }

  /** A prefix of a dict is a dict, and it does not hold the next key. */
  lemma DictPrefix(d: Dict, n: nat)
    requires DistinctKeys(d) && HashableKeys(d) && n < |d|
    ensures DistinctKeys(d[..n]) && HashableKeys(d[..n])
    ensures Find(d[..n], d[n].0).None?
  {
    assert forall j :: 0 <= j < n ==> d[..n][j] == d[j] && Keys(d[..n])[j] == d[j].0;
  }

  /** Storing a key the dict does not hold appends the entry. */
  lemma StoreAppends(d: Dict, k: Value, v: Value)
    requires Find(d, k).None?
    ensures Store(d, k, v) == d + [(k, v)]
  {
  }

  /** `dict(d)` of a dict's own entries copies them unchanged, in order. */
  lemma {:induction false} FromPairsOfDict(d: Dict)
    requires DistinctKeys(d) && HashableKeys(d)
    ensures FromPairs(d) == Ok(d)
    decreases |d|
  {
    if d != [] {
      var n := |d| - 1;
      DictPrefix(d, n);
      FromPairsOfDict(d[..n]);
      StoreAppends(d[..n], d[n].0, d[n].1);
      FromPairsSnoc(d[..n], d[n].0, d[n].1);
      assert d[..n] + [(d[n].0, d[n].1)] == d;
    }
  }

  /** In a frozen-keyed table two Convertible probes with the same frozen form look up the same entry. */
  lemma LookupByFrozenForm(d: Dict, p: Value, q: Value)
    requires FrozenKeyed(d) && p.VConv? && q.VConv? && WrappedKey(p) == WrappedKey(q)
    ensures Lookup(d, p) == Lookup(d, q)
  {
    FindByFrozenKey(d, p);
    FindByFrozenKey(d, q);
    match Find(d, p)
    case None =>
    case Some(i) =>
      assert Find(d, q) == Some(i);
  }

  /** Stores whose values are all Convertibles leave a table whose values are all Convertibles. */
  lemma {:induction false} StoreAllConvertibleValues(d: Dict, pairs: seq<(Value, Value)>)
    requires forall i :: 0 <= i < |d| ==> d[i].1.VConv?
    requires forall i :: 0 <= i < |pairs| ==> pairs[i].1.VConv?
    ensures forall i :: 0 <= i < |StoreAll(d, pairs)| ==> StoreAll(d, pairs)[i].1.VConv?
    decreases |pairs|
  {
    if pairs != [] {
      var n := |pairs| - 1;
      StoreAllConvertibleValues(d, pairs[..n]);
      StoreEntries(StoreAll(d, pairs[..n]), pairs[n].0, pairs[n].1);
    }
  }

  /** In a dict, looking up a stored key finds its own entry. */
  lemma FindStoredKey(d: Dict, j: nat)
    requires DistinctKeys(d) && j < |d|
    ensures Find(d, d[j].0) == Some(j)
  {
    PyEqReflexive(d[j].0);
    assert PyEq(Keys(d)[j], d[j].0);
    var r := Find(d, d[j].0).value;
    assert r <= j;
    assert !PyEq(d[r].0, d[j].0) || r == j;
  }
}
