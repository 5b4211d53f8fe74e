/**
 * What the bidirectional map promises, stated over `MapState`: where lookups
 * find their items, what membership means, what deletion leaves behind, how
 * long the map and its views are, and what `invert()` produces.
 */
module ReverseFacts {
  import opened PyObjects
  import opened Convert
  import opened PyDict
  import opened Reverse

  /** Doubling a list does not change what it contains. */
  lemma InListTwice(xs: seq<Value>, x: Value)
    ensures InList(xs + xs, x) <==> InList(xs, x)
  {
    if InList(xs + xs, x) {
      var i :| 0 <= i < |xs + xs| && PyEq((xs + xs)[i], x);
      if i >= |xs| {
        assert (xs + xs)[i] == xs[i - |xs|];
      }
    }
    if InList(xs, x) {
      var i :| 0 <= i < |xs| && PyEq(xs[i], x);
      assert (xs + xs)[i] == xs[i];
    }
  }

  // ---------------------------------------------------------------------
  // Construction

  /** Construction indexes each value under its wrapped form: the reverse
      index maps it to the key of the last entry whose value freezes alike,
      and the wrapped-key table maps it to that key wrapped. */
  lemma InitIndexLastWins(d: Dict, j: nat)
    requires j < |d|
    requires forall i :: j < i < |d| ==> WrappedKey(d[i].1) != WrappedKey(d[j].1)
    ensures Lookup(Init(d).inverse, Wrap(d[j].1)) == Some(d[j].0)
    ensures Lookup(Init(d).cmap, Wrap(d[j].1)) == Some(Wrap(d[j].0))
  {
    StoreAllLastWins([], InversePairs(d), j);
    StoreAllLastWins([], InitCmapPairs(d), j);
  }

  /** Right after construction, `m[v]` returns the key stored with `v`,
      found in the wrapped-key table. */
  lemma InitGetByValue(d: Dict, j: nat)
    requires j < |d|
    requires forall i :: j < i < |d| ==> WrappedKey(d[i].1) != WrappedKey(d[j].1)
    ensures GetItem(Init(d), d[j].1) == Ok(Unwrapped(d[j].0))
  {
    InitIndexLastWins(d, j);
  }

  /** Right after construction, `m[k]` for a plain key that no value freezes
      like falls through to the forward table: it returns the stored value,
      except that a stored None is reported as a missing key. */
  lemma InitGetByKey(d: Dict, j: nat)
    requires IsDict(d) && j < |d| && !d[j].0.VConv?
    requires forall i :: 0 <= i < |d| ==> WrappedKey(d[i].1) != WrappedKey(d[j].0)
    ensures GetItem(Init(d), d[j].0) == if d[j].1 == NoneValue then Err(KeyError) else Ok(Unwrapped(d[j].1))
  {
    var s, k := Init(d), d[j].0;
    StoreAllUntouched([], InversePairs(d), Wrap(k));
    StoreAllUntouched([], InitCmapPairs(d), Wrap(k));
    PyEqReflexive(k);
    assert Iter(s)[j] == k;
    assert Contains(s, k) == Ok(true) by {
      assert KeysContains(s, Wrap(k));
    }
    FindStoredKey(d, j);
    assert Probe(s, k) == Ok(Some(d[j].1));
  }

  // ---------------------------------------------------------------------
  // Lookup

  /** After `m[k] = v`, `m[k]` returns `v` (unwrapped): the wrapped-key table
      is probed first and now maps the wrapped key to the wrapped value. */
  lemma GetItemAfterAssign(s: MapState, k: Value, v: Value)
    requires Hashable(k)
    ensures GetItem(Assign(s, k, v).value, k) == Ok(Unwrapped(v))
  {
  }

  /** After `m[k] = v`, when `v` is not readable through the wrapped-key
      table, `m[v]` returns `k` from the reverse index (a key that is None
      reads as missing). */
  lemma GetItemByValueAfterAssign(s: MapState, k: Value, v: Value)
    requires Consistent(s) && Hashable(k)
    requires Find(s.cmap, Wrap(v)).None? && WrappedKey(k) != WrappedKey(v)
    ensures GetItem(Assign(s, k, v).value, v) == if k == NoneValue then Err(KeyError) else Ok(Unwrapped(k))
  {
    StoreByFrozenKey(s.cmap, Wrap(k), Wrap(v), Wrap(v));
  }

  /** `m[key]` succeeds only when one of its probes finds the key; it raises
      KeyError when none does, and TypeError only for an unhashable key. */
  lemma GetItemProbes(s: MapState, key: Value)
    ensures GetItem(s, key).Ok? ==>
              Find(s.cmap, Wrap(key)).Some? || Find(s.inverse, Wrap(key)).Some? || Find(s.fwd, key).Some?
    ensures (Hashable(key) && Find(s.cmap, Wrap(key)).None? && Find(s.inverse, Wrap(key)).None? && Find(s.fwd, key).None?)
            ==> GetItem(s, key) == Err(KeyError)
    ensures GetItem(s, key).Err? ==> GetItem(s, key).error == KeyError || (GetItem(s, key).error == TypeError && !Hashable(key))
  {
  }

  // ---------------------------------------------------------------------
  // Membership

  /** `key in m` holds exactly when the unwrapped key is a forward key or the
      wrapped key is a reverse-index key; when neither holds, an unhashable
      key raises TypeError from the last probe. */
  lemma ContainsIff(s: MapState, key: Value)
    requires FrozenKeyed(s.inverse)
    ensures Contains(s, key) ==
              if InList(Keys(s.fwd), Unwrapped(key)) || Find(s.inverse, Wrap(key)).Some? then Ok(true)
              else if Hashable(key) then Ok(false)
              else Err(TypeError)
  {
    InListTwice(Keys(s.fwd), Unwrapped(key));
    InListIffFound(s.inverse, Wrap(key));
    if Hashable(key) && !key.VConv? && Find(s.inverse, key).Some? {
      var i := Find(s.inverse, key).value;
      RawMatchImpliesWrappedMatch(s.inverse[i].0, key);
      assert PyEq(Keys(s.inverse)[i], Wrap(key));
    }
  }

  /** Every forward value is a member, and so is every forward key that is
      plain or a Convertible of a plain object. */
  lemma ForwardEntriesAreMembers(s: MapState, i: nat)
    requires Consistent(s) && i < |s.fwd|
    ensures !s.fwd[i].0.VConv? || !s.fwd[i].0.original.VConv? ==> Contains(s, s.fwd[i].0) == Ok(true)
    ensures Contains(s, s.fwd[i].1) == Ok(true)
  {
    ContainsIff(s, s.fwd[i].0);
    ContainsIff(s, s.fwd[i].1);
    PyEqReflexive(s.fwd[i].0);
    assert Keys(s.fwd)[i] == s.fwd[i].0;
  }

  // ---------------------------------------------------------------------
  // Deletion

  /** `del m[k]` leaves the deleted entry's value a member: the reverse index
      still holds it. */
  lemma DeletedValueStillMember(s: MapState, key: Value)
    requires Consistent(s) && Delete(s, key).Ok?
    ensures Contains(Delete(s, key).value, s.fwd[Find(s.fwd, Wrap(key)).value].1) == Ok(true)
  {
  }

  /** `del m[k]` changes no read that the wrapped-key table answers. */
  lemma DeleteKeepsWrappedReads(s: MapState, key: Value, p: Value)
    requires Delete(s, key).Ok? && Find(s.cmap, Wrap(p)).Some?
    ensures GetItem(Delete(s, key).value, p) == GetItem(s, p)
  {
  }

  /** `del m[key]` keeps every other forward entry: a key that does not
      equal `convertible(key)` still reads its own value. */
  lemma DeleteKeepsOtherEntries(s: MapState, key: Value, j: nat)
    requires IsDict(s.fwd) && Delete(s, key).Ok? && j < |s.fwd|
    requires !PyEq(s.fwd[j].0, Wrap(key))
    ensures Lookup(Delete(s, key).value.fwd, s.fwd[j].0) == Some(s.fwd[j].1)
  {
    var i := Find(s.fwd, Wrap(key)).value;
    RemoveAtKeepsLookup(s.fwd, i, j);
  }

  /** After `m[k] = v; del m[k]`, `m[k]` still returns `v`. */
  lemma DeletedKeyStillReadable(s: MapState, k: Value, v: Value)
    requires Hashable(k) && Delete(Assign(s, k, v).value, k).Ok?
    ensures GetItem(Delete(Assign(s, k, v).value, k).value, k) == Ok(Unwrapped(v))
  {
    GetItemAfterAssign(s, k, v);
    DeleteKeepsWrappedReads(Assign(s, k, v).value, k, k);
  }

  /** For a primitive key `k`, the only objects equal to `convertible(k)`
      are `k` itself and its wrapper, and whatever equals `k` equals the
      wrapper too. */
  lemma AtomMatches(k: Value, x: Value)
    requires k.VAtom?
    ensures PyEq(x, Wrap(k)) ==> x == k || x == Wrap(k)
    ensures PyEq(x, k) ==> PyEq(x, Wrap(k))
    ensures PyEq(k, Wrap(k)) && PyEq(Wrap(k), k)
  {
    AtomsFreezeToThemselves(k);
    if x.VConv? {
      AtomsFreezeToThemselves(x.original);
      if PyEq(x, k) {
        RawMatchImpliesWrappedMatch(x, k);
      }
    } else {
      AtomsFreezeToThemselves(x);
    }
  }

  /** `del m[k]` of a primitive key removes the only forward key equal to
      `convertible(k)`: no forward key matches it afterwards, so deleting it
      again raises KeyError. */
  lemma DeleteRemovesKey(s: MapState, k: Value)
    requires Consistent(s) && Delete(s, k).Ok? && k.VAtom?
    ensures Find(Delete(s, k).value.fwd, Wrap(k)).None?
    ensures Find(Delete(s, k).value.fwd, k).None?
    ensures Delete(Delete(s, k).value, k) == Err(KeyError)
  {
    RemoveAtDropsAtom(s.fwd, Find(s.fwd, Wrap(k)).value, k);
  }

  /** Removing the entry of a dict whose key equals `convertible(k)`, for a
      primitive `k`, leaves no key equal to `k` or to its wrapper. */
  lemma RemoveAtDropsAtom(d: Dict, i: nat, k: Value)
    requires DistinctKeys(d) && i < |d| && k.VAtom? && PyEq(d[i].0, Wrap(k))
    ensures Find(RemoveAt(d, i), Wrap(k)).None? && Find(RemoveAt(d, i), k).None?
  {
    var r := RemoveAt(d, i);
    forall a | 0 <= a < |r|
      ensures !PyEq(Keys(r)[a], Wrap(k)) && !PyEq(Keys(r)[a], k)
    {
      var b := if a < i then a else a + 1;
      assert Keys(r)[a] == r[a].0 == d[b].0;
      AtomMatches(k, d[i].0);
      AtomMatches(k, d[b].0);
      PyEqReflexive(k);
      PyEqReflexive(Wrap(k));
      var lo, hi := if b < i then b else i, if b < i then i else b;
      assert !PyEq(d[lo].0, d[hi].0);
    }
  }

  /** After `del m[k]` of a primitive key that is not also a value's wrapped
      form in the reverse index, `k in m` is False. */
  lemma DeletedKeyNotMember(s: MapState, k: Value)
    requires Consistent(s) && Delete(s, k).Ok? && k.VAtom?
    requires Find(s.inverse, Wrap(k)).None?
    ensures Contains(Delete(s, k).value, k) == Ok(false)
  {
    var t := Delete(s, k).value;
    DeleteRemovesKey(s, k);
    InListIffFound(t.fwd, k);
    ContainsIff(t, k);
  }

  // ---------------------------------------------------------------------
  // Lengths and iteration

  /** Assignment grows the map by one exactly when the key is new. */
  lemma LenAfterAssign(s: MapState, k: Value, v: Value)
    requires Hashable(k)
    ensures Len(Assign(s, k, v).value) == Len(s) + (if Find(s.fwd, k).Some? then 0 else 1)
  {
  }

  /** The length, the keys view and the items view count the forward entries
      only; the values view does too once it is live. */
  lemma ViewLengths(s: MapState)
    ensures KeysLen(s) == ItemsLen(s) == |ItemsIter(s)| == Len(s)
    ensures s.values == Live ==> ValuesLen(s) == |ValuesIter(s)| == Len(s)
  {
  }

  /** At construction the values view lists the values, unwrapped, in order. */
  lemma InitValuesView(d: Dict)
    ensures ValuesLen(Init(d)) == Len(Init(d))
    ensures forall i :: 0 <= i < |d| ==> ValuesIter(Init(d))[i] == Unwrapped(d[i].1)
  {
  }

  /** The values view copied at construction does not follow a deletion. */
  lemma ValuesStaleAfterDelete(d: Dict, key: Value)
    requires Delete(Init(d), key).Ok?
    ensures ValuesList(Delete(Init(d), key).value) == Values(d)
    ensures ValuesLen(Delete(Init(d), key).value) == Len(Delete(Init(d), key).value) + 1
  {
  }

  /** After an assignment the values view is the live list of forward values. */
  lemma ValuesLiveAfterAssign(s: MapState, k: Value, v: Value)
    requires Hashable(k)
    ensures ValuesList(Assign(s, k, v).value) == Values(Assign(s, k, v).value.fwd)
  {
  }

  /** Iterating the map yields every forward key twice, in two passes, and
      `reversed` yields the forward keys in forward order. */
  lemma IterationOrder(s: MapState)
    ensures |Iter(s)| == 2 * Len(s)
    ensures forall i :: 0 <= i < Len(s) ==> Iter(s)[i] == Iter(s)[Len(s) + i] == s.fwd[i].0
    ensures |Reversed(s)| == Len(s) && forall i :: 0 <= i < Len(s) ==> Reversed(s)[i] == s.fwd[i].0
  {
  }

  // ---------------------------------------------------------------------
  // Views

  /** Popping at `i - len` reaches the same element as popping at `i`. */
  lemma PopAtFromEnd(xs: seq<Value>, i: nat)
    requires i < |xs|
    ensures PopAt(xs, i) == Ok(xs[i])
    ensures PopAt(xs, i - |xs|) == Ok(xs[i])
  {
  }

  /** The keys view holds each forward key that is plain or a Convertible of a
      plain object, as itself and wrapped, and indexing it from either end
      reaches that key. */
  lemma KeysViewHoldsKeys(s: MapState, i: nat)
    requires i < |s.fwd| && (!s.fwd[i].0.VConv? || !s.fwd[i].0.original.VConv?)
    ensures KeysContains(s, s.fwd[i].0) && KeysContains(s, Wrap(s.fwd[i].0))
    ensures KeysAt(s, i) == Ok(s.fwd[i].0) && KeysAt(s, i - Len(s)) == Ok(s.fwd[i].0)
  {
    var k := s.fwd[i].0;
    PyEqReflexive(k);
    assert Keys(s.fwd)[i] == k && Iter(s)[i] == k;
    PopAtFromEnd(KeysIter(s), i);
  }

  /** A live values view holds each plain forward value and yields it as is. */
  lemma ValuesViewHoldsValues(s: MapState, i: nat)
    requires s.values == Live && i < |s.fwd| && !s.fwd[i].1.VConv?
    ensures ValuesContains(s, s.fwd[i].1)
    ensures ValuesIter(s)[i] == s.fwd[i].1
    ensures ValuesAt(s, i) == Ok(s.fwd[i].1)
  {
    PyEqReflexive(s.fwd[i].1);
    assert ValuesList(s)[i] == s.fwd[i].1;
  }

  /** The items view holds each forward pair as a plain tuple, yields it
      wrapped so that `revert` gives it back unwrapped, and pops the plain
      tuple from either end. */
  lemma ItemsViewHoldsPairs(s: MapState, i: nat)
    requires i < |s.fwd|
    ensures ItemsContains(s, VTuple([s.fwd[i].0, s.fwd[i].1]))
    ensures ItemRevert(ItemsIter(s)[i]) == (Unwrapped(s.fwd[i].0), Unwrapped(s.fwd[i].1))
    ensures ItemsAt(s, i) == Ok(VTuple([s.fwd[i].0, s.fwd[i].1]))
    ensures ItemsAt(s, i - Len(s)) == Ok(VTuple([s.fwd[i].0, s.fwd[i].1]))
  {
    var k, v := s.fwd[i].0, s.fwd[i].1;
    var listed := seq(|s.fwd|, n requires 0 <= n < |s.fwd| => ItemAsTuple(ItemsIter(s)[n]));
    assert listed[i] == VTuple([Wrap(k), Wrap(v)]);
    assert PyEq(Wrap(k), k) && PyEq(Wrap(v), v);
    assert PyEq(listed[i], VTuple([k, v]));
    PopAtFromEnd(RawItems(s), i);
  }

  /** An item built by calling with (k, v) reverts to (k, v) unwrapped, and
      calling again with its own fields rebuilds the same item. */
  lemma ItemRoundTrip(k: Value, v: Value)
    ensures ItemRevert(MakeItem(k, v)) == (Unwrapped(k), Unwrapped(v))
    ensures !k.VConv? && !v.VConv? ==> ItemRevert(MakeItem(k, v)) == (k, v)
    ensures MakeItem(MakeItem(k, v).key, MakeItem(k, v).value) == MakeItem(k, v)
  {
  }

  // ---------------------------------------------------------------------
  // Runs of assignments

  /** The wrapped-key stores a run of assignments performs: key first. */
  function CmapPairs(pairs: seq<(Value, Value)>): (r: seq<(Value, Value)>)
    ensures |r| == |pairs| && forall i :: 0 <= i < |pairs| ==> r[i] == (Wrap(pairs[i].0), Wrap(pairs[i].1))
  {
    seq(|pairs|, i requires 0 <= i < |pairs| => (Wrap(pairs[i].0), Wrap(pairs[i].1)))
  }

  lemma HashableKeysSplit(pairs: seq<(Value, Value)>)
    requires pairs != []
    ensures HashableKeys(pairs) <==> HashableKeys(pairs[..|pairs| - 1]) && Hashable(pairs[|pairs| - 1].0)
  {
    assert forall i :: 0 <= i < |pairs| - 1 ==> pairs[..|pairs| - 1][i] == pairs[i];
  }

  /** A run of assignments succeeds exactly when every key is hashable. */
  lemma {:induction false} AssignAllOk(s: MapState, pairs: seq<(Value, Value)>)
    ensures AssignAll(s, pairs).Ok? <==> HashableKeys(pairs)
    decreases |pairs|
  {
    if pairs != [] {
      AssignAllOk(s, pairs[..|pairs| - 1]);
      HashableKeysSplit(pairs);
    }
  }

  lemma InversePairsPrefix(pairs: seq<(Value, Value)>, n: nat)
    requires n <= |pairs|
    ensures InversePairs(pairs)[..n] == InversePairs(pairs[..n])
  {
  }

  lemma CmapPairsPrefix(pairs: seq<(Value, Value)>, n: nat)
    requires n <= |pairs|
    ensures CmapPairs(pairs)[..n] == CmapPairs(pairs[..n])
  {
  }

  /** After a run of assignments that succeeds, the forward table is the run
      of the forward stores. */
  lemma {:induction false} AssignAllForward(s: MapState, pairs: seq<(Value, Value)>)
    requires AssignAll(s, pairs).Ok?
    ensures AssignAll(s, pairs).value.fwd == StoreAll(s.fwd, pairs)
    decreases |pairs|
  {
    if pairs != [] {
      var n := |pairs| - 1;
      assert AssignAll(s, pairs[..n]).Ok?;
      AssignAllForward(s, pairs[..n]);
    }
  }

  /** ... the reverse index is the run of the reverse stores ... */
  lemma {:induction false} AssignAllInverse(s: MapState, pairs: seq<(Value, Value)>)
    requires AssignAll(s, pairs).Ok?
    ensures AssignAll(s, pairs).value.inverse == StoreAll(s.inverse, InversePairs(pairs))
    decreases |pairs|
  {
    if pairs != [] {
      var n := |pairs| - 1;
      assert AssignAll(s, pairs[..n]).Ok?;
      AssignAllInverse(s, pairs[..n]);
      InversePairsPrefix(pairs, n);
    }
  }

  /** ... and the wrapped-key table is the run of the wrapped-key stores. */
  lemma {:induction false} AssignAllCmap(s: MapState, pairs: seq<(Value, Value)>)
    requires AssignAll(s, pairs).Ok?
    ensures AssignAll(s, pairs).value.cmap == StoreAll(s.cmap, CmapPairs(pairs))
    decreases |pairs|
  {
    if pairs != [] {
      var n := |pairs| - 1;
      assert AssignAll(s, pairs[..n]).Ok?;
      AssignAllCmap(s, pairs[..n]);
      CmapPairsPrefix(pairs, n);
    }
  }

  /** After a run of assignments, `m[p]` for a key that freezes like the
      last assigned key of its kind returns that assignment's value. */
  lemma AssignAllGetItem(s: MapState, pairs: seq<(Value, Value)>, j: nat, p: Value)
    requires FrozenKeyed(s.cmap) && AssignAll(s, pairs).Ok? && j < |pairs|
    requires WrappedKey(p) == WrappedKey(pairs[j].0)
    requires forall i :: j < i < |pairs| ==> WrappedKey(pairs[i].0) != WrappedKey(pairs[j].0)
    ensures GetItem(AssignAll(s, pairs).value, p) == Ok(Unwrapped(pairs[j].1))
  {
    var t := AssignAll(s, pairs).value;
    AssignAllCmap(s, pairs);
    StoreAllLastWins(s.cmap, CmapPairs(pairs), j);
    LookupByFrozenForm(t.cmap, Wrap(p), Wrap(pairs[j].0));
  }

  /** After a run of assignments, `m[p]` for a value that freezes like the
      last assigned value of its kind, and that no key freezes like, returns
      that assignment's key (a key that is None reads as missing). */
  lemma AssignAllGetByValue(s: MapState, pairs: seq<(Value, Value)>, j: nat, p: Value)
    requires FrozenKeyed(s.cmap) && FrozenKeyed(s.inverse) && AssignAll(s, pairs).Ok? && j < |pairs|
    requires WrappedKey(p) == WrappedKey(pairs[j].1)
    requires forall i :: j < i < |pairs| ==> WrappedKey(pairs[i].1) != WrappedKey(pairs[j].1)
    requires forall i :: 0 <= i < |pairs| ==> WrappedKey(pairs[i].0) != WrappedKey(p)
    requires Find(s.cmap, Wrap(p)).None?
    ensures GetItem(AssignAll(s, pairs).value, p) ==
              if pairs[j].0 == NoneValue then Err(KeyError) else Ok(Unwrapped(pairs[j].0))
  {
    AssignAllCmapMiss(s, pairs, p);
    AssignAllInverseHit(s, pairs, j, p);
  }

  /** A value no assigned key freezes like stays out of the wrapped-key table. */
  lemma AssignAllCmapMiss(s: MapState, pairs: seq<(Value, Value)>, p: Value)
    requires FrozenKeyed(s.cmap) && AssignAll(s, pairs).Ok?
    requires forall i :: 0 <= i < |pairs| ==> WrappedKey(pairs[i].0) != WrappedKey(p)
    requires Find(s.cmap, Wrap(p)).None?
    ensures Lookup(AssignAll(s, pairs).value.cmap, Wrap(p)).None?
  {
    AssignAllCmap(s, pairs);
    StoreAllUntouched(s.cmap, CmapPairs(pairs), Wrap(p));
  }

  /** The reverse index maps a value's frozen form to the key of the last
      assignment of a value with that form. */
  lemma AssignAllInverseHit(s: MapState, pairs: seq<(Value, Value)>, j: nat, p: Value)
    requires FrozenKeyed(s.inverse) && AssignAll(s, pairs).Ok? && j < |pairs|
    requires WrappedKey(p) == WrappedKey(pairs[j].1)
    requires forall i :: j < i < |pairs| ==> WrappedKey(pairs[i].1) != WrappedKey(pairs[j].1)
    ensures Lookup(AssignAll(s, pairs).value.inverse, Wrap(p)) == Some(pairs[j].0)
  {
    var t := AssignAll(s, pairs).value;
    AssignAllInverse(s, pairs);
    StoreAllLastWins(s.inverse, InversePairs(pairs), j);
    LookupByFrozenForm(t.inverse, Wrap(p), Wrap(pairs[j].1));
  }

  // ---------------------------------------------------------------------
  // Inversion

  /** `invert()` raises TypeError exactly when some former key it would
      assign (a Convertible's original) is unhashable. */
  lemma InvertOkIff(s: MapState)
    ensures InvertState(s).Ok? <==> forall i :: 0 <= i < |s.inverse| ==> Hashable(InvertedKey(s.inverse[i].1))
  {
    AssignAllOk(Empty, InvertPairs(s.inverse));
  }

  /** For a reverse-index entry wrapped(v) -> k with plain `k` and `v`,
      `invert()[k]` is `v` and `invert()[v]` is `k`, provided `k` is the last
      former key of its frozen form, `v` the last value of its frozen form,
      and no former key freezes like `v`. */
  lemma InvertSwaps(s: MapState, j: nat)
    requires Consistent(s) && InvertState(s).Ok? && j < |s.inverse|
    requires !s.inverse[j].1.VConv? && !s.inverse[j].0.original.VConv?
    requires forall i :: j < i < |s.inverse| ==>
               WrappedKey(InvertPairs(s.inverse)[i].0) != WrappedKey(s.inverse[j].1)
    requires forall i :: j < i < |s.inverse| ==>
               WrappedKey(InvertPairs(s.inverse)[i].1) != WrappedKey(s.inverse[j].0.original)
    requires forall i :: 0 <= i < |s.inverse| ==>
               WrappedKey(InvertPairs(s.inverse)[i].0) != WrappedKey(s.inverse[j].0.original)
    ensures GetItem(InvertState(s).value, s.inverse[j].1) == Ok(s.inverse[j].0.original)
    ensures GetItem(InvertState(s).value, s.inverse[j].0.original) == Ok(s.inverse[j].1)
  {
    var pairs := InvertPairs(s.inverse);
    AssignAllGetItem(Empty, pairs, j, s.inverse[j].1);
    AssignAllGetByValue(Empty, pairs, j, s.inverse[j].0.original);
  }
}
