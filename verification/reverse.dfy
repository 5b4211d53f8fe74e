/**
 * The bidirectional map `ReverseMap` and its read-only views.
 *
 * A map is a dict (the forward table, key -> value, in insertion order) that
 * keeps two more tables beside it: the reverse index (convertible(value) ->
 * key) and the wrapped-key table, which construction fills as
 * convertible(value) -> convertible(key) and assignment as
 * convertible(key) -> convertible(value).  The values view is a list copied
 * at construction until the first assignment rebinds it to the live view.
 *
 * The reads are functions of a `MapState`; the class `ReverseMap` holds the
 * same four fields and changes them in place.
 */
module Reverse {
  import opened PyObjects
  import opened Convert
  import opened PyDict

  /** What the values view holds: the list copied at construction, or the live `values()` view. */
  datatype ValuesView = Snapshot(vals: seq<Value>) | Live

  datatype MapState = MapState(fwd: Dict, inverse: Dict, cmap: Dict, values: ValuesView)

  /** The state of `ReverseMap()`. */
  const Empty: MapState := MapState([], [], [], Snapshot([]))

  /** The forward table is a dict: distinct, hashable keys. */
  predicate IsDict(d: Dict)
  {
    DistinctKeys(d) && HashableKeys(d)
  }

  /** Every forward value is indexed in the reverse index. */
  predicate IndexesValues(fwd: Dict, inverse: Dict)
  {
    forall i :: 0 <= i < |fwd| ==> Find(inverse, Wrap(fwd[i].1)).Some?
  }

  /** The wrapped-key table maps Convertibles to Convertibles. */
  predicate WrappedTable(cmap: Dict)
  {
    FrozenKeyed(cmap) && forall i :: 0 <= i < |cmap| ==> cmap[i].1.VConv?
  }

  /** What every reachable state satisfies: the forward table is a dict, the
      two side tables are keyed by Convertibles, the wrapped-key table holds
      Convertibles, and every forward value is indexed in the reverse index. */
  ghost predicate Consistent(s: MapState)
  {
    IsDict(s.fwd) && FrozenKeyed(s.inverse) && WrappedTable(s.cmap) && IndexesValues(s.fwd, s.inverse)
  }

  // ---------------------------------------------------------------------
  // Construction

  /** The reverse-index stores construction performs, one per forward entry. */
  function InversePairs(d: Dict): (r: seq<(Value, Value)>)
    ensures |r| == |d| && forall i :: 0 <= i < |d| ==> r[i] == (Wrap(d[i].1), d[i].0)
  {
    seq(|d|, i requires 0 <= i < |d| => (Wrap(d[i].1), d[i].0))
  }

  /** The wrapped-key table construction builds from the items view: value first. */
  function InitCmapPairs(d: Dict): (r: seq<(Value, Value)>)
    ensures |r| == |d| && forall i :: 0 <= i < |d| ==> r[i] == (Wrap(d[i].1), Wrap(d[i].0))
  {
    seq(|d|, i requires 0 <= i < |d| => (Wrap(d[i].1), Wrap(d[i].0)))
  }

  /** The reverse index of a forward table. */
  function InverseOf(d: Dict): Dict
  {
    StoreAll([], InversePairs(d))
  }

  /** The construction loop: one reverse-index store per forward entry, in order. */
  method BuildInverse(d: Dict) returns (inv: Dict)
    ensures inv == InverseOf(d)
  {
    inv := [];
    var i := 0;
    while i < |d|
      invariant 0 <= i <= |d|
      invariant inv == StoreAll([], InversePairs(d)[..i])
    {
      assert InversePairs(d)[..i + 1][..i] == InversePairs(d)[..i];
      inv := Store(inv, Wrap(d[i].1), d[i].0);
      i := i + 1;
    }
    assert InversePairs(d)[..i] == InversePairs(d);
  }

  /** `ReverseMap(d)` once the dict constructor has built `d`. */
  function Init(d: Dict): MapState
  {
    MapState(d, InverseOf(d), StoreAll([], InitCmapPairs(d)), Snapshot(Values(d)))
  }

  // ---------------------------------------------------------------------
  // Assignment and deletion

  /** `m[key] = value`: the forward store (which hashes the key), the reverse
      store, the views going live, and the wrapped-key store. */
  function Assign(s: MapState, key: Value, value: Value): (r: Result<MapState>)
    ensures r.Err? <==> !Hashable(key)
    ensures r.Err? ==> r.error == TypeError
    ensures r.Ok? ==> Lookup(r.value.fwd, key) == Some(value)
    ensures r.Ok? ==> Lookup(r.value.inverse, Wrap(value)) == Some(key)
    ensures r.Ok? ==> Lookup(r.value.cmap, Wrap(key)) == Some(Wrap(value))
    ensures r.Ok? ==> r.value.values == Live
  {
    if !Hashable(key) then Err(TypeError)
    else
      Ok(MapState(Store(s.fwd, key, value),
                  Store(s.inverse, Wrap(value), key),
                  Store(s.cmap, Wrap(key), Wrap(value)),
                  Live))
  }

  /** `del m[key]`: the forward entry found by `convertible(key)` is removed;
      nothing else changes. */
  function Delete(s: MapState, key: Value): (r: Result<MapState>)
    ensures r.Err? <==> Find(s.fwd, Wrap(key)).None?
    ensures r.Err? ==> r.error == KeyError
    ensures r.Ok? ==> |r.value.fwd| == |s.fwd| - 1
    ensures r.Ok? ==> r.value.fwd == RemoveAt(s.fwd, Find(s.fwd, Wrap(key)).value)
    ensures r.Ok? ==> r.value.inverse == s.inverse && r.value.cmap == s.cmap && r.value.values == s.values
  {
    match Find(s.fwd, Wrap(key))
    case None => Err(KeyError)
    case Some(i) => Ok(s.(fwd := RemoveAt(s.fwd, i)))
  }

  /** A run of assignments, stopping at the first that raises. */
  function AssignAll(s: MapState, pairs: seq<(Value, Value)>): Result<MapState>
    decreases |pairs|
  {
    if pairs == [] then Ok(s)
    else
      match AssignAll(s, pairs[..|pairs| - 1])
      case Err(e) => Err(e)
      case Ok(t) => Assign(t, pairs[|pairs| - 1].0, pairs[|pairs| - 1].1)
  }

  /** The key `invert()` assigns for a reverse-index value (a former key). */
  function InvertedKey(v: Value): Value
  {
    if v.VConv? then v.original else Wrap(v)
  }

  /** The assignments `invert()` performs, one per reverse-index entry. */
  function InvertPairs(d: Dict): (r: seq<(Value, Value)>)
    ensures |r| == |d| && forall i :: 0 <= i < |d| ==> r[i] == (InvertedKey(d[i].1), Unwrapped(d[i].0))
  {
    seq(|d|, i requires 0 <= i < |d| => (InvertedKey(d[i].1), Unwrapped(d[i].0)))
  }

  /** `invert()`: a fresh map receiving the reverse index's entries swapped. */
  function InvertState(s: MapState): Result<MapState>
  {
    AssignAll(Empty, InvertPairs(s.inverse))
  }

  // ---------------------------------------------------------------------
  // Reads

  /** `len(m)`: the number of forward entries. */
  function Len(s: MapState): nat
  {
    |s.fwd|
  }

  /** `inverse`: the reverse index itself. */
  function Inverse(s: MapState): Dict
  {
    s.inverse
  }

  /** `list(m.keys())`, also what iterating the keys view yields. */
  function KeysIter(s: MapState): seq<Value>
  {
    Keys(s.fwd)
  }

  /** `iter(m)`: the forward keys, followed by the keys view's iteration. */
  function Iter(s: MapState): seq<Value>
  {
    Keys(s.fwd) + KeysIter(s)
  }

  /** `reversed(m)`: the keys view's iteration. */
  function Reversed(s: MapState): seq<Value>
  {
    KeysIter(s)
  }

  /** `list(xs).pop(i)`: a negative index counts from the end, and an index
      outside the list raises IndexError. */
  function PopAt(xs: seq<Value>, i: int): (r: Result<Value>)
    ensures r.Ok? <==> -|xs| <= i < |xs|
    ensures r.Err? ==> r.error == IndexError
    ensures r.Ok? ==> r.value in xs
  {
    if 0 <= i < |xs| then Ok(xs[i])
    else if -|xs| <= i < 0 then Ok(xs[|xs| + i])
    else Err(IndexError)
  }

  // Keys view

  function KeysLen(s: MapState): nat
  {
    |KeysIter(s)|
  }

  /** `item in m.inverse_keys`: a Convertible is looked for unwrapped among
      the map's iteration and as itself among the reverse-index keys; any
      other object among the forward keys. */
  predicate KeysContains(s: MapState, item: Value)
  {
    if item.VConv? then InList(Iter(s), item.original) || InList(Keys(s.inverse), item)
    else InList(Keys(s.fwd), item)
  }

  function KeysAt(s: MapState, i: int): Result<Value>
  {
    PopAt(KeysIter(s), i)
  }

  // Values view

  /** The list the values view reads. */
  function ValuesList(s: MapState): seq<Value>
  {
    match s.values
    case Snapshot(vs) => vs
    case Live => Values(s.fwd)
  }

  /** Iterating the values view: each value unwrapped. */
  function ValuesIter(s: MapState): (r: seq<Value>)
    ensures |r| == |ValuesList(s)|
    ensures forall i :: 0 <= i < |r| ==> r[i] == Unwrapped(ValuesList(s)[i])
  {
    seq(|ValuesList(s)|, i requires 0 <= i < |ValuesList(s)| => Unwrapped(ValuesList(s)[i]))
  }

  function ValuesLen(s: MapState): nat
  {
    |ValuesList(s)|
  }

  /** `item in m.inverse_values`: a Convertible is looked for unwrapped and as itself. */
  predicate ValuesContains(s: MapState, item: Value)
  {
    if item.VConv? then InList(ValuesList(s), item.original) || InList(ValuesList(s), item)
    else InList(ValuesList(s), item)
  }

  function ValuesAt(s: MapState, i: int): Result<Value>
  {
    PopAt(ValuesList(s), i)
  }

  // Items view

  /** A (key, value) named tuple; the items view yields them with both parts wrapped. */
  datatype ReverseDictItem = ReverseDictItem(key: Value, value: Value)

  /** Calling an item with a key and a value: the item holding both wrapped. */
  function MakeItem(key: Value, value: Value): ReverseDictItem
  {
    ReverseDictItem(Wrap(key), Wrap(value))
  }

  /** `item.revert()`: both parts unwrapped. */
  function ItemRevert(item: ReverseDictItem): (Value, Value)
  {
    (Unwrapped(item.key), Unwrapped(item.value))
  }

  /** A named tuple compares as the plain tuple of its fields. */
  function ItemAsTuple(item: ReverseDictItem): Value
  {
    VTuple([item.key, item.value])
  }

  /** Iterating the items view. */
  function ItemsIter(s: MapState): (r: seq<ReverseDictItem>)
    ensures |r| == |s.fwd|
    ensures forall i :: 0 <= i < |r| ==> r[i] == MakeItem(s.fwd[i].0, s.fwd[i].1)
  {
    seq(|s.fwd|, i requires 0 <= i < |s.fwd| => MakeItem(s.fwd[i].0, s.fwd[i].1))
  }

  /** `list(m.items())`: the forward pairs as plain tuples. */
  function RawItems(s: MapState): (r: seq<Value>)
    ensures |r| == |s.fwd|
    ensures forall i :: 0 <= i < |r| ==> r[i] == VTuple([s.fwd[i].0, s.fwd[i].1])
  {
    seq(|s.fwd|, i requires 0 <= i < |s.fwd| => VTuple([s.fwd[i].0, s.fwd[i].1]))
  }

  function ItemsLen(s: MapState): nat
  {
    |RawItems(s)|
  }

  /** `item in m.inverse_items`: compared with the yielded items; a
      Convertible is tried as itself and then unwrapped. */
  predicate ItemsContains(s: MapState, item: Value)
  {
    var listed := seq(|s.fwd|, i requires 0 <= i < |s.fwd| => ItemAsTuple(ItemsIter(s)[i]));
    if item.VConv? then InList(listed, item) || InList(listed, item.original)
    else InList(listed, item)
  }

  /** Indexing the items view pops from the plain pairs, not from the yielded items. */
  function ItemsAt(s: MapState, i: int): Result<Value>
  {
    PopAt(RawItems(s), i)
  }

  // Membership and lookup

  /** `key in m`: four probes in order (the keys view with the wrapped key,
      the reverse index read through `inverse` with the wrapped key, the keys
      view with the key, the same reverse index with the key); only the last
      hashes the raw key. */
  function Contains(s: MapState, key: Value): Result<bool>
  {
    var ck := Wrap(key);
    if KeysContains(s, ck) || Find(Inverse(s), ck).Some? || KeysContains(s, key) then Ok(true)
    else Has(Inverse(s), key)
  }

  /** The item `m[key]` finds before its final check: the wrapped-key table,
      then the reverse index, both probed with the wrapped key, then the
      forward table when `key in m` holds; None when no probe applies. */
  function Probe(s: MapState, key: Value): Result<Option<Value>>
  {
    var ck := Wrap(key);
    match Lookup(s.cmap, ck)
    case Some(item) => Ok(Some(item))
    case None =>
      match Lookup(s.inverse, ck)
      case Some(item) => Ok(Some(item))
      case None =>
        match Contains(s, key)
        case Err(e) => Err(e)
        case Ok(present) =>
          if !present then Ok(None)
          else
            match Get(s.fwd, key)
            case Err(e) => Err(e)
            case Ok(item) => Ok(Some(item))
  }

  /** `m[key]`: KeyError when the probes found nothing or found a plain None;
      otherwise the item, unwrapped. */
  function GetItem(s: MapState, key: Value): Result<Value>
  {
    match Probe(s, key)
    case Err(e) => Err(e)
    case Ok(None) => Err(KeyError)
    case Ok(Some(item)) => if item == NoneValue then Err(KeyError) else Ok(Unwrapped(item))
  }

  // ---------------------------------------------------------------------
  // The invariant

  /** Construction establishes the invariant. */
  lemma InitConsistent(d: Dict)
    requires IsDict(d)
    ensures Consistent(Init(d))
  {
    StoreAllFrozenKeyed([], InversePairs(d));
    StoreAllFrozenKeyed([], InitCmapPairs(d));
    StoreAllConvertibleValues([], InitCmapPairs(d));
    forall i | 0 <= i < |d|
      ensures Find(InverseOf(d), Wrap(d[i].1)).Some?
    {
      StoreAllFindsStored([], InversePairs(d), i);
    }
  }

  lemma StoreKeepsDict(d: Dict, key: Value, value: Value)
    requires IsDict(d) && Hashable(key)
    ensures IsDict(Store(d, key, value))
  {
    StoreEntries(d, key, value);
  }

  lemma StoreKeepsWrappedTable(cmap: Dict, key: Value, value: Value)
    requires WrappedTable(cmap) && key.VConv? && value.VConv?
    ensures WrappedTable(Store(cmap, key, value))
  {
    StoreByFrozenKey(cmap, key, value, key);
  }

  lemma StoreKeepsIndexed(fwd: Dict, inverse: Dict, key: Value, value: Value)
    requires IndexesValues(fwd, inverse) && FrozenKeyed(inverse)
    ensures IndexesValues(Store(fwd, key, value), Store(inverse, Wrap(value), key))
  {
    var f, inv := Store(fwd, key, value), Store(inverse, Wrap(value), key);
    StoreEntries(fwd, key, value);
    forall i | 0 <= i < |f|
      ensures Find(inv, Wrap(f[i].1)).Some?
    {
      StoreByFrozenKey(inverse, Wrap(value), key, Wrap(f[i].1));
      if !(i < |fwd| && f[i] == fwd[i]) {
        assert f[i].1 == value;
      }
    }
  }

  /** Assignment keeps the invariant. */
  lemma AssignConsistent(s: MapState, key: Value, value: Value)
    requires Consistent(s) && Hashable(key)
    ensures Consistent(Assign(s, key, value).value)
  {
    StoreKeepsDict(s.fwd, key, value);
    StoreByFrozenKey(s.inverse, Wrap(value), key, Wrap(value));
    StoreKeepsWrappedTable(s.cmap, Wrap(key), Wrap(value));
    StoreKeepsIndexed(s.fwd, s.inverse, key, value);
  }

  /** Deletion keeps the invariant. */
  lemma DeleteConsistent(s: MapState, key: Value)
    requires Consistent(s) && Delete(s, key).Ok?
    ensures Consistent(Delete(s, key).value)
  {
    var i := Find(s.fwd, Wrap(key)).value;
    var r := RemoveAt(s.fwd, i);
    RemoveAtKeepsKeys(s.fwd, i);
    forall a | 0 <= a < |r|
      ensures Find(s.inverse, Wrap(r[a].1)).Some?
    {
      assert r[a] == s.fwd[if a < i then a else a + 1];
    }
  }

  /** A run of assignments keeps the invariant. */
  lemma {:induction false} AssignAllConsistent(s: MapState, pairs: seq<(Value, Value)>)
    requires Consistent(s) && AssignAll(s, pairs).Ok?
    ensures Consistent(AssignAll(s, pairs).value)
    decreases |pairs|
  {
    if pairs != [] {
      var n := |pairs| - 1;
      AssignAllConsistent(s, pairs[..n]);
      AssignConsistent(AssignAll(s, pairs[..n]).value, pairs[n].0, pairs[n].1);
    }
  }

  /** A map built from no pairs is the empty state. */
  lemma InitOfNothing()
    ensures FromPairs([]) == Ok([]) && Init([]) == Empty
  {
  }

  /** Inversion produces a state that keeps the invariant. */
  lemma InvertConsistent(s: MapState)
    requires InvertState(s).Ok?
    ensures Consistent(InvertState(s).value)
  {
    AssignAllConsistent(Empty, InvertPairs(s.inverse));
  }

  /** One more assignment extends a run that has not raised. */
  lemma AssignAllStep(s: MapState, pairs: seq<(Value, Value)>, i: nat, t: MapState)
    requires i < |pairs| && AssignAll(s, pairs[..i]) == Ok(t)
    ensures AssignAll(s, pairs[..i + 1]) == Assign(t, pairs[i].0, pairs[i].1)
  {
    assert pairs[..i + 1][..i] == pairs[..i];
  }

  /** Once a run of assignments raises, running more of it gives the same error. */
  lemma {:induction false} AssignAllErrExtends(s: MapState, pairs: seq<(Value, Value)>, i: nat)
    requires i <= |pairs| && AssignAll(s, pairs[..i]).Err?
    ensures AssignAll(s, pairs) == AssignAll(s, pairs[..i])
    decreases |pairs| - i
  {
    if i < |pairs| {
      assert pairs[..i + 1][..i] == pairs[..i];
      AssignAllErrExtends(s, pairs, i + 1);
    } else {
      assert pairs[..i] == pairs;
    }
  }

  // ---------------------------------------------------------------------
  // The object

  class ReverseMap {
    var fwd: Dict
    var inverse: Dict
    var cmap: Dict
    var values: ValuesView

    function Model(): MapState
      reads this
    {
      MapState(fwd, inverse, cmap, values)
    }

    ghost predicate Valid()
      reads this
    {
      Consistent(Model())
    }

    /** `ReverseMap(pairs)`: the dict constructor builds the forward table,
        a loop over its items fills the reverse index, and the items view
        fills the wrapped-key table. */
    constructor(pairs: seq<(Value, Value)>)
      requires FromPairs(pairs).Ok?
      ensures Model() == Init(FromPairs(pairs).value)
      ensures Valid()
    {
      var d := FromPairs(pairs).value;
      var inv := BuildInverse(d);
      fwd := d;
      inverse := inv;
      values := Snapshot(Values(d));
      cmap := StoreAll([], InitCmapPairs(d));
      new;
      InitConsistent(d);
    }

    /** `m[key] = value`: the three table stores, and the values view turns live. */
    method SetItem(key: Value, value: Value) returns (out: Outcome)
      modifies this
      ensures out == (if Hashable(key) then Pass else Fail(TypeError))
      ensures out.Pass? ==> Model() == Assign(old(Model()), key, value).value
      ensures out.Fail? ==> Model() == old(Model())
    {
      if !Hashable(key) {
        return Fail(TypeError);
      }
      fwd := Store(fwd, key, value);
      inverse := Store(inverse, Wrap(value), key);
      values := Live;
      cmap := Store(cmap, Wrap(key), Wrap(value));
      return Pass;
    }

    /** `del m[key]` */
    method DelItem(key: Value) returns (out: Outcome)
      modifies this
      ensures out == (if Find(old(fwd), Wrap(key)).Some? then Pass else Fail(KeyError))
      ensures out.Pass? ==> Model() == Delete(old(Model()), key).value
      ensures out.Fail? ==> Model() == old(Model())
    {
      match Find(fwd, Wrap(key))
      case None =>
        return Fail(KeyError);
      case Some(i) =>
        fwd := RemoveAt(fwd, i);
        return Pass;
    }

    /** `invert()`: one assignment into a fresh map per reverse-index entry. */
    method Invert() returns (r: Result<ReverseMap>)
      ensures r.Ok? <==> InvertState(Model()).Ok?
      ensures r.Err? ==> r.error == InvertState(Model()).error
      ensures r.Ok? ==> fresh(r.value) && r.value.Model() == InvertState(Model()).value
    {
      InitOfNothing();
      var inv := new ReverseMap([]);
      ghost var pairs := InvertPairs(inverse);
      var i := 0;
      while i < |inverse|
        invariant 0 <= i <= |inverse|
        invariant fresh(inv)
        invariant AssignAll(Empty, pairs[..i]) == Ok(inv.Model())
      {
        var k, v := inverse[i].0, inverse[i].1;
        AssignAllStep(Empty, pairs, i, inv.Model());
        var out := inv.SetItem(InvertedKey(v), Unwrapped(k));
        if out.Fail? {
          AssignAllErrExtends(Empty, pairs, i + 1);
          return Err(out.error);
        }
        i := i + 1;
      }
      assert pairs[..i] == pairs;
      return Ok(inv);
    }

    /** `convertible_map`: a new map built from the wrapped-key table's entries. */
    method ConvertibleMap() returns (r: ReverseMap)
      requires Valid()
      ensures fresh(r) && r.Valid() && r.Model() == Init(cmap)
    {
      FrozenKeyedIsDistinct(cmap);
      FromPairsOfDict(cmap);
      r := new ReverseMap(cmap);
    }
  }
}
