/**
 * The freezing adapter: `_freeze`, the `Convertible` wrapper and `convertible`.
 *
 * Freezing turns any object into a hashable canonical form; a Convertible
 * pairs that form with the untouched original, and compares and hashes by
 * the frozen form alone.
 */
module Convert {
  import opened PyObjects

  /** `_freeze(obj)`: primitives stay as they are, a mapping becomes a set of
      frozen pairs, a list, tuple or set becomes a tuple of frozen elements in
      iteration order, and anything else falls back to its serialised form. */
  function Freeze(v: Value): Frozen
    decreases v
  {
    match v
    case VAtom(a) => FAtom(a)
    case VDict(entries) => FPairs(FreezeEntries(entries))
    case VList(items) => FTuple(FreezeItems(items))
    case VTuple(items) => FTuple(FreezeItems(items))
    case VSet(items) => FTuple(FreezeItems(items))
    case VObject(_, _) => FOpaque(v)
    case VConv(_) => FOpaque(v)
  }

  /** The tuple of frozen elements, built element by element. */
  function FreezeItems(items: seq<Value>): (r: seq<Frozen>)
    decreases items
    ensures |r| == |items|
    ensures forall i :: 0 <= i < |items| ==> r[i] == Freeze(items[i])
  {
    if items == [] then [] else [Freeze(items[0])] + FreezeItems(items[1..])
  }

  function FreezePair(e: (Value, Value)): (Frozen, Frozen)
    decreases e
  {
    (Freeze(e.0), Freeze(e.1))
  }

  /** The frozenset of frozen (key, value) pairs of a mapping. */
  function FreezeEntries(entries: seq<(Value, Value)>): (r: set<(Frozen, Frozen)>)
    decreases entries
    ensures forall i :: 0 <= i < |entries| ==> FreezePair(entries[i]) in r
    ensures forall p :: p in r ==> exists i :: 0 <= i < |entries| && p == FreezePair(entries[i])
  {
    if entries == [] then {}
    else
      var rest := FreezeEntries(entries[1..]);
      assert forall i :: 1 <= i < |entries| ==> entries[i] == entries[1..][i - 1];
      {FreezePair(entries[0])} + rest
  }

  /** An instance of the wrapper class. */
  type Convertible = v: Value | v.VConv? witness VConv(NoneValue)

  /** `Convertible(original)`: the two slots are set once, the frozen one from `original`. */
  function NewConvertible(original: Value): Convertible
  {
    VConv(original)
  }

  /** `as_key`: the frozen form.  It is also what `__hash__` hashes, so the
      model identifies a Convertible's hash with this form. */
  function AsKey(c: Convertible): Frozen
  {
    Freeze(c.original)
  }

  /** `revert()`: the object passed to the constructor. */
  function Revert(c: Convertible): Value
  {
    c.original
  }

  /** `__getstate__`: the pair (frozen, original). */
  function GetState(c: Convertible): (Frozen, Value)
  {
    (AsKey(c), c.original)
  }

  /** `Convertible.__eq__(self, other)`: a raw object of the original's type is
      frozen and compared; otherwise only another Convertible with the same
      frozen form is equal. */
  predicate ConvEq(self: Convertible, other: Value)
  {
    if !other.VConv? && IsInstance(other, TypeOf(self.original)) then AsKey(self) == Freeze(other)
    else other.VConv? && AsKey(self) == AsKey(other)
  }

  /** `convertible(value)`: the value itself if it already is a Convertible, a new wrapper otherwise. */
  function Wrap(v: Value): Convertible
  {
    if v.VConv? then v else NewConvertible(v)
  }

  /** `x.revert() if isinstance(x, Convertible) else x`, the unwrapping the map applies to results. */
  function Unwrapped(v: Value): Value
  {
    if v.VConv? then v.original else v
  }

  /** The frozen form under which `convertible(v)` is indexed. */
  function WrappedKey(v: Value): Frozen
  {
    AsKey(Wrap(v))
  }

  /** Python's `a == b` as the container sees it: a Convertible on either side
      decides (the raw side's own `__eq__` gives way to it); lists and tuples
      compare element by element; everything else compares structurally. */
  predicate PyEq(a: Value, b: Value)
    decreases a
  {
    if a.VConv? then ConvEq(a, b)
    else if b.VConv? then ConvEq(b, a)
    else match a
      case VList(xs) => b.VList? && |xs| == |b.items| && forall i :: 0 <= i < |xs| ==> PyEq(xs[i], b.items[i])
      case VTuple(xs) => b.VTuple? && |xs| == |b.items| && forall i :: 0 <= i < |xs| ==> PyEq(xs[i], b.items[i])
      case _ => a == b
  }

  // ---------------------------------------------------------------------
  // Freezing

  /** None, bool, int, float, str and bytes freeze to themselves, and no other
      object freezes to a primitive. */
  lemma AtomsFreezeToThemselves(v: Value)
    ensures Freeze(v).FAtom? <==> v.VAtom?
    ensures v.VAtom? ==> Freeze(v).atom == v.atom
  {
  }

  /** Two mappings with the same entries in a different insertion order freeze equal. */
  lemma MappingOrderIrrelevant(e1: seq<(Value, Value)>, e2: seq<(Value, Value)>)
    requires multiset(e1) == multiset(e2)
    ensures Freeze(VDict(e1)) == Freeze(VDict(e2))
  {
    var r1, r2 := FreezeEntries(e1), FreezeEntries(e2);
    forall p | p in r1
      ensures p in r2
    {
      var i :| 0 <= i < |e1| && p == FreezePair(e1[i]);
      assert e1[i] in multiset(e2);
      var j :| 0 <= j < |e2| && e2[j] == e1[i];
    }
    forall p | p in r2
      ensures p in r1
    {
      var j :| 0 <= j < |e2| && p == FreezePair(e2[j]);
      assert e2[j] in multiset(e1);
      var i :| 0 <= i < |e1| && e1[i] == e2[j];
    }
    assert r1 == r2;
  }

  /** A mapping's frozen form holds exactly the frozen pairs of its entries. */
  lemma MappingFreezesToPairs(entries: seq<(Value, Value)>, k: Value, v: Value)
    ensures (Freeze(k), Freeze(v)) in Freeze(VDict(entries)).pairs <==>
            exists i :: 0 <= i < |entries| && Freeze(entries[i].0) == Freeze(k) && Freeze(entries[i].1) == Freeze(v)
  {
    var p := (Freeze(k), Freeze(v));
    var r := FreezeEntries(entries);
    assert Freeze(VDict(entries)).pairs == r;
    if p in r {
      var i :| 0 <= i < |entries| && p == FreezePair(entries[i]);
      assert Freeze(entries[i].0) == Freeze(k) && Freeze(entries[i].1) == Freeze(v);
    } else {
      forall i | 0 <= i < |entries|
        ensures !(Freeze(entries[i].0) == Freeze(k) && Freeze(entries[i].1) == Freeze(v))
      {
        assert FreezePair(entries[i]) in r;
      }
    }
  }

  /** Lists freeze position by position: two lists freeze equal exactly when
      they have the same length and their elements freeze equal in order. */
  lemma SequenceFreezesInOrder(xs: seq<Value>, ys: seq<Value>)
    ensures Freeze(VList(xs)) == Freeze(VList(ys)) <==>
            |xs| == |ys| && forall i :: 0 <= i < |xs| ==> Freeze(xs[i]) == Freeze(ys[i])
  {
    var fx, fy := FreezeItems(xs), FreezeItems(ys);
    if |xs| == |ys| && forall i :: 0 <= i < |xs| ==> Freeze(xs[i]) == Freeze(ys[i]) {
      assert forall i :: 0 <= i < |fx| ==> fx[i] == fy[i];
      assert fx == fy;
    }
  }

  /** List order matters: swapping two elements that freeze differently changes the frozen form. */
  lemma ListOrderMatters(xs: seq<Value>, i: nat, j: nat)
    requires i < j < |xs| && Freeze(xs[i]) != Freeze(xs[j])
    ensures Freeze(VList(xs)) != Freeze(VList(xs[i := xs[j]][j := xs[i]]))
  {
    var ys := xs[i := xs[j]][j := xs[i]];
    assert ys[i] == xs[j];
    SequenceFreezesInOrder(xs, ys);
  }

  /** A list, a tuple and a set holding the same elements in the same
      (iteration) order freeze equal; a mapping never freezes like any of them. */
  lemma SequenceKindsFreezeAlike(xs: seq<Value>, entries: seq<(Value, Value)>)
    ensures Freeze(VList(xs)) == Freeze(VTuple(xs)) == Freeze(VSet(xs))
    ensures Freeze(VDict(entries)) != Freeze(VList(xs))
  {
  }

  /** A set is frozen in its iteration order, so the same elements iterated in
      two different orders give two different frozen forms. */
  lemma SetIterationOrderMatters(x: Value, y: Value)
    requires Freeze(x) != Freeze(y)
    ensures Freeze(VSet([x, y])) != Freeze(VSet([y, x]))
  {
    ListOrderMatters([x, y], 0, 1);
    assert [x, y][0 := y][1 := x] == [y, x];
  }

  // ---------------------------------------------------------------------
  // The wrapper

  /** `revert()` returns exactly the constructor's argument and `as_key` its frozen form. */
  lemma RevertAndAsKey(original: Value)
    ensures Revert(NewConvertible(original)) == original
    ensures AsKey(NewConvertible(original)) == Freeze(original)
  {
  }

  /** Two Convertibles are equal exactly when their frozen forms are; the
      relation is an equivalence on Convertibles. */
  lemma ConvertiblesEqualIffFrozenEqual(a: Convertible, b: Convertible, c: Convertible)
    ensures ConvEq(a, b) <==> AsKey(a) == AsKey(b)
    ensures ConvEq(a, a)
    ensures ConvEq(a, b) ==> ConvEq(b, a)
    ensures ConvEq(a, b) && ConvEq(b, c) ==> ConvEq(a, c)
  {
  }

  /** A Convertible compared with a raw object is equal exactly when the raw
      object is an instance of the original's type and freezes to the same form. */
  lemma ConvertibleEqualsRaw(c: Convertible, raw: Value)
    requires !raw.VConv?
    ensures ConvEq(c, raw) <==> IsInstance(raw, TypeOf(c.original)) && AsKey(c) == Freeze(raw)
  {
  }

  /** Whatever a Convertible equals is indexed under the same frozen form, so
      equal objects hash equal. */
  lemma EqualMeansSameKey(c: Convertible, other: Value)
    requires ConvEq(c, other)
    ensures WrappedKey(other) == AsKey(c)
  {
  }

  /** `convertible` returns a Convertible unchanged and wraps anything else;
      wrapping twice is wrapping once, and a fresh wrapper equals the raw
      object it wraps. */
  lemma WrapIdempotent(x: Value)
    ensures Wrap(Wrap(x)) == Wrap(x)
    ensures x.VConv? ==> Wrap(x) == x
    ensures !x.VConv? ==> Revert(Wrap(x)) == x && ConvEq(Wrap(x), x)
    ensures Unwrapped(Wrap(x)) == Unwrapped(x)
  {
  }

  /** `__getstate__` yields (frozen, original), and a Convertible rebuilt from
      the original component equals the one the state came from. */
  lemma GetStateRoundTrip(c: Convertible)
    ensures GetState(c).0 == AsKey(c)
    ensures NewConvertible(GetState(c).1) == c
    ensures ConvEq(NewConvertible(GetState(c).1), c)
  {
  }

  // ---------------------------------------------------------------------
  // Equality as the dictionaries see it

  /** Every object is equal to itself. */
  lemma {:induction false} PyEqReflexive(a: Value)
    ensures PyEq(a, a)
    decreases a
  {
    match a
    case VList(xs) =>
      forall i | 0 <= i < |xs| ensures PyEq(xs[i], xs[i]) { PyEqReflexive(xs[i]); }
    case VTuple(xs) =>
      forall i | 0 <= i < |xs| ensures PyEq(xs[i], xs[i]) { PyEqReflexive(xs[i]); }
    case _ =>
  }

  /** Between Convertibles, equality is equality of the frozen forms. */
  lemma PyEqOnConvertibles(a: Value, b: Value)
    requires a.VConv? && b.VConv?
    ensures PyEq(a, b) <==> WrappedKey(a) == WrappedKey(b)
  {
  }

  /** A Convertible stored as a key matches a raw probe only if it also
      matches the probe's wrapper. */
  lemma RawMatchImpliesWrappedMatch(stored: Value, probe: Value)
    requires stored.VConv? && PyEq(stored, probe)
    ensures PyEq(stored, Wrap(probe))
  {
  }
}
