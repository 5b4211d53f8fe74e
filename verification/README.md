# ReverseMap in Dafny

A model of the core of the Python package ReverseMap, with proofs about it.
The core has two parts:

- **The freezing adapter** (`convert.py`). `_freeze` turns any object into a
  hashable canonical form. `Convertible` pairs that form with the untouched
  original, and compares and hashes by the form alone. `convertible` wraps a
  value unless it is already wrapped.
- **The bidirectional map** (`reverse.py`). `ReverseMap` is a dict that keeps
  two more tables beside its forward entries:
  - the reverse index, which maps the wrapped value to the key;
  - the wrapped-key table.

  It also has three views: keys, values and items.

Files:

- `objects.dfy` (module `PyObjects`) defines the Python objects the container
  stores, as one `Value` datatype. It covers None, bool, int, float, str,
  bytes, dict, list, tuple, set, other objects, and Convertible instances. It
  also defines the frozen forms, `type()`, `isinstance()`, hashability and the
  three exceptions the core raises.
- `convert.dfy` (module `Convert`) covers `_freeze`, `Convertible` and
  `convertible`. It also defines `PyEq`, which is Python's `==` as the
  containers see it: a Convertible on either side decides the comparison.
- `pydict.dfy` (module `PyDict`) models a Python dict, or an OrderedDict, as a
  sequence of entries in insertion order:
  - a lookup takes the first stored key that compares equal to the probe;
  - assigning to a present key replaces the value in place and keeps the
    stored key and its position;
  - a new key is appended;
  - an unhashable key raises TypeError.
- `reverse.dfy` (module `Reverse`) covers the map's state (`MapState`): the
  forward table, the reverse index, the wrapped-key table, and what the values
  view reads. It defines:
  - construction, assignment, deletion and inversion as functions on that state;
  - every read (`m[k]`, `k in m`, `len`, iteration, `reversed`, the three views)
    as a function of it;
  - the invariant `Consistent` and the lemmas that construction, assignment,
    deletion and inversion keep it;
  - the class `ReverseMap`, whose constructor and methods update its four
    fields in place. Each method is proved equal to the corresponding state
    function.
- `reverse_props.dfy` (module `ReverseFacts`) holds what the map promises:
  - where lookups find their items;
  - what membership means;
  - what deletion leaves behind;
  - the lengths and iteration order;
  - the views;
  - what `invert()` produces.

The package's own summary (setup.py:9) promises lookups in both directions
and transparent handling of unhashable objects. The model follows what the
code does, including these behaviours:

- Assignment raises TypeError for an unhashable key, because the dict store
  runs before anything is wrapped (reverse.py:163). This holds despite the
  summary's promise about unhashable objects.
- Lookup probes the wrapped-key table, then the reverse index, then
  membership followed by the forward table (reverse.py:176-187).
- A found item that is the None object is reported as a missing key
  (reverse.py:187-188).
- Deletion removes the forward entry only (reverse.py:192-193). The reverse
  index and the wrapped-key table keep their entries, so a deleted key's
  value is still a member, and `m[k]` still answers after
  `m[k] = v; del m[k]`.
- The wrapped-key table maps wrapped value to wrapped key at construction
  (reverse.py:154), but wrapped key to wrapped value on assignment
  (reverse.py:172).
- `inverse` returns the reverse index itself (reverse.py:205-215).
- Iterating the map yields the forward keys twice (reverse.py:199-200), and
  `reversed(m)` yields them in forward order (reverse.py:252-256).
- The values view is a list copied at construction (reverse.py:110-112). The
  first assignment rebinds it to the live view (reverse.py:165-167), and a
  deletion before that is not reflected.

## Model

| member | source | states |
|---|---|---|
| Convert.Freeze | convert.py:23-36 | the model of `_freeze`: primitives as themselves, a mapping as the set of its frozen pairs, a list, tuple or set as the tuple of its frozen items, anything else as an opaque form; its properties are the lemmas below |
| Convert.ConvEq | convert.py:49-52 | the model of `Convertible.__eq__`; `Convert.ConvertiblesEqualIffFrozenEqual` and `Convert.ConvertibleEqualsRaw` state what it means |
| Convert.Wrap | convert.py:77-82 | the model of `convertible`; `Convert.WrapIdempotent` states its properties |
| Convert.PyEq | convert.py:49-52 | `==` as the containers apply it, with a Convertible on either side deciding; `Convert.PyEqReflexive`, `Convert.PyEqOnConvertibles` and `Convert.RawMatchImpliesWrappedMatch` state its properties |
| Convert.FreezeItems | convert.py:29-30 | the frozen tuple has one element per item, each the frozen item at the same position |
| Convert.FreezeEntries | convert.py:27-28 | the frozen mapping holds exactly the frozen (key, value) pairs of the entries |
| Convert.AtomsFreezeToThemselves | convert.py:25-26 | None, bool, int, float, str and bytes freeze to themselves; in this model no other object freezes to a primitive, because the pickle/`repr` fallback is kept apart as an opaque form (`FOpaque`) |
| Convert.MappingOrderIrrelevant | convert.py:27-28 | two mappings with the same entries in any insertion order freeze equal |
| Convert.MappingFreezesToPairs | convert.py:27-28 | a frozen pair is in a mapping's frozen form iff some entry freezes to it |
| Convert.SequenceFreezesInOrder | convert.py:29-30 | two lists freeze equal iff they have the same length and their elements freeze equal position by position |
| Convert.ListOrderMatters | convert.py:29-30 | swapping two differently frozen elements at any two positions of a list changes its frozen form |
| Convert.SequenceKindsFreezeAlike | convert.py:27-30 | a list, a tuple and a set with the same elements in the same order freeze equal; a mapping never freezes like them |
| Convert.SetIterationOrderMatters | convert.py:29-30 | a set is frozen in its iteration order, so two orders of two different elements give two forms |
| Convert.NewConvertible | convert.py:42-44 | `Convertible(original)` keeps the original and its frozen form; `Convert.RevertAndAsKey` states both |
| Convert.AsKey | convert.py:46-56 | the frozen form, which `as_key` returns and `__hash__` hashes; `Convert.RevertAndAsKey`, `Convert.EqualMeansSameKey` and `Convert.PyEqOnConvertibles` state its role |
| Convert.Revert | convert.py:58-60 | `revert()`; `Convert.RevertAndAsKey` states that it returns the original |
| Convert.GetState | convert.py:68-69 | `__getstate__`; `Convert.GetStateRoundTrip` states that it is (frozen form, original) and rebuilds an equal Convertible |
| Convert.RevertAndAsKey | convert.py:42-44 | `revert()` returns the constructor's argument and `as_key` its frozen form |
| Convert.ConvertiblesEqualIffFrozenEqual | convert.py:49-52 | two Convertibles are equal iff their frozen forms are; this equality is reflexive, symmetric and transitive |
| Convert.ConvertibleEqualsRaw | convert.py:49-52 | a Convertible equals a raw object iff the object is an instance of the original's type and freezes to the same form |
| Convert.EqualMeansSameKey | convert.py:46-52 | whatever a Convertible equals has that Convertible's frozen form as the frozen form of its own wrapper (`WrappedKey(other) == as_key`) |
| Convert.WrapIdempotent | convert.py:77-82 | `convertible` returns a Convertible unchanged, wraps anything else, and wrapping twice is wrapping once; a fresh wrapper equals its raw object |
| Convert.GetStateRoundTrip | convert.py:68-69 | `__getstate__` is (frozen, original), and a Convertible rebuilt from the original is equal to the one it came from |
| Convert.PyEqReflexive | convert.py:49-52 | every object compares equal to itself, a Convertible by its own `__eq__` |
| Convert.PyEqOnConvertibles | convert.py:46-52 | between Convertibles, `==` holds exactly when the hashed frozen forms agree |
| Convert.RawMatchImpliesWrappedMatch | convert.py:49-52 | a stored Convertible that equals a raw probe also equals the probe's wrapper |
| PyDict.Find | reverse.py:178-185 | the index a dict lookup lands on, the first stored key equal to the probe (as `PyDict.IndexOf` states) |
| PyDict.Lookup | reverse.py:178-185 | `d[probe]` as an option: present exactly when `Find` finds an index |
| PyDict.IndexOf | reverse.py:178-185 | a dict lookup finds the first stored key equal to the probe, or none when no key is equal |
| PyDict.Store | reverse.py:163-164 | after `d[k] = v`, `d[k]` is `v`; a present key keeps the key list, a new one is appended |
| PyDict.StoreEntries | reverse.py:163-164 | a store changes only the entry under the key, and the keys stay distinct |
| PyDict.RemoveAtKeepsLookup | reverse.py:192-193 | removing one entry of a dict leaves every other key reading its own value |
| PyDict.FromPairsSnoc | reverse.py:140-141 | `dict(pairs + [(k, v)])` is `dict(pairs)` followed by `d[k] = v` for a hashable `k` |
| PyDict.StoreAppends | reverse.py:163 | storing a key the dict does not hold appends the entry at the end |
| PyDict.RemoveAt | reverse.py:192-193 | deleting an entry keeps the others in order and shortens the dict by one |
| PyDict.RemoveAtKeepsKeys | reverse.py:192-193 | after a deletion the remaining keys are still distinct and hashable |
| PyDict.FromPairs | reverse.py:140-141 | `dict(pairs)` succeeds iff every key is hashable, and then its keys are distinct and hashable |
| PyDict.FromPairsHoldsEveryKey | reverse.py:140-141 | every key given to `dict(pairs)` is a key of the result |
| PyDict.FromPairsOfDict | reverse.py:245-250 | `dict(d)` of a dict's own entries copies them unchanged and in order |
| PyDict.FindByFrozenKey | reverse.py:142-147 | in a table keyed by Convertibles, a Convertible probe finds exactly the entry with its frozen form |
| PyDict.StoreByFrozenKey | reverse.py:145-147 | storing under a Convertible key changes the lookup of exactly the probes with that key's frozen form |
| PyDict.StoreAllUntouched | reverse.py:142-147 | a run of stores leaves the lookup of a frozen form that no stored key has unchanged |
| PyDict.StoreAllLastWins | reverse.py:142-147 | in a run of stores, the last store with a given frozen form decides what a probe with that form finds |
| PyDict.StoreAllFrozenKeyed | reverse.py:142-147 | a run of stores under Convertible keys keeps the table keyed by distinct frozen forms |
| PyDict.StoreAllFindsStored | reverse.py:142-147 | every key stored by the run is found afterwards |
| PyDict.StoreAllKeeps | reverse.py:142-147 | a key present before a run of stores is still found after it |
| PyDict.StoreAllConvertibleValues | reverse.py:154 | stores of Convertible values leave a table holding only Convertible values |
| PyDict.Get | reverse.py:185 | `d[key]` raises TypeError for an unhashable key and KeyError for a missing one, else returns the stored value |
| PyDict.Has | reverse.py:197 | `key in d` raises TypeError for an unhashable key, else is true iff some stored key equals it |
| PyDict.InListIffFound | reverse.py:92 | a key is in the list of a dict's keys iff the dict lookup finds it |
| PyDict.FrozenKeyedIsDistinct | reverse.py:245-250 | a table keyed by distinct frozen forms has pairwise unequal keys |
| PyDict.LookupByFrozenForm | reverse.py:178-183 | two Convertible probes with the same frozen form look up the same entry |
| PyDict.FindStoredKey | reverse.py:184-185 | in a dict, looking up a stored key finds its own entry |
| Reverse.Init | reverse.py:140-161 | the state right after `__init__`; `Reverse.InitConsistent`, `ReverseFacts.InitIndexLastWins`, `ReverseFacts.InitGetByValue`, `ReverseFacts.InitGetByKey` and `ReverseFacts.InitValuesView` state what it holds |
| Reverse.AssignAll | reverse.py:222-223 | a run of assignments that stops at the first TypeError; `ReverseFacts.AssignAllOk`, `ReverseFacts.AssignAllForward`, `ReverseFacts.AssignAllInverse` and `ReverseFacts.AssignAllCmap` state its result |
| Reverse.InvertState | reverse.py:217-224 | the state `invert()` returns; `Reverse.InvertConsistent`, `ReverseFacts.InvertOkIff` and `ReverseFacts.InvertSwaps` state its properties |
| Reverse.Len | reverse.py:202-203 | `len(m)`; `ReverseFacts.ViewLengths` and `ReverseFacts.LenAfterAssign` state its properties |
| Reverse.Inverse | reverse.py:205-215 | the `inverse` property, which returns the reverse index itself; `Reverse.Contains` reads the index through it |
| Reverse.Iter | reverse.py:199-200 | `iter(m)`; `ReverseFacts.IterationOrder` states that it yields the forward keys twice |
| Reverse.Reversed | reverse.py:252-256 | `reversed(m)`; `ReverseFacts.IterationOrder` states that it yields the forward keys in forward order |
| Reverse.Contains | reverse.py:195-197 | `key in m`, with four probes; `ReverseFacts.ContainsIff` states what it means |
| Reverse.Probe | reverse.py:174-187 | the item `m[key]` finds, probing the wrapped-key table, the reverse index and the forward table in that order; `ReverseFacts.GetItemProbes` states its outcomes |
| Reverse.GetItem | reverse.py:174-190 | `m[key]`, with the None sentinel and unwrapping; the `ReverseFacts.GetItem*`, `Init*` and `AssignAll*` lemmas state what it returns |
| Reverse.KeysContains | reverse.py:90-93 | `item in m.keys view`; `ReverseFacts.KeysViewHoldsKeys` states what it holds |
| Reverse.KeysAt | reverse.py:95-96 | the keys view's indexing as a list pop; `ReverseFacts.KeysViewHoldsKeys` states what it returns |
| Reverse.ValuesContains | reverse.py:121-125 | `item in m.values view`; `ReverseFacts.ValuesViewHoldsValues` states what it holds |
| Reverse.ValuesAt | reverse.py:127-129 | the values view's indexing as a list pop; `ReverseFacts.ValuesViewHoldsValues` states what it returns |
| Reverse.ItemsContains | reverse.py:48-51 | `item in m.items view`; `ReverseFacts.ItemsViewHoldsPairs` states what it holds |
| Reverse.ItemsAt | reverse.py:53-54 | the items view's indexing as a list pop; `ReverseFacts.ItemsViewHoldsPairs` states what it returns |
| Reverse.BuildInverse | reverse.py:142-147 | the construction loop builds the reverse index: one store of wrapped value to key per forward entry, in order |
| Reverse.Assign | reverse.py:162-172 | `m[k] = v` raises TypeError iff `k` is unhashable; otherwise the forward table maps `k` to `v`, the reverse index maps wrapped `v` to `k`, the wrapped-key table maps wrapped `k` to wrapped `v`, and the values view is live |
| Reverse.Delete | reverse.py:192-193 | `del m[k]` raises KeyError iff no forward key equals wrapped `k`; otherwise the forward table loses exactly the first entry whose key equals wrapped `k`, the other entries keep their order, and the reverse index, the wrapped-key table and the values view are unchanged; `ReverseFacts.DeleteKeepsOtherEntries` states that every other key still reads its value |
| Reverse.PopAt | reverse.py:54 | `list.pop(i)` succeeds iff `-len <= i < len`, raises IndexError otherwise, and returns an element of the list |
| Reverse.MakeItem | reverse.py:32-39 | an item built from a key and a value, each wrapped unless already a Convertible; `ReverseFacts.ItemRoundTrip` states its round trip |
| Reverse.ItemRevert | reverse.py:26-30 | an item's `revert()`; `ReverseFacts.ItemRoundTrip` and `ReverseFacts.ItemsViewHoldsPairs` state that it gives back the unwrapped pair |
| Reverse.KeysIter | reverse.py:84-85 | iterating the keys view; `ReverseFacts.IterationOrder` and `ReverseFacts.KeysViewHoldsKeys` state what it yields |
| Reverse.KeysLen | reverse.py:87-88 | the keys view's length; `ReverseFacts.ViewLengths` states that it is `len(m)` |
| Reverse.ValuesIter | reverse.py:114-116 | the values view yields one element per listed value, in order, each unwrapped |
| Reverse.ValuesLen | reverse.py:118-119 | the values view's length; `ReverseFacts.ViewLengths`, `ReverseFacts.InitValuesView` and `ReverseFacts.ValuesStaleAfterDelete` state when it is `len(m)` |
| Reverse.ItemsLen | reverse.py:63-64 | the items view's length; `ReverseFacts.ViewLengths` states that it is `len(m)` |
| Reverse.ItemsIter | reverse.py:56-61 | the items view yields one item per forward entry, with key and value wrapped |
| Reverse.RawItems | reverse.py:53-54 | the plain `items()` list has one (key, value) tuple per forward entry, in order |
| Reverse.InitConsistent | reverse.py:140-161 | construction from a dict establishes the invariant: every forward value is indexed in the reverse index, and both side tables are keyed by distinct frozen forms |
| Reverse.StoreKeepsDict | reverse.py:163 | the forward store keeps the forward keys distinct and hashable |
| Reverse.StoreKeepsWrappedTable | reverse.py:168-172 | the wrapped-key store keeps that table keyed by distinct frozen forms and holding Convertibles |
| Reverse.StoreKeepsIndexed | reverse.py:163-164 | the forward and reverse stores together keep every forward value indexed |
| Reverse.AssignConsistent | reverse.py:162-172 | assignment keeps the invariant |
| Reverse.DeleteConsistent | reverse.py:192-193 | deletion keeps the invariant |
| Reverse.AssignAllConsistent | reverse.py:222-223 | a run of assignments keeps the invariant |
| Reverse.InvertConsistent | reverse.py:217-224 | the map `invert()` returns satisfies the invariant |
| Reverse.ReverseMap.constructor | reverse.py:140-161 | the new object's tables are the construction state of `dict(pairs)`, and the invariant holds |
| Reverse.ReverseMap.SetItem | reverse.py:162-172 | raises TypeError and changes nothing for an unhashable key; otherwise the new fields are the assignment of the old state |
| Reverse.ReverseMap.DelItem | reverse.py:192-193 | raises KeyError and changes nothing when no forward key equals wrapped `key`; otherwise the new fields are the deletion of the old state, which `ReverseFacts.DeleteKeepsOtherEntries` and `ReverseFacts.DeleteRemovesKey` describe |
| Reverse.ReverseMap.Invert | reverse.py:217-224 | the loop of assignments into a fresh map succeeds iff the inversion of the state does, with the same error, and otherwise returns a fresh map holding that inversion |
| Reverse.ReverseMap.ConvertibleMap | reverse.py:245-250 | `convertible_map` is a fresh map constructed from the wrapped-key table's entries, and it satisfies the invariant |
| ReverseFacts.InitIndexLastWins | reverse.py:142-147 | after construction the reverse index maps each wrapped value to the key of the last entry whose value freezes alike, and the wrapped-key table maps it to that key wrapped |
| ReverseFacts.InitGetByValue | reverse.py:174-190 | right after construction, `m[v]` returns the key of the last entry whose value freezes like `v`, unwrapped, found in the wrapped-key table |
| ReverseFacts.InitGetByKey | reverse.py:174-190 | right after construction, `m[k]` for a plain key that no value freezes like returns its value from the forward table; a stored None reads as missing |
| ReverseFacts.GetItemAfterAssign | reverse.py:172 | after `m[k] = v`, `m[k]` returns `v`, unwrapped if it was a Convertible |
| ReverseFacts.GetItemByValueAfterAssign | reverse.py:181-183 | after `m[k] = v`, `m[v]` returns `k` from the reverse index when the wrapped-key table had no entry for `v` and `k` and `v` freeze differently; a None key reads as missing |
| ReverseFacts.GetItemProbes | reverse.py:178-188 | `m[key]` succeeds only if some probe finds the key; it raises KeyError when no probe does, and TypeError only for an unhashable key |
| ReverseFacts.ContainsIff | reverse.py:195-197 | `key in m` holds iff the unwrapped key is a forward key or the wrapped key is a reverse-index key; otherwise it is false, or TypeError for an unhashable key |
| ReverseFacts.ForwardEntriesAreMembers | reverse.py:195-197 | every forward value is a member, and so is every forward key that is plain or a Convertible of a plain object |
| ReverseFacts.DeletedValueStillMember | reverse.py:192-193 | after `del m[k]` the deleted entry's value is still a member |
| ReverseFacts.DeleteKeepsWrappedReads | reverse.py:192-193 | `del m[k]` changes no lookup that the wrapped-key table answers |
| ReverseFacts.DeletedKeyStillReadable | reverse.py:192-193 | after `m[k] = v; del m[k]`, `m[k]` still returns `v` |
| ReverseFacts.AtomMatches | convert.py:49-52 | for a primitive `k`, only `k` and its wrapper equal `convertible(k)`, and whatever equals `k` equals the wrapper too |
| ReverseFacts.DeleteKeepsOtherEntries | reverse.py:192-193 | after `del m[key]`, every forward key that does not equal `convertible(key)` still reads its own value |
| ReverseFacts.RemoveAtDropsAtom | reverse.py:192-193 | removing the entry whose key equals `convertible(k)`, for a primitive `k`, leaves no key equal to `k` or to its wrapper |
| ReverseFacts.DeleteRemovesKey | reverse.py:192-193 | after `del m[k]` of a primitive key, no forward key equals `k` or `convertible(k)`, so a second `del m[k]` raises KeyError |
| ReverseFacts.DeletedKeyNotMember | reverse.py:192-197 | after `del m[k]` of a primitive key that is not a reverse-index key, `k in m` is False |
| ReverseFacts.LenAfterAssign | reverse.py:202-203 | assignment grows the length by one exactly when the key is new |
| ReverseFacts.ViewLengths | reverse.py:202-203 | `len(m)`, the keys view and the items view count the forward entries only; so does a live values view |
| ReverseFacts.InitValuesView | reverse.py:110-119 | at construction the values view lists the values, unwrapped, in order |
| ReverseFacts.ValuesStaleAfterDelete | reverse.py:112 | a deletion right after construction leaves the values view one entry longer than the map |
| ReverseFacts.ValuesLiveAfterAssign | reverse.py:134-137 | after an assignment the values view reads the live forward values |
| ReverseFacts.IterationOrder | reverse.py:199-200 | iteration yields every forward key twice, in two passes, and `reversed` yields the keys in forward order |
| ReverseFacts.PopAtFromEnd | reverse.py:96 | popping at `i - len` reaches the same element as popping at `i` |
| ReverseFacts.KeysViewHoldsKeys | reverse.py:90-96 | the keys view holds each forward key that is plain or a Convertible of a plain object, as itself and wrapped, and indexing from either end reaches it |
| ReverseFacts.ValuesViewHoldsValues | reverse.py:114-129 | a live values view holds each plain forward value, yields it as is and pops it at its index |
| ReverseFacts.ItemsViewHoldsPairs | reverse.py:48-61 | the items view holds each forward pair as a plain tuple, yields it wrapped, and pops the plain tuple from either end |
| ReverseFacts.ItemRoundTrip | reverse.py:26-39 | an item made from (k, v) reverts to (k, v) unwrapped, and making it again from its own fields gives the same item |
| ReverseFacts.AssignAllOk | reverse.py:222-223 | a run of assignments succeeds iff every key is hashable |
| ReverseFacts.AssignAllForward | reverse.py:163 | after a run of assignments the forward table is the run of forward stores |
| ReverseFacts.AssignAllInverse | reverse.py:164 | after a run of assignments the reverse index is the run of reverse stores |
| ReverseFacts.AssignAllCmap | reverse.py:168-172 | after a run of assignments the wrapped-key table is the run of wrapped-key stores |
| ReverseFacts.AssignAllGetItem | reverse.py:178-180 | after a run of assignments, `m[p]` for a key that freezes like the last assigned key of its form returns that assignment's value |
| ReverseFacts.AssignAllCmapMiss | reverse.py:178 | a value that no assigned key freezes like stays out of the wrapped-key table |
| ReverseFacts.AssignAllInverseHit | reverse.py:164 | the reverse index maps a value's frozen form to the key of the last assignment of a value with that form |
| ReverseFacts.AssignAllGetByValue | reverse.py:181-183 | after a run of assignments, `m[p]` for the last assigned value of its form, when no key freezes like it, returns that assignment's key |
| ReverseFacts.InvertOkIff | reverse.py:217-224 | `invert()` raises TypeError exactly when some key it would assign (a Convertible's original) is unhashable |
| ReverseFacts.InvertSwaps | reverse.py:217-224 | for a reverse-index entry of plain `v` and `k`, each the last of its frozen form and `v` frozen unlike every former key, the inverted map returns `v` for `k` and `k` for `v` |

## Left out

- Output: the trace `print` calls (reverse.py:128, reverse.py:189), the
  `Convertible.__get__` descriptor, which only writes through `show`, and the
  `show` helper in `_util.py`.
- The pickle and `repr` fallback of `_freeze` (convert.py:31-36) is a foreign
  serialiser. It is modelled as an opaque frozen form (`FOpaque`) that
  identifies the object. The model does not capture `repr` collisions or
  pickling failures, and it differs from Python in two ways:
  - Two distinct objects with equal pickled state freeze equal in Python, so
    they compare equal through a Convertible. After `m[o1] = 'a'; m[o2] = 'b'`,
    Python's `m[o1]` gives `'b'`, because the wrapped-key entry is
    overwritten (reverse.py:172). The model freezes each object by identity
    and gives `'a'`.
  - Python's pickled or `repr` form is an ordinary bytes or str value, so an
    object can freeze like the raw bytes of its own pickle. `FOpaque` never
    equals an atom's frozen form.
- Hashability of other objects. Every other object is hashable in the model;
  a class that sets `__hash__ = None` makes `m[o] = v` raise TypeError in
  Python.
- Concrete hash values. A key is indexed by its frozen form, and a lookup
  compares stored keys with `==` in insertion order. A raw key whose hash
  differs from its wrapper's hash (an object frozen by pickling, say) is
  found by `del m[key]` in the model, but not in Python.
- Python's cross-type numeric equality (`1 == 1.0 == True`) and
  order-insensitive equality of raw dicts and sets. Floats are atoms compared
  by bit pattern, with no arithmetic. Raw dicts and sets compare structurally
  in their stored order.
- Subclasses. `isinstance` knows only that bool is a subclass of int; any
  other class is its own type.
- The `ChainMap` attribute `map` (reverse.py:155) is never read by the core.
- `__str__` and `__repr__` of the map and the views.
- The views' `__call__` rebinding is modelled only for its effect: the values
  view goes live. Rebinding the keys and items views does not change what
  they read.
- `ReverseDictError`, which is never raised.
- The `_inverse is None` branch of `inverse` (reverse.py:210-214) is
  unreachable, because `__init__` always sets `_inverse`.
- The constructor's argument forms (keyword arguments, sequences of pairs
  versus mappings) are modelled as one sequence of (key, value) pairs.
- Reverse.ReverseMap.constructor: requires every initial key to be hashable.
  It does not model the TypeError the dict constructor raises otherwise.
  `PyDict.FromPairs` states that error.
- Reverse.ReverseMap.SetItem: does not carry the invariant `Valid()` in its
  own contract. `Reverse.AssignConsistent` proves that assignment keeps it.
- Reverse.ReverseMap.DelItem: does not carry `Valid()` either.
  `Reverse.DeleteConsistent` proves that deletion keeps it.
- Reverse.ReverseMap.Invert: states the returned map's tables, not its
  invariant. `Reverse.InvertConsistent` proves the invariant of that state.
- ReverseFacts.DeleteRemovesKey: stated for primitive keys. For a container
  key the model's equality lets a raw key and a distinct wrapped key both
  equal `convertible(key)`, so one deletion can leave a matching key behind.
  ReverseFacts.DeletedKeyNotMember is restricted the same way.
- ReverseFacts.InvertSwaps: stated for a plain key and a plain value. Its
  uniqueness conditions are given on the assignments `invert()` performs.
- `rdict.py`, `__init__.py` and `setup.py` are not part of this model.
