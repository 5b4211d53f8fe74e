/**
 * The Python objects the container stores, as plain values.
 *
 * A `Value` is any object a caller may pass as a key or a value: the
 * primitive atoms, the three container kinds the freezing rule knows
 * (mappings, list/tuple, set), any other object, and an instance of the
 * `Convertible` wrapper itself.  A `Frozen` is the hashable canonical form
 * that freezing produces.
 */
module PyObjects {

  type byte = bv8

  /** The primitives that freeze to themselves: None, bool, int, float, str, bytes. */
  datatype Atom =
    | ANone
    | ABool(b: bool)
    | AInt(i: int)
    | AFloat(bits: bv64)      // compared by bit pattern only, no arithmetic
    | AStr(s: string)
    | ABytes(bs: seq<byte>)

  datatype Value =
    | VAtom(atom: Atom)
    | VDict(entries: seq<(Value, Value)>)  // a mapping, in insertion order
    | VList(items: seq<Value>)
    | VTuple(items: seq<Value>)
    | VSet(items: seq<Value>)              // a set, in its iteration order
    | VObject(cls: nat, id: nat)           // any other object: its class and its identity
    | VConv(original: Value)               // a Convertible wrapping `original`

  /** Frozen (hashable) forms. */
  datatype Frozen =
    | FAtom(atom: Atom)
    | FPairs(pairs: set<(Frozen, Frozen)>)  // a frozenset of frozen (key, value) pairs
    | FTuple(elems: seq<Frozen>)            // a tuple of frozen elements
    | FOpaque(source: Value)                // the serialised form of an object freezing cannot look into

  datatype PyType =
    | TNone | TBool | TInt | TFloat | TStr | TBytes
    | TDict | TList | TTuple | TSet
    | TClass(cls: nat)
    | TConvertible

  /** The exceptions the core raises. */
  datatype Error = KeyError | TypeError | IndexError

  datatype Option<+T> = None | Some(value: T)

  datatype Result<+T> = Ok(value: T) | Err(error: Error)

  /** How a statement that returns nothing ends: normally, or by raising. */
  datatype Outcome = Pass | Fail(error: Error)

  const NoneValue: Value := VAtom(ANone)

  /** `type(v)` */
  function TypeOf(v: Value): PyType
  {
    match v
    case VAtom(a) =>
      (match a
       case ANone => TNone
       case ABool(_) => TBool
       case AInt(_) => TInt
       case AFloat(_) => TFloat
       case AStr(_) => TStr
       case ABytes(_) => TBytes)
    case VDict(_) => TDict
    case VList(_) => TList
    case VTuple(_) => TTuple
    case VSet(_) => TSet
    case VObject(cls, _) => TClass(cls)
    case VConv(_) => TConvertible
  }

  /** `isinstance(v, t)`: the only subclass relation among these types is bool < int. */
  predicate IsInstance(v: Value, t: PyType)
  {
    TypeOf(v) == t || (TypeOf(v) == TBool && t == TInt)
  }

  /** Whether `hash(v)` succeeds: lists, dicts and sets are unhashable, and so is a tuple holding one. */
  predicate Hashable(v: Value)
  {
    match v
    case VAtom(_) => true
    case VDict(_) => false
    case VList(_) => false
    case VTuple(items) => forall i :: 0 <= i < |items| ==> Hashable(items[i])
    case VSet(_) => false
    case VObject(_, _) => true
    case VConv(_) => true
  }
}
