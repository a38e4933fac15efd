/** Python runtime values as the dashboard code meets them: JSON documents
    from the record store, request parameters and intermediate dictionaries.
    Python truthiness, hash-equality of dictionary keys, `dict.get`,
    subscripting and the `in` operator are written out here so that the
    operations modelled elsewhere can follow the source branch by branch. */
module PyValues {

  import opened Wrappers
  import opened Text

  /** The exceptions the modelled code raises or lets propagate. */
  datatype PyException =
    | KeyError(key: string)
    | TypeError
    | AttributeError
    | ValueError(what: string, items: seq<string>)
    | PlainException(what: string)
    | FileNotFound(path: string)

  /** The outcome of a Python call: a value, or an exception that escapes. */
  datatype Result<+T> = Ok(value: T) | Raise(exc: PyException)

  /** A JSON-shaped Python value. Floats are modelled as exact reals;
      dictionaries have string keys, as JSON objects do. */
  datatype Value =
    | Nil
    | Bool(b: bool)
    | Int(i: int)
    | Float(r: real)
    | Str(s: string)
    | List(elems: seq<Value>)
    | Dict(fields: map<string, Value>)

  /** Python's `bool(v)`. */
  predicate Truthy(v: Value)
  {
    match v
    case Nil => false
    case Bool(b) => b
    case Int(i) => i != 0
    case Float(r) => r != 0.0
    case Str(s) => s != ""
    case List(xs) => xs != []
    case Dict(m) => m != map[]
  }

  /** `isinstance(v, (int, float))` (a bool is an int in Python) and the
      number it stands for. */
  function Numeric(v: Value): (r: Option<real>)
    ensures r.Some? <==> (v.Bool? || v.Int? || v.Float?)
    ensures v.Int? ==> r == Some(v.i as real)
    ensures v.Float? ==> r == Some(v.r)
  {
    match v
    case Bool(b) => Some(if b then 1.0 else 0.0)
    case Int(i) => Some(i as real)
    case Float(r) => Some(r)
    case _ => None
  }

  /** The identity a hashable value has as a dictionary key or set member:
      `1`, `1.0` and `True` are one key in Python. */
  datatype Key = KNil | KNum(n: real) | KStr(text: string)

  /** `hash(v)` succeeds exactly for the scalar values; lists and dicts are
      unhashable (Python raises TypeError). */
  function HashKey(v: Value): (k: Option<Key>)
    ensures k.None? <==> (v.List? || v.Dict?)
  {
    match v
    case Nil => Some(KNil)
    case Bool(b) => Some(KNum(if b then 1.0 else 0.0))
    case Int(i) => Some(KNum(i as real))
    case Float(r) => Some(KNum(r))
    case Str(s) => Some(KStr(s))
    case _ => None
  }

  /** Python `a == b`: numbers by value (`1 == 1.0 == True`), strings by
      content, lists element by element, dictionaries key by key; values of
      different kinds are unequal. */
  predicate Equal(a: Value, b: Value)
  {
    match (a, b)
    case (Nil, Nil) => true
    case (Str(s), Str(t)) => s == t
    case (List(xs), List(ys)) => |xs| == |ys| && forall i | 0 <= i < |xs| :: Equal(xs[i], ys[i])
    case (Dict(m), Dict(n)) => m.Keys == n.Keys && forall k | k in m :: Equal(m[k], n[k])
    case _ => Numeric(a).Some? && Numeric(b).Some? && Numeric(a).value == Numeric(b).value
  }

  /** On hashable values, `==` is equality of keys. */
  lemma EqualKeys(a: Value, b: Value)
    requires HashKey(a).Some? && HashKey(b).Some?
    ensures Equal(a, b) <==> HashKey(a) == HashKey(b)
  {
  }

  /** Every value equals itself. */
  lemma {:induction false} EqualReflexive(a: Value)
    ensures Equal(a, a)
  {
    match a
    case List(xs) =>
      forall i | 0 <= i < |xs| ensures Equal(xs[i], xs[i]) { EqualReflexive(xs[i]); }
    case Dict(m) =>
      forall k | k in m ensures Equal(m[k], m[k]) { EqualReflexive(m[k]); }
    case _ =>
  }

  /** Python `a or b`. */
  function Or(a: Value, b: Value): (r: Value)
    ensures Truthy(r) <==> Truthy(a) || Truthy(b)
    ensures Truthy(a) ==> r == a
  {
    if Truthy(a) then a else b
  }

  /** `d.get(key, default)` on a dictionary. */
  function Get(d: map<string, Value>, key: string, default: Value): Value
  {
    if key in d then d[key] else default
  }

  /** `key in container` for a string key; a container that is not a
      dictionary, list or string raises TypeError. */
  function Contains(container: Value, key: string): (r: Result<bool>)
    ensures container.Dict? ==> r == Ok(key in container.fields)
    ensures r.Raise? <==> !(container.Dict? || container.List? || container.Str?)
  {
    match container
    case Dict(m) => Ok(key in m)
    case List(xs) => Ok(Str(key) in xs)
    case Str(s) => Ok(IsInfix(key, s))
    case _ => Raise(TypeError)
  }

  /** `container[key]` for a string key: only a dictionary holding the key
      answers; a missing key is a KeyError, any other container a TypeError. */
  function Subscript(container: Value, key: string): (r: Result<Value>)
    ensures r.Ok? <==> container.Dict? && key in container.fields
    ensures r.Ok? ==> r.value == container.fields[key]
  {
    match container
    case Dict(m) => if key in m then Ok(m[key]) else Raise(KeyError(key))
    case _ => Raise(TypeError)
  }
}
