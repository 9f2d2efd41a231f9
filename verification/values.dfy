/** Python runtime values and exceptions, as far as the query engine can observe them. */
module PyValues {

  /** A Python value. `None`, `True` and `False` are the singletons; an object with attributes
      is its attribute dictionary; a dict maps hashable values to values. */
  datatype Value =
    | None
    | Bool(b: bool)
    | Int(i: int)
    | Str(s: string)
    | List(elems: seq<Value>)
    | Dict(entries: map<Value, Value>)
    | Obj(attrs: map<string, Value>)

  /** The exceptions the engine raises, catches or lets through. */
  datatype PyError =
    | KeyError
    | IndexError
    | TypeError
    | AttributeError
    | ObjNotFound
    | ValueError

  /** The outcome of a Python call: a returned value or a raised exception. */
  datatype Result<+T> = Ok(value: T) | Raised(error: PyError)

  /** Lists and dicts are unhashable: they cannot be dict keys or be looked up in a dict. */
  predicate Hashable(v: Value)
  {
    !v.List? && !v.Dict?
  }

  /** `copy.deepcopy`: a structural copy of nested lists, dicts and objects. Values have no
      identity here, so the copy is the source value itself. */
  function DeepCopy(v: Value): (r: Value)
    ensures r == v
  {
    match v
    case None => None
    case Bool(b) => Bool(b)
    case Int(i) => Int(i)
    case Str(s) => Str(s)
    case List(xs) =>
      var ys := seq(|xs|, k requires 0 <= k < |xs| => DeepCopy(xs[k]));
      assert ys == xs;
      List(ys)
    case Dict(m) =>
      var n := map k | k in m :: DeepCopy(m[k]);
      assert n == m;
      Dict(n)
    case Obj(a) =>
      var n := map k | k in a :: DeepCopy(a[k]);
      assert n == a;
      Obj(n)
  }
}
