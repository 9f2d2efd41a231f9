/** The `query_filter.predicate` variant: the decorated operator functions short-circuit to
    false whenever the getter yields `None`, so a present-but-`None` value behaves like a
    missing one. */
module PredicateVariant {
  import opened PyValues
  import opened Paths
  import opened Operators
  import opened Combinators

  /** `query_predicate(op)(criteria, getter, keys)`: the getter's value, unless it is `None`,
      compared with the criterion; a getter that raises lets the exception through. */
  function PredMaker(op: Op, criteria: Value, getter: Getter, keys: seq<Value>): (p: Pred)
    ensures forall obj :: getter(obj, keys) == Ok(None) ==> p(obj) == Ok(false)
    ensures forall obj :: getter(obj, keys).Ok? && getter(obj, keys).value != None ==>
                          p(obj) == Apply(op, getter(obj, keys).value, criteria)
    ensures forall obj :: getter(obj, keys).Raised? ==> p(obj) == Raised(getter(obj, keys).error)
  {
    obj => match getter(obj, keys)
           case Raised(e) => Raised(e)
           case Ok(v) => if v == None then Ok(false) else Apply(op, v, criteria)
  }

  /** `==` and `!=` are complements on a non-`None` value and both false on `None`. */
  lemma EqNeComplementary(criteria: Value, getter: Getter, keys: seq<Value>, obj: Value)
    requires getter(obj, keys).Ok?
    ensures getter(obj, keys).value != None ==>
            PredMaker(Eq, criteria, getter, keys)(obj).value == !PredMaker(Ne, criteria, getter, keys)(obj).value
    ensures getter(obj, keys).value == None ==>
            PredMaker(Eq, criteria, getter, keys)(obj) == Ok(false) && PredMaker(Ne, criteria, getter, keys)(obj) == Ok(false)
  {
  }

  /** `_is` and `_is_not` are complements on a non-`None` value and both false on `None`; in
      particular `_is(None, ...)` never holds. */
  lemma IsIsNotComplementary(criteria: Value, getter: Getter, keys: seq<Value>, obj: Value)
    requires getter(obj, keys).Ok?
    ensures getter(obj, keys).value != None ==>
            PredMaker(Is, criteria, getter, keys)(obj).value == !PredMaker(IsNot, criteria, getter, keys)(obj).value
    ensures getter(obj, keys).value == None ==>
            PredMaker(Is, criteria, getter, keys)(obj) == Ok(false) && PredMaker(IsNot, criteria, getter, keys)(obj) == Ok(false)
    ensures PredMaker(Is, None, getter, keys)(obj) == Ok(false)
  {
  }
}
