/** The `query_filter.query` variant. Its getters raise ObjNotFound for a path that cannot be
    resolved; a criterion or check on such a path is false, while a found `None` is an ordinary
    value that the operator is applied to. */
module QueryVariant {
  import opened PyValues
  import opened Paths
  import opened Operators
  import opened KeySyntax
  import opened Combinators
  import opened Keywords

  /** `retrieve_attr(obj, *names)`: an AttributeError anywhere along the path becomes
      ObjNotFound; any other exception passes through. */
  function RetrieveAttr(obj: Value, names: seq<Value>): (r: Result<Value>)
    ensures r.Ok? <==> Walk(obj, AttrPath(names)).Ok?
    ensures r.Ok? ==> r.value == Walk(obj, AttrPath(names)).value
    ensures r == Raised(ObjNotFound) <==> Walk(obj, AttrPath(names)) == Raised(AttributeError)
    ensures (forall i :: 0 <= i < |names| ==> names[i].Str?) && r.Raised? ==> r.error == ObjNotFound
  {
    AttrWalkErrors(obj, names);
    match Walk(obj, AttrPath(names))
    case Raised(AttributeError) => Raised(ObjNotFound)
    case other => other
  }

  /** `retrieve_item(obj, *keys)`: a KeyError, IndexError or TypeError anywhere along the path
      becomes ObjNotFound, never a partial value. */
  function RetrieveItem(obj: Value, keys: seq<Value>): (r: Result<Value>)
    ensures r.Ok? <==> Walk(obj, ItemPath(keys)).Ok?
    ensures r.Ok? ==> r.value == Walk(obj, ItemPath(keys)).value
    ensures r.Raised? ==> r.error == ObjNotFound
    ensures |keys| == 0 ==> r == Ok(obj)
  {
    ItemWalkErrors(obj, keys);
    match Walk(obj, ItemPath(keys))
    case Raised(_) => Raised(ObjNotFound)
    case Ok(v) => Ok(v)
  }

  /** The one-argument checks decorated with `query_predicate`. */
  datatype Check = IsNone | IsNotNone | IsTrue | IsFalse

  /** `is_none`, `is_not_none`, `is_true`, `is_false` on a found value: identity with the
      singletons `None`, `True`, `False`. */
  predicate Holds(c: Check, v: Value)
  {
    match c
    case IsNone => v == None
    case IsNotNone => v != None
    case IsTrue => v == Bool(true)
    case IsFalse => v == Bool(false)
  }

  /** The unary checks are identity tests against the singletons: `is_none` is `v is None`,
      `is_not_none` its complement, `is_true` is `v is True` and `is_false` is `v is False`. */
  lemma UnaryChecksAreIdentity(v: Value)
    ensures Holds(IsNone, v) <==> Identical(v, None)
    ensures Holds(IsNotNone, v) <==> !Holds(IsNone, v)
    ensures Holds(IsTrue, v) <==> Identical(v, Bool(true))
    ensures Holds(IsFalse, v) <==> Identical(v, Bool(false))
  {
  }

  /** `query_predicate(check)(get, keys)`: false when the getter raises ObjNotFound, the check
      of the found value otherwise; any other exception passes through. */
  function QueryPredicate(c: Check, get: Getter, keys: seq<Value>): (p: Pred)
    ensures forall obj :: get(obj, keys) == Raised(ObjNotFound) ==> p(obj) == Ok(false)
    ensures forall obj :: get(obj, keys).Ok? ==> p(obj) == Ok(Holds(c, get(obj, keys).value))
    ensures forall obj :: get(obj, keys).Raised? && get(obj, keys).error != ObjNotFound ==>
                          p(obj) == Raised(get(obj, keys).error)
  {
    obj => match get(obj, keys)
           case Raised(ObjNotFound) => Ok(false)
           case Raised(e) => Raised(e)
           case Ok(v) => Ok(Holds(c, v))
  }

  /** `query_criteria(comparer)(get, keys, criteria)`: false when the getter raises ObjNotFound
      (the operator is never run), the operator applied to the found value and the criterion
      otherwise; any other exception, the getter's or the operator's, passes through. */
  function QueryCriteria(op: Op, get: Getter, keys: seq<Value>, criteria: Value): (p: Pred)
    ensures forall obj :: get(obj, keys) == Raised(ObjNotFound) ==> p(obj) == Ok(false)
    ensures forall obj :: get(obj, keys).Ok? ==> p(obj) == Apply(op, get(obj, keys).value, criteria)
    ensures forall obj :: get(obj, keys).Raised? && get(obj, keys).error != ObjNotFound ==>
                          p(obj) == Raised(get(obj, keys).error)
  {
    obj => match get(obj, keys)
           case Raised(ObjNotFound) => Ok(false)
           case Raised(e) => Raised(e)
           case Ok(v) => Apply(op, v, criteria)
  }

  /** `Query(*keys, getter=...)`: a path and a getter; its comparison methods build criteria
      and its check methods build checks on that path. */
  datatype Query = Query(keys: seq<Value>, getter: Getter)
  {
    /** `<`, `<=`, `==`, `!=`, `>`, `>=`, `is_in` and `contains` (the class has no `is`). */
    function Compare(op: Op, criteria: Value): (p: Pred)
      requires op != Is && op != IsNot
      ensures forall obj :: getter(obj, keys) == Raised(ObjNotFound) ==> p(obj) == Ok(false)
      ensures forall obj :: getter(obj, keys).Ok? ==> p(obj) == Apply(op, getter(obj, keys).value, criteria)
      ensures forall obj :: getter(obj, keys).Raised? && getter(obj, keys).error != ObjNotFound ==>
                            p(obj) == Raised(getter(obj, keys).error)
    {
      QueryCriteria(op, getter, keys, criteria)
    }

    /** `is_none()`, `is_not_none()`, `is_true()`, `is_false()`. */
    function Test(c: Check): (p: Pred)
      ensures forall obj :: getter(obj, keys) == Raised(ObjNotFound) ==> p(obj) == Ok(false)
      ensures forall obj :: getter(obj, keys).Ok? ==> p(obj) == Ok(Holds(c, getter(obj, keys).value))
      ensures forall obj :: getter(obj, keys).Raised? && getter(obj, keys).error != ObjNotFound ==>
                            p(obj) == Raised(getter(obj, keys).error)
    {
      QueryPredicate(c, getter, keys)
    }
  }

  /** On an item path every criterion is false where the path does not resolve, whatever the
      operator and criterion, and is the operator on the resolved value where it does. */
  lemma ItemCriteriaOnPath(op: Op, keys: seq<Value>, criteria: Value, obj: Value)
    ensures Walk(obj, ItemPath(keys)).Raised? ==> QueryCriteria(op, RetrieveItem, keys, criteria)(obj) == Ok(false)
    ensures Walk(obj, ItemPath(keys)).Ok? ==>
            QueryCriteria(op, RetrieveItem, keys, criteria)(obj) == Apply(op, Walk(obj, ItemPath(keys)).value, criteria)
  {
  }

  /** A found `None` is not an absent path: `is_none` holds exactly when the path resolves to
      `None`; `is_none` and `is_not_none` are complements on every resolved path and both false
      on an unresolved one. */
  lemma {:induction false} NoneIsFound(keys: seq<Value>, obj: Value)
    ensures QueryPredicate(IsNone, RetrieveItem, keys)(obj) == Ok(true) <==> Walk(obj, ItemPath(keys)) == Ok(None)
    ensures Walk(obj, ItemPath(keys)).Ok? ==>
            QueryPredicate(IsNone, RetrieveItem, keys)(obj).value == !QueryPredicate(IsNotNone, RetrieveItem, keys)(obj).value
    ensures Walk(obj, ItemPath(keys)).Raised? ==>
            QueryPredicate(IsNone, RetrieveItem, keys)(obj) == Ok(false)
            && QueryPredicate(IsNotNone, RetrieveItem, keys)(obj) == Ok(false)
  {
    var r := RetrieveItem(obj, keys);
    assert r.Raised? ==> r == Raised(ObjNotFound);
  }

  /** `==` and `!=` are both false on an unresolved path, and complements on a resolved one. */
  lemma EqNeOnPath(keys: seq<Value>, criteria: Value, obj: Value)
    ensures Walk(obj, ItemPath(keys)).Raised? ==>
            QueryCriteria(Eq, RetrieveItem, keys, criteria)(obj) == Ok(false)
            && QueryCriteria(Ne, RetrieveItem, keys, criteria)(obj) == Ok(false)
    ensures Walk(obj, ItemPath(keys)).Ok? ==>
            QueryCriteria(Eq, RetrieveItem, keys, criteria)(obj).value
            == !QueryCriteria(Ne, RetrieveItem, keys, criteria)(obj).value
  {
  }

  /** `_kwarg_preds(kwargs, getter)`: one criterion per keyword, on the getter and the parsed key. */
  function KwargPreds(kwargs: seq<Kwarg>, getter: Getter): (r: Result<seq<Pred>>)
    ensures r.Raised? <==> SomeKeyMalformed(kwargs)
    ensures r.Raised? ==> r.error == ValueError
    ensures r.Ok? ==> |r.value| == |kwargs|
    ensures r.Ok? ==> forall i, x :: 0 <= i < |kwargs| ==> r.value[i](x) == KeywordCriterion(kwargs[i], getter)(x)
  {
    KeywordPreds(kwargs, (kp: KeyPath, v: Value) => QueryCriteria(kp.op, getter, PathKeys(kp.path), v))
  }

  /** The criterion a well-formed keyword stands for. */
  function KeywordCriterion(kw: Kwarg, getter: Getter): Pred
    requires SplitKey(kw.0).Ok?
  {
    var kp := SplitKey(kw.0).value;
    QueryCriteria(kp.op, getter, PathKeys(kp.path), kw.1)
  }

  /** A keyword holds on `x` (false when its key is malformed). */
  ghost predicate KeywordHolds(kw: Kwarg, getter: Getter, x: Value)
  {
    SplitKey(kw.0).Ok? && KeywordCriterion(kw, getter)(x) == Ok(true)
  }

  /** A keyword fails on `x` (false when its key is malformed). */
  ghost predicate KeywordFails(kw: Kwarg, getter: Getter, x: Value)
  {
    SplitKey(kw.0).Ok? && KeywordCriterion(kw, getter)(x) == Ok(false)
  }

  /** Every keyword's criterion returns a bool on `x`: none raises and no key is malformed. */
  ghost predicate KeywordsDecide(kwargs: seq<Kwarg>, getter: Getter, x: Value)
  {
    forall i :: 0 <= i < |kwargs| ==> KeywordHolds(kwargs[i], getter, x) || KeywordFails(kwargs[i], getter, x)
  }

  /** `x`'s test raised an exception that some keyword's criterion raises on `x`. */
  ghost predicate RaisedByKeyword(kwargs: seq<Kwarg>, getter: Getter, x: Value, e: PyError)
  {
    exists i :: 0 <= i < |kwargs| && SplitKey(kwargs[i].0).Ok? && KeywordCriterion(kwargs[i], getter)(x) == Raised(e)
  }

  /** `p` accepts `x` exactly when every keyword holds on it; it returns a bool wherever every keyword does,
      and an exception it raises is one some keyword's criterion raises. */
  ghost predicate AllSemantics(kwargs: seq<Kwarg>, getter: Getter, p: Pred)
  {
    forall x :: && (p(x) == Ok(true) <==> forall i :: 0 <= i < |kwargs| ==> KeywordHolds(kwargs[i], getter, x))
                && (KeywordsDecide(kwargs, getter, x) ==> p(x).Ok?)
                && (p(x).Raised? ==> RaisedByKeyword(kwargs, getter, x, p(x).error))
  }

  /** `p` rejects `x` exactly when every keyword fails on it; it returns a bool wherever every keyword does,
      and an exception it raises is one some keyword's criterion raises. */
  ghost predicate AnySemantics(kwargs: seq<Kwarg>, getter: Getter, p: Pred)
  {
    forall x :: && (p(x) == Ok(false) <==> forall i :: 0 <= i < |kwargs| ==> KeywordFails(kwargs[i], getter, x))
                && (KeywordsDecide(kwargs, getter, x) ==> p(x).Ok?)
                && (p(x).Raised? ==> RaisedByKeyword(kwargs, getter, x, p(x).error))
  }

  /** `p` accepts `x` exactly when every keyword fails on it; it returns a bool wherever every keyword does,
      and an exception it raises is one some keyword's criterion raises. */
  ghost predicate NotAnySemantics(kwargs: seq<Kwarg>, getter: Getter, p: Pred)
  {
    forall x :: && (p(x) == Ok(true) <==> forall i :: 0 <= i < |kwargs| ==> KeywordFails(kwargs[i], getter, x))
                && (KeywordsDecide(kwargs, getter, x) ==> p(x).Ok?)
                && (p(x).Raised? ==> RaisedByKeyword(kwargs, getter, x, p(x).error))
  }

  /** The criteria built for the keywords all return bools where the keywords decide, and an
      exception one of them raises is an exception of that keyword's criterion. */
  lemma BuiltCriteria(kwargs: seq<Kwarg>, getter: Getter, preds: seq<Pred>)
    requires KwargPreds(kwargs, getter) == Ok(preds)
    ensures forall x :: KeywordsDecide(kwargs, getter, x) ==> forall i :: 0 <= i < |preds| ==> preds[i](x).Ok?
    ensures forall x, i :: 0 <= i < |preds| && preds[i](x).Raised? ==> RaisedByKeyword(kwargs, getter, x, preds[i](x).error)
  {
    assert !SomeKeyMalformed(kwargs);
    forall x, i | 0 <= i < |preds| && preds[i](x).Raised?
      ensures RaisedByKeyword(kwargs, getter, x, preds[i](x).error)
    {
      assert SplitKey(kwargs[i].0).Ok?;
      assert KeywordCriterion(kwargs[i], getter)(x) == preds[i](x);
    }
  }

  /** `q_all(*_kwarg_preds(kwargs, getter))`. */
  function KAll(kwargs: seq<Kwarg>, getter: Getter): (r: Result<Pred>)
    ensures r.Raised? <==> SomeKeyMalformed(kwargs)
    ensures r.Raised? ==> r.error == ValueError
    ensures r.Ok? ==> AllSemantics(kwargs, getter, r.value)
  {
    match KwargPreds(kwargs, getter)
    case Raised(e) => Raised(e)
    case Ok(preds) =>
      BuiltCriteria(kwargs, getter, preds);
      Ok(QAll(preds))
  }

  /** `q_any(*_kwarg_preds(kwargs, getter))`. */
  function KAny(kwargs: seq<Kwarg>, getter: Getter): (r: Result<Pred>)
    ensures r.Raised? <==> SomeKeyMalformed(kwargs)
    ensures r.Raised? ==> r.error == ValueError
    ensures r.Ok? ==> AnySemantics(kwargs, getter, r.value)
  {
    match KwargPreds(kwargs, getter)
    case Raised(e) => Raised(e)
    case Ok(preds) =>
      BuiltCriteria(kwargs, getter, preds);
      Ok(QAny(preds))
  }

  /** `q_not(q_any(*_kwarg_preds(kwargs, getter)))`. */
  function KNotAny(kwargs: seq<Kwarg>, getter: Getter): (r: Result<Pred>)
    ensures r.Raised? <==> SomeKeyMalformed(kwargs)
    ensures r.Raised? ==> r.error == ValueError
    ensures r.Ok? ==> NotAnySemantics(kwargs, getter, r.value)
  {
    match KAny(kwargs, getter)
    case Raised(e) => Raised(e)
    case Ok(any) =>
      NegatedAny(kwargs, getter, any);
      Ok(QNot(any))
  }

  /** Negating a predicate that rejects exactly where every keyword fails gives one that
      accepts exactly there, with the same exceptions. */
  lemma NegatedAny(kwargs: seq<Kwarg>, getter: Getter, any: Pred)
    requires AnySemantics(kwargs, getter, any)
    ensures NotAnySemantics(kwargs, getter, QNot(any))
  {
    forall x
      ensures QNot(any)(x) == Ok(true) <==> any(x) == Ok(false)
    {
    }
  }

  /** `k_attrs_all(**kwargs)`. */
  function KAttrsAll(kwargs: seq<Kwarg>): (r: Result<Pred>)
    ensures r.Raised? <==> SomeKeyMalformed(kwargs)
    ensures r.Raised? ==> r.error == ValueError
    ensures r.Ok? ==> AllSemantics(kwargs, RetrieveAttr, r.value)
  {
    KAll(kwargs, RetrieveAttr)
  }

  /** `k_attrs_any(**kwargs)`. */
  function KAttrsAny(kwargs: seq<Kwarg>): (r: Result<Pred>)
    ensures r.Raised? <==> SomeKeyMalformed(kwargs)
    ensures r.Raised? ==> r.error == ValueError
    ensures r.Ok? ==> AnySemantics(kwargs, RetrieveAttr, r.value)
  {
    KAny(kwargs, RetrieveAttr)
  }

  /** `k_attrs_not_any(**kwargs)`. */
  function KAttrsNotAny(kwargs: seq<Kwarg>): (r: Result<Pred>)
    ensures r.Raised? <==> SomeKeyMalformed(kwargs)
    ensures r.Raised? ==> r.error == ValueError
    ensures r.Ok? ==> NotAnySemantics(kwargs, RetrieveAttr, r.value)
  {
    KNotAny(kwargs, RetrieveAttr)
  }

  /** `k_items_all(**kwargs)`. */
  function KItemsAll(kwargs: seq<Kwarg>): (r: Result<Pred>)
    ensures r.Raised? <==> SomeKeyMalformed(kwargs)
    ensures r.Raised? ==> r.error == ValueError
    ensures r.Ok? ==> AllSemantics(kwargs, RetrieveItem, r.value)
  {
    KAll(kwargs, RetrieveItem)
  }

  /** `k_items_any(**kwargs)`. */
  function KItemsAny(kwargs: seq<Kwarg>): (r: Result<Pred>)
    ensures r.Raised? <==> SomeKeyMalformed(kwargs)
    ensures r.Raised? ==> r.error == ValueError
    ensures r.Ok? ==> AnySemantics(kwargs, RetrieveItem, r.value)
  {
    KAny(kwargs, RetrieveItem)
  }

  /** `k_items_not_any(getter, **kwargs)`: the getter argument is accepted and ignored. */
  function KItemsNotAny(getter: Getter, kwargs: seq<Kwarg>): (r: Result<Pred>)
    ensures r.Raised? <==> SomeKeyMalformed(kwargs)
    ensures r.Raised? ==> r.error == ValueError
    ensures r.Ok? ==> NotAnySemantics(kwargs, RetrieveItem, r.value)
  {
    KNotAny(kwargs, RetrieveItem)
  }

  /** Where every keyword returns a bool and one of them fails, `k_items_all` returns False. */
  lemma KItemsAllRejectsNonMatch(kwargs: seq<Kwarg>, i: nat, x: Value)
    requires i < |kwargs| && !SomeKeyMalformed(kwargs)
    requires KeywordsDecide(kwargs, RetrieveItem, x)
    requires KeywordFails(kwargs[i], RetrieveItem, x)
    ensures KItemsAll(kwargs).Ok? && KItemsAll(kwargs).value(x) == Ok(false)
  {
    var p := KItemsAll(kwargs).value;
    assert AllSemantics(kwargs, RetrieveItem, p);
    assert p(x).Ok?;
    assert !KeywordHolds(kwargs[i], RetrieveItem, x);
    var r := p(x);
    assert r.Ok? && r != Ok(true);
    assert r == Ok(r.value) && !r.value;
  }

  /** A keyword on an item path whose key does not resolve in `x` never holds: `k_items_all`
      rejects `x`, whatever the operator and criterion. */
  lemma {:induction false} KItemsAllRejectsMissingKey(kwargs: seq<Kwarg>, i: nat, x: Value)
    requires i < |kwargs| && KItemsAll(kwargs).Ok?
    requires Walk(x, ItemPath(PathKeys(SplitKey(kwargs[i].0).value.path))).Raised?
    ensures KItemsAll(kwargs).value(x) != Ok(true)
  {
    assert SplitKey(kwargs[i].0).Ok?;
    var keys := PathKeys(SplitKey(kwargs[i].0).value.path);
    assert RetrieveItem(x, keys) == Raised(ObjNotFound);
    assert KeywordCriterion(kwargs[i], RetrieveItem)(x) == Ok(false);
  }
}
