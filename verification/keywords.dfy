/** Keyword aggregation: one predicate per `key=value` keyword argument, in argument order. */
module Keywords {
  import opened PyValues
  import opened KeySyntax
  import opened Combinators

  /** A keyword argument: the key string and the criterion. */
  type Kwarg = (string, Value)

  /** Some key of `kwargs` is malformed, so building its predicate raises ValueError. */
  ghost predicate SomeKeyMalformed(kwargs: seq<Kwarg>)
  {
    exists i :: 0 <= i < |kwargs| && SplitKey(kwargs[i].0).Raised?
  }

  /** A malformed key is either the first one or among the rest. */
  lemma MalformedFirstOrRest(kwargs: seq<Kwarg>)
    requires |kwargs| > 0
    ensures SomeKeyMalformed(kwargs) <==> SplitKey(kwargs[0].0).Raised? || SomeKeyMalformed(kwargs[1..])
  {
    if SomeKeyMalformed(kwargs[1..]) {
      var i :| 0 <= i < |kwargs[1..]| && SplitKey(kwargs[1..][i].0).Raised?;
      assert kwargs[1..][i] == kwargs[i + 1];
    }
    if SomeKeyMalformed(kwargs) && SplitKey(kwargs[0].0).Ok? {
      var i :| 0 <= i < |kwargs| && SplitKey(kwargs[i].0).Raised?;
      assert kwargs[1..][i - 1] == kwargs[i];
    }
  }

  /** The predicates built for `kwargs` by `make`, from the parsed key and the value; the first
      malformed key raises ValueError before any predicate is used. */
  function KeywordPreds(kwargs: seq<Kwarg>, make: (KeyPath, Value) -> Pred): (r: Result<seq<Pred>>)
    ensures r.Raised? <==> SomeKeyMalformed(kwargs)
    ensures r.Raised? ==> r.error == ValueError
    ensures r.Ok? ==> |r.value| == |kwargs|
    ensures r.Ok? ==> forall i, x :: 0 <= i < |kwargs| ==>
                        r.value[i](x) == make(SplitKey(kwargs[i].0).value, kwargs[i].1)(x)
    decreases |kwargs|
  {
    if |kwargs| == 0 then Ok([])
    else
      MalformedFirstOrRest(kwargs);
      match SplitKey(kwargs[0].0)
      case Raised(e) => Raised(e)
      case Ok(kp) =>
        match KeywordPreds(kwargs[1..], make)
        case Raised(e) => Raised(e)
        case Ok(rest) =>
          PrependKeywordPred(kwargs, make, kp, rest);
          Ok([make(kp, kwargs[0].1)] + rest)
  }

  /** The predicate of the first keyword, put in front of those of the rest, lines up with
      the keywords. */
  lemma PrependKeywordPred(kwargs: seq<Kwarg>, make: (KeyPath, Value) -> Pred, kp: KeyPath, rest: seq<Pred>)
    requires |kwargs| > 0 && SplitKey(kwargs[0].0) == Ok(kp)
    requires forall i :: 0 <= i < |kwargs| ==> SplitKey(kwargs[i].0).Ok?
    requires |rest| == |kwargs| - 1
    requires forall i, x :: 0 <= i < |kwargs| - 1 ==>
               rest[i](x) == make(SplitKey(kwargs[1..][i].0).value, kwargs[1..][i].1)(x)
    ensures var preds := [make(kp, kwargs[0].1)] + rest;
            forall i, x :: 0 <= i < |kwargs| ==> preds[i](x) == make(SplitKey(kwargs[i].0).value, kwargs[i].1)(x)
  {
    var preds := [make(kp, kwargs[0].1)] + rest;
    forall i, x | 1 <= i < |kwargs|
      ensures preds[i](x) == make(SplitKey(kwargs[i].0).value, kwargs[i].1)(x)
    {
      assert kwargs[i] == kwargs[1..][i - 1];
      assert preds[i] == rest[i - 1];
    }
  }
}
