/** Predicates over root values and their boolean combinations `q_all`, `q_any`, `q_not`,
    with the short-circuit evaluation of Python's `all()` and `any()`. */
module Combinators {
  import opened PyValues

  /** A predicate: called on a root value it returns a bool or raises. */
  type Pred = Value -> Result<bool>

  /** `all(p(x) for p in preds)`: stops at the first predicate that is false or raises. */
  function AllOf(preds: seq<Pred>, x: Value): (r: Result<bool>)
    ensures r == Ok(true) <==> forall i :: 0 <= i < |preds| ==> preds[i](x) == Ok(true)
    ensures r == Ok(false) ==> exists i :: 0 <= i < |preds| && preds[i](x) == Ok(false)
    ensures r.Ok? <==> forall i :: 0 <= i < |preds| && preds[i](x).Raised? ==>
                         exists j :: 0 <= j < i && preds[j](x) == Ok(false)
    ensures r.Raised? ==> exists i :: 0 <= i < |preds| && preds[i](x) == r &&
                                      forall j :: 0 <= j < i ==> preds[j](x) == Ok(true)
    decreases |preds|
  {
    if |preds| == 0 then Ok(true)
    else match preds[0](x)
      case Raised(e) => Raised(e)
      case Ok(b) =>
        if !b then Ok(false)
        else
          var r := AllOf(preds[1..], x);
          assert forall i :: 1 <= i < |preds| ==> preds[i] == preds[1..][i - 1];
          r
  }

  /** `any(p(x) for p in preds)`: stops at the first predicate that is true or raises. */
  function AnyOf(preds: seq<Pred>, x: Value): (r: Result<bool>)
    ensures r == Ok(false) <==> forall i :: 0 <= i < |preds| ==> preds[i](x) == Ok(false)
    ensures r == Ok(true) ==> exists i :: 0 <= i < |preds| && preds[i](x) == Ok(true)
    ensures r.Ok? <==> forall i :: 0 <= i < |preds| && preds[i](x).Raised? ==>
                         exists j :: 0 <= j < i && preds[j](x) == Ok(true)
    ensures r.Raised? ==> exists i :: 0 <= i < |preds| && preds[i](x) == r &&
                                      forall j :: 0 <= j < i ==> preds[j](x) == Ok(false)
    decreases |preds|
  {
    if |preds| == 0 then Ok(false)
    else match preds[0](x)
      case Raised(e) => Raised(e)
      case Ok(b) =>
        if b then Ok(true)
        else
          var r := AnyOf(preds[1..], x);
          assert forall i :: 1 <= i < |preds| ==> preds[i] == preds[1..][i - 1];
          r
  }

  /** `all` over two groups in a row: the second group is only consulted when every predicate
      of the first one holds; otherwise the first group's falsity or exception is the result. */
  lemma {:induction false} AllOfAppend(p: seq<Pred>, q: seq<Pred>, x: Value)
    ensures AllOf(p + q, x) == if AllOf(p, x) == Ok(true) then AllOf(q, x) else AllOf(p, x)
    decreases |p|
  {
    if |p| == 0 {
      assert p + q == q;
    } else {
      assert (p + q)[0] == p[0];
      assert (p + q)[1..] == p[1..] + q;
      AllOfAppend(p[1..], q, x);
    }
  }

  /** `q_all(*preds)`. */
  function QAll(preds: seq<Pred>): (p: Pred)
    ensures forall x :: p(x) == Ok(true) <==> forall i :: 0 <= i < |preds| ==> preds[i](x) == Ok(true)
    ensures forall x :: p(x) == Ok(false) ==> exists i :: 0 <= i < |preds| && preds[i](x) == Ok(false)
    ensures forall x :: (forall i :: 0 <= i < |preds| ==> preds[i](x).Ok?) ==> p(x).Ok?
    ensures forall x :: p(x).Raised? ==> exists i :: 0 <= i < |preds| && preds[i](x) == p(x)
  {
    x => AllOf(preds, x)
  }

  /** `q_any(*preds)`. */
  function QAny(preds: seq<Pred>): (p: Pred)
    ensures forall x :: p(x) == Ok(false) <==> forall i :: 0 <= i < |preds| ==> preds[i](x) == Ok(false)
    ensures forall x :: p(x) == Ok(true) ==> exists i :: 0 <= i < |preds| && preds[i](x) == Ok(true)
    ensures forall x :: (forall i :: 0 <= i < |preds| ==> preds[i](x).Ok?) ==> p(x).Ok?
    ensures forall x :: p(x).Raised? ==> exists i :: 0 <= i < |preds| && preds[i](x) == p(x)
  {
    x => AnyOf(preds, x)
  }

  /** `q_not(pred)`: the boolean complement; an exception passes through. */
  function QNot(pred: Pred): (p: Pred)
    ensures forall x :: p(x).Ok? <==> pred(x).Ok?
    ensures forall x :: pred(x).Ok? ==> p(x).value == !pred(x).value
    ensures forall x :: pred(x).Raised? ==> p(x) == pred(x)
  {
    x => match pred(x)
         case Ok(b) => Ok(!b)
         case Raised(e) => Raised(e)
  }

  /** The empty conjunction holds and the empty disjunction fails, on every value. */
  lemma EmptyCombinations(x: Value)
    ensures QAll([])(x) == Ok(true)
    ensures QAny([])(x) == Ok(false)
  {
  }

  /** Double negation gives back the predicate. */
  lemma DoubleNegation(pred: Pred, x: Value)
    ensures QNot(QNot(pred))(x) == pred(x)
  {
  }

  /** When every predicate returns a bool, `all`/`any` are the plain quantifiers and the
      not-any combination holds exactly when no predicate does. */
  lemma {:induction false} TotalCombinations(preds: seq<Pred>, x: Value)
    requires forall i :: 0 <= i < |preds| ==> preds[i](x).Ok?
    ensures QAll(preds)(x) == Ok(forall i :: 0 <= i < |preds| ==> preds[i](x).value)
    ensures QAny(preds)(x) == Ok(exists i :: 0 <= i < |preds| && preds[i](x).value)
    ensures QNot(QAny(preds))(x) == Ok(forall i :: 0 <= i < |preds| ==> !preds[i](x).value)
  {
    var all := AllOf(preds, x);
    var any := AnyOf(preds, x);
    assert all.Ok? && any.Ok?;
    assert all.value <==> forall i :: 0 <= i < |preds| ==> preds[i](x).value by {
      assert all.value <==> all == Ok(true);
    }
    assert !any.value <==> forall i :: 0 <= i < |preds| ==> !preds[i](x).value by {
      assert !any.value <==> any == Ok(false);
    }
  }
}
