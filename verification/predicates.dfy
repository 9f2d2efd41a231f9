/** The `query_filter.predicates` variant: one predicate class per operator, called on a root
    value; its item getter turns only a KeyError into `None`. */
module ClassPredicates {
  import opened PyValues
  import opened Paths
  import Operators
  import PredicateVariant

  /** `retrieve_item(obj, keys)`: a KeyError yields `None`; an IndexError or TypeError is raised. */
  function RetrieveItem(obj: Value, keys: seq<Value>): (r: Result<Value>)
    ensures |keys| == 0 ==> r == Ok(obj)
    ensures Walk(obj, ItemPath(keys)).Ok? ==> r == Walk(obj, ItemPath(keys))
    ensures Walk(obj, ItemPath(keys)) == Raised(KeyError) ==> r == Ok(None)
    ensures r.Raised? <==> Walk(obj, ItemPath(keys)).Raised? && Walk(obj, ItemPath(keys)).error != KeyError
    ensures r.Raised? ==> r.error in {IndexError, TypeError}
  {
    ItemWalkErrors(obj, keys);
    match Walk(obj, ItemPath(keys))
    case Raised(KeyError) => Ok(None)
    case other => other
  }

  /** The concrete predicate classes. */
  datatype Kind =
    | LessThan
    | LessThanOrEqual
    | Equal
    | NotEqual
    | GreaterThan
    | GreaterThanOrEqual
    | IsIn
    | Contains
    | Is
    | IsNot

  /** Each class's `evaluate(obj, criteria)`: the Python operator it stands for. */
  function Evaluate(kind: Kind, obj: Value, criteria: Value): (r: Result<bool>)
    ensures r.Raised? ==> r.error == TypeError
  {
    match kind
    case LessThan => Operators.OrderTest(obj, criteria, {Operators.Below})
    case LessThanOrEqual => Operators.OrderTest(obj, criteria, {Operators.Below, Operators.Same})
    case Equal => Ok(obj == criteria)
    case NotEqual => Ok(obj != criteria)
    case GreaterThan => Operators.OrderTest(obj, criteria, {Operators.Above})
    case GreaterThanOrEqual => Operators.OrderTest(obj, criteria, {Operators.Above, Operators.Same})
    case IsIn => Operators.Member(obj, criteria)
    case Contains => Operators.Member(criteria, obj)
    case Is => Ok(Operators.Identical(obj, criteria))
    case IsNot => Ok(!Operators.Identical(obj, criteria))
  }

  /** The operator of the keyword syntax that a class implements. */
  function OperatorOf(kind: Kind): Operators.Op
  {
    match kind
    case LessThan => Operators.Lt
    case LessThanOrEqual => Operators.Lte
    case Equal => Operators.Eq
    case NotEqual => Operators.Ne
    case GreaterThan => Operators.Gt
    case GreaterThanOrEqual => Operators.Gte
    case IsIn => Operators.In
    case Contains => Operators.Contains
    case Is => Operators.Is
    case IsNot => Operators.IsNot
  }

  /** `Predicate(keys, criteria, getter)` of a given class. */
  datatype Predicate = Predicate(kind: Kind, keys: seq<Value>, criteria: Value, getter: Getter)
  {
    /** `__call__(obj)`: false when the getter yields `None`, otherwise the class's evaluation
        of the value against the criterion; the getter's exceptions pass through. */
    function Call(obj: Value): (r: Result<bool>)
      ensures getter(obj, keys) == Ok(None) ==> r == Ok(false)
      ensures getter(obj, keys).Ok? && getter(obj, keys).value != None ==>
              r == Evaluate(kind, getter(obj, keys).value, criteria)
      ensures getter(obj, keys).Raised? ==> r == Raised(getter(obj, keys).error)
    {
      match getter(obj, keys)
      case Raised(e) => Raised(e)
      case Ok(v) => if v == None then Ok(false) else Evaluate(kind, v, criteria)
    }
  }

  /** The classes are the operators of the operator table: `IsIn` and `Contains` are membership
      with swapped operands, `Is` and `IsNot` complementary identity tests. */
  lemma EvaluateIsOperator(kind: Kind, v: Value, c: Value)
    ensures Evaluate(kind, v, c) == Operators.Apply(OperatorOf(kind), v, c)
    ensures Evaluate(IsIn, v, c) == Evaluate(Contains, c, v)
    ensures Evaluate(Is, v, c).value == !Evaluate(IsNot, v, c).value
  {
  }

  /** A predicate object and the decorated function of the same operator agree on every value. */
  lemma ClassAgreesWithDecorator(p: Predicate, obj: Value)
    ensures p.Call(obj) == PredicateVariant.PredMaker(OperatorOf(p.kind), p.criteria, p.getter, p.keys)(obj)
  {
    EvaluateIsOperator(p.kind, if p.getter(obj, p.keys).Ok? then p.getter(obj, p.keys).value else None, p.criteria);
  }
}
