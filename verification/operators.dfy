/** The comparison and membership operators a criterion applies to a resolved value, with the
    operator names the keyword syntax understands. */
module Operators {
  import opened PyValues

  /** The outcome of a three-way comparison of two orderable values. */
  datatype Ordering = Below | Same | Above

  function Flip(o: Ordering): Ordering
  {
    match o
    case Below => Above
    case Same => Same
    case Above => Below
  }

  function IntOrder(x: int, y: int): (o: Ordering)
    ensures o == Below <==> x < y
    ensures o == Same <==> x == y
  {
    if x < y then Below else if x == y then Same else Above
  }

  /** Python's string ordering: lexicographic by code point, a proper prefix coming first. */
  function StrOrder(s: string, t: string): (o: Ordering)
    ensures o == Same <==> s == t
    ensures |s| < |t| && s == t[..|s|] ==> o == Below
    ensures |s| > |t| && t == s[..|t|] ==> o == Above
  {
    if |s| == 0 || |t| == 0 then IntOrder(|s|, |t|)
    else if s[0] < t[0] then Below
    else if s[0] > t[0] then Above
    else
      PrefixTail(s, t);
      PrefixTail(t, s);
      StrOrder(s[1..], t[1..])
  }

  /** Dropping the first character keeps a proper prefix a proper prefix. */
  lemma PrefixTail(s: string, t: string)
    ensures 0 < |s| < |t| && s == t[..|s|] ==> s[1..] == t[1..][..|s| - 1]
  {
    if 0 < |s| < |t| && s == t[..|s|] {
      forall i | 0 <= i < |s| - 1
        ensures s[1..][i] == t[1..][..|s| - 1][i]
      {
        assert s[1..][i] == s[i + 1] == t[i + 1];
      }
    }
  }

  /** Strings that agree before position `k` and differ at it are ordered by their characters
      at `k`, whatever follows. */
  lemma {:induction false} StrOrderFirstDifference(s: string, t: string, k: nat)
    requires k < |s| && k < |t| && s[..k] == t[..k] && s[k] != t[k]
    ensures StrOrder(s, t) == if s[k] < t[k] then Below else Above
    decreases k
  {
    if k > 0 {
      assert s[0] == s[..k][0] == t[..k][0] == t[0];
      assert s[1..][..k - 1] == s[1..k] == s[..k][1..];
      assert t[1..][..k - 1] == t[1..k] == t[..k][1..];
      StrOrderFirstDifference(s[1..], t[1..], k - 1);
    }
  }

  /** The native ordering behind `<`, `<=`, `>` and `>=`: bools, ints and strings among their
      own kind, lists lexicographically; anything else raises TypeError. */
  function Order(a: Value, b: Value): (r: Result<Ordering>)
    ensures r.Raised? ==> r.error == TypeError
    ensures r.Ok? ==> (a.Bool? && b.Bool?) || (a.Int? && b.Int?) || (a.Str? && b.Str?) || (a.List? && b.List?)
    ensures a.Bool? && b.Bool? ==> r.Ok? && (r.value == Below <==> !a.b && b.b) && (r.value == Same <==> a == b)
    ensures a.Int? && b.Int? ==> r.Ok? && (r.value == Below <==> a.i < b.i) && (r.value == Same <==> a.i == b.i)
    ensures a.Str? && b.Str? ==> r == Ok(StrOrder(a.s, b.s))
    ensures a.List? && b.List? ==> r == ListOrder(a.elems, b.elems, 0)
    decreases a, 1, 0
  {
    match (a, b)
    case (Bool(x), Bool(y)) => Ok(IntOrder(if x then 1 else 0, if y then 1 else 0))
    case (Int(x), Int(y)) => Ok(IntOrder(x, y))
    case (Str(s), Str(t)) => Ok(StrOrder(s, t))
    case (List(xs), List(ys)) => ListOrder(xs, ys, 0)
    case _ => Raised(TypeError)
  }

  /** List comparison from index `i`: skip equal elements; the first differing pair decides,
      and when one list runs out the shorter one comes first. */
  function ListOrder(xs: seq<Value>, ys: seq<Value>, i: nat): (r: Result<Ordering>)
    requires i <= |xs| && i <= |ys|
    ensures r.Raised? ==> r.error == TypeError
    decreases List(xs), 0, |xs| - i
  {
    if i == |xs| || i == |ys| then Ok(IntOrder(|xs|, |ys|))
    else if xs[i] == ys[i] then ListOrder(xs, ys, i + 1)
    else Order(xs[i], ys[i])
  }

  /** Lists that agree from `i` up to a first differing position `k` compare as the elements
      at `k` do: the elements after it are never looked at. */
  lemma {:induction false} ListOrderFirstDifference(xs: seq<Value>, ys: seq<Value>, i: nat, k: nat)
    requires i <= k < |xs| && k < |ys|
    requires xs[i..k] == ys[i..k] && xs[k] != ys[k]
    ensures ListOrder(xs, ys, i) == Order(xs[k], ys[k])
    decreases k - i
  {
    if i < k {
      assert xs[i] == xs[i..k][0] == ys[i..k][0] == ys[i];
      assert xs[i + 1..k] == xs[i..k][1..] && ys[i + 1..k] == ys[i..k][1..];
      ListOrderFirstDifference(xs, ys, i + 1, k);
    }
  }

  /** Lists that agree from `i` up to the end of the shorter one compare by length: a proper
      prefix comes first, and equal lengths compare as the same. */
  lemma {:induction false} ListOrderCommonPrefix(xs: seq<Value>, ys: seq<Value>, i: nat)
    requires i <= |xs| && i <= |ys|
    requires forall j :: i <= j < |xs| && j < |ys| ==> xs[j] == ys[j]
    ensures ListOrder(xs, ys, i) == Ok(IntOrder(|xs|, |ys|))
    decreases |xs| - i
  {
    if i < |xs| && i < |ys| {
      ListOrderCommonPrefix(xs, ys, i + 1);
    }
  }

  function FlipResult(r: Result<Ordering>): Result<Ordering>
  {
    match r
    case Ok(o) => Ok(Flip(o))
    case Raised(e) => Raised(e)
  }

  lemma {:induction false} StrOrderFlip(s: string, t: string)
    ensures StrOrder(t, s) == Flip(StrOrder(s, t))
    decreases |s|
  {
    if |s| == 0 || |t| == 0 {
    } else if s[0] == t[0] {
      StrOrderFlip(s[1..], t[1..]);
    }
  }

  /** Swapping the operands flips the ordering (and raises the same exception). */
  lemma {:induction false} OrderFlip(a: Value, b: Value)
    ensures Order(b, a) == FlipResult(Order(a, b))
    decreases a, 1, 0
  {
    match (a, b)
    case (Str(s), Str(t)) => StrOrderFlip(s, t);
    case (List(xs), List(ys)) => ListOrderFlip(xs, ys, 0);
    case _ =>
  }

  lemma {:induction false} ListOrderFlip(xs: seq<Value>, ys: seq<Value>, i: nat)
    requires i <= |xs| && i <= |ys|
    ensures ListOrder(ys, xs, i) == FlipResult(ListOrder(xs, ys, i))
    decreases List(xs), 0, |xs| - i
  {
    if i == |xs| || i == |ys| {
    } else if xs[i] == ys[i] {
      ListOrderFlip(xs, ys, i + 1);
    } else {
      OrderFlip(xs[i], ys[i]);
    }
  }

  /** Only equal values compare as the same. */
  lemma {:induction false} OrderSameIsEqual(a: Value, b: Value)
    requires Order(a, b) == Ok(Same)
    ensures a == b
    decreases a, 1, 0
  {
    match (a, b)
    case (List(xs), List(ys)) =>
      ListOrderSameIsEqual(xs, ys, 0);
      assert xs == xs[0..] && ys == ys[0..];
    case _ =>
  }

  lemma {:induction false} ListOrderSameIsEqual(xs: seq<Value>, ys: seq<Value>, i: nat)
    requires i <= |xs| && i <= |ys|
    requires ListOrder(xs, ys, i) == Ok(Same)
    ensures xs[i..] == ys[i..]
    decreases List(xs), 0, |xs| - i
  {
    if i == |xs| || i == |ys| {
    } else if xs[i] == ys[i] {
      ListOrderSameIsEqual(xs, ys, i + 1);
      assert xs[i..] == [xs[i]] + xs[i + 1..];
      assert ys[i..] == [ys[i]] + ys[i + 1..];
    } else {
      OrderSameIsEqual(xs[i], ys[i]);
    }
  }

  /** Equal orderable values compare as the same; a list compares equal to itself whatever it
      holds, because equal elements are skipped without being ordered. */
  lemma {:induction false} OrderReflexive(a: Value)
    requires a.Bool? || a.Int? || a.Str? || a.List?
    ensures Order(a, a) == Ok(Same)
  {
    if a.List? {
      ListOrderReflexive(a.elems, 0);
    }
  }

  lemma {:induction false} ListOrderReflexive(xs: seq<Value>, i: nat)
    requires i <= |xs|
    ensures ListOrder(xs, xs, i) == Ok(Same)
    decreases |xs| - i
  {
    if i < |xs| {
      ListOrderReflexive(xs, i + 1);
    }
  }

  /** `x in container`: list membership by equality, substring search in a string, key lookup
      in a dict; any other container, a non-string probe of a string or an unhashable probe of a
      dict raises TypeError. */
  function Member(x: Value, container: Value): (r: Result<bool>)
    ensures container.List? ==> r == Ok(x in container.elems)
    ensures container.Dict? ==> (r.Ok? <==> Hashable(x))
    ensures container.Dict? && Hashable(x) ==> r == Ok(x in container.entries)
    ensures container.Str? ==> (r.Ok? <==> x.Str?)
    ensures container.Str? && x.Str? ==> r == Ok(IsSubstring(x.s, container.s))
    ensures r.Raised? ==> r.error == TypeError
    ensures container.None? || container.Bool? || container.Int? || container.Obj? ==> r == Raised(TypeError)
  {
    match container
    case List(xs) => Ok(x in xs)
    case Str(s) => if x.Str? then Ok(IsSubstring(x.s, s)) else Raised(TypeError)
    case Dict(m) => if Hashable(x) then Ok(x in m) else Raised(TypeError)
    case _ => Raised(TypeError)
  }

  /** `t` occurs in `s` starting at index `i`. */
  ghost predicate OccursAt(t: string, s: string, i: int)
  {
    0 <= i && i + |t| <= |s| && s[i..i + |t|] == t
  }

  /** `t in s` for strings: `t` occurs in `s` at some position. */
  function IsSubstring(t: string, s: string): (r: bool)
    ensures r <==> exists i :: OccursAt(t, s, i)
    decreases |s|
  {
    if |t| <= |s| && s[..|t|] == t then
      assert OccursAt(t, s, 0);
      true
    else if |s| == 0 then false
    else
      var r := IsSubstring(t, s[1..]);
      assert forall i :: OccursAt(t, s[1..], i) <==> OccursAt(t, s, i + 1) by {
        forall i
          ensures OccursAt(t, s[1..], i) <==> OccursAt(t, s, i + 1)
        {
          if 0 <= i && i + |t| <= |s[1..]| {
            assert s[1..][i..i + |t|] == s[i + 1..i + 1 + |t|];
          }
        }
      }
      assert (exists i :: OccursAt(t, s, i)) ==> exists i :: OccursAt(t, s[1..], i) by {
        if exists i :: OccursAt(t, s, i) {
          var i :| OccursAt(t, s, i);
          assert OccursAt(t, s[1..], i - 1);
        }
      }
      r
  }

  /** `a is b`: None, True and False are singletons; ints and strings are taken as interned, so
      equal atoms are identical; lists, dicts and objects built apart are never identical. */
  function Identical(a: Value, b: Value): (r: bool)
    ensures r ==> a == b
    ensures a == None || a == Bool(true) || a == Bool(false) ==> (r <==> a == b)
    ensures a.List? || a.Dict? || a.Obj? ==> !r
  {
    (a.None? || a.Bool? || a.Int? || a.Str?) && a == b
  }

  /** The ten binary operators of the keyword syntax, in the order of the operator table. */
  datatype Op = Lt | Lte | Eq | Ne | Gt | Gte | In | Contains | Is | IsNot

  function OpName(op: Op): string
  {
    match op
    case Lt => "lt"
    case Lte => "lte"
    case Eq => "eq"
    case Ne => "ne"
    case Gt => "gt"
    case Gte => "gte"
    case In => "in"
    case Contains => "contains"
    case Is => "is"
    case IsNot => "is_not"
  }

  /** The operator table, keyed by operator name. */
  const OperatorTable: map<string, Op> :=
    map["lt" := Lt, "lte" := Lte, "eq" := Eq, "ne" := Ne, "gt" := Gt, "gte" := Gte,
        "in" := In, "contains" := Contains, "is" := Is, "is_not" := IsNot]

  /** The table and `OpName` are inverse: every operator is listed under its own name, and
      every listed name belongs to the operator it maps to. */
  lemma OperatorTableNames()
    ensures forall op: Op :: OpName(op) in OperatorTable && OperatorTable[OpName(op)] == op
    ensures forall n :: n in OperatorTable ==> OpName(OperatorTable[n]) == n
  {
    assert OperatorTable.Keys == {"lt", "lte", "eq", "ne", "gt", "gte", "in", "contains", "is", "is_not"};
  }

  /** The result of an ordering test that holds for the orderings in `accept`. */
  function OrderTest(a: Value, b: Value, accept: set<Ordering>): Result<bool>
  {
    match Order(a, b)
    case Ok(o) => Ok(o in accept)
    case Raised(e) => Raised(e)
  }

  /** `op(value, criteria)`: what each operator function returns, or the exception it raises. */
  function Apply(op: Op, value: Value, criteria: Value): (r: Result<bool>)
    ensures r.Raised? ==> r.error == TypeError
    ensures op in {Eq, Ne, Is, IsNot} ==> r.Ok?
  {
    match op
    case Lt => OrderTest(value, criteria, {Below})
    case Lte => OrderTest(value, criteria, {Below, Same})
    case Eq => Ok(value == criteria)
    case Ne => Ok(value != criteria)
    case Gt => OrderTest(value, criteria, {Above})
    case Gte => OrderTest(value, criteria, {Above, Same})
    case In => Member(value, criteria)
    case Contains => Member(criteria, value)
    case Is => Ok(Identical(value, criteria))
    case IsNot => Ok(!Identical(value, criteria))
  }

  /** What the non-ordering operators return: `==` and `!=` are value equality, `in` and
      `contains` are membership with the operands in opposite roles, `is` and `is not` are
      identity. */
  lemma ApplyMeaning(v: Value, c: Value)
    ensures Apply(Eq, v, c) == Ok(v == c) && Apply(Ne, v, c) == Ok(v != c)
    ensures Apply(In, v, c) == Member(v, c) && Apply(Contains, v, c) == Member(c, v)
    ensures Apply(Is, v, c) == Ok(Identical(v, c)) && Apply(IsNot, v, c) == Ok(!Identical(v, c))
  {
  }

  /** The four ordering operators hold exactly for their orderings, and raise whenever the
      ordering raises. */
  lemma OrderingOperators(v: Value, c: Value)
    ensures Order(v, c).Raised? ==> Apply(Lt, v, c) == Apply(Lte, v, c) == Apply(Gt, v, c)
                                    == Apply(Gte, v, c) == Raised(Order(v, c).error)
    ensures Order(v, c).Ok? ==> && Apply(Lt, v, c) == Ok(Order(v, c).value == Below)
                                && Apply(Lte, v, c) == Ok(Order(v, c).value != Above)
                                && Apply(Gt, v, c) == Ok(Order(v, c).value == Above)
                                && Apply(Gte, v, c) == Ok(Order(v, c).value != Below)
  {
  }

  /** On strings the ordering operators are Python's lexicographic comparisons, decided at the
      first differing character. */
  lemma StrComparisons(s: string, t: string, k: nat)
    requires k < |s| && k < |t| && s[..k] == t[..k] && s[k] != t[k]
    ensures Apply(Lt, Str(s), Str(t)) == Ok(s[k] < t[k])
    ensures Apply(Gt, Str(s), Str(t)) == Ok(s[k] > t[k])
    ensures Apply(Eq, Str(s), Str(t)) == Ok(false)
  {
    StrOrderFirstDifference(s, t, k);
  }

  /** How the operators relate: `in` and `contains` are the same membership test with the
      operands swapped; `<` and `>` (and `<=`, `>=`) are mirror images; `==` and `!=`, `is` and
      `is not`, `<` and `>=` are complements wherever they return. */
  lemma {:induction false} OperatorDuality(v: Value, c: Value)
    ensures Apply(In, v, c) == Apply(Contains, c, v)
    ensures Apply(Lt, v, c) == Apply(Gt, c, v)
    ensures Apply(Lte, v, c) == Apply(Gte, c, v)
    ensures Apply(Eq, v, c).value == !Apply(Ne, v, c).value
    ensures Apply(Is, v, c).value == !Apply(IsNot, v, c).value
    ensures Apply(Lt, v, c).Ok? <==> Apply(Gte, v, c).Ok?
    ensures Apply(Lt, v, c).Ok? ==> Apply(Lt, v, c).value == !Apply(Gte, v, c).value
    ensures Apply(Gt, v, c).Ok? ==> Apply(Gt, v, c).value == !Apply(Lte, v, c).value
  {
    OrderFlip(v, c);
    OrderingOperators(v, c);
    OrderingOperators(c, v);
  }

  /** On ints the operators are the native integer comparisons. */
  lemma IntComparisons(x: int, y: int)
    ensures Apply(Lt, Int(x), Int(y)) == Ok(x < y)
    ensures Apply(Lte, Int(x), Int(y)) == Ok(x <= y)
    ensures Apply(Gt, Int(x), Int(y)) == Ok(x > y)
    ensures Apply(Gte, Int(x), Int(y)) == Ok(x >= y)
    ensures Apply(Eq, Int(x), Int(y)) == Ok(x == y)
  {
  }

  /** `<=` and `>=` both hold exactly on equal orderable values. */
  lemma {:induction false} LteAndGteMeanEqual(v: Value, c: Value)
    requires Apply(Lte, v, c) == Ok(true) && Apply(Gte, v, c) == Ok(true)
    ensures v == c
  {
    OrderSameIsEqual(v, c);
  }
}
