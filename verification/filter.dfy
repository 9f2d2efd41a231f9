/** The `query_filter.filter` variant: the filter itself, getters that return `None` for a
    path that cannot be resolved, and keyword filtering on top of the decorated operators. */
module Filtering {
  import opened PyValues
  import opened Paths
  import opened Operators
  import opened KeySyntax
  import opened Combinators
  import opened Keywords
  import opened PredicateVariant

  /** What a consumer of the filter's generator observes: the items yielded, and whether the
      generator then finished or raised. */
  datatype Run = Completed(yielded: seq<Value>) | Aborted(yielded: seq<Value>, error: PyError)

  /** `(deepcopy(i) for i in filter(keep, items))`, drained: items are tested in order, a copy
      of each kept one is yielded, and the first exception of `keep` ends the run. */
  function FilterRun(items: seq<Value>, keep: Pred): (r: Run)
    ensures |r.yielded| <= |items|
    ensures forall k :: 0 <= k < |r.yielded| ==> r.yielded[k] in items && keep(r.yielded[k]) == Ok(true)
    ensures r.Completed? <==> forall i :: 0 <= i < |items| ==> keep(items[i]).Ok?
    ensures r.Aborted? ==> exists i :: 0 <= i < |items| && keep(items[i]) == Raised(r.error)
    decreases |items|
  {
    if |items| == 0 then Completed([])
    else
      assert forall i :: 1 <= i < |items| ==> items[i] == items[1..][i - 1];
      match keep(items[0])
      case Raised(e) => Aborted([], e)
      case Ok(b) =>
        var rest := FilterRun(items[1..], keep);
        var front := if b then [DeepCopy(items[0])] else [];
        match rest
        case Completed(ys) => Completed(front + ys)
        case Aborted(ys, e) => Aborted(front + ys, e)
  }

  /** `out` is the subsequence of `items` at the strictly increasing positions `idx`. */
  ghost predicate Selects(out: seq<Value>, items: seq<Value>, idx: seq<int>)
  {
    && |idx| == |out|
    && (forall k :: 0 <= k < |idx| ==> 0 <= idx[k] < |items| && out[k] == items[idx[k]])
    && (forall k, l :: 0 <= k < l < |idx| ==> idx[k] < idx[l])
  }

  /** The positions `idx` pick out exactly the items `keep` accepts, when the run completed,
      and only accepted ones in any case. */
  ghost predicate SelectsKept(r: Run, items: seq<Value>, keep: Pred, idx: seq<int>)
  {
    && Selects(r.yielded, items, idx)
    && OnlyKept(items, keep, idx)
    && (r.Completed? ==> AllKept(items, keep, idx))
  }

  /** Every position moved one place right, past a new first item. */
  function Shift(idx: seq<int>): (r: seq<int>)
    ensures |r| == |idx| && forall k :: 0 <= k < |idx| ==> r[k] == idx[k] + 1
  {
    seq(|idx|, k requires 0 <= k < |idx| => idx[k] + 1)
  }

  /** One step of the filter: testing the first item, then filtering the rest. */
  lemma FilterRunStep(items: seq<Value>, keep: Pred)
    requires |items| > 0 && keep(items[0]).Ok?
    ensures var rest := FilterRun(items[1..], keep);
            var front := if keep(items[0]).value then [items[0]] else [];
            FilterRun(items, keep).yielded == front + rest.yielded
            && FilterRun(items, keep).Completed? == rest.Completed?
  {
  }

  /** A selection from the items after the first, shifted, selects from all the items. */
  lemma SelectsShift(out: seq<Value>, items: seq<Value>, idx': seq<int>)
    requires |items| > 0 && Selects(out, items[1..], idx')
    ensures Selects(out, items, Shift(idx'))
    ensures Selects([items[0]] + out, items, [0] + Shift(idx'))
  {
    SelectsShiftTail(out, items, idx');
    SelectsShiftCons(out, items, idx');
  }

  lemma SelectsShiftCons(out: seq<Value>, items: seq<Value>, idx': seq<int>)
    requires |items| > 0 && Selects(out, items, Shift(idx'))
    requires forall k :: 0 <= k < |idx'| ==> idx'[k] >= 0
    ensures Selects([items[0]] + out, items, [0] + Shift(idx'))
  {
    var shifted := Shift(idx');
    var idx := [0] + shifted;
    var out' := [items[0]] + out;
    forall k | 1 <= k < |idx|
      ensures idx[k] == shifted[k - 1] && out'[k] == out[k - 1]
    {
    }
  }

  lemma SelectsShiftTail(out: seq<Value>, items: seq<Value>, idx': seq<int>)
    requires |items| > 0 && Selects(out, items[1..], idx')
    ensures Selects(out, items, Shift(idx'))
  {
    var shifted := Shift(idx');
    assert forall k :: 0 <= k < |idx'| ==> out[k] == items[shifted[k]];
  }

  /** A position after the first that the shorter selection holds, the shifted one holds. */
  lemma ShiftHolds(idx': seq<int>, i: int)
    requires i - 1 in idx'
    ensures i in Shift(idx')
  {
    var k :| 0 <= k < |idx'| && idx'[k] == i - 1;
    assert Shift(idx')[k] == i;
  }

  /** Every selected position holds an item the test accepts. */
  ghost predicate OnlyKept(items: seq<Value>, keep: Pred, idx: seq<int>)
  {
    forall k :: 0 <= k < |idx| ==> 0 <= idx[k] < |items| && keep(items[idx[k]]) == Ok(true)
  }

  /** Every accepted item's position is selected. */
  ghost predicate AllKept(items: seq<Value>, keep: Pred, idx: seq<int>)
  {
    forall i :: 0 <= i < |items| && keep(items[i]) == Ok(true) ==> i in idx
  }

  lemma OnlyKeptShift(items: seq<Value>, keep: Pred, idx': seq<int>)
    requires |items| > 0 && OnlyKept(items[1..], keep, idx')
    ensures OnlyKept(items, keep, Shift(idx'))
    ensures keep(items[0]) == Ok(true) ==> OnlyKept(items, keep, [0] + Shift(idx'))
  {
    var shifted := Shift(idx');
    assert forall k :: 0 <= k < |idx'| ==> items[shifted[k]] == items[1..][idx'[k]];
    var idx := [0] + shifted;
    assert forall k :: 1 <= k < |idx| ==> idx[k] == shifted[k - 1];
  }

  lemma AllKeptShift(items: seq<Value>, keep: Pred, idx': seq<int>)
    requires |items| > 0 && AllKept(items[1..], keep, idx')
    ensures keep(items[0]) != Ok(true) ==> AllKept(items, keep, Shift(idx'))
    ensures AllKept(items, keep, [0] + Shift(idx'))
  {
    forall i | 1 <= i < |items| && keep(items[i]) == Ok(true)
      ensures i in Shift(idx')
    {
      assert items[i] == items[1..][i - 1];
      ShiftHolds(idx', i);
    }
  }

  /** When the first item is accepted, the selection on the items after it carries over,
      shifted and preceded by position 0, to a run that went on as `rest`. */
  lemma SelectsKeptTake(r: Run, rest: Run, items: seq<Value>, keep: Pred, idx': seq<int>)
    requires |items| > 0 && keep(items[0]) == Ok(true)
    requires r.yielded == [items[0]] + rest.yielded
    requires r.Completed? == rest.Completed?
    requires SelectsKept(rest, items[1..], keep, idx')
    ensures SelectsKept(r, items, keep, [0] + Shift(idx'))
  {
    SelectsShift(rest.yielded, items, idx');
    OnlyKeptShift(items, keep, idx');
    if rest.Completed? {
      AllKeptShift(items, keep, idx');
    }
  }

  /** When the first item is rejected, the selection on the items after it carries over,
      shifted, to a run that went on as `rest`. */
  lemma SelectsKeptSkip(r: Run, rest: Run, items: seq<Value>, keep: Pred, idx': seq<int>)
    requires |items| > 0 && keep(items[0]) == Ok(false)
    requires r.yielded == rest.yielded
    requires r.Completed? == rest.Completed?
    requires SelectsKept(rest, items[1..], keep, idx')
    ensures SelectsKept(r, items, keep, Shift(idx'))
  {
    SelectsShift(rest.yielded, items, idx');
    OnlyKeptShift(items, keep, idx');
    if rest.Completed? {
      AllKeptShift(items, keep, idx');
    }
  }

  /** The positions of the items the filter yields: those accepted, up to the first raise. */
  ghost function KeptPositions(items: seq<Value>, keep: Pred): seq<int>
    decreases |items|
  {
    if |items| == 0 then []
    else match keep(items[0])
      case Raised(_) => []
      case Ok(b) => (if b then [0] else []) + Shift(KeptPositions(items[1..], keep))
  }

  lemma {:induction false} FilterSelectsPositions(items: seq<Value>, keep: Pred)
    ensures SelectsKept(FilterRun(items, keep), items, keep, KeptPositions(items, keep))
    decreases |items|
  {
    if |items| == 0 || keep(items[0]).Raised? {
      assert FilterRun(items, keep).yielded == [];
    } else {
      FilterSelectsPositions(items[1..], keep);
      if keep(items[0]).value {
        PositionsTake(items, keep);
      } else {
        PositionsSkip(items, keep);
      }
    }
  }

  /** An accepted first item is yielded first, at position 0. */
  lemma PositionsTake(items: seq<Value>, keep: Pred)
    requires |items| > 0 && keep(items[0]) == Ok(true)
    requires SelectsKept(FilterRun(items[1..], keep), items[1..], keep, KeptPositions(items[1..], keep))
    ensures SelectsKept(FilterRun(items, keep), items, keep, KeptPositions(items, keep))
  {
    var idx' := KeptPositions(items[1..], keep);
    FilterRunStep(items, keep);
    assert KeptPositions(items, keep) == [0] + Shift(idx');
    SelectsKeptTake(FilterRun(items, keep), FilterRun(items[1..], keep), items, keep, idx');
  }

  /** A rejected first item is passed over. */
  lemma PositionsSkip(items: seq<Value>, keep: Pred)
    requires |items| > 0 && keep(items[0]) == Ok(false)
    requires SelectsKept(FilterRun(items[1..], keep), items[1..], keep, KeptPositions(items[1..], keep))
    ensures SelectsKept(FilterRun(items, keep), items, keep, KeptPositions(items, keep))
  {
    var idx' := KeptPositions(items[1..], keep);
    FilterRunStep(items, keep);
    assert [] + Shift(idx') == Shift(idx');
    SelectsKeptSkip(FilterRun(items, keep), FilterRun(items[1..], keep), items, keep, idx');
  }

  /** The filter yields, in source order, a subsequence of the items made of accepted items
      only; when no test raises it yields every accepted item. */
  lemma FilterSelectsKept(items: seq<Value>, keep: Pred)
    ensures exists idx :: SelectsKept(FilterRun(items, keep), items, keep, idx)
  {
    FilterSelectsPositions(items, keep);
  }

  /** The aborted run `r` stops at position `j`: the item there is the first whose test raises,
      and `r` yielded what the filter yields on the items ahead of it. */
  ghost predicate StopsAt(items: seq<Value>, keep: Pred, j: int, r: Run)
  {
    && r.Aborted?
    && 0 <= j < |items| && keep(items[j]) == Raised(r.error)
    && (forall i :: 0 <= i < j ==> keep(items[i]).Ok?)
    && FilterRun(items[..j], keep) == Completed(r.yielded)
  }

  /** Where the run on the items after the first stops, the whole run stops one place later. */
  lemma StopsAtStep(items: seq<Value>, keep: Pred, j': int, r: Run, rest: Run)
    requires |items| > 0 && keep(items[0]).Ok?
    requires r.Aborted? && rest.Aborted? && r.error == rest.error
    requires r.yielded == (if keep(items[0]).value then [items[0]] else []) + rest.yielded
    requires StopsAt(items[1..], keep, j', rest)
    ensures StopsAt(items, keep, j' + 1, r)
  {
    var j := j' + 1;
    var pre := items[..j];
    assert pre[0] == items[0] && pre[1..] == items[1..][..j'];
    FilterRunStep(pre, keep);
    assert forall i :: 1 <= i <= j ==> items[i] == items[1..][i - 1];
  }

  /** The first exception ends the run: the items yielded before it are those the filter yields
      on the items ahead of the failing one. */
  lemma {:induction false} FilterStopsAtFirstError(items: seq<Value>, keep: Pred)
    requires FilterRun(items, keep).Aborted?
    ensures exists j :: StopsAt(items, keep, j, FilterRun(items, keep))
    decreases |items|
  {
    var r := FilterRun(items, keep);
    if keep(items[0]).Raised? {
      assert items[..0] == [];
      assert StopsAt(items, keep, 0, r);
    } else {
      var rest := FilterRun(items[1..], keep);
      FilterRunStep(items, keep);
      FilterStopsAtFirstError(items[1..], keep);
      var j' :| StopsAt(items[1..], keep, j', rest);
      StopsAtStep(items, keep, j', r, rest);
    }
  }

  /** A test that accepts every item keeps the whole sequence, in order. */
  lemma {:induction false} FilterKeepsAll(items: seq<Value>, keep: Pred)
    requires forall i :: 0 <= i < |items| ==> keep(items[i]) == Ok(true)
    ensures FilterRun(items, keep) == Completed(items)
    decreases |items|
  {
    if |items| > 0 {
      assert forall i :: 1 <= i < |items| ==> items[i] == items[1..][i - 1];
      FilterKeepsAll(items[1..], keep);
      FilterRunStep(items, keep);
      assert items == [items[0]] + items[1..];
    }
  }

  /** `qfilter(items, *preds)`: keeps the items on which every predicate holds. With no
      predicates every item is kept, since `all` of nothing is true. */
  function QFilter(items: seq<Value>, preds: seq<Pred>): (r: Run)
    ensures forall k, j :: 0 <= k < |r.yielded| && 0 <= j < |preds| ==> preds[j](r.yielded[k]) == Ok(true)
    ensures |preds| == 0 ==> r == Completed(items)
  {
    if |preds| == 0 then
      FilterKeepsAll(items, QAll(preds));
      FilterRun(items, QAll(preds))
    else
      FilterRun(items, QAll(preds))
  }

  /** A test that rejects every item keeps nothing. */
  lemma {:induction false} FilterKeepsNone(items: seq<Value>, keep: Pred)
    requires forall i :: 0 <= i < |items| ==> keep(items[i]) == Ok(false)
    ensures FilterRun(items, keep) == Completed([])
    decreases |items|
  {
    if |items| > 0 {
      assert forall i :: 1 <= i < |items| ==> items[i] == items[1..][i - 1];
      FilterKeepsNone(items[1..], keep);
      FilterRunStep(items, keep);
    }
  }

  /** Keeps the items on which at least one predicate holds. */
  function QFilterAny(items: seq<Value>, preds: seq<Pred>): (r: Run)
    ensures forall k :: 0 <= k < |r.yielded| ==> exists j :: 0 <= j < |preds| && preds[j](r.yielded[k]) == Ok(true)
    ensures |preds| == 0 ==> r == Completed([])
  {
    var keep := QAny(preds);
    var r := FilterRun(items, keep);
    if |preds| == 0 then
      FilterKeepsNone(items, keep);
      r
    else
      assert forall k :: 0 <= k < |r.yielded| ==> keep(r.yielded[k]) == Ok(true);
      r
  }

  /** Keeps the items on which no predicate holds. */
  function QFilterNotAny(items: seq<Value>, preds: seq<Pred>): (r: Run)
    ensures forall k, j :: 0 <= k < |r.yielded| && 0 <= j < |preds| ==> preds[j](r.yielded[k]) == Ok(false)
    ensures |preds| == 0 ==> r == Completed(items)
  {
    if |preds| == 0 then
      FilterKeepsAll(items, QNot(QAny(preds)));
      FilterRun(items, QNot(QAny(preds)))
    else
      FilterRun(items, QNot(QAny(preds)))
  }

  /** When the test never raises on the items, the run completes and yields exactly the
      accepted items, in source order. */
  lemma FilterExact(items: seq<Value>, keep: Pred)
    requires forall i :: 0 <= i < |items| ==> keep(items[i]).Ok?
    ensures FilterRun(items, keep).Completed?
    ensures exists idx :: Selects(FilterRun(items, keep).yielded, items, idx)
                       && forall i :: 0 <= i < |items| ==> (i in idx <==> keep(items[i]) == Ok(true))
  {
    FilterSelectsKept(items, keep);
    var idx :| SelectsKept(FilterRun(items, keep), items, keep, idx);
    forall i | 0 <= i < |items| && i in idx
      ensures keep(items[i]) == Ok(true)
    {
      var k :| 0 <= k < |idx| && idx[k] == i;
    }
  }

  /** When no predicate raises on any item, `qfilter` yields exactly the items on which every
      predicate holds, in source order. */
  lemma QFilterExact(items: seq<Value>, preds: seq<Pred>)
    requires forall i, j :: 0 <= i < |items| && 0 <= j < |preds| ==> preds[j](items[i]).Ok?
    ensures QFilter(items, preds).Completed?
    ensures exists idx :: Selects(QFilter(items, preds).yielded, items, idx)
                       && forall i :: 0 <= i < |items| ==>
                            (i in idx <==> forall j :: 0 <= j < |preds| ==> preds[j](items[i]) == Ok(true))
  {
    var keep := QAll(preds);
    forall i | 0 <= i < |items|
      ensures keep(items[i]).Ok?
    {
      TotalCombinations(preds, items[i]);
    }
    FilterExact(items, keep);
  }

  /** Likewise the any filter yields exactly the items on which some predicate holds. */
  lemma QFilterAnyExact(items: seq<Value>, preds: seq<Pred>)
    requires forall i, j :: 0 <= i < |items| && 0 <= j < |preds| ==> preds[j](items[i]).Ok?
    ensures QFilterAny(items, preds).Completed?
    ensures exists idx :: Selects(QFilterAny(items, preds).yielded, items, idx)
                       && forall i :: 0 <= i < |items| ==>
                            (i in idx <==> exists j :: 0 <= j < |preds| && preds[j](items[i]) == Ok(true))
  {
    var keep := QAny(preds);
    forall i | 0 <= i < |items|
      ensures keep(items[i]) == Ok(exists j :: 0 <= j < |preds| && preds[j](items[i]).value)
    {
      TotalCombinations(preds, items[i]);
    }
    FilterExact(items, keep);
  }

  /** And the not-any filter yields exactly the items on which no predicate holds. */
  lemma QFilterNotAnyExact(items: seq<Value>, preds: seq<Pred>)
    requires forall i, j :: 0 <= i < |items| && 0 <= j < |preds| ==> preds[j](items[i]).Ok?
    ensures QFilterNotAny(items, preds).Completed?
    ensures exists idx :: Selects(QFilterNotAny(items, preds).yielded, items, idx)
                       && forall i :: 0 <= i < |items| ==>
                            (i in idx <==> forall j :: 0 <= j < |preds| ==> preds[j](items[i]) == Ok(false))
  {
    var keep := QNot(QAny(preds));
    forall i | 0 <= i < |items|
      ensures keep(items[i]) == Ok(forall j :: 0 <= j < |preds| ==> !preds[j](items[i]).value)
    {
      TotalCombinations(preds, items[i]);
    }
    FilterExact(items, keep);
  }

  /** `retrieve_attr(obj, *names)`: `None` when an attribute is missing; a name that is no
      string still raises TypeError. */
  function RetrieveAttr(obj: Value, names: seq<Value>): (r: Result<Value>)
    ensures Walk(obj, AttrPath(names)).Ok? ==> r == Walk(obj, AttrPath(names))
    ensures Walk(obj, AttrPath(names)) == Raised(AttributeError) ==> r == Ok(None)
    ensures (forall i :: 0 <= i < |names| ==> names[i].Str?) ==> r.Ok?
  {
    AttrWalkErrors(obj, names);
    match Walk(obj, AttrPath(names))
    case Raised(AttributeError) => Ok(None)
    case other => other
  }

  /** `retrieve_item(obj, *keys)`: `None` for a missing key, an index out of range or a type
      mismatch anywhere along the path; it never raises. */
  function RetrieveItem(obj: Value, keys: seq<Value>): (r: Result<Value>)
    ensures r.Ok?
    ensures Walk(obj, ItemPath(keys)).Ok? ==> r == Walk(obj, ItemPath(keys))
    ensures Walk(obj, ItemPath(keys)).Raised? ==> r == Ok(None)
    ensures |keys| == 1 && obj.List? && keys[0].Int? && 0 <= keys[0].i < |obj.elems| ==> r == Ok(obj.elems[keys[0].i])
  {
    assert |keys| == 1 ==> ItemPath(keys)[1..] == [];
    match Walk(obj, ItemPath(keys))
    case Raised(_) => Ok(None)
    case Ok(v) => Ok(v)
  }

  /** `Query(*keys, getter=...)` of this variant: its methods build the decorated operators on
      the path, all ten of them. */
  datatype Query = Query(keys: seq<Value>, getter: Getter)
  {
    function Compare(op: Op, criteria: Value): (p: Pred)
      ensures forall obj :: getter(obj, keys) == Ok(None) ==> p(obj) == Ok(false)
      ensures forall obj :: getter(obj, keys).Ok? && getter(obj, keys).value != None ==>
                            p(obj) == Apply(op, getter(obj, keys).value, criteria)
      ensures forall obj :: getter(obj, keys).Raised? ==> p(obj) == Raised(getter(obj, keys).error)
    {
      PredMaker(op, criteria, getter, keys)
    }
  }

  /** How this variant turns a parsed key and its value into a predicate: the decorated
      operator the key names, on the key's path. */
  function MakeKeyword(getter: Getter): (KeyPath, Value) -> Pred
  {
    (kp: KeyPath, v: Value) => PredMaker(kp.op, v, getter, PathKeys(kp.path))
  }

  /** The decorated operator a well-formed keyword stands for. */
  function KeywordPred(kw: Kwarg, getter: Getter): Pred
    requires SplitKey(kw.0).Ok?
  {
    MakeKeyword(getter)(SplitKey(kw.0).value, kw.1)
  }

  /** `kpredicate(key, value, getter)`: the decorated operator the parsed key names, on the
      parsed path; a malformed key raises ValueError. */
  function KPredicate(key: string, value: Value, getter: Getter): (r: Result<Pred>)
    ensures r.Raised? <==> SplitKey(key).Raised?
    ensures r.Raised? ==> r.error == ValueError
    ensures r.Ok? ==> forall obj :: r.value(obj) == KeywordPred((key, value), getter)(obj)
  {
    match SplitKey(key)
    case Raised(e) => Raised(e)
    case Ok(kp) => Ok(PredMaker(kp.op, value, getter, PathKeys(kp.path)))
  }

  /** The predicates built for well-formed keywords are their keyword predicates. */
  lemma BuiltKeywordPreds(kwargs: seq<Kwarg>, getter: Getter)
    requires KeywordPreds(kwargs, MakeKeyword(getter)).Ok?
    ensures var kpreds := KeywordPreds(kwargs, MakeKeyword(getter)).value;
            && |kpreds| == |kwargs|
            && (forall i :: 0 <= i < |kwargs| ==> SplitKey(kwargs[i].0).Ok?)
            && (forall i, x :: 0 <= i < |kwargs| ==> kpreds[i](x) == KeywordPred(kwargs[i], getter)(x))
  {
    assert !SomeKeyMalformed(kwargs);
  }

  /** Every item the filter over the explicit and then the keyword predicates yields is
      accepted by each of them. */
  lemma ConcatenatedPredicates(run: Run, preds: seq<Pred>, kpreds: seq<Pred>)
    requires forall k, j :: 0 <= k < |run.yielded| && 0 <= j < |preds + kpreds| ==>
               (preds + kpreds)[j](run.yielded[k]) == Ok(true)
    ensures forall k, j :: 0 <= k < |run.yielded| && 0 <= j < |preds| ==> preds[j](run.yielded[k]) == Ok(true)
    ensures forall k, i :: 0 <= k < |run.yielded| && 0 <= i < |kpreds| ==> kpreds[i](run.yielded[k]) == Ok(true)
  {
    var all := preds + kpreds;
    assert forall j :: 0 <= j < |preds| ==> all[j] == preds[j];
    assert forall i :: 0 <= i < |kpreds| ==> all[|preds| + i] == kpreds[i];
  }

  /** `kfilter(items, getter, *preds, **kwargs)`: every keyword key is parsed before any item is
      tested, so a malformed key raises ValueError at once; otherwise the filter keeps the
      items on which the explicit predicates and then the keyword predicates all hold. */
  function KFilter(items: seq<Value>, getter: Getter, preds: seq<Pred>, kwargs: seq<Kwarg>): (r: Result<Run>)
    ensures r.Raised? <==> SomeKeyMalformed(kwargs)
    ensures r.Raised? ==> r.error == ValueError
    ensures r.Ok? ==> forall k, j :: 0 <= k < |r.value.yielded| && 0 <= j < |preds| ==>
                        preds[j](r.value.yielded[k]) == Ok(true)
    ensures r.Ok? ==> forall k, i :: 0 <= k < |r.value.yielded| && 0 <= i < |kwargs| ==>
                        KeywordPred(kwargs[i], getter)(r.value.yielded[k]) == Ok(true)
    ensures |preds| == 0 && |kwargs| == 0 ==> r == Ok(Completed(items))
    ensures r.Ok? ==> r.value == QFilter(items, preds + KeywordPreds(kwargs, MakeKeyword(getter)).value)
  {
    var built := KeywordPreds(kwargs, MakeKeyword(getter));
    if built.Raised? then Raised(built.error)
    else
      var kpreds := built.value;
      var run := QFilter(items, preds + kpreds);
      BuiltKeywordPreds(kwargs, getter);
      ConcatenatedPredicates(run, preds, kpreds);
      assert |preds| == 0 && |kwargs| == 0 ==> preds + kpreds == [];
      Ok(run)
  }

  /** The explicit predicates are tested before the keyword ones: on an item where they do
      not all hold, the filter's test returns their falsity or their exception and no keyword
      predicate is consulted; otherwise the keyword predicates decide. */
  lemma {:induction false} ExplicitBeforeKeyword(getter: Getter, preds: seq<Pred>, kwargs: seq<Kwarg>, x: Value)
    requires !SomeKeyMalformed(kwargs)
    ensures var kpreds := KeywordPreds(kwargs, MakeKeyword(getter)).value;
            QAll(preds + kpreds)(x) == if QAll(preds)(x) == Ok(true) then QAll(kpreds)(x) else QAll(preds)(x)
  {
    var kpreds := KeywordPreds(kwargs, MakeKeyword(getter)).value;
    AllOfAppend(preds, kpreds, x);
  }

  /** Every predicate of `preds` accepts `x`. */
  ghost predicate AcceptsAll(preds: seq<Pred>, x: Value)
  {
    forall j :: 0 <= j < |preds| ==> preds[j](x) == Ok(true)
  }

  /** Every keyword of `kwargs` is well-formed and its predicate accepts `x`. */
  ghost predicate KeywordsAccept(kwargs: seq<Kwarg>, getter: Getter, x: Value)
  {
    forall j :: 0 <= j < |kwargs| ==> SplitKey(kwargs[j].0).Ok? && KeywordPred(kwargs[j], getter)(x) == Ok(true)
  }

  lemma AcceptsConcat(preds: seq<Pred>, kpreds: seq<Pred>, x: Value)
    ensures AcceptsAll(preds + kpreds, x) <==> AcceptsAll(preds, x) && AcceptsAll(kpreds, x)
  {
    var all := preds + kpreds;
    assert forall j :: 0 <= j < |preds| ==> all[j] == preds[j];
    assert forall j :: 0 <= j < |kpreds| ==> all[|preds| + j] == kpreds[j];
    assert forall j :: |preds| <= j < |all| ==> all[j] == kpreds[j - |preds|];
  }

  lemma KeywordsAcceptBuilt(kwargs: seq<Kwarg>, getter: Getter, x: Value)
    requires KeywordPreds(kwargs, MakeKeyword(getter)).Ok?
    ensures AcceptsAll(KeywordPreds(kwargs, MakeKeyword(getter)).value, x) <==> KeywordsAccept(kwargs, getter, x)
  {
    BuiltKeywordPreds(kwargs, getter);
  }

  /** On an item where no keyword predicate raises, none of the predicates built for the
      keywords raises. */
  lemma BuiltKeywordPredsTotal(kwargs: seq<Kwarg>, getter: Getter, x: Value)
    requires forall j :: 0 <= j < |kwargs| ==> SplitKey(kwargs[j].0).Ok? && KeywordPred(kwargs[j], getter)(x).Ok?
    ensures var kpreds := KeywordPreds(kwargs, MakeKeyword(getter)).value;
            forall k :: 0 <= k < |kpreds| ==> kpreds[k](x).Ok?
  {
    assert !SomeKeyMalformed(kwargs);
    var kpreds := KeywordPreds(kwargs, MakeKeyword(getter)).value;
    BuiltKeywordPreds(kwargs, getter);
    forall k | 0 <= k < |kpreds|
      ensures kpreds[k](x).Ok?
    {
      assert kpreds[k](x) == KeywordPred(kwargs[k], getter)(x);
    }
  }

  /** On an item where no predicate of either group raises, the conjunction of the
      concatenated groups returns whether both groups accept it. */
  lemma ConcatenatedTest(preds: seq<Pred>, kpreds: seq<Pred>, x: Value)
    requires forall j :: 0 <= j < |preds| ==> preds[j](x).Ok?
    requires forall j :: 0 <= j < |kpreds| ==> kpreds[j](x).Ok?
    ensures QAll(preds + kpreds)(x).Ok?
    ensures QAll(preds + kpreds)(x) == Ok(true) <==> AcceptsAll(preds, x) && AcceptsAll(kpreds, x)
  {
    var all := preds + kpreds;
    forall j | 0 <= j < |all|
      ensures all[j](x).Ok?
    {
      if j < |preds| {
        assert all[j] == preds[j];
      } else {
        assert all[j] == kpreds[j - |preds|];
      }
    }
    assert QAll(all)(x).Ok?;
    AcceptsConcat(preds, kpreds, x);
  }

  /** When every key is well-formed and no predicate raises on any item, `kfilter` yields
      exactly the items on which every explicit predicate and every keyword predicate hold,
      in source order. */
  lemma KFilterExact(items: seq<Value>, getter: Getter, preds: seq<Pred>, kwargs: seq<Kwarg>)
    requires !SomeKeyMalformed(kwargs)
    requires forall i, j :: 0 <= i < |items| && 0 <= j < |preds| ==> preds[j](items[i]).Ok?
    requires forall i, j :: 0 <= i < |items| && 0 <= j < |kwargs| ==>
               SplitKey(kwargs[j].0).Ok? && KeywordPred(kwargs[j], getter)(items[i]).Ok?
    ensures KFilter(items, getter, preds, kwargs).Ok?
    ensures KFilter(items, getter, preds, kwargs).value.Completed?
    ensures exists idx :: Selects(KFilter(items, getter, preds, kwargs).value.yielded, items, idx)
                       && forall i :: 0 <= i < |items| ==>
                            (i in idx <==> AcceptsAll(preds, items[i]) && KeywordsAccept(kwargs, getter, items[i]))
  {
    var kpreds := KeywordPreds(kwargs, MakeKeyword(getter)).value;
    BuiltKeywordPreds(kwargs, getter);
    var all := preds + kpreds;
    var keep := QAll(all);
    assert KFilter(items, getter, preds, kwargs) == Ok(FilterRun(items, keep));
    forall i | 0 <= i < |items|
      ensures keep(items[i]).Ok?
      ensures keep(items[i]) == Ok(true) <==> AcceptsAll(preds, items[i]) && KeywordsAccept(kwargs, getter, items[i])
    {
      BuiltKeywordPredsTotal(kwargs, getter, items[i]);
      ConcatenatedTest(preds, kpreds, items[i]);
      KeywordsAcceptBuilt(kwargs, getter, items[i]);
    }
    FilterExact(items, keep);
  }
}
