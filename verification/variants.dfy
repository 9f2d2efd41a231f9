/** How the `query_filter.query` and `query_filter.filter` variants of an item query relate:
    the first distinguishes a path that cannot be resolved from one that leads to `None`, the
    second maps both to `None` and then rejects `None` before comparing. */
module Variants {
  import opened PyValues
  import opened Paths
  import opened Operators
  import QueryVariant
  import Filtering

  /** On a path that resolves to a value other than `None` both variants compare it the same
      way; on a path that does not resolve both reject the object; on a path that leads to
      `None` the filter variant rejects the object while the query variant compares `None`. */
  lemma ItemQueriesAgree(op: Op, keys: seq<Value>, criteria: Value, obj: Value)
    requires op != Is && op != IsNot
    ensures var q := QueryVariant.Query(keys, QueryVariant.RetrieveItem).Compare(op, criteria)(obj);
            var f := Filtering.Query(keys, Filtering.RetrieveItem).Compare(op, criteria)(obj);
            && (Walk(obj, ItemPath(keys)).Ok? && Walk(obj, ItemPath(keys)).value != None ==> q == f)
            && (Walk(obj, ItemPath(keys)).Raised? ==> q == Ok(false) && f == Ok(false))
            && (Walk(obj, ItemPath(keys)) == Ok(None) ==> f == Ok(false) && q == Apply(op, None, criteria))
  {
  }

  /** The two variants disagree on a key that is present with the value `None`: `== None`
      holds in the query variant and fails in the filter variant. */
  lemma NoneValuedKeyDisagrees()
    ensures var obj := Dict(map[Str("a") := None]);
            QueryVariant.Query([Str("a")], QueryVariant.RetrieveItem).Compare(Eq, None)(obj) == Ok(true)
            && Filtering.Query([Str("a")], Filtering.RetrieveItem).Compare(Eq, None)(obj) == Ok(false)
  {
    var obj := Dict(map[Str("a") := None]);
    ItemQueriesAgree(Eq, [Str("a")], None, obj);
    assert ItemPath([Str("a")]) == [Item(Str("a"))];
    assert ItemPath([Str("a")])[1..] == [];
    assert Walk(obj, ItemPath([Str("a")])) == Ok(None);
  }
}
