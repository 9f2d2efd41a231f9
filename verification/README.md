# python-query-filter, modelled in Dafny

python-query-filter filters an iterable of nested Python values: dicts, lists, and objects
with attributes. A *query* names a path into each item: item keys followed with
`reduce(getitem, ...)`, or attribute names followed with `reduce(getattr, ...)`. Comparing a
query with a criterion (`item("a", "b") > 3`) builds a *predicate*. The predicate resolves the
path on a root value, applies the operator, and returns a bool.

Predicates combine with `all` / `any` / `not` semantics. Keyword arguments such as
`a__b__gte=3` are parsed by `split_key` into a path and an operator name. The filter yields a
deep copy of each item every predicate accepts.

The library ships four variants of the predicate layer. Each has its own policy for a path
that cannot be resolved:

- `query_filter/query.py` (module `QueryVariant`): the getters raise `ObjNotFound`, which
  makes the predicate false. A `None` found on the path is a value like any other.
- `query_filter/predicate.py` (module `PredicateVariant`): the decorated operators make the
  predicate false whenever the getter yields `None`.
- `query_filter/filter.py` (module `Filtering`): the getters map a missing path to `None`.
  This module also holds the filter itself and the keyword filter `kfilter`.
- `query_filter/predicates.py` (module `ClassPredicates`): one predicate class per operator.
  Its item getter maps only a KeyError to `None`.

## Shared modules

- `PyValues`: Python values (`None`, bools, ints, strings, lists, dicts, objects with
  attributes), Python's exceptions, and a `Result` that is either a value or a raised
  exception. Every exception the source can raise is an explicit `Raised` outcome, never a
  precondition.
- `Paths`: one `getitem` / `getattr` step and the left fold (`Walk`) of these steps along a
  path.
- `Operators`: three-way ordering, membership and identity, and the ten operators of the
  operator table. Unorderable operands raise TypeError.
- `KeySyntax`: `str.split("__")`, `"__".join`, and `split_key`.
- `Combinators`: predicates and their short-circuit `all` / `any` / `not` combinations.
- `Keywords`: one predicate per keyword argument, in argument order.
- `Variants`: how the `query.py` and `filter.py` item queries relate.

A generator run is modelled by what its consumer observes (`Filtering.Run`). That is the
sequence of yielded items, followed either by completion or by the exception that ended it.

## Model

| member | source | states |
|---|---|---|
| PyValues.DeepCopy | query_filter/filter.py:14 | the copy yielded for a kept item equals the item |
| Paths.GetItem | query_filter/query.py:66-70 | `obj[key]`. A dict lookup succeeds exactly on a present hashable key and returns its value; an absent hashable key raises KeyError and an unhashable one TypeError. A list or string index in range returns that element or one-character string, a negative one counting from the end; outside `-len..len-1` it raises IndexError, and a non-int index raises TypeError. Scalars and objects raise TypeError. The only errors are KeyError, IndexError and TypeError |
| Paths.GetAttr | query_filter/query.py:55-59 | `getattr`: succeeds exactly when the name is a string naming an attribute of an object. Otherwise it raises AttributeError, or TypeError for a non-string name |
| Paths.NormIndex | query_filter/query.py:68 | a negative sequence index counts from the end; the valid range is exactly `-len..len-1` |
| Paths.Walk | query_filter/query.py:68 | `reduce(step, path, obj)`: the empty path gives the object itself, a one-step path is that single `getitem` or `getattr`, and only a non-empty path can raise |
| Paths.WalkAppend | query_filter/query.py:68 | `reduce` is a left fold: resolving `p + q` resolves `p`, then `q` from where `p` ended, and an error in `p` ends it |
| Paths.WalkSnoc | query_filter/query.py:68 | resolving one more step applies that step to the value the shorter path reached |
| Paths.WalkFailsAtStep | query_filter/query.py:67-70 | a failed resolution fails at a definite step: every earlier prefix resolved, and that step raised the same error |
| Paths.WalkPrefixesSucceed | query_filter/query.py:67-68 | every prefix of a resolvable path resolves |
| Paths.ItemWalkErrors | query_filter/query.py:69 | the errors an item path can raise are exactly the three the getters catch: IndexError, KeyError, TypeError |
| Paths.AttrWalkErrors | query_filter/query.py:57-58 | an attribute path raises only AttributeError or TypeError, and only AttributeError when every name is a string |
| Operators.IntOrder | query_filter/query.py:120-148 | integer three-way comparison: below, same and above exactly when less, equal and greater |
| Operators.StrOrder | query_filter/query.py:120-148 | lexicographic string comparison: same exactly on equal strings, and a proper prefix sorts before the longer string |
| Operators.StrOrderFirstDifference | query_filter/query.py:120-148 | two strings that agree before position `k` and differ at `k` compare as their characters at `k` do |
| Operators.Order | query_filter/query.py:120-148 | the ordering behind `<`, `<=`, `>`, `>=`. It returns only for two bools, two ints, two strings or two lists. Bools order `False` before `True`, ints numerically, strings lexicographically, lists element by element. Any other pair of operands raises TypeError |
| Operators.ListOrder | query_filter/query.py:120-148 | lists compare element by element from position `i`; a failure is always TypeError |
| Operators.ListOrderFirstDifference | query_filter/query.py:120-148 | two lists that agree from `i` up to position `k` and differ at `k` compare as their elements at `k` do, including raising when those elements are unorderable |
| Operators.ListOrderCommonPrefix | query_filter/query.py:120-148 | two lists that agree on every shared position from `i` compare by length: the shorter one sorts first |
| Operators.StrOrderFlip | query_filter/query.py:120-148 | swapping the operands of a string comparison flips the outcome |
| Operators.OrderFlip | query_filter/query.py:120-148 | swapping the operands of any comparison flips the outcome, or raises the same error |
| Operators.ListOrderFlip | query_filter/query.py:120-148 | the list comparison is antisymmetric from every position |
| Operators.OrderSameIsEqual | query_filter/query.py:125-132 | the ordering reports same only on equal values, so `<=` together with `>=` means `==` |
| Operators.ListOrderSameIsEqual | query_filter/query.py:125-132 | two lists compare same from position `i` only when their suffixes from `i` are equal |
| Operators.OrderReflexive | query_filter/query.py:125-148 | every orderable value compares same to itself |
| Operators.ListOrderReflexive | query_filter/query.py:125-148 | a list of orderable elements compares same to itself from every position |
| Operators.Member | query_filter/query.py:151-158 | `x in container`: list membership by equality, substring occurrence in a string, key presence in a dict. An unhashable dict probe, a non-string probe of a string, or a non-container raises TypeError |
| Operators.IsSubstring | query_filter/query.py:156-158 | `t in s` on strings holds exactly when `t` occurs in `s` at some position |
| Operators.Identical | query_filter/query.py:161-168 | `a is b` holds only between equal values; on `None`, `True` and `False` it is exactly equality; a list, dict or object is never identical to anything |
| Operators.OperatorTableNames | query_filter/query.py:191-202 | the operator table and the operator names are inverse: every operator is listed under its own name, and every listed name maps to the operator of that name |
| Operators.Apply | query_filter/query.py:120-168 | an operator raises only TypeError; `==`, `!=`, `is` and `is not` never raise |
| Operators.ApplyMeaning | query_filter/query.py:130-168 | `eq` and `ne` are value equality and inequality, `in` is membership of the value in the criterion and `contains` of the criterion in the value, `is` and `is_not` are identity and its negation |
| Operators.OrderingOperators | query_filter/query.py:120-148 | `lt`, `lte`, `gt` and `gte` hold exactly when the ordering is below, not above, above and not below; when the ordering raises, all four raise its exception |
| Operators.StrComparisons | query_filter/query.py:120-148 | on two strings differing first at position `k`, `<` and `>` are the comparisons of the characters at `k`, and `==` is false |
| Operators.OperatorDuality | query_filter/query.py:120-168 | `in` is `contains` with swapped operands; `<` mirrors `>` and `<=` mirrors `>=`; `==`/`!=`, `is`/`is not`, `<`/`>=` and `>`/`<=` are complements wherever they return |
| Operators.IntComparisons | query_filter/query.py:120-148 | on ints the operators are the native integer comparisons |
| Operators.LteAndGteMeanEqual | query_filter/query.py:125-148 | `v <= c` and `v >= c` both holding means `v == c` |
| KeySyntax.Split | query_filter/query.py:206 | `key.split("__")`: at least one part, joining the parts gives the key back, no part contains the separator, and no part but the last ends in `_`, so each cut is at the leftmost `__` of a run of underscores |
| KeySyntax.SplitWithoutSep | query_filter/query.py:206 | a string without the separator splits to itself |
| KeySyntax.SplitAfterPart | query_filter/query.py:206 | splitting stops at the first separator after a part without one |
| KeySyntax.SplitJoin | query_filter/query.py:206 | split undoes join for parts without separators, none but the last ending in `_` |
| KeySyntax.SplitKey | query_filter/query.py:205-218 | a parsed path is non-empty with non-empty segments. ValueError is raised exactly when the segments left after taking off an operator name are none or include an empty one |
| KeySyntax.SplitKeyRebuildsKey | query_filter/query.py:205-218 | a parsed key is the join of its path and operator name; or the operator defaulted to `eq`, the key is the join of the path alone, and its last segment names no operator |
| KeySyntax.OpNameIsSegment | query_filter/query.py:191-202 | every operator name is a non-empty string without the separator |
| KeySyntax.SplitKeyRoundTrip | query_filter/query.py:205-218 | joining a well-formed path with an operator name and parsing it gives back the path and the operator |
| KeySyntax.SplitKeyDefaultsToEq | query_filter/query.py:208-210 | a key whose last segment names no operator parses to the whole path with `eq` |
| KeySyntax.EmptyFirstSegmentRejected | query_filter/query.py:205-216 | a key whose first `__`-segment is empty raises ValueError, whether or not its last segment names an operator |
| KeySyntax.EmptyLastSegmentRejected | query_filter/query.py:205-216 | a key whose last `__`-segment is empty raises ValueError: the empty string names no operator, so it stays in the path |
| KeySyntax.SplitKeyRejectsEmptyKey | query_filter/query.py:212-216 | the empty key raises ValueError |
| KeySyntax.SplitKeyRejectsLeadingSeparator | tests/test_k_filter.py:74-80 | every key that starts with `__` raises ValueError, whatever follows; this covers `"__"`, `"___"`, `"__lt"`, `"__a__gt"` and `"_____ "` |
| KeySyntax.SplitJoinTrailing | query_filter/query.py:206 | splitting well-formed segments joined with a trailing `__` gives those segments followed by one empty segment |
| KeySyntax.SplitKeyRejectsTrailingSeparator | tests/test_k_filter.py:74-80 | well-formed segments followed by `__` raise ValueError; this covers `"a__"` and `"a__b__"` |
| KeySyntax.SplitKeyParsesBareName | query_filter/query.py:208-210 | `"a"` parses to the path `["a"]` with `eq` |
| KeySyntax.SplitKeyParsesOperator | query_filter/filter.py:89-103 | `"a__b__gte"` parses to the path `["a", "b"]` with `gte` |
| KeySyntax.PathKeys | query_filter/query.py:223-225 | the parsed segments are handed to the getter as string keys, one per segment |
| Combinators.AllOf | query_filter/filter.py:11-12 | `all(...)` is true exactly when every predicate is true, and false only when some predicate is false. It returns a bool exactly when every raising predicate comes after a false one. When it raises, the exception is that of a predicate all of whose predecessors were true |
| Combinators.AllOfAppend | query_filter/filter.py:112-115 | `all` over two groups in a row consults the second group only when every predicate of the first holds; otherwise the first group's falsity or exception is the result |
| Combinators.AnyOf | tests/test_qfilter.py:100-123 | `any(...)` is false exactly when every predicate is false, and true only when some predicate is true. It returns a bool exactly when every raising predicate comes after a true one. When it raises, the exception is that of a predicate all of whose predecessors were false |
| Combinators.QAll | tests/test_qfilter.py:146-165 | `qall(...)` accepts a value exactly when every predicate does, and rejects it only when some predicate does. It returns a bool whenever no predicate raises, and an exception it raises is one some predicate raised |
| Combinators.QAny | tests/test_qfilter.py:167-190 | `qany(...)` rejects a value exactly when every predicate does, and accepts it only when some predicate does. It returns a bool whenever no predicate raises, and an exception it raises is one some predicate raised |
| Combinators.QNot | tests/test_qfilter.py:192-199 | `qnot(p)` returns a bool exactly when `p` does, and the opposite one; it passes `p`'s exception through |
| Combinators.EmptyCombinations | query_filter/filter.py:11-12 | the empty conjunction accepts every value and the empty disjunction rejects every value |
| Combinators.DoubleNegation | tests/test_qfilter.py:192-199 | negating twice gives back the predicate |
| Combinators.TotalCombinations | tests/test_qfilter.py:201-231 | when no predicate raises, `qall`, `qany` and `qnot(qany(...))` are the universal, existential and no-one-holds quantifiers |
| Keywords.KeywordPreds | query_filter/query.py:221-225 | one predicate per keyword, in order, built from the parsed key and the value. Building raises ValueError exactly when some key is malformed |
| QueryVariant.RetrieveAttr | query_filter/query.py:55-59 | returns the resolved attribute exactly when the path resolves. An AttributeError becomes ObjNotFound; with string names that is the only error |
| QueryVariant.RetrieveItem | query_filter/query.py:66-70 | returns the resolved item exactly when the path resolves, and otherwise raises ObjNotFound; no keys gives the object itself |
| QueryVariant.QueryPredicate | query_filter/query.py:77-97 | a missing path gives false. A resolved value, `None` included, gives the check's result. Any other getter exception passes through |
| QueryVariant.QueryCriteria | query_filter/query.py:100-117 | a missing path gives false, a resolved value gives the operator's result on it, and any other getter exception passes through |
| QueryVariant.Query.Compare | query_filter/query.py:9-36 | the comparison methods of a query build the criterion of their operator on the query's path: false where the getter raises ObjNotFound, the operator on a resolved value, and any other getter exception passed through |
| QueryVariant.Query.Test | query_filter/query.py:38-48 | `is_none`, `is_not_none`, `is_true` and `is_false` test the resolved value, are false where the getter raises ObjNotFound, and pass any other getter exception through |
| QueryVariant.ItemCriteriaOnPath | query_filter/query.py:105-115 | on an item path every criterion is false where the path does not resolve, and is the operator on the resolved value where it does |
| QueryVariant.NoneIsFound | query_filter/query.py:171-178 | `is_none` holds exactly when the path resolves to `None`. `is_none` and `is_not_none` are complements on a resolved path and both false on a missing one |
| QueryVariant.UnaryChecksAreIdentity | query_filter/query.py:171-188 | `is_none`, `is_true` and `is_false` are identity with `None`, `True` and `False`, and `is_not_none` is the complement of `is_none` |
| QueryVariant.EqNeOnPath | query_filter/query.py:130-138 | `eq` and `ne` are both false on a missing path and complements on a resolved one |
| QueryVariant.KwargPreds | query_filter/query.py:221-225 | one criterion per keyword, built from its parsed path and operator. It raises exactly when a key is malformed, and then the error is ValueError |
| QueryVariant.KAll | query_filter/query.py:228-241 | `k_attrs_all` / `k_items_all` accept a value exactly when every keyword's criterion holds on it. When every criterion returns a bool the result is a bool, and an exception is one some criterion raised. ValueError exactly when a key is malformed |
| QueryVariant.KAny | query_filter/query.py:232-245 | `k_attrs_any` / `k_items_any` reject a value exactly when every keyword's criterion fails on it. When every criterion returns a bool the result is a bool, and an exception is one some criterion raised. ValueError exactly when a key is malformed |
| QueryVariant.KNotAny | query_filter/query.py:236-249 | `k_attrs_not_any` / `k_items_not_any` accept a value exactly when every keyword's criterion fails on it. When every criterion returns a bool the result is a bool, and an exception is one some criterion raised. ValueError exactly when a key is malformed |
| QueryVariant.KAttrsAll | query_filter/query.py:228-229 | accepts a value exactly when every keyword's attribute criterion holds on it. When every criterion returns a bool the result is a bool, and an exception is one some criterion raised. ValueError exactly when a key is malformed |
| QueryVariant.KAttrsAny | query_filter/query.py:232-233 | rejects a value exactly when every keyword's attribute criterion fails on it. When every criterion returns a bool the result is a bool, and an exception is one some criterion raised. ValueError exactly when a key is malformed |
| QueryVariant.KAttrsNotAny | query_filter/query.py:236-237 | accepts a value exactly when every keyword's attribute criterion fails on it. When every criterion returns a bool the result is a bool, and an exception is one some criterion raised. ValueError exactly when a key is malformed |
| QueryVariant.KItemsAll | query_filter/query.py:240-241 | accepts a value exactly when every keyword's item criterion holds on it, and rejects it when some criterion fails and none raises. When every criterion returns a bool the result is a bool, and an exception is one some criterion raised. ValueError exactly when a key is malformed |
| QueryVariant.KItemsAny | query_filter/query.py:244-245 | rejects a value exactly when every keyword's item criterion fails on it. When every criterion returns a bool the result is a bool, and an exception is one some criterion raised. ValueError exactly when a key is malformed |
| QueryVariant.KItemsNotAny | query_filter/query.py:248-249 | accepts a value exactly when every keyword's item criterion fails on it; the unused `getter` argument is accepted and ignored. When every criterion returns a bool the result is a bool, and an exception is one some criterion raised. ValueError exactly when a key is malformed |
| QueryVariant.KItemsAllRejectsMissingKey | query_filter/query.py:240-241 | a keyword whose item path does not resolve makes `k_items_all` reject the value, whatever its operator |
| QueryVariant.KItemsAllRejectsNonMatch | query_filter/query.py:240-241 | where every keyword's item criterion returns a bool and one of them is false, `k_items_all` returns False |
| PredicateVariant.PredMaker | query_filter/predicate.py:13-23 | a `None` from the getter gives false, another value gives the operator's result, and a getter exception passes through |
| PredicateVariant.EqNeComplementary | query_filter/predicate.py:36-43 | `eq` and `ne` are complements on a non-`None` value and both false on `None` |
| PredicateVariant.IsIsNotComplementary | query_filter/predicate.py:66-73 | `_is` and `_is_not` are complements on a non-`None` value and both false on `None`; `_is(None, ...)` never holds |
| ClassPredicates.RetrieveItem | query_filter/predicates.py:7-11 | a KeyError anywhere on the path gives `None`; IndexError and TypeError are raised; a resolved path gives its value |
| ClassPredicates.Evaluate | query_filter/predicates.py:38-95 | each class's `evaluate` raises only TypeError |
| ClassPredicates.Predicate.Call | query_filter/predicates.py:25-31 | calling a predicate object gives false on a `None` value and the class's evaluation on any other value; a getter exception passes through |
| ClassPredicates.EvaluateIsOperator | query_filter/predicates.py:38-95 | each class evaluates the operator of the same name. `IsIn` is `Contains` with swapped operands, and `Is` and `IsNot` are complements |
| ClassPredicates.ClassAgreesWithDecorator | query_filter/predicates.py:25-31 | a predicate object behaves on every value as the decorated operator function of the same operator |
| Filtering.FilterRun | query_filter/filter.py:10-14 | the generator yields at most as many items as it reads, each an input item its test accepted. It completes exactly when no test raises; otherwise it ends with an exception some test raised |
| Filtering.FilterSelectsPositions | query_filter/filter.py:14 | the run yields the items at the accepted positions up to the first raise, in increasing order of position; when the run completes, those are all the accepted positions |
| Filtering.FilterSelectsKept | query_filter/filter.py:14 | the yielded items are a subsequence of the input, in source order, made only of accepted items; a completed run yields every accepted item |
| Filtering.FilterStopsAtFirstError | query_filter/filter.py:14 | an aborted run stops at the first item whose test raises, and it yields exactly what the filter yields on the items before that one |
| Filtering.FilterKeepsAll | query_filter/filter.py:14 | a test accepting every item yields the whole input in order |
| Filtering.FilterKeepsNone | query_filter/filter.py:14 | a test rejecting every item yields nothing |
| Filtering.FilterExact | query_filter/filter.py:10-14 | when no test raises, the run completes and yields exactly the accepted items, in order |
| Filtering.QFilter | query_filter/filter.py:10-14 | every yielded item satisfies every predicate; with no predicates every item is yielded |
| Filtering.QFilterExact | query_filter/filter.py:10-14 | when no predicate raises, `qfilter` yields exactly the items on which every predicate holds, in order |
| Filtering.QFilterAny | tests/test_qfilter.py:100-123 | every yielded item satisfies some predicate; with no predicates nothing is yielded |
| Filtering.QFilterAnyExact | tests/test_qfilter.py:100-123 | when no predicate raises, the any filter yields exactly the items on which some predicate holds |
| Filtering.QFilterNotAny | tests/test_qfilter.py:125-143 | every yielded item is rejected by every predicate; with no predicates every item is yielded |
| Filtering.QFilterNotAnyExact | tests/test_qfilter.py:125-143 | when no predicate raises, the not-any filter yields exactly the items on which no predicate holds |
| Filtering.RetrieveAttr | query_filter/filter.py:53-57 | a resolved path gives its value and an AttributeError gives `None`; with string names it never raises |
| Filtering.RetrieveItem | query_filter/filter.py:64-68 | never raises: a resolved path gives its value, and any KeyError, IndexError or TypeError gives `None` |
| Filtering.Query.Compare | query_filter/filter.py:17-50 | all ten comparison methods build the decorated operator on the query's path: false on `None`, the operator otherwise, and a getter exception passed through |
| Filtering.KPredicate | query_filter/filter.py:106-109 | ValueError exactly when the key is malformed; otherwise the decorated operator the key names, on the key's path |
| Filtering.KFilter | query_filter/filter.py:112-115 | ValueError exactly when some key is malformed, raised before any item is tested. Otherwise the result is `qfilter` over the explicit predicates followed by the keyword predicates, in that order. Every yielded item satisfies every explicit predicate and every keyword predicate; with neither, every item is yielded |
| Filtering.ExplicitBeforeKeyword | query_filter/filter.py:112-115 | on each item the explicit predicates are tested first: the keyword predicates are consulted only when every explicit one holds, and otherwise the explicit group's falsity or exception decides |
| Filtering.KFilterExact | query_filter/filter.py:112-115 | when every key is well-formed and no predicate raises, `kfilter` completes and yields exactly the items on which every explicit and every keyword predicate holds, in order |
| Variants.ItemQueriesAgree | query_filter/query.py:105-115 | the `query.py` and `filter.py` item criteria agree where the path resolves to a non-`None` value and are both false where it does not resolve. On a found `None` the filter variant is false while the query variant compares `None` |
| Variants.NoneValuedKeyDisagrees | query_filter/predicate.py:15-19 | on `{"a": None}`, `item("a") == None` holds in the query variant and fails in the filter variant |

## Left out

- Laziness is not modelled. A filter is modelled as its fully drained run, and a keyword predicate list is built all at once. Python's `*` unpacking in `kfilter` also consumes it at call time.
- `q_all`, `q_any`, `q_not`, `qall`, `qany`, `qnot`, `qfilter_any` and `qfilter_not_any` are imported by `query.py` and by the tests from `query_filter.filter`, but `filter.py` does not define them. Their behaviour is modelled from the tests that use them and from Python's `all`/`any`.
- The tests import further names that none of `query.py`, `filter.py`, `predicate.py` and `predicates.py` defines, among others `qfilter_all`, `q_filter`, `q_filter_all`, `k_filter_all` and `query_filter`; these are not modelled.
- `q_attr(path)` and `attr(path)` split their path string on whitespace before building the query. String whitespace splitting is not modelled; queries take their key sequence directly.
- `query_filter/path.py` and `query_filter/__init__.py` are not part of this model. `path.py` refers to a `predicates.Equals` that `predicates.py` does not define.
- `predicates.py`'s `Predicate.__call__` passes `*keys` to a getter, but its own `retrieve_item(obj, keys)` takes the keys as one argument. The model gives the predicate object a getter on a key sequence, as the other variants do.
- Regular-expression matching (`Query.regex`, `q_matches_regex`) appears only in the tests; no source file defines it, so it is not modelled.
- Floats, complex numbers, tuples, sets, bytes and user-defined comparison methods are not modelled. Values are `None`, bools, ints, strings, lists, dicts and attribute objects.
- Bools are their own kind. `True == 1`, bool list indices and bool/int ordering are not modelled.
- Objects compare structurally; Python compares plain objects by identity.
- Operators.Identical: `is` holds only between equal atoms (`None`, bools, ints, strings). Interning of small ints and strings is taken as total, and two containers are never identical, even one and the same.
- Attributes of builtin types (methods of lists and strings, for example) are not modelled; only attribute objects carry attributes.
- Unhashable dict keys: a dict may hold list or dict keys in the model, which Python forbids. Every lookup or membership probe with such a key raises TypeError, as in Python, so those entries are never reached.
- Dict keys are kept apart by structural equality, whereas Python also merges keys that hash and compare equal across kinds (`1` and `True`).
- Operators.Apply: its own contract states only which operators can raise and that the error is TypeError. What each operator returns is stated by the lemmas `ApplyMeaning`, `OrderingOperators` and `StrComparisons`, with the ordering itself characterised by `Order`, `StrOrderFirstDifference` and `ListOrderFirstDifference`.
- ClassPredicates.Evaluate: states only that its errors are TypeErrors; its agreement with the operators is the lemma `EvaluateIsOperator`.
- The `deepcopy` of yielded items is modelled as an equal value; object identity is not modelled.
