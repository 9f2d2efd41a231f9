/** The keyword-key syntax: `"a__b__gte"` names the path `["a", "b"]` and the operator `gte`. */
module KeySyntax {
  import opened PyValues
  import opened Operators

  const Sep: string := "__"

  /** No two adjacent underscores: `s` does not contain the separator. */
  predicate NoSep(s: string)
  {
    forall i, j :: 0 <= i < |s| && 0 <= j < |s| && j == i + 1 ==> !(s[i] == '_' && s[j] == '_')
  }

  predicate EndsWithUnderscore(s: string)
  {
    |s| > 0 && s[|s| - 1] == '_'
  }

  /** `Sep.join(parts)`. */
  function Join(parts: seq<string>): string
  {
    if |parts| == 0 then ""
    else if |parts| == 1 then parts[0]
    else parts[0] + Sep + Join(parts[1..])
  }

  /** Prepending a character that starts no separator to the first part of a split of `t`
      gives a split of `[c] + t`. */
  lemma ConsToFirstPart(c: char, t: string, rest: seq<string>)
    requires |t| >= 1 && !(c == '_' && t[0] == '_')
    requires |rest| >= 1 && rest[0] <= t && Join(rest) == t
    requires forall i :: 0 <= i < |rest| ==> NoSep(rest[i])
    requires forall i :: 0 <= i < |rest| - 1 ==> !EndsWithUnderscore(rest[i])
    ensures var parts := [[c] + rest[0]] + rest[1..];
            && parts[0] <= [c] + t
            && Join(parts) == [c] + t
            && (forall i :: 0 <= i < |parts| ==> NoSep(parts[i]))
            && (forall i :: 0 <= i < |parts| - 1 ==> !EndsWithUnderscore(parts[i]))
  {
    var first := [c] + rest[0];
    var parts := [first] + rest[1..];
    assert NoSep(first) by {
      assert forall i :: 1 <= i < |first| ==> first[i] == rest[0][i - 1];
      assert |rest[0]| > 0 ==> first[1] == t[0];
    }
    assert forall i :: 1 <= i < |parts| ==> parts[i] == rest[i];
    if |rest| > 1 {
      assert parts[1..] == rest[1..];
      FirstPartEndsWell(c, t, rest);
    }
  }

  /** When more parts follow, the extended first part does not end in `_`: either the old
      first part did not, or it was empty and `c` is followed by the separator. */
  lemma FirstPartEndsWell(c: char, t: string, rest: seq<string>)
    requires |t| >= 1 && !(c == '_' && t[0] == '_')
    requires |rest| >= 2 && Join(rest) == t
    requires !EndsWithUnderscore(rest[0])
    ensures !EndsWithUnderscore([c] + rest[0])
  {
    var first := [c] + rest[0];
    if |rest[0]| == 0 {
      assert t == rest[0] + Sep + Join(rest[1..]);
      assert t[0] == '_';
    } else {
      assert first[|first| - 1] == rest[0][|rest[0]| - 1];
    }
  }

  /** A separator in front of a split of `t` starts a new, empty first part. */
  lemma SepThenParts(t: string, rest: seq<string>)
    requires |rest| >= 1 && Join(rest) == t
    requires forall i :: 0 <= i < |rest| ==> NoSep(rest[i])
    requires forall i :: 0 <= i < |rest| - 1 ==> !EndsWithUnderscore(rest[i])
    ensures var parts := [""] + rest;
            && Join(parts) == Sep + t
            && (forall i :: 0 <= i < |parts| ==> NoSep(parts[i]))
            && (forall i :: 0 <= i < |parts| - 1 ==> !EndsWithUnderscore(parts[i]))
  {
    var parts := [""] + rest;
    assert parts[1..] == rest;
    assert forall i :: 1 <= i < |parts| ==> parts[i] == rest[i - 1];
  }

  /** `s.split("__")`: cut at each separator found scanning left to right, without overlap.
      Joining the parts gives `s` back, and no part contains the separator. */
  function Split(s: string): (parts: seq<string>)
    ensures |parts| >= 1
    ensures parts[0] <= s
    ensures Join(parts) == s
    ensures forall i :: 0 <= i < |parts| ==> NoSep(parts[i])
    ensures forall i :: 0 <= i < |parts| - 1 ==> !EndsWithUnderscore(parts[i])
    decreases |s|
  {
    if |s| < 2 then
      [s]
    else if s[..2] == Sep then
      var rest := Split(s[2..]);
      SepThenParts(s[2..], rest);
      assert Sep + s[2..] == s;
      [""] + rest
    else
      var rest := Split(s[1..]);
      assert !(s[0] == '_' && s[1] == '_') by {
        assert s[..2] == [s[0], s[1]];
      }
      ConsToFirstPart(s[0], s[1..], rest);
      assert [s[0]] + s[1..] == s;
      [[s[0]] + rest[0]] + rest[1..]
  }

  /** A part without separators splits to itself. */
  lemma {:induction false} SplitWithoutSep(s: string)
    requires NoSep(s)
    ensures Split(s) == [s]
    decreases |s|
  {
    if |s| >= 2 {
      assert s[..2] != Sep by {
        assert !(s[0] == '_' && s[1] == '_');
        assert s[..2] == [s[0], s[1]];
      }
      assert NoSep(s[1..]) by {
        assert forall i :: 0 <= i < |s[1..]| ==> s[1..][i] == s[i + 1];
      }
      SplitWithoutSep(s[1..]);
      assert [s[0]] + s[1..] == s;
    }
  }

  /** The first separator after a part that has none and does not end in `_` is the one
      right after it. */
  lemma {:induction false} SplitAfterPart(a: string, b: string)
    requires NoSep(a) && !EndsWithUnderscore(a)
    ensures Split(a + Sep + b) == [a] + Split(b)
    decreases |a|
  {
    var s := a + Sep + b;
    if |a| == 0 {
      assert s[..2] == Sep && s[2..] == b;
    } else {
      assert s[..2] != Sep by {
        assert s[..2] == [s[0], s[1]];
        if |a| == 1 {
          assert s[0] == a[0] && a[0] != '_';
        } else {
          assert s[0] == a[0] && s[1] == a[1];
          assert !(a[0] == '_' && a[1] == '_');
        }
      }
      var a' := a[1..];
      assert NoSep(a') by {
        assert forall i :: 0 <= i < |a'| ==> a'[i] == a[i + 1];
      }
      assert !EndsWithUnderscore(a') by {
        if |a'| > 0 {
          assert a'[|a'| - 1] == a[|a| - 1];
        }
      }
      assert s[1..] == a' + Sep + b;
      SplitAfterPart(a', b);
      assert [s[0]] + a' == a;
    }
  }

  /** `split` undoes `join` when no part holds the separator and no part but the last ends in
      `_` (which would merge with the separator that follows it). */
  lemma {:induction false} SplitJoin(parts: seq<string>)
    requires |parts| >= 1
    requires forall i :: 0 <= i < |parts| ==> NoSep(parts[i])
    requires forall i :: 0 <= i < |parts| - 1 ==> !EndsWithUnderscore(parts[i])
    ensures Split(Join(parts)) == parts
    decreases |parts|
  {
    if |parts| == 1 {
      SplitWithoutSep(parts[0]);
    } else {
      SplitAfterPart(parts[0], Join(parts[1..]));
      SplitJoin(parts[1..]);
    }
  }

  /** A parsed keyword key: the lookup path and the operator. */
  datatype KeyPath = KeyPath(path: seq<string>, op: Op)

  /** The key path left once the trailing segment is taken as an operator name, if it is one. */
  function PathSegments(parts: seq<string>): seq<string>
    requires |parts| >= 1
  {
    if parts[|parts| - 1] in OperatorTable then parts[..|parts| - 1] else parts
  }

  /** `split_key(key)`: the trailing segment is the operator when it names one, otherwise it
      belongs to the path and the operator is `eq`; an empty path or an empty segment in it
      raises ValueError. */
  function SplitKey(key: string): (r: Result<KeyPath>)
    ensures r.Raised? ==> r.error == ValueError
    ensures r.Raised? <==> (var p := PathSegments(Split(key)); |p| == 0 || "" in p)
    ensures r.Ok? ==> |r.value.path| > 0 && forall i :: 0 <= i < |r.value.path| ==> r.value.path[i] != ""
  {
    var parts := Split(key);
    var last := parts[|parts| - 1];
    var keys := PathSegments(parts);
    if |keys| == 0 || "" in keys then Raised(ValueError)
    else if last in OperatorTable then Ok(KeyPath(keys, OperatorTable[last]))
    else Ok(KeyPath(keys, Eq))
  }

  /** A parsed key is rebuilt by joining its path with the operator name, or, when the
      operator was defaulted to `eq`, by joining the path alone. */
  lemma SplitKeyRebuildsKey(key: string)
    requires SplitKey(key).Ok?
    ensures var kp := SplitKey(key).value;
            key == Join(kp.path + [OpName(kp.op)])
            || (kp.op == Eq && key == Join(kp.path) && kp.path[|kp.path| - 1] !in OperatorTable)
  {
    var parts := Split(key);
    var last := parts[|parts| - 1];
    if last in OperatorTable {
      OperatorTableNames();
      assert parts == parts[..|parts| - 1] + [last];
    }
  }

  /** Every operator name is a non-empty segment without separators. */
  lemma OpNameIsSegment(op: Op)
    ensures OpName(op) != "" && NoSep(OpName(op))
  {
    match op
    case Lt => assert OpName(op) == "lt";
    case Lte => assert OpName(op) == "lte";
    case Eq => assert OpName(op) == "eq";
    case Ne => assert OpName(op) == "ne";
    case Gt => assert OpName(op) == "gt";
    case Gte => assert OpName(op) == "gte";
    case In => assert OpName(op) == "in";
    case Contains => assert OpName(op) == "contains";
    case Is => assert OpName(op) == "is";
    case IsNot => assert OpName(op) == "is_not";
  }

  /** Round trip: joining a well-formed path and an operator name and splitting the result
      gives back the path and the operator. */
  lemma {:induction false} SplitKeyRoundTrip(path: seq<string>, op: Op)
    requires |path| > 0
    requires forall i :: 0 <= i < |path| ==> path[i] != "" && NoSep(path[i]) && !EndsWithUnderscore(path[i])
    ensures SplitKey(Join(path + [OpName(op)])) == Ok(KeyPath(path, op))
  {
    var name := OpName(op);
    var parts := path + [name];
    OpNameIsSegment(op);
    assert forall i :: 0 <= i < |parts| ==> NoSep(parts[i]) by {
      assert forall i :: 0 <= i < |path| ==> parts[i] == path[i];
    }
    assert forall i :: 0 <= i < |parts| - 1 ==> !EndsWithUnderscore(parts[i]) by {
      assert forall i :: 0 <= i < |path| ==> parts[i] == path[i];
    }
    SplitJoin(parts);
    OperatorTableNames();
    assert parts[|parts| - 1] == name && name in OperatorTable;
    assert parts[..|parts| - 1] == path;
    assert PathSegments(parts) == path;
    assert "" !in path;
  }

  /** A path whose last segment is no operator name parses with the default operator `eq`. */
  lemma {:induction false} SplitKeyDefaultsToEq(path: seq<string>)
    requires |path| > 0
    requires forall i :: 0 <= i < |path| ==> path[i] != "" && NoSep(path[i])
    requires forall i :: 0 <= i < |path| - 1 ==> !EndsWithUnderscore(path[i])
    requires path[|path| - 1] !in OperatorTable
    ensures SplitKey(Join(path)) == Ok(KeyPath(path, Eq))
  {
    SplitJoin(path);
    assert "" !in path;
  }

  lemma EmptyNamesNoOperator()
    ensures "" !in OperatorTable
  {
    assert OperatorTable.Keys == {"lt", "lte", "eq", "ne", "gt", "gte", "in", "contains", "is", "is_not"};
  }

  /** A key whose last segment is empty names no operator, so the empty segment stays in
      the path and the key is rejected. */
  lemma EmptyLastSegmentRejected(key: string)
    requires Split(key)[|Split(key)| - 1] == ""
    ensures SplitKey(key) == Raised(ValueError)
  {
    var parts := Split(key);
    EmptyNamesNoOperator();
    var p := PathSegments(parts);
    assert p == parts;
    assert p[|p| - 1] in p;
    assert SplitKey(key).Raised?;
  }

  /** A key whose first segment is empty keeps that segment in its path, whether or not the
      last segment names an operator, and is rejected. */
  lemma EmptyFirstSegmentRejected(key: string)
    requires Split(key)[0] == ""
    ensures SplitKey(key) == Raised(ValueError)
  {
    var parts := Split(key);
    var p := PathSegments(parts);
    if |parts| == 1 {
      EmptyNamesNoOperator();
      assert p == parts;
    } else {
      assert p[0] == parts[0];
    }
    assert p[0] in p;
    assert SplitKey(key).Raised?;
  }

  /** The empty key has an empty path, and is rejected. */
  lemma SplitKeyRejectsEmptyKey()
    ensures SplitKey("") == Raised(ValueError)
  {
    EmptyFirstSegmentRejected("");
  }

  /** A key that starts with the separator (`"__"`, `"___"`, `"__lt"`, `"__a__gt"`,
      `"_____ "`) has an empty first segment, whatever follows, and is rejected. */
  lemma SplitKeyRejectsLeadingSeparator(rest: string)
    ensures SplitKey(Sep + rest) == Raised(ValueError)
  {
    SplitAfterPart("", rest);
    assert "" + Sep + rest == Sep + rest;
    EmptyFirstSegmentRejected(Sep + rest);
  }

  /** A path followed by the separator (`"a__"`, `"a__b__"`) has an empty last segment,
      and is rejected. */
  lemma SplitKeyRejectsTrailingSeparator(path: seq<string>)
    requires forall i :: 0 <= i < |path| ==> NoSep(path[i]) && !EndsWithUnderscore(path[i])
    ensures SplitKey(Join(path + [""])) == Raised(ValueError)
  {
    SplitJoinTrailing(path);
    EmptyLastSegmentRejected(Join(path + [""]));
  }

  lemma {:induction false} SplitJoinTrailing(path: seq<string>)
    requires forall i :: 0 <= i < |path| ==> NoSep(path[i]) && !EndsWithUnderscore(path[i])
    ensures Split(Join(path + [""])) == path + [""]
    decreases |path|
  {
    if |path| == 0 {
      assert path + [""] == [""];
      assert Split("") == [""];
    } else {
      var tail := path[1..] + [""];
      assert (path + [""])[1..] == tail;
      assert Join(path + [""]) == path[0] + Sep + Join(tail);
      SplitJoinTrailing(path[1..]);
      SplitAfterPart(path[0], Join(tail));
      assert [path[0]] + tail == path + [""];
    }
  }


  /** A bare field name parses with the default operator `eq`. */
  lemma SplitKeyParsesBareName()
    ensures SplitKey("a") == Ok(KeyPath(["a"], Eq))
  {
    assert NoSep("a");
    assert "a" !in OperatorTable;
    SplitKeyDefaultsToEq(["a"]);
    assert Join(["a"]) == "a";
  }

  /** A two-segment path with a trailing operator parses to the path and the operator. */
  lemma SplitKeyParsesOperator()
    ensures SplitKey("a__b__gte") == Ok(KeyPath(["a", "b"], Gte))
  {
    var parts := ["a", "b", "gte"];
    assert NoSep("a") && NoSep("b");
    SplitKeyRoundTrip(["a", "b"], Gte);
    assert ["a", "b"] + [OpName(Gte)] == parts;
    assert parts[1..] == ["b", "gte"];
    assert ["b", "gte"][1..] == ["gte"];
    assert Join(["b", "gte"]) == "b__gte";
    assert Join(parts) == "a__b__gte";
  }

  /** The segments of a parsed path, as the string keys a getter receives. */
  function PathKeys(path: seq<string>): (keys: seq<Value>)
    ensures |keys| == |path| && forall i :: 0 <= i < |path| ==> keys[i] == Str(path[i])
  {
    seq(|path|, i requires 0 <= i < |path| => Str(path[i]))
  }
}
