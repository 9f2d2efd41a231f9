/** Path resolution: a chain of item or attribute lookups folded over a root value,
    as `functools.reduce(getitem, keys, obj)` and `reduce(getattr, names, obj)` do. */
module Paths {
  import opened PyValues

  /** One resolution step: `obj[key]` or `getattr(obj, name)`. */
  datatype Lookup = Item(key: Value) | Attr(name: Value)

  /** A getter as the predicate makers receive it: `get(obj, *keys)`. */
  type Getter = (Value, seq<Value>) -> Result<Value>

  /** Python's sequence index: a negative index counts from the end. */
  function NormIndex(i: int, len: nat): (r: Result<nat>)
    ensures r.Ok? <==> -(len as int) <= i < len
    ensures r.Ok? ==> r.value < len && r.value % len == i % len
    ensures r.Raised? ==> r.error == IndexError
  {
    if 0 <= i < len then Ok(i)
    else if -(len as int) <= i < 0 then Ok(i + len)
    else Raised(IndexError)
  }

  /** `operator.getitem(v, key)` on the modelled types. */
  function GetItem(v: Value, key: Value): (r: Result<Value>)
    ensures r.Raised? ==> r.error in {KeyError, IndexError, TypeError}
    ensures v.Dict? && Hashable(key) ==> (r.Ok? <==> key in v.entries)
    ensures v.Dict? && Hashable(key) && key in v.entries ==> r.value == v.entries[key]
    ensures v.Dict? && Hashable(key) && key !in v.entries ==> r == Raised(KeyError)
    ensures v.List? && key.Int? && 0 <= key.i < |v.elems| ==> r == Ok(v.elems[key.i])
    ensures v.List? && key.Int? && -|v.elems| <= key.i < 0 ==> r == Ok(v.elems[key.i + |v.elems|])
    ensures v.List? && key.Int? && !(-|v.elems| <= key.i < |v.elems|) ==> r == Raised(IndexError)
    ensures v.Str? && key.Int? && 0 <= key.i < |v.s| ==> r == Ok(Str([v.s[key.i]]))
    ensures v.Str? && key.Int? && -|v.s| <= key.i < 0 ==> r == Ok(Str([v.s[key.i + |v.s|]]))
    ensures v.Str? && key.Int? && !(-|v.s| <= key.i < |v.s|) ==> r == Raised(IndexError)
    ensures (v.List? || v.Str?) && !key.Int? ==> r == Raised(TypeError)
    ensures v.Dict? && !Hashable(key) ==> r == Raised(TypeError)
    ensures v.None? || v.Bool? || v.Int? || v.Obj? ==> r == Raised(TypeError)
  {
    match v
    case List(xs) =>
      if !key.Int? then Raised(TypeError)
      else (match NormIndex(key.i, |xs|)
            case Ok(j) => Ok(xs[j])
            case Raised(e) => Raised(e))
    case Str(s) =>
      if !key.Int? then Raised(TypeError)
      else (match NormIndex(key.i, |s|)
            case Ok(j) => Ok(Str([s[j]]))
            case Raised(e) => Raised(e))
    case Dict(m) =>
      if !Hashable(key) then Raised(TypeError)
      else if key in m then Ok(m[key])
      else Raised(KeyError)
    case _ => Raised(TypeError)
  }

  /** `getattr(v, name)`: only objects carry attributes; a non-string name is a TypeError. */
  function GetAttr(v: Value, name: Value): (r: Result<Value>)
    ensures r.Ok? <==> name.Str? && v.Obj? && name.s in v.attrs
    ensures r.Ok? ==> r.value == v.attrs[name.s]
    ensures r.Raised? ==> r.error == (if name.Str? then AttributeError else TypeError)
  {
    if !name.Str? then Raised(TypeError)
    else if v.Obj? && name.s in v.attrs then Ok(v.attrs[name.s])
    else Raised(AttributeError)
  }

  function Step(v: Value, l: Lookup): Result<Value>
  {
    match l
    case Item(k) => GetItem(v, k)
    case Attr(n) => GetAttr(v, n)
  }

  /** The fold of `Step` over `path`, left to right; the first failing step ends the walk. */
  function Walk(root: Value, path: seq<Lookup>): (r: Result<Value>)
    ensures |path| == 0 ==> r == Ok(root)
    ensures |path| == 1 ==> r == Step(root, path[0])
    ensures r.Raised? ==> |path| > 0
    decreases |path|
  {
    if |path| == 0 then Ok(root)
    else match Step(root, path[0])
      case Raised(e) => Raised(e)
      case Ok(w) => Walk(w, path[1..])
  }

  function ItemPath(keys: seq<Value>): (p: seq<Lookup>)
    ensures |p| == |keys| && forall i :: 0 <= i < |keys| ==> p[i] == Item(keys[i])
  {
    seq(|keys|, i requires 0 <= i < |keys| => Item(keys[i]))
  }

  function AttrPath(names: seq<Value>): (p: seq<Lookup>)
    ensures |p| == |names| && forall i :: 0 <= i < |names| ==> p[i] == Attr(names[i])
  {
    seq(|names|, i requires 0 <= i < |names| => Attr(names[i]))
  }

  /** `reduce` is a left fold: walking `p + q` walks `p`, then walks `q` from where `p` ended. */
  lemma {:induction false} WalkAppend(root: Value, p: seq<Lookup>, q: seq<Lookup>)
    ensures Walk(root, p + q) ==
            match Walk(root, p)
            case Ok(w) => Walk(w, q)
            case Raised(e) => Raised(e)
    decreases |p|
  {
    if |p| == 0 {
      assert p + q == q;
    } else {
      assert (p + q)[0] == p[0];
      assert (p + q)[1..] == p[1..] + q;
      match Step(root, p[0])
      case Raised(e) =>
      case Ok(w) => WalkAppend(w, p[1..], q);
    }
  }

  /** The last step of a fold: `reduce(f, keys + [k], obj) == f(reduce(f, keys, obj), k)`. */
  lemma WalkSnoc(root: Value, p: seq<Lookup>, l: Lookup)
    ensures Walk(root, p + [l]) ==
            match Walk(root, p)
            case Ok(w) => Step(w, l)
            case Raised(e) => Raised(e)
  {
    WalkAppend(root, p, [l]);
    match Walk(root, p)
    case Raised(e) =>
    case Ok(w) =>
      assert Walk(w, [l]) == Step(w, l) by {
        assert [l][1..] == [];
      }
  }

  /** A walk never yields a partial value: it fails exactly when some step fails, every
      earlier step having succeeded, and the failure is that step's exception. */
  lemma {:induction false} WalkFailsAtStep(root: Value, path: seq<Lookup>)
    requires Walk(root, path).Raised?
    ensures exists i :: 0 <= i < |path| && Walk(root, path[..i]).Ok?
                     && Step(Walk(root, path[..i]).value, path[i]) == Walk(root, path)
    decreases |path|
  {
    assert path[..0] == [];
    match Step(root, path[0])
    case Raised(e) =>
      assert Walk(root, path[..0]) == Ok(root);
    case Ok(w) =>
      assert Walk(w, path[1..]) == Walk(root, path);
      WalkFailsAtStep(w, path[1..]);
      var i :| 0 <= i < |path[1..]| && Walk(w, path[1..][..i]).Ok?
               && Step(Walk(w, path[1..][..i]).value, path[1..][i]) == Walk(w, path[1..]);
      assert path[..i + 1] == [path[0]] + path[1..][..i];
      assert Walk(root, path[..i + 1]) == Walk(w, path[1..][..i]);
  }

  /** Conversely, a successful walk succeeds on every prefix. */
  lemma {:induction false} WalkPrefixesSucceed(root: Value, path: seq<Lookup>, i: nat)
    requires Walk(root, path).Ok?
    requires i <= |path|
    ensures Walk(root, path[..i]).Ok?
  {
    WalkAppend(root, path[..i], path[i..]);
    assert path[..i] + path[i..] == path;
  }

  /** Item lookups only raise KeyError, IndexError or TypeError. */
  lemma {:induction false} ItemWalkErrors(root: Value, keys: seq<Value>)
    ensures Walk(root, ItemPath(keys)).Raised? ==>
            Walk(root, ItemPath(keys)).error in {KeyError, IndexError, TypeError}
    decreases |keys|
  {
    if |keys| > 0 {
      assert ItemPath(keys)[1..] == ItemPath(keys[1..]);
      match GetItem(root, keys[0])
      case Raised(e) =>
      case Ok(w) => ItemWalkErrors(w, keys[1..]);
    }
  }

  /** Attribute lookups only raise AttributeError, or TypeError for a name that is no string. */
  lemma {:induction false} AttrWalkErrors(root: Value, names: seq<Value>)
    ensures Walk(root, AttrPath(names)).Raised? ==>
            Walk(root, AttrPath(names)).error in {AttributeError, TypeError}
    ensures (forall i :: 0 <= i < |names| ==> names[i].Str?) && Walk(root, AttrPath(names)).Raised? ==>
            Walk(root, AttrPath(names)).error == AttributeError
    decreases |names|
  {
    if |names| > 0 {
      assert AttrPath(names)[1..] == AttrPath(names[1..]);
      match GetAttr(root, names[0])
      case Raised(e) =>
      case Ok(w) => AttrWalkErrors(w, names[1..]);
    }
  }
}
