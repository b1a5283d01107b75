/** The pattern matcher: recursive dispatch on the pattern, early-exit loops over maps and
    lists, and one handler for each kind of key. */
module Matcher {
  import opened Json
  import opened Anchors
  import opened MatcherSpec

  /** `Panic` is an index out of range. */
  datatype Result = Pass | Fail(path: seq<string>) | Panic

  /** A result is one of the possible verdicts on the resource at position `path`; a failure is
      reported there or further down. */
  ghost predicate Possible(resource: Json, pattern: Json, path: seq<string>, leaf: LeafTest, res: Result) {
    match res
    case Pass => MayPass(resource, pattern, leaf)
    case Fail(at) => path <= at && MayFail(resource, pattern, at[|path|..], leaf)
    case Panic => !Evaluable(resource, pattern)
  }

  ghost predicate PossibleKey(resource: Json, pattern: Json, key: string, path: seq<string>, leaf: LeafTest,
                              res: Result)
    requires resource.Obj? && pattern.Obj? && key in pattern.fields
  {
    match res
    case Pass => KeyMayPass(resource, pattern, key, leaf)
    case Fail(at) => path <= at && KeyMayFail(resource, pattern, key, at[|path|..], leaf)
    case Panic => !EvaluableKey(resource, pattern, key)
  }

  /** A position below a child, seen from the parent. */
  lemma OneFurther(path: seq<string>, token: string, at: seq<string>)
    requires path + [token] <= at
    ensures path <= at && at[|path|..] != [] && at[|path|] == token && at[|path|..][1..] == at[|path| + 1..]
    ensures at[|path|..] == [token] + at[|path + [token]|..]
  {
    assert at[|path|] == (path + [token])[|path|];
    assert path == (path + [token])[..|path|];
  }

  method ValidateResourceElement(resource: Json, pattern: Json, path: seq<string>, leaf: LeafTest)
    returns (res: Result)
    requires Unreferenced(resource, pattern)
    ensures Possible(resource, pattern, path, leaf, res)
    decreases pattern, 3
  {
    assert path[|path|..] == [];
    match pattern
    case Obj(_) =>
      if !resource.Obj? {
        return Fail(path);
      }
      res := ValidateMap(resource, pattern, path, leaf);
    case Arr(_) =>
      if !resource.Arr? {
        return Fail(path);
      }
      res := ValidateArray(resource, pattern, path, leaf);
    case _ =>
      res := if leaf(resource, pattern) then Pass else Fail(path);
  }

  method ValidateMap(resource: Json, pattern: Json, path: seq<string>, leaf: LeafTest)
    returns (res: Result)
    requires resource.Obj? && pattern.Obj? && Unreferenced(resource, pattern)
    ensures Possible(resource, pattern, path, leaf, res)
    decreases pattern, 2
  {
    var anchors, resources := GetAnchorsResourcesFromMap(pattern);
    // phase 1: the anchors
    var todo := anchors;
    while todo != {}
      invariant todo <= anchors
      invariant forall k | k in anchors && k !in todo :: KeyMayPass(resource, pattern, k, leaf)
      decreases |todo|
    {
      var key :| key in todo;
      todo := todo - {key};
      var r := Handle(resource, pattern, key, path, leaf);
      if r.Fail? {
        if IsConditionAnchor(key) {
          return Pass;
        }
        return r;
      }
      if r.Panic? {
        return r;
      }
    }
    // phase 2: the plain members
    todo := resources;
    while todo != {}
      invariant todo <= resources
      invariant forall k | k in resources && k !in todo :: KeyMayPass(resource, pattern, k, leaf)
      decreases |todo|
    {
      var key :| key in todo;
      todo := todo - {key};
      var r := Handle(resource, pattern, key, path, leaf);
      if !r.Pass? {
        return r;
      }
    }
    res := Pass;
  }

  method GetAnchorsResourcesFromMap(pattern: Json) returns (anchors: set<string>, resources: set<string>)
    requires pattern.Obj?
    ensures anchors == set k | k in pattern.fields && IsAnchor(k)
    ensures resources == set k | k in pattern.fields && !IsAnchor(k)
  {
    anchors, resources := {}, {};
    var todo := pattern.fields.Keys;
    while todo != {}
      invariant todo <= pattern.fields.Keys
      invariant anchors == set k | k in pattern.fields && k !in todo && IsAnchor(k)
      invariant resources == set k | k in pattern.fields && k !in todo && !IsAnchor(k)
      decreases |todo|
    {
      var key :| key in todo;
      todo := todo - {key};
      if IsConditionAnchor(key) || IsExistenceAnchor(key) || IsEqualityAnchor(key) || IsNegationAnchor(key) {
        anchors := anchors + {key};
      } else {
        resources := resources + {key};
      }
    }
  }

  method ValidateArray(resource: Json, pattern: Json, path: seq<string>, leaf: LeafTest)
    returns (res: Result)
    requires resource.Arr? && pattern.Arr? && Unreferenced(resource, pattern)
    ensures Possible(resource, pattern, path, leaf, res)
    decreases pattern, 2
  {
    if pattern.items == [] {
      assert path[|path|..] == [];
      return Fail(path);
    }
    if pattern.items[0].Obj? {
      res := ValidateArrayOfMaps(resource, pattern, path, leaf);
      return;
    }
    for i := 0 to |pattern.items|
      invariant i <= |resource.items|
      invariant forall j | 0 <= j < i :: MayPass(resource.items[j], pattern.items[j], leaf)
    {
      if i >= |resource.items| {
        return Panic;
      }
      var r := ValidateResourceElement(resource.items[i], pattern.items[i], path + [Itoa(i)], leaf);
      if r.Fail? {
        OneFurther(path, Itoa(i), r.path);
        ElementFails(resource, pattern, i, |resource.items|, r.path[|path|..], leaf);
        return r;
      }
      if r.Panic? {
        return r;
      }
    }
    res := Pass;
  }

  /** The first map of the pattern is applied to every element; further ones are ignored. */
  method ValidateArrayOfMaps(resource: Json, pattern: Json, path: seq<string>, leaf: LeafTest)
    returns (res: Result)
    requires resource.Arr? && pattern.Arr? && pattern.items != [] && pattern.items[0].Obj?
    requires Unreferenced(resource, pattern)
    ensures Possible(resource, pattern, path, leaf, res)
    decreases pattern, 1
  {
    for i := 0 to |resource.items|
      invariant forall j | 0 <= j < i :: MayPass(resource.items[j], pattern.items[0], leaf)
    {
      var r := ValidateResourceElement(resource.items[i], pattern.items[0], path + [Itoa(i)], leaf);
      if r.Fail? {
        OneFurther(path, Itoa(i), r.path);
        ElementFails(resource, pattern, i, |resource.items|, r.path[|path|..], leaf);
        return r;
      }
      if r.Panic? {
        return r;
      }
    }
    res := Pass;
  }

  // ---------- The handlers ----------

  method Handle(resource: Json, pattern: Json, key: string, path: seq<string>, leaf: LeafTest)
    returns (res: Result)
    requires resource.Obj? && pattern.Obj? && key in pattern.fields && UnreferencedKey(resource, pattern, key)
    ensures PossibleKey(resource, pattern, key, path, leaf, res)
    decreases pattern, 1
  {
    match HandlerOf(key)
    case ConditionHandler => res := HandleIfPresent(resource, pattern, key, path, leaf);
    case EqualityHandler => res := HandleIfPresent(resource, pattern, key, path, leaf);
    case NegationHandler => res := HandleNegation(resource, pattern, key, path, leaf);
    case ExistenceHandler => res := HandleExistence(resource, pattern, key, path, leaf);
    case DefaultHandler => res := HandleDefault(resource, pattern, key, path, leaf);
  }

  method HandleNegation(resource: Json, pattern: Json, key: string, path: seq<string>, ghost leaf: LeafTest)
    returns (res: Result)
    requires resource.Obj? && pattern.Obj? && key in pattern.fields && HandlerOf(key).NegationHandler?
    ensures PossibleKey(resource, pattern, key, path, leaf, res)
  {
    var anchorKey := RemoveAnchor(key);
    assert (path + [anchorKey])[|path|..] == [anchorKey];
    res := if anchorKey in resource.fields then Fail(path + [anchorKey]) else Pass;
  }

  /** The condition and the equality handler do the same; the map loop treats their failures
      differently. */
  method HandleIfPresent(resource: Json, pattern: Json, key: string, path: seq<string>, leaf: LeafTest)
    returns (res: Result)
    requires resource.Obj? && pattern.Obj? && key in pattern.fields && UnreferencedKey(resource, pattern, key)
    requires HandlerOf(key).ConditionHandler? || HandlerOf(key).EqualityHandler?
    ensures PossibleKey(resource, pattern, key, path, leaf, res)
    decreases pattern, 0
  {
    var anchorKey := RemoveAnchor(key);
    res := Pass;
    if anchorKey in resource.fields {
      res := ValidateResourceElement(resource.fields[anchorKey], pattern.fields[key], path + [anchorKey], leaf);
      if res.Fail? {
        OneFurther(path, anchorKey, res.path);
      }
    }
  }

  method HandleExistence(resource: Json, pattern: Json, key: string, path: seq<string>, leaf: LeafTest)
    returns (res: Result)
    requires resource.Obj? && pattern.Obj? && key in pattern.fields && UnreferencedKey(resource, pattern, key)
    requires HandlerOf(key).ExistenceHandler?
    ensures PossibleKey(resource, pattern, key, path, leaf, res)
    ensures InvalidElement(resource, pattern, key) ==> res == Fail(path + [RemoveAnchor(key)])
    decreases pattern, 0
  {
    var anchorKey := RemoveAnchor(key);
    var currentPath := path + [anchorKey];
    assert currentPath[|path|..] == [anchorKey];
    if anchorKey !in resource.fields {
      return Pass;
    }
    var value, list := resource.fields[anchorKey], pattern.fields[key];
    if !value.Arr? || !list.Arr? {
      return Fail(currentPath);
    }
    if list.items == [] {
      return Panic;
    }
    if !list.items[0].Obj? {
      return Fail(currentPath);
    }
    for i := 0 to |value.items|
      invariant forall j | 0 <= j < i :: MatcherSpec.Fails(value.items[j], list.items[0], leaf)
    {
      var r := ValidateResourceElement(value.items[i], list.items[0], currentPath + [Itoa(i)], leaf);
      if !r.Fail? {
        return r;
      }
    }
    res := Fail(currentPath);
  }

  method HandleDefault(resource: Json, pattern: Json, key: string, path: seq<string>, leaf: LeafTest)
    returns (res: Result)
    requires resource.Obj? && pattern.Obj? && key in pattern.fields && UnreferencedKey(resource, pattern, key)
    requires HandlerOf(key).DefaultHandler?
    ensures PossibleKey(resource, pattern, key, path, leaf, res)
    ensures key !in resource.fields ==>
              var value := pattern.fields[key];
              res == if value == Str("*") then Fail(path)
                     else if value.Obj? || value.Arr? || !leaf(Null, value) then Fail(path + [key])
                     else Pass
    decreases pattern, 0
  {
    var value := pattern.fields[key];
    if value == ANYTHING {
      assert path[|path|..] == [];
      return if Member(resource, key) != Null then Pass else Fail(path);
    }
    res := ValidateResourceElement(Member(resource, key), value, path + [key], leaf);
    if res.Fail? {
      assert key !in resource.fields ==> res.path[|path + [key]|..] == [];
      OneFurther(path, key, res.path);
    }
  }

  /** The entry point. For patterns that do not mix conditions with other anchors in a map the
      verdict is the intended one. */
  method ValidateResourceWithPattern(resource: Json, pattern: Json, leaf: LeafTest) returns (res: Result)
    requires Unreferenced(resource, pattern)
    ensures res.Panic? ==> !Evaluable(resource, pattern)
    ensures res.Pass? ==> MayPass(resource, pattern, leaf)
    ensures res.Fail? ==> MayFail(resource, pattern, res.path, leaf)
    ensures Unmixed(pattern) && Evaluable(resource, pattern) ==> (res.Pass? <==> Matches(resource, pattern, leaf))
  {
    res := ValidateResourceElement(resource, pattern, [], leaf);
    assert res.Fail? ==> res.path[0..] == res.path;
    if Unmixed(pattern) && Evaluable(resource, pattern) {
      VerdictIsOrderIndependent(resource, pattern, leaf);
    }
  }
}
