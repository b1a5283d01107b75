/** What a validation pattern means. A pattern map is evaluated in an arbitrary order, so a
    pattern may have more than one possible verdict on a resource; `MayPass` and `MayFail`
    describe all of them, `Matches` the intended one. `leaf` stands for
    `ValidateValueWithPattern` on scalar patterns. */
module MatcherSpec {
  import opened Json
  import opened Anchors

  datatype Handler = ConditionHandler | ExistenceHandler | EqualityHandler | NegationHandler | DefaultHandler

  /** `CreateElementHandler` */
  function HandlerOf(key: string): Handler {
    if IsConditionAnchor(key) then ConditionHandler
    else if IsExistenceAnchor(key) then ExistenceHandler
    else if IsEqualityAnchor(key) then EqualityHandler
    else if IsNegationAnchor(key) then NegationHandler
    else DefaultHandler
  }

  predicate IsAnchor(key: string) { !HandlerOf(key).DefaultHandler? }

  /** A missing member reads as nil. */
  function Member(resource: Json, name: string): Json
    requires resource.Obj?
  {
    if name in resource.fields then resource.fields[name] else Null
  }

  const ANYTHING := Str("*")

  // ---------- Every possible verdict ----------

  ghost predicate MayPass(resource: Json, pattern: Json, leaf: LeafTest)
    decreases pattern, 2
  {
    match pattern
    case Obj(fields) =>
      && resource.Obj?
      && ((exists k, path | k in fields && IsConditionAnchor(k) :: KeyMayFail(resource, pattern, k, path, leaf))
          || (forall k | k in fields :: KeyMayPass(resource, pattern, k, leaf)))
    case Arr(items) =>
      && resource.Arr?
      && items != []
      && if items[0].Obj? then
           forall i | 0 <= i < |resource.items| :: MayPass(resource.items[i], items[0], leaf)
         else
           forall i | 0 <= i < |items| :: i < |resource.items| && MayPass(resource.items[i], items[i], leaf)
    case _ => leaf(resource, pattern)
  }

  ghost predicate KeyMayPass(resource: Json, pattern: Json, key: string, leaf: LeafTest)
    requires resource.Obj? && pattern.Obj? && key in pattern.fields
    decreases pattern, 1
  {
    var name, value := RemoveAnchor(key), pattern.fields[key];
    match HandlerOf(key)
    case ConditionHandler => name in resource.fields ==> MayPass(resource.fields[name], value, leaf)
    case EqualityHandler => name in resource.fields ==> MayPass(resource.fields[name], value, leaf)
    case NegationHandler => name !in resource.fields
    case ExistenceHandler =>
      name in resource.fields ==>
        && Comparable(resource.fields[name], value)
        && exists i | 0 <= i < |resource.fields[name].items| ::
           MayPass(resource.fields[name].items[i], value.items[0], leaf)
    case DefaultHandler =>
      if value == ANYTHING then Member(resource, key) != Null else MayPass(Member(resource, key), value, leaf)
  }

  /** The value and the pattern of an existence anchor are lists, the latter led by a map. */
  predicate Comparable(resource: Json, pattern: Json) {
    resource.Arr? && pattern.Arr? && pattern.items != [] && pattern.items[0].Obj?
  }

  /** The handler of an existence anchor reports the pattern itself as invalid: its first element
      is not a map. */
  predicate InvalidElement(resource: Json, pattern: Json, key: string)
    requires resource.Obj? && pattern.Obj? && key in pattern.fields
  {
    var name, value := RemoveAnchor(key), pattern.fields[key];
    && name in resource.fields && resource.fields[name].Arr?
    && value.Arr? && value.items != [] && !value.items[0].Obj?
  }

  /** The matcher may report a failure at `path`, relative to the position of the resource. */
  ghost predicate MayFail(resource: Json, pattern: Json, path: seq<string>, leaf: LeafTest)
    decreases pattern, 2, 0
  {
    match pattern
    case Obj(fields) =>
      if !resource.Obj? then
        path == []
      else
        || (exists k | k in fields && IsAnchor(k) && !IsConditionAnchor(k) ::
            KeyMayFail(resource, pattern, k, path, leaf))
        || ((forall k | k in fields && IsAnchor(k) :: KeyMayPass(resource, pattern, k, leaf))
            && exists k | k in fields && !IsAnchor(k) :: KeyMayFail(resource, pattern, k, path, leaf))
    case Arr(items) =>
      if !resource.Arr? || items == [] then
        path == []
      else
        SomeMayFail(resource, pattern, |resource.items|, path, leaf)
    case _ => path == [] && !leaf(resource, pattern)
  }

  /** One of the first `n` elements is the first to fail. */
  ghost predicate SomeMayFail(resource: Json, pattern: Json, n: nat, path: seq<string>, leaf: LeafTest)
    requires resource.Arr? && pattern.Arr? && n <= |resource.items| && pattern.items != []
    decreases pattern, 1, n
  {
    n > 0 && (SomeMayFail(resource, pattern, n - 1, path, leaf) || ElementMayFail(resource, pattern, n - 1, path, leaf))
  }

  lemma {:induction false} ElementFails(resource: Json, pattern: Json, i: nat, n: nat, path: seq<string>,
                                        leaf: LeafTest)
    requires resource.Arr? && pattern.Arr? && i < n <= |resource.items| && pattern.items != []
    requires ElementMayFail(resource, pattern, i, path, leaf)
    ensures SomeMayFail(resource, pattern, n, path, leaf)
  {
    if i < n - 1 {
      ElementFails(resource, pattern, i, n - 1, path, leaf);
    }
  }

  lemma {:induction false} FailingElement(resource: Json, pattern: Json, n: nat, path: seq<string>, leaf: LeafTest)
    returns (i: nat)
    requires resource.Arr? && pattern.Arr? && n <= |resource.items| && pattern.items != []
    requires SomeMayFail(resource, pattern, n, path, leaf)
    ensures i < n && ElementMayFail(resource, pattern, i, path, leaf)
  {
    if ElementMayFail(resource, pattern, n - 1, path, leaf) {
      i := n - 1;
    } else {
      i := FailingElement(resource, pattern, n - 1, path, leaf);
    }
  }

  /** Element `i` of the resource is the first to fail. */
  ghost predicate ElementMayFail(resource: Json, pattern: Json, i: nat, path: seq<string>, leaf: LeafTest)
    requires resource.Arr? && pattern.Arr? && i < |resource.items| && pattern.items != []
    decreases pattern, 0
  {
    && path != [] && path[0] == Itoa(i)
    && if pattern.items[0].Obj? then
         && MayFail(resource.items[i], pattern.items[0], path[1..], leaf)
         && forall j | 0 <= j < i :: MayPass(resource.items[j], pattern.items[0], leaf)
       else
         && i < |pattern.items|
         && MayFail(resource.items[i], pattern.items[i], path[1..], leaf)
         && forall j | 0 <= j < i :: MayPass(resource.items[j], pattern.items[j], leaf)
  }

  ghost predicate KeyMayFail(resource: Json, pattern: Json, key: string, path: seq<string>, leaf: LeafTest)
    requires resource.Obj? && pattern.Obj? && key in pattern.fields
    decreases pattern, 1
  {
    var name, value := RemoveAnchor(key), pattern.fields[key];
    match HandlerOf(key)
    case ConditionHandler => FailsBelow(resource, pattern, key, name, path, leaf)
    case EqualityHandler => FailsBelow(resource, pattern, key, name, path, leaf)
    case NegationHandler => name in resource.fields && path == [name]
    case ExistenceHandler =>
      && name in resource.fields
      && path == [name]
      && (Comparable(resource.fields[name], value) ==>
            forall i | 0 <= i < |resource.fields[name].items| ::
              Fails(resource.fields[name].items[i], value.items[0], leaf))
    case DefaultHandler =>
      if value == ANYTHING then
        path == [] && Member(resource, key) == Null
      else
        path != [] && path[0] == key && MayFail(Member(resource, key), value, path[1..], leaf)
  }

  ghost predicate FailsBelow(resource: Json, pattern: Json, key: string, name: string, path: seq<string>,
                             leaf: LeafTest)
    requires resource.Obj? && pattern.Obj? && key in pattern.fields
    decreases pattern, 0
  {
    && name in resource.fields
    && path != [] && path[0] == name
    && MayFail(resource.fields[name], pattern.fields[key], path[1..], leaf)
  }

  // ---------- The intended verdict ----------

  /** A map passes if some condition fails, or if all its anchors and all its plain members
      pass. */
  ghost predicate Matches(resource: Json, pattern: Json, leaf: LeafTest)
    decreases pattern, 2
  {
    match pattern
    case Obj(fields) =>
      && resource.Obj?
      && ((exists k | k in fields && IsConditionAnchor(k) :: !KeyMatches(resource, pattern, k, leaf))
          || (forall k | k in fields :: KeyMatches(resource, pattern, k, leaf)))
    case Arr(items) =>
      && resource.Arr?
      && items != []
      && if items[0].Obj? then
           forall i | 0 <= i < |resource.items| :: Matches(resource.items[i], items[0], leaf)
         else
           forall i | 0 <= i < |items| :: i < |resource.items| && Matches(resource.items[i], items[i], leaf)
    case _ => leaf(resource, pattern)
  }

  ghost predicate KeyMatches(resource: Json, pattern: Json, key: string, leaf: LeafTest)
    requires resource.Obj? && pattern.Obj? && key in pattern.fields
    decreases pattern, 1
  {
    var name, value := RemoveAnchor(key), pattern.fields[key];
    match HandlerOf(key)
    case ConditionHandler => name in resource.fields ==> Matches(resource.fields[name], value, leaf)
    case EqualityHandler => name in resource.fields ==> Matches(resource.fields[name], value, leaf)
    case NegationHandler => name !in resource.fields
    case ExistenceHandler =>
      name in resource.fields ==>
        && Comparable(resource.fields[name], value)
        && exists i | 0 <= i < |resource.fields[name].items| ::
           Matches(resource.fields[name].items[i], value.items[0], leaf)
    case DefaultHandler =>
      if value == ANYTHING then Member(resource, key) != Null else Matches(Member(resource, key), value, leaf)
  }

  // ---------- Patterns with one key ----------

  /** A plain key: what it names must match, and must not be null under "*"; where it is absent,
      maps, lists and "*" fail, and a scalar is compared with null. */
  lemma OnePlainKey(resource: Json, key: string, value: Json, leaf: LeafTest)
    requires resource.Obj? && forall mark, name | mark in {"", "^", "=", "X"} :: key != Wrapped(mark, name)
    ensures var pattern := Obj(map[key := value]);
            if key in resource.fields then
              if value == Str("*") then
                && (MayPass(resource, pattern, leaf) <==> resource.fields[key] != Null)
                && (Matches(resource, pattern, leaf) <==> resource.fields[key] != Null)
              else
                && (MayPass(resource, pattern, leaf) <==> MayPass(resource.fields[key], value, leaf))
                && (Matches(resource, pattern, leaf) <==> Matches(resource.fields[key], value, leaf))
            else
              var scalar := value != Str("*") && !value.Obj? && !value.Arr? && leaf(Null, value);
              (MayPass(resource, pattern, leaf) <==> scalar) && (Matches(resource, pattern, leaf) <==> scalar)
  {
    var pattern := Obj(map[key := value]);
    Recognised(key);
    assert forall k | k in pattern.fields :: k == key;
    assert KeyMayPass(resource, pattern, key, leaf) <==>
      if value == ANYTHING then Member(resource, key) != Null else MayPass(Member(resource, key), value, leaf);
    assert KeyMatches(resource, pattern, key, leaf) <==>
      if value == ANYTHING then Member(resource, key) != Null else Matches(Member(resource, key), value, leaf);
  }

  /** An equality asks only for members that exist. */
  lemma OneEquality(resource: Json, name: string, value: Json, leaf: LeafTest)
    requires resource.Obj?
    ensures Matches(resource, Obj(map[Wrapped("=", name) := value]), leaf)
       <==> (name in resource.fields ==> Matches(resource.fields[name], value, leaf))
  {
    OneMarkedKey(resource, '=', name, value, leaf);
  }

  /** A negation asks for a member that does not exist. */
  lemma OneNegation(resource: Json, name: string, value: Json, leaf: LeafTest)
    requires resource.Obj?
    ensures Matches(resource, Obj(map[Wrapped("X", name) := value]), leaf) <==> name !in resource.fields
  {
    OneMarkedKey(resource, 'X', name, value, leaf);
  }

  /** An existence anchor asks for a list with an element that matches the first map of its
      pattern, if the member exists. */
  lemma OneExistence(resource: Json, name: string, value: Json, leaf: LeafTest)
    requires resource.Obj?
    ensures Matches(resource, Obj(map[Wrapped("^", name) := value]), leaf)
       <==> (name in resource.fields ==>
               && resource.fields[name].Arr? && value.Arr? && value.items != [] && value.items[0].Obj?
               && exists i | 0 <= i < |resource.fields[name].items| ::
                    Matches(resource.fields[name].items[i], value.items[0], leaf))
  {
    OneMarkedKey(resource, '^', name, value, leaf);
  }

  /** A condition alone never fails, and one that does not hold lets everything beside it pass. */
  lemma OneCondition(resource: Json, name: string, value: Json, rest: map<string, Json>, leaf: LeafTest)
    requires resource.Obj?
    ensures Matches(resource, Obj(map[Wrapped("", name) := value]), leaf)
    ensures name in resource.fields && !Matches(resource.fields[name], value, leaf) ==>
              Matches(resource, Obj(rest[Wrapped("", name) := value]), leaf)
  {
    var key := Wrapped("", name);
    StrippedName("", name);
    Recognised(key);
    var alone, beside := Obj(map[key := value]), Obj(rest[key := value]);
    assert forall k | k in alone.fields :: k == key;
    assert KeyMatches(resource, alone, key, leaf) <==> KeyMatches(resource, beside, key, leaf);
    assert key in beside.fields;
  }

  lemma OneMarkedKey(resource: Json, mark: char, name: string, value: Json, leaf: LeafTest)
    requires resource.Obj? && mark in {'=', 'X', '^'}
    ensures var key := Wrapped([mark], name);
            var pattern := Obj(map[key := value]);
            && RemoveAnchor(key) == name && pattern.fields[key] == value
            && HandlerOf(key) == (if mark == '=' then EqualityHandler
                                  else if mark == 'X' then NegationHandler else ExistenceHandler)
            && (Matches(resource, pattern, leaf) <==> KeyMatches(resource, pattern, key, leaf))
  {
    var key := Wrapped([mark], name);
    StrippedName([mark], name);
    MarkRecognised(mark, key);
    WrappedParts([mark], name);
    assert key[0] == mark;
    assert forall k | k in map[key := value] :: k == key;
  }

  // ---------- What evaluation needs ----------

  /** `isStringIsReference`: a reference into the pattern itself; its resolution is not part
      of this model. */
  predicate IsReference(s: string) {
    |s| >= 3 && s[0] == '$' && s[1] == '(' && s[|s| - 1] == ')'
  }

  /** A reference is a name wrapped behind a dollar. */
  lemma ReferenceForm(s: string)
    ensures IsReference(s) <==> exists name :: s == Wrapped("$", name)
  {
    MarkRecognised('$', s);
  }

  /** No reference is evaluated. */
  ghost predicate Unreferenced(resource: Json, pattern: Json)
    decreases pattern, 1
  {
    match pattern
    case Obj(fields) => resource.Obj? ==> forall k | k in fields :: UnreferencedKey(resource, pattern, k)
    case Arr(items) =>
      resource.Arr? && items != [] ==>
        if items[0].Obj? then
          forall i | 0 <= i < |resource.items| :: Unreferenced(resource.items[i], items[0])
        else
          forall i | 0 <= i < |items| && i < |resource.items| :: Unreferenced(resource.items[i], items[i])
    case Str(s) => !IsReference(s)
    case _ => true
  }

  ghost predicate UnreferencedKey(resource: Json, pattern: Json, key: string)
    requires resource.Obj? && pattern.Obj? && key in pattern.fields
    decreases pattern, 0
  {
    var name, value := RemoveAnchor(key), pattern.fields[key];
    match HandlerOf(key)
    case NegationHandler => true
    case ExistenceHandler =>
      name in resource.fields && Comparable(resource.fields[name], value) ==>
        forall i | 0 <= i < |resource.fields[name].items| ::
          Unreferenced(resource.fields[name].items[i], value.items[0])
    case DefaultHandler => value == ANYTHING || Unreferenced(Member(resource, key), value)
    case _ => name in resource.fields ==> Unreferenced(resource.fields[name], value)
  }

  /** The pattern has no references, and no index runs out of range: positional array patterns
      are not longer than the arrays they meet and existence patterns are not empty. */
  ghost predicate Evaluable(resource: Json, pattern: Json)
    decreases pattern, 1
  {
    match pattern
    case Obj(fields) => resource.Obj? ==> forall k | k in fields :: EvaluableKey(resource, pattern, k)
    case Arr(items) =>
      resource.Arr? && items != [] ==>
        if items[0].Obj? then
          forall i | 0 <= i < |resource.items| :: Evaluable(resource.items[i], items[0])
        else
          |items| <= |resource.items| && forall i | 0 <= i < |items| :: Evaluable(resource.items[i], items[i])
    case Str(s) => !IsReference(s)
    case _ => true
  }

  ghost predicate EvaluableKey(resource: Json, pattern: Json, key: string)
    requires resource.Obj? && pattern.Obj? && key in pattern.fields
    decreases pattern, 0
  {
    var name, value := RemoveAnchor(key), pattern.fields[key];
    match HandlerOf(key)
    case ConditionHandler => name in resource.fields ==> Evaluable(resource.fields[name], value)
    case EqualityHandler => name in resource.fields ==> Evaluable(resource.fields[name], value)
    case NegationHandler => true
    case ExistenceHandler =>
      name in resource.fields && resource.fields[name].Arr? && value.Arr? ==>
        && value.items != []
        && (value.items[0].Obj? ==>
              forall i | 0 <= i < |resource.fields[name].items| ::
                Evaluable(resource.fields[name].items[i], value.items[0]))
    case DefaultHandler => value == ANYTHING || Evaluable(Member(resource, key), value)
  }

  // ---------- When the verdict does not depend on the order ----------

  /** No map of the pattern has both a condition and another kind of anchor. */
  ghost predicate Unmixed(pattern: Json) {
    match pattern
    case Obj(fields) =>
      && ((forall k | k in fields && IsAnchor(k) :: IsConditionAnchor(k))
          || (forall k | k in fields :: !IsConditionAnchor(k)))
      && (forall k | k in fields :: Unmixed(fields[k]))
    case Arr(items) => forall i | 0 <= i < |items| :: Unmixed(items[i])
    case _ => true
  }

  ghost predicate Fails(resource: Json, pattern: Json, leaf: LeafTest)
    decreases pattern, 3
  {
    exists path :: MayFail(resource, pattern, path, leaf)
  }

  ghost predicate KeyFails(resource: Json, pattern: Json, key: string, leaf: LeafTest)
    requires resource.Obj? && pattern.Obj? && key in pattern.fields
  {
    exists path :: KeyMayFail(resource, pattern, key, path, leaf)
  }

  /** For such patterns every order of evaluation gives the intended verdict. */
  lemma {:induction false} VerdictIsOrderIndependent(resource: Json, pattern: Json, leaf: LeafTest)
    requires Unmixed(pattern) && Evaluable(resource, pattern)
    ensures MayPass(resource, pattern, leaf) <==> Matches(resource, pattern, leaf)
    ensures Fails(resource, pattern, leaf) <==> !Matches(resource, pattern, leaf)
    decreases pattern, 1
  {
    match pattern
    case Obj(fields) =>
      if !resource.Obj? {
        assert MayFail(resource, pattern, [], leaf);
      } else {
        forall k | k in fields
          ensures KeyMayPass(resource, pattern, k, leaf) <==> KeyMatches(resource, pattern, k, leaf)
          ensures KeyFails(resource, pattern, k, leaf) <==> !KeyMatches(resource, pattern, k, leaf)
        {
          KeyIsOrderIndependent(resource, pattern, k, leaf);
        }
        MapVerdict(resource, pattern, leaf);
      }
    case Arr(items) =>
      if !resource.Arr? || items == [] {
        assert MayFail(resource, pattern, [], leaf);
      } else {
        ArrayIsOrderIndependent(resource, pattern, leaf);
      }
    case _ =>
      assert leaf(resource, pattern) || MayFail(resource, pattern, [], leaf);
  }

  lemma {:induction false} KeyIsOrderIndependent(resource: Json, pattern: Json, key: string, leaf: LeafTest)
    requires resource.Obj? && pattern.Obj? && key in pattern.fields
    requires Unmixed(pattern.fields[key]) && EvaluableKey(resource, pattern, key)
    ensures KeyMayPass(resource, pattern, key, leaf) <==> KeyMatches(resource, pattern, key, leaf)
    ensures KeyFails(resource, pattern, key, leaf) <==> !KeyMatches(resource, pattern, key, leaf)
    decreases pattern, 0
  {
    var name, value := RemoveAnchor(key), pattern.fields[key];
    match HandlerOf(key)
    case NegationHandler =>
      assert name in resource.fields ==> KeyMayFail(resource, pattern, key, [name], leaf);
    case ExistenceHandler =>
      if name in resource.fields {
        if Comparable(resource.fields[name], value) {
          forall i | 0 <= i < |resource.fields[name].items| {
            VerdictIsOrderIndependent(resource.fields[name].items[i], value.items[0], leaf);
          }
        }
      }
      if path :| KeyMayFail(resource, pattern, key, path, leaf) {
        assert !KeyMatches(resource, pattern, key, leaf);
      }
      if !KeyMatches(resource, pattern, key, leaf) {
        assert KeyMayFail(resource, pattern, key, [name], leaf);
      }
    case DefaultHandler =>
      if value == ANYTHING {
        assert Member(resource, key) == Null ==> KeyMayFail(resource, pattern, key, [], leaf);
      } else {
        VerdictIsOrderIndependent(Member(resource, key), value, leaf);
        if below :| MayFail(Member(resource, key), value, below, leaf) {
          assert ([key] + below)[1..] == below;
          assert KeyMayFail(resource, pattern, key, [key] + below, leaf);
        }
        if path :| KeyMayFail(resource, pattern, key, path, leaf) {
          assert MayFail(Member(resource, key), value, path[1..], leaf);
        }
      }
    case _ =>
      if path :| KeyMayFail(resource, pattern, key, path, leaf) {
        assert FailsBelow(resource, pattern, key, name, path, leaf);
        assert MayFail(resource.fields[name], value, path[1..], leaf);
        assert Fails(resource.fields[name], value, leaf);
      }
      if name in resource.fields {
        VerdictIsOrderIndependent(resource.fields[name], value, leaf);
        if below :| MayFail(resource.fields[name], value, below, leaf) {
          assert ([name] + below)[1..] == below;
          assert FailsBelow(resource, pattern, key, name, [name] + below, leaf);
          assert KeyMayFail(resource, pattern, key, [name] + below, leaf);
        }
      }
  }

  /** When the verdict on every member is settled, the verdict on a map is settled as well,
      unless both a condition and another anchor fail: then either may be evaluated first. */
  lemma MapVerdict(resource: Json, pattern: Json, leaf: LeafTest)
    requires resource.Obj? && pattern.Obj?
    requires forall k | k in pattern.fields ::
               && (KeyMayPass(resource, pattern, k, leaf) <==> KeyMatches(resource, pattern, k, leaf))
               && (KeyFails(resource, pattern, k, leaf) <==> !KeyMatches(resource, pattern, k, leaf))
    ensures MayPass(resource, pattern, leaf) <==> Matches(resource, pattern, leaf)
    ensures Fails(resource, pattern, leaf) <==>
              || !Matches(resource, pattern, leaf)
              || exists k | k in pattern.fields && IsAnchor(k) && !IsConditionAnchor(k) ::
                !KeyMatches(resource, pattern, k, leaf)
  {
    var fields := pattern.fields;
    if path :| MayFail(resource, pattern, path, leaf) {
      if k :| k in fields && IsAnchor(k) && !IsConditionAnchor(k) && KeyMayFail(resource, pattern, k, path, leaf) {
        assert KeyFails(resource, pattern, k, leaf);
      } else {
        var k :| k in fields && !IsAnchor(k) && KeyMayFail(resource, pattern, k, path, leaf);
        assert KeyFails(resource, pattern, k, leaf);
      }
    }
    if k :| k in fields && IsAnchor(k) && !IsConditionAnchor(k) && !KeyMatches(resource, pattern, k, leaf) {
      assert KeyFails(resource, pattern, k, leaf);
      var path :| KeyMayFail(resource, pattern, k, path, leaf);
      assert MayFail(resource, pattern, path, leaf);
    } else if !Matches(resource, pattern, leaf) {
      var k :| k in fields && !KeyMatches(resource, pattern, k, leaf);
      assert KeyFails(resource, pattern, k, leaf);
      var path :| KeyMayFail(resource, pattern, k, path, leaf);
      assert MayFail(resource, pattern, path, leaf);
    }
  }

  lemma {:induction false} ArrayIsOrderIndependent(resource: Json, pattern: Json, leaf: LeafTest)
    requires resource.Arr? && pattern.Arr? && pattern.items != []
    requires Unmixed(pattern) && Evaluable(resource, pattern)
    ensures MayPass(resource, pattern, leaf) <==> Matches(resource, pattern, leaf)
    ensures Fails(resource, pattern, leaf) <==> !Matches(resource, pattern, leaf)
    decreases pattern, 0
  {
    var items := pattern.items;
    var n := if items[0].Obj? then |resource.items| else |items|;
    forall i | 0 <= i < n
      ensures MayPass(resource.items[i], PatternAt(pattern, i), leaf)
              <==> Matches(resource.items[i], PatternAt(pattern, i), leaf)
      ensures Fails(resource.items[i], PatternAt(pattern, i), leaf)
              <==> !Matches(resource.items[i], PatternAt(pattern, i), leaf)
    {
      VerdictIsOrderIndependent(resource.items[i], PatternAt(pattern, i), leaf);
    }
    if path :| MayFail(resource, pattern, path, leaf) {
      var i := FailingElement(resource, pattern, |resource.items|, path, leaf);
      assert MayFail(resource.items[i], PatternAt(pattern, i), path[1..], leaf);
      assert Fails(resource.items[i], PatternAt(pattern, i), leaf);
    }
    if !Matches(resource, pattern, leaf) {
      var i := FirstMismatch(resource, pattern, n, leaf);
      assert Fails(resource.items[i], PatternAt(pattern, i), leaf);
      var below :| MayFail(resource.items[i], PatternAt(pattern, i), below, leaf);
      var path := [Itoa(i)] + below;
      assert path[1..] == below;
      ElementFails(resource, pattern, i, |resource.items|, path, leaf);
      assert MayFail(resource, pattern, path, leaf);
    }
  }

  /** The pattern for element `i`: a leading map is for all of them. */
  function PatternAt(pattern: Json, i: nat): Json
    requires pattern.Arr? && pattern.items != [] && (pattern.items[0].Obj? || i < |pattern.items|)
  {
    if pattern.items[0].Obj? then pattern.items[0] else pattern.items[i]
  }

  lemma {:induction false} FirstMismatch(resource: Json, pattern: Json, n: nat, leaf: LeafTest) returns (i: nat)
    requires resource.Arr? && pattern.Arr? && pattern.items != [] && n <= |resource.items|
    requires pattern.items[0].Obj? || n <= |pattern.items|
    requires exists i | 0 <= i < n :: !Matches(resource.items[i], PatternAt(pattern, i), leaf)
    ensures i < n && !Matches(resource.items[i], PatternAt(pattern, i), leaf)
    ensures forall j | 0 <= j < i :: Matches(resource.items[j], PatternAt(pattern, j), leaf)
  {
    i := 0;
    while Matches(resource.items[i], PatternAt(pattern, i), leaf)
      invariant i < n
      invariant forall j | 0 <= j < i :: Matches(resource.items[j], PatternAt(pattern, j), leaf)
      decreases n - i
    {
      i := i + 1;
    }
  }

  /** In a map that does mix them, the order can decide: a failing condition and a failing
      negation give both verdicts. */
  lemma MixedAnchorsAreAmbiguous()
    ensures var resource, pattern := Obj(map["a" := Int(1), "b" := Int(2)]), Obj(map["(a)" := Int(3), "X(b)" := Null]);
            MayPass(resource, pattern, (r, p) => r == p) && MayFail(resource, pattern, ["b"], (r, p) => r == p)
  {
    var resource, pattern := Obj(map["a" := Int(1), "b" := Int(2)]), Obj(map["(a)" := Int(3), "X(b)" := Null]);
    var leaf: LeafTest := (r, p) => r == p;
    assert RemoveAnchor("(a)") == "a" && RemoveAnchor("X(b)") == "b";
    assert MayFail(Int(1), Int(3), [], leaf);
    assert ["a"][1..] == [];
    assert KeyMayFail(resource, pattern, "(a)", ["a"], leaf);
    assert KeyMayFail(resource, pattern, "X(b)", ["b"], leaf);
  }
}
