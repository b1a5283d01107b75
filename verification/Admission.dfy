/** The checks a policy passes before it is stored, and what they guarantee to the matcher and
    to the overlay generator. */
module Admission {
  import opened Json
  import opened Anchors
  import opened MatcherSpec
  import OverlayLaws

  type Recogniser = string -> bool

  function MutationAnchors(): seq<Recogniser> { [IsConditionAnchor, IsAddingAnchor] }

  function ValidationAnchors(): seq<Recogniser> {
    [IsConditionAnchor, IsExistenceAnchor, IsEqualityAnchor, IsNegationAnchor]
  }

  /** At least one character, none of them a newline. */
  predicate IsName(s: string) { s != "" && '\n' !in s }

  /** The regular expression `^.?\(.+\)$`. */
  predicate LooksAnchored(key: string) {
    || (|key| >= 3 && key[0] == '(' && key[|key| - 1] == ')' && IsName(key[1..|key| - 1]))
    || (|key| >= 4 && key[0] != '\n' && key[1] == '(' && key[|key| - 1] == ')' && IsName(key[2..|key| - 1]))
  }

  predicate Supported(key: string, supported: seq<Recogniser>) {
    exists i | 0 <= i < |supported| :: supported[i](key)
  }

  /** Every key that looks anchored is a supported anchor, and existence anchors among them
      carry a list of one element. */
  ghost predicate Accepted(pattern: Json, supported: seq<Recogniser>) {
    match pattern
    case Obj(fields) =>
      && (forall k | k in fields && LooksAnchored(k) ::
            && Supported(k, supported)
            && (IsExistenceAnchor(k) ==> fields[k].Arr? && |fields[k].items| == 1))
      && (forall k | k in fields :: Accepted(fields[k], supported))
    case Arr(items) => forall i | 0 <= i < |items| :: Accepted(items[i], supported)
    case _ => true
  }

  // ---------- The check ----------

  method ValidatePattern(pattern: Json, supported: seq<Recogniser>) returns (ok: bool)
    ensures ok <==> Accepted(pattern, supported)
    decreases pattern, 1
  {
    match pattern
    case Obj(_) => ok := ValidateMap(pattern, supported);
    case Arr(_) => ok := ValidateArray(pattern, supported);
    case _ => ok := true;
  }

  method ValidateMap(pattern: Json, supported: seq<Recogniser>) returns (ok: bool)
    requires pattern.Obj?
    ensures ok <==> Accepted(pattern, supported)
    decreases pattern, 0
  {
    var fields := pattern.fields;
    var todo := fields.Keys;
    while todo != {}
      invariant todo <= fields.Keys
      invariant forall k | k in fields && k !in todo && LooksAnchored(k) ::
                  && Supported(k, supported)
                  && (IsExistenceAnchor(k) ==> fields[k].Arr? && |fields[k].items| == 1)
      invariant forall k | k in fields && k !in todo :: Accepted(fields[k], supported)
      decreases |todo|
    {
      var key :| key in todo;
      todo := todo - {key};
      if LooksAnchored(key) {
        var known := CheckAnchors(key, supported);
        if !known {
          return false;
        }
        if IsExistenceAnchor(key) {
          if !fields[key].Arr? {
            return false;
          }
          if |fields[key].items| == 0 || |fields[key].items| > 1 {
            return false;
          }
        }
      }
      var valueOk := ValidatePattern(fields[key], supported);
      if !valueOk {
        return false;
      }
    }
    ok := true;
  }

  method ValidateArray(pattern: Json, supported: seq<Recogniser>) returns (ok: bool)
    requires pattern.Arr?
    ensures ok <==> Accepted(pattern, supported)
    decreases pattern, 0
  {
    for i := 0 to |pattern.items|
      invariant forall j | 0 <= j < i :: Accepted(pattern.items[j], supported)
    {
      var elementOk := ValidatePattern(pattern.items[i], supported);
      if !elementOk {
        return false;
      }
    }
    ok := true;
  }

  method CheckAnchors(key: string, supported: seq<Recogniser>) returns (ok: bool)
    ensures ok <==> Supported(key, supported)
  {
    for i := 0 to |supported|
      invariant forall j | 0 <= j < i :: !supported[j](key)
    {
      if supported[i](key) {
        return true;
      }
    }
    ok := false;
  }

  // ---------- Which keys it accepts ----------

  /** The regular expression sees a key exactly if it is a proper name in parentheses, behind at
      most one character other than a newline. */
  lemma LooksAnchoredExactly(key: string)
    ensures LooksAnchored(key) <==> exists mark, name :: IsForm(key, mark, name)
  {
    if LooksAnchored(key) {
      if key[0] == '(' && IsName(key[1..|key| - 1]) {
        assert IsForm(key, "", key[1..|key| - 1]);
      } else {
        assert IsForm(key, [key[0]], key[2..|key| - 1]);
      }
    }
    if mark, name :| IsForm(key, mark, name) {
      WrappedParts(mark, name);
    }
  }

  ghost predicate IsForm(key: string, mark: string, name: string) {
    |mark| <= 1 && mark != "\n" && name != "" && '\n' !in name && key == Wrapped(mark, name)
  }

  /** In overlays only conditions and additions are accepted, in patterns only conditions,
      existence anchors, equalities and negations. */
  lemma SupportedExactly(key: string)
    ensures Supported(key, MutationAnchors()) <==> exists name :: key == Wrapped("", name) || key == Wrapped("+", name)
    ensures Supported(key, ValidationAnchors()) <==>
              exists name :: || key == Wrapped("", name) || key == Wrapped("^", name)
                             || key == Wrapped("=", name) || key == Wrapped("X", name)
  {
    Recognised(key);
    assert MutationAnchors()[0](key) <==> IsConditionAnchor(key);
    assert MutationAnchors()[1](key) <==> IsAddingAnchor(key);
    assert ValidationAnchors()[0](key) <==> IsConditionAnchor(key);
    assert ValidationAnchors()[1](key) <==> IsExistenceAnchor(key);
    assert ValidationAnchors()[2](key) <==> IsEqualityAnchor(key);
    assert ValidationAnchors()[3](key) <==> IsNegationAnchor(key);
  }

  /** A map with one anchored key of a proper name: which marks the two checks accept. */
  lemma OneKeyAccepted(mark: string, name: string, value: Json)
    requires |mark| <= 1 && mark != "\n" && mark != "(" && IsName(name)
    ensures Accepted(Obj(map[Wrapped(mark, name) := value]), MutationAnchors())
       <==> mark in {"", "+"} && Accepted(value, MutationAnchors())
    ensures Accepted(Obj(map[Wrapped(mark, name) := value]), ValidationAnchors())
       <==> && mark in {"", "^", "=", "X"} && (mark == "^" ==> value.Arr? && |value.items| == 1)
            && Accepted(value, ValidationAnchors())
  {
    var key := Wrapped(mark, name);
    var pattern := Obj(map[key := value]);
    assert IsForm(key, mark, name);
    LooksAnchoredExactly(key);
    SupportedExactly(key);
    MarkOfKey(mark, name);
    assert forall k | k in pattern.fields :: k == key;
    assert key in pattern.fields && pattern.fields[key] == value;
  }

  lemma MarkOfKey(mark: string, name: string)
    requires |mark| <= 1 && mark != "("
    ensures forall other, n | |other| <= 1 && other != "(" && Wrapped(other, n) == Wrapped(mark, name) :: other == mark
    ensures IsExistenceAnchor(Wrapped(mark, name)) <==> mark == "^"
  {
    WrappedParts(mark, name);
    forall other, n | |other| <= 1 && other != "(" && Wrapped(other, n) == Wrapped(mark, name) ensures other == mark {
      WrappedParts(other, n);
    }
  }

  // ---------- What it guarantees to the matcher ----------

  /** Every existence anchor of the pattern carries a list of exactly one element. */
  ghost predicate ExistenceListed(pattern: Json) {
    match pattern
    case Obj(fields) =>
      && (forall k | k in fields && IsExistenceAnchor(k) :: fields[k].Arr? && |fields[k].items| == 1)
      && (forall k | k in fields :: ExistenceListed(fields[k]))
    case Arr(items) => forall i | 0 <= i < |items| :: ExistenceListed(items[i])
    case _ => true
  }

  /** An existence anchor the regular expression does not see: its name is empty or has a
      newline. */
  ghost predicate HiddenListed(pattern: Json) {
    match pattern
    case Obj(fields) =>
      && (forall k | k in fields && IsExistenceAnchor(k) && !IsName(RemoveAnchor(k)) ::
            fields[k].Arr? && |fields[k].items| == 1)
      && (forall k | k in fields :: HiddenListed(fields[k]))
    case Arr(items) => forall i | 0 <= i < |items| :: HiddenListed(items[i])
    case _ => true
  }

  lemma MarkedLooksAnchored(mark: char, key: string)
    requires IsMarked(mark, key) && mark != '(' && mark != '\n'
    ensures LooksAnchored(key) <==> IsName(key[2..|key| - 1])
  {
  }

  /** In a pattern that passed the check every existence anchor carries a list of one element
      exactly when those hidden from the check do. `AcceptedNeverMisleads` says when the others
      matter. */
  lemma {:induction false} AcceptedExistenceIsListed(pattern: Json)
    requires Accepted(pattern, ValidationAnchors())
    ensures ExistenceListed(pattern) <==> HiddenListed(pattern)
  {
    match pattern
    case Obj(fields) =>
      forall k | k in fields
        ensures ExistenceListed(fields[k]) <==> HiddenListed(fields[k])
        ensures IsExistenceAnchor(k) && IsName(RemoveAnchor(k)) ==> fields[k].Arr? && |fields[k].items| == 1
      {
        AcceptedExistenceIsListed(fields[k]);
        if IsExistenceAnchor(k) {
          MarkedLooksAnchored('^', k);
        }
      }
    case Arr(items) =>
      forall i | 0 <= i < |items| ensures ExistenceListed(items[i]) <==> HiddenListed(items[i]) {
        AcceptedExistenceIsListed(items[i]);
      }
    case _ =>
  }

  lemma HiddenExistenceSlipsThrough()
    ensures var pattern := Obj(map["^()" := Str("x")]);
            && Accepted(pattern, ValidationAnchors()) && !ExistenceListed(pattern)
            && !NeverMisled(Obj(map["" := Arr([])]), pattern)
  {
    var key := "^()";
    assert HandlerOf(key).ExistenceHandler? && RemoveAnchor(key) == "";
    assert !NeverMisledAt(Obj(map["" := Arr([])]), Obj(map[key := Str("x")]), key);
    assert key[2..2] == "";
    assert IsExistenceAnchor(key) && key in map[key := Str("x")];
    MarkedLooksAnchored('^', key);
  }

  /** No reference in the pattern, and positional array patterns are no longer than the arrays
      they meet. */
  ghost predicate LongEnough(resource: Json, pattern: Json)
    decreases pattern, 1
  {
    match pattern
    case Obj(fields) => resource.Obj? ==> forall k | k in fields :: LongEnoughKey(resource, pattern, k)
    case Arr(items) =>
      resource.Arr? && items != [] ==>
        if items[0].Obj? then
          forall i | 0 <= i < |resource.items| :: LongEnough(resource.items[i], items[0])
        else
          |items| <= |resource.items| && forall i | 0 <= i < |items| :: LongEnough(resource.items[i], items[i])
    case Str(s) => !IsReference(s)
    case _ => true
  }

  ghost predicate LongEnoughKey(resource: Json, pattern: Json, key: string)
    requires resource.Obj? && pattern.Obj? && key in pattern.fields
    decreases pattern, 0
  {
    var name, value := RemoveAnchor(key), pattern.fields[key];
    match HandlerOf(key)
    case ConditionHandler => LongEnough(Member(resource, name), value)
    case EqualityHandler => LongEnough(Member(resource, name), value)
    case NegationHandler => true
    case ExistenceHandler =>
      Comparable(Member(resource, name), value) ==>
        forall i | 0 <= i < |Member(resource, name).items| ::
          LongEnough(Member(resource, name).items[i], value.items[0])
    case DefaultHandler => value == ANYTHING || LongEnough(Member(resource, key), value)
  }

  /** Matching never gets, at any recursive call, to an existence anchor on a list whose pattern
      is no list, or an empty one. The recursion is that of the matcher, without its early
      exits. */
  ghost predicate NeverMisled(resource: Json, pattern: Json)
    decreases pattern, 1
  {
    match pattern
    case Obj(fields) => resource.Obj? ==> forall k | k in fields :: NeverMisledAt(resource, pattern, k)
    case Arr(items) =>
      resource.Arr? && items != [] ==>
        if items[0].Obj? then
          forall i | 0 <= i < |resource.items| :: NeverMisled(resource.items[i], items[0])
        else
          forall i | 0 <= i < |items| && i < |resource.items| :: NeverMisled(resource.items[i], items[i])
    case _ => true
  }

  ghost predicate NeverMisledAt(resource: Json, pattern: Json, key: string)
    requires resource.Obj? && pattern.Obj? && key in pattern.fields
    decreases pattern, 0
  {
    var name, value := RemoveAnchor(key), pattern.fields[key];
    match HandlerOf(key)
    case NegationHandler => true
    case ExistenceHandler =>
      name in resource.fields && resource.fields[name].Arr? ==>
        && value.Arr? && value.items != []
        && (value.items[0].Obj? ==>
              forall i | 0 <= i < |resource.fields[name].items| ::
                NeverMisled(resource.fields[name].items[i], value.items[0]))
    case DefaultHandler => value == ANYTHING || NeverMisled(Member(resource, key), value)
    case _ => name in resource.fields ==> NeverMisled(resource.fields[name], value)
  }

  /** So a pattern whose existence anchors are all listed misleads the matcher on no resource. */
  lemma {:induction false} ListedNeverMisleads(resource: Json, pattern: Json)
    requires ExistenceListed(pattern)
    ensures NeverMisled(resource, pattern)
    decreases pattern
  {
    match pattern
    case Obj(fields) =>
      if resource.Obj? {
        forall k | k in fields ensures NeverMisledAt(resource, pattern, k) {
          var name, value := RemoveAnchor(k), fields[k];
          assert ExistenceListed(value);
          match HandlerOf(k)
          case NegationHandler =>
          case ExistenceHandler =>
            assert ExistenceListed(value.items[0]);
            if name in resource.fields && resource.fields[name].Arr? {
              forall i | 0 <= i < |resource.fields[name].items| {
                ListedNeverMisleads(resource.fields[name].items[i], value.items[0]);
              }
            }
          case DefaultHandler => ListedNeverMisleads(Member(resource, k), value);
          case _ =>
            if name in resource.fields {
              ListedNeverMisleads(resource.fields[name], value);
            }
        }
      }
    case Arr(items) =>
      if resource.Arr? && items != [] {
        forall i | 0 <= i < |resource.items| && (items[0].Obj? || i < |items|)
          ensures NeverMisled(resource.items[i], PatternAt(pattern, i))
        {
          ListedNeverMisleads(resource.items[i], PatternAt(pattern, i));
        }
      }
    case _ =>
  }

  /** Unless it is misled, the check of array lengths is all that is left to ask before
      matching. */
  lemma {:induction false} EvaluableUnlessMisled(resource: Json, pattern: Json)
    requires NeverMisled(resource, pattern) && LongEnough(resource, pattern)
    ensures Evaluable(resource, pattern)
    decreases pattern, 1
  {
    match pattern
    case Obj(fields) =>
      if resource.Obj? {
        forall k | k in fields ensures EvaluableKey(resource, pattern, k) {
          EvaluableKeyUnlessMisled(resource, pattern, k);
        }
      }
    case Arr(items) =>
      if resource.Arr? && items != [] {
        var n := if items[0].Obj? then |resource.items| else |items|;
        forall i | 0 <= i < n ensures Evaluable(resource.items[i], PatternAt(pattern, i)) {
          EvaluableUnlessMisled(resource.items[i], PatternAt(pattern, i));
        }
      }
    case _ =>
  }

  lemma {:induction false} EvaluableKeyUnlessMisled(resource: Json, pattern: Json, key: string)
    requires resource.Obj? && pattern.Obj? && key in pattern.fields
    requires NeverMisledAt(resource, pattern, key) && LongEnoughKey(resource, pattern, key)
    ensures EvaluableKey(resource, pattern, key)
    decreases pattern, 0
  {
    var name, value := RemoveAnchor(key), pattern.fields[key];
    match HandlerOf(key)
    case NegationHandler =>
    case ExistenceHandler =>
      if name in resource.fields && Comparable(resource.fields[name], value) {
        forall i | 0 <= i < |resource.fields[name].items| {
          EvaluableUnlessMisled(resource.fields[name].items[i], value.items[0]);
        }
      }
    case DefaultHandler =>
      if value != ANYTHING {
        EvaluableUnlessMisled(Member(resource, key), value);
      }
    case _ =>
      if name in resource.fields {
        EvaluableUnlessMisled(resource.fields[name], value);
      }
  }

  lemma ListedIsEvaluable(resource: Json, pattern: Json)
    requires ExistenceListed(pattern) && LongEnough(resource, pattern)
    ensures Evaluable(resource, pattern)
  {
    ListedNeverMisleads(resource, pattern);
    EvaluableUnlessMisled(resource, pattern);
  }

  // ---------- Which patterns mislead ----------

  /** Somewhere the matcher can get to, there is an existence anchor that carries no list or an
      empty one; with `hidden`, one that the regular expression does not see. What is below a
      negation, and the existence patterns that are not the first of their list, it never reads. */
  ghost predicate Leads(pattern: Json, hidden: bool)
    decreases pattern, 1
  {
    match pattern
    case Obj(fields) => exists k | k in fields :: LeadsAt(pattern, k, hidden)
    case Arr(items) =>
      && items != []
      && if items[0].Obj? then Leads(items[0], hidden) else exists i | 0 <= i < |items| :: Leads(items[i], hidden)
    case _ => false
  }

  ghost predicate LeadsAt(pattern: Json, key: string, hidden: bool)
    requires pattern.Obj? && key in pattern.fields
    decreases pattern, 0
  {
    var value := pattern.fields[key];
    match HandlerOf(key)
    case NegationHandler => false
    case ExistenceHandler =>
      if !value.Arr? || value.items == [] then hidden ==> !IsName(RemoveAnchor(key))
      else value.items[0].Obj? && Leads(value.items[0], hidden)
    case DefaultHandler => value != ANYTHING && Leads(value, hidden)
    case _ => Leads(value, hidden)
  }

  /** A resource on which the matcher is misled. */
  lemma {:induction false} Misleading(pattern: Json) returns (resource: Json)
    requires Leads(pattern, false)
    ensures !NeverMisled(resource, pattern)
    decreases pattern, 1
  {
    match pattern
    case Obj(fields) =>
      var k :| k in fields && LeadsAt(pattern, k, false);
      resource := MisleadingMap(pattern, k);
    case Arr(items) =>
      var i: nat :| i < |items| && (items[0].Obj? ==> i == 0) && Leads(items[i], false);
      var sub := Misleading(items[i]);
      resource := Arr(seq(i + 1, j => if j == i then sub else Null));
      assert resource.items[i] == sub;
  }

  lemma {:induction false} MisleadingMap(pattern: Json, key: string) returns (resource: Json)
    requires pattern.Obj? && key in pattern.fields && LeadsAt(pattern, key, false)
    ensures resource.Obj? && !NeverMisledAt(resource, pattern, key)
    decreases pattern, 0
  {
    var value := pattern.fields[key];
    var name := if HandlerOf(key).DefaultHandler? then key else RemoveAnchor(key);
    if !HandlerOf(key).ExistenceHandler? {
      var sub := Misleading(value);
      resource := Obj(map[name := sub]);
    } else if !value.Arr? || value.items == [] {
      resource := Obj(map[name := Arr([])]);
    } else {
      var sub := Misleading(value.items[0]);
      resource := Obj(map[name := Arr([sub])]);
      assert resource.fields[name].items[0] == sub;
    }
  }

  /** On the others it is not misled by any resource. */
  lemma {:induction false} MisledMeansLeads(resource: Json, pattern: Json)
    requires !NeverMisled(resource, pattern)
    ensures Leads(pattern, false)
    decreases pattern, 1
  {
    match pattern
    case Obj(fields) =>
      var k :| k in fields && !NeverMisledAt(resource, pattern, k);
      MisledAtMeansLeads(resource, pattern, k);
    case Arr(items) =>
      var i :| 0 <= i < |resource.items| && (items[0].Obj? || i < |items|)
        && !NeverMisled(resource.items[i], PatternAt(pattern, i));
      MisledMeansLeads(resource.items[i], PatternAt(pattern, i));
  }

  lemma {:induction false} MisledAtMeansLeads(resource: Json, pattern: Json, key: string)
    requires resource.Obj? && pattern.Obj? && key in pattern.fields && !NeverMisledAt(resource, pattern, key)
    ensures LeadsAt(pattern, key, false)
    decreases pattern, 0
  {
    var name, value := RemoveAnchor(key), pattern.fields[key];
    if HandlerOf(key).DefaultHandler? {
      MisledMeansLeads(Member(resource, key), value);
    } else if !HandlerOf(key).ExistenceHandler? {
      MisledMeansLeads(resource.fields[name], value);
    } else if value.Arr? && value.items != [] {
      var i :| 0 <= i < |resource.fields[name].items| && !NeverMisled(resource.fields[name].items[i], value.items[0]);
      MisledMeansLeads(resource.fields[name].items[i], value.items[0]);
    }
  }

  ghost predicate MisleadsNothing(pattern: Json) {
    forall resource :: NeverMisled(resource, pattern)
  }

  /** The matcher is never misled by a pattern exactly when nothing it gets to leads there. */
  lemma MisleadsNothingExactly(pattern: Json)
    ensures MisleadsNothing(pattern) <==> !Leads(pattern, false)
  {
    if Leads(pattern, false) {
      var resource := Misleading(pattern);
    }
    if resource :| !NeverMisled(resource, pattern) {
      MisledMeansLeads(resource, pattern);
    }
  }

  /** In a pattern that passed the check only the hidden anchors can do that. */
  lemma {:induction false} AcceptedLeadsHidden(pattern: Json)
    requires Accepted(pattern, ValidationAnchors())
    ensures Leads(pattern, false) <==> Leads(pattern, true)
  {
    match pattern
    case Obj(fields) =>
      forall k | k in fields ensures LeadsAt(pattern, k, false) <==> LeadsAt(pattern, k, true) {
        var value := fields[k];
        AcceptedLeadsHidden(value);
        if IsExistenceAnchor(k) {
          MarkedLooksAnchored('^', k);
          if value.Arr? && value.items != [] {
            AcceptedLeadsHidden(value.items[0]);
          }
        }
      }
    case Arr(items) =>
      forall i | 0 <= i < |items| ensures Leads(items[i], false) <==> Leads(items[i], true) {
        AcceptedLeadsHidden(items[i]);
      }
    case _ =>
  }

  /** From admission to matching: an accepted pattern misleads the matcher on no resource exactly
      when no hidden existence anchor leads there, and then short arrays are all that can still
      stop it. */
  lemma AcceptedNeverMisleads(pattern: Json)
    requires Accepted(pattern, ValidationAnchors())
    ensures MisleadsNothing(pattern) <==> !Leads(pattern, true)
    ensures HiddenListed(pattern) ==> !Leads(pattern, true)
    ensures !Leads(pattern, true) ==>
              forall resource | LongEnough(resource, pattern) :: Evaluable(resource, pattern)
  {
    AcceptedLeadsHidden(pattern);
    MisleadsNothingExactly(pattern);
    if HiddenListed(pattern) {
      AcceptedExistenceIsListed(pattern);
      forall resource ensures NeverMisled(resource, pattern) {
        ListedNeverMisleads(resource, pattern);
      }
    }
    if !Leads(pattern, true) {
      forall resource | LongEnough(resource, pattern) ensures Evaluable(resource, pattern) {
        EvaluableUnlessMisled(resource, pattern);
      }
    }
  }

  /** Nothing below a negation misleads. */
  lemma NegationIsHarmless(name: string, inner: Json)
    requires IsName(name) && Accepted(inner, ValidationAnchors())
    ensures var pattern := Obj(map[Wrapped("X", name) := inner]);
            Accepted(pattern, ValidationAnchors()) && MisleadsNothing(pattern)
  {
    var key := Wrapped("X", name);
    var pattern := Obj(map[key := inner]);
    OneKeyAccepted("X", name, inner);
    OneMarkedKey(Obj(map[]), 'X', name, inner, (x, y) => true);
    assert forall k | k in pattern.fields :: k == key;
    MisleadsNothingExactly(pattern);
  }

  /** A hidden anchor below a negation is accepted and harmless. */
  lemma HiddenBelowNegationIsHarmless()
    ensures var pattern := Obj(map["X(a)" := Obj(map["^()" := Str("x")])]);
            Accepted(pattern, ValidationAnchors()) && !HiddenListed(pattern) && MisleadsNothing(pattern)
  {
    var inner := Obj(map["^()" := Str("x")]);
    assert Wrapped("X", "a") == "X(a)";
    HiddenIsAccepted(inner);
    NegationIsHarmless("a", inner);
    assert !HiddenListed(Obj(map["X(a)" := inner]).fields["X(a)"]);
  }

  lemma HiddenIsAccepted(inner: Json)
    requires inner == Obj(map["^()" := Str("x")])
    ensures Accepted(inner, ValidationAnchors()) && !HiddenListed(inner)
  {
    var key := "^()";
    assert key[2..2] == "" && IsExistenceAnchor(key) && key in inner.fields;
    MarkedLooksAnchored('^', key);
  }

  // ---------- The one element of the list ----------

  /** On a resource that holds the list, an accepted existence anchor with a proper name takes
      its handler to the invalid-pattern branch exactly when the one element is not a map, and
      then it fails whatever the list holds; otherwise whether it passes depends on the elements
      of the list. `Matcher.HandleExistence` says what that branch returns. */
  lemma ListOfScalarsNeverMatches(resource: Json, pattern: Json, key: string, leaf: LeafTest)
    requires Accepted(pattern, ValidationAnchors()) && resource.Obj? && pattern.Obj? && key in pattern.fields
    requires IsExistenceAnchor(key) && IsName(RemoveAnchor(key))
    requires RemoveAnchor(key) in resource.fields && resource.fields[RemoveAnchor(key)].Arr?
    ensures pattern.fields[key].Arr? && |pattern.fields[key].items| == 1
    ensures InvalidElement(resource, pattern, key) <==> !pattern.fields[key].items[0].Obj?
    ensures InvalidElement(resource, pattern, key) ==>
              && !KeyMayPass(resource, pattern, key, leaf)
              && BlockedAt(resource, pattern, key, leaf)
              && forall path :: KeyMayFail(resource, pattern, key, path, leaf) <==> path == [RemoveAnchor(key)]
    ensures !InvalidElement(resource, pattern, key) ==>
              (KeyMayPass(resource, pattern, key, leaf) <==>
                 exists i | 0 <= i < |resource.fields[RemoveAnchor(key)].items| ::
                   MayPass(resource.fields[RemoveAnchor(key)].items[i], pattern.fields[key].items[0], leaf))
  {
    MarkedLooksAnchored('^', key);
    assert HandlerOf(key).ExistenceHandler?;
  }

  ghost predicate ConditionMayFail(resource: Json, pattern: Json, leaf: LeafTest)
    requires resource.Obj? && pattern.Obj?
  {
    exists k, path | k in pattern.fields && IsConditionAnchor(k) :: KeyMayFail(resource, pattern, k, path, leaf)
  }

  /** Unless a condition may fail on the way, the matcher has to get past an invalid element. */
  ghost predicate Blocked(resource: Json, pattern: Json, leaf: LeafTest)
    decreases pattern, 1
  {
    match pattern
    case Obj(fields) =>
      resource.Obj? ==>
        !ConditionMayFail(resource, pattern, leaf) && exists k | k in fields :: BlockedAt(resource, pattern, k, leaf)
    case Arr(items) =>
      resource.Arr? && items != [] ==>
        exists i | 0 <= i < |resource.items| && (items[0].Obj? || i < |items|) ::
          Blocked(resource.items[i], if items[0].Obj? then items[0] else items[i], leaf)
    case _ => false
  }

  ghost predicate BlockedAt(resource: Json, pattern: Json, key: string, leaf: LeafTest)
    requires resource.Obj? && pattern.Obj? && key in pattern.fields
    decreases pattern, 0
  {
    var name, value := RemoveAnchor(key), pattern.fields[key];
    match HandlerOf(key)
    case NegationHandler => name in resource.fields
    case ExistenceHandler =>
      && name in resource.fields
      && (Comparable(resource.fields[name], value) ==>
            forall i | 0 <= i < |resource.fields[name].items| ::
              Blocked(resource.fields[name].items[i], value.items[0], leaf))
    case DefaultHandler => value != ANYTHING && Blocked(Member(resource, key), value, leaf)
    case _ => name in resource.fields && Blocked(resource.fields[name], value, leaf)
  }

  /** Then no map order lets the resource pass; an invalid element blocks the map it is in. */
  lemma {:induction false} BlockedNeverPasses(resource: Json, pattern: Json, leaf: LeafTest)
    requires Blocked(resource, pattern, leaf)
    ensures !MayPass(resource, pattern, leaf)
    decreases pattern, 1
  {
    match pattern
    case Obj(fields) =>
      if resource.Obj? {
        var k :| k in fields && BlockedAt(resource, pattern, k, leaf);
        BlockedKeyNeverPasses(resource, pattern, k, leaf);
      }
    case Arr(items) =>
      if resource.Arr? && items != [] {
        var i :| 0 <= i < |resource.items| && (items[0].Obj? || i < |items|)
          && Blocked(resource.items[i], PatternAt(pattern, i), leaf);
        BlockedNeverPasses(resource.items[i], PatternAt(pattern, i), leaf);
      }
    case _ =>
  }

  lemma {:induction false} BlockedKeyNeverPasses(resource: Json, pattern: Json, key: string, leaf: LeafTest)
    requires resource.Obj? && pattern.Obj? && key in pattern.fields && BlockedAt(resource, pattern, key, leaf)
    ensures !KeyMayPass(resource, pattern, key, leaf)
    decreases pattern, 0
  {
    var name, value := RemoveAnchor(key), pattern.fields[key];
    match HandlerOf(key)
    case NegationHandler =>
    case ExistenceHandler =>
      if Comparable(resource.fields[name], value) {
        forall i | 0 <= i < |resource.fields[name].items|
          ensures !MayPass(resource.fields[name].items[i], value.items[0], leaf)
        {
          BlockedNeverPasses(resource.fields[name].items[i], value.items[0], leaf);
        }
      }
    case DefaultHandler => BlockedNeverPasses(Member(resource, key), value, leaf);
    case _ => BlockedNeverPasses(resource.fields[name], value, leaf);
  }

  /** The check accepts a pattern whatever scalar the one element is. */
  lemma ElementIsNotChecked(pattern: Json, key: string, element: Json, supported: seq<Recogniser>)
    requires Accepted(pattern, supported) && pattern.Obj? && key in pattern.fields
    requires !element.Obj? && !element.Arr?
    ensures Accepted(Obj(pattern.fields[key := Arr([element])]), supported)
  {
    var list := Arr([element]);
    assert Accepted(list.items[0], supported);
  }

  // ---------- What it guarantees to the overlay generator ----------

  /** The two strippers disagree on a key exactly when it is a negation or a `$()` wrapper. */
  lemma StrippersAgree(key: string)
    ensures RemoveAnchor(key) == RawKey(key) <==> !IsMarked('X', key) && !IsMarked('$', key)
  {
    if IsMarked('X', key) || IsMarked('$', key) {
      assert |RemoveAnchor(key)| != |RawKey(key)|;
    }
  }

  /** On a key of an accepted overlay with a proper name they agree, and the key is plain, a
      condition or an addition. */
  lemma AcceptedOverlayKey(overlay: Json, key: string)
    requires overlay.Obj? && key in overlay.fields && Accepted(overlay, MutationAnchors())
    requires forall mark | IsMarked(mark, key) :: IsName(key[2..|key| - 1])
    ensures RemoveAnchor(key) == RawKey(key)
    ensures IsConditionAnchor(key) || IsAddingAnchor(key) || RemoveAnchor(key) == key
  {
    StrippersAgree(key);
    if |key| >= 3 && key[1] == '(' && key[|key| - 1] == ')' && key[0] in {'X', '$', '^', '='} {
      assert IsMarked(key[0], key);
      MarkedLooksAnchored(key[0], key);
      assert Supported(key, MutationAnchors());
      var i :| 0 <= i < 2 && MutationAnchors()[i](key);
      assert i == 0 || i == 1;
    }
  }

  /** Every anchor-like key has a name that is not empty and has no newline. */
  ghost predicate ProperlyNamed(overlay: Json) {
    match overlay
    case Obj(fields) =>
      && (forall k, mark | k in fields && IsMarked(mark, k) :: IsName(k[2..|k| - 1]))
      && (forall k | k in fields :: ProperlyNamed(fields[k]))
    case Arr(items) => forall i | 0 <= i < |items| :: ProperlyNamed(items[i])
    case _ => true
  }

  /** So the keys of an accepted overlay are what the laws about running an overlay twice ask
      for, at any depth. */
  lemma {:induction false} AcceptedIsPlain(overlay: Json)
    requires Accepted(overlay, MutationAnchors()) && ProperlyNamed(overlay)
    ensures OverlayLaws.PlainKeys(overlay)
  {
    match overlay
    case Obj(fields) =>
      forall k | k in fields
        ensures RawKey(k) == RemoveAnchor(k) && (IsConditionAnchor(k) || IsAddingAnchor(k) || RemoveAnchor(k) == k)
        ensures OverlayLaws.PlainKeys(fields[k])
      {
        AcceptedOverlayKey(overlay, k);
        AcceptedIsPlain(fields[k]);
      }
    case Arr(items) =>
      forall i | 0 <= i < |items| {
        AcceptedIsPlain(items[i]);
      }
    case _ =>
  }

  lemma AcceptedIsTame(overlay: Json)
    requires Accepted(overlay, MutationAnchors()) && ProperlyNamed(overlay) && OverlayLaws.Shaped(overlay)
    ensures OverlayLaws.Tame(overlay)
  {
    AcceptedIsPlain(overlay);
  }

  /** Without a proper name a negation or a wrapper slips through, and they disagree. */
  lemma HiddenNegationSlipsThrough()
    ensures var overlay := Obj(map["X()" := Int(1)]);
            Accepted(overlay, MutationAnchors()) && RemoveAnchor("X()") != RawKey("X()")
  {
    var key := "X()";
    assert key[2..2] == "";
    MarkedLooksAnchored('X', key);
    StrippersAgree(key);
  }
}
