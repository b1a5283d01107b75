/** The condition check that runs before an overlay is applied. `leaf` stands for
    `validate.ValidateValueWithPattern` on scalars. */
module OverlayCondition {
  import opened Json
  import opened Anchors
  import opened OverlaySpec

  // ---------- What the conditions mean ----------

  /** A resource value agrees with the value of a condition anchor. */
  ghost predicate Agrees(resource: Json, overlay: Json, leaf: LeafTest) {
    && SameType(resource, overlay)
    && match overlay
       case Obj(fields) =>
         forall k | k in fields ::
           RemoveAnchor(k) in resource.fields && Agrees(resource.fields[RemoveAnchor(k)], fields[k], leaf)
       case Arr(items) =>
         forall i, j | 0 <= i < |items| && 0 <= j < |resource.items| :: Agrees(resource.items[j], items[i], leaf)
       case _ => leaf(resource, overlay)
  }

  /** Every condition anchored in the overlay holds of the resource; in an array of maps it is
      enough that one element meets one overlay element. */
  ghost predicate Meets(resource: Json, overlay: Json, leaf: LeafTest)
    decreases overlay, 2
  {
    HasNestedAnchors(overlay) ==>
      && SameType(resource, overlay)
      && match overlay
         case Obj(_) => MeetsMap(resource, overlay, leaf)
         case Arr(items) =>
           items != [] ==>
             && resource.items != []
             && SameType(resource.items[0], items[0])
             && if items[0].Obj? then
                  exists i, j | 0 <= i < |items| && 0 <= j < |resource.items| ::
                    MeetsMap(resource.items[j], items[i], leaf)
                else
                  forall i | 0 <= i < |items| :: i < |resource.items| && Meets(resource.items[i], items[i], leaf)
         case _ => true
  }

  ghost predicate MeetsMap(resource: Json, overlay: Json, leaf: LeafTest)
    decreases overlay, 1
  {
    && resource.Obj? && overlay.Obj?
    && (forall k | k in overlay.fields :: MeetsKey(resource, overlay, k, leaf))
  }

  ghost predicate MeetsKey(resource: Json, overlay: Json, key: string, leaf: LeafTest)
    requires resource.Obj? && overlay.Obj? && key in overlay.fields
    decreases overlay, 0
  {
    if IsConditionAnchor(key) then
      RemoveAnchor(key) in resource.fields && Agrees(resource.fields[RemoveAnchor(key)], overlay.fields[key], leaf)
    else if IsAddingAnchor(key) then
      true
    else if key in resource.fields then
      Meets(resource.fields[key], overlay.fields[key], leaf)
    else
      !HasNestedAnchors(overlay.fields[key])
  }

  /** No array on the way is too short or mixed, which would make an index or a type assertion
      of the check panic. */
  ghost predicate Safe(resource: Json, overlay: Json)
    decreases overlay
  {
    HasNestedAnchors(overlay) && SameType(resource, overlay) ==>
      match overlay
      case Obj(fields) => SafeMap(resource, overlay)
      case Arr(items) =>
        items != [] ==>
          && resource.items != []
          && (SameType(resource.items[0], items[0]) ==>
                if items[0].Obj? then
                  && (forall i | 0 <= i < |items| :: items[i].Obj?)
                  && (forall j | 0 <= j < |resource.items| :: resource.items[j].Obj?)
                  && (forall i, j | 0 <= i < |items| && 0 <= j < |resource.items| ::
                      SafeMap(resource.items[j], items[i]))
                else
                  |items| <= |resource.items| && forall i | 0 <= i < |items| :: Safe(resource.items[i], items[i]))
      case _ => true
  }

  ghost predicate SafeMap(resource: Json, overlay: Json)
    requires resource.Obj? && overlay.Obj?
    decreases overlay, 0
  {
    forall k | k in overlay.fields && !IsConditionAnchor(k) && !IsAddingAnchor(k) && k in resource.fields ::
      Safe(resource.fields[k], overlay.fields[k])
  }

  // ---------- The check ----------

  /** `Panic` is an index out of range or a failed type assertion in the check itself. */
  datatype Check = Met | Unmet | Panic

  method MeetConditions(resource: Json, overlay: Json, leaf: LeafTest) returns (res: Check)
    ensures res.Panic? ==> !Safe(resource, overlay)
    ensures !res.Panic? ==> (res.Met? <==> Meets(resource, overlay, leaf))
  {
    res := CheckConditions(resource, overlay, leaf);
  }

  method CheckConditions(resource: Json, overlay: Json, leaf: LeafTest) returns (res: Check)
    ensures res.Panic? ==> !Safe(resource, overlay)
    ensures !res.Panic? ==> (res.Met? <==> Meets(resource, overlay, leaf))
    decreases overlay, 2
  {
    if !HasNestedAnchors(overlay) {
      return Met;
    }
    if !SameType(resource, overlay) {
      return Unmet;
    }
    match overlay
    case Obj(_) => res := CheckConditionOnMap(resource, overlay, leaf);
    case Arr(_) => res := CheckConditionOnArray(resource, overlay, leaf);
    case _ => res := Met;
  }

  method CheckConditionOnMap(resource: Json, overlay: Json, leaf: LeafTest) returns (res: Check)
    requires resource.Obj? && overlay.Obj?
    ensures res.Panic? ==> !SafeMap(resource, overlay)
    ensures !res.Panic? ==> (res.Met? <==> MeetsMap(resource, overlay, leaf))
    decreases overlay, 1
  {
    var anchors, elements := GetAnchorAndElementsFromMap(overlay);
    assert forall k | k in overlay.fields && k !in anchors && k !in elements :: MeetsKey(resource, overlay, k, leaf);
    var ok := ValidateConditionAnchorMap(resource, overlay, anchors, leaf);
    if !ok {
      return Unmet;
    }
    res := ValidateNonAnchorOverlayMap(resource, overlay, elements, leaf);
  }

  /** The keys of an overlay map that are conditions, and those that are neither conditions
      nor additions. */
  method GetAnchorAndElementsFromMap(overlay: Json) returns (anchors: set<string>, elements: set<string>)
    requires overlay.Obj?
    ensures anchors == set k | k in overlay.fields && IsConditionAnchor(k)
    ensures elements == set k | k in overlay.fields && !IsConditionAnchor(k) && !IsAddingAnchor(k)
  {
    anchors, elements := {}, {};
    var todo := overlay.fields.Keys;
    while todo != {}
      invariant todo <= overlay.fields.Keys
      invariant anchors == set k | k in overlay.fields && k !in todo && IsConditionAnchor(k)
      invariant elements == set k | k in overlay.fields && k !in todo && !IsConditionAnchor(k) && !IsAddingAnchor(k)
      decreases |todo|
    {
      var key :| key in todo;
      todo := todo - {key};
      if IsConditionAnchor(key) {
        anchors := anchors + {key};
      } else if !IsAddingAnchor(key) {
        elements := elements + {key};
      }
    }
  }

  method ValidateConditionAnchorMap(resource: Json, overlay: Json, anchors: set<string>, leaf: LeafTest)
    returns (ok: bool)
    requires resource.Obj? && overlay.Obj?
    requires anchors <= overlay.fields.Keys && forall k | k in anchors :: IsConditionAnchor(k)
    ensures ok <==> forall k | k in anchors :: MeetsKey(resource, overlay, k, leaf)
    decreases overlay, 0
  {
    var todo := anchors;
    while todo != {}
      invariant todo <= anchors
      invariant forall k | k in anchors && k !in todo :: MeetsKey(resource, overlay, k, leaf)
      decreases |todo|
    {
      var key :| key in todo;
      todo := todo - {key};
      var noAnchorKey := RemoveAnchor(key);
      if noAnchorKey !in resource.fields {
        assert !MeetsKey(resource, overlay, key, leaf);
        return false;
      }
      var agrees := CompareOverlay(resource.fields[noAnchorKey], overlay.fields[key], leaf);
      if !agrees {
        assert !MeetsKey(resource, overlay, key, leaf);
        return false;
      }
    }
    ok := true;
  }

  method CompareOverlay(resource: Json, overlay: Json, leaf: LeafTest) returns (ok: bool)
    ensures ok <==> Agrees(resource, overlay, leaf)
    decreases overlay
  {
    if !SameType(resource, overlay) {
      return false;
    }
    match overlay
    case Obj(fields) =>
      var todo := fields.Keys;
      while todo != {}
        invariant todo <= fields.Keys
        invariant forall k | k in fields && k !in todo ::
                    RemoveAnchor(k) in resource.fields && Agrees(resource.fields[RemoveAnchor(k)], fields[k], leaf)
        decreases |todo|
      {
        var key :| key in todo;
        todo := todo - {key};
        var noAnchorKey := RemoveAnchor(key);
        if noAnchorKey !in resource.fields {
          return false;
        }
        var agrees := CompareOverlay(resource.fields[noAnchorKey], fields[key], leaf);
        if !agrees {
          return false;
        }
      }
      ok := true;
    case Arr(items) =>
      for i := 0 to |items|
        invariant forall i', j | 0 <= i' < i && 0 <= j < |resource.items| :: Agrees(resource.items[j], items[i'], leaf)
      {
        for j := 0 to |resource.items|
          invariant forall j' | 0 <= j' < j :: Agrees(resource.items[j'], items[i], leaf)
        {
          var agrees := CompareOverlay(resource.items[j], items[i], leaf);
          if !agrees {
            return false;
          }
        }
      }
      ok := true;
    case _ =>
      ok := leaf(resource, overlay);
  }

  method ValidateNonAnchorOverlayMap(resource: Json, overlay: Json, elements: set<string>, leaf: LeafTest)
    returns (res: Check)
    requires resource.Obj? && overlay.Obj?
    requires elements <= overlay.fields.Keys
    requires forall k | k in elements :: !IsConditionAnchor(k) && !IsAddingAnchor(k)
    ensures res.Panic? ==> !SafeMap(resource, overlay)
    ensures !res.Panic? ==> (res.Met? <==> forall k | k in elements :: MeetsKey(resource, overlay, k, leaf))
    decreases overlay, 0
  {
    var todo := elements;
    while todo != {}
      invariant todo <= elements
      invariant forall k | k in elements && k !in todo :: MeetsKey(resource, overlay, k, leaf)
      decreases |todo|
    {
      var key :| key in todo;
      todo := todo - {key};
      var value := overlay.fields[key];
      if key in resource.fields || HasNestedAnchors(value) {
        // a missing member is passed on as nil
        var member := if key in resource.fields then resource.fields[key] else Null;
        res := CheckConditions(member, value, leaf);
        if !res.Met? {
          assert !res.Panic? ==> !MeetsKey(resource, overlay, key, leaf);
          return;
        }
      }
    }
    res := Met;
  }

  method CheckConditionOnArray(resource: Json, overlay: Json, leaf: LeafTest) returns (res: Check)
    requires resource.Arr? && overlay.Arr? && HasNestedAnchors(overlay)
    ensures res.Panic? ==> !Safe(resource, overlay)
    ensures !res.Panic? ==> (res.Met? <==> Meets(resource, overlay, leaf))
    decreases overlay, 1
  {
    if overlay.items == [] {
      return Met;
    }
    if resource.items == [] {
      return Panic;
    }
    if !SameType(resource.items[0], overlay.items[0]) {
      return Unmet;
    }
    if overlay.items[0].Obj? {
      res := CheckConditionsOnArrayOfMaps(resource, overlay, leaf);
      return;
    }
    for i := 0 to |overlay.items|
      invariant i <= |resource.items|
      invariant forall i' | 0 <= i' < i :: Meets(resource.items[i'], overlay.items[i'], leaf)
    {
      if i >= |resource.items| {
        return Panic;
      }
      res := CheckConditions(resource.items[i], overlay.items[i], leaf);
      if !res.Met? {
        return;
      }
    }
    res := Met;
  }

  ghost predicate SafeMaps(resource: Json, overlay: Json)
    requires resource.Arr? && overlay.Arr?
  {
    && (forall i | 0 <= i < |overlay.items| :: overlay.items[i].Obj?)
    && (forall j | 0 <= j < |resource.items| :: resource.items[j].Obj?)
    && (forall i, j | 0 <= i < |overlay.items| && 0 <= j < |resource.items| ::
          SafeMap(resource.items[j], overlay.items[i]))
  }

  method CheckConditionsOnArrayOfMaps(resource: Json, overlay: Json, leaf: LeafTest) returns (res: Check)
    requires resource.Arr? && overlay.Arr? && resource.items != [] && overlay.items != []
    ensures res.Panic? ==> !SafeMaps(resource, overlay)
    ensures !res.Panic? ==>
              (res.Met? <==> exists i, j | 0 <= i < |overlay.items| && 0 <= j < |resource.items| ::
                 MeetsMap(resource.items[j], overlay.items[i], leaf))
    decreases overlay, 0
  {
    res := Met;
    for i := 0 to |overlay.items|
      invariant i > 0 ==> res.Unmet?
      invariant forall i', j | 0 <= i' < i && 0 <= j < |resource.items| ::
                  !MeetsMap(resource.items[j], overlay.items[i'], leaf)
    {
      for j := 0 to |resource.items|
        invariant j > 0 ==> res.Unmet?
        invariant forall j' | 0 <= j' < j :: !MeetsMap(resource.items[j'], overlay.items[i], leaf)
      {
        if !resource.items[j].Obj? || !overlay.items[i].Obj? {
          return Panic;
        }
        res := CheckConditionOnMap(resource.items[j], overlay.items[i], leaf);
        if !res.Unmet? {
          return;
        }
      }
    }
  }
}
