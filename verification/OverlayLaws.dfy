/** Laws of overlay mutation: what it leaves alone, what the result contains, when doing it a
    second time changes nothing more, and that conditions survive. */
module OverlayLaws {
  import opened Json
  import opened JsonPatch
  import opened Anchors
  import opened OverlaySpec
  import opened OverlayProof
  import opened OverlayCondition
  import opened OverlayTotality

  // ---------- Frame ----------

  /** The path leaves the overlay: at a member it does not name, at an existing member under
      "+()", or at an existing element of an array that the anchored elements leave alone. */
  ghost predicate Untouched(resource: Json, overlay: Json, path: seq<string>)
    decreases overlay
  {
    && path != []
    && SameType(resource, overlay)
    && match overlay
       case Obj(fields) =>
         path[0] in Names(overlay, fields.Keys) ==>
           && path[0] in resource.fields
           && var key := KeyNamed(overlay, fields.Keys, path[0]);
              IsAddingAnchor(key) || Untouched(resource.fields[path[0]], fields[key], path[1..])
       case Arr(items) =>
         && Child(resource, path[0]).Some?
         && forall i | 0 <= i < |items| && Anchored(overlay, i) ::
              Untouched(Child(resource, path[0]).value, items[i], path[1..])
       case _ => false
  }

  lemma {:induction false} UntouchedIsUnchanged(resource: Json, overlay: Json, path: seq<string>)
    requires Clear(resource, overlay)
    requires Untouched(resource, overlay, path)
    ensures Lookup(Merge(resource, overlay), path) == Lookup(resource, path)
    decreases overlay
  {
    var token := path[0];
    match overlay
    case Obj(fields) =>
      assert Merge(resource, overlay) == Obj(MergedFields(resource, overlay, fields.Keys));
      if token in Names(overlay, fields.Keys) {
        var key := KeyNamed(overlay, fields.Keys, token);
        assert ClearKey(resource, overlay, key);
        assert Child(Merge(resource, overlay), token) == Some(MergedMember(resource, overlay, key));
        assert Child(resource, token) == Some(resource.fields[token]);
        if !IsAddingAnchor(key) {
          UntouchedIsUnchanged(resource.fields[token], fields[key], path[1..]);
        }
      }
    case Arr(items) =>
      var j := ParseIndex(token).value;
      assert Merge(resource, overlay) == Arr(MergedItems(resource, overlay, |items|));
      UntouchedItem(resource, overlay, j, |items|, path[1..]);
  }

  /** An element that every anchored overlay element leaves alone, one after the other. */
  lemma {:induction false} UntouchedItem(resource: Json, overlay: Json, j: nat, n: nat, path: seq<string>)
    requires resource.Arr? && overlay.Arr? && j < |resource.items| && n <= |overlay.items|
    requires Clear(resource, overlay)
    requires forall i | 0 <= i < n && Anchored(overlay, i) :: Untouched(resource.items[j], overlay.items[i], path)
    ensures Lookup(MergedItem(resource.items[j], overlay, n), path) == Lookup(resource.items[j], path)
    decreases overlay, n
  {
    if n > 0 {
      UntouchedItem(resource, overlay, j, n - 1, path);
      if Anchored(overlay, n - 1) {
        var current := MergedItem(resource.items[j], overlay, n - 1);
        StillClear(resource, overlay, n - 1, j);
        AllStillClear(resource, overlay, n - 1);
        assert Sofar(resource, overlay, n - 1).items[j] == current;
        if current != resource.items[j] {
          AgreeingUntouched(resource.items[j], current, overlay.items[n - 1], path);
        }
        UntouchedIsUnchanged(current, overlay.items[n - 1], path);
      }
    }
  }

  lemma AgreeingUntouched(resource: Json, other: Json, overlay: Json, path: seq<string>)
    requires Agree(resource, other, overlay) && Untouched(resource, overlay, path)
    ensures Untouched(other, overlay, path)
  {
  }

  /** The same for the document that applying the patches gives. */
  lemma UntouchedByPatches(resource: Json, overlay: Json, ops: seq<Op>, doc: Json, path: seq<string>)
    requires Emits(resource, overlay, ops) && ApplyAll(resource, ops) == Some(doc)
    requires Clear(resource, overlay) && Untouched(resource, overlay, path)
    ensures Lookup(doc, path) == Lookup(resource, path)
  {
    PatchesPerformMerge(resource, overlay, ops);
    UntouchedIsUnchanged(resource, overlay, path);
  }

  /** With a single anchored element, merging all overlay elements is merging that one. */
  lemma {:induction false} OneAnchored(item: Json, overlay: Json, i: nat, n: nat)
    requires overlay.Arr? && i < n <= |overlay.items| && Anchored(overlay, i)
    requires forall i' | 0 <= i' < n && Anchored(overlay, i') :: i' == i
    ensures MergedItem(item, overlay, n) == Merge(item, overlay.items[i])
  {
    if n - 1 == i {
      NothingAnchoredYet(item, overlay, i);
    } else {
      OneAnchored(item, overlay, i, n - 1);
    }
  }

  function PlainCount(overlay: Json, n: nat): nat
    requires overlay.Arr? && n <= |overlay.items|
  {
    if n == 0 then 0 else PlainCount(overlay, n - 1) + if Anchored(overlay, n - 1) then 0 else 1
  }

  /** A non-empty array grows by exactly the number of overlay elements without anchors; the
      elements it had keep their index, and with no anchored element they keep their value. */
  lemma ArrayGrowth(resource: Json, overlay: Json)
    requires resource.Arr? && overlay.Arr? && resource.items != []
    ensures var merged := Merge(resource, overlay);
      && merged.Arr?
      && |merged.items| == |resource.items| + PlainCount(overlay, |overlay.items|)
      && (forall j | 0 <= j < |resource.items| ::
          merged.items[j] == MergedItem(resource.items[j], overlay, |overlay.items|))
      && ((forall i | 0 <= i < |overlay.items| :: !Anchored(overlay, i)) ==> resource.items <= merged.items)
  {
    PlainItemsCounted(overlay, |overlay.items|);
    if forall i | 0 <= i < |overlay.items| :: !Anchored(overlay, i) {
      forall j | 0 <= j < |resource.items| ensures Merge(resource, overlay).items[j] == resource.items[j] {
        NothingAnchoredYet(resource.items[j], overlay, |overlay.items|);
      }
    }
  }

  lemma {:induction false} PlainItemsCounted(overlay: Json, n: nat)
    requires overlay.Arr? && n <= |overlay.items|
    ensures |PlainItems(overlay, n)| == PlainCount(overlay, n)
  {
    if n > 0 {
      PlainItemsCounted(overlay, n - 1);
    }
  }

  // ---------- Doing it twice ----------

  /** Every key is plain, a condition or an addition, and both strippers agree on it. */
  ghost predicate PlainKeys(overlay: Json) {
    match overlay
    case Obj(fields) =>
      && (forall k | k in fields ::
            && RawKey(k) == RemoveAnchor(k)
            && (IsConditionAnchor(k) || IsAddingAnchor(k) || RemoveAnchor(k) == k))
      && (forall k | k in fields :: PlainKeys(fields[k]))
    case Arr(items) => forall i | 0 <= i < |items| :: PlainKeys(items[i])
    case _ => true
  }

  /** No null leaves, no two keys of a map with one name, and no empty array, no array with two
      anchored elements and none that mixes maps with other elements. */
  ghost predicate Shaped(overlay: Json) {
    match overlay
    case Obj(fields) =>
      && (forall k, k' | k in fields && k' in fields && RemoveAnchor(k) == RemoveAnchor(k') :: k == k')
      && (forall k | k in fields :: Shaped(fields[k]))
    case Arr(items) =>
      && items != []
      && (items[0].Obj? ==> forall i | 0 <= i < |items| :: items[i].Obj?)
      && (forall i, i' | 0 <= i < i' < |items| :: !(Anchored(overlay, i) && Anchored(overlay, i')))
      && (forall i | 0 <= i < |items| :: Shaped(items[i]))
    case Null => false
    case _ => true
  }

  ghost predicate Tame(overlay: Json) {
    PlainKeys(overlay) && Shaped(overlay)
  }

  /** Somewhere the overlay keeps inserting: an array that is neither below a condition nor
      below an addition has an element without anchors. */
  ghost predicate Appends(overlay: Json) {
    match overlay
    case Obj(fields) => exists k | k in fields && !IsConditionAnchor(k) && !IsAddingAnchor(k) :: Appends(fields[k])
    case Arr(items) => exists i | 0 <= i < |items| :: !Anchored(overlay, i) || Appends(items[i])
    case _ => false
  }

  lemma {:induction false} TameStripsClear(overlay: Json)
    requires Tame(overlay)
    ensures StripClear(overlay)
  {
    match overlay
    case Obj(fields) => forall k | k in fields { TameStripsClear(fields[k]); }
    case Arr(items) => forall i | 0 <= i < |items| { TameStripsClear(items[i]); }
    case _ =>
  }

  lemma {:induction false} TameIsUnambiguous(resource: Json, overlay: Json)
    requires Tame(overlay)
    ensures Clear(resource, overlay) && (!Appends(overlay) ==> Ordered(resource, overlay))
    decreases overlay
  {
    TameStripsClear(overlay);
    if SameType(resource, overlay) {
      match overlay
      case Obj(fields) =>
        forall k | k in fields
          ensures ClearKey(resource, overlay, k) && (!Appends(overlay) ==> OrderedKey(resource, overlay, k))
        {
          TameStripsClear(fields[k]);
          if RemoveAnchor(k) in resource.fields {
            TameIsUnambiguous(resource.fields[RemoveAnchor(k)], fields[k]);
          }
        }
      case Arr(items) =>
        forall i | 0 <= i < |items|
          ensures StripClear(items[i])
          ensures forall j | 0 <= j < |resource.items| ::
                    Clear(resource.items[j], items[i]) && (!Appends(items[i]) ==> Ordered(resource.items[j], items[i]))
        {
          TameStripsClear(items[i]);
          forall j | 0 <= j < |resource.items| {
            TameIsUnambiguous(resource.items[j], items[i]);
          }
        }
        forall i | 0 <= i < |items| ensures ClearElement(resource, overlay, i) {
        }
      case _ =>
    }
  }

  /** The member of a stripped map under a given key. */
  lemma StripMember(overlay: Json, key: string)
    requires Tame(overlay) && overlay.Obj? && key in overlay.fields
    ensures var stripped := Strip(overlay);
            && stripped.Obj? && stripped.fields.Keys == RawKeys(overlay)
            && RemoveAnchor(key) in stripped.fields
            && stripped.fields[RemoveAnchor(key)] == Strip(overlay.fields[key])
  {
    assert RawKey(key) in RawKeys(overlay);
    assert KeyWithRaw(overlay, RawKey(key)) == key;
  }

  /** A member of the merged map under the name of a key. */
  lemma MergedAt(resource: Json, overlay: Json, key: string)
    requires Tame(overlay) && overlay.Obj? && resource.Obj? && key in overlay.fields
    ensures var merged := MergedFields(resource, overlay, overlay.fields.Keys);
            var name := RemoveAnchor(key);
            if IsConditionAnchor(key) then
              && (name in merged <==> name in resource.fields)
              && (name in merged ==> merged[name] == resource.fields[name])
            else
              name in merged && merged[name] == MergedMember(resource, overlay, key)
  {
    var name := RemoveAnchor(key);
    if IsConditionAnchor(key) {
      assert name !in Names(overlay, overlay.fields.Keys);
    } else {
      assert name in Names(overlay, overlay.fields.Keys);
      assert KeyNamed(overlay, overlay.fields.Keys, name) == key;
    }
  }

  /** The overlay is the one anchored element of an array. */
  predicate Single(overlay: Json)
    requires overlay.Arr?
  {
    |overlay.items| == 1 && Anchored(overlay, 0)
  }

  lemma MergedSingle(resource: Json, overlay: Json)
    requires resource.Arr? && overlay.Arr? && Single(overlay)
    ensures MergedItems(resource, overlay, 1)
         == seq(|resource.items|, j requires 0 <= j < |resource.items| => Merge(resource.items[j], overlay.items[0]))
  {
    forall j | 0 <= j < |resource.items|
      ensures MergedItem(resource.items[j], overlay, 1) == Merge(resource.items[j], overlay.items[0])
    {
      OneAnchored(resource.items[j], overlay, 0, 1);
    }
    assert PlainItems(overlay, 1) == [];
  }

  /** The overlay has been merged into `doc` before: its values are there, and so are its arrays;
      a single anchored element has been merged into every element. */
  ghost predicate Contains(doc: Json, overlay: Json) {
    && SameType(doc, overlay)
    && match overlay
       case Obj(fields) =>
         forall k | k in fields && !IsConditionAnchor(k) ::
           && RemoveAnchor(k) in doc.fields
           && (IsAddingAnchor(k) || Contains(doc.fields[RemoveAnchor(k)], fields[k]))
       case Arr(items) =>
         && doc.items != []
         && (Single(overlay) ==> forall j | 0 <= j < |doc.items| :: Contains(doc.items[j], items[0]))
       case _ => doc == overlay
  }

  lemma {:induction false} StripContains(overlay: Json)
    requires Tame(overlay)
    ensures Contains(Strip(overlay), overlay)
  {
    match overlay
    case Obj(fields) =>
      var stripped := Strip(overlay);
      assert stripped.Obj?;
      forall k | k in fields && !IsConditionAnchor(k)
        ensures RemoveAnchor(k) in stripped.fields
        ensures Contains(stripped.fields[RemoveAnchor(k)], fields[k])
      {
        StripMember(overlay, k);
        StripContains(fields[k]);
      }
    case Arr(items) =>
      var stripped := Strip(overlay).items;
      assert |stripped| == |items| && stripped[0] == Strip(items[0]);
      if Single(overlay) {
        StripContains(items[0]);
      }
    case _ =>
  }

  lemma {:induction false} MergeContains(resource: Json, overlay: Json)
    requires Tame(overlay)
    ensures Contains(Merge(resource, overlay), overlay)
    decreases overlay
  {
    if !SameType(resource, overlay) || (overlay.Arr? && resource.items == []) {
      StripContains(overlay);
    } else {
      match overlay
      case Obj(fields) =>
        var merged := Merge(resource, overlay).fields;
        forall k | k in fields && !IsConditionAnchor(k)
          ensures RemoveAnchor(k) in merged
          ensures IsAddingAnchor(k) || Contains(merged[RemoveAnchor(k)], fields[k])
        {
          MergedAt(resource, overlay, k);
          if RemoveAnchor(k) in resource.fields {
            MergeContains(resource.fields[RemoveAnchor(k)], fields[k]);
          } else {
            StripContains(fields[k]);
          }
        }
      case Arr(items) =>
        if Single(overlay) {
          MergedSingle(resource, overlay);
          forall j | 0 <= j < |resource.items| ensures Contains(Merge(resource.items[j], items[0]), items[0]) {
            MergeContains(resource.items[j], items[0]);
          }
        }
      case _ =>
    }
  }

  /** Merging an overlay that has been merged before changes nothing, and generates patches,
      exactly if it does not append. */
  lemma {:induction false} ContainedStays(doc: Json, overlay: Json)
    requires Tame(overlay) && Contains(doc, overlay)
    ensures Merge(doc, overlay) == doc <==> !Appends(overlay)
    ensures !Appends(overlay) ==> !Fails(doc, overlay)
    decreases overlay
  {
    match overlay
    case Obj(fields) => ContainedMapStays(doc, overlay);
    case Arr(items) =>
      assert Merge(doc, overlay) == Arr(MergedItems(doc, overlay, |items|));
      if Single(overlay) {
        MergedSingle(doc, overlay);
        forall j | 0 <= j < |doc.items|
          ensures Merge(doc.items[j], items[0]) == doc.items[j] <==> !Appends(items[0])
          ensures !Appends(items[0]) ==> !Fails(doc.items[j], items[0])
        {
          ContainedStays(doc.items[j], items[0]);
        }
        SingleStays(doc, overlay);
      } else {
        var i := PlainAmong(overlay);
        ArrayGrowth(doc, overlay);
        PlainCounted(overlay, i, |items|);
      }
    case _ =>
  }

  lemma PlainAmong(overlay: Json) returns (i: nat)
    requires Shaped(overlay) && overlay.Arr? && !Single(overlay)
    ensures i < |overlay.items| && !Anchored(overlay, i)
  {
    i := if Anchored(overlay, 0) then 1 else 0;
  }

  lemma SingleStays(doc: Json, overlay: Json)
    requires doc.Arr? && doc.items != [] && overlay.Arr? && Single(overlay)
    requires Contains(doc.items[0], overlay.items[0])
    requires forall j | 0 <= j < |doc.items| ::
               && (Merge(doc.items[j], overlay.items[0]) == doc.items[j] <==> !Appends(overlay.items[0]))
               && (!Appends(overlay.items[0]) ==> !Fails(doc.items[j], overlay.items[0]))
    ensures Merge(doc, overlay) == doc <==> !Appends(overlay.items[0])
    ensures !Appends(overlay.items[0]) ==> !Fails(doc, overlay)
  {
    MergedSingle(doc, overlay);
    var merged := MergedItems(doc, overlay, 1);
    assert Merge(doc, overlay) == Arr(merged) && |merged| == |doc.items|;
    assert merged[0] == Merge(doc.items[0], overlay.items[0]);
    if !Appends(overlay.items[0]) {
      assert merged == doc.items;
      assert !FailsElement(doc, overlay, 0) && !FailsElements(doc, overlay, 0);
      assert !FailsElements(doc, overlay, 1);
    }
  }

  lemma {:induction false} ContainedMapStays(doc: Json, overlay: Json)
    requires Tame(overlay) && Contains(doc, overlay) && overlay.Obj?
    ensures Merge(doc, overlay) == doc <==> !Appends(overlay)
    ensures !Appends(overlay) ==> !Fails(doc, overlay)
    decreases overlay, 0
  {
    var fields, merged := overlay.fields, MergedFields(doc, overlay, overlay.fields.Keys);
    forall k | k in fields && !IsConditionAnchor(k)
      ensures IsAddingAnchor(k) ==>
                MergedMember(doc, overlay, k) == doc.fields[RemoveAnchor(k)] && !FailsKey(doc, overlay, k)
      ensures !IsAddingAnchor(k) ==>
                && (MergedMember(doc, overlay, k) == doc.fields[RemoveAnchor(k)] <==> !Appends(fields[k]))
                && (!Appends(fields[k]) ==> !FailsKey(doc, overlay, k))
    {
      if !IsAddingAnchor(k) {
        ContainedStays(doc.fields[RemoveAnchor(k)], fields[k]);
      }
    }
    assert merged.Keys == doc.fields.Keys;
    if Appends(overlay) {
      var k :| k in fields && !IsConditionAnchor(k) && !IsAddingAnchor(k) && Appends(fields[k]);
      MergedAt(doc, overlay, k);
      assert merged[RemoveAnchor(k)] != doc.fields[RemoveAnchor(k)];
    } else {
      forall name | name in merged ensures merged[name] == doc.fields[name] {
      }
      assert merged == doc.fields;
      forall k | k in fields ensures !FailsKey(doc, overlay, k) {
      }
    }
  }

  /** Whether merging changes anything at all. */
  lemma UnchangedIff(resource: Json, overlay: Json)
    requires Tame(overlay)
    ensures Merge(resource, overlay) == resource <==> Contains(resource, overlay) && !Appends(overlay)
  {
    MergeContains(resource, overlay);
    if Contains(resource, overlay) {
      ContainedStays(resource, overlay);
    }
  }

  /** Merging is idempotent, on every resource, for exactly the overlays that do not append. */
  lemma MergeTwice(resource: Json, overlay: Json)
    requires Tame(overlay)
    ensures Merge(Merge(resource, overlay), overlay) == Merge(resource, overlay) <==> !Appends(overlay)
  {
    MergeContains(resource, overlay);
    ContainedStays(Merge(resource, overlay), overlay);
  }

  // ---------- Conditions ----------

  lemma {:induction false} ConditionsSurvive(resource: Json, overlay: Json, leaf: LeafTest)
    requires Tame(overlay) && Meets(resource, overlay, leaf)
    ensures Meets(Merge(resource, overlay), overlay, leaf)
    decreases overlay, 1
  {
    if HasNestedAnchors(overlay) {
      match overlay
      case Obj(fields) =>
        var merged := Merge(resource, overlay);
        forall k | k in fields ensures MeetsKey(merged, overlay, k, leaf) {
          assert MeetsKey(resource, overlay, k, leaf);
          MergedAt(resource, overlay, k);
          if !IsConditionAnchor(k) && !IsAddingAnchor(k) {
            if k in resource.fields {
              ConditionsSurvive(resource.fields[k], fields[k], leaf);
            }
          }
        }
      case Arr(items) =>
        if items[0].Obj? {
          ElementSurvives(resource, overlay, leaf);
        } else {
          ArrayGrowth(resource, overlay);
        }
      case _ =>
    }
  }

  lemma {:induction false} ElementSurvives(resource: Json, overlay: Json, leaf: LeafTest)
    requires Tame(overlay) && overlay.Arr? && overlay.items[0].Obj? && HasNestedAnchors(overlay)
    requires Meets(resource, overlay, leaf)
    ensures Meets(Merge(resource, overlay), overlay, leaf)
    decreases overlay, 0
  {
    var items := overlay.items;
    var a :| 0 <= a < |items| && HasNestedAnchors(items[a]);
    assert Anchored(overlay, a) && forall i' | 0 <= i' < |items| && Anchored(overlay, i') :: i' == a;
    var i, j :| 0 <= i < |items| && 0 <= j < |resource.items| && MeetsMap(resource.items[j], items[i], leaf);
    if i == a {
      assert Meets(resource.items[j], items[a], leaf);
      ConditionsSurvive(resource.items[j], items[a], leaf);
    } else {
      assert !Anchored(overlay, i);
      UnanchoredIsMet(Merge(resource.items[j], items[a]), items[i], leaf);
    }
    assert MeetsMap(Merge(resource.items[j], items[a]), items[i], leaf);
    SurvivorMeets(resource, overlay, a, i, j, leaf);
  }

  lemma SurvivorMeets(resource: Json, overlay: Json, a: nat, i: nat, j: nat, leaf: LeafTest)
    requires resource.Arr? && overlay.Arr? && a < |overlay.items| && i < |overlay.items| && j < |resource.items|
    requires Anchored(overlay, a) && forall i' | 0 <= i' < |overlay.items| && Anchored(overlay, i') :: i' == a
    requires SameType(resource.items[0], overlay.items[0]) && overlay.items[a].Obj?
    requires MeetsMap(Merge(resource.items[j], overlay.items[a]), overlay.items[i], leaf)
    ensures Meets(Merge(resource, overlay), overlay, leaf)
  {
    var merged := Merge(resource, overlay);
    ArrayGrowth(resource, overlay);
    OneAnchored(resource.items[j], overlay, a, |overlay.items|);
    OneAnchored(resource.items[0], overlay, a, |overlay.items|);
    assert merged.items[0].Obj?;
    assert MeetsMap(merged.items[j], overlay.items[i], leaf);
  }

  lemma UnanchoredIsMet(resource: Json, overlay: Json, leaf: LeafTest)
    requires resource.Obj? && overlay.Obj? && !HasNestedAnchors(overlay)
    ensures MeetsMap(resource, overlay, leaf)
  {
    forall k | k in overlay.fields ensures MeetsKey(resource, overlay, k, leaf) {
    }
  }

  // ---------- Running twice ----------

  /** A second run on the mutated resource finds its conditions met. It generates patches again
      that change nothing if the overlay does not append; if it does, no patch list of a second
      run leaves the document as it was. */
  lemma OverlayIsIdempotent(resource: Json, overlay: Json, leaf: LeafTest, first: seq<Op>, doc: Json)
    requires Tame(overlay)
    requires Meets(resource, overlay, leaf) && Emits(resource, overlay, first)
    requires ApplyAll(resource, first) == Some(doc)
    ensures Meets(doc, overlay, leaf)
    ensures !Appends(overlay) ==> !Fails(doc, overlay)
    ensures forall second | MayReturn(doc, overlay, second) :: ApplyAll(doc, second) == Some(doc) <==> !Appends(overlay)
  {
    TameIsUnambiguous(resource, overlay);
    PatchesPerformMerge(resource, overlay, first);
    ConditionsSurvive(resource, overlay, leaf);
    MergeContains(resource, overlay);
    ContainedStays(doc, overlay);
    forall second | MayReturn(doc, overlay, second)
      ensures ApplyAll(doc, second) == Some(doc) <==> !Appends(overlay)
    {
      TameIsUnambiguous(doc, overlay);
      PatchesPerformMerge(doc, overlay, second);
    }
  }

  /** Every run appends the plain elements again, whatever the overlay looks like otherwise. */
  lemma ArraysGrowEveryTime(resource: Json, overlay: Json)
    requires resource.Arr? && overlay.Arr? && resource.items != [] && overlay.items != []
    requires exists i | 0 <= i < |overlay.items| :: !Anchored(overlay, i)
    ensures Merge(resource, overlay) != resource
    ensures Merge(Merge(resource, overlay), overlay) != Merge(resource, overlay)
  {
    ArrayGrowth(resource, overlay);
    ArrayGrowth(Merge(resource, overlay), overlay);
    var i :| 0 <= i < |overlay.items| && !Anchored(overlay, i);
    PlainCounted(overlay, i, |overlay.items|);
  }

  lemma {:induction false} PlainCounted(overlay: Json, i: nat, n: nat)
    requires overlay.Arr? && i < n <= |overlay.items| && !Anchored(overlay, i)
    ensures PlainCount(overlay, n) > 0
  {
    if i < n - 1 {
      PlainCounted(overlay, i, n - 1);
    }
  }

  // ---------- Which elements change ----------

  /** Element `j` of the array does not meet the conditions of overlay element `i`. */
  ghost predicate Unmet(resource: Json, overlay: Json, i: nat, j: nat, leaf: LeafTest)
    requires resource.Arr? && overlay.Arr? && i < |overlay.items|
  {
    j < |resource.items| && !MeetsMap(resource.items[j], overlay.items[i], leaf)
  }

  /** Only the elements that meet its conditions are changed by the anchored element exactly
      when the others already contain it, and it appends nothing to them. */
  lemma OnlyMatchingElementsChange(resource: Json, overlay: Json, i: nat, leaf: LeafTest)
    requires resource.Arr? && overlay.Arr? && resource.items != []
    requires i < |overlay.items| && Anchored(overlay, i) && Tame(overlay.items[i])
    requires forall i' | 0 <= i' < |overlay.items| && Anchored(overlay, i') :: i' == i
    ensures Merge(resource, overlay).Arr? && |resource.items| <= |Merge(resource, overlay).items|
    ensures (forall j: nat | Unmet(resource, overlay, i, j, leaf) ::
               Merge(resource, overlay).items[j] == resource.items[j])
       <==> (forall j: nat | Unmet(resource, overlay, i, j, leaf) ::
               Contains(resource.items[j], overlay.items[i]) && !Appends(overlay.items[i]))
  {
    ArrayGrowth(resource, overlay);
    forall j: nat | Unmet(resource, overlay, i, j, leaf)
      ensures Merge(resource, overlay).items[j] == resource.items[j]
         <==> Contains(resource.items[j], overlay.items[i]) && !Appends(overlay.items[i])
    {
      OneAnchored(resource.items[j], overlay, i, |overlay.items|);
      UnchangedIff(resource.items[j], overlay.items[i]);
    }
  }
}
