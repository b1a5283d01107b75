/** Why the merge theorem asks that no two parts of an overlay write different values to one
    place: the patches are computed from the original resource, so the parts do not see each
    other. And runs in which a document does not become what one would expect. */
module OverlayLimits {
  import opened Json
  import opened JsonPatch
  import opened Anchors
  import opened OverlaySpec
  import opened OverlayProof
  import opened OverlayCondition
  import opened OverlayTotality
  import opened OverlayNest
  import opened OverlayLaws
  import opened OverlayOrders

  // ---------- Two keys with one name ----------

  /** Every member the overlay names is new, and can be inserted. */
  ghost predicate AllNew(resource: Json, overlay: Json) {
    && resource.Obj? && overlay.Obj?
    && forall k | k in overlay.fields && !IsConditionAnchor(k) ::
         RemoveAnchor(k) !in resource.fields && !HasOnlyAnchors(overlay.fields[k])
  }

  /** Keys with one name insert one value. */
  ghost predicate OneValueEach(overlay: Json)
    requires overlay.Obj?
  {
    && (forall k | k in overlay.fields && !IsConditionAnchor(k) :: StripClear(overlay.fields[k]))
    && (forall k, k' | k in overlay.fields && k' in overlay.fields && !IsConditionAnchor(k) && !IsConditionAnchor(k')
          && RemoveAnchor(k) == RemoveAnchor(k') :: Strip(overlay.fields[k]) == Strip(overlay.fields[k']))
  }

  /** New members: the map order makes no difference exactly when keys with one name insert one
      value. */
  lemma NewMembersHaveOneResult(resource: Json, overlay: Json)
    requires AllNew(resource, overlay)
    ensures OneDocument(resource, overlay) <==> OneValueEach(overlay)
  {
    if OneValueEach(overlay) {
      assert Clear(resource, overlay);
      forall ops, ops' | MayReturn(resource, overlay, ops) && MayReturn(resource, overlay, ops')
        ensures ApplyAll(resource, ops) == ApplyAll(resource, ops')
      {
        PatchesPerformMerge(resource, overlay, ops);
        PatchesPerformMerge(resource, overlay, ops');
      }
    } else {
      var k, value, k', value' := DifferentInserts(overlay);
      var ops, ops' := LastsDiffer(resource, overlay, k, value, k', value');
      assert MayReturn(resource, overlay, ops) && MayReturn(resource, overlay, ops');
    }
  }

  /** Two such keys, or one key whose subtree is ambiguous. */
  lemma DifferentInserts(overlay: Json) returns (k: string, value: Json, k': string, value': Json)
    requires overlay.Obj? && !OneValueEach(overlay)
    ensures k in overlay.fields && k' in overlay.fields && !IsConditionAnchor(k) && !IsConditionAnchor(k')
    ensures RemoveAnchor(k) == RemoveAnchor(k') && value != value'
    ensures Strips(overlay.fields[k], value) && Strips(overlay.fields[k'], value')
  {
    if one :| one in overlay.fields && !IsConditionAnchor(one) && !StripClear(overlay.fields[one]) {
      k, k', value := one, one, Strip(overlay.fields[one]);
      value' := AnotherStrip(overlay.fields[one]);
      StripIsOne(overlay.fields[one]);
    } else {
      k, k' :| k in overlay.fields && k' in overlay.fields && !IsConditionAnchor(k) && !IsConditionAnchor(k')
        && RemoveAnchor(k) == RemoveAnchor(k') && Strip(overlay.fields[k]) != Strip(overlay.fields[k']);
      value, value' := Strip(overlay.fields[k]), Strip(overlay.fields[k']);
      StripIsOne(overlay.fields[k]);
      StripIsOne(overlay.fields[k']);
    }
  }

  lemma LastsDiffer(resource: Json, overlay: Json, k: string, value: Json, k': string, value': Json)
    returns (ops: seq<Op>, ops': seq<Op>)
    requires AllNew(resource, overlay)
    requires k in overlay.fields && k' in overlay.fields && !IsConditionAnchor(k) && !IsConditionAnchor(k')
    requires RemoveAnchor(k) == RemoveAnchor(k') && value != value'
    requires Strips(overlay.fields[k], value) && Strips(overlay.fields[k'], value')
    ensures Emits(resource, overlay, ops) && Emits(resource, overlay, ops')
    ensures ApplyAll(resource, ops) != ApplyAll(resource, ops')
  {
    ops := LastStays(resource, overlay, k, value);
    ops' := LastStays(resource, overlay, k', value');
  }

  /** Two new members under keys that strip to the same name are added in the order in which the
      map happens to be ranged over, and the later one stays. */
  lemma ClashingNamesAreAmbiguous(resource: Json, overlay: Json, k: string, k': string)
    returns (ops: seq<Op>, ops': seq<Op>)
    requires AllNew(resource, overlay)
    requires k in overlay.fields && k' in overlay.fields && !IsConditionAnchor(k) && !IsConditionAnchor(k')
    requires RemoveAnchor(k) == RemoveAnchor(k') && Strip(overlay.fields[k]) != Strip(overlay.fields[k'])
    ensures Emits(resource, overlay, ops) && Emits(resource, overlay, ops')
    ensures ApplyAll(resource, ops) != ApplyAll(resource, ops')
  {
    StripIsOne(overlay.fields[k]);
    StripIsOne(overlay.fields[k']);
    ops, ops' := LastsDiffer(resource, overlay, k, Strip(overlay.fields[k]), k', Strip(overlay.fields[k']));
  }

  /** Any key can be the last one, with any value it may strip to. */
  lemma LastStays(resource: Json, overlay: Json, k: string, value: Json) returns (ops: seq<Op>)
    requires AllNew(resource, overlay)
    requires k in overlay.fields && !IsConditionAnchor(k) && Strips(overlay.fields[k], value)
    ensures Emits(resource, overlay, ops)
    ensures var doc := ApplyAll(resource, ops);
            doc.Some? && doc.value.Obj? && RemoveAnchor(k) in doc.value.fields
              && doc.value.fields[RemoveAnchor(k)] == value
  {
    var before := InsertAll(resource, overlay, overlay.fields.Keys - {k});
    var last := [Op(Add, [RemoveAnchor(k)], value)];
    ops := before + last;
    assert EmitsKey(resource, overlay, k, last);
    assert Joined(ops, before, last) && k in overlay.fields.Keys;
    assert EmitsKeys(resource, overlay, overlay.fields.Keys, ops);
    ApplyConcat(resource, before, last);
    ApplyOne(ApplyAll(resource, before).value, last[0]);
  }

  lemma {:induction false} InsertAll(resource: Json, overlay: Json, keys: set<string>) returns (ops: seq<Op>)
    requires AllNew(resource, overlay) && keys <= overlay.fields.Keys
    ensures EmitsKeys(resource, overlay, keys, ops)
    ensures ApplyAll(resource, ops).Some? && ApplyAll(resource, ops).value.Obj?
    decreases |keys|
  {
    if keys == {} {
      ops := [];
    } else {
      var k :| k in keys;
      var before := InsertAll(resource, overlay, keys - {k});
      var last: seq<Op> := [];
      if !IsConditionAnchor(k) {
        StripIsOne(overlay.fields[k]);
        last := [Op(Add, [RemoveAnchor(k)], Strip(overlay.fields[k]))];
        ApplyOne(ApplyAll(resource, before).value, last[0]);
      }
      ops := before + last;
      ApplyConcat(resource, before, last);
      assert EmitsKey(resource, overlay, k, last) && Joined(ops, before, last);
    }
  }

  lemma InsertedScalar(resource: Json, overlay: Json, k: string)
    requires resource.Obj? && overlay.Obj? && k in overlay.fields && overlay.fields[k].Int?
    requires !IsConditionAnchor(k) && RemoveAnchor(k) !in resource.fields
    ensures EmitsKey(resource, overlay, k, [Op(Add, [RemoveAnchor(k)], overlay.fields[k])])
  {
    assert Strips(overlay.fields[k], overlay.fields[k]);
  }

  lemma OneKeyEmits(resource: Json, overlay: Json, k: string, ops: seq<Op>)
    requires resource.Obj? && overlay.Obj? && k in overlay.fields && EmitsKey(resource, overlay, k, ops)
    ensures EmitsKeys(resource, overlay, {k}, ops)
  {
    assert {k} - {k} == {} && [] + ops == ops;
    assert EmitsKeys(resource, overlay, {}, []);
    assert k in {k} && Joined(ops, [], ops);
  }

  // ---------- Two anchored elements ----------

  /** A map overlay with one condition key and one other key. */
  ghost predicate Guarded(overlay: Json, condition: string, key: string) {
    overlay.Obj? && condition != key && overlay.fields.Keys == {condition, key} && IsConditionAnchor(condition)
  }

  lemma GuardedEmits(resource: Json, overlay: Json, condition: string, key: string, ops: seq<Op>)
    requires resource.Obj? && Guarded(overlay, condition, key) && EmitsKey(resource, overlay, key, ops)
    ensures Emits(resource, overlay, ops)
  {
    OneKeyEmits(resource, overlay, condition, []);
    assert overlay.fields.Keys - {key} == {condition} && [] + ops == ops;
    assert key in overlay.fields.Keys && Joined(ops, [], ops);
    assert EmitsKeys(resource, overlay, overlay.fields.Keys, ops);
  }

  /** `[{c: v, name: x}, {c: v, +(name): y}]` on one map that has no such member: the merge adds
      `x` and then keeps it, but both patches are additions, and the second one overwrites. */
  lemma TwoAnchoredElementsDisagree(item: Json, overlay: Json, c: string, k: string, k': string) returns (ops: seq<Op>)
    requires item.Obj? && overlay.Arr? && |overlay.items| == 2
    requires Guarded(overlay.items[0], c, k) && Guarded(overlay.items[1], c, k')
    requires RemoveAnchor(k) == RemoveAnchor(k') && RemoveAnchor(k) !in item.fields
    requires !IsConditionAnchor(k) && IsAddingAnchor(k')
    requires overlay.items[0].fields[k].Int? && overlay.items[1].fields[k'].Int?
    requires overlay.items[0].fields[k] != overlay.items[1].fields[k']
    ensures Emits(Arr([item]), overlay, ops) && Ordered(Arr([item]), overlay)
    ensures ApplyAll(Arr([item]), ops).Some? && ApplyAll(Arr([item]), ops) != Some(Merge(Arr([item]), overlay))
  {
    var resource, first, second, name := Arr([item]), overlay.items[0], overlay.items[1], RemoveAnchor(k);
    var one, two := [Op(Add, [name], first.fields[k])], [Op(Add, [name], second.fields[k'])];
    InsertedScalar(item, first, k);
    InsertedScalar(item, second, k');
    GuardedEmits(item, first, c, k, one);
    GuardedEmits(item, second, c, k', two);
    ops := Under(Itoa(0), one) + Under(Itoa(0), two);
    TwoElements(resource, overlay, one, two);
    TwoApplied(item, name, first.fields[k], second.fields[k']);
    GuardedMerge(item, first, c, k);
    var between := Merge(item, first);
    GuardedKept(between, second, c, k');
    TwoMerged(item, overlay);
    GuardedOrdered(item, first, c, k);
    GuardedOrdered(item, second, c, k');
    TwoOrdered(item, overlay);
  }

  lemma TwoApplied(item: Json, name: string, x: Json, y: Json)
    requires item.Obj?
    ensures ApplyAll(Arr([item]), Under(Itoa(0), [Op(Add, [name], x)]) + Under(Itoa(0), [Op(Add, [name], y)]))
         == Some(Arr([Obj(item.fields[name := y])]))
  {
    var one, two := [Op(Add, [name], x)], [Op(Add, [name], y)];
    var between := Obj(item.fields[name := x]);
    IndexRoundTrip(0);
    ApplyOne(item, one[0]);
    ApplyOne(between, two[0]);
    Descend(Arr([item]), Itoa(0), one);
    assert WithChild(Arr([item]), Itoa(0), between) == Arr([between]);
    Descend(Arr([between]), Itoa(0), two);
    assert between.fields[name := y] == item.fields[name := y];
    assert WithChild(Arr([between]), Itoa(0), Obj(item.fields[name := y])) == Arr([Obj(item.fields[name := y])]);
    ApplyConcat(Arr([item]), Under(Itoa(0), one), Under(Itoa(0), two));
  }

  lemma TwoMerged(item: Json, overlay: Json)
    requires overlay.Arr? && |overlay.items| == 2 && overlay.items[0].Obj?
    requires Anchored(overlay, 0) && Anchored(overlay, 1)
    ensures Merge(Arr([item]), overlay) == Arr([Merge(Merge(item, overlay.items[0]), overlay.items[1])])
  {
    assert MergedItem(item, overlay, 0) == item;
    assert MergedItem(item, overlay, 1) == Merge(item, overlay.items[0]);
    assert MergedItem(item, overlay, 2) == Merge(Merge(item, overlay.items[0]), overlay.items[1]);
    assert PlainItems(overlay, 2) == [];
    assert MergedItems(Arr([item]), overlay, 2) == [MergedItem(item, overlay, 2)];
  }

  lemma TwoOrdered(item: Json, overlay: Json)
    requires item.Obj? && overlay.Arr? && |overlay.items| == 2
    requires Anchored(overlay, 0) && Anchored(overlay, 1)
    requires Ordered(item, overlay.items[0]) && Ordered(item, overlay.items[1])
    ensures Ordered(Arr([item]), overlay)
  {
    assert OrderedElements(Arr([item]), overlay, 2);
  }

  lemma GuardedOrdered(item: Json, overlay: Json, c: string, k: string)
    requires item.Obj? && Guarded(overlay, c, k) && RemoveAnchor(k) !in item.fields
    ensures Ordered(item, overlay)
  {
  }

  lemma TwoElements(resource: Json, overlay: Json, one: seq<Op>, two: seq<Op>)
    requires resource.Arr? && |resource.items| == 1 && resource.items[0].Obj?
    requires overlay.Arr? && |overlay.items| == 2 && overlay.items[0].Obj? && overlay.items[1].Obj?
    requires Anchored(overlay, 0) && Anchored(overlay, 1)
    requires Emits(resource.items[0], overlay.items[0], one) && Emits(resource.items[0], overlay.items[1], two)
    ensures Emits(resource, overlay, Under(Itoa(0), one) + Under(Itoa(0), two))
  {
    var a, b := Under(Itoa(0), one), Under(Itoa(0), two);
    EmittedOnce(resource, overlay, 0, one);
    EmittedOnce(resource, overlay, 1, two);
    assert EmitsElements(resource, overlay, 0, []);
    assert [] + a == a && Joined(a, [], a);
    assert EmitsElements(resource, overlay, 1, a);
    assert Joined(a + b, a, b);
    assert EmitsElements(resource, overlay, 2, a + b);
  }

  lemma EmittedOnce(resource: Json, overlay: Json, i: nat, inner: seq<Op>)
    requires resource.Arr? && |resource.items| == 1 && overlay.Arr? && i < |overlay.items|
    requires overlay.items[0].Obj? && overlay.items[i].Obj? && Anchored(overlay, i)
    requires Emits(resource.items[0], overlay.items[i], inner)
    ensures EmitsElement(resource, overlay, i, Under(Itoa(0), inner))
  {
    var ops := Under(Itoa(0), inner);
    assert EmitsBelow(resource.items[0], overlay.items[i], Itoa(0), ops);
    assert EmitsEach(resource, overlay, i, 0, []);
    assert [] + ops == ops && Joined(ops, [], ops);
    assert EmitsEach(resource, overlay, i, 1, ops);
  }

  lemma GuardedMerge(item: Json, overlay: Json, c: string, k: string)
    requires item.Obj? && Guarded(overlay, c, k) && !IsConditionAnchor(k)
    ensures Merge(item, overlay) == Obj(item.fields[RemoveAnchor(k) := MergedMember(item, overlay, k)])
  {
    var name, names := RemoveAnchor(k), Names(overlay, overlay.fields.Keys);
    assert k in overlay.fields && forall n | n in names :: n == name;
    assert KeyNamed(overlay, overlay.fields.Keys, name) == k;
    assert MergedFields(item, overlay, overlay.fields.Keys) == item.fields[name := MergedMember(item, overlay, k)];
  }

  lemma GuardedKept(item: Json, overlay: Json, c: string, k: string)
    requires item.Obj? && Guarded(overlay, c, k) && IsAddingAnchor(k) && RemoveAnchor(k) in item.fields
    ensures Merge(item, overlay) == item
  {
    GuardedMerge(item, overlay, c, k);
    assert item.fields[RemoveAnchor(k) := item.fields[RemoveAnchor(k)]] == item.fields;
  }

  // ---------- Whole documents ----------

  lemma ScalarAppended(list: Json, n: int)
    requires list.Arr? && list.items != [] && list.items[0].Int?
    ensures var inner := Arr([Int(n)]);
            && !Fails(list, inner) && Clear(list, inner) && Ordered(list, inner)
            && Merge(list, inner) == Arr(list.items + [Int(n)])
  {
    var inner := Arr([Int(n)]);
    assert !FailsElement(list, inner, 0) && !FailsElements(list, inner, 0);
    assert !FailsElements(list, inner, 1) && !Anchored(inner, 0);
    assert PlainItems(inner, 0) == [] && PlainItems(inner, 1) == [Int(n)];
    forall j | 0 <= j < |list.items| ensures MergedItem(list.items[j], inner, 1) == list.items[j] {
      NothingAnchoredYet(list.items[j], inner, 1);
    }
    assert MergedItems(list, inner, 1) == list.items + [Int(n)];
  }

  /** `{key: [n]}` on a map with a list of numbers: both runs go through, and the second one
      appends the number again. */
  lemma SecondRunAppends(resource: Json, key: string, n: int, leaf: LeafTest)
    returns (overlay: Json, first: seq<Op>, doc: Json, second: seq<Op>, doc': Json)
    requires resource.Obj? && IsPlain(key) && key in resource.fields
    requires resource.fields[key].Arr? && resource.fields[key].items != [] && resource.fields[key].items[0].Int?
    ensures overlay == Nest(key, Arr([Int(n)])) && Meets(resource, overlay, leaf) && Meets(doc, overlay, leaf)
    ensures MayReturn(resource, overlay, first) && ApplyAll(resource, first) == Some(doc)
    ensures MayReturn(doc, overlay, second) && ApplyAll(doc, second) == Some(doc') && doc' != doc
  {
    overlay := Nest(key, Arr([Int(n)]));
    first, doc := RunOnce(resource, key, n);
    second, doc' := RunOnce(doc, key, n);
    assert overlay.fields[key] == Arr([Int(n)]) && forall k | k in overlay.fields :: k == key;
    assert !HasNestedAnchors(overlay.fields[key].items[0]);
    assert !HasNestedAnchors(overlay);
  }

  lemma RunOnce(resource: Json, key: string, n: int) returns (ops: seq<Op>, doc: Json)
    requires resource.Obj? && IsPlain(key) && key in resource.fields
    requires resource.fields[key].Arr? && resource.fields[key].items != [] && resource.fields[key].items[0].Int?
    ensures MayReturn(resource, Nest(key, Arr([Int(n)])), ops) && ApplyAll(resource, ops) == Some(doc)
    ensures doc == Obj(resource.fields[key := Arr(resource.fields[key].items + [Int(n)])])
  {
    var inner := Arr([Int(n)]);
    ScalarAppended(resource.fields[key], n);
    NestEmits(resource, key, inner, []);
    NestClear(resource, key, inner);
    NestMerge(resource, key, inner);
    ops := Returned(resource, Nest(key, inner));
    PatchesPerformMerge(resource, Nest(key, inner), ops);
    doc := Merge(resource, Nest(key, inner));
  }

  /** `overlay` is `{c: .., k: n}`, with a condition and a member that `item` does not have. */
  ghost predicate AddsUnder(overlay: Json, c: string, k: string, item: Json) {
    && Guarded(overlay, c, k) && IsPlain(k) && overlay.fields[k].Int?
    && item.Obj? && k !in item.fields
  }

  lemma Added(overlay: Json, c: string, k: string, item: Json)
    requires AddsUnder(overlay, c, k, item)
    ensures !Fails(item, overlay) && Clear(item, overlay) && Ordered(item, overlay)
  {
    GuardedOrdered(item, overlay, c, k);
    assert !FailsKey(item, overlay, c) && !FailsKey(item, overlay, k);
    assert ClearKey(item, overlay, c) && ClearKey(item, overlay, k);
  }

  lemma AddedMerge(overlay: Json, c: string, k: string, item: Json)
    requires AddsUnder(overlay, c, k, item)
    ensures Merge(item, overlay) == Obj(item.fields[k := overlay.fields[k]])
  {
    GuardedMerge(item, overlay, c, k);
  }

  lemma GuardedMeets(overlay: Json, c: string, k: string, item: Json, leaf: LeafTest)
    requires AddsUnder(overlay, c, k, item)
    ensures MeetsMap(item, overlay, leaf) <==> MeetsKey(item, overlay, c, leaf)
  {
    assert !HasNestedAnchors(overlay.fields[k]);
    assert MeetsKey(item, overlay, k, leaf);
  }

  /** The condition of the anchored element holds of `item` and not of `other`: both change. */
  lemma UnmatchedElementIsMutated(resource: Json, key: string, item: Json, other: Json,
                                  element: Json, c: string, k: string, leaf: LeafTest)
    returns (overlay: Json, ops: seq<Op>, doc: Json)
    requires resource.Obj? && IsPlain(key) && key in resource.fields && resource.fields[key] == Arr([item, other])
    requires AddsUnder(element, c, k, item) && AddsUnder(element, c, k, other)
    requires MeetsKey(item, element, c, leaf) && !MeetsKey(other, element, c, leaf)
    ensures overlay == Nest(key, Arr([element]))
    ensures Meets(resource, overlay, leaf) && !MeetsMap(other, element, leaf)
    ensures MayReturn(resource, overlay, ops) && ApplyAll(resource, ops) == Some(doc)
    ensures Lookup(doc, [key, Itoa(1)]) == Some(Obj(other.fields[k := element.fields[k]]))
    ensures Lookup(doc, [key, Itoa(1)]) != Lookup(resource, [key, Itoa(1)]) == Some(other)
  {
    var list, inner := resource.fields[key], Arr([element]);
    overlay := Nest(key, inner);
    GuardedMeets(element, c, k, item, leaf);
    GuardedMeets(element, c, k, other, leaf);
    assert c in element.fields && Anchored(inner, 0);
    OneElement(list, inner, c, k, leaf);
    NestMeets(resource, key, inner, leaf);
    NestEmits(resource, key, inner, []);
    NestClear(resource, key, inner);
    NestMerge(resource, key, inner);
    ops := Returned(resource, overlay);
    PatchesPerformMerge(resource, overlay, ops);
    doc := Merge(resource, overlay);
    LookupElement(doc, key);
    LookupElement(resource, key);
    assert k in doc.fields[key].items[1].fields;
  }

  lemma LookupElement(doc: Json, key: string)
    requires doc.Obj? && key in doc.fields && doc.fields[key].Arr? && |doc.fields[key].items| == 2
    ensures Lookup(doc, [key, Itoa(1)]) == Some(doc.fields[key].items[1])
  {
    var path, list := [key, Itoa(1)], doc.fields[key];
    IndexRoundTrip(1);
    assert path[1..] == [Itoa(1)] && path[1..][1..] == [];
    assert Child(list, Itoa(1)) == Some(list.items[1]);
    assert Lookup(list.items[1], path[1..][1..]) == Some(list.items[1]);
    assert Lookup(list, path[1..]) == Some(list.items[1]);
  }

  lemma OneElement(list: Json, inner: Json, c: string, k: string, leaf: LeafTest)
    requires list.Arr? && |list.items| == 2 && inner.Arr? && Single(inner)
    requires AddsUnder(inner.items[0], c, k, list.items[0]) && AddsUnder(inner.items[0], c, k, list.items[1])
    requires MeetsMap(list.items[0], inner.items[0], leaf)
    ensures Meets(list, inner, leaf) && !Fails(list, inner) && Clear(list, inner) && Ordered(list, inner)
    ensures Merge(list, inner) == Arr([Obj(list.items[0].fields[k := inner.items[0].fields[k]]),
                                       Obj(list.items[1].fields[k := inner.items[0].fields[k]])])
  {
    FirstMeets(list, inner, leaf);
    OneElementIsFine(list, inner, c, k);
    TwoByOne(list, inner);
    AddedMerge(inner.items[0], c, k, list.items[0]);
    AddedMerge(inner.items[0], c, k, list.items[1]);
  }

  lemma OneElementIsFine(list: Json, inner: Json, c: string, k: string)
    requires list.Arr? && |list.items| == 2 && inner.Arr? && Single(inner)
    requires AddsUnder(inner.items[0], c, k, list.items[0]) && AddsUnder(inner.items[0], c, k, list.items[1])
    ensures !Fails(list, inner) && Clear(list, inner) && Ordered(list, inner)
  {
    forall j | 0 <= j < |list.items|
      ensures !Fails(list.items[j], inner.items[0])
      ensures Clear(list.items[j], inner.items[0]) && Ordered(list.items[j], inner.items[0])
    {
      Added(inner.items[0], c, k, list.items[j]);
    }
    SingleIsFine(list, inner);
  }

  lemma TwoByOne(list: Json, inner: Json)
    requires list.Arr? && |list.items| == 2 && inner.Arr? && Single(inner)
    ensures Merge(list, inner) == Arr([Merge(list.items[0], inner.items[0]), Merge(list.items[1], inner.items[0])])
  {
    MergedSingle(list, inner);
    var merged := MergedItems(list, inner, 1);
    assert |merged| == 2 && merged[0] == Merge(list.items[0], inner.items[0])
      && merged[1] == Merge(list.items[1], inner.items[0]);
    assert merged == [merged[0], merged[1]];
  }

  lemma FirstMeets(list: Json, inner: Json, leaf: LeafTest)
    requires list.Arr? && inner.Arr? && list.items != [] && inner.items != []
    requires MeetsMap(list.items[0], inner.items[0], leaf)
    ensures Meets(list, inner, leaf)
  {
  }

  lemma SingleIsFine(list: Json, inner: Json)
    requires list.Arr? && inner.Arr? && list.items != [] && list.items[0].Obj? && Single(inner)
    requires forall j | 0 <= j < |list.items| ::
               !Fails(list.items[j], inner.items[0]) && Clear(list.items[j], inner.items[0])
                 && Ordered(list.items[j], inner.items[0])
    ensures !Fails(list, inner) && Clear(list, inner) && Ordered(list, inner)
  {
    assert !FailsElement(list, inner, 0) && !FailsElements(list, inner, 0);
    assert !FailsElements(list, inner, 1);
    assert ClearElement(list, inner, 0);
    assert OrderedElements(list, inner, 1);
  }

  /** `{"c": [{"n": 1}, {"n": 2}]}` under `{"c": [{"(n)": 1, "v": 5}]}` */
  lemma AnchorsDoNotChoose(leaf: LeafTest)
    returns (resource: Json, overlay: Json, ops: seq<Op>, doc: Json)
    requires leaf(Int(1), Int(1)) && !leaf(Int(2), Int(1))
    ensures Meets(resource, overlay, leaf) && MayReturn(resource, overlay, ops) && ApplyAll(resource, ops) == Some(doc)
    ensures Lookup(resource, ["c", Itoa(1)]) == Some(Obj(map["n" := Int(2)]))
    ensures Lookup(doc, ["c", Itoa(1)]) == Some(Obj(map["n" := Int(2), "v" := Int(5)]))
    ensures !MeetsMap(Obj(map["n" := Int(2)]), Obj(map["(n)" := Int(1), "v" := Int(5)]), leaf)
  {
    var item, other := Obj(map["n" := Int(1)]), Obj(map["n" := Int(2)]);
    var element := Obj(map["(n)" := Int(1), "v" := Int(5)]);
    resource := Obj(map["c" := Arr([item, other])]);
    assert RemoveAnchor("(n)") == "n" && IsConditionAnchor("(n)") && IsPlain("c") && IsPlain("v");
    overlay, ops, doc := UnmatchedElementIsMutated(resource, "c", item, other, element, "(n)", "v", leaf);
  }

  // ---------- Plain after anchored ----------

  /** `[element, plain]`: the plain element is to be inserted one place beyond the end. */
  lemma PlainAfterAnchoredFails(resource: Json, key: string, item: Json, element: Json, plain: Json,
                                c: string, k: string, leaf: LeafTest)
    returns (overlay: Json, ops: seq<Op>)
    requires resource.Obj? && IsPlain(key) && key in resource.fields && resource.fields[key] == Arr([item])
    requires AddsUnder(element, c, k, item) && MeetsKey(item, element, c, leaf)
    requires plain.Obj? && !HasNestedAnchors(plain) && !HasOnlyAnchors(plain) && StripClear(plain)
    ensures overlay == Nest(key, Arr([element, plain])) && Meets(resource, overlay, leaf)
    ensures MayReturn(resource, overlay, ops)
    ensures Clear(resource, overlay) && !Ordered(resource, overlay) && ApplyAll(resource, ops) == None
  {
    var list, inner := resource.fields[key], Arr([element, plain]);
    overlay := Nest(key, inner);
    GuardedMeets(element, c, k, item, leaf);
    Added(element, c, k, item);
    assert c in element.fields && Anchored(inner, 0) && !Anchored(inner, 1);
    FirstMeets(list, inner, leaf);
    PlainSecond(list, inner);
    NestMeets(resource, key, inner, leaf);
    NestEmits(resource, key, inner, []);
    NestClear(resource, key, inner);
    ops := Returned(resource, overlay);
    PatchesPerformMerge(resource, overlay, ops);
  }

  ghost predicate AnchoredThenPlain(list: Json, inner: Json) {
    && list.Arr? && |list.items| == 1 && list.items[0].Obj?
    && inner.Arr? && |inner.items| == 2 && inner.items[0].Obj? && inner.items[1].Obj?
    && Anchored(inner, 0) && !Anchored(inner, 1)
  }

  lemma PlainSecond(list: Json, inner: Json)
    requires AnchoredThenPlain(list, inner)
    requires !Fails(list.items[0], inner.items[0]) && Clear(list.items[0], inner.items[0])
    requires !HasOnlyAnchors(inner.items[1]) && StripClear(inner.items[1])
    ensures !Fails(list, inner) && Clear(list, inner) && !Ordered(list, inner)
  {
    PlainSecondReturns(list, inner);
    PlainSecondIsClear(list, inner);
    assert !OrderedElements(list, inner, 2);
  }

  lemma PlainSecondReturns(list: Json, inner: Json)
    requires AnchoredThenPlain(list, inner)
    requires !Fails(list.items[0], inner.items[0]) && !HasOnlyAnchors(inner.items[1])
    ensures !Fails(list, inner)
  {
    assert !FailsElement(list, inner, 0) && !FailsElements(list, inner, 0);
    assert !FailsElement(list, inner, 1) && !FailsElements(list, inner, 1);
    assert !FailsElements(list, inner, 2);
  }

  lemma PlainSecondIsClear(list: Json, inner: Json)
    requires AnchoredThenPlain(list, inner)
    requires Clear(list.items[0], inner.items[0]) && StripClear(inner.items[1])
    ensures Clear(list, inner)
  {
    forall i | 0 <= i < |inner.items| ensures ClearElement(list, inner, i) {
      if i == 0 {
        forall j | 0 <= j < |list.items| ensures Clear(list.items[j], inner.items[0]) {
          assert j == 0;
        }
      }
    }
  }
}
