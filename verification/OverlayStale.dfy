/** Patches on a document that has changed since they were computed: when they still perform the
    merge. Two anchored elements of one array are the case that arises, because the patches for
    the second one are computed from the elements before the first one was merged into them. */
module OverlayStale {
  import opened Json
  import opened JsonPatch
  import opened Anchors
  import opened OverlaySpec
  import opened OverlayProof
  import opened OverlayLaws

  /** The merge never gets to an array of the overlay on an array. */
  predicate Listless(item: Json, overlay: Json) {
    SameType(item, overlay) ==>
      match overlay
      case Obj(fields) =>
        forall k | k in fields && !IsConditionAnchor(k) && !IsAddingAnchor(k) && RemoveAnchor(k) in item.fields ::
          Listless(item.fields[RemoveAnchor(k)], fields[k])
      case Arr(_) => false
      case _ => true
  }

  /** What is replaced as a whole must merge to the same, and `now` must be a map with every
      member that exists in `item`; a member that has appeared since must merge to what is
      inserted. */
  ghost predicate StillRight(item: Json, now: Json, overlay: Json)
    decreases overlay, 1
  {
    if SameType(item, overlay) && overlay.Obj? then
      now.Obj? && forall k | k in overlay.fields && !IsConditionAnchor(k) :: StillRightAt(item, now, overlay, k)
    else
      Merge(now, overlay) == Strip(overlay)
  }

  ghost predicate StillRightAt(item: Json, now: Json, overlay: Json, key: string)
    requires item.Obj? && now.Obj? && overlay.Obj? && key in overlay.fields
    decreases overlay, 0
  {
    var name, value := RemoveAnchor(key), overlay.fields[key];
    if name !in item.fields then
      MergedMember(now, overlay, key) == Strip(value)
    else
      name in now.fields && (IsAddingAnchor(key) || StillRight(item.fields[name], now.fields[name], value))
  }

  // ---------- One document ----------

  /** The patches computed from `item` merge the overlay into `now` exactly then. */
  lemma {:induction false} PatchesStillRight(item: Json, now: Json, overlay: Json, ops: seq<Op>)
    requires Tame(overlay) && Listless(item, overlay) && Emits(item, overlay, ops)
    ensures ApplyAll(now, ops) == Some(Merge(now, overlay)) <==> StillRight(item, now, overlay)
    decreases overlay, 3
  {
    TameStripsClear(overlay);
    if !SameType(item, overlay) {
      SubtreeApplied(now, overlay, Replace, ops);
    } else if overlay.Obj? {
      if now.Obj? {
        StaleKeys(item, now, overlay, overlay.fields.Keys, ops);
        AllKeysDone(item, now, overlay, ApplyAll(now, ops));
      } else {
        KeysShape(item, overlay, overlay.fields.Keys, ops);
        NeverBecomesAMap(now, ops);
      }
    } else {
      ApplyOne(now, ops[0]);
    }
  }

  lemma {:induction false} NeverBecomesAMap(doc: Json, ops: seq<Op>)
    requires !doc.Obj? && Below(ops)
    ensures ApplyAll(doc, ops).Some? ==> !ApplyAll(doc, ops).value.Obj?
    decreases |ops|
  {
    if ops != [] {
      assert ops[0].path != [];
      var doc' := ApplyOp(doc, ops[0]);
      if doc'.Some? {
        NeverBecomesAMap(doc'.value, ops[1..]);
      }
    }
  }

  predicate SameAt(before: Json, after: Json, name: string)
    requires before.Obj? && after.Obj?
  {
    && (name in after.fields <==> name in before.fields)
    && (name in before.fields ==> after.fields[name] == before.fields[name])
  }

  ghost predicate MergedIn(now: Json, overlay: Json, key: string, doc: Json)
    requires now.Obj? && overlay.Obj? && key in overlay.fields && doc.Obj?
  {
    RemoveAnchor(key) in doc.fields && doc.fields[RemoveAnchor(key)] == MergedMember(now, overlay, key)
  }

  /** What patches for one key do to the map `mid`. */
  ghost predicate KeyDone(item: Json, now: Json, overlay: Json, key: string, mid: Json, res: Option<Json>)
    requires item.Obj? && now.Obj? && overlay.Obj? && key in overlay.fields && mid.Obj?
  {
    match res
    case None => !IsConditionAnchor(key) && !StillRightAt(item, now, overlay, key)
    case Some(doc) =>
      && doc.Obj?
      && (forall name | IsConditionAnchor(key) || name != RemoveAnchor(key) :: SameAt(mid, doc, name))
      && (!IsConditionAnchor(key) ==> (MergedIn(now, overlay, key, doc) <==> StillRightAt(item, now, overlay, key)))
  }

  lemma {:induction false} StaleKey(item: Json, now: Json, overlay: Json, key: string, mid: Json, ops: seq<Op>)
    requires Tame(overlay) && Listless(item, overlay)
    requires item.Obj? && now.Obj? && overlay.Obj? && mid.Obj? && key in overlay.fields
    requires EmitsKey(item, overlay, key, ops) && SameAt(now, mid, RemoveAnchor(key))
    ensures KeyDone(item, now, overlay, key, mid, ApplyAll(mid, ops))
    decreases overlay, 1
  {
    var name, value := RemoveAnchor(key), overlay.fields[key];
    if !IsConditionAnchor(key) {
      if name !in item.fields {
        Inserted(mid, name, value, ops);
        InsertDone(item, now, overlay, key, mid);
      } else if !IsAddingAnchor(key) {
        StaleBelow(item, now, overlay, key, mid, ops);
      } else {
        KeptDone(item, now, overlay, key, mid);
      }
    } else {
      KeptDone(item, now, overlay, key, mid);
    }
  }

  lemma {:induction false} StaleBelow(item: Json, now: Json, overlay: Json, key: string, mid: Json, ops: seq<Op>)
    requires Tame(overlay) && Listless(item, overlay)
    requires item.Obj? && now.Obj? && overlay.Obj? && mid.Obj? && key in overlay.fields
    requires !IsConditionAnchor(key) && !IsAddingAnchor(key) && RemoveAnchor(key) in item.fields
    requires EmitsBelow(item.fields[RemoveAnchor(key)], overlay.fields[key], RemoveAnchor(key), ops)
    requires SameAt(now, mid, RemoveAnchor(key))
    ensures KeyDone(item, now, overlay, key, mid, ApplyAll(mid, ops))
    decreases overlay, 0
  {
    var name, value := RemoveAnchor(key), overlay.fields[key];
    var inner := Inside(item.fields[name], value, name, ops);
    if name in now.fields {
      PatchesStillRight(item.fields[name], now.fields[name], value, inner);
      Descend(mid, name, inner);
      MemberDone(item, now, overlay, key, mid, ApplyAll(now.fields[name], inner));
    } else {
      NothingBelow(mid, name, inner);
    }
  }

  lemma MemberDone(item: Json, now: Json, overlay: Json, key: string, mid: Json, res: Option<Json>)
    requires item.Obj? && now.Obj? && overlay.Obj? && mid.Obj? && key in overlay.fields
    requires !IsConditionAnchor(key) && !IsAddingAnchor(key) && RemoveAnchor(key) in item.fields
    requires RemoveAnchor(key) in now.fields
    requires var name := RemoveAnchor(key);
             res == Some(Merge(now.fields[name], overlay.fields[key]))
             <==> StillRight(item.fields[name], now.fields[name], overlay.fields[key])
    ensures KeyDone(item, now, overlay, key, mid,
                    if res.None? then None else Some(Obj(mid.fields[RemoveAnchor(key) := res.value])))
  {
  }

  lemma InsertDone(item: Json, now: Json, overlay: Json, key: string, mid: Json)
    requires item.Obj? && now.Obj? && overlay.Obj? && mid.Obj? && key in overlay.fields
    requires !IsConditionAnchor(key) && RemoveAnchor(key) !in item.fields
    ensures KeyDone(item, now, overlay, key, mid,
                    Some(Obj(mid.fields[RemoveAnchor(key) := Strip(overlay.fields[key])])))
  {
  }

  lemma KeptDone(item: Json, now: Json, overlay: Json, key: string, mid: Json)
    requires item.Obj? && now.Obj? && overlay.Obj? && mid.Obj? && key in overlay.fields
    requires SameAt(now, mid, RemoveAnchor(key))
    requires IsConditionAnchor(key) || (IsAddingAnchor(key) && RemoveAnchor(key) in item.fields)
    ensures KeyDone(item, now, overlay, key, mid, Some(mid))
  {
  }

  lemma Inserted(mid: Json, name: string, value: Json, ops: seq<Op>)
    requires Tame(value) && mid.Obj? && EmitsSubtree(value, Add, [name], ops)
    ensures ApplyAll(mid, ops) == Some(Obj(mid.fields[name := Strip(value)]))
  {
    var stripped :| Strips(value, stripped) && ops == [Op(Add, [name], stripped)];
    TameStripsClear(value);
    ClearStrips(value, stripped);
    ApplyOne(mid, ops[0]);
  }

  /** Below a member that is gone, patches fail or do nothing. */
  lemma NothingBelow(mid: Json, name: string, inner: seq<Op>)
    requires mid.Obj? && name !in mid.fields && forall op | op in inner && op.path == [] :: op.verb == Replace
    ensures ApplyAll(mid, Under(name, inner)) == if inner == [] then Some(mid) else None
  {
    if inner != [] {
      var op := Under(name, inner)[0];
      assert inner[0] in inner && op.path == [name] + inner[0].path;
      assert ApplyOp(mid, op) == None;
    }
  }

  ghost predicate KeysDone(item: Json, now: Json, overlay: Json, keys: set<string>, res: Option<Json>)
    requires item.Obj? && now.Obj? && overlay.Obj? && keys <= overlay.fields.Keys
  {
    match res
    case None => exists k :: k in keys && !IsConditionAnchor(k) && !StillRightAt(item, now, overlay, k)
    case Some(doc) =>
      && doc.Obj?
      && (forall name | name !in Names(overlay, keys) :: SameAt(now, doc, name))
      && (forall k | k in keys && !IsConditionAnchor(k) ::
            MergedIn(now, overlay, k, doc) <==> StillRightAt(item, now, overlay, k))
  }

  lemma {:induction false} StaleKeys(item: Json, now: Json, overlay: Json, keys: set<string>, ops: seq<Op>)
    requires Tame(overlay) && Listless(item, overlay)
    requires item.Obj? && now.Obj? && overlay.Obj? && keys <= overlay.fields.Keys
    requires EmitsKeys(item, overlay, keys, ops)
    ensures KeysDone(item, now, overlay, keys, ApplyAll(now, ops))
    decreases overlay, 2, |keys|
  {
    if keys != {} {
      var k, before, last :| k in keys && Joined(ops, before, last)
        && EmitsKeys(item, overlay, keys - {k}, before) && EmitsKey(item, overlay, k, last);
      StaleKeys(item, now, overlay, keys - {k}, before);
      ApplyConcat(now, before, last);
      if ApplyAll(now, before).Some? {
        var mid := ApplyAll(now, before).value;
        assert SameAt(now, mid, RemoveAnchor(k));
        StaleKey(item, now, overlay, k, mid, last);
        OneKeyMore(item, now, overlay, keys, k, mid, ApplyAll(mid, last));
      }
    }
  }

  lemma OneKeyMore(item: Json, now: Json, overlay: Json, keys: set<string>, k: string, mid: Json, res: Option<Json>)
    requires Tame(overlay) && item.Obj? && now.Obj? && overlay.Obj? && k in keys && keys <= overlay.fields.Keys
    requires mid.Obj? && KeysDone(item, now, overlay, keys - {k}, Some(mid)) && KeyDone(item, now, overlay, k, mid, res)
    ensures KeysDone(item, now, overlay, keys, res)
  {
    NamesStep(overlay, keys, k);
    if res.Some? {
      var doc := res.value;
      forall name | name !in Names(overlay, keys) ensures SameAt(now, doc, name) {
        assert SameAt(now, mid, name) && SameAt(mid, doc, name);
      }
      forall k' | k' in keys && !IsConditionAnchor(k')
        ensures MergedIn(now, overlay, k', doc) <==> StillRightAt(item, now, overlay, k')
      {
        if k' != k {
          assert RemoveAnchor(k') != RemoveAnchor(k);
          assert SameAt(mid, doc, RemoveAnchor(k'));
          assert MergedIn(now, overlay, k', mid) <==> StillRightAt(item, now, overlay, k');
        }
      }
    }
  }

  lemma AllKeysDone(item: Json, now: Json, overlay: Json, res: Option<Json>)
    requires Tame(overlay) && item.Obj? && now.Obj? && overlay.Obj?
    requires KeysDone(item, now, overlay, overlay.fields.Keys, res)
    ensures res == Some(Merge(now, overlay)) <==> StillRight(item, now, overlay)
  {
    if res == Some(Merge(now, overlay)) {
      MergedIsAllRight(item, now, overlay);
    }
    if StillRight(item, now, overlay) {
      AllRightIsMerged(item, now, overlay, res.value);
    }
  }

  lemma MergedIsAllRight(item: Json, now: Json, overlay: Json)
    requires Tame(overlay) && item.Obj? && now.Obj? && overlay.Obj?
    requires KeysDone(item, now, overlay, overlay.fields.Keys, Some(Merge(now, overlay)))
    ensures StillRight(item, now, overlay)
  {
    forall k | k in overlay.fields && !IsConditionAnchor(k) ensures StillRightAt(item, now, overlay, k) {
      MergedAt(now, overlay, k);
      assert MergedIn(now, overlay, k, Merge(now, overlay));
    }
  }

  lemma AllRightIsMerged(item: Json, now: Json, overlay: Json, doc: Json)
    requires Tame(overlay) && item.Obj? && now.Obj? && overlay.Obj?
    requires KeysDone(item, now, overlay, overlay.fields.Keys, Some(doc))
    requires StillRight(item, now, overlay)
    ensures doc == Merge(now, overlay)
  {
    var names, merged := AllNames(overlay), MergedFields(now, overlay, overlay.fields.Keys);
    forall name
      ensures (name in doc.fields <==> name in merged) && (name in merged ==> doc.fields[name] == merged[name])
    {
      if name in names {
        var k := KeyNamed(overlay, overlay.fields.Keys, name);
        assert StillRightAt(item, now, overlay, k);
        assert MergedIn(now, overlay, k, doc);
      } else {
        assert SameAt(now, doc, name);
      }
    }
    assert doc.fields == merged;
  }

  // ---------- Two anchored elements of an array ----------

  /** Patches of overlay element `i`, computed from the first `n` elements, on the elements as
      they are now. */
  ghost predicate EachDone(resource: Json, value: Json, n: nat, now: seq<Json>, res: Option<Json>)
    requires resource.Arr? && n <= |resource.items| == |now|
  {
    match res
    case None => exists j :: 0 <= j < n && !StillRight(resource.items[j], now[j], value)
    case Some(doc) =>
      && doc.Arr? && |doc.items| == |now|
      && (forall j | n <= j < |now| :: doc.items[j] == now[j])
      && (forall j | 0 <= j < n ::
            doc.items[j] == Merge(now[j], value) <==> StillRight(resource.items[j], now[j], value))
  }

  lemma {:induction false} StaleEach(resource: Json, overlay: Json, i: nat, n: nat, now: seq<Json>, ops: seq<Op>)
    requires resource.Arr? && overlay.Arr? && i < |overlay.items| && n <= |resource.items| == |now|
    requires Tame(overlay.items[i]) && overlay.items[i].Obj?
    requires forall j | 0 <= j < n :: Listless(resource.items[j], overlay.items[i])
    requires EmitsEach(resource, overlay, i, n, ops)
    ensures EachDone(resource, overlay.items[i], n, now, ApplyAll(Arr(now), ops))
    decreases n
  {
    if n > 0 {
      var before, last :| Joined(ops, before, last) && EmitsEach(resource, overlay, i, n - 1, before)
        && EmitsBelow(resource.items[n - 1], overlay.items[i], Itoa(n - 1), last);
      StaleEach(resource, overlay, i, n - 1, now, before);
      ApplyConcat(Arr(now), before, last);
      if ApplyAll(Arr(now), before).Some? {
        StaleElement(resource, overlay.items[i], n, now, ApplyAll(Arr(now), before).value, last);
      }
    }
  }

  lemma StaleElement(resource: Json, value: Json, n: nat, now: seq<Json>, mid: Json, ops: seq<Op>)
    requires resource.Arr? && 0 < n <= |resource.items| == |now| && EachDone(resource, value, n - 1, now, Some(mid))
    requires Tame(value) && value.Obj? && Listless(resource.items[n - 1], value)
    requires EmitsBelow(resource.items[n - 1], value, Itoa(n - 1), ops)
    ensures EachDone(resource, value, n, now, ApplyAll(mid, ops))
  {
    var inner := Inside(resource.items[n - 1], value, Itoa(n - 1), ops);
    IntoElement(mid.items, n - 1, inner);
    PatchesStillRight(resource.items[n - 1], now[n - 1], value, inner);
    ElementDone(resource, value, n, now, mid, ApplyAll(now[n - 1], inner));
  }

  lemma IntoElement(items: seq<Json>, i: nat, inner: seq<Op>)
    requires i < |items| && forall op | op in inner && op.path == [] :: op.verb == Replace
    ensures var res := ApplyAll(items[i], inner);
            ApplyAll(Arr(items), Under(Itoa(i), inner)) == if res.None? then None else Some(Arr(items[i := res.value]))
  {
    IndexRoundTrip(i);
    Descend(Arr(items), Itoa(i), inner);
  }

  lemma ElementDone(resource: Json, value: Json, n: nat, now: seq<Json>, mid: Json, res: Option<Json>)
    requires resource.Arr? && 0 < n <= |resource.items| == |now| && EachDone(resource, value, n - 1, now, Some(mid))
    requires res == Some(Merge(now[n - 1], value)) <==> StillRight(resource.items[n - 1], now[n - 1], value)
    ensures EachDone(resource, value, n, now, if res.None? then None else Some(Arr(mid.items[n - 1 := res.value])))
  {
  }

  lemma Inside(item: Json, overlay: Json, token: string, ops: seq<Op>) returns (inner: seq<Op>)
    requires EmitsBelow(item, overlay, token, ops) && Listless(item, overlay)
    ensures ops == Under(token, inner) && Emits(item, overlay, inner)
    ensures forall op | op in inner && op.path == [] :: op.verb == Replace
  {
    inner :| ops == Under(token, inner) && Emits(item, overlay, inner);
    EmittedShape(item, overlay, inner);
  }

  /** An overlay array of two anchored elements. */
  ghost predicate TwoAnchored(overlay: Json) {
    && overlay.Arr? && |overlay.items| == 2 && Anchored(overlay, 0) && Anchored(overlay, 1)
    && Tame(overlay.items[0]) && Tame(overlay.items[1])
  }

  /** Two anchored elements perform the merge exactly if the patches for the second one are still
      right, in every element of the array, after the first one was merged into it. */
  lemma TwoAnchoredExactly(resource: Json, overlay: Json, ops: seq<Op>)
    requires resource.Arr? && resource.items != [] && TwoAnchored(overlay) && Emits(resource, overlay, ops)
    requires forall j | 0 <= j < |resource.items| :: Ordered(resource.items[j], overlay.items[0])
    requires forall j | 0 <= j < |resource.items| :: Listless(resource.items[j], overlay.items[1])
    ensures ApplyAll(resource, ops) == Some(Merge(resource, overlay)) <==>
              forall j | 0 <= j < |resource.items| ::
                StillRight(resource.items[j], Merge(resource.items[j], overlay.items[0]), overlay.items[1])
  {
    var now, last := FirstMerged(resource, overlay, ops);
    StaleEach(resource, overlay, 1, |resource.items|, now, last);
    BothMerged(resource, overlay, now, ApplyAll(Arr(now), last));
  }

  lemma FirstMerged(resource: Json, overlay: Json, ops: seq<Op>) returns (now: seq<Json>, last: seq<Op>)
    requires resource.Arr? && resource.items != [] && TwoAnchored(overlay) && Emits(resource, overlay, ops)
    requires forall j | 0 <= j < |resource.items| :: Ordered(resource.items[j], overlay.items[0])
    ensures |now| == |resource.items|
    ensures forall j | 0 <= j < |now| :: now[j] == Merge(resource.items[j], overlay.items[0])
    ensures overlay.items[1].Obj? && EmitsEach(resource, overlay, 1, |resource.items|, last)
    ensures ApplyAll(resource, ops) == ApplyAll(Arr(now), last)
  {
    var len, first, none, before := |resource.items|, [], [], [];
    before, last :| Joined(ops, before, last)
      && EmitsElements(resource, overlay, 1, before) && EmitsElement(resource, overlay, 1, last);
    none, first :| Joined(before, none, first)
      && EmitsElements(resource, overlay, 0, none) && EmitsElement(resource, overlay, 0, first);
    assert before == first;
    forall j | 0 <= j < len ensures Clear(resource.items[j], overlay.items[0]) {
      TameIsUnambiguous(resource.items[j], overlay.items[0]);
    }
    EachApplied(resource, overlay, 0, len, resource.items, first);
    now := MergedInto(resource, overlay, 0, len, resource.items);
    ApplyConcat(resource, before, last);
  }

  lemma BothMerged(resource: Json, overlay: Json, now: seq<Json>, res: Option<Json>)
    requires resource.Arr? && resource.items != [] && TwoAnchored(overlay) && |now| == |resource.items|
    requires forall j | 0 <= j < |now| :: now[j] == Merge(resource.items[j], overlay.items[0])
    requires EachDone(resource, overlay.items[1], |now|, now, res)
    ensures res == Some(Merge(resource, overlay)) <==>
              forall j | 0 <= j < |now| :: StillRight(resource.items[j], now[j], overlay.items[1])
  {
    MergedTwice(resource, overlay);
    var merged := Merge(resource, overlay);
    if res.Some? && forall j | 0 <= j < |now| :: StillRight(resource.items[j], now[j], overlay.items[1]) {
      assert res.value.items == merged.items;
    }
  }

  lemma MergedTwice(resource: Json, overlay: Json)
    requires resource.Arr? && resource.items != [] && TwoAnchored(overlay)
    ensures var merged := Merge(resource, overlay);
            && merged.Arr? && |merged.items| == |resource.items|
            && forall j | 0 <= j < |resource.items| ::
                 merged.items[j] == Merge(Merge(resource.items[j], overlay.items[0]), overlay.items[1])
  {
    ArrayGrowth(resource, overlay);
    assert PlainCount(overlay, 2) == PlainCount(overlay, 1) == PlainCount(overlay, 0);
    forall j | 0 <= j < |resource.items|
      ensures MergedItem(resource.items[j], overlay, 2)
           == Merge(Merge(resource.items[j], overlay.items[0]), overlay.items[1])
    {
      ItemMergedTwice(resource.items[j], overlay);
    }
  }

  lemma ItemMergedTwice(item: Json, overlay: Json)
    requires TwoAnchored(overlay)
    ensures MergedItem(item, overlay, 2) == Merge(Merge(item, overlay.items[0]), overlay.items[1])
  {
    assert MergedItem(item, overlay, 0) == item;
    assert MergedItem(item, overlay, 1) == Merge(item, overlay.items[0]);
  }
}
