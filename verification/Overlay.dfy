/** The patch generator itself: it walks resource and overlay together and appends patches as
    it goes, ranging over maps in an arbitrary order. */
module Overlay {
  import opened Json
  import opened JsonPatch
  import opened Anchors
  import opened OverlaySpec
  import opened OverlayInsertion
  import Pointer

  datatype Outcome = Patches(ops: seq<Op>) | GenerationError | Panic

  /** Operations relative to the position `at`, with the paths that actually arrive. */
  ghost function Placed(at: seq<string>, ops: seq<Op>): seq<Op> {
    seq(|ops|, i requires 0 <= i < |ops| => ops[i].(path := Pointer.Sent(at + ops[i].path)))
  }

  lemma PlacedConcat(at: seq<string>, ops: seq<Op>, more: seq<Op>)
    ensures Placed(at, ops + more) == Placed(at, ops) + Placed(at, more)
  {
  }

  lemma PlacedUnder(at: seq<string>, token: string, ops: seq<Op>)
    ensures Placed(at + [token], ops) == Placed(at, Under(token, ops))
    ensures Pointer.Render(at + [token]) == Pointer.Render(at) + token + "/"
  {
    forall i | 0 <= i < |ops| ensures at + [token] + ops[i].path == at + Under(token, ops)[i].path {
    }
    assert (at + [token])[..|at|] == at;
    if at == [] {
      assert (at + [token])[0] == token;
    }
  }

  method ApplyOverlay(resource: Json, overlay: Json, path: string, ghost at: seq<string>)
    returns (res: Outcome, ghost inner: seq<Op>)
    requires path == Pointer.Render(at)
    ensures !res.Patches? <==> Fails(resource, overlay)
    ensures !SameType(resource, overlay) ==> (!res.Patches? <==> NothingToInsert(overlay))
    ensures res.Panic? ==> MayPanic(resource, overlay)
    ensures res.Patches? ==> Emits(resource, overlay, inner) && res.ops == Placed(at, inner)
    decreases overlay, 6
  {
    if !SameType(resource, overlay) {
      assert at + [] == at;
      res, inner := ProcessSubtree(overlay, path, at, [], Replace);
    } else {
      res, inner := ApplyOverlayForSameTypes(resource, overlay, path, at);
    }
  }

  method ApplyOverlayForSameTypes(resource: Json, overlay: Json, path: string, ghost at: seq<string>)
    returns (res: Outcome, ghost inner: seq<Op>)
    requires SameType(resource, overlay)
    requires path == Pointer.Render(at)
    ensures !res.Patches? <==> Fails(resource, overlay)
    ensures res.Panic? ==> MayPanic(resource, overlay)
    ensures res.Patches? ==> Emits(resource, overlay, inner) && res.ops == Placed(at, inner)
    decreases overlay, 5
  {
    match overlay
    case Obj(_) =>
      res, inner := ApplyOverlayToMap(resource, overlay, path, at);
    case Arr(_) =>
      res, inner := ApplyOverlayToArray(resource, overlay, path, at);
    case Null =>
      res, inner := GenerationError, [];
    case _ =>
      assert at + [] == at;
      res, inner := ProcessSubtree(overlay, path, at, [], Replace);
  }

  method ApplyOverlayToMap(resource: Json, overlay: Json, path: string, ghost at: seq<string>)
    returns (res: Outcome, ghost inner: seq<Op>)
    requires resource.Obj? && overlay.Obj?
    requires path == Pointer.Render(at)
    ensures !res.Patches? <==> Fails(resource, overlay)
    ensures res.Panic? ==> MayPanic(resource, overlay)
    ensures res.Patches? ==> Emits(resource, overlay, inner) && res.ops == Placed(at, inner)
    decreases overlay, 3
  {
    var applied: seq<Op> := [];
    var todo := overlay.fields.Keys;
    inner := [];
    assert overlay.fields.Keys - todo == {};
    while todo != {}
      invariant todo <= overlay.fields.Keys
      invariant EmitsKeys(resource, overlay, overlay.fields.Keys - todo, inner)
      invariant applied == Placed(at, inner)
      invariant forall k | k in overlay.fields.Keys - todo :: !FailsKey(resource, overlay, k)
      decreases |todo|
    {
      var key :| key in todo;
      var r, added := ApplyOverlayToMember(resource, overlay, key, path, at);
      if !r.Patches? {
        return r, inner;
      }
      KeyDone(resource, overlay, overlay.fields.Keys - todo, key, inner, added);
      assert overlay.fields.Keys - (todo - {key}) == overlay.fields.Keys - todo + {key};
      PlacedConcat(at, inner, added);
      applied := applied + r.ops;
      inner, todo := inner + added, todo - {key};
    }
    assert overlay.fields.Keys - todo == overlay.fields.Keys;
    res := Patches(applied);
  }

  lemma KeyDone(resource: Json, overlay: Json, seen: set<string>, key: string, before: seq<Op>, last: seq<Op>)
    requires resource.Obj? && overlay.Obj? && key !in seen && seen + {key} <= overlay.fields.Keys
    requires EmitsKeys(resource, overlay, seen, before)
    requires EmitsKey(resource, overlay, key, last)
    ensures EmitsKeys(resource, overlay, seen + {key}, before + last)
  {
    var keys, ops := seen + {key}, before + last;
    assert keys - {key} == seen && key in keys && Joined(ops, before, last);
  }

  /** The body of the loop over the members of an overlay map. */
  method ApplyOverlayToMember(resource: Json, overlay: Json, key: string, path: string, ghost at: seq<string>)
    returns (res: Outcome, ghost inner: seq<Op>)
    requires resource.Obj? && overlay.Obj? && key in overlay.fields
    requires path == Pointer.Render(at)
    ensures !res.Patches? <==> FailsKey(resource, overlay, key)
    ensures res.Panic? ==> MayPanicKey(resource, overlay, key)
    ensures res.Patches? ==> EmitsKey(resource, overlay, key, inner) && res.ops == Placed(at, inner)
    decreases overlay, 2
  {
    res, inner := Patches([]), [];
    if IsConditionAnchor(key) {
      return;
    }
    var noAnchorKey := RemoveAnchor(key);
    var currentPath := path + noAnchorKey + "/";
    PlacedUnder(at, noAnchorKey, []);
    var ok := noAnchorKey in resource.fields;
    if ok && !IsAddingAnchor(key) {
      ghost var below;
      res, below := ApplyOverlay(resource.fields[noAnchorKey], overlay.fields[key], currentPath, at + [noAnchorKey]);
      PlacedUnder(at, noAnchorKey, below);
      inner := Under(noAnchorKey, below);
    }
    if !ok {
      res, inner := ProcessSubtree(overlay.fields[key], currentPath, at, [noAnchorKey], Add);
    }
  }

  method ApplyOverlayToArray(resource: Json, overlay: Json, path: string, ghost at: seq<string>)
    returns (res: Outcome, ghost inner: seq<Op>)
    requires resource.Arr? && overlay.Arr?
    requires path == Pointer.Render(at)
    ensures !res.Patches? <==> Fails(resource, overlay)
    ensures res.Panic? ==> MayPanic(resource, overlay)
    ensures res.Patches? ==> Emits(resource, overlay, inner) && res.ops == Placed(at, inner)
    decreases overlay, 4
  {
    if overlay.items == [] {
      return GenerationError, [];
    }
    if resource.items == [] {
      assert at + [] == at;
      res, inner := ProcessSubtree(overlay, path, at, [], Add);
      return;
    }
    if !SameType(resource.items[0], overlay.items[0]) {
      return GenerationError, [];
    }
    res, inner := ApplyOverlayToArrayOfSameTypes(resource, overlay, path, at);
  }

  lemma ElementDone(resource: Json, overlay: Json, i: nat, before: seq<Op>, last: seq<Op>)
    requires resource.Arr? && overlay.Arr? && i < |overlay.items|
    requires EmitsElements(resource, overlay, i, before)
    requires EmitsElement(resource, overlay, i, last)
    ensures EmitsElements(resource, overlay, i + 1, before + last)
  {
    assert Joined(before + last, before, last);
  }

  /** An error at one element is an error of the whole array. */
  lemma {:induction false} ElementFails(resource: Json, overlay: Json, i: nat, n: nat)
    requires resource.Arr? && overlay.Arr? && i < n <= |overlay.items|
    requires FailsElement(resource, overlay, i)
    ensures FailsElements(resource, overlay, n)
  {
    if i < n - 1 {
      ElementFails(resource, overlay, i, n - 1);
    }
  }

  method ApplyOverlayToArrayOfSameTypes(resource: Json, overlay: Json, path: string, ghost at: seq<string>)
    returns (res: Outcome, ghost inner: seq<Op>)
    requires resource.Arr? && overlay.Arr? && resource.items != [] && overlay.items != []
    requires SameType(resource.items[0], overlay.items[0])
    requires path == Pointer.Render(at)
    ensures !res.Patches? <==> Fails(resource, overlay)
    ensures res.Panic? ==> MayPanic(resource, overlay)
    ensures res.Patches? ==> Emits(resource, overlay, inner) && res.ops == Placed(at, inner)
    decreases overlay, 3
  {
    if overlay.items[0].Obj? {
      res, inner := ApplyOverlayToArrayOfMaps(resource, overlay, path, at);
      return;
    }
    var applied: seq<Op> := [];
    inner := [];
    var lastElementIdx := |resource.items|;
    for i := 0 to |overlay.items|
      invariant EmitsElements(resource, overlay, i, inner)
      invariant applied == Placed(at, inner)
      invariant !FailsElements(resource, overlay, i)
    {
      var token := Itoa(lastElementIdx + i);
      PlacedUnder(at, token, []);
      var r, one := ProcessSubtree(overlay.items[i], path + token + "/", at, [token], Add);
      if !r.Patches? {
        ElementFails(resource, overlay, i, |overlay.items|);
        return r, inner;
      }
      assert EmitsElement(resource, overlay, i, one);
      ElementDone(resource, overlay, i, inner, one);
      PlacedConcat(at, inner, one);
      applied := applied + r.ops;
      inner := inner + one;
    }
    res := Patches(applied);
  }

  method ApplyOverlayToArrayOfMaps(resource: Json, overlay: Json, path: string, ghost at: seq<string>)
    returns (res: Outcome, ghost inner: seq<Op>)
    requires resource.Arr? && overlay.Arr? && resource.items != [] && overlay.items != []
    requires resource.items[0].Obj? && overlay.items[0].Obj?
    requires path == Pointer.Render(at)
    ensures !res.Patches? <==> Fails(resource, overlay)
    ensures res.Panic? ==> MayPanic(resource, overlay)
    ensures res.Patches? ==> Emits(resource, overlay, inner) && res.ops == Placed(at, inner)
    decreases overlay, 2
  {
    var applied: seq<Op> := [];
    inner := [];
    var lastElementIdx := |resource.items|;
    for i := 0 to |overlay.items|
      invariant EmitsElements(resource, overlay, i, inner)
      invariant applied == Placed(at, inner)
      invariant !FailsElements(resource, overlay, i)
    {
      var r, added := ApplyOverlayToElement(resource, overlay, i, path, at);
      if !r.Patches? {
        ElementFails(resource, overlay, i, |overlay.items|);
        return r, inner;
      }
      ElementDone(resource, overlay, i, inner, added);
      PlacedConcat(at, inner, added);
      applied := applied + r.ops;
      inner := inner + added;
    }
    res := Patches(applied);
  }

  /** The body of the loop over an overlay array of maps. An element that is not a map makes
      the type assertion of the walk panic. */
  method ApplyOverlayToElement(resource: Json, overlay: Json, i: nat, path: string, ghost at: seq<string>)
    returns (res: Outcome, ghost inner: seq<Op>)
    requires resource.Arr? && overlay.Arr? && i < |overlay.items| && overlay.items[0].Obj?
    requires path == Pointer.Render(at)
    ensures !res.Patches? <==> FailsElement(resource, overlay, i)
    ensures res.Panic? ==> MayPanicElement(resource, overlay, i)
    ensures res.Patches? ==> EmitsElement(resource, overlay, i, inner) && res.ops == Placed(at, inner)
    decreases overlay, 1
  {
    if !overlay.items[i].Obj? {
      return Panic, [];
    }
    if exists k | k in overlay.items[i].fields :: IsConditionAnchor(k) {
      res, inner := ApplyOverlayWithAnchors(resource, overlay, i, path, at);
    } else if HasNestedAnchors(overlay.items[i]) {
      // anchors further down: the source spells out the same loop again
      res, inner := ApplyOverlayWithAnchors(resource, overlay, i, path, at);
    } else {
      var token := Itoa(|resource.items| + i);
      PlacedUnder(at, token, []);
      res, inner := ProcessSubtree(overlay.items[i], path + token + "/", at, [token], Add);
    }
  }

  /** Every resource element is merged with overlay element `i`, whether or not the element
      meets the conditions anchored in it. */
  method ApplyOverlayWithAnchors(resource: Json, overlay: Json, i: nat, path: string, ghost at: seq<string>)
    returns (res: Outcome, ghost inner: seq<Op>)
    requires resource.Arr? && overlay.Arr? && i < |overlay.items|
    requires path == Pointer.Render(at)
    ensures !res.Patches? <==> exists j | 0 <= j < |resource.items| :: Fails(resource.items[j], overlay.items[i])
    ensures res.Panic? ==> exists j | 0 <= j < |resource.items| :: MayPanic(resource.items[j], overlay.items[i])
    ensures res.Patches? ==> EmitsEach(resource, overlay, i, |resource.items|, inner) && res.ops == Placed(at, inner)
    decreases overlay, 0
  {
    var applied: seq<Op> := [];
    inner := [];
    for j := 0 to |resource.items|
      invariant EachGiven(resource, overlay, i, j, at, inner, applied)
    {
      var r, one := ApplyOverlayAt(resource, overlay, i, j, path, at);
      if !r.Patches? {
        return r, inner;
      }
      EachDone(resource, overlay, i, j, at, inner, applied, one, r.ops);
      applied := applied + r.ops;
      inner := inner + one;
    }
    res := Patches(applied);
  }

  /** The body of that loop. */
  method ApplyOverlayAt(resource: Json, overlay: Json, i: nat, j: nat, path: string, ghost at: seq<string>)
    returns (res: Outcome, ghost inner: seq<Op>)
    requires resource.Arr? && overlay.Arr? && i < |overlay.items| && j < |resource.items|
    requires path == Pointer.Render(at)
    ensures !res.Patches? <==> Fails(resource.items[j], overlay.items[i])
    ensures res.Panic? ==> MayPanic(resource.items[j], overlay.items[i])
    ensures res.Patches? ==>
              EmitsBelow(resource.items[j], overlay.items[i], Itoa(j), inner) && res.ops == Placed(at, inner)
    decreases overlay, 0, 0
  {
    var token := Itoa(j);
    PlacedUnder(at, token, []);
    var r, below := ApplyOverlay(resource.items[j], overlay.items[i], path + token + "/", at + [token]);
    PlacedUnder(at, token, below);
    res, inner := r, Under(token, below);
  }

  /** The patches for overlay element `i` on the first `n` resource elements. */
  ghost predicate EachGiven(resource: Json, overlay: Json, i: nat, n: nat, at: seq<string>, inner: seq<Op>,
                            ops: seq<Op>)
    requires resource.Arr? && overlay.Arr? && i < |overlay.items| && n <= |resource.items|
  {
    && EmitsEach(resource, overlay, i, n, inner)
    && ops == Placed(at, inner)
    && forall j | 0 <= j < n :: !Fails(resource.items[j], overlay.items[i])
  }

  lemma EachDone(resource: Json, overlay: Json, i: nat, n: nat, at: seq<string>, before: seq<Op>, sofar: seq<Op>,
                 last: seq<Op>, ops: seq<Op>)
    requires resource.Arr? && overlay.Arr? && i < |overlay.items| && n < |resource.items|
    requires EachGiven(resource, overlay, i, n, at, before, sofar)
    requires EmitsBelow(resource.items[n], overlay.items[i], Itoa(n), last) && ops == Placed(at, last)
    requires !Fails(resource.items[n], overlay.items[i])
    ensures EachGiven(resource, overlay, i, n + 1, at, before + last, sofar + ops)
  {
    PlacedConcat(at, before, last);
    assert Joined(before + last, before, last);
  }

  /** `processSubtree`: the value is empty text, hence not a patch, when nothing but anchors
      would be inserted. */
  method ProcessSubtree(overlay: Json, path: string, ghost at: seq<string>, ghost below: seq<string>, verb: Verb)
    returns (res: Outcome, ghost inner: seq<Op>)
    requires path == Pointer.Render(at + below)
    ensures !res.Patches? <==> HasOnlyAnchors(overlay)
    ensures !res.Patches? <==> NothingToInsert(overlay)
    ensures !res.Panic?
    ensures res.Patches? ==> EmitsSubtree(overlay, verb, below, inner) && res.ops == Placed(at, inner)
    ensures res.Patches? && !overlay.Arr? && !overlay.Obj? ==> inner == [Op(verb, below, overlay)]
  {
    Pointer.RenderStartsWithSlash(at + below);
    var pointer := Pointer.PreparePath(Pointer.TrimSlash(path));
    var value := RemoveAnchorFromSubTree(overlay);
    OnlyAnchorsExactly(overlay);
    if HasOnlyAnchors(overlay) {
      return GenerationError, [];
    }
    inner := [Op(verb, below, value)];
    res := Patches([Op(verb, Pointer.Decode(pointer), value)]);
  }

  method RemoveAnchorFromSubTree(overlay: Json) returns (value: Json)
    ensures Strips(overlay, value)
    decreases overlay
  {
    match overlay
    case Obj(fields) =>
      var result: map<string, Json> := map[];
      var todo := fields.Keys;
      while todo != {}
        invariant todo <= fields.Keys
        invariant result.Keys == set k | k in fields && k !in todo :: RawKey(k)
        invariant forall raw | raw in result ::
                    exists k :: k in fields && RawKey(k) == raw && Strips(fields[k], result[raw])
        decreases |todo|
      {
        var key :| key in todo;
        todo := todo - {key};
        var stripped := RemoveAnchorFromSubTree(fields[key]);
        result := result[RawKey(key) := stripped];
      }
      assert (set k | k in fields && k !in todo :: RawKey(k)) == RawKeys(overlay);
      value := Obj(result);
    case Arr(items) =>
      var result: seq<Json> := [];
      for i := 0 to |items|
        invariant |result| == i
        invariant forall j | 0 <= j < i :: Strips(items[j], result[j])
      {
        var stripped := RemoveAnchorFromSubTree(items[i]);
        result := result + [stripped];
      }
      value := Arr(result);
    case _ =>
      value := overlay;
  }
}
