/** From emitted operations to the patches the engine applies: the printed pointers reach the
    places they were meant for, so that mutating a resource is merging the overlay into it. */
module OverlayArrival {
  import opened Json
  import opened JsonPatch
  import opened Anchors
  import opened OverlaySpec
  import opened OverlayProof
  import opened Overlay
  import Pointer

  /** A position whose pointer survives printing and reading. The root does not: it is printed
      as "/", which addresses the member with the empty name. */
  predicate Fits(at: seq<string>) {
    at != [] && Pointer.AllUnescaped(at) && Pointer.Addressable(at)
  }

  /** Every place that merging the overlay would patch has a pointer that survives. */
  ghost predicate Printable(resource: Json, overlay: Json, at: seq<string>)
    decreases overlay, 1
  {
    if !SameType(resource, overlay) then
      Fits(at)
    else
      match overlay
      case Obj(fields) => forall k | k in fields :: PrintableKey(resource, overlay, k, at)
      case Arr(items) =>
        if resource.items == [] then Fits(at)
        else forall i | 0 <= i < |items| :: PrintableElement(resource, overlay, i, at)
      case _ => Fits(at)
  }

  ghost predicate PrintableKey(resource: Json, overlay: Json, key: string, at: seq<string>)
    requires resource.Obj? && overlay.Obj? && key in overlay.fields
    decreases overlay, 0
  {
    var name := RemoveAnchor(key);
    || IsConditionAnchor(key)
    || if name !in resource.fields then Fits(at + [name])
       else IsAddingAnchor(key) || Printable(resource.fields[name], overlay.fields[key], at + [name])
  }

  ghost predicate PrintableElement(resource: Json, overlay: Json, i: nat, at: seq<string>)
    requires resource.Arr? && overlay.Arr? && i < |overlay.items|
    decreases overlay, 0
  {
    if Anchored(overlay, i) then
      forall j | 0 <= j < |resource.items| :: Printable(resource.items[j], overlay.items[i], at + [Itoa(j)])
    else
      Fits(at + [Itoa(|resource.items| + i)])
  }

  ghost predicate AllFit(at: seq<string>, ops: seq<Op>) {
    forall i | 0 <= i < |ops| :: Fits(at + ops[i].path)
  }

  lemma {:induction false} EmittedFit(resource: Json, overlay: Json, at: seq<string>, ops: seq<Op>)
    requires Emits(resource, overlay, ops) && Printable(resource, overlay, at)
    ensures AllFit(at, ops)
    decreases overlay, 2, 0
  {
    assert at + [] == at;
    if SameType(resource, overlay) {
      match overlay
      case Obj(fields) => KeysFit(resource, overlay, fields.Keys, at, ops);
      case Arr(items) => if resource.items != [] { ElementsFit(resource, overlay, |items|, at, ops); }
      case _ =>
    }
  }

  lemma {:induction false} KeysFit(resource: Json, overlay: Json, keys: set<string>, at: seq<string>, ops: seq<Op>)
    requires resource.Obj? && overlay.Obj? && keys <= overlay.fields.Keys
    requires EmitsKeys(resource, overlay, keys, ops)
    requires forall k | k in keys :: PrintableKey(resource, overlay, k, at)
    ensures AllFit(at, ops)
    decreases overlay, 1, |keys|
  {
    if keys != {} {
      var k, before, last :| k in keys && Joined(ops, before, last)
        && EmitsKeys(resource, overlay, keys - {k}, before) && EmitsKey(resource, overlay, k, last);
      KeysFit(resource, overlay, keys - {k}, at, before);
      var name := RemoveAnchor(k);
      if !IsConditionAnchor(k) && !IsAddingAnchor(k) && name in resource.fields {
        BelowFit(resource.fields[name], overlay.fields[k], name, at, last);
      }
    }
  }

  lemma {:induction false} BelowFit(resource: Json, overlay: Json, token: string, at: seq<string>, ops: seq<Op>)
    requires EmitsBelow(resource, overlay, token, ops) && Printable(resource, overlay, at + [token])
    ensures AllFit(at, ops)
    decreases overlay, 3, 0
  {
    var inner: seq<Op> :| ops == Under(token, inner) && Emits(resource, overlay, inner);
    EmittedFit(resource, overlay, at + [token], inner);
    UnderFits(token, at, inner);
  }

  lemma UnderFits(token: string, at: seq<string>, inner: seq<Op>)
    requires AllFit(at + [token], inner)
    ensures AllFit(at, Under(token, inner))
  {
    var ops := Under(token, inner);
    forall i | 0 <= i < |ops| ensures Fits(at + ops[i].path) {
      assert ops[i].path == [token] + inner[i].path;
      assert at + [token] + inner[i].path == at + ([token] + inner[i].path);
    }
  }

  lemma {:induction false} ElementsFit(resource: Json, overlay: Json, n: nat, at: seq<string>, ops: seq<Op>)
    requires resource.Arr? && overlay.Arr? && n <= |overlay.items|
    requires EmitsElements(resource, overlay, n, ops)
    requires forall i | 0 <= i < n :: PrintableElement(resource, overlay, i, at)
    ensures AllFit(at, ops)
    decreases overlay, 1, n
  {
    if n > 0 {
      var before, last :| Joined(ops, before, last)
        && EmitsElements(resource, overlay, n - 1, before) && EmitsElement(resource, overlay, n - 1, last);
      ElementsFit(resource, overlay, n - 1, at, before);
      assert PrintableElement(resource, overlay, n - 1, at);
      if Anchored(overlay, n - 1) {
        EachFit(resource, overlay, n - 1, |resource.items|, at, last);
      }
      assert AllFit(at, last);
    }
  }

  lemma {:induction false} EachFit(resource: Json, overlay: Json, i: nat, n: nat, at: seq<string>, ops: seq<Op>)
    requires resource.Arr? && overlay.Arr? && i < |overlay.items| && n <= |resource.items|
    requires EmitsEach(resource, overlay, i, n, ops)
    requires forall j | 0 <= j < n :: Printable(resource.items[j], overlay.items[i], at + [Itoa(j)])
    ensures AllFit(at, ops)
    decreases overlay, 0, n
  {
    if n > 0 {
      var before, last :| Joined(ops, before, last) && EmitsEach(resource, overlay, i, n - 1, before)
        && EmitsBelow(resource.items[n - 1], overlay.items[i], Itoa(n - 1), last);
      EachFit(resource, overlay, i, n - 1, at, before);
      BelowFit(resource.items[n - 1], overlay.items[i], Itoa(n - 1), at, last);
    }
  }

  /** Operations at positions that fit arrive unchanged. */
  lemma FittingArrive(ops: seq<Op>)
    requires AllFit([], ops)
    ensures Placed([], ops) == ops
  {
    forall i | 0 <= i < |ops| ensures Pointer.Sent([] + ops[i].path) == ops[i].path {
      assert [] + ops[i].path == ops[i].path;
      Pointer.SentIffAddressable(ops[i].path);
    }
  }

  /** `mutateResourceWithOverlay`: the whole compiler, from a resource and an overlay to
      patches. Whatever order the maps are ranged over, applying them performs the merge, or
      fails exactly when a plain array element follows an anchored one. */
  method MutateResourceWithOverlay(resource: Json, overlay: Json) returns (res: Outcome)
    ensures !res.Patches? <==> Fails(resource, overlay)
    ensures res.Panic? ==> MayPanic(resource, overlay)
    ensures res.Patches? && Clear(resource, overlay) && Printable(resource, overlay, []) ==>
              ApplyAll(resource, res.ops) == When(Ordered(resource, overlay), Merge(resource, overlay))
    ensures res.Patches? && !SameType(resource, overlay) ==> ReplacesEmptyName(res.ops)
  {
    ghost var inner;
    res, inner := ApplyOverlay(resource, overlay, "/", []);
    if res.Patches? {
      if Clear(resource, overlay) && Printable(resource, overlay, []) {
        EmittedFit(resource, overlay, [], inner);
        FittingArrive(inner);
        PatchesPerformMerge(resource, overlay, inner);
      }
      if !SameType(resource, overlay) {
        assert inner[0].path == [];
        assert res.ops[0].path == Pointer.Sent([] + []) == Pointer.Sent([]);
        RootIsSentAsEmptyName();
      }
    }
  }

  ghost predicate ReplacesEmptyName(ops: seq<Op>) {
    exists value :: ops == [Op(Replace, [""], value)]
  }

  lemma RootIsSentAsEmptyName()
    ensures Pointer.Sent([]) == [""]
  {
    var path := Pointer.TrimSlash(Pointer.Render([]));
    assert path == "/";
    assert Pointer.Index(path, Pointer.Annotations()) < 0;
    assert path[1..] == "";
  }

  /** An overlay of another type than the document is meant to replace it, but its patch
      addresses the member with the empty name: the document is never replaced. */
  lemma WholeDocumentIsNeverReplaced(doc: Json, ops: seq<Op>)
    requires ReplacesEmptyName(ops)
    ensures doc.Obj? ==>
              match ApplyAll(doc, ops)
              case None => "" !in doc.fields
              case Some(doc') =>
                && doc'.Obj? && doc'.fields.Keys == doc.fields.Keys
                && doc'.fields - {""} == doc.fields - {""}
  {
    ApplyOne(doc, ops[0]);
  }
}
