/** The generator returns patches for exactly the overlays that do not fail. */
module OverlayTotality {
  import opened Json
  import opened JsonPatch
  import opened Anchors
  import opened OverlaySpec

  ghost predicate MayReturn(resource: Json, overlay: Json, ops: seq<Op>) {
    Emits(resource, overlay, ops)
  }

  lemma ReturnsUnlessFails(resource: Json, overlay: Json)
    ensures (exists ops :: MayReturn(resource, overlay, ops)) <==> !Fails(resource, overlay)
  {
    if !Fails(resource, overlay) {
      var ops := Returned(resource, overlay);
      assert MayReturn(resource, overlay, ops);
    }
    if ops :| MayReturn(resource, overlay, ops) {
      ReturnedIsNoFailure(resource, overlay, ops);
    }
  }

  // ---------- What does not fail is returned ----------

  lemma {:induction false} Returned(resource: Json, overlay: Json) returns (ops: seq<Op>)
    requires !Fails(resource, overlay)
    ensures Emits(resource, overlay, ops)
    decreases overlay, 2, 0
  {
    if !SameType(resource, overlay) {
      ops := Inserted(overlay, Replace, []);
    } else {
      match overlay
      case Obj(fields) =>
        ops := ReturnedKeys(resource, overlay, fields.Keys);
      case Arr(items) =>
        if resource.items == [] {
          ops := Inserted(overlay, Add, []);
        } else {
          ops := ReturnedElements(resource, overlay, |items|);
        }
      case _ =>
        ops := [Op(Replace, [], overlay)];
    }
  }

  lemma Inserted(overlay: Json, verb: Verb, path: seq<string>) returns (ops: seq<Op>)
    requires !HasOnlyAnchors(overlay)
    ensures EmitsSubtree(overlay, verb, path, ops)
  {
    StripIsOne(overlay);
    ops := [Op(verb, path, Strip(overlay))];
  }

  lemma {:induction false} ReturnedKeys(resource: Json, overlay: Json, keys: set<string>) returns (ops: seq<Op>)
    requires resource.Obj? && overlay.Obj? && keys <= overlay.fields.Keys
    requires forall k | k in keys :: !FailsKey(resource, overlay, k)
    ensures EmitsKeys(resource, overlay, keys, ops)
    decreases overlay, 1, |keys|
  {
    if keys == {} {
      ops := [];
    } else {
      var k :| k in keys;
      var before := ReturnedKeys(resource, overlay, keys - {k});
      var last := ReturnedKey(resource, overlay, k);
      ops := before + last;
      assert Joined(ops, before, last);
    }
  }

  lemma {:induction false} ReturnedKey(resource: Json, overlay: Json, key: string) returns (ops: seq<Op>)
    requires resource.Obj? && overlay.Obj? && key in overlay.fields && !FailsKey(resource, overlay, key)
    ensures EmitsKey(resource, overlay, key, ops)
    decreases overlay, 0, 0
  {
    var name := RemoveAnchor(key);
    if IsConditionAnchor(key) || (name in resource.fields && IsAddingAnchor(key)) {
      ops := [];
    } else if name !in resource.fields {
      ops := Inserted(overlay.fields[key], Add, [name]);
    } else {
      var inner := Returned(resource.fields[name], overlay.fields[key]);
      ops := Under(name, inner);
    }
  }

  lemma {:induction false} ReturnedElements(resource: Json, overlay: Json, n: nat) returns (ops: seq<Op>)
    requires resource.Arr? && overlay.Arr? && n <= |overlay.items| && !FailsElements(resource, overlay, n)
    ensures EmitsElements(resource, overlay, n, ops)
    decreases overlay, 1, n
  {
    if n == 0 {
      ops := [];
    } else {
      var before := ReturnedElements(resource, overlay, n - 1);
      var last;
      if Anchored(overlay, n - 1) {
        last := ReturnedEach(resource, overlay, n - 1, |resource.items|);
      } else {
        last := Inserted(overlay.items[n - 1], Add, [Itoa(|resource.items| + n - 1)]);
      }
      ops := before + last;
      assert Joined(ops, before, last) && EmitsElement(resource, overlay, n - 1, last);
    }
  }

  lemma {:induction false} ReturnedEach(resource: Json, overlay: Json, i: nat, n: nat) returns (ops: seq<Op>)
    requires resource.Arr? && overlay.Arr? && i < |overlay.items| && n <= |resource.items|
    requires forall j | 0 <= j < n :: !Fails(resource.items[j], overlay.items[i])
    ensures EmitsEach(resource, overlay, i, n, ops)
    decreases overlay, 0, n
  {
    if n == 0 {
      ops := [];
    } else {
      var before := ReturnedEach(resource, overlay, i, n - 1);
      var inner := Returned(resource.items[n - 1], overlay.items[i]);
      var last := Under(Itoa(n - 1), inner);
      ops := before + last;
      assert EmitsBelow(resource.items[n - 1], overlay.items[i], Itoa(n - 1), last);
      assert Joined(ops, before, last);
    }
  }

  // ---------- What is returned does not fail ----------

  lemma {:induction false} ReturnedIsNoFailure(resource: Json, overlay: Json, ops: seq<Op>)
    requires Emits(resource, overlay, ops)
    ensures !Fails(resource, overlay)
    decreases overlay, 2, 0
  {
    if SameType(resource, overlay) {
      match overlay
      case Obj(fields) =>
        KeysAreNoFailure(resource, overlay, fields.Keys, ops);
      case Arr(items) =>
        if resource.items != [] {
          ElementsAreNoFailure(resource, overlay, |items|, ops);
        }
      case _ =>
    }
  }

  lemma {:induction false} KeysAreNoFailure(resource: Json, overlay: Json, keys: set<string>, ops: seq<Op>)
    requires resource.Obj? && overlay.Obj? && keys <= overlay.fields.Keys
    requires EmitsKeys(resource, overlay, keys, ops)
    ensures forall k | k in keys :: !FailsKey(resource, overlay, k)
    decreases overlay, 1, |keys|
  {
    if keys != {} {
      var k, before, last :| k in keys && Joined(ops, before, last)
        && EmitsKeys(resource, overlay, keys - {k}, before) && EmitsKey(resource, overlay, k, last);
      KeysAreNoFailure(resource, overlay, keys - {k}, before);
      var name := RemoveAnchor(k);
      if !IsConditionAnchor(k) && name in resource.fields && !IsAddingAnchor(k) {
        BelowIsNoFailure(resource.fields[name], overlay.fields[k], name, last);
      }
      assert !FailsKey(resource, overlay, k);
      assert forall k' | k' in keys :: k' == k || k' in keys - {k};
    }
  }

  lemma {:induction false} BelowIsNoFailure(resource: Json, overlay: Json, token: string, ops: seq<Op>)
    requires EmitsBelow(resource, overlay, token, ops)
    ensures !Fails(resource, overlay)
    decreases overlay, 3, 0
  {
    var inner :| ops == Under(token, inner) && Emits(resource, overlay, inner);
    ReturnedIsNoFailure(resource, overlay, inner);
  }

  lemma {:induction false} ElementsAreNoFailure(resource: Json, overlay: Json, n: nat, ops: seq<Op>)
    requires resource.Arr? && overlay.Arr? && n <= |overlay.items|
    requires EmitsElements(resource, overlay, n, ops)
    ensures !FailsElements(resource, overlay, n)
    decreases overlay, 1, n
  {
    if n > 0 {
      var before, last :| Joined(ops, before, last)
        && EmitsElements(resource, overlay, n - 1, before) && EmitsElement(resource, overlay, n - 1, last);
      ElementsAreNoFailure(resource, overlay, n - 1, before);
      if Anchored(overlay, n - 1) {
        EachIsNoFailure(resource, overlay, n - 1, |resource.items|, last);
      }
      assert !FailsElement(resource, overlay, n - 1);
    }
  }

  lemma {:induction false} EachIsNoFailure(resource: Json, overlay: Json, i: nat, n: nat, ops: seq<Op>)
    requires resource.Arr? && overlay.Arr? && i < |overlay.items| && n <= |resource.items|
    requires EmitsEach(resource, overlay, i, n, ops)
    ensures forall j | 0 <= j < n :: !Fails(resource.items[j], overlay.items[i])
    decreases overlay, 0, n
  {
    if n > 0 {
      var before, last :| Joined(ops, before, last) && EmitsEach(resource, overlay, i, n - 1, before)
        && EmitsBelow(resource.items[n - 1], overlay.items[i], Itoa(n - 1), last);
      EachIsNoFailure(resource, overlay, i, n - 1, before);
      BelowIsNoFailure(resource.items[n - 1], overlay.items[i], Itoa(n - 1), last);
    }
  }
}
