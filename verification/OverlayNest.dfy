/** Maps with one plain key: an overlay that only leads to one member of the resource. */
module OverlayNest {
  import opened Json
  import opened JsonPatch
  import opened Anchors
  import opened OverlaySpec
  import opened OverlayCondition

  function Nest(key: string, value: Json): Json {
    Obj(map[key := value])
  }

  predicate IsPlain(key: string) {
    RemoveAnchor(key) == key && !IsConditionAnchor(key) && !IsAddingAnchor(key)
  }

  lemma NestMeets(resource: Json, key: string, inner: Json, leaf: LeafTest)
    requires IsPlain(key)
    requires resource.Obj? && key in resource.fields
    ensures Meets(resource, Nest(key, inner), leaf)
       <==> Meets(resource.fields[key], inner, leaf)
  {
    var overlay := Nest(key, inner);
    assert HasNestedAnchors(overlay) <==> HasNestedAnchors(inner) by {
      assert key in overlay.fields && forall k | k in overlay.fields :: k == key;
    }
    assert MeetsKey(resource, overlay, key, leaf)
      <==> Meets(resource.fields[key], inner, leaf);
    assert forall k | k in overlay.fields :: k == key;
  }

  lemma NestEmits(resource: Json, key: string, inner: Json, ops: seq<Op>)
    requires IsPlain(key)
    requires resource.Obj? && key in resource.fields
    ensures Emits(resource, Nest(key, inner), ops)
       <==> EmitsBelow(resource.fields[key], inner, key, ops)
    ensures Fails(resource, Nest(key, inner)) <==> Fails(resource.fields[key], inner)
  {
    var overlay := Nest(key, inner);
    OnlyKeyEmits(resource, overlay, key, ops);
    assert EmitsKey(resource, overlay, key, ops)
      <==> EmitsBelow(resource.fields[key], inner, key, ops);
    assert FailsKey(resource, overlay, key) <==> Fails(resource.fields[key], inner);
  }

  /** A map with one key has one order. */
  lemma OnlyKeyEmits(resource: Json, overlay: Json, key: string, ops: seq<Op>)
    requires resource.Obj? && overlay.Obj? && overlay.fields.Keys == {key}
    ensures Emits(resource, overlay, ops) <==> EmitsKey(resource, overlay, key, ops)
  {
    var keys := overlay.fields.Keys;
    assert keys - {key} == {};
    if EmitsKeys(resource, overlay, keys, ops) {
      var k, before, last :| k in keys && Joined(ops, before, last)
        && EmitsKeys(resource, overlay, keys - {k}, before) && EmitsKey(resource, overlay, k, last);
      assert k == key && before == [];
      assert ops == last;
    }
    if EmitsKey(resource, overlay, key, ops) {
      assert EmitsKeys(resource, overlay, keys - {key}, []);
      assert ops == [] + ops && Joined(ops, [], ops) && key in keys;
    }
  }

  lemma NestMerge(resource: Json, key: string, inner: Json)
    requires IsPlain(key)
    requires resource.Obj? && key in resource.fields
    ensures Merge(resource, Nest(key, inner))
         == WithChild(resource, key, Merge(resource.fields[key], inner))
  {
    var overlay := Nest(key, inner);
    var names := Names(overlay, overlay.fields.Keys);
    assert overlay.fields.Keys == {key};
    assert key in names && forall n | n in names :: n == key;
    assert KeyNamed(overlay, overlay.fields.Keys, key) == key;
    assert MergedFields(resource, overlay, overlay.fields.Keys)
        == resource.fields[key := Merge(resource.fields[key], inner)];
  }

  lemma NestClear(resource: Json, key: string, inner: Json)
    requires IsPlain(key)
    requires resource.Obj? && key in resource.fields
    ensures Clear(resource, Nest(key, inner)) <==> Clear(resource.fields[key], inner)
    ensures Ordered(resource, Nest(key, inner)) <==> Ordered(resource.fields[key], inner)
  {
    var overlay := Nest(key, inner);
    assert forall k | k in overlay.fields :: k == key;
    assert ClearKey(resource, overlay, key) <==> Clear(resource.fields[key], inner);
    assert OrderedKey(resource, overlay, key) <==> Ordered(resource.fields[key], inner);
  }
}
