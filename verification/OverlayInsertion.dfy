/** Which subtrees of an overlay can be inserted, and where anchors are nested, read off the paths
    into the subtree. */
module OverlayInsertion {
  import opened Json
  import opened JsonPatch
  import opened Anchors
  import opened OverlaySpec

  /** Some key of the map is not a condition. */
  predicate Open(node: Json) {
    node.Obj? ==> exists k | k in node.fields :: !IsConditionAnchor(k)
  }

  /** The path leads to a scalar, through maps that have some key that is not a condition. */
  ghost predicate LeadsToScalar(overlay: Json, path: seq<string>) {
    && Lookup(overlay, path).Some?
    && !Lookup(overlay, path).value.Obj? && !Lookup(overlay, path).value.Arr?
    && forall n | 0 <= n < |path| :: OpenAt(overlay, path, n)
  }

  ghost predicate OpenAt(overlay: Json, path: seq<string>, n: nat)
    requires n < |path|
  {
    Lookup(overlay, path[..n]).Some? ==> Open(Lookup(overlay, path[..n]).value)
  }

  /** Below a child. */
  lemma LeadsDown(overlay: Json, path: seq<string>)
    requires path != [] && Child(overlay, path[0]).Some?
    ensures LeadsToScalar(overlay, path) <==> Open(overlay) && LeadsToScalar(Child(overlay, path[0]).value, path[1..])
  {
    var child := Child(overlay, path[0]).value;
    assert path[..0] == [];
    forall n | 0 < n < |path| ensures OpenAt(overlay, path, n) <==> OpenAt(child, path[1..], n - 1) {
      assert path[..n][1..] == path[1..][..n - 1];
    }
    if LeadsToScalar(overlay, path) {
      assert OpenAt(overlay, path, 0);
      forall n | 0 <= n < |path[1..]| ensures OpenAt(child, path[1..], n) {
        assert OpenAt(overlay, path, n + 1);
      }
    }
    if Open(overlay) && LeadsToScalar(child, path[1..]) {
      forall n | 0 <= n < |path| ensures OpenAt(overlay, path, n) {
        assert n > 0 ==> OpenAt(child, path[1..], n - 1);
      }
    }
  }

  /** A path to something that can be inserted. */
  lemma {:induction false} InsertablePath(overlay: Json) returns (path: seq<string>)
    requires !HasOnlyAnchors(overlay)
    ensures LeadsToScalar(overlay, path)
  {
    match overlay
    case Obj(fields) =>
      var k :| k in fields && !HasOnlyAnchors(fields[k]);
      var below := InsertablePath(fields[k]);
      path := [k] + below;
      assert path[1..] == below;
      LeadsDown(overlay, path);
    case Arr(items) =>
      var i: nat :| i < |items| && !HasOnlyAnchors(items[i]);
      var below := InsertablePath(items[i]);
      path := [Itoa(i)] + below;
      assert path[1..] == below;
      IndexRoundTrip(i);
      LeadsDown(overlay, path);
    case _ =>
      path := [];
  }

  lemma {:induction false} ScalarIsInsertable(overlay: Json, path: seq<string>)
    requires LeadsToScalar(overlay, path)
    ensures !HasOnlyAnchors(overlay)
    decreases |path|
  {
    if path != [] {
      LeadsDown(overlay, path);
      ScalarIsInsertable(Child(overlay, path[0]).value, path[1..]);
    }
  }

  ghost predicate NothingToInsert(overlay: Json) {
    forall path :: !LeadsToScalar(overlay, path)
  }

  /** There is nothing to insert exactly when no such path leads to a scalar. */
  lemma OnlyAnchorsExactly(overlay: Json)
    ensures HasOnlyAnchors(overlay) <==> NothingToInsert(overlay)
  {
    if !HasOnlyAnchors(overlay) {
      var path := InsertablePath(overlay);
    }
    if path :| LeadsToScalar(overlay, path) {
      ScalarIsInsertable(overlay, path);
    }
  }

  // ---------- Nested anchors ----------

  ghost predicate LeadsToCondition(overlay: Json, path: seq<string>, key: string) {
    && Lookup(overlay, path).Some? && Lookup(overlay, path).value.Obj?
    && key in Lookup(overlay, path).value.fields && IsConditionAnchor(key)
  }

  /** Anchors are nested in a subtree exactly when a path leads to a map with a condition key. */
  lemma NestedExactly(overlay: Json)
    ensures HasNestedAnchors(overlay) <==> exists path, key :: LeadsToCondition(overlay, path, key)
  {
    if HasNestedAnchors(overlay) {
      var path, key := PathToCondition(overlay);
    }
    if path, key :| LeadsToCondition(overlay, path, key) {
      ConditionIsNested(overlay, path, key);
    }
  }

  /** An array element is merged into the others, and not appended, exactly when the array starts
      with a map and a path into that element leads to a condition key. */
  lemma AnchoredExactly(overlay: Json, i: nat)
    requires overlay.Arr? && i < |overlay.items|
    ensures Anchored(overlay, i) <==>
              && (exists fields :: Lookup(overlay, [Itoa(0)]) == Some(Obj(fields)))
              && exists path, key :: LeadsToCondition(overlay.items[i], path, key)
  {
    IndexRoundTrip(0);
    LookupOne(overlay, Itoa(0));
    NestedExactly(overlay.items[i]);
    if overlay.items[0].Obj? {
      assert Lookup(overlay, [Itoa(0)]) == Some(Obj(overlay.items[0].fields));
    }
  }

  lemma {:induction false} PathToCondition(overlay: Json) returns (path: seq<string>, key: string)
    requires HasNestedAnchors(overlay)
    ensures LeadsToCondition(overlay, path, key)
  {
    match overlay
    case Obj(fields) =>
      if k :| k in fields && IsConditionAnchor(k) {
        path, key := [], k;
      } else {
        var k :| k in fields && HasNestedAnchors(fields[k]);
        var below;
        below, key := PathToCondition(fields[k]);
        path := [k] + below;
        assert path[1..] == below;
      }
    case Arr(items) =>
      var i: nat :| i < |items| && HasNestedAnchors(items[i]);
      var below;
      below, key := PathToCondition(items[i]);
      path := [Itoa(i)] + below;
      assert path[1..] == below;
      IndexRoundTrip(i);
  }

  lemma {:induction false} ConditionIsNested(overlay: Json, path: seq<string>, key: string)
    requires LeadsToCondition(overlay, path, key)
    ensures HasNestedAnchors(overlay)
    decreases |path|
  {
    if path != [] {
      ConditionIsNested(Child(overlay, path[0]).value, path[1..], key);
    }
  }

  /** An overlay without condition keys that holds a scalar can always be inserted, whatever else
      its keys are. */
  lemma {:induction false} ScalarsWithoutConditions(overlay: Json, path: seq<string>)
    requires !HasNestedAnchors(overlay) && Lookup(overlay, path).Some?
    requires !Lookup(overlay, path).value.Obj? && !Lookup(overlay, path).value.Arr?
    ensures LeadsToScalar(overlay, path) && !HasOnlyAnchors(overlay)
    decreases |path|
  {
    if path != [] {
      var child := Child(overlay, path[0]).value;
      assert !HasNestedAnchors(child);
      ScalarsWithoutConditions(child, path[1..]);
      LeadsDown(overlay, path);
    }
    ScalarIsInsertable(overlay, path);
  }
}
