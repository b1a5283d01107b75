/** What a condition compares, read off the paths into its value and into the resource. */
module OverlayAgreement {
  import opened Json
  import opened JsonPatch
  import opened Anchors
  import opened OverlayCondition

  /** The path into the overlay and the path into the resource go through the same names, and
      through any elements of the arrays they meet. */
  ghost predicate Paired(resource: Json, overlay: Json, path: seq<string>, other: seq<string>) {
    && |path| == |other| && Lookup(overlay, path).Some? && Lookup(resource, other).Some?
    && forall n | 0 <= n < |path| :: PairedAt(overlay, path, other, n)
  }

  ghost predicate PairedAt(overlay: Json, path: seq<string>, other: seq<string>, n: nat)
    requires n < |path| == |other|
  {
    var node := Lookup(overlay, path[..n]);
    node.Some? && node.value.Obj? ==> other[n] == RemoveAnchor(path[n])
  }

  /** One place of the resource is as one place of the overlay asks: of the same type, with all
      the members it names, and with a scalar that fits. */
  predicate Alike(resource: Json, overlay: Json, leaf: LeafTest) {
    match overlay
    case Null => resource.Null? && leaf(resource, overlay)
    case Bool(_) => resource.Bool? && leaf(resource, overlay)
    case Int(_) => resource.Int? && leaf(resource, overlay)
    case Float(_) => resource.Float? && leaf(resource, overlay)
    case Str(_) => resource.Str? && leaf(resource, overlay)
    case Arr(_) => resource.Arr?
    case Obj(fields) => resource.Obj? && forall k | k in fields :: RemoveAnchor(k) in resource.fields
  }

  ghost predicate AlikeEverywhere(resource: Json, overlay: Json, leaf: LeafTest) {
    forall path, other | Paired(resource, overlay, path, other) ::
      Alike(Lookup(resource, other).value, Lookup(overlay, path).value, leaf)
  }

  /** A value agrees with a condition exactly when all paired places are alike. */
  lemma AgreesExactly(resource: Json, overlay: Json, leaf: LeafTest)
    ensures Agrees(resource, overlay, leaf) <==> AlikeEverywhere(resource, overlay, leaf)
  {
    if Agrees(resource, overlay, leaf) {
      forall path, other | Paired(resource, overlay, path, other)
        ensures Alike(Lookup(resource, other).value, Lookup(overlay, path).value, leaf)
      {
        AgreesBelow(resource, overlay, path, other, leaf);
      }
    }
    if AlikeEverywhere(resource, overlay, leaf) {
      AlikeAgrees(resource, overlay, leaf);
    }
  }

  lemma PairedDown(resource: Json, overlay: Json, path: seq<string>, other: seq<string>)
    requires |path| == |other| > 0 && Child(overlay, path[0]).Some? && Child(resource, other[0]).Some?
    ensures Paired(resource, overlay, path, other)
       <==> && (overlay.Obj? ==> other[0] == RemoveAnchor(path[0]))
            && Paired(Child(resource, other[0]).value, Child(overlay, path[0]).value, path[1..], other[1..])
  {
    var below := Child(overlay, path[0]).value;
    assert path[..0] == [];
    forall n | 0 < n < |path|
      ensures PairedAt(overlay, path, other, n) <==> PairedAt(below, path[1..], other[1..], n - 1)
    {
      assert path[..n][1..] == path[1..][..n - 1];
    }
    if Paired(resource, overlay, path, other) {
      assert PairedAt(overlay, path, other, 0);
      forall n | 0 <= n < |path[1..]| ensures PairedAt(below, path[1..], other[1..], n) {
        assert PairedAt(overlay, path, other, n + 1);
      }
    }
    if (overlay.Obj? ==> other[0] == RemoveAnchor(path[0]))
      && Paired(Child(resource, other[0]).value, below, path[1..], other[1..])
    {
      forall n | 0 <= n < |path| ensures PairedAt(overlay, path, other, n) {
        assert n > 0 ==> PairedAt(below, path[1..], other[1..], n - 1);
      }
    }
  }

  lemma {:induction false} AgreesBelow(resource: Json, overlay: Json, path: seq<string>, other: seq<string>,
                                           leaf: LeafTest)
    requires Agrees(resource, overlay, leaf) && Paired(resource, overlay, path, other)
    ensures Alike(Lookup(resource, other).value, Lookup(overlay, path).value, leaf)
    decreases |path|
  {
    if path != [] {
      PairedDown(resource, overlay, path, other);
      AgreesBelow(Child(resource, other[0]).value, Child(overlay, path[0]).value, path[1..], other[1..], leaf);
    }
  }

  /** What holds everywhere holds everywhere below a paired child. */
  lemma AlikeDown(resource: Json, overlay: Json, token: string, other: string, leaf: LeafTest)
    requires AlikeEverywhere(resource, overlay, leaf)
    requires Child(overlay, token).Some? && Child(resource, other).Some?
    requires (overlay.Obj? ==> other == RemoveAnchor(token))
    ensures AlikeEverywhere(Child(resource, other).value, Child(overlay, token).value, leaf)
  {
    var r, o := Child(resource, other).value, Child(overlay, token).value;
    forall path, at | Paired(r, o, path, at) ensures Alike(Lookup(r, at).value, Lookup(o, path).value, leaf) {
      assert ([token] + path)[1..] == path && ([other] + at)[1..] == at;
      PairedDown(resource, overlay, [token] + path, [other] + at);
      assert Paired(resource, overlay, [token] + path, [other] + at);
    }
  }

  lemma {:induction false} AlikeAgrees(resource: Json, overlay: Json, leaf: LeafTest)
    requires AlikeEverywhere(resource, overlay, leaf)
    ensures Agrees(resource, overlay, leaf)
    decreases overlay
  {
    assert Paired(resource, overlay, [], []);
    assert Alike(Lookup(resource, []).value, Lookup(overlay, []).value, leaf);
    match overlay
    case Obj(fields) =>
      forall k | k in fields ensures Agrees(resource.fields[RemoveAnchor(k)], fields[k], leaf) {
        AlikeDown(resource, overlay, k, RemoveAnchor(k), leaf);
        AlikeAgrees(resource.fields[RemoveAnchor(k)], fields[k], leaf);
      }
    case Arr(items) =>
      forall i, j | 0 <= i < |items| && 0 <= j < |resource.items| ensures Agrees(resource.items[j], items[i], leaf) {
        IndexRoundTrip(i);
        IndexRoundTrip(j);
        AlikeDown(resource, overlay, Itoa(i), Itoa(j), leaf);
        AlikeAgrees(resource.items[j], items[i], leaf);
      }
    case _ =>
  }
}
