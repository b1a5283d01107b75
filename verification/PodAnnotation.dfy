/** What annotating the pod template of a controller does to the document. */
module PodAnnotation {
  import opened Json
  import opened Text
  import opened JsonPatch
  import opened PatchLaws
  import opened Anchors
  import opened OverlaySpec
  import OverlayProof
  import opened OverlayNest
  import opened OverlayArrival
  import Mutation
  import Pointer

  // ---------- An addition below some plain keys ----------

  /** A chain of maps down to one added member. */
  function Added(keys: seq<string>, name: string, value: Json): Json {
    if keys == [] then Nest(Wrapped("+", name), value) else Nest(keys[0], Added(keys[1..], name, value))
  }

  predicate Unmarked(key: string) {
    key != "" && key[|key| - 1] != ')'
  }

  predicate AllUnmarked(keys: seq<string>) {
    forall i | 0 <= i < |keys| :: Unmarked(keys[i])
  }

  predicate IsMap(node: Option<Json>) {
    node.Some? ==> node.value.Obj?
  }

  /** Whatever exists on the way is a map. */
  predicate MapsAlong(doc: Json, keys: seq<string>) {
    forall n | 0 <= n <= |keys| :: IsMap(Lookup(doc, keys[..n]))
  }

  lemma MapsDown(doc: Json, keys: seq<string>)
    requires keys != [] && MapsAlong(doc, keys) && Child(doc, keys[0]).Some?
    ensures MapsAlong(Child(doc, keys[0]).value, keys[1..])
  {
    forall n | 0 <= n <= |keys[1..]| ensures IsMap(Lookup(Child(doc, keys[0]).value, keys[1..][..n])) {
      assert keys[..n + 1][1..] == keys[1..][..n];
      assert IsMap(Lookup(doc, keys[..n + 1]));
    }
  }

  lemma NothingAlong(keys: seq<string>)
    ensures MapsAlong(Obj(map[]), keys)
  {
    forall n | 0 <= n <= |keys| ensures IsMap(Lookup(Obj(map[]), keys[..n])) {
    }
  }

  lemma OnlyName(key: string, inner: Json)
    requires !IsConditionAnchor(key)
    ensures var overlay := Nest(key, inner);
            Names(overlay, overlay.fields.Keys) == {RemoveAnchor(key)}
            && KeyNamed(overlay, overlay.fields.Keys, RemoveAnchor(key)) == key
  {
    var overlay := Nest(key, inner);
    assert key in overlay.fields && forall k | k in overlay.fields :: k == key;
  }

  lemma OneKeyMerged(doc: Json, key: string, inner: Json)
    requires doc.Obj? && !IsConditionAnchor(key)
    ensures Merge(doc, Nest(key, inner))
         == Obj(doc.fields[RemoveAnchor(key) := MergedMember(doc, Nest(key, inner), key)])
  {
    var overlay := Nest(key, inner);
    OnlyName(key, inner);
    OverlayProof.MapStep(doc.fields, MergedFields(doc, overlay, overlay.fields.Keys), {RemoveAnchor(key)},
                         MergedMember(doc, overlay, key));
  }

  /** Inserting such a chain is merging it into an empty map. */
  lemma {:induction false} StrippedChain(keys: seq<string>, name: string, value: Json)
    requires AllUnmarked(keys) && !value.Obj? && !value.Arr?
    ensures Strip(Added(keys, name, value)) == Merge(Obj(map[]), Added(keys, name, value))
  {
    var overlay := Added(keys, name, value);
    var key := if keys == [] then Wrapped("+", name) else keys[0];
    var inner := if keys == [] then value else Added(keys[1..], name, value);
    StrippedName("+", name);
    WrappedParts("+", name);
    OneKeyStripped(key, inner);
    OneKeyMerged(Obj(map[]), key, inner);
  }

  lemma OneKeyStripped(key: string, inner: Json)
    ensures Strip(Nest(key, inner)) == Obj(map[RawKey(key) := Strip(inner)])
  {
    var overlay := Nest(key, inner);
    assert key in overlay.fields && forall k | k in overlay.fields :: k == key;
    assert RawKeys(overlay) == {RawKey(key)};
    assert KeyWithRaw(overlay, RawKey(key)) == key;
  }

  /** One step of the chain. */
  lemma ChainDown(doc: Json, keys: seq<string>, name: string, value: Json)
    requires doc.Obj? && keys != [] && AllUnmarked(keys) && !value.Obj? && !value.Arr?
    ensures var below := if keys[0] in doc.fields then doc.fields[keys[0]] else Obj(map[]);
            Merge(doc, Added(keys, name, value))
            == Obj(doc.fields[keys[0] := Merge(below, Added(keys[1..], name, value))])
  {
    OneKeyMerged(doc, keys[0], Added(keys[1..], name, value));
    StrippedChain(keys[1..], name, value);
  }

  lemma ChainEnds(doc: Json, name: string, value: Json)
    requires doc.Obj? && !value.Obj? && !value.Arr?
    ensures Merge(doc, Added([], name, value)) == if name in doc.fields then doc else Obj(doc.fields[name := value])
  {
    var key := Wrapped("+", name);
    AddedMember(doc, name, value);
    OneKeyMerged(doc, key, value);
    assert name in doc.fields ==> doc.fields[name := doc.fields[name]] == doc.fields;
  }

  lemma AddedMember(doc: Json, name: string, value: Json)
    requires doc.Obj? && !value.Obj? && !value.Arr?
    ensures var key := Wrapped("+", name);
            && !IsConditionAnchor(key) && RemoveAnchor(key) == name
            && MergedMember(doc, Nest(key, value), key) == if name in doc.fields then doc.fields[name] else value
  {
    StrippedName("+", name);
    WrappedParts("+", name);
  }

  /** The map one step down, empty when it is absent. */
  function BelowFirst(doc: Json, keys: seq<string>): Json
    requires doc.Obj? && keys != []
  {
    if keys[0] in doc.fields then doc.fields[keys[0]] else Obj(map[])
  }

  lemma BelowIsMap(doc: Json, keys: seq<string>)
    requires doc.Obj? && keys != [] && MapsAlong(doc, keys)
    ensures BelowFirst(doc, keys).Obj? && MapsAlong(BelowFirst(doc, keys), keys[1..])
  {
    assert keys[..1] == [keys[0]];
    LookupOne(doc, keys[0]);
    assert IsMap(Lookup(doc, keys[..1]));
    if keys[0] in doc.fields {
      MapsDown(doc, keys);
    } else {
      NothingAlong(keys[1..]);
    }
  }

  /** The member has the value it had, or the added one. */
  lemma {:induction false} AddedThere(doc: Json, keys: seq<string>, name: string, value: Json)
    requires doc.Obj? && AllUnmarked(keys) && MapsAlong(doc, keys) && !value.Obj? && !value.Arr?
    ensures var was := Lookup(doc, keys + [name]);
            Lookup(Merge(doc, Added(keys, name, value)), keys + [name]) == if was.Some? then was else Some(value)
    decreases |keys|
  {
    if keys == [] {
      assert keys + [name] == [name];
      ChainEnds(doc, name, value);
      LookupOne(doc, name);
      LookupOne(Merge(doc, Added([], name, value)), name);
    } else {
      assert (keys + [name])[1..] == keys[1..] + [name];
      ChainDown(doc, keys, name, value);
      BelowIsMap(doc, keys);
      AddedThere(BelowFirst(doc, keys), keys[1..], name, value);
      if keys[0] !in doc.fields {
        assert Lookup(Obj(map[]), keys[1..] + [name]) == None;
      }
    }
  }

  /** Paths that part from its path lead to what they led to. */
  lemma {:induction false} OthersAlong(doc: Json, keys: seq<string>, name: string, value: Json,
                                           other: seq<string>, n: nat)
    requires doc.Obj? && AllUnmarked(keys) && MapsAlong(doc, keys) && !value.Obj? && !value.Arr?
    requires PartAt(keys + [name], other, n)
    ensures Lookup(Merge(doc, Added(keys, name, value)), other) == Lookup(doc, other)
    decreases |keys|
  {
    var path := keys + [name];
    if keys == [] {
      ChainEnds(doc, name, value);
    } else {
      ChainDown(doc, keys, name, value);
      if n > 0 {
        assert path[1..] == keys[1..] + [name];
        assert other[0] == other[..n][0] == path[..n][0];
        assert path[1..][..n - 1] == path[..n][1..] && other[1..][..n - 1] == other[..n][1..];
        BelowIsMap(doc, keys);
        OthersAlong(BelowFirst(doc, keys), keys[1..], name, value, other[1..], n - 1);
        if keys[0] !in doc.fields {
          assert Lookup(Obj(map[]), other[1..]) == None;
        }
      }
    }
  }

  // ---------- Its patches always apply ----------

  lemma OneKeyIsInserted(key: string, inner: Json)
    requires !IsConditionAnchor(key) && StripClear(inner) && !HasOnlyAnchors(inner) && !HasNestedAnchors(inner)
    ensures var overlay := Nest(key, inner);
            StripClear(overlay) && !HasOnlyAnchors(overlay) && !HasNestedAnchors(overlay)
  {
    var overlay := Nest(key, inner);
    assert key in overlay.fields && forall k | k in overlay.fields :: k == key;
  }

  /** The overlay has no trouble with what is below the key. */
  ghost predicate Smooth(doc: Json, overlay: Json) {
    Clear(doc, overlay) && Ordered(doc, overlay) && !Fails(doc, overlay)
  }

  lemma OneKeyIsSmooth(doc: Json, key: string, inner: Json)
    requires !IsConditionAnchor(key) && StripClear(inner) && !HasOnlyAnchors(inner)
    requires doc.Obj? && RemoveAnchor(key) in doc.fields && !IsAddingAnchor(key) ==>
               Smooth(doc.fields[RemoveAnchor(key)], inner)
    ensures Smooth(doc, Nest(key, inner))
  {
    var overlay := Nest(key, inner);
    assert key in overlay.fields && forall k | k in overlay.fields :: k == key;
    if doc.Obj? {
      KeyIsSmooth(doc, key, inner);
    }
  }

  lemma KeyIsSmooth(doc: Json, key: string, inner: Json)
    requires !IsConditionAnchor(key) && StripClear(inner) && !HasOnlyAnchors(inner) && doc.Obj?
    requires RemoveAnchor(key) in doc.fields && !IsAddingAnchor(key) ==> Smooth(doc.fields[RemoveAnchor(key)], inner)
    ensures var overlay := Nest(key, inner);
            ClearKey(doc, overlay, key) && OrderedKey(doc, overlay, key) && !FailsKey(doc, overlay, key)
  {
  }

  lemma {:induction false} ChainIsInserted(keys: seq<string>, name: string, value: Json)
    requires AllUnmarked(keys) && !value.Obj? && !value.Arr?
    ensures var overlay := Added(keys, name, value);
            StripClear(overlay) && !HasOnlyAnchors(overlay) && !HasNestedAnchors(overlay)
  {
    if keys == [] {
      WrappedParts("+", name);
      OneKeyIsInserted(Wrapped("+", name), value);
    } else {
      ChainIsInserted(keys[1..], name, value);
      OneKeyIsInserted(keys[0], Added(keys[1..], name, value));
    }
  }

  lemma {:induction false} ChainIsSmooth(doc: Json, keys: seq<string>, name: string, value: Json)
    requires AllUnmarked(keys) && !value.Obj? && !value.Arr?
    ensures Smooth(doc, Added(keys, name, value))
    decreases |keys|
  {
    if keys == [] {
      WrappedParts("+", name);
      OneKeyIsSmooth(doc, Wrapped("+", name), value);
    } else {
      ChainIsInserted(keys[1..], name, value);
      if doc.Obj? && keys[0] in doc.fields {
        ChainIsSmooth(doc.fields[keys[0]], keys[1..], name, value);
      }
      OneKeyIsSmooth(doc, keys[0], Added(keys[1..], name, value));
    }
  }

  /** All places on the way have pointers that survive. */
  predicate FitAlong(at: seq<string>, keys: seq<string>, name: string) {
    && (forall n | 0 < n <= |keys| :: Fits(at + keys[..n]))
    && Fits(at + keys + [name])
  }

  lemma {:induction false} ChainIsPrintable(doc: Json, keys: seq<string>, name: string, value: Json, at: seq<string>)
    requires AllUnmarked(keys) && !value.Obj? && !value.Arr?
    requires FitAlong(at, keys, name) && (doc.Obj? || Fits(at))
    ensures Printable(doc, Added(keys, name, value), at)
    decreases |keys|
  {
    if doc.Obj? {
      var overlay := Added(keys, name, value);
      StrippedName("+", name);
      WrappedParts("+", name);
      if keys == [] {
        assert at + keys + [name] == at + [name];
      } else {
        assert at + keys[..1] == at + [keys[0]];
        assert Fits(at + [keys[0]]);
        forall n | 0 < n <= |keys[1..]| ensures Fits(at + [keys[0]] + keys[1..][..n]) {
          assert keys[..n + 1] == [keys[0]] + keys[1..][..n];
          assert at + [keys[0]] + keys[1..][..n] == at + ([keys[0]] + keys[1..][..n]);
        }
        assert at + [keys[0]] + keys[1..] + [name] == at + keys + [name];
        if keys[0] in doc.fields {
          ChainIsPrintable(doc.fields[keys[0]], keys[1..], name, value, at + [keys[0]]);
        }
      }
      forall k | k in overlay.fields ensures PrintableKey(doc, overlay, k, at) {
      }
    }
  }

  // ---------- The annotation of the pod template ----------

  function Template(): seq<string> { ["spec", "template", "metadata", "annotations"] }

  lemma AnnotationIsChain()
    ensures Mutation.PodTemplateOverlay() == Added(Template(), Mutation.PodTemplateAnnotation(), Str("true"))
  {
    var keys := Template();
    assert keys[1..] == ["template", "metadata", "annotations"];
    assert keys[1..][1..] == ["metadata", "annotations"];
    assert keys[1..][1..][1..] == ["annotations"];
    assert keys[1..][1..][1..][1..] == [];
  }

  lemma NoTilde(s: string)
    requires '~' !in s
    ensures Pointer.Unescaped(s)
  {
  }

  lemma TemplateTokens()
    ensures AllLack(Template(), '/') && Pointer.AllUnescaped(Template()) && AllUnmarked(Template())
  {
    forall key | key in {"spec", "template", "metadata", "annotations"} ensures Pointer.Unescaped(key) {
      NoTilde(key);
    }
  }

  lemma AnnotationToken()
    ensures Pointer.Unescaped(Mutation.PodTemplateAnnotation())
  {
    NoTilde(Mutation.PodTemplateAnnotation());
  }

  /** Before the annotations are passed there is no place for a slash, and below them there is. */
  lemma TemplatePassesAnnotations(name: string)
    ensures forall n | 0 < n <= 4 :: Pointer.FirstAnnotations(Template()[..n]) < 0
    ensures Pointer.FirstAnnotations(Template() + [name]) == 2
  {
    var keys := Template() + [name];
    assert keys[1..] == ["template", "metadata", "annotations", name];
    assert keys[1..][1..] == ["metadata", "annotations", name];
    assert "template"[0] == 't' && "metadata"[0] == 'm';
    assert Pointer.FirstAnnotations(keys[1..][1..]) == 0;
    assert Pointer.FirstAnnotations(keys[1..]) == 1;
    var four := Template()[..4];
    assert four[1..] == ["template", "metadata", "annotations"];
    assert four[1..][1..] == ["metadata", "annotations"];
    assert Template()[..3][1..] == ["template", "metadata"];
  }

  lemma AnnotationFits()
    ensures FitAlong([], Template(), Mutation.PodTemplateAnnotation())
  {
    var keys, name := Template(), Mutation.PodTemplateAnnotation();
    TemplateTokens();
    AnnotationToken();
    TemplatePassesAnnotations(name);
    forall n | 0 < n <= |keys| ensures Fits([] + keys[..n]) {
      assert [] + keys[..n] == keys[..n];
    }
    assert [] + keys + [name] == keys + [name] && (keys + [name])[..4] == keys;
  }

  /** The annotation has the value it had, or "true", and nothing else changes. */
  ghost predicate Annotated(doc: Json, after: Json) {
    var path := Template() + [Mutation.PodTemplateAnnotation()];
    && Lookup(after, path) == (if Lookup(doc, path).Some? then Lookup(doc, path) else Some(Str("true")))
    && forall other, n | PartAt(path, other, n) :: Lookup(after, other) == Lookup(doc, other)
  }

  lemma MergeAnnotates(doc: Json)
    requires doc.Obj? && MapsAlong(doc, Template())
    ensures Annotated(doc, Merge(doc, Mutation.PodTemplateOverlay()))
  {
    var name := Mutation.PodTemplateAnnotation();
    AnnotationIsChain();
    TemplateTokens();
    AddedThere(doc, Template(), name, Str("true"));
    forall other, n | PartAt(Template() + [name], other, n)
      ensures Lookup(Merge(doc, Mutation.PodTemplateOverlay()), other) == Lookup(doc, other)
    {
      OthersAlong(doc, Template(), name, Str("true"), other, n);
    }
  }

  lemma AnnotationIsSmooth(doc: Json)
    requires doc.Obj?
    ensures var overlay := Mutation.PodTemplateOverlay();
            Smooth(doc, overlay) && Printable(doc, overlay, []) && !HasNestedAnchors(overlay)
  {
    var name := Mutation.PodTemplateAnnotation();
    AnnotationIsChain();
    TemplateTokens();
    AnnotationFits();
    ChainIsInserted(Template(), name, Str("true"));
    ChainIsSmooth(doc, Template(), name, Str("true"));
    ChainIsPrintable(doc, Template(), name, Str("true"), []);
  }

  /** On a controller whose metadata are maps, the annotation rule succeeds if its result decodes,
      and on success the template is annotated. */
  lemma AnnotationIsAdded(doc: Json, ctx: Mutation.Context, r: Mutation.RuleResponse, after: Json)
    requires Mutation.OverlayRan(Mutation.PodTemplateRule(), doc, ctx, r, after)
    requires doc.Obj? && MapsAlong(doc, Template())
    ensures ctx.decodes(Merge(doc, Mutation.PodTemplateOverlay())) ==> r.success
    ensures r.success ==> Annotated(doc, after)
  {
    AnnotationIsSmooth(doc);
    MergeAnnotates(doc);
  }

  lemma OccursLater(piece: string, rest: string, pattern: string, i: nat)
    requires Pointer.OccursAt(rest, pattern, i)
    ensures Pointer.OccursAt(piece + ("," + rest), pattern, |piece| + 1 + i)
  {
    var s, at := piece + ("," + rest), |piece| + 1 + i;
    assert s[at..at + |pattern|] == rest[i..i + |pattern|];
  }

  lemma OccursFirst(pattern: string, rest: string)
    ensures Pointer.OccursAt(pattern + rest, pattern, 0)
  {
  }

  /** A text with four pieces has each of them in it. */
  lemma FourOccur(d: string, e: string, j: string, s: string)
    ensures var text := d + ("," + (e + ("," + (j + ("," + s)))));
            && Pointer.OccursAt(text, d, 0)
            && Pointer.OccursAt(text, e, |d| + 1)
            && Pointer.OccursAt(text, j, |d| + 1 + (|e| + 1))
            && Pointer.OccursAt(text, s, |d| + 1 + (|e| + 1 + (|j| + 1)))
  {
    var two := j + ("," + s);
    var three := e + ("," + two);
    OccursFirst(d, "," + three);
    OccursFirst(e, "," + two);
    OccursFirst(j, "," + s);
    OccursLater(d, three, e, 0);
    OccursLater(e, two, j, 0);
    OccursLater(d, three, j, |e| + 1);
    assert Pointer.OccursAt(s, s, 0);
    OccursLater(j, s, s, 0);
    OccursLater(e, two, s, |j| + 1);
    OccursLater(d, three, s, |e| + 1 + (|j| + 1));
  }

  /** What a document says its kind is. */
  function Kind(resource: Json): string {
    match Lookup(resource, ["kind"]) case Some(Str(kind)) => kind case _ => ""
  }

  /** Which kinds are annotated: those that occur in the list of controllers, as the four
      controllers do, but also the kind of a document that has none. */
  lemma AnnotatedKinds(resource: Json)
    ensures Mutation.IsPodController(resource) <==>
              exists i :: Pointer.OccursAt(Mutation.PodControllers(), Kind(resource), i)
    ensures Kind(resource) in {"DaemonSet", "Deployment", "Job", "StatefulSet", ""} ==>
              Mutation.IsPodController(resource)
  {
    LookupOne(resource, "kind");
    if !resource.Obj? {
      NoKind(resource);
    }
    Pointer.IndexIsFirst(Mutation.PodControllers(), Kind(resource));
    FourOccur("DaemonSet", "Deployment", "Job", "StatefulSet");
    Mutation.FourTexts();
    assert Pointer.OccursAt(Mutation.PodControllers(), "", 0);
  }

  lemma NoKind(resource: Json)
    requires !resource.Obj?
    ensures Child(resource, "kind") == None
  {
    assert !IsDigit("kind"[0]) && "kind"[0] in "kind";
  }
}
