/** Moving a pattern or an overlay under spec.template moves its meaning with it. */
module AutogenMeaning {
  import opened Json
  import opened JsonPatch
  import opened OverlayNest
  import OverlaySpec
  import OverlayProof
  import OverlayCondition
  import MatcherSpec

  /** A Pod pattern or overlay turned into one for a pod controller. */
  function Wrap(inner: Json): Json {
    Nest("spec", Nest("template", inner))
  }

  lemma PlainKey(key: string)
    requires key == "spec" || key == "template"
    ensures IsPlain(key) && MatcherSpec.HandlerOf(key) == MatcherSpec.DefaultHandler
  {
  }

  // ---------- Validation ----------

  /** A one-member pattern passes when the member does. */
  lemma NestMayPass(resource: Json, key: string, inner: Json, leaf: LeafTest)
    requires key == "spec" || key == "template"
    requires inner != MatcherSpec.ANYTHING
    ensures MatcherSpec.MayPass(resource, Nest(key, inner), leaf)
       <==> resource.Obj? && MatcherSpec.MayPass(MatcherSpec.Member(resource, key), inner, leaf)
    ensures MatcherSpec.Matches(resource, Nest(key, inner), leaf)
       <==> resource.Obj? && MatcherSpec.Matches(MatcherSpec.Member(resource, key), inner, leaf)
  {
    PlainKey(key);
    var pattern := Nest(key, inner);
    if resource.Obj? {
      assert MatcherSpec.KeyMayPass(resource, pattern, key, leaf)
        <==> MatcherSpec.MayPass(MatcherSpec.Member(resource, key), inner, leaf);
      assert MatcherSpec.KeyMatches(resource, pattern, key, leaf)
        <==> MatcherSpec.Matches(MatcherSpec.Member(resource, key), inner, leaf);
      assert forall k | k in pattern.fields :: k == key;
    }
  }

  lemma NestMayFail(resource: Json, key: string, inner: Json, path: seq<string>, leaf: LeafTest)
    requires key == "spec" || key == "template"
    requires inner != MatcherSpec.ANYTHING
    ensures MatcherSpec.MayFail(resource, Nest(key, inner), path, leaf)
       <==> if !resource.Obj? then path == []
            else path != [] && path[0] == key
                 && MatcherSpec.MayFail(MatcherSpec.Member(resource, key), inner, path[1..], leaf)
  {
    PlainKey(key);
    var pattern := Nest(key, inner);
    if resource.Obj? {
      assert MatcherSpec.KeyMayFail(resource, pattern, key, path, leaf)
        <==> (path != [] && path[0] == key
              && MatcherSpec.MayFail(MatcherSpec.Member(resource, key), inner, path[1..], leaf));
      assert forall k | k in pattern.fields :: k == key;
      assert !MatcherSpec.IsAnchor(key);
    }
  }

  predicate HasSpec(doc: Json) {
    doc.Obj? && "spec" in doc.fields && doc.fields["spec"].Obj?
  }

  /** The pod template of a controller, null when absent. */
  function Template(doc: Json): Json
    requires HasSpec(doc)
  {
    var spec := doc.fields["spec"];
    if "template" in spec.fields then spec.fields["template"] else Null
  }

  /** A controller passes the wrapped pattern exactly when it has a spec map and its template
      passes the pattern. */
  lemma WrappedPatternMeans(doc: Json, pattern: Json, leaf: LeafTest)
    requires pattern != MatcherSpec.ANYTHING
    ensures MatcherSpec.MayPass(doc, Wrap(pattern), leaf)
       <==> HasSpec(doc) && MatcherSpec.MayPass(Template(doc), pattern, leaf)
    ensures MatcherSpec.Matches(doc, Wrap(pattern), leaf)
       <==> HasSpec(doc) && MatcherSpec.Matches(Template(doc), pattern, leaf)
  {
    NestMayPass(doc, "spec", Nest("template", pattern), leaf);
    if doc.Obj? {
      NestMayPass(MatcherSpec.Member(doc, "spec"), "template", pattern, leaf);
    }
  }

  /** It fails where the template fails, under /spec/template, or where the template cannot be
      reached. */
  lemma WrappedPatternFailsAt(doc: Json, pattern: Json, path: seq<string>, leaf: LeafTest)
    requires pattern != MatcherSpec.ANYTHING
    ensures MatcherSpec.MayFail(doc, Wrap(pattern), path, leaf)
       <==> if !doc.Obj? then path == []
            else if !HasSpec(doc) then path == ["spec"]
            else |path| >= 2 && path[0] == "spec" && path[1] == "template"
                 && MatcherSpec.MayFail(Template(doc), pattern, path[2..], leaf)
  {
    NestMayFail(doc, "spec", Nest("template", pattern), path, leaf);
    if doc.Obj? && path != [] {
      NestMayFail(MatcherSpec.Member(doc, "spec"), "template", pattern, path[1..], leaf);
      if |path| >= 2 {
        assert path[1..][1..] == path[2..];
      }
    }
  }

  // ---------- Mutation ----------

  predicate HasTemplate(doc: Json) {
    && doc.Obj? && "spec" in doc.fields
    && doc.fields["spec"].Obj? && "template" in doc.fields["spec"].fields
  }

  /** For a controller with a template, the conditions of the wrapped overlay are those of the
      overlay on the template, it fails when the overlay fails there, and merging it changes
      only the template, to the template merged with the overlay. */
  lemma WrappedOverlayMeans(doc: Json, overlay: Json, leaf: LeafTest)
    requires HasTemplate(doc)
    ensures var template := doc.fields["spec"].fields["template"];
      && (OverlayCondition.Meets(doc, Wrap(overlay), leaf) <==> OverlayCondition.Meets(template, overlay, leaf))
      && (OverlaySpec.Fails(doc, Wrap(overlay)) <==> OverlaySpec.Fails(template, overlay))
      && OverlaySpec.Merge(doc, Wrap(overlay))
         == WithChild(doc, "spec", WithChild(doc.fields["spec"], "template", OverlaySpec.Merge(template, overlay)))
  {
    var spec, nested := doc.fields["spec"], Nest("template", overlay);
    PlainKey("spec");
    PlainKey("template");
    NestMeets(doc, "spec", nested, leaf);
    NestMeets(spec, "template", overlay, leaf);
    NestEmits(doc, "spec", nested, []);
    NestEmits(spec, "template", overlay, []);
    NestMerge(doc, "spec", nested);
    NestMerge(spec, "template", overlay);
  }

  /** Its patches are the patches for the template under /spec/template. */
  lemma WrappedOverlayEmits(doc: Json, overlay: Json, ops: seq<Op>)
    requires HasTemplate(doc)
    ensures OverlaySpec.Emits(doc, Wrap(overlay), ops)
       <==> exists inner :: ops == Under("spec", Under("template", inner))
                            && OverlaySpec.Emits(doc.fields["spec"].fields["template"], overlay, inner)
  {
    var template := doc.fields["spec"].fields["template"];
    if OverlaySpec.Emits(doc, Wrap(overlay), ops) {
      var inner := EmittedInside(doc, overlay, ops);
      assert ops == Under("spec", Under("template", inner)) && OverlaySpec.Emits(template, overlay, inner);
    }
    if inner :| ops == Under("spec", Under("template", inner)) && OverlaySpec.Emits(template, overlay, inner) {
      EmittedOutside(doc, overlay, inner);
    }
  }

  lemma EmittedInside(doc: Json, overlay: Json, ops: seq<Op>) returns (inner: seq<Op>)
    requires HasTemplate(doc) && OverlaySpec.Emits(doc, Wrap(overlay), ops)
    ensures ops == Under("spec", Under("template", inner))
    ensures OverlaySpec.Emits(doc.fields["spec"].fields["template"], overlay, inner)
  {
    var spec, nested := doc.fields["spec"], Nest("template", overlay);
    PlainKey("spec");
    PlainKey("template");
    NestEmits(doc, "spec", nested, ops);
    var below: seq<Op> :| ops == Under("spec", below) && OverlaySpec.Emits(spec, nested, below);
    NestEmits(spec, "template", overlay, below);
    inner :| below == Under("template", inner) && OverlaySpec.Emits(spec.fields["template"], overlay, inner);
  }

  lemma EmittedOutside(doc: Json, overlay: Json, inner: seq<Op>)
    requires HasTemplate(doc) && OverlaySpec.Emits(doc.fields["spec"].fields["template"], overlay, inner)
    ensures OverlaySpec.Emits(doc, Wrap(overlay), Under("spec", Under("template", inner)))
  {
    var spec, nested := doc.fields["spec"], Nest("template", overlay);
    var below := Under("template", inner);
    PlainKey("spec");
    PlainKey("template");
    NestEmits(spec, "template", overlay, below);
    assert OverlaySpec.EmitsBelow(spec.fields["template"], overlay, "template", below);
    NestEmits(doc, "spec", nested, Under("spec", below));
    assert OverlaySpec.EmitsBelow(spec, nested, "spec", Under("spec", below));
  }

  /** A template put back into its controller. */
  function WithTemplate(doc: Json, template: Json): Json
    requires HasTemplate(doc)
  {
    WithChild(doc, "spec", WithChild(doc.fields["spec"], "template", template))
  }

  /** Applied to the controller, every patch list of the wrapped overlay does to the template
      what a patch list of the overlay does to it alone, and fails where that fails. */
  lemma WrappedPatchesApply(doc: Json, overlay: Json, ops: seq<Op>) returns (inner: seq<Op>)
    requires HasTemplate(doc) && OverlaySpec.Emits(doc, Wrap(overlay), ops)
    ensures ops == Under("spec", Under("template", inner))
    ensures OverlaySpec.Emits(doc.fields["spec"].fields["template"], overlay, inner)
    ensures ApplyAll(doc, ops) == match ApplyAll(doc.fields["spec"].fields["template"], inner) {
                                    case None => None
                                    case Some(template) => Some(WithTemplate(doc, template))
                                  }
  {
    var spec := doc.fields["spec"];
    inner := EmittedInside(doc, overlay, ops);
    OverlayProof.EmittedShape(spec.fields["template"], overlay, inner);
    Descend(spec, "template", inner);
    Descend(doc, "spec", Under("template", inner));
  }
}
