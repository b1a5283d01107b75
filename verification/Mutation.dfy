/** Rules, policies and the admission webhook: the resource each of them hands on, and the
    patches they report. */
module Mutation {
  import opened Json
  import opened JsonPatch
  import opened PatchLaws
  import opened OverlaySpec
  import opened OverlayProof
  import opened OverlayCondition
  import opened OverlayArrival
  import opened OverlayLaws
  import opened OverlayNest
  import Anchors
  import Overlay
  import Pointer

  function PodControllers(): string { "DaemonSet,Deployment,Job,StatefulSet" }

  /** A mutation rule after variable substitution. `matches` stands for the admission,
      resource-description and precondition checks; the two path flags say whether every
      variable path the rule or its overlay mentions is present. */
  datatype Rule = Rule(
    name: string,
    rulePathsPresent: bool,
    matches: Json -> bool,
    overlay: Option<Json>,
    overlayPathsPresent: bool,
    patches: Option<seq<Op>>)
  {
    predicate HasMutate() { overlay.Some? || patches.Some? }
  }

  /** No patches is nil in the source, never an empty list. */
  datatype RuleResponse = RuleResponse(name: string, success: bool, pathNotPresent: bool, patches: Option<seq<Op>>)

  datatype EngineResponse = EngineResponse(patchedResource: Json, rules: seq<RuleResponse>)

  /** What the engine is run with: the scalar test, whether a document decodes to a resource,
      and whether there is an admission request (there is none for existing resources). */
  datatype Context = Context(leaf: LeafTest, decodes: Json -> bool, admission: bool)

  // ---------- Reported patches replay ----------

  /** Reported patches turn `before` into `after`; no patches, no change. */
  ghost predicate Replays(before: Json, response: RuleResponse, after: Json) {
    match response.patches
    case None => after == before
    case Some(ops) => response.success && ops != [] && ApplyAll(before, ops) == Some(after)
  }

  function Reported(response: RuleResponse): seq<Op> {
    match response.patches case None => [] case Some(ops) => ops
  }

  function AllReported(rules: seq<RuleResponse>): seq<Op> {
    if rules == [] then [] else AllReported(rules[..|rules| - 1]) + Reported(rules[|rules| - 1])
  }

  predicate AllSucceeded(rules: seq<RuleResponse>) {
    forall i | 0 <= i < |rules| :: rules[i].success
  }

  lemma ReportedConcat(start: Json, rules: seq<RuleResponse>, before: Json, response: RuleResponse, after: Json)
    requires ApplyAll(start, AllReported(rules)) == Some(before)
    requires Replays(before, response, after)
    ensures ApplyAll(start, AllReported(rules + [response])) == Some(after)
  {
    AllReportedSnoc(rules, response);
    ApplyConcat(start, AllReported(rules), Reported(response));
  }

  // ---------- Overlay rules ----------

  method ProcessOverlayPatches(resource: Json, overlay: Json, leaf: LeafTest)
    returns (check: Check, res: Overlay.Outcome)
    ensures check.Panic? ==> !Safe(resource, overlay)
    ensures !check.Panic? ==> (check.Met? <==> Meets(resource, overlay, leaf))
    ensures check.Met? ==> (!res.Patches? <==> Fails(resource, overlay))
    ensures res.Panic? ==> MayPanic(resource, overlay)
    ensures check.Met? && res.Patches? && Clear(resource, overlay) && Printable(resource, overlay, []) ==>
              ApplyAll(resource, res.ops) == When(Ordered(resource, overlay), Merge(resource, overlay))
  {
    check := MeetConditions(resource, overlay, leaf);
    res := Overlay.Patches([]);
    if check.Met? {
      res := MutateResourceWithOverlay(resource, overlay);
    }
  }

  /** One overlay rule on one resource. A resource that does not meet the conditions is handed
      on unchanged and counts as success; one that does becomes the merge, if the overlay can
      be compiled and its patches apply. */
  ghost predicate OverlayRan(rule: Rule, before: Json, ctx: Context, response: RuleResponse, after: Json)
    requires rule.overlay.Some?
  {
    var overlay := rule.overlay.value;
    && Replays(before, response, after)
    && response.name == rule.name
    && (response.pathNotPresent <==> !rule.overlayPathsPresent)
    && (response.pathNotPresent ==> response.patches == None)
    && (response.patches.Some? ==> ctx.decodes(after))
    && if !rule.overlayPathsPresent || !Meets(before, overlay, ctx.leaf) then
         response.success && after == before
       else if Fails(before, overlay) then
         !response.success
       else
         Clear(before, overlay) && Printable(before, overlay, []) ==>
           && (response.success ==> Ordered(before, overlay) && after == Merge(before, overlay))
           && (Ordered(before, overlay) && ctx.decodes(Merge(before, overlay)) ==> response.success)
  }

  method ProcessOverlay(rule: Rule, resource: Json, ctx: Context)
    returns (panic: bool, response: RuleResponse, patched: Json)
    requires rule.overlay.Some?
    ensures panic ==> Panics(rule, resource)
    ensures !panic ==> OverlayRan(rule, resource, ctx, response, patched)
  {
    panic, patched := false, resource;
    response := RuleResponse(rule.name, true, false, None);
    if !rule.overlayPathsPresent {
      response := response.(pathNotPresent := true);
      return;
    }
    var check, res := ProcessOverlayPatches(resource, rule.overlay.value, ctx.leaf);
    if check.Panic? {
      panic := true;
      return;
    }
    if check.Unmet? {
      return;
    }
    if res.Panic? {
      panic := true;
      return;
    }
    if res.GenerationError? {
      response := response.(success := false);
      return;
    }
    if res.ops == [] {
      return;
    }
    match ApplyAll(resource, res.ops)
    case None =>
      response := response.(success := false);
    case Some(doc) =>
      if !ctx.decodes(doc) {
        response := response.(success := false);
      } else {
        response := response.(patches := Some(res.ops));
        patched := doc;
      }
  }

  /** A rule run a second time, on the resource that its first success handed on. The conditions
      still hold, and the resource changes again exactly if the overlay appends, can be compiled
      again, and its patches apply and give a resource. */
  lemma RunTwice(rule: Rule, before: Json, ctx: Context, r: RuleResponse, mid: Json, r': RuleResponse, after: Json)
    requires rule.overlay.Some? && rule.overlayPathsPresent && Tame(rule.overlay.value)
    requires OverlayRan(rule, before, ctx, r, mid) && OverlayRan(rule, mid, ctx, r', after)
    requires Meets(before, rule.overlay.value, ctx.leaf) && r.success
    requires Printable(before, rule.overlay.value, []) && Printable(mid, rule.overlay.value, [])
    ensures Meets(mid, rule.overlay.value, ctx.leaf)
    ensures var overlay := rule.overlay.value;
            after != mid <==> && Appends(overlay) && !Fails(mid, overlay) && Ordered(mid, overlay)
                              && ctx.decodes(Merge(mid, overlay))
    ensures !Appends(rule.overlay.value) && ctx.decodes(mid) ==> r'.success
  {
    var overlay := rule.overlay.value;
    TameIsUnambiguous(before, overlay);
    TameIsUnambiguous(mid, overlay);
    ConditionsSurvive(before, overlay, ctx.leaf);
    MergeContains(before, overlay);
    ContainedStays(mid, overlay);
  }

  // ---------- JSON Patch rules ----------

  /** The patches of a rule that take effect one after the other: a removal that fails is
      skipped, any other failure spoils the rule. */
  function Effective(doc: Json, patches: seq<Op>): Option<seq<Op>>
    decreases |patches|
  {
    if patches == [] then
      Some([])
    else
      match ApplyOp(doc, patches[0])
      case Some(doc') =>
        (match Effective(doc', patches[1..])
         case None => None
         case Some(rest) => Some([patches[0]] + rest))
      case None =>
        if patches[0].verb == Remove then Effective(doc, patches[1..]) else None
  }

  function Prepended(applied: seq<Op>, rest: Option<seq<Op>>): Option<seq<Op>> {
    if rest.None? then None else Some(applied + rest.value)
  }

  lemma EffectiveStep(doc: Json, patches: seq<Op>, applied: seq<Op>)
    requires patches != []
    ensures var op := patches[0];
            Prepended(applied, Effective(doc, patches))
            == if ApplyOp(doc, op).Some? then Prepended(applied + [op], Effective(ApplyOp(doc, op).value, patches[1..]))
               else if op.verb == Remove then Prepended(applied, Effective(doc, patches[1..]))
               else None
  {
    if ApplyOp(doc, patches[0]).Some? {
      var rest := Effective(ApplyOp(doc, patches[0]).value, patches[1..]);
      if rest.Some? {
        assert applied + ([patches[0]] + rest.value) == applied + [patches[0]] + rest.value;
      }
    }
  }

  /** `kept` is `all` in its order, without some of the removals. */
  ghost predicate OnlyRemovalsDropped(kept: seq<Op>, all: seq<Op>)
    decreases |all|
  {
    if all == [] then
      kept == []
    else
      || (kept != [] && kept[0] == all[0] && OnlyRemovalsDropped(kept[1..], all[1..]))
      || (all[0].verb == Remove && OnlyRemovalsDropped(kept, all[1..]))
  }

  lemma {:induction false} EffectiveReplays(doc: Json, patches: seq<Op>)
    requires Effective(doc, patches).Some?
    ensures ApplyAll(doc, Effective(doc, patches).value).Some?
    ensures OnlyRemovalsDropped(Effective(doc, patches).value, patches)
    ensures multiset(Effective(doc, patches).value) <= multiset(patches)
    ensures forall op | op in patches && op.verb != Remove :: op in Effective(doc, patches).value
    decreases |patches|
  {
    if patches != [] {
      assert patches == [patches[0]] + patches[1..];
      match ApplyOp(doc, patches[0])
      case Some(doc') =>
        EffectiveReplays(doc', patches[1..]);
        var effective := Effective(doc, patches).value;
        assert effective[1..] == Effective(doc', patches[1..]).value;
      case None =>
        EffectiveReplays(doc, patches[1..]);
    }
  }

  /** A patch rule succeeds with its effective patches, or leaves no trace. */
  ghost predicate PatchesRan(rule: Rule, before: Json, ctx: Context, response: RuleResponse, after: Json)
    requires rule.patches.Some?
  {
    var effective := Effective(before, rule.patches.value);
    && Replays(before, response, after)
    && response.name == rule.name
    && !response.pathNotPresent
    && (response.success <==>
          && effective.Some?
          && ApplyAll(before, effective.value).Some? && ctx.decodes(ApplyAll(before, effective.value).value))
    && (response.success ==> Reported(response) == effective.value)
  }

  lemma EffectiveOne(doc: Json, op: Op)
    ensures Effective(doc, [op]) == if ApplyOp(doc, op).Some? then Some([op])
                                    else if op.verb == Remove then Some([]) else None
  {
    assert [op][1..] == [];
    if ApplyOp(doc, op).Some? {
      assert Effective(ApplyOp(doc, op).value, []) == Some([]);
      assert [op] + [] == [op];
    }
  }

  /** A rule with one patch that succeeds: after a removal the path of a member leads nowhere,
      after an addition or a replacement it leads to the value, and paths that part from it lead
      to what they led to. */
  lemma OnePatch(rule: Rule, op: Op, before: Json, ctx: Context, response: RuleResponse, after: Json)
    requires rule.patches == Some([op]) && PatchesRan(rule, before, ctx, response, after) && response.success
    ensures op.verb == Remove && InObject(before, op.path) ==> Lookup(after, op.path) == None
    ensures op.verb != Remove && !(InArray(before, op.path) && Last(op.path) == "-") ==>
              Lookup(after, op.path) == Some(op.value)
    ensures InObject(before, op.path) ==>
              forall other, n | PartAt(op.path, other, n) :: Lookup(after, other) == Lookup(before, other)
  {
    EffectiveOne(before, op);
    if ApplyOp(before, op).Some? {
      ApplyOne(before, op);
      OneOpApplied(op, before, after);
    } else {
      AppliesExactly(before, op);
    }
  }

  lemma OneOpApplied(op: Op, before: Json, after: Json)
    requires ApplyOp(before, op) == Some(after)
    ensures op.verb == Remove && InObject(before, op.path) ==> Lookup(after, op.path) == None
    ensures op.verb != Remove && !(InArray(before, op.path) && Last(op.path) == "-") ==>
              Lookup(after, op.path) == Some(op.value)
    ensures InObject(before, op.path) ==>
              forall other, n | PartAt(op.path, other, n) :: Lookup(after, other) == Lookup(before, other)
  {
    if op.verb == Remove {
      if InObject(before, op.path) {
        RemovedIsGone(before, op);
      }
    } else {
      WrittenIsThere(before, op);
    }
    if InObject(before, op.path) {
      forall other, n | PartAt(op.path, other, n) ensures Lookup(after, other) == Lookup(before, other) {
        OthersStay(before, op, other, n);
      }
    }
  }

  /** The loop over the patches of a rule goes on after a failure. */
  method ApplyEach(all: seq<Op>, resource: Json) returns (failed: bool, doc: Json, applied: seq<Op>)
    ensures failed <==> Effective(resource, all) == None
    ensures !failed ==> Effective(resource, all) == Some(applied) && ApplyAll(resource, applied) == Some(doc)
  {
    failed, doc, applied := false, resource, [];
    assert all[0..] == all && Prepended([], Effective(resource, all)) == Effective(resource, all) by {
      if Effective(resource, all).Some? {
        assert [] + Effective(resource, all).value == Effective(resource, all).value;
      }
    }
    for i := 0 to |all|
      invariant ApplyAll(resource, applied) == Some(doc)
      invariant failed ==> Effective(resource, all) == None
      invariant !failed ==> Effective(resource, all) == Prepended(applied, Effective(doc, all[i..]))
    {
      var patch := all[i];
      assert all[i..][1..] == all[i + 1..];
      EffectiveStep(doc, all[i..], applied);
      match ApplyOp(doc, patch)
      case None =>
        if patch.verb != Remove {
          failed := true;
        }
      case Some(doc') =>
        ApplyConcat(resource, applied, [patch]);
        ApplyOne(doc, patch);
        doc, applied := doc', applied + [patch];
    }
    assert all[|all|..] == [] && applied + [] == applied;
  }

  method ProcessPatches(rule: Rule, resource: Json, ctx: Context)
    returns (response: RuleResponse, patched: Json)
    requires rule.patches.Some?
    ensures PatchesRan(rule, resource, ctx, response, patched)
    ensures forall op: Op | rule.patches == Some([op]) && response.success
              && op.verb == Remove && InObject(resource, op.path) ::
              Lookup(patched, op.path) == None
  {
    response := RuleResponse(rule.name, false, false, None);
    var failed, doc, applied := ApplyEach(rule.patches.value, resource);
    if failed {
      return response, resource;
    }
    if !ctx.decodes(doc) {
      return response, resource;
    }
    response := response.(success := true, patches := if applied == [] then None else Some(applied));
    patched := doc;
    forall op: Op | rule.patches == Some([op]) && op.verb == Remove && InObject(resource, op.path)
      ensures Lookup(patched, op.path) == None
    {
      OnePatch(rule, op, resource, ctx, response, patched);
    }
  }

  // ---------- A policy ----------

  lemma TwoTexts()
    ensures "Job" + ("," + "StatefulSet") == "Job,StatefulSet"
  {
  }

  lemma ThreeTexts()
    ensures "Deployment" + ("," + "Job,StatefulSet") == "Deployment,Job,StatefulSet"
  {
  }

  lemma FourTexts()
    ensures "DaemonSet" + ("," + ("Deployment" + ("," + ("Job" + ("," + "StatefulSet"))))) == PodControllers()
  {
    TwoTexts();
    ThreeTexts();
  }

  function KindOf(resource: Json): string {
    if resource.Obj? && "kind" in resource.fields && resource.fields["kind"].Str? then
      resource.fields["kind"].s
    else
      ""
  }

  /** `strings.Contains(PodControllers, kind)`: any substring of the list qualifies. */
  predicate IsPodController(resource: Json) {
    Pointer.Index(PodControllers(), KindOf(resource)) >= 0
  }

  function PodTemplateAnnotation(): string { "pod-policies.kyverno.io/autogen-applied" }

  /** The annotation inserted into the pod template of a pod controller. */
  function PodTemplateOverlay(): Json {
    Nest("spec", Nest("template", Nest("metadata", Nest("annotations",
      Nest(Anchors.Wrapped("+", PodTemplateAnnotation()), Str("true"))))))
  }

  function PodTemplateRule(): Rule {
    Rule("autogen-annotate-podtemplate", true, _ => true, Some(PodTemplateOverlay()), true, None)
  }

  /** That overlay has no arrays to panic on, neither in the check of its conditions nor in the
      walk. */
  lemma PodTemplateIsSafe(resource: Json)
    ensures Safe(resource, PodTemplateOverlay()) && !MayPanic(resource, PodTemplateOverlay())
  {
    var key := Anchors.Wrapped("+", PodTemplateAnnotation());
    Unanchored(key, Str("true"));
    var annotations := Nest(key, Str("true"));
    Unanchored("annotations", annotations);
    Unanchored("metadata", Nest("annotations", annotations));
    Unanchored("template", Nest("metadata", Nest("annotations", annotations)));
    Unanchored("spec", Nest("template", Nest("metadata", Nest("annotations", annotations))));
    NoPanic(resource, PodTemplateOverlay());
  }

  lemma Unanchored(key: string, value: Json)
    requires key != "" && key[0] != '(' && !HasNestedAnchors(value) && ArrayFree(value)
    ensures !HasNestedAnchors(Nest(key, value)) && ArrayFree(Nest(key, value))
  {
    assert !Anchors.IsConditionAnchor(key);
  }

  ghost predicate ArrayFree(overlay: Json) {
    match overlay
    case Obj(fields) => forall k | k in fields :: ArrayFree(fields[k])
    case Arr(_) => false
    case _ => true
  }

  lemma {:induction false} NoPanic(resource: Json, overlay: Json)
    requires ArrayFree(overlay)
    ensures !MayPanic(resource, overlay)
    decreases overlay
  {
    if overlay.Obj? && resource.Obj? {
      forall k | k in overlay.fields ensures !MayPanicKey(resource, overlay, k) {
        if Anchors.RemoveAnchor(k) in resource.fields {
          NoPanic(resource.fields[Anchors.RemoveAnchor(k)], overlay.fields[k]);
        }
      }
    }
  }

  /** A rule on which the check of the conditions or the walk may panic. */
  ghost predicate Panics(rule: Rule, before: Json) {
    && rule.overlay.Some? && rule.overlayPathsPresent
    && (!Safe(before, rule.overlay.value) || MayPanic(before, rule.overlay.value))
  }

  /** One rule of a policy admitted with `resource`, run on the document `before`. */
  ghost predicate RuleRan(rule: Rule, resource: Json, ctx: Context, before: Json, part: seq<RuleResponse>,
                          after: Json) {
    if rule.overlay == None && rule.patches == None && !IsPodController(resource) then
      part == [] && after == before
    else if !rule.rulePathsPresent then
      part == [RuleResponse(rule.name, true, true, None)] && after == before
    else if !rule.matches(resource) then
      part == [] && after == before
    else
      exists r, mid :: OverlayThenRest(rule, resource, ctx, before, r, mid, part, after)
  }

  ghost predicate OverlayThenRest(rule: Rule, resource: Json, ctx: Context, before: Json, r: RuleResponse, mid: Json,
                                  part: seq<RuleResponse>, after: Json)
  {
    && (if rule.overlay.Some? then OverlayRan(rule, before, ctx, r, mid) else mid == before)
    && RestRan(rule, resource, ctx, r, mid, part, after)
  }

  ghost predicate RestRan(rule: Rule, resource: Json, ctx: Context, r: RuleResponse, mid: Json,
                          part: seq<RuleResponse>, after: Json)
  {
    if rule.overlay.Some? && r.success && r.patches == None then
      // nothing to do, or a path is missing: the rest of the rule is skipped
      part == (if r.pathNotPresent then [r] else []) && after == mid
    else
      exists r', mid' :: PatchesThenTemplate(rule, resource, ctx, r, mid, r', mid', part, after)
  }

  ghost predicate PatchesThenTemplate(rule: Rule, resource: Json, ctx: Context, r: RuleResponse, before: Json,
                                      r': RuleResponse, mid: Json, part: seq<RuleResponse>, after: Json)
  {
    && (if rule.patches.Some? then PatchesRan(rule, before, ctx, r', mid) else mid == before)
    && TemplateRan(resource, ctx, mid, FirstPart(rule, r) + SecondPart(rule, r'), part, after)
  }

  ghost predicate TemplateRan(resource: Json, ctx: Context, before: Json,
                              first: seq<RuleResponse>, part: seq<RuleResponse>, after: Json)
  {
    if ctx.admission && IsPodController(resource) then
      exists r :: TemplateAnnotated(ctx, before, first, r, part, after)
    else
      part == first && after == before
  }

  ghost predicate TemplateAnnotated(ctx: Context, before: Json, first: seq<RuleResponse>, r: RuleResponse,
                                    part: seq<RuleResponse>, after: Json)
  {
    && OverlayRan(PodTemplateRule(), before, ctx, r, after)
    && part == first + if r.success && r.patches.Some? then [r] else []
  }

  lemma AllReportedSnoc(rules: seq<RuleResponse>, last: RuleResponse)
    ensures AllReported(rules + [last]) == AllReported(rules) + Reported(last)
  {
    assert (rules + [last])[..|rules|] == rules;
  }

  lemma Associative<T>(a: seq<T>, b: seq<T>, c: seq<T>)
    ensures a + b + c == a + (b + c)
  {
  }

  lemma {:induction false} AllReportedConcat(first: seq<RuleResponse>, more: seq<RuleResponse>)
    ensures AllReported(first + more) == AllReported(first) + AllReported(more)
    decreases |more|
  {
    if more == [] {
      assert first + more == first;
    } else {
      var init, last := more[..|more| - 1], more[|more| - 1];
      assert more == init + [last];
      AllReportedConcat(first, init);
      Associative(first, init, [last]);
      AllReportedSnoc(first + init, last);
      AllReportedSnoc(init, last);
      Associative(AllReported(first), AllReported(init), Reported(last));
    }
  }

  /** What a rule reports replays to what it hands on. */
  lemma RuleReplays(rule: Rule, resource: Json, ctx: Context, before: Json, part: seq<RuleResponse>, after: Json)
    requires RuleRan(rule, resource, ctx, before, part, after)
    ensures ApplyAll(before, AllReported(part)) == Some(after)
  {
    if (rule.HasMutate() || IsPodController(resource)) && rule.rulePathsPresent && rule.matches(resource) {
      var r, mid := RuleWitness(rule, resource, ctx, before, part, after);
      AppliedReplays(rule, resource, ctx, before, r, mid, part, after);
    } else {
      NothingReported(part);
    }
  }

  lemma RuleWitness(rule: Rule, resource: Json, ctx: Context, before: Json, part: seq<RuleResponse>, after: Json)
    returns (r: RuleResponse, mid: Json)
    requires RuleRan(rule, resource, ctx, before, part, after)
    requires (rule.HasMutate() || IsPodController(resource)) && rule.rulePathsPresent && rule.matches(resource)
    ensures OverlayThenRest(rule, resource, ctx, before, r, mid, part, after)
  {
    r, mid :| OverlayThenRest(rule, resource, ctx, before, r, mid, part, after);
  }

  lemma AppliedReplays(rule: Rule, resource: Json, ctx: Context, before: Json, r: RuleResponse, mid: Json,
                       part: seq<RuleResponse>, after: Json)
    requires OverlayThenRest(rule, resource, ctx, before, r, mid, part, after)
    ensures ApplyAll(before, AllReported(part)) == Some(after)
  {
    OverlayReplays(rule, ctx, before, r, mid);
    RestReplays(rule, resource, ctx, before, r, mid, part, after);
  }

  /** Responses without patches report nothing. */
  lemma NothingReported(part: seq<RuleResponse>)
    requires part == [] || (|part| == 1 && part[0].patches == None)
    ensures AllReported(part) == []
  {
    if |part| == 1 {
      assert part[..0] == [];
    }
  }

  lemma RestReplays(rule: Rule, resource: Json, ctx: Context, before: Json, r: RuleResponse, mid: Json,
                    part: seq<RuleResponse>, after: Json)
    requires RestRan(rule, resource, ctx, r, mid, part, after)
    requires ApplyAll(before, AllReported(FirstPart(rule, r))) == Some(mid)
    ensures ApplyAll(before, AllReported(part)) == Some(after)
  {
    if rule.overlay.Some? && r.success && r.patches == None {
      SkippedReplays(before, r, mid, part);
    } else {
      var r', mid' := RestWitness(rule, resource, ctx, r, mid, part, after);
      ThenReplays(rule, resource, ctx, before, r, mid, r', mid', part, after);
    }
  }

  lemma RestWitness(rule: Rule, resource: Json, ctx: Context, r: RuleResponse, mid: Json, part: seq<RuleResponse>,
                    after: Json)
    returns (r': RuleResponse, mid': Json)
    requires RestRan(rule, resource, ctx, r, mid, part, after)
    requires !(rule.overlay.Some? && r.success && r.patches == None)
    ensures PatchesThenTemplate(rule, resource, ctx, r, mid, r', mid', part, after)
  {
    r', mid' :| PatchesThenTemplate(rule, resource, ctx, r, mid, r', mid', part, after);
  }

  lemma SkippedReplays(before: Json, r: RuleResponse, mid: Json, part: seq<RuleResponse>)
    requires ApplyAll(before, AllReported([r])) == Some(mid) && r.patches == None
    requires part == if r.pathNotPresent then [r] else []
    ensures ApplyAll(before, AllReported(part)) == Some(mid)
  {
    NothingReported([r]);
    NothingReported(part);
  }

  lemma ThenReplays(rule: Rule, resource: Json, ctx: Context, before: Json, r: RuleResponse, mid: Json,
                    r': RuleResponse, mid': Json, part: seq<RuleResponse>, after: Json)
    requires PatchesThenTemplate(rule, resource, ctx, r, mid, r', mid', part, after)
    requires ApplyAll(before, AllReported(FirstPart(rule, r))) == Some(mid)
    ensures ApplyAll(before, AllReported(part)) == Some(after)
  {
    PatchesReplay(rule, ctx, before, FirstPart(rule, r), mid, r', mid');
    TemplateReplays(resource, ctx, before, mid', FirstPart(rule, r) + SecondPart(rule, r'), part, after);
  }

  function FirstPart(rule: Rule, r: RuleResponse): seq<RuleResponse> {
    if rule.overlay.Some? then [r] else []
  }

  function SecondPart(rule: Rule, r: RuleResponse): seq<RuleResponse> {
    if rule.patches.Some? then [r] else []
  }

  lemma OverlayReplays(rule: Rule, ctx: Context, before: Json, r: RuleResponse, mid: Json)
    requires if rule.overlay.Some? then OverlayRan(rule, before, ctx, r, mid) else mid == before
    ensures ApplyAll(before, AllReported(FirstPart(rule, r))) == Some(mid)
  {
    if rule.overlay.Some? {
      ReportedConcat(before, [], before, r, mid);
      assert [] + [r] == FirstPart(rule, r);
    }
  }

  lemma PatchesReplay(rule: Rule, ctx: Context, start: Json, first: seq<RuleResponse>, before: Json, r: RuleResponse,
                      mid: Json)
    requires ApplyAll(start, AllReported(first)) == Some(before)
    requires if rule.patches.Some? then PatchesRan(rule, before, ctx, r, mid) else mid == before
    ensures ApplyAll(start, AllReported(first + SecondPart(rule, r))) == Some(mid)
  {
    if rule.patches.Some? {
      ReportedConcat(start, first, before, r, mid);
    } else {
      assert first + SecondPart(rule, r) == first;
    }
  }

  lemma TemplateReplays(resource: Json, ctx: Context, start: Json, before: Json, first: seq<RuleResponse>,
                        part: seq<RuleResponse>, after: Json)
    requires ApplyAll(start, AllReported(first)) == Some(before)
    requires TemplateRan(resource, ctx, before, first, part, after)
    ensures ApplyAll(start, AllReported(part)) == Some(after)
  {
    if ctx.admission && IsPodController(resource) {
      var r :| TemplateAnnotated(ctx, before, first, r, part, after);
      AnnotationReplays(ctx, start, before, first, r, part, after);
    }
  }

  lemma AnnotationReplays(ctx: Context, start: Json, before: Json, first: seq<RuleResponse>, r: RuleResponse,
                          part: seq<RuleResponse>, after: Json)
    requires ApplyAll(start, AllReported(first)) == Some(before)
    requires TemplateAnnotated(ctx, before, first, r, part, after)
    ensures ApplyAll(start, AllReported(part)) == Some(after)
  {
    assert Replays(before, r, after);
    if r.success && r.patches.Some? {
      ReportedConcat(start, first, before, r, after);
    } else {
      assert part == first;
    }
  }

  /** The body of the loop over the rules of a policy. */
  method MutateRule(rule: Rule, resource: Json, ctx: Context, before: Json)
    returns (panic: bool, part: seq<RuleResponse>, patched: Json)
    ensures panic ==> Panics(rule, before)
    ensures !panic ==> RuleRan(rule, resource, ctx, before, part, patched)
  {
    panic, part, patched := false, [], before;
    if !rule.HasMutate() && !IsPodController(resource) {
      return;
    }
    if !rule.rulePathsPresent {
      var absent := RuleResponse(rule.name, true, true, None);
      part := part + [absent];
      return;
    }
    if !rule.matches(resource) {
      return;
    }
    panic, part, patched := RunRule(rule, resource, ctx, before);
  }

  lemma RestSkipped(rule: Rule, resource: Json, ctx: Context, before: Json, r: RuleResponse,
                    part: seq<RuleResponse>, after: Json)
    requires rule.overlay.Some? && OverlayRan(rule, before, ctx, r, after) && r.success && r.patches == None
    requires part == if r.pathNotPresent then [r] else []
    ensures OverlayThenRest(rule, resource, ctx, before, r, after, part, after)
  {
  }

  lemma RestFollows(rule: Rule, resource: Json, ctx: Context, before: Json, r: RuleResponse, mid: Json,
                    r': RuleResponse, mid': Json, part: seq<RuleResponse>, after: Json)
    requires if rule.overlay.Some? then OverlayRan(rule, before, ctx, r, mid) else mid == before
    requires !(rule.overlay.Some? && r.success && r.patches == None)
    requires PatchesThenTemplate(rule, resource, ctx, r, mid, r', mid', part, after)
    ensures OverlayThenRest(rule, resource, ctx, before, r, mid, part, after)
  {
  }

  /** A rule that applies: its overlay, then the rest. */
  method RunRule(rule: Rule, resource: Json, ctx: Context, before: Json)
    returns (panic: bool, part: seq<RuleResponse>, patched: Json)
    ensures panic ==> Panics(rule, before)
    ensures !panic ==> exists r, mid :: OverlayThenRest(rule, resource, ctx, before, r, mid, part, patched)
  {
    panic, part, patched := false, [], before;
    ghost var r1 := RuleResponse(rule.name, true, false, None);
    if rule.overlay.Some? {
      var r;
      panic, r, patched := ProcessOverlay(rule, patched, ctx);
      if panic {
        return;
      }
      r1 := r;
      if r.success {
        if r.pathNotPresent {
          part := part + [r];
          RestSkipped(rule, resource, ctx, before, r, part, patched);
          return;
        }
        if r.patches == None {
          RestSkipped(rule, resource, ctx, before, r, part, patched);
          return;
        }
      }
      part := part + [r];
    }
    ghost var mid, r2, mid2 := patched, r1, patched;
    part, patched, r2, mid2 := RunRest(rule, resource, ctx, r1, patched, part);
    RestFollows(rule, resource, ctx, before, r1, mid, r2, mid2, part, patched);
  }

  /** The JSON Patch of a rule, then the annotation of the pod template. */
  method RunRest(rule: Rule, resource: Json, ctx: Context, ghost r: RuleResponse, before: Json,
                 first: seq<RuleResponse>)
    returns (part: seq<RuleResponse>, patched: Json, ghost r': RuleResponse, ghost mid: Json)
    requires first == FirstPart(rule, r)
    ensures PatchesThenTemplate(rule, resource, ctx, r, before, r', mid, part, patched)
  {
    part, patched, r' := first, before, RuleResponse(rule.name, true, false, None);
    if rule.patches.Some? {
      var response;
      response, patched := ProcessPatches(rule, patched, ctx);
      r', part := response, part + [response];
    }
    mid := patched;
    assert part == first + SecondPart(rule, r');
    part, patched := AnnotateTemplate(resource, ctx, patched, part);
  }

  /** On admission, the pod template of a pod controller is annotated. */
  method AnnotateTemplate(resource: Json, ctx: Context, before: Json, first: seq<RuleResponse>)
    returns (part: seq<RuleResponse>, patched: Json)
    ensures TemplateRan(resource, ctx, before, first, part, patched)
  {
    part, patched := first, before;
    if ctx.admission && IsPodController(resource) {
      var response;
      response, patched := Annotate(ctx, before);
      if response.success && response.patches.Some? {
        part := part + [response];
      }
      assert TemplateAnnotated(ctx, before, first, response, part, patched);
    }
  }

  method Annotate(ctx: Context, before: Json) returns (response: RuleResponse, patched: Json)
    ensures OverlayRan(PodTemplateRule(), before, ctx, response, patched)
  {
    PodTemplateIsSafe(before);
    var panic;
    panic, response, patched := ProcessOverlay(PodTemplateRule(), before, ctx);
  }

  ghost function Flatten(parts: seq<seq<RuleResponse>>): seq<RuleResponse> {
    if parts == [] then [] else Flatten(parts[..|parts| - 1]) + parts[|parts| - 1]
  }

  /** `parts` are the responses of the first rules, and `docs` the documents between them. */
  ghost predicate Chain(rules: seq<Rule>, resource: Json, ctx: Context, docs: seq<Json>,
                        parts: seq<seq<RuleResponse>>) {
    && |docs| == |parts| + 1 && |parts| <= |rules|
    && docs[0] == resource
    && (forall i | 0 <= i < |parts| :: RuleRan(rules[i], resource, ctx, docs[i], parts[i], docs[i + 1]))
  }

  lemma ChainStep(rules: seq<Rule>, resource: Json, ctx: Context, docs: seq<Json>, parts: seq<seq<RuleResponse>>,
                  part: seq<RuleResponse>, after: Json)
    requires Chain(rules, resource, ctx, docs, parts) && |parts| < |rules|
    requires RuleRan(rules[|parts|], resource, ctx, docs[|parts|], part, after)
    ensures Chain(rules, resource, ctx, docs + [after], parts + [part])
  {
    var docs', parts' := docs + [after], parts + [part];
    forall i | 0 <= i < |parts'| ensures RuleRan(rules[i], resource, ctx, docs'[i], parts'[i], docs'[i + 1]) {
      if i < |parts| {
        assert docs'[i] == docs[i] && docs'[i + 1] == docs[i + 1] && parts'[i] == parts[i];
      } else {
        assert docs'[i] == docs[i] && docs'[i + 1] == after && parts'[i] == part;
      }
    }
  }

  lemma FlattenSnoc(parts: seq<seq<RuleResponse>>, part: seq<RuleResponse>)
    ensures Flatten(parts + [part]) == Flatten(parts) + part
  {
    assert (parts + [part])[..|parts|] == parts;
  }

  lemma ChainReplays(start: Json, rules: seq<RuleResponse>, before: Json, part: seq<RuleResponse>, after: Json)
    requires ApplyAll(start, AllReported(rules)) == Some(before)
    requires ApplyAll(before, AllReported(part)) == Some(after)
    ensures ApplyAll(start, AllReported(rules + part)) == Some(after)
  {
    AllReportedConcat(rules, part);
    ApplyConcat(start, AllReported(rules), AllReported(part));
  }

  /** The rules ran one after the other on the documents `docs` and reported `parts`. */
  ghost predicate PolicyRan(rules: seq<Rule>, resource: Json, ctx: Context, response: EngineResponse,
                            docs: seq<Json>, parts: seq<seq<RuleResponse>>)
  {
    && Chain(rules, resource, ctx, docs, parts)
    && |parts| == |rules|
    && docs[|rules|] == response.patchedResource
    && response.rules == Flatten(parts)
  }

  /** The rules in `parts` ran, and the next one panics. */
  ghost predicate PolicyPanics(rules: seq<Rule>, resource: Json, ctx: Context, docs: seq<Json>,
                               parts: seq<seq<RuleResponse>>) {
    && Chain(rules, resource, ctx, docs, parts)
    && |parts| < |rules|
    && Panics(rules[|parts|], docs[|parts|])
  }

  /** All rules of one policy in order, each on the document the one before handed on. */
  method Mutate(rules: seq<Rule>, resource: Json, ctx: Context)
    returns (panic: bool, response: EngineResponse, ghost docs: seq<Json>, ghost parts: seq<seq<RuleResponse>>)
    ensures !panic ==> ApplyAll(resource, AllReported(response.rules)) == Some(response.patchedResource)
    ensures !panic ==> PolicyRan(rules, resource, ctx, response, docs, parts)
    ensures panic ==> PolicyPanics(rules, resource, ctx, docs, parts)
  {
    panic := false;
    var patched := resource;
    var responses: seq<RuleResponse> := [];
    docs, parts := [resource], [];
    response := EngineResponse(patched, responses);
    for i := 0 to |rules|
      invariant ApplyAll(resource, AllReported(responses)) == Some(patched)
      invariant Chain(rules, resource, ctx, docs, parts) && |parts| == i
      invariant docs[i] == patched && responses == Flatten(parts)
    {
      var part, after;
      panic, part, after := MutateRule(rules[i], resource, ctx, patched);
      if panic {
        return;
      }
      RuleReplays(rules[i], resource, ctx, patched, part, after);
      ChainReplays(resource, responses, patched, part, after);
      ChainStep(rules, resource, ctx, docs, parts, part, after);
      FlattenSnoc(parts, part);
      responses, patched := responses + part, after;
      docs, parts := docs + [after], parts + [part];
    }
    response := EngineResponse(patched, responses);
  }

  // ---------- The webhook ----------

  /** `docs` are the resources the policies were run on: a policy with a failed rule hands on
      the resource it was given and none of its patches are sent. */
  ghost predicate Threaded(policies: seq<seq<Rule>>, ctx: Context, docs: seq<Json>, responses: seq<EngineResponse>,
                           sent: seq<Op>)
  {
    && |docs| == |responses| + 1 && |responses| <= |policies|
    && (forall i | 0 <= i < |responses| :: Handed(policies[i], ctx, docs[i], responses[i], docs[i + 1]))
    && sent == AllSent(responses)
  }

  ghost predicate Handed(policy: seq<Rule>, ctx: Context, before: Json, response: EngineResponse, after: Json) {
    && (exists inner, parts :: PolicyRan(policy, before, ctx, response, inner, parts))
    && after == if AllSucceeded(response.rules) then response.patchedResource else before
  }

  lemma HandedOn(policy: seq<Rule>, ctx: Context, before: Json, response: EngineResponse,
                 inner: seq<Json>, parts: seq<seq<RuleResponse>>, after: Json)
    requires PolicyRan(policy, before, ctx, response, inner, parts)
    requires after == if AllSucceeded(response.rules) then response.patchedResource else before
    ensures Handed(policy, ctx, before, response, after)
  {
  }

  lemma ThreadedStep(policies: seq<seq<Rule>>, ctx: Context, docs: seq<Json>, responses: seq<EngineResponse>,
                     before: seq<Op>, response: EngineResponse, after: Json, sent: seq<Op>)
    requires Threaded(policies, ctx, docs, responses, before) && |responses| < |policies|
    requires Handed(policies[|responses|], ctx, docs[|responses|], response, after)
    requires sent == if AllSucceeded(response.rules) then before + AllReported(response.rules) else before
    ensures Threaded(policies, ctx, docs + [after], responses + [response], sent)
  {
    var docs', responses' := docs + [after], responses + [response];
    forall i | 0 <= i < |responses'| ensures Handed(policies[i], ctx, docs'[i], responses'[i], docs'[i + 1]) {
      if i < |responses| {
        assert docs'[i] == docs[i] && docs'[i + 1] == docs[i + 1] && responses'[i] == responses[i];
      } else {
        assert docs'[i] == docs[i] && docs'[i + 1] == after && responses'[i] == response;
      }
    }
    AllSentSnoc(responses, response);
  }

  lemma AllSentSnoc(responses: seq<EngineResponse>, response: EngineResponse)
    ensures AllSent(responses + [response])
         == AllSent(responses) + if AllSucceeded(response.rules) then AllReported(response.rules) else []
  {
    assert (responses + [response])[..|responses|] == responses;
  }

  ghost function AllSent(responses: seq<EngineResponse>): seq<Op> {
    if responses == [] then []
    else
      var last := responses[|responses| - 1];
      AllSent(responses[..|responses| - 1]) + if AllSucceeded(last.rules) then AllReported(last.rules) else []
  }

  /** `IsSuccesful` */
  method IsSuccessful(response: EngineResponse) returns (ok: bool)
    ensures ok <==> AllSucceeded(response.rules)
  {
    for i := 0 to |response.rules|
      invariant AllSucceeded(response.rules[..i])
    {
      if !response.rules[i].success {
        return false;
      }
    }
    assert response.rules[..|response.rules|] == response.rules;
    ok := true;
  }

  /** `GetPatches` */
  method GetPatches(response: EngineResponse) returns (ops: seq<Op>)
    ensures ops == AllReported(response.rules)
  {
    ops := [];
    for i := 0 to |response.rules|
      invariant ops == AllReported(response.rules[..i])
    {
      assert response.rules[..i + 1][..i] == response.rules[..i];
      if response.rules[i].patches.Some? {
        ops := ops + response.rules[i].patches.value;
      }
    }
    assert response.rules[..|response.rules|] == response.rules;
  }

  /** The patches sent to the API server, before the annotation patch, replay on the admitted
      resource to the last resource that was threaded through the policies. */
  method HandleMutation(policies: seq<seq<Rule>>, resource: Json, ctx: Context)
    returns (panic: bool, sent: seq<Op>, newResource: Json, responses: seq<EngineResponse>, ghost docs: seq<Json>)
    ensures !panic ==> ApplyAll(resource, sent) == Some(newResource)
    ensures Threaded(policies, ctx, docs, responses, sent)
    ensures docs[0] == resource && docs[|responses|] == newResource
    ensures !panic ==> |responses| == |policies|
    ensures panic ==> |responses| < |policies|
                      && exists inner, parts :: PolicyPanics(policies[|responses|], newResource, ctx, inner, parts)
  {
    panic, sent, newResource, responses := false, [], resource, [];
    docs := [resource];
    for i := 0 to |policies|
      invariant ApplyAll(resource, sent) == Some(newResource)
      invariant |responses| == i && |docs| == i + 1 && Threaded(policies, ctx, docs, responses, sent)
      invariant docs[0] == resource && docs[i] == newResource
    {
      var response;
      ghost var inner, parts;
      panic, response, inner, parts := Mutate(policies[i], newResource, ctx);
      if panic {
        return;
      }
      ghost var before, soFar := newResource, sent;
      var ok := IsSuccessful(response);
      if ok {
        var patches := GetPatches(response);
        sent := sent + patches;
        newResource := response.patchedResource;
        ApplyConcat(resource, soFar, patches);
      }
      HandedOn(policies[i], ctx, before, response, inner, parts, newResource);
      ThreadedStep(policies, ctx, docs, responses, soFar, response, newResource, sent);
      responses, docs := responses + [response], docs + [newResource];
    }
  }
}
