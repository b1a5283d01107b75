/** Generating rules for pod controllers from the Pod rules of a new policy, as patches on the
    policy itself. */
module Autogen {
  import opened Json
  import opened JsonPatch
  import opened Text
  import opened OverlayProof
  import opened AutogenMeaning
  import Mutation

  datatype Description = Description(kinds: seq<string>, name: string, hasSelector: bool)

  datatype Validation = Validation(message: string, pattern: Option<Json>, anyPattern: seq<Json>)

  datatype Rule = Rule(
    name: string,
    matched: Description,
    excluded: Description,
    overlay: Option<Json>,
    validation: Validation)
  {
    predicate HasValidate() { validation != Validation("", None, []) }
  }

  /** `kyvernoRule`: the fields that are nil in the source are None. */
  datatype Generated = Generated(
    name: string,
    matched: Description,
    excluded: Option<Description>,
    overlay: Option<Json>,
    validation: Option<Validation>)

  predicate IsNarrow(d: Description) {
    d.name != "" || d.hasSelector
  }

  /** Rules about Pods that mutate by overlay or validate; under "all" only if neither block
      names particular resources. */
  ghost predicate Applies(rule: Rule, controllers: string) {
    && "Pod" in rule.matched.kinds
    && (rule.excluded.kinds == [] || "Pod" in rule.excluded.kinds)
    && (rule.overlay.Some? || rule.validation.pattern.Some? || rule.validation.anyPattern != [])
    && (controllers == "all" ==>
          && rule.matched.name == "" && !rule.matched.hasSelector
          && rule.excluded.name == "" && !rule.excluded.hasSelector)
  }

  /** The generated rule speaks about the controllers and does to their template what the
      original does to a Pod; of several operations only the first is taken over. */
  ghost predicate Translates(rule: Rule, kinds: seq<string>, gen: Generated) {
    && gen.name == "autogen-" + rule.name
    && gen.matched == rule.matched.(kinds := kinds)
    && gen.excluded == (if rule.excluded.kinds == [] then None else Some(rule.excluded.(kinds := kinds)))
    && match rule.overlay
       case Some(overlay) => gen.overlay == Some(Wrap(overlay)) && gen.validation == None
       case None =>
         && gen.overlay == None
         && gen.validation.Some?
         && gen.validation.value.message == rule.validation.message
         && match rule.validation.pattern
            case Some(pattern) =>
              gen.validation.value.pattern == Some(Wrap(pattern)) && gen.validation.value.anyPattern == []
            case None =>
              && gen.validation.value.pattern == None
              && |gen.validation.value.anyPattern| == |rule.validation.anyPattern|
              && forall i | 0 <= i < |rule.validation.anyPattern| ::
                   gen.validation.value.anyPattern[i] == Wrap(rule.validation.anyPattern[i])
  }

  /** The kinds an annotation stands for: the four pod controllers, or what it lists between
      commas. */
  ghost predicate AreKinds(controllers: string, kinds: seq<string>) {
    if controllers == "all" then
      kinds == ["DaemonSet", "Deployment", "Job", "StatefulSet"]
    else
      kinds != [] && AllLack(kinds, ',') && Join(kinds, ',') == controllers
  }

  ghost function KindsFor(controllers: string): (kinds: seq<string>)
    ensures AreKinds(controllers, kinds)
  {
    FourControllers();
    SplitExactly(controllers, Split(controllers, ','), ',');
    Split(if controllers == "all" then Mutation.PodControllers() else controllers, ',')
  }

  lemma FourControllers()
    ensures Split(Mutation.PodControllers(), ',') == ["DaemonSet", "Deployment", "Job", "StatefulSet"]
  {
    var kinds := FourKinds("DaemonSet", "Deployment", "Job", "StatefulSet");
    Mutation.FourTexts();
    NoCommas();
    SplitExactly(Mutation.PodControllers(), kinds, ',');
  }

  lemma NoCommas()
    ensures AllLack(["DaemonSet", "Deployment", "Job", "StatefulSet"], ',')
  {
  }

  lemma FourKinds(a: string, b: string, c: string, d: string) returns (kinds: seq<string>)
    ensures kinds == [a, b, c, d] && Join(kinds, ',') == a + ("," + (b + ("," + (c + ("," + d)))))
  {
    kinds := [a, b, c, d];
    assert kinds == [a] + ([b] + ([c] + [d]));
    JoinStep(a, [b] + ([c] + [d]), ',');
    JoinStep(b, [c] + [d], ',');
    JoinStep(c, [d], ',');
    JoinOne(d, ',');
  }

  method GenerateRuleForControllers(rule: Rule, controllers: string) returns (res: Option<Generated>)
    ensures res.Some? <==> Applies(rule, controllers)
    ensures res.Some? ==> Translates(rule, KindsFor(controllers), res.value)
    ensures res.Some? ==> AreKinds(controllers, res.value.matched.kinds)
  {
    if "Pod" !in rule.matched.kinds || (|rule.excluded.kinds| != 0 && "Pod" !in rule.excluded.kinds) {
      return None;
    }
    if rule.overlay.None? && !rule.HasValidate() {
      return None;
    }
    var names := controllers;
    if names == "all" {
      if IsNarrow(rule.matched) || IsNarrow(rule.excluded) {
        return None;
      }
      names := Mutation.PodControllers();
    }
    var gen := Generated("autogen-" + rule.name, rule.matched, None, None, None);
    gen := gen.(matched := gen.matched.(kinds := Split(names, ',')));
    if |rule.excluded.kinds| != 0 {
      gen := gen.(excluded := Some(rule.excluded.(kinds := Split(names, ','))));
    }
    if rule.overlay.Some? {
      gen := gen.(overlay := Some(Wrap(rule.overlay.value)));
      return Some(gen);
    }
    if rule.validation.pattern.Some? {
      var wrapped := Wrap(rule.validation.pattern.value);
      gen := gen.(validation := Some(Validation(rule.validation.message, Some(wrapped), [])));
      return Some(gen);
    }
    if |rule.validation.anyPattern| != 0 {
      var patterns: seq<Json> := [];
      for i := 0 to |rule.validation.anyPattern|
        invariant |patterns| == i
        invariant forall j | 0 <= j < i :: patterns[j] == Wrap(rule.validation.anyPattern[j])
      {
        patterns := patterns + [Wrap(rule.validation.anyPattern[i])];
      }
      gen := gen.(validation := Some(Validation(rule.validation.message, None, patterns)));
      return Some(gen);
    }
    res := None;
  }

  // ---------- The patches on the policy ----------

  /** The generated rules of a policy, in the order of the rules they come from. */
  ghost predicate GeneratedFrom(rules: seq<Rule>, controllers: string, gens: seq<Generated>) {
    if rules == [] then
      gens == []
    else
      var init, last := rules[..|rules| - 1], rules[|rules| - 1];
      if Applies(last, controllers) then
        && gens != []
        && Translates(last, KindsFor(controllers), gens[|gens| - 1])
        && GeneratedFrom(init, controllers, gens[..|gens| - 1])
      else
        GeneratedFrom(init, controllers, gens)
  }

  function Encoded(gens: seq<Generated>, encode: Generated -> Json): seq<Json> {
    seq(|gens|, i requires 0 <= i < |gens| => encode(gens[i]))
  }

  predicate HasRules(policy: Json) {
    && policy.Obj? && "spec" in policy.fields
    && policy.fields["spec"].Obj? && "rules" in policy.fields["spec"].fields
    && policy.fields["spec"].fields["rules"].Arr?
  }

  function RulesOf(policy: Json): seq<Json>
    requires HasRules(policy)
  {
    policy.fields["spec"].fields["rules"].items
  }

  function WithRules(policy: Json, rules: seq<Json>): Json
    requires HasRules(policy)
  {
    Obj(policy.fields["spec" := Obj(policy.fields["spec"].fields["rules" := Arr(rules)])])
  }

  /** Adding at the end of the rules appends. */
  lemma AppendRule(policy: Json, value: Json)
    requires HasRules(policy)
    ensures ApplyOp(policy, Op(Add, ["spec", "rules", Itoa(|RulesOf(policy)|)], value))
         == Some(WithRules(policy, RulesOf(policy) + [value]))
  {
    var rules := RulesOf(policy);
    var op := Op(Add, ["spec", "rules", Itoa(|rules|)], value);
    IndexRoundTrip(|rules|);
    var below := op.(path := op.path[1..]);
    var last := below.(path := below.path[1..]);
    assert below.path == ["rules", Itoa(|rules|)] && last.path == [Itoa(|rules|)];
    assert rules[..|rules|] + [value] + rules[|rules|..] == rules + [value];
    assert ApplyOp(Arr(rules), last) == Some(Arr(rules + [value]));
    assert ApplyOp(policy.fields["spec"], below)
      == Some(Obj(policy.fields["spec"].fields["rules" := Arr(rules + [value])]));
  }

  /** Applied in order to any policy with `n` rules, the patches append the generated rules.
      `encode` stands for JSON marshalling. */
  ghost predicate Appends(n: nat, patches: seq<Op>, gens: seq<Generated>, encode: Generated -> Json) {
    forall policy | HasRules(policy) && |RulesOf(policy)| == n ::
      ApplyAll(policy, patches) == Some(WithRules(policy, RulesOf(policy) + Encoded(gens, encode)))
  }

  method GenerateRulePatches(rules: seq<Rule>, controllers: string, encode: Generated -> Json)
    returns (patches: seq<Op>)
    ensures exists gens :: GeneratedFrom(rules, controllers, gens) && Appends(|rules|, patches, gens, encode)
  {
    patches := [];
    ghost var gens: seq<Generated> := [];
    var insertIdx := |rules|;
    NothingAppends(insertIdx, encode);
    for i := 0 to |rules|
      invariant insertIdx == |rules| + |gens|
      invariant GeneratedFrom(rules[..i], controllers, gens)
      invariant Appends(|rules|, patches, gens, encode)
    {
      var genRule := GenerateRuleForControllers(rules[i], controllers);
      OneMoreGenerated(rules, i, controllers, gens, genRule);
      if genRule.None? {
        continue;
      }
      var patch := Op(Add, ["spec", "rules", Itoa(insertIdx)], encode(genRule.value));
      OneMoreAppends(|rules|, patches, gens, genRule.value, encode);
      patches, gens := patches + [patch], gens + [genRule.value];
      insertIdx := insertIdx + 1;
    }
    assert rules[..|rules|] == rules;
  }

  lemma OneMoreGenerated(rules: seq<Rule>, i: nat, controllers: string, gens: seq<Generated>, gen: Option<Generated>)
    requires i < |rules| && GeneratedFrom(rules[..i], controllers, gens)
    requires gen.Some? <==> Applies(rules[i], controllers)
    requires gen.Some? ==> Translates(rules[i], KindsFor(controllers), gen.value)
    ensures GeneratedFrom(rules[..i + 1], controllers, if gen.Some? then gens + [gen.value] else gens)
  {
    assert rules[..i + 1][..i] == rules[..i];
    assert gen.Some? ==> (gens + [gen.value])[..|gens|] == gens;
  }

  lemma NothingAppends(n: nat, encode: Generated -> Json)
    ensures Appends(n, [], [], encode)
  {
    forall policy | HasRules(policy) ensures WithRules(policy, RulesOf(policy) + Encoded([], encode)) == policy {
      assert RulesOf(policy) + Encoded([], encode) == RulesOf(policy);
      assert policy.fields["spec"].fields["rules" := Arr(RulesOf(policy))] == policy.fields["spec"].fields;
      assert policy.fields["spec" := policy.fields["spec"]] == policy.fields;
    }
  }

  lemma OneMoreAppends(n: nat, patches: seq<Op>, gens: seq<Generated>, gen: Generated, encode: Generated -> Json)
    requires Appends(n, patches, gens, encode)
    ensures Appends(n, patches + [Op(Add, ["spec", "rules", Itoa(n + |gens|)], encode(gen))], gens + [gen], encode)
  {
    var patch := Op(Add, ["spec", "rules", Itoa(n + |gens|)], encode(gen));
    forall policy | HasRules(policy) && |RulesOf(policy)| == n
      ensures ApplyAll(policy, patches + [patch])
              == Some(WithRules(policy, RulesOf(policy) + Encoded(gens + [gen], encode)))
    {
      StepAppends(policy, patches, gens, gen, encode);
    }
  }

  lemma StepAppends(policy: Json, patches: seq<Op>, gens: seq<Generated>, gen: Generated, encode: Generated -> Json)
    requires HasRules(policy)
    requires ApplyAll(policy, patches) == Some(WithRules(policy, RulesOf(policy) + Encoded(gens, encode)))
    ensures ApplyAll(policy, patches + [Op(Add, ["spec", "rules", Itoa(|RulesOf(policy)| + |gens|)], encode(gen))])
         == Some(WithRules(policy, RulesOf(policy) + Encoded(gens + [gen], encode)))
  {
    var sofar := WithRules(policy, RulesOf(policy) + Encoded(gens, encode));
    var patch := Op(Add, ["spec", "rules", Itoa(|RulesOf(policy)| + |gens|)], encode(gen));
    WithRulesTwice(policy, RulesOf(policy) + Encoded(gens, encode), RulesOf(policy) + Encoded(gens + [gen], encode));
    EncodedSnoc(RulesOf(policy), gens, gen, encode);
    AppendRule(sofar, encode(gen));
    ApplyConcat(policy, patches, [patch]);
    ApplyOne(sofar, patch);
  }

  lemma EncodedSnoc(rules: seq<Json>, gens: seq<Generated>, gen: Generated, encode: Generated -> Json)
    ensures rules + Encoded(gens + [gen], encode) == rules + Encoded(gens, encode) + [encode(gen)]
  {
  }

  lemma WithRulesTwice(policy: Json, first: seq<Json>, second: seq<Json>)
    requires HasRules(policy)
    ensures HasRules(WithRules(policy, first)) && RulesOf(WithRules(policy, first)) == first
    ensures WithRules(WithRules(policy, first), second) == WithRules(policy, second)
  {
    var spec := policy.fields["spec"];
    assert spec.fields["rules" := Arr(first)]["rules" := Arr(second)] == spec.fields["rules" := Arr(second)];
    var once, twice := Obj(spec.fields["rules" := Arr(first)]), Obj(spec.fields["rules" := Arr(second)]);
    assert policy.fields["spec" := once]["spec" := twice] == policy.fields["spec" := twice];
  }
}
