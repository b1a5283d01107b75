/** The life of one generate request, shared by the controller that processes it and the one
    that cleans it up. The cluster is a map of objects behind an API whose calls may fail;
    reads see the current state. */
module GenerateRequest {
  import opened Json
  import opened JsonPatch

  datatype Target = Target(kind: string, namespace: string, name: string)

  /** A rule after variable substitution. The three path flags say whether the variable paths
      mentioned in the target, the data and the clone source are present. */
  datatype Rule = Rule(
    generates: bool,
    target: Target,
    data: Option<Json>,
    clone: Option<Target>,
    targetPathsPresent: bool,
    dataPathsPresent: bool,
    clonePathsPresent: bool)

  /** A policy as it relates to the owner of the request: whether any rule applies to it,
      whether the paths in the rule descriptions are present, and whether the policy is younger
      than the owner. */
  datatype Policy = Policy(rules: seq<Rule>, applies: bool, pathsPresent: bool, younger: bool)

  datatype Status = Unprocessed | Failed | Completed

  /** An entry without a target is an empty resource spec. */
  datatype Request = Request(policy: string, owner: Target, status: Status, generated: seq<Option<Target>>)

  datatype World = World(objects: map<Target, Json>, policies: map<string, Policy>, request: Option<Request>)

  datatype Answer = Found(obj: Json) | Absent | Unavailable

  datatype Error = Violation | ParseFailed | NotFound | Other

  datatype Handled = Create(data: Json) | Nothing | Fails(error: Error)

  type Subset = (Json, Json) -> bool

  /** The content of a generated object: the data or the clone source under the name of the
      target, without a resource version. */
  function WithName(content: Json, t: Target): Json {
    var fields := if content.Obj? then content.fields else map[];
    var meta := if "metadata" in fields && fields["metadata"].Obj? then fields["metadata"].fields else map[];
    var named := (meta - {"namespace", "resourceVersion"})["name" := Str(t.name)];
    Obj(fields["metadata" := Obj(if t.namespace == "" then named else named["namespace" := Str(t.namespace)])])
  }

  /** A generated object has the name and namespace of its target and no resource version; every
      other member is that of the content, and so is everything else in its metadata. */
  lemma GeneratedContent(content: Json, t: Target)
    requires content.Obj?
    ensures var obj := WithName(content, t);
            && Lookup(obj, ["metadata", "name"]) == Some(Str(t.name))
            && Lookup(obj, ["metadata", "namespace"]) == (if t.namespace == "" then None else Some(Str(t.namespace)))
            && Lookup(obj, ["metadata", "resourceVersion"]) == None
            && obj.Obj? && obj.fields - {"metadata"} == content.fields - {"metadata"}
            && forall k | k !in {"name", "namespace", "resourceVersion"} ::
                 Lookup(obj, ["metadata", k]) == match Lookup(content, ["metadata"])
                                                 case Some(Obj(meta)) => Lookup(Obj(meta), [k])
                                                 case _ => None
  {
    var obj := WithName(content, t);
    forall k ensures Lookup(obj, ["metadata", k]) == Child(obj.fields["metadata"], k) {
      TwoSteps(obj, "metadata", k);
    }
    LookupOne(content, "metadata");
    forall meta: map<string, Json>, k: string ensures Lookup(Obj(meta), [k]) == Child(Obj(meta), k) {
      LookupOne(Obj(meta), k);
    }
  }

  lemma TwoSteps(obj: Json, first: string, second: string)
    requires obj.Obj? && first in obj.fields
    ensures Lookup(obj, [first, second]) == Child(obj.fields[first], second)
  {
    assert [first, second][1..] == [second];
    LookupOne(obj.fields[first], second);
  }

  /** What a rule generates from, given the objects it can clone. */
  function Source(rule: Rule, objects: map<Target, Json>): Json {
    if rule.clone.Some? then
      if rule.clone.value in objects then objects[rule.clone.value] else Null
    else if rule.data.Some? then rule.data.value
    else Obj(map[])
  }

  // ---------- What a pass does when no call fails ----------

  datatype Effect = Effect(entry: Option<Target>, error: Option<Error>, objects: map<Target, Json>)

  /** One rule. An existing target is recorded, if it contains the data; a missing one is
      generated from the data on the first pass only, or from the clone source. */
  ghost function RuleEffect(rule: Rule, status: Status, younger: bool, subset: Subset,
                            objects: map<Target, Json>): Effect {
    var t := rule.target;
    if !rule.targetPathsPresent || (rule.data.Some? && !rule.dataPathsPresent) then
      Effect(None, Some(Violation), objects)
    else if rule.data.Some? && t in objects then
      if subset(objects[t], rule.data.value) then Effect(Some(t), None, objects) else Effect(None, Some(Other), objects)
    else if rule.data.Some? && status != Unprocessed then
      Effect(None, Some(Violation), objects)
    else if rule.data.Some? && !rule.data.value.Obj? then
      // data that is not a map is recorded without being generated
      Effect(Some(t), None, objects)
    else if rule.clone.Some? && !rule.clonePathsPresent then
      Effect(None, Some(Violation), objects)
    else if rule.clone.Some? && t in objects then
      Effect(Some(t), None, objects)
    else if rule.clone.Some? && rule.clone.value !in objects then
      Effect(None, Some(NotFound), objects)
    else if younger then
      Effect(None, None, objects)
    else if t in objects then
      Effect(None, Some(Other), objects)
    else
      Effect(Some(t), None, objects[t := WithName(Source(rule, objects), t)])
  }

  datatype Pass = Pass(entries: seq<Option<Target>>, error: Option<Error>, objects: map<Target, Json>)

  /** The generating rules in order, up to the first error. */
  ghost function PolicyEffect(rules: seq<Rule>, status: Status, younger: bool, subset: Subset,
                              objects: map<Target, Json>): Pass {
    if rules == [] then
      Pass([], None, objects)
    else
      var before, rule := PolicyEffect(rules[..|rules| - 1], status, younger, subset, objects), rules[|rules| - 1];
      if before.error.Some? || !rule.generates then
        before
      else
        var effect := RuleEffect(rule, status, younger, subset, before.objects);
        Pass(if effect.error.Some? then [] else before.entries + [effect.entry], effect.error, effect.objects)
  }

  /** After an error the remaining rules make no difference. */
  lemma {:induction false} ErrorEndsThePass(rules: seq<Rule>, n: nat, status: Status, younger: bool, subset: Subset,
                                            objects: map<Target, Json>)
    requires n <= |rules| && PolicyEffect(rules[..n], status, younger, subset, objects).error.Some?
    ensures PolicyEffect(rules, status, younger, subset, objects)
            == PolicyEffect(rules[..n], status, younger, subset, objects)
    decreases |rules| - n
  {
    if n < |rules| {
      assert rules[..n + 1][..n] == rules[..n];
      ErrorEndsThePass(rules, n + 1, status, younger, subset, objects);
    } else {
      assert rules[..n] == rules;
    }
  }

  // ---------- What one pass may do, whatever fails ----------

  /** Nothing that existed is changed or removed. */
  ghost predicate Grows(before: map<Target, Json>, after: map<Target, Json>) {
    forall t | t in before :: t in after && after[t] == before[t]
  }

  /** The only objects that appear are targets of generating rules of a policy older than the
      owner; a rule with data creates only on the first pass, and only data that is a map. */
  ghost predicate CreatesFor(rules: seq<Rule>, status: Status, younger: bool,
                             before: map<Target, Json>, after: map<Target, Json>)
  {
    forall t | t in after && t !in before ::
      && !younger
      && exists i | 0 <= i < |rules| ::
           && rules[i].generates && rules[i].target == t
           && (rules[i].data.Some? ==> status == Unprocessed && rules[i].data.value.Obj?)
           && (rules[i].clone.None? ==> after[t] == WithName(Source(rules[i], before), t))
  }

  function Generating(rules: seq<Rule>): seq<Rule> {
    if rules == [] then []
    else Generating(rules[..|rules| - 1]) + if rules[|rules| - 1].generates then [rules[|rules| - 1]] else []
  }

  /** One entry for each generating rule, in order: its target, which exists, or an empty entry
      for a policy younger than the owner. */
  ghost predicate Records(rules: seq<Rule>, younger: bool, entries: seq<Option<Target>>, objects: map<Target, Json>) {
    && |entries| == |Generating(rules)|
    && forall i | 0 <= i < |entries| ::
         match entries[i]
         case None => younger
         case Some(t) => t == Generating(rules)[i].target && t in objects
  }

  ghost predicate MapData(rules: seq<Rule>) {
    forall i | 0 <= i < |rules| && rules[i].data.Some? :: rules[i].data.value.Obj?
  }

  /** One pass of the generate controller. */
  ghost predicate Processed(w: World, w': World, wrote: bool) {
    && w.request.Some? && w'.request.Some?
    && w'.policies == w.policies
    && Grows(w.objects, w'.objects)
    && w'.request.value.policy == w.request.value.policy && w'.request.value.owner == w.request.value.owner
    && (!wrote ==> w'.request == w.request)
    && (wrote ==> w'.request.value.status != Unprocessed && w.request.value.owner in w.objects)
    && var request, request' := w.request.value, w'.request.value;
       if request.policy !in w.policies then
         w'.objects == w.objects && (wrote ==> request'.status == Completed && request'.generated == [])
       else
         var policy := w.policies[request.policy];
         && CreatesFor(policy.rules, request.status, policy.younger, w.objects, w'.objects)
         && (!policy.applies || !policy.pathsPresent ==> w'.objects == w.objects)
         && (wrote && request'.status == Failed ==> request'.generated == [])
         && (wrote && request'.status == Completed ==> policy.applies && policy.pathsPresent)
         && (wrote && request'.status == Completed && MapData(policy.rules) ==>
               Records(policy.rules, policy.younger, request'.generated, w'.objects))
  }

  /** What the pass amounts to when no call fails. */
  ghost predicate ProcessedExactly(w: World, subset: Subset, w': World, wrote: bool)
    requires w.request.Some?
  {
    var request := w.request.value;
    if request.owner !in w.objects then
      w' == w && !wrote
    else
      var policy := if request.policy in w.policies then Some(w.policies[request.policy]) else None;
      var pass := if policy.None? then Pass([], None, w.objects)
                  else if !policy.value.applies || !policy.value.pathsPresent then Pass([], Some(Other), w.objects)
                  else PolicyEffect(policy.value.rules, request.status, policy.value.younger, subset, w.objects);
      && wrote
      && w'.objects == pass.objects
      && w'.request == Some(request.(status := if pass.error.Some? then Failed else Completed,
                                     generated := pass.entries))
  }

  /** The targets among some entries. */
  ghost function Recorded(entries: seq<Option<Target>>): set<Target> {
    set t: Option<Target> | t in entries && t.Some? :: t.value
  }

  function BeforeEmpty(entries: seq<Option<Target>>): seq<Option<Target>> {
    if entries == [] || entries[0].None? then [] else [entries[0]] + BeforeEmpty(entries[1..])
  }

  lemma {:induction false} FirstEmpty(entries: seq<Option<Target>>, i: nat)
    requires i < |entries| && entries[i].None? && None !in entries[..i]
    ensures BeforeEmpty(entries) == entries[..i]
    decreases i
  {
    if i > 0 {
      assert entries[0] in entries[..i];
      assert entries[1..][..i - 1] == entries[..i][1..];
      FirstEmpty(entries[1..], i - 1);
    }
  }

  lemma {:induction false} NoneEmpty(entries: seq<Option<Target>>)
    requires None !in entries
    ensures BeforeEmpty(entries) == entries
    decreases |entries|
  {
    if entries != [] {
      assert entries[0] in entries;
      NoneEmpty(entries[1..]);
    }
  }

  /** One pass of the clean-up controller. `lookup` is the answer to the question whether the
      owner exists; any answer but Found counts as gone. */
  ghost predicate CleanedUp(w: World, w': World, lookup: Answer, expired: bool) {
    && w.request.Some?
    && w'.policies == w.policies
    && (w'.request == w.request || w'.request == None)
    && (lookup.Found? ==> w.request.value.owner in w.objects)
    && (lookup.Absent? ==> w.request.value.owner !in w.objects)
    && var request := w.request.value;
       && w'.objects.Keys <= w.objects.Keys && Grows(w'.objects, w.objects)
       && (forall t | t in w.objects && t !in w'.objects ::
             && Some(t) in request.generated
             && request.policy in w.policies && request.status == Completed && !lookup.Found?)
       && (w'.request == None && request.policy in w.policies ==>
             if request.status == Completed then
               && !lookup.Found? && None !in request.generated
               && forall t | Some(t) in request.generated :: t !in w'.objects
             else
               expired)
  }

  class Cluster {
    var objects: map<Target, Json>
    var policies: map<string, Policy>
    var request: Option<Request>

    /** The number of API calls that have failed. */
    ghost var faults: nat

    constructor (w: World)
      ensures World(objects, policies, request) == w
    {
      objects, policies, request, faults := w.objects, w.policies, w.request, 0;
    }

    // ---------- The API ----------

    method GetResource(t: Target) returns (answer: Answer)
      modifies this`faults
      ensures faults == old(faults) + if answer.Unavailable? then 1 else 0
      ensures answer.Found? ==> t in objects && objects[t] == answer.obj
      ensures answer.Absent? ==> t !in objects
    {
      if * {
        answer, faults := Unavailable, faults + 1;
      } else {
        answer := if t in objects then Found(objects[t]) else Absent;
      }
    }

    /** Creating an object that exists fails. */
    method CreateResource(t: Target, obj: Json) returns (ok: bool)
      modifies this`objects, this`faults
      ensures faults >= old(faults) && (faults == old(faults) ==> (ok <==> t !in old(objects)))
      ensures ok ==> t !in old(objects) && objects == old(objects)[t := obj]
      ensures !ok ==> objects == old(objects)
    {
      ok := false;
      if * {
        faults := faults + 1;
      } else if t !in objects {
        ok, objects := true, objects[t := obj];
      }
    }

    /** The client rejects the empty name of an empty spec itself; that is no answer, and not one
        of the calls that fail. */
    method DeleteResource(t: Option<Target>) returns (answer: Answer)
      modifies this`objects, this`faults
      ensures faults == old(faults) + if answer.Unavailable? && t.Some? then 1 else 0
      ensures t.None? ==> answer.Unavailable?
      ensures answer.Unavailable? ==> objects == old(objects)
      ensures !answer.Unavailable? ==> objects == old(objects) - {t.value}
    {
      if t.None? {
        answer := Unavailable;
      } else if * {
        answer, faults := Unavailable, faults + 1;
      } else if t.value in objects {
        answer := Found(objects[t.value]);
        objects := objects - {t.value};
      } else {
        answer := Absent;
        assert objects - {t.value} == objects;
      }
    }

    // ---------- The generate controller ----------

    method HandleData(rule: Rule, status: Status, subset: Subset) returns (res: Handled)
      requires rule.data.Some?
      modifies this`faults
      ensures faults >= old(faults) && (faults == old(faults) ==>
                res == if !rule.dataPathsPresent then Fails(Violation)
                       else if rule.target in objects then
                         if subset(objects[rule.target], rule.data.value) then Nothing else Fails(Other)
                       else if status != Unprocessed then Fails(Violation)
                       else if rule.data.value.Obj? then Create(rule.data.value)
                       else Fails(ParseFailed))
      ensures res.Create? ==> status == Unprocessed && rule.data == Some(res.data) && res.data.Obj?
      ensures res.Nothing? ==> rule.target in objects && subset(objects[rule.target], rule.data.value)
      ensures res.Fails? && res.error == ParseFailed ==> !rule.data.value.Obj?
      ensures res.Fails? ==> res.error != NotFound
    {
      if !rule.dataPathsPresent {
        return Fails(Violation);
      }
      var answer := GetResource(rule.target);
      match answer
      case Absent =>
        if status == Unprocessed {
          return if rule.data.value.Obj? then Create(rule.data.value) else Fails(ParseFailed);
        }
        res := Fails(Violation);
      case Unavailable =>
        res := Fails(Other);
      case Found(obj) =>
        res := if subset(obj, rule.data.value) then Nothing else Fails(Other);
    }

    method HandleClone(rule: Rule) returns (res: Handled)
      requires rule.clone.Some?
      modifies this`faults
      ensures faults >= old(faults) && (faults == old(faults) ==>
                res == if !rule.clonePathsPresent then Fails(Violation)
                       else if rule.target in objects then Nothing
                       else if rule.clone.value !in objects then Fails(NotFound)
                       else Create(objects[rule.clone.value]))
      ensures res.Create? ==> rule.clone.value in objects && objects[rule.clone.value] == res.data
      ensures res.Nothing? ==> rule.target in objects
    {
      if !rule.clonePathsPresent {
        return Fails(Violation);
      }
      var answer := GetResource(rule.target);
      if answer.Found? {
        return Nothing;
      }
      if answer.Unavailable? {
        return Fails(Other);
      }
      var source := GetResource(rule.clone.value);
      match source
      case Absent => res := Fails(NotFound);
      case Unavailable => res := Fails(Other);
      case Found(obj) => res := Create(obj);
    }

    method ApplyRule(rule: Rule, status: Status, younger: bool, subset: Subset)
      returns (entry: Option<Target>, error: Option<Error>)
      requires rule.generates
      modifies this`objects, this`faults
      ensures faults >= old(faults)
      ensures faults == old(faults) ==>
                Effect(entry, error, objects) == RuleEffect(rule, status, younger, subset, old(objects))
      ensures Grows(old(objects), objects)
      ensures CreatesFor([rule], status, younger, old(objects), objects)
      ensures forall t | t in objects && t !in old(objects) :: objects[t] == WithName(Source(rule, old(objects)), t)
      ensures error.Some? ==> entry == None && objects == old(objects)
      ensures error.None? ==>
                match entry
                case None => younger
                case Some(t) =>
                  t == rule.target && (t in objects || (rule.data.Some? && !rule.data.value.Obj?))
    {
      entry := None;
      if !rule.targetPathsPresent {
        return None, Some(Violation);
      }
      var rdata: Option<Json> := None;
      if rule.data.Some? {
        var handled := HandleData(rule, status, subset);
        match handled {
          case Create(data) => rdata := Some(data);
          case Nothing =>
          case Fails(e) =>
            // parse failures and missing resources are taken as handled
            if e != ParseFailed && e != NotFound {
              return None, Some(e);
            }
        }
        if rdata.None? {
          return Some(rule.target), None;
        }
      }
      if rule.clone.Some? {
        var handled := HandleClone(rule);
        match handled {
          case Create(data) => rdata := Some(data);
          case Nothing => return Some(rule.target), None;
          case Fails(e) => return None, Some(e);
        }
      }
      if younger {
        return None, None;
      }
      var obj := WithName(if rdata.Some? then rdata.value else Obj(map[]), rule.target);
      var ok := CreateResource(rule.target, obj);
      if !ok {
        return None, Some(Other);
      }
      assert [rule][0] == rule;
      entry, error := Some(rule.target), None;
    }

    /** The rules of a policy one after the other; the first error ends the pass and what was
        generated before it goes unrecorded. */
    method ApplyGeneratePolicy(policy: Policy, status: Status, subset: Subset)
      returns (entries: seq<Option<Target>>, error: Option<Error>)
      modifies this`objects, this`faults
      ensures faults >= old(faults)
      ensures faults == old(faults) ==>
                Pass(entries, error, objects)
                  == PolicyEffect(policy.rules, status, policy.younger, subset, old(objects))
      ensures Grows(old(objects), objects)
      ensures CreatesFor(policy.rules, status, policy.younger, old(objects), objects)
      ensures error.Some? ==> entries == []
      ensures error.None? && MapData(policy.rules) ==> Records(policy.rules, policy.younger, entries, objects)
    {
      entries := [];
      var rules := policy.rules;
      for i := 0 to |rules|
        invariant faults >= old(faults)
        invariant SoFar(rules, i, status, policy.younger, subset, old(objects), entries, objects, faults == old(faults))
      {
        if !rules[i].generates {
          SkippedStep(rules, i, status, policy.younger, subset, old(objects), entries, objects, faults == old(faults));
          continue;
        }
        ghost var before, quiet := objects, faults == old(faults);
        var entry;
        entry, error := ApplyRule(rules[i], status, policy.younger, subset);
        if error.Some? {
          FailedStep(rules, i, status, policy.younger, subset, old(objects), entries, before, quiet, error, objects,
                     faults == old(faults));
          return [], error;
        }
        GeneratedStep(rules, i, status, policy.younger, subset, old(objects), entries, before, quiet, entry, objects,
                      faults == old(faults));
        entries := entries + [entry];
      }
      assert rules[..|rules|] == rules;
      error := None;
    }

    /** The first `n` rules ran without an error; `quiet` says that no call failed. */
    static ghost predicate SoFar(rules: seq<Rule>, n: nat, status: Status, younger: bool, subset: Subset,
                                 first: map<Target, Json>, entries: seq<Option<Target>>, now: map<Target, Json>,
                                 quiet: bool)
    {
      && n <= |rules|
      && (quiet ==> PolicyEffect(rules[..n], status, younger, subset, first) == Pass(entries, None, now))
      && Grows(first, now)
      && CreatesFor(rules, status, younger, first, now)
      && (MapData(rules) ==> Records(rules[..n], younger, entries, now))
    }

    static lemma SkippedStep(rules: seq<Rule>, i: nat, status: Status, younger: bool, subset: Subset,
                             first: map<Target, Json>, entries: seq<Option<Target>>, now: map<Target, Json>,
                             quiet: bool)
      requires SoFar(rules, i, status, younger, subset, first, entries, now, quiet)
      requires i < |rules| && !rules[i].generates
      ensures SoFar(rules, i + 1, status, younger, subset, first, entries, now, quiet)
    {
      assert rules[..i + 1][..i] == rules[..i];
      if quiet {
        PolicyStep(rules, i, status, younger, subset, first, entries, now);
      }
    }

    static lemma FailedStep(rules: seq<Rule>, i: nat, status: Status, younger: bool, subset: Subset,
                            first: map<Target, Json>, entries: seq<Option<Target>>, before: map<Target, Json>,
                            quiet: bool, error: Option<Error>, after: map<Target, Json>, stillQuiet: bool)
      requires SoFar(rules, i, status, younger, subset, first, entries, before, quiet)
      requires i < |rules| && rules[i].generates && error.Some? && after == before && (stillQuiet ==> quiet)
      requires stillQuiet ==> Effect(None, error, after) == RuleEffect(rules[i], status, younger, subset, before)
      ensures stillQuiet ==> PolicyEffect(rules, status, younger, subset, first) == Pass([], error, after)
    {
      if stillQuiet {
        PolicyStep(rules, i, status, younger, subset, first, entries, before);
        ErrorEndsThePass(rules, i + 1, status, younger, subset, first);
      }
    }

    static lemma GeneratedStep(rules: seq<Rule>, i: nat, status: Status, younger: bool, subset: Subset,
                               first: map<Target, Json>, entries: seq<Option<Target>>, before: map<Target, Json>,
                               quiet: bool, entry: Option<Target>, after: map<Target, Json>, stillQuiet: bool)
      requires SoFar(rules, i, status, younger, subset, first, entries, before, quiet)
      requires i < |rules| && rules[i].generates && Grows(before, after) && (stillQuiet ==> quiet)
      requires stillQuiet ==> Effect(entry, None, after) == RuleEffect(rules[i], status, younger, subset, before)
      requires CreatesFor([rules[i]], status, younger, before, after)
      requires match entry
               case None => younger
               case Some(t) =>
                 && t == rules[i].target
                 && (t in after || (rules[i].data.Some? && !rules[i].data.value.Obj?))
      ensures SoFar(rules, i + 1, status, younger, subset, first, entries + [entry], after, stillQuiet)
    {
      CreatedStep(rules, i, status, younger, first, before, after);
      if stillQuiet {
        PolicyStep(rules, i, status, younger, subset, first, entries, before);
      }
      if MapData(rules) {
        RecordedStep(rules, i, younger, entries, entry, before, after);
      }
    }

    /** How one more rule extends the effect of those before it. */
    static lemma PolicyStep(rules: seq<Rule>, i: nat, status: Status, younger: bool, subset: Subset,
                            first: map<Target, Json>, entries: seq<Option<Target>>, before: map<Target, Json>)
      requires i < |rules|
      requires PolicyEffect(rules[..i], status, younger, subset, first) == Pass(entries, None, before)
      ensures PolicyEffect(rules[..i + 1], status, younger, subset, first) ==
              if !rules[i].generates then Pass(entries, None, before)
              else
                var effect := RuleEffect(rules[i], status, younger, subset, before);
                Pass(if effect.error.Some? then [] else entries + [effect.entry], effect.error, effect.objects)
    {
      assert rules[..i + 1][..i] == rules[..i];
    }

    static lemma RecordedStep(rules: seq<Rule>, i: nat, younger: bool, entries: seq<Option<Target>>,
                              entry: Option<Target>,
                              before: map<Target, Json>, after: map<Target, Json>)
      requires i < |rules| && rules[i].generates && Grows(before, after)
      requires Records(rules[..i], younger, entries, before)
      requires match entry case None => younger case Some(t) => t == rules[i].target && t in after
      ensures Records(rules[..i + 1], younger, entries + [entry], after)
    {
      assert rules[..i + 1][..i] == rules[..i];
      assert Generating(rules[..i + 1]) == Generating(rules[..i]) + [rules[i]];
    }

    static lemma CreatedStep(rules: seq<Rule>, i: nat, status: Status, younger: bool,
                             first: map<Target, Json>, before: map<Target, Json>, after: map<Target, Json>)
      requires i < |rules| && Grows(first, before) && Grows(before, after)
      requires CreatesFor(rules, status, younger, first, before)
      requires CreatesFor([rules[i]], status, younger, before, after)
      ensures Grows(first, after) && CreatesFor(rules, status, younger, first, after)
    {
      forall t | t in after && t !in first
        ensures !younger
        ensures exists j | 0 <= j < |rules| ::
                  && rules[j].generates && rules[j].target == t
                  && (rules[j].data.Some? ==> status == Unprocessed && rules[j].data.value.Obj?)
                  && (rules[j].clone.None? ==> after[t] == WithName(Source(rules[j], first), t))
      {
        if t !in before {
          assert [rules[i]][0] == rules[i];
          assert rules[i].generates && rules[i].target == t;
        } else {
          assert after[t] == before[t];
        }
      }
    }

    /** `processGR`: apply the policy to the owner and write the status, unless the owner cannot
        be read. Writing may fail as well. */
    method ProcessGR(subset: Subset) returns (wrote: bool)
      requires request.Some?
      modifies this
      ensures Processed(old(World(objects, policies, request)), World(objects, policies, request), wrote)
      ensures faults >= old(faults)
      ensures faults == old(faults) ==>
                ProcessedExactly(old(World(objects, policies, request)), subset,
                                 World(objects, policies, request), wrote)
    {
      wrote := false;
      var gr := request.value;
      var owner := GetResource(gr.owner);
      if !owner.Found? {
        return;
      }
      var entries: seq<Option<Target>>, error: Option<Error> := [], None;
      if gr.policy in policies {
        var policy := policies[gr.policy];
        if !policy.applies || !policy.pathsPresent {
          error := Some(Other);
        } else {
          entries, error := ApplyGeneratePolicy(policy, gr.status, subset);
        }
      }
      if * {
        // the status update fails
        faults := faults + 1;
        return;
      }
      gr := gr.(status := if error.Some? then Failed else Completed);
      gr := gr.(generated := entries);
      request := Some(gr);
      wrote := true;
    }

    // ---------- The clean-up controller ----------

    /** The recorded resources are deleted in order, up to the first empty entry. */
    method DeleteGeneratedResources(generated: seq<Option<Target>>) returns (ok: bool)
      modifies this`objects, this`faults
      ensures old(faults) <= faults <= old(faults) + 1 && (ok <==> faults == old(faults) && None !in generated)
      ensures exists n | 0 <= n <= |generated| ::
                objects == old(objects) - Recorded(generated[..n]) && (ok ==> n == |generated|)
      ensures faults == old(faults) ==> objects == old(objects) - Recorded(BeforeEmpty(generated))
      ensures objects.Keys <= old(objects).Keys && Grows(objects, old(objects))
      ensures forall t | t in old(objects) && t !in objects :: Some(t) in generated
      ensures ok ==> forall t | Some(t) in generated :: t !in objects
    {
      for i := 0 to |generated|
        invariant faults == old(faults)
        invariant None !in generated[..i]
        invariant objects == old(objects) - Recorded(generated[..i])
      {
        var answer := DeleteResource(generated[i]);
        assert generated[..i + 1] == generated[..i] + [generated[i]];
        if answer.Unavailable? {
          if generated[i].None? {
            FirstEmpty(generated, i);
          }
          return false;
        }
        assert Recorded(generated[..i + 1]) == Recorded(generated[..i]) + {generated[i].value};
      }
      assert generated[..|generated|] == generated;
      NoneEmpty(generated);
      ok := true;
    }

    /** `processGR` of the clean-up controller. `expired` says whether the request is older than
        the timeout. */
    method CleanupGR(expired: bool) returns (ghost lookup: Answer)
      requires request.Some?
      modifies this
      ensures CleanedUp(old(World(objects, policies, request)), World(objects, policies, request), lookup, expired)
      ensures faults >= old(faults)
      ensures faults == old(faults) ==>
                var gr := old(request).value;
                (request == None <==>
                   || gr.policy !in policies
                   || if gr.status == Completed then gr.owner !in old(objects) && None !in gr.generated else expired)
    {
      var gr := request.value;
      lookup := Unavailable;
      if gr.policy !in policies {
        DeleteRequest();
        return;
      }
      if gr.status == Completed {
        var owner := GetResource(gr.owner);
        lookup := owner;
        if !owner.Found? {
          var ok := DeleteGeneratedResources(gr.generated);
          if !ok {
            return;
          }
          DeleteRequest();
        }
        return;
      }
      if expired {
        DeleteRequest();
      }
    }

    method DeleteRequest()
      modifies this`request, this`faults
      ensures request == old(request) || request == None
      ensures faults >= old(faults) && (faults == old(faults) ==> request == None)
    {
      if * {
        faults := faults + 1;
      } else {
        request := None;
      }
    }
  }

  // ---------- Runs ----------

  /** Everybody else may change the objects and the policies at will, but not the status. */
  ghost predicate Environment(w: World, w': World) {
    w'.request == w.request
  }

  datatype Event = Process(wrote: bool) | Cleanup(lookup: Answer, expired: bool) | Outside

  ghost predicate Step(w: World, event: Event, w': World) {
    match event
    case Process(wrote) => w.request.Some? && Processed(w, w', wrote)
    case Cleanup(lookup, expired) => w.request.Some? && CleanedUp(w, w', lookup, expired)
    case Outside => Environment(w, w')
  }

  /** `worlds` are the states of a run and `events` what happened between them. */
  ghost predicate Run(worlds: seq<World>, events: seq<Event>) {
    && |worlds| == |events| + 1
    && forall i | 0 <= i < |events| :: Step(worlds[i], events[i], worlds[i + 1])
  }

  /** Once a status has been written, the request never looks unprocessed again. */
  lemma {:induction false} StatusIsNeverUnwritten(worlds: seq<World>, events: seq<Event>, i: nat, j: nat)
    requires Run(worlds, events) && i <= j < |worlds|
    requires worlds[i].request.Some? && worlds[i].request.value.status != Unprocessed
    ensures worlds[j].request.Some? ==> worlds[j].request.value.status != Unprocessed
    decreases j - i
  {
    if i < j {
      assert Step(worlds[i], events[i], worlds[i + 1]);
      if worlds[i + 1].request.Some? {
        StatusIsNeverUnwritten(worlds, events, i + 1, j);
      } else {
        GoneForGood(worlds, events, i + 1, j);
      }
    }
  }

  lemma {:induction false} GoneForGood(worlds: seq<World>, events: seq<Event>, i: nat, j: nat)
    requires Run(worlds, events) && i <= j < |worlds| && worlds[i].request == None
    ensures worlds[j].request == None
    decreases j - i
  {
    if i < j {
      assert Step(worlds[i], events[i], worlds[i + 1]);
      GoneForGood(worlds, events, i + 1, j);
    }
  }

  /** No pass after a successful status write creates an object for a rule with data: what it
      creates, it creates for rules without. And no pass ever touches an object that exists. */
  lemma DataIsGeneratedOnce(worlds: seq<World>, events: seq<Event>, i: nat, j: nat)
    requires Run(worlds, events) && i < j < |events|
    requires events[i] == Process(true) && events[j].Process?
    ensures Grows(worlds[j].objects, worlds[j + 1].objects)
    ensures worlds[j].request.Some?
    ensures forall t | t in worlds[j + 1].objects && t !in worlds[j].objects ::
              && worlds[j].request.value.policy in worlds[j].policies
              && exists r | r in worlds[j].policies[worlds[j].request.value.policy].rules ::
                   r.generates && r.target == t && r.data == None
  {
    assert Step(worlds[i], events[i], worlds[i + 1]) && Step(worlds[j], events[j], worlds[j + 1]);
    StatusIsNeverUnwritten(worlds, events, i + 1, j);
    var request := worlds[j].request.value;
    if request.policy in worlds[j].policies {
      var policy := worlds[j].policies[request.policy];
      forall t | t in worlds[j + 1].objects && t !in worlds[j].objects
        ensures exists r | r in policy.rules :: r.generates && r.target == t && r.data == None
      {
        var m :| 0 <= m < |policy.rules| && policy.rules[m].generates && policy.rules[m].target == t
          && (policy.rules[m].data.Some? ==> request.status == Unprocessed);
        assert policy.rules[m] in policy.rules;
      }
    }
  }

  /** Record and clean-up agree. A pass takes world `a` to `b` and writes Completed; the request
      is still the same in world `c`, from which a clean-up pass that leads to `d` deletes it
      while its policy exists. Then every target the completing pass was to generate is gone,
      and the owner was not found, which an API failure also counts as. */
  lemma CleanupRemovesWhatWasRecorded(a: World, b: World, c: World, d: World, lookup: Answer, expired: bool)
    requires a.request.Some? && Processed(a, b, true) && b.request.value.status == Completed
    requires c.request == b.request && CleanedUp(c, d, lookup, expired) && d.request == None
    requires a.request.value.policy in a.policies && a.request.value.policy in c.policies
    requires MapData(a.policies[a.request.value.policy].rules)
    ensures forall r | r in Generating(a.policies[a.request.value.policy].rules) :: r.target !in d.objects
    ensures !lookup.Found? && (lookup.Absent? ==> a.request.value.owner !in c.objects)
  {
    var policy := a.policies[a.request.value.policy];
    RecordedAreGone(policy, b.request.value.generated, b.objects, d.objects);
  }

  lemma RecordedAreGone(policy: Policy, entries: seq<Option<Target>>, recorded: map<Target, Json>,
                        cleaned: map<Target, Json>)
    requires Records(policy.rules, policy.younger, entries, recorded) && None !in entries
    requires forall t | Some(t) in entries :: t !in cleaned
    ensures forall r | r in Generating(policy.rules) :: r.target !in cleaned
  {
    forall r | r in Generating(policy.rules) ensures r.target !in cleaned {
      var m :| 0 <= m < |entries| && Generating(policy.rules)[m] == r;
      assert entries[m] in entries && entries[m] == Some(r.target);
    }
  }

  // ---------- What clean-up takes as gone ----------

  /** A clean-up pass that deletes a completed request whose policy exists. */
  ghost predicate Deletes(w: World, w': World, lookup: Answer, expired: bool) {
    && CleanedUp(w, w', lookup, expired)
    && w.request.value.policy in w.policies && w.request.value.status == Completed
    && w'.request == None
  }

  /** Such a deletion means that the owner is absent exactly when the question about it was
      answered. */
  lemma GoneMeansAbsentIfAnswered(lookup: Answer)
    requires !lookup.Found?
    ensures (forall w, w', expired | Deletes(w, w', lookup, expired) :: w.request.value.owner !in w.objects)
       <==> lookup.Absent?
  {
    if lookup.Unavailable? {
      var owner, made := Target("Namespace", "", "a"), Target("ConfigMap", "a", "b");
      var w, w' := UnansweredIsGone(owner, made, "p");
      assert Deletes(w, w', lookup, false);
    }
  }

  /** The owner is there, the question about it fails, and what was generated for it is deleted
      together with the request. */
  lemma UnansweredIsGone(owner: Target, made: Target, policy: string) returns (w: World, w': World)
    requires owner != made
    ensures owner in w.objects && made in w.objects && w.request.Some? && w.request.value.owner == owner
    ensures Deletes(w, w', Unavailable, false)
    ensures made !in w'.objects && owner in w'.objects
  {
    var request := Request(policy, owner, Completed, [Some(made)]);
    w := World(map[owner := Null, made := Null], map[policy := Policy([], true, true, false)], Some(request));
    w' := World(map[owner := Null], w.policies, None);
    assert Some(made) in request.generated;
  }

  /** A completed request with an empty entry cannot be cleaned up while its policy exists, until
      a pass of the generate controller writes it anew. */
  lemma {:induction false} EmptyEntryBlocksCleanup(worlds: seq<World>, events: seq<Event>, i: nat, j: nat)
    requires Run(worlds, events) && i <= j < |worlds|
    requires worlds[i].request.Some? && worlds[i].request.value.status == Completed
    requires None in worlds[i].request.value.generated
    requires forall m | i <= m < j :: worlds[i].request.value.policy in worlds[m].policies && events[m] != Process(true)
    ensures worlds[j].request == worlds[i].request
    decreases j - i
  {
    if i < j {
      assert Step(worlds[i], events[i], worlds[i + 1]);
      assert events[i] != Process(true);
      EmptyEntryBlocksCleanup(worlds, events, i + 1, j);
    }
  }
}
