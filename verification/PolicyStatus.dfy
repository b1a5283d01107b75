/** The aggregator of policy statistics: counters and running execution times per policy. */
module PolicyStatus {
  import opened Json

  datatype RuleStat = RuleStat(name: string, time: int, applied: int, failed: int, mutations: int)

  datatype Stat = Stat(mutation: int, validation: int, generation: int, applied: int, blocked: int,
    rules: seq<RuleStat>)

  const NOTHING := Stat(0, 0, 0, 0, 0, [])

  /** Division of a duration by two truncates toward zero. */
  function Half(d: int): int {
    if d >= 0 then d / 2 else -(-d / 2)
  }

  /** A running time: halfway to the new sample, or the sample itself after a zero. */
  function Running(time: int, sample: int): int {
    if time != 0 then Half(time + sample) else sample
  }

  /** The mean of two times, without what is left over from halving. */
  predicate TruncatedMean(mean: int, a: int, b: int) {
    && (a + b >= 0 ==> 2 * mean <= a + b <= 2 * mean + 1)
    && (a + b <= 0 ==> 2 * mean - 1 <= a + b <= 2 * mean)
  }

  lemma RunningIsMean(time: int, sample: int)
    ensures if time == 0 then Running(time, sample) == sample else TruncatedMean(Running(time, sample), time, sample)
  {
  }

  // ---------- What the aggregate of a history is ----------

  ghost function Aggregate(history: seq<Stat>): Stat
    requires history != []
  {
    if |history| == 1 then history[0]
    else Combine(Aggregate(history[..|history| - 1]), history[|history| - 1])
  }

  ghost function Combine(info: Stat, update: Stat): Stat {
    Stat(Running(info.mutation, update.mutation),
         Running(info.validation, update.validation),
         Running(info.generation, update.generation),
         info.applied + update.applied,
         info.blocked + if update.blocked == 1 then 1 else 0,
         CombineRules(info.rules, update.rules))
  }

  /** Only the rules of the update that took time survive; each adds to the first old entry of
      the same name, if any. */
  ghost function CombineRules(earlier: seq<RuleStat>, update: seq<RuleStat>): seq<RuleStat> {
    if update == [] then []
    else
      var last := update[|update| - 1];
      CombineRules(earlier, update[..|update| - 1]) + if last.time == 0 then [] else [CombineRule(earlier, last)]
  }

  ghost function CombineRule(earlier: seq<RuleStat>, update: RuleStat): RuleStat {
    match FirstNamed(earlier, update.name)
    case -1 => update
    case i =>
      var rule := earlier[i];
      RuleStat(rule.name, Half(rule.time + update.time), rule.applied + update.applied,
               rule.failed + update.failed, rule.mutations + update.mutations)
  }

  ghost function FirstNamed(list: seq<RuleStat>, name: string): (i: int)
    ensures -1 <= i < |list|
    ensures i == -1 <==> forall j | 0 <= j < |list| :: list[j].name != name
    ensures i >= 0 ==> list[i].name == name && forall j | 0 <= j < i :: list[j].name != name
  {
    if list == [] then -1
    else
      var i := FirstNamed(list[..|list| - 1], name);
      if i >= 0 then i else if list[|list| - 1].name == name then |list| - 1 else -1
  }

  /** The time of a rule is the mean of the one remembered and the one of the update. */
  lemma RuleTimeIsMean(earlier: seq<RuleStat>, update: RuleStat, i: nat)
    requires i < |earlier| && earlier[i].name == update.name
    requires forall j | 0 <= j < i :: earlier[j].name != update.name
    ensures TruncatedMean(CombineRule(earlier, update).time, earlier[i].time, update.time)
  {
    assert FirstNamed(earlier, update.name) == i;
  }

  // ---------- Conservation and bounds ----------

  ghost function TotalApplied(history: seq<Stat>): int {
    if history == [] then 0 else TotalApplied(history[..|history| - 1]) + history[|history| - 1].applied
  }

  ghost function TotalBlocked(history: seq<Stat>): int {
    if history == [] then 0
    else TotalBlocked(history[..|history| - 1]) + if history[|history| - 1].blocked == 1 then 1 else 0
  }

  /** The applied count is the sum over the history, and the blocked count the number of blocked
      stats, provided the first one says 0 or 1: it is taken over as it is. */
  lemma {:induction false} CountersAreConserved(history: seq<Stat>)
    requires history != []
    ensures Aggregate(history).applied == TotalApplied(history)
    ensures Aggregate(history).blocked == TotalBlocked(history) <==> history[0].blocked in {0, 1}
  {
    if |history| == 1 {
      assert history[..0] == [];
    } else {
      CountersAreConserved(history[..|history| - 1]);
    }
  }

  /** `utils.Btoi`, through which every statistic gets its blocked field. */
  function Btoi(b: bool): (n: int)
    ensures n in {0, 1}
  {
    if b then 1 else 0
  }

  /** So for the statistics the code produces the blocked count is always right. */
  lemma BlockedAreCounted(history: seq<Stat>, blocked: seq<bool>)
    requires history != [] && |blocked| == |history|
    requires forall i | 0 <= i < |history| :: history[i].blocked == Btoi(blocked[i])
    ensures Aggregate(history).blocked == TrueCount(blocked)
  {
    CountersAreConserved(history);
    BlockedAreTrue(history, blocked);
  }

  function TrueCount(flags: seq<bool>): nat {
    if flags == [] then 0 else TrueCount(flags[..|flags| - 1]) + if flags[|flags| - 1] then 1 else 0
  }

  lemma {:induction false} BlockedAreTrue(history: seq<Stat>, blocked: seq<bool>)
    requires |blocked| == |history|
    requires forall i | 0 <= i < |history| :: history[i].blocked == Btoi(blocked[i])
    ensures TotalBlocked(history) == TrueCount(blocked)
  {
    if history != [] {
      var n := |history| - 1;
      assert history[n].blocked == Btoi(blocked[n]);
      BlockedAreTrue(history[..n], blocked[..n]);
    }
  }

  ghost predicate Within(low: int, high: int, samples: seq<int>) {
    forall i | 0 <= i < |samples| :: low <= samples[i] <= high
  }

  datatype Phase = Mutation | Validation | Generation

  function TimeOf(stat: Stat, phase: Phase): int {
    match phase
    case Mutation => stat.mutation
    case Validation => stat.validation
    case Generation => stat.generation
  }

  /** The samples of one of the three execution times. */
  ghost function Times(history: seq<Stat>, phase: Phase): seq<int> {
    seq(|history|, i requires 0 <= i < |history| => TimeOf(history[i], phase))
  }

  ghost function RunningOver(samples: seq<int>): int
    requires samples != []
  {
    if |samples| == 1 then samples[0]
    else Running(RunningOver(samples[..|samples| - 1]), samples[|samples| - 1])
  }

  /** Every sample weighs half of what the one after it weighs. */
  ghost function WeightedMean(samples: seq<int>): real
    requires samples != []
  {
    if |samples| == 1 then samples[0] as real
    else (WeightedMean(samples[..|samples| - 1]) + samples[|samples| - 1] as real) / 2.0
  }

  /** Over positive samples the running time is that mean, less than one unit short of it. */
  lemma {:induction false} RunningIsWeightedMean(samples: seq<int>)
    requires samples != [] && forall i | 0 <= i < |samples| :: samples[i] > 0
    ensures RunningOver(samples) > 0
    ensures RunningOver(samples) as real <= WeightedMean(samples) < (RunningOver(samples) + 1) as real
  {
    if |samples| > 1 {
      var init, last := samples[..|samples| - 1], samples[|samples| - 1];
      RunningIsWeightedMean(init);
      RunningIsMean(RunningOver(init), last);
    }
  }

  /** A running time over non-negative samples never leaves their range, despite the truncation
      and the fresh start after a zero. */
  lemma {:induction false} RunningStaysWithin(samples: seq<int>, low: int, high: int)
    requires samples != [] && 0 <= low && Within(low, high, samples)
    ensures low <= RunningOver(samples) <= high
  {
    if |samples| > 1 {
      RunningStaysWithin(samples[..|samples| - 1], low, high);
    }
  }

  lemma {:induction false} AggregateRuns(history: seq<Stat>, phase: Phase)
    requires history != []
    ensures TimeOf(Aggregate(history), phase) == RunningOver(Times(history, phase))
  {
    if |history| > 1 {
      var init := history[..|history| - 1];
      AggregateRuns(init, phase);
      assert Times(history, phase)[..|init|] == Times(init, phase);
    }
  }

  lemma ExecutionTimesStayWithin(history: seq<Stat>, phase: Phase, low: int, high: int)
    requires history != [] && 0 <= low && Within(low, high, Times(history, phase))
    ensures low <= TimeOf(Aggregate(history), phase) <= high
  {
    AggregateRuns(history, phase);
    RunningStaysWithin(Times(history, phase), low, high);
  }

  lemma ExecutionTimesAreMeans(history: seq<Stat>, phase: Phase)
    requires history != [] && forall i | 0 <= i < |history| :: TimeOf(history[i], phase) > 0
    ensures var time := TimeOf(Aggregate(history), phase);
            time as real <= WeightedMean(Times(history, phase)) < (time + 1) as real
  {
    AggregateRuns(history, phase);
    RunningIsWeightedMean(Times(history, phase));
  }

  /** A rule that took no time, or is not in the last update, is forgotten. */
  lemma {:induction false} SurvivingRules(earlier: seq<RuleStat>, update: seq<RuleStat>, name: string)
    ensures (exists r | r in CombineRules(earlier, update) :: r.name == name)
       <==> (exists r | r in update :: r.name == name && r.time != 0)
  {
    if update != [] {
      var init, last := update[..|update| - 1], update[|update| - 1];
      SurvivingRules(earlier, init, name);
      assert update == init + [last];
      assert forall r ::
          r in CombineRules(earlier, update) <==>
            (r in CombineRules(earlier, init) || (last.time != 0 && r == CombineRule(earlier, last)));
      assert CombineRule(earlier, last).name == last.name;
      if r :| r in update && r.name == name && r.time != 0 && r !in init {
        assert r == last && CombineRule(earlier, last) in CombineRules(earlier, update);
      }
    }
  }

  // ---------- One rule over the history ----------

  /** The first entry of an update for a rule that took time. */
  ghost function Latest(update: seq<RuleStat>, name: string): (r: Option<RuleStat>)
    ensures r.Some? ==> r.value in update && r.value.name == name && r.value.time != 0
    ensures r.None? ==> forall u | u in update :: u.name != name || u.time == 0
  {
    if update == [] then None
    else
      var last, earlier := update[|update| - 1], Latest(update[..|update| - 1], name);
      if earlier.Some? then earlier
      else if last.name == name && last.time != 0 then Some(last)
      else None
  }

  /** What is remembered for a rule. */
  ghost function Remembered(rules: seq<RuleStat>, name: string): Option<RuleStat> {
    var i := FirstNamed(rules, name);
    if i == -1 then None else Some(rules[i])
  }

  /** The samples of a rule since it was last forgotten: the first statistic of a policy is taken
      as it is, and an update in which the rule took no time, or is missing, forgets it. */
  ghost function Streak(history: seq<Stat>, name: string): seq<RuleStat>
    requires history != []
  {
    var last := history[|history| - 1].rules;
    if |history| == 1 then
      var first := Remembered(last, name);
      if first.None? then [] else [first.value]
    else
      match Latest(last, name)
      case None => []
      case Some(sample) => Streak(history[..|history| - 1], name) + [sample]
  }

  ghost function Sum(samples: seq<RuleStat>): (int, int, int) {
    if samples == [] then (0, 0, 0)
    else
      var before, last := Sum(samples[..|samples| - 1]), samples[|samples| - 1];
      (before.0 + last.applied, before.1 + last.failed, before.2 + last.mutations)
  }

  /** The remembered entry of the combined list is the one for the first entry of the update. */
  lemma {:induction false} CombinedRule(earlier: seq<RuleStat>, update: seq<RuleStat>, name: string)
    ensures Remembered(CombineRules(earlier, update), name)
         == match Latest(update, name) case None => None case Some(sample) => Some(CombineRule(earlier, sample))
  {
    if update != [] {
      var init, last := update[..|update| - 1], update[|update| - 1];
      CombinedRule(earlier, init, name);
      var before, added := CombineRules(earlier, init), if last.time == 0 then [] else [CombineRule(earlier, last)];
      assert CombineRule(earlier, last).name == last.name;
      FirstOfBoth(before, added, name);
    }
  }

  lemma FirstOfBoth(before: seq<RuleStat>, added: seq<RuleStat>, name: string)
    requires |added| <= 1
    ensures Remembered(before + added, name)
         == if Remembered(before, name).Some? then Remembered(before, name) else Remembered(added, name)
  {
    var both := before + added;
    if added == [] {
      assert both == before;
    } else {
      assert both[..|both| - 1] == before && both[|both| - 1] == added[0];
      assert added[..0] == [];
    }
  }

  ghost predicate Conserves(rule: Option<RuleStat>, streak: seq<RuleStat>, name: string, low: int, high: int) {
    match rule
    case None => streak == []
    case Some(r) =>
      && streak != []
      && r.name == name
      && (r.applied, r.failed, r.mutations) == Sum(streak)
      && low <= r.time <= high
  }

  lemma OneMoreSample(earlier: seq<RuleStat>, streak: seq<RuleStat>, sample: RuleStat, name: string, low: int,
                      high: int)
    requires Conserves(Remembered(earlier, name), streak, name, low, high)
    requires sample.name == name && 0 <= low <= sample.time <= high
    ensures Conserves(Some(CombineRule(earlier, sample)), streak + [sample], name, low, high)
  {
    assert (streak + [sample])[..|streak|] == streak;
  }

  /** Per rule: its counters are the sums over the samples since it was last forgotten, and its
      time stays between their minimum and maximum. */
  lemma {:induction false} RuleIsConserved(history: seq<Stat>, name: string, low: int, high: int)
    requires history != [] && 0 <= low
    requires forall sample | sample in Streak(history, name) :: low <= sample.time <= high
    ensures Conserves(Remembered(Aggregate(history).rules, name), Streak(history, name), name, low, high)
    decreases |history|
  {
    var streak, n := Streak(history, name), |history| - 1;
    if n == 0 {
      assert streak != [] ==> streak[..0] == [] && streak[0] in streak;
    } else {
      var earlier := Aggregate(history[..n]).rules;
      CombinedRule(earlier, history[n].rules, name);
      if Latest(history[n].rules, name).Some? {
        var sample, before := Latest(history[n].rules, name).value, Streak(history[..n], name);
        assert streak == before + [sample] && sample in streak;
        assert forall s | s in before :: s in streak;
        RuleIsConserved(history[..n], name, low, high);
        OneMoreSample(earlier, before, sample, name, low, high);
      }
    }
  }

  class PolicyStatusAggregator {
    var policyData: map<string, Stat>

    /** The stats accepted for each policy since it was last removed. */
    ghost var history: map<string, seq<Stat>>

    ghost predicate Valid()
      reads this
    {
      && policyData.Keys == history.Keys
      && (forall name | name in history ::
            && history[name] != []
            && policyData[name] == Aggregate(history[name])
            && forall i | 0 <= i < |history[name]| :: history[name][i].rules != [])
    }

    constructor ()
      ensures Valid() && history == map[]
    {
      policyData, history := map[], map[];
    }

    /** A stat without rules is ignored. */
    method Add(name: string, stats: Stat)
      requires Valid()
      modifies this
      ensures Valid()
      ensures history == if stats.rules == [] then old(history)
                         else old(history)[name := (if name in old(history) then old(history)[name] else []) + [stats]]
    {
      if |stats.rules| == 0 {
        return;
      }
      if name !in policyData {
        policyData := policyData[name := stats];
        history := history[name := [] + [stats]];
        return;
      }
      var info := CombineInfo(policyData[name], stats);
      ghost var longer := history[name] + [stats];
      assert longer[..|longer| - 1] == history[name];
      policyData := policyData[name := info];
      history := history[name := longer];
    }

    method RemovePolicyStats(name: string)
      requires Valid()
      modifies this
      ensures Valid() && history == old(history) - {name}
    {
      policyData := policyData - {name};
      history := history - {name};
    }

    method GetPolicyStats(name: string) returns (stats: Stat)
      requires Valid()
      ensures stats == if name in history then Aggregate(history[name]) else Stat(0, 0, 0, 0, 0, [])
    {
      stats := if name in policyData then policyData[name] else NOTHING;
    }
  }

  /** The fields of the stored stat are overwritten one after the other. */
  method CombineInfo(before: Stat, stats: Stat) returns (info: Stat)
    ensures info == Combine(before, stats)
  {
    info := before;
    info := info.(applied := info.applied + stats.applied);
    if stats.blocked == 1 {
      info := info.(blocked := info.blocked + 1);
    }
    if info.mutation != 0 {
      info := info.(mutation := Half(info.mutation + stats.mutation));
    } else {
      info := info.(mutation := stats.mutation);
    }
    if info.validation != 0 {
      info := info.(validation := Half(info.validation + stats.validation));
    } else {
      info := info.(validation := stats.validation);
    }
    if info.generation != 0 {
      info := info.(generation := Half(info.generation + stats.generation));
    } else {
      info := info.(generation := stats.generation);
    }
    var rules := AggregateRules(info.rules, stats.rules);
    info := info.(rules := rules);
  }

  method AggregateRules(earlier: seq<RuleStat>, update: seq<RuleStat>) returns (newRules: seq<RuleStat>)
    ensures newRules == CombineRules(earlier, update)
  {
    newRules := [];
    for i := 0 to |update|
      invariant newRules == CombineRules(earlier, update[..i])
    {
      var updateR := update[i];
      assert update[..i + 1][..i] == update[..i];
      if updateR.time != 0 {
        var at := SearchRule(earlier, updateR.name);
        if at >= 0 {
          var rule := earlier[at];
          rule := rule.(time := Half(rule.time + updateR.time));
          rule := rule.(applied := rule.applied + updateR.applied);
          rule := rule.(failed := rule.failed + updateR.failed);
          rule := rule.(mutations := rule.mutations + updateR.mutations);
          newRules := newRules + [rule];
        } else {
          newRules := newRules + [updateR];
        }
      }
    }
    assert update[..|update|] == update;
  }

  method SearchRule(list: seq<RuleStat>, name: string) returns (i: int)
    ensures i == FirstNamed(list, name)
  {
    for j := 0 to |list|
      invariant forall m | 0 <= m < j :: list[m].name != name
    {
      if list[j].name == name {
        return j;
      }
    }
    i := -1;
  }
}
