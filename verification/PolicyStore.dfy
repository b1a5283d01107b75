/** The in-memory index from kinds and namespaces to the names of policies. */
module PolicyStore {

  datatype Rule = Rule(kinds: seq<string>, namespaces: seq<string>)

  datatype Policy = Policy(name: string, rules: seq<Rule>)

  type Index = map<string, map<string, set<string>>>

  // ---------- What a policy asks for, and what is indexed ----------

  /** A rule speaks about a kind in a namespace. */
  predicate Asks(rule: Rule, kind: string, namespace: string) {
    kind in rule.kinds && (rule.namespaces == [] || "*" in rule.namespaces || namespace in rule.namespaces)
  }

  ghost predicate PolicyAsks(policy: Policy, kind: string, namespace: string) {
    exists i | 0 <= i < |policy.rules| :: Asks(policy.rules[i], kind, namespace)
  }

  /** Registration adds the name only under the last namespace of a rule. */
  function Under(rule: Rule): string {
    if rule.namespaces == [] then "*" else rule.namespaces[|rule.namespaces| - 1]
  }

  predicate Indexes(rule: Rule, kind: string, namespace: string) {
    kind in rule.kinds && namespace == Under(rule)
  }

  ghost predicate PolicyIndexes(policy: Policy, kind: string, namespace: string) {
    SomeIndexes(policy.rules, kind, namespace)
  }

  ghost predicate SomeIndexes(rules: seq<Rule>, kind: string, namespace: string) {
    exists i | 0 <= i < |rules| :: Indexes(rules[i], kind, namespace)
  }

  predicate Entry(data: Index, kind: string, namespace: string, name: string) {
    kind in data && namespace in data[kind] && name in data[kind][namespace]
  }

  /** A rule is found where it asks to be found, for every kind it names and every namespace,
      exactly when it names no namespace, or ends with "*", or names the same one throughout. */
  lemma IndexedWhereAsked(rule: Rule)
    requires rule.kinds != []
    ensures (forall kind, namespace | kind in rule.kinds ::
               Asks(rule, kind, namespace) <==> Indexes(rule, kind, namespace) || Indexes(rule, kind, "*"))
       <==> Under(rule) == "*" || forall namespace | namespace in rule.namespaces :: namespace == Under(rule)
  {
    var kind, under := rule.kinds[0], Under(rule);
    if under != "*" {
      if forall namespace | namespace in rule.namespaces :: namespace == under {
        assert under in rule.namespaces;
      } else {
        var namespace :| namespace in rule.namespaces && namespace != under;
        assert Asks(rule, kind, namespace);
        assert !(Indexes(rule, kind, namespace) || Indexes(rule, kind, "*"));
      }
    } else {
      assert rule.namespaces == [] || "*" in rule.namespaces;
    }
  }

  // ---------- What is removed ----------

  /** One kind of one rule, with the namespaces of the rule. */
  datatype Visit = Visit(kind: string, namespaces: seq<string>)

  predicate Covers(namespaces: seq<string>, namespace: string) {
    if namespaces == [] then namespace == "*" else namespace in namespaces
  }

  ghost predicate Mentions(visits: seq<Visit>, kind: string, namespace: string) {
    exists i | 0 <= i < |visits| :: visits[i].kind == kind && Covers(visits[i].namespaces, namespace)
  }

  ghost function VisitsOf(rule: Rule): (visits: seq<Visit>)
    ensures |visits| == |rule.kinds|
  {
    seq(|rule.kinds|, i requires 0 <= i < |rule.kinds| => Visit(rule.kinds[i], rule.namespaces))
  }

  ghost function Visits(rules: seq<Rule>): seq<Visit> {
    if rules == [] then [] else Visits(rules[..|rules| - 1]) + VisitsOf(rules[|rules| - 1])
  }

  ghost function UntilMissing(visits: seq<Visit>, kinds: set<string>): seq<Visit> {
    if visits == [] || visits[0].kind !in kinds then [] else [visits[0]] + UntilMissing(visits[1..], kinds)
  }

  ghost predicate Known(visits: seq<Visit>, kinds: set<string>) {
    forall i | 0 <= i < |visits| :: visits[i].kind in kinds
  }

  lemma {:induction false} StopsThere(visits: seq<Visit>, n: nat, kinds: set<string>)
    requires n < |visits| && Known(visits[..n], kinds) && visits[n].kind !in kinds
    ensures UntilMissing(visits, kinds) == visits[..n]
    decreases n
  {
    if n > 0 {
      assert visits[..n][0] == visits[0] && visits[1..][..n - 1] == visits[..n][1..];
      StopsThere(visits[1..], n - 1, kinds);
    }
  }

  lemma {:induction false} NeverStops(visits: seq<Visit>, kinds: set<string>)
    requires Known(visits, kinds)
    ensures UntilMissing(visits, kinds) == visits
    decreases |visits|
  {
    if visits != [] {
      NeverStops(visits[1..], kinds);
    }
  }

  lemma {:induction false} VisitsGrow(rules: seq<Rule>, i: nat)
    requires i <= |rules|
    ensures Visits(rules[..i]) <= Visits(rules)
    decreases |rules| - i
  {
    if i == |rules| {
      assert rules[..i] == rules;
    } else {
      AllVisits(rules, i);
      VisitsGrow(rules, i + 1);
    }
  }

  lemma AllVisits(rules: seq<Rule>, i: nat)
    requires i < |rules|
    ensures Visits(rules[..i + 1]) == Visits(rules[..i]) + VisitsOf(rules[i])
    ensures VisitsOf(rules[i])[..|rules[i].kinds|] == VisitsOf(rules[i])
  {
    assert rules[..i + 1][..i] == rules[..i];
  }

  lemma OneMoreVisit(rules: seq<Rule>, i: nat, j: nat)
    requires i < |rules| && j < |rules[i].kinds|
    ensures var done := Visits(rules[..i]) + VisitsOf(rules[i])[..j];
            var visit := Visit(rules[i].kinds[j], rules[i].namespaces);
            && |done| < |Visits(rules)| && Visits(rules)[|done|] == visit && Visits(rules)[..|done|] == done
            && done + [visit] == Visits(rules[..i]) + VisitsOf(rules[i])[..j + 1]
            && done + [visit] <= Visits(rules)
  {
    AllVisits(rules, i);
    VisitsGrow(rules, i + 1);
    NextVisit(Visits(rules), Visits(rules[..i]), VisitsOf(rules[i]), j);
  }

  lemma NextVisit(all: seq<Visit>, before: seq<Visit>, of: seq<Visit>, j: nat)
    requires before + of <= all && j < |of|
    ensures var done := before + of[..j];
            && |done| < |all| && all[|done|] == of[j] && all[..|done|] == done
            && done + [of[j]] == before + of[..j + 1] && done + [of[j]] <= all
  {
    assert of[..j + 1] == of[..j] + [of[j]];
    assert before + of[..j + 1] <= before + of;
    assert (before + of)[|before| + j] == of[j];
  }

  lemma MentionsMore(visits: seq<Visit>, visit: Visit)
    ensures forall k, ns :: Mentions(visits + [visit], k, ns) <==>
              Mentions(visits, k, ns) || (visit.kind == k && Covers(visit.namespaces, ns))
  {
    var more := visits + [visit];
    forall k, ns
      ensures Mentions(more, k, ns) <==> Mentions(visits, k, ns) || (visit.kind == k && Covers(visit.namespaces, ns))
    {
      if i :| 0 <= i < |visits| && visits[i].kind == k && Covers(visits[i].namespaces, ns) {
        assert more[i] == visits[i];
      }
      assert more[|visits|] == visit;
    }
  }

  /** Whatever a policy has in the index, its removal visits. */
  lemma {:induction false} IndexedIsMentioned(rules: seq<Rule>, kind: string, namespace: string)
    requires SomeIndexes(rules, kind, namespace)
    ensures Mentions(Visits(rules), kind, namespace)
  {
    var i :| 0 <= i < |rules| && Indexes(rules[i], kind, namespace);
    var j :| 0 <= j < |rules[i].kinds| && rules[i].kinds[j] == kind;
    OneMoreVisit(rules, i, j);
    assert Covers(rules[i].namespaces, namespace);
    var visit := Visits(rules)[|Visits(rules[..i]) + VisitsOf(rules[i])[..j]|];
    assert visit.kind == kind && Covers(visit.namespaces, namespace);
  }

  /** Every kind of a policy whose entries are all there is known to the index. */
  lemma {:induction false} LiveIsKnown(policy: Policy, data: Index)
    requires forall k, ns | PolicyIndexes(policy, k, ns) :: Entry(data, k, ns, policy.name)
    ensures Known(Visits(policy.rules), data.Keys)
  {
    KnownRules(policy, data, |policy.rules|);
    assert policy.rules[..|policy.rules|] == policy.rules;
  }

  lemma {:induction false} KnownRules(policy: Policy, data: Index, n: nat)
    requires n <= |policy.rules|
    requires forall k, ns | PolicyIndexes(policy, k, ns) :: Entry(data, k, ns, policy.name)
    ensures Known(Visits(policy.rules[..n]), data.Keys)
  {
    if n > 0 {
      KnownRules(policy, data, n - 1);
      AllVisits(policy.rules, n - 1);
      var rule := policy.rules[n - 1];
      forall j | 0 <= j < |rule.kinds| ensures rule.kinds[j] in data {
        assert Indexes(rule, rule.kinds[j], Under(rule));
        assert PolicyIndexes(policy, rule.kinds[j], Under(rule));
      }
    }
  }

  class PolicyStore {
    var data: Index

    /** The registered policies, by name. */
    ghost var live: map<string, Policy>

    /** The index holds exactly the entries of the live policies. */
    ghost predicate Valid()
      reads this
    {
      && (forall name | name in live :: live[name].name == name)
      && (forall kind, namespace, name ::
            Entry(data, kind, namespace, name) <==> name in live && PolicyIndexes(live[name], kind, namespace))
    }

    constructor ()
      ensures Valid() && live == map[]
    {
      data, live := map[], map[];
    }

    /** `addKind`, `addNamespace` and `addPolicyElement` */
    method AddEntry(kind: string, namespaces: seq<string>, name: string)
      modifies this`data
      ensures forall k, ns, n :: Entry(data, k, ns, n) <==>
                Entry(old(data), k, ns, n)
                || (k == kind && n == name && ns == if namespaces == [] then "*" else namespaces[|namespaces| - 1])
    {
      if kind !in data {
        data := data[kind := map[]];
      }
      var namespace := "*";
      if namespaces == [] {
        AddNamespace(kind, namespace);
      } else {
        for i := 0 to |namespaces|
          invariant kind in data
          invariant i > 0 ==> namespace == namespaces[i - 1] && namespace in data[kind]
          invariant forall k, ns, n :: Entry(data, k, ns, n) <==> Entry(old(data), k, ns, n)
        {
          namespace := namespaces[i];
          AddNamespace(kind, namespace);
        }
      }
      assert namespace in data[kind];
      ghost var mid := data;
      data := data[kind := data[kind][namespace := data[kind][namespace] + {name}]];
      forall k, ns, n
        ensures Entry(data, k, ns, n) <==> Entry(mid, k, ns, n) || (k == kind && ns == namespace && n == name)
      {
      }
    }

    method AddNamespace(kind: string, namespace: string)
      requires kind in data
      modifies this`data
      ensures kind in data && namespace in data[kind]
      ensures forall k, ns, n :: Entry(data, k, ns, n) <==> Entry(old(data), k, ns, n)
    {
      if namespace !in data[kind] {
        data := data[kind := data[kind][namespace := {}]];
      }
    }

    method Register(policy: Policy)
      modifies this
      ensures forall k, ns, n :: Entry(data, k, ns, n) <==>
                Entry(old(data), k, ns, n) || (n == policy.name && PolicyIndexes(policy, k, ns))
      ensures live == old(live)[policy.name := policy]
      ensures old(Valid()) && policy.name !in old(live) ==> Valid()
    {
      ghost var before := data;
      for i := 0 to |policy.rules|
        invariant live == old(live)
        invariant forall k, ns, n :: Entry(data, k, ns, n) <==>
                    Entry(before, k, ns, n) || (n == policy.name && SomeIndexes(policy.rules[..i], k, ns))
      {
        var rule := policy.rules[i];
        ghost var sofar := data;
        for j := 0 to |rule.kinds|
          invariant live == old(live)
          invariant forall k, ns, n :: Entry(data, k, ns, n) <==>
                      Entry(sofar, k, ns, n) || (n == policy.name && k in rule.kinds[..j] && ns == Under(rule))
        {
          AddEntry(rule.kinds[j], rule.namespaces, policy.name);
          assert rule.kinds[..j + 1] == rule.kinds[..j] + [rule.kinds[j]];
        }
        assert rule.kinds[..|rule.kinds|] == rule.kinds;
        forall k, ns ensures SomeIndexes(policy.rules[..i + 1], k, ns)
                        <==> SomeIndexes(policy.rules[..i], k, ns) || Indexes(rule, k, ns)
        {
          OneMoreRule(policy.rules, i, k, ns);
        }
      }
      assert policy.rules[..|policy.rules|] == policy.rules;
      live := live[policy.name := policy];
    }

    static lemma OneMoreRule(rules: seq<Rule>, i: nat, kind: string, namespace: string)
      requires i < |rules|
      ensures SomeIndexes(rules[..i + 1], kind, namespace)
         <==> SomeIndexes(rules[..i], kind, namespace) || Indexes(rules[i], kind, namespace)
    {
      var before, after := rules[..i], rules[..i + 1];
      assert after == before + [rules[i]];
      if j :| 0 <= j < |before| && Indexes(before[j], kind, namespace) {
        assert Indexes(after[j], kind, namespace);
      }
      if Indexes(rules[i], kind, namespace) {
        assert Indexes(after[i], kind, namespace);
      }
      if j :| 0 <= j < |after| && Indexes(after[j], kind, namespace) {
        assert j < i ==> Indexes(before[j], kind, namespace);
      }
    }

    /** The walk over the kinds of a policy stops at one that was never registered. For the live
        version of a policy there is none, and all its entries are removed. */
    method UnRegister(policy: Policy)
      modifies this
      ensures data.Keys == old(data).Keys
      ensures forall k, ns, n :: Entry(data, k, ns, n) <==>
                && Entry(old(data), k, ns, n)
                && !(n == policy.name && Mentions(UntilMissing(Visits(policy.rules), old(data).Keys), k, ns))
      ensures live == old(live) - {policy.name}
      ensures old(Valid()) && policy.name in old(live) && old(live)[policy.name] == policy ==> Valid()
    {
      ghost var all, done := Visits(policy.rules), [];
      for i := 0 to |policy.rules|
        invariant live == old(live) && data.Keys == old(data).Keys
        invariant done == Visits(policy.rules[..i]) && done <= all && Known(done, data.Keys)
        invariant forall k, ns, n :: Entry(data, k, ns, n) <==>
                    Entry(old(data), k, ns, n) && !(n == policy.name && Mentions(done, k, ns))
      {
        var rule := policy.rules[i];
        for j := 0 to |rule.kinds|
          invariant live == old(live) && data.Keys == old(data).Keys
          invariant done == Visits(policy.rules[..i]) + VisitsOf(rule)[..j] && done <= all && Known(done, data.Keys)
          invariant forall k, ns, n :: Entry(data, k, ns, n) <==>
                      Entry(old(data), k, ns, n) && !(n == policy.name && Mentions(done, k, ns))
        {
          OneMoreVisit(policy.rules, i, j);
          if rule.kinds[j] !in data {
            StopsThere(all, |done|, data.Keys);
            live := live - {policy.name};
            if old(Valid()) && policy.name in old(live) && old(live)[policy.name] == policy {
              LiveIsKnown(policy, old(data));
            }
            return;
          }
          ghost var visit := Visit(rule.kinds[j], rule.namespaces);
          RemoveVisit(rule.kinds[j], rule.namespaces, policy.name);
          MentionsMore(done, visit);
          done := done + [visit];
        }
        AllVisits(policy.rules, i);
      }
      assert policy.rules[..|policy.rules|] == policy.rules;
      NeverStops(all, data.Keys);
      live := live - {policy.name};
      if old(Valid()) && policy.name in old(live) && old(live)[policy.name] == policy {
        forall k, ns ensures !Entry(data, k, ns, policy.name) {
          if Entry(old(data), k, ns, policy.name) {
            IndexedIsMentioned(policy.rules, k, ns);
          }
        }
      }
    }

    /** All namespaces of one kind of a rule. */
    method RemoveVisit(kind: string, namespaces: seq<string>, name: string)
      requires kind in data
      modifies this`data
      ensures data.Keys == old(data).Keys
      ensures forall k, ns, n :: Entry(data, k, ns, n) <==>
                Entry(old(data), k, ns, n) && !(n == name && k == kind && Covers(namespaces, ns))
    {
      if namespaces == [] {
        RemoveEntry(kind, "*", name);
      } else {
        for m := 0 to |namespaces|
          invariant data.Keys == old(data).Keys
          invariant forall k, ns, n :: Entry(data, k, ns, n) <==>
                      Entry(old(data), k, ns, n) && !(n == name && k == kind && ns in namespaces[..m])
        {
          RemoveEntry(kind, namespaces[m], name);
          assert namespaces[..m + 1] == namespaces[..m] + [namespaces[m]];
        }
        assert namespaces[..|namespaces|] == namespaces;
      }
    }

    method RemoveEntry(kind: string, namespace: string, name: string)
      requires kind in data
      modifies this`data
      ensures data.Keys == old(data).Keys
      ensures forall k, ns, n :: Entry(data, k, ns, n) <==>
                Entry(old(data), k, ns, n) && !(k == kind && ns == namespace && n == name)
    {
      if namespace in data[kind] {
        data := data[kind := data[kind][namespace := data[kind][namespace] - {name}]];
      }
    }

    /** The names found for a kind and a namespace: no name twice, and exactly the live policies
        indexed there or under "*". */
    method LookUp(kind: string, namespace: string) returns (names: seq<string>)
      requires Valid()
      ensures forall i, j | 0 <= i < j < |names| :: names[i] != names[j]
      ensures forall name :: name in names <==>
                && name in live
                && (PolicyIndexes(live[name], kind, namespace) || PolicyIndexes(live[name], kind, "*"))
    {
      if kind !in data {
        assert forall name :: !Entry(data, kind, namespace, name) && !Entry(data, kind, "*", name);
        return [];
      }
      var here := Transform(if namespace in data[kind] then data[kind][namespace] else {});
      var everywhere := Transform(if "*" in data[kind] then data[kind]["*"] else {});
      assert forall name :: name in here <==> Entry(data, kind, namespace, name);
      assert forall name :: name in everywhere <==> Entry(data, kind, "*", name);
      names := Unique(here + everywhere);
    }
  }

  /** `transform`: the keys of a map, in some order. */
  method Transform(names: set<string>) returns (list: seq<string>)
    ensures forall name :: name in list <==> name in names
    ensures forall i, j | 0 <= i < j < |list| :: list[i] != list[j]
  {
    list := [];
    var todo := names;
    while todo != {}
      invariant todo <= names
      invariant forall name :: name in list <==> name in names - todo
      invariant forall i, j | 0 <= i < j < |list| :: list[i] != list[j]
      decreases |todo|
    {
      var name :| name in todo;
      assert name !in list;
      todo := todo - {name};
      list := list + [name];
    }
  }

  /** The first occurrences, in order. */
  function Firsts(entries: seq<string>): seq<string> {
    if entries == [] then []
    else
      var init, last := entries[..|entries| - 1], entries[|entries| - 1];
      Firsts(init) + if last in init then [] else [last]
  }

  /** `unique` */
  method Unique(entries: seq<string>) returns (list: seq<string>)
    ensures forall i, j | 0 <= i < j < |list| :: list[i] != list[j]
    ensures forall entry :: entry in list <==> entry in entries
    ensures list == Firsts(entries)
  {
    var seen: set<string> := {};
    list := [];
    for i := 0 to |entries|
      invariant forall entry :: entry in seen <==> entry in list
      invariant forall entry :: entry in list <==> entry in entries[..i]
      invariant list == Firsts(entries[..i])
      invariant forall i, j | 0 <= i < j < |list| :: list[i] != list[j]
    {
      assert entries[..i + 1][..i] == entries[..i];
      if entries[i] !in seen {
        seen := seen + {entries[i]};
        list := list + [entries[i]];
      }
      assert entries[..i + 1] == entries[..i] + [entries[i]];
    }
    assert entries[..|entries|] == entries;
  }

  /** When no rule of the live policies names two namespaces, a lookup is a scan. */
  lemma LookupIsScan(live: map<string, Policy>, kind: string, namespace: string, name: string)
    requires name in live
    requires forall i | 0 <= i < |live[name].rules| :: |live[name].rules[i].namespaces| <= 1
    ensures PolicyIndexes(live[name], kind, namespace) || PolicyIndexes(live[name], kind, "*")
       <==> PolicyAsks(live[name], kind, namespace)
  {
    var rules := live[name].rules;
    forall i | 0 <= i < |rules|
      ensures Asks(rules[i], kind, namespace) <==> Indexes(rules[i], kind, namespace) || Indexes(rules[i], kind, "*")
    {
      if rules[i].kinds != [] {
        IndexedWhereAsked(rules[i]);
      }
    }
  }
}
