/** Without new reports the violation queue comes to rest, and then every report that was owed has
    been created or dropped: retries included, the load decreases with every step. */
module ViolationSettling {
  import opened ViolationQueue

  ghost function Pick<K>(m: map<K, nat>): (k: K)
    requires m != map[]
    ensures k in m
  {
    var k :| k in m; k
  }

  ghost function Total<K>(m: map<K, nat>): nat
    decreases |m|
  {
    if m == map[] then 0
    else
      assert (m - {Pick(m)}).Keys == m.Keys - {Pick(m)};
      m[Pick(m)] + Total(m - {Pick(m)})
  }

  lemma {:induction false} TotalWithout<K>(m: map<K, nat>, k: K)
    requires k in m
    ensures Total(m) == m[k] + Total(m - {k})
    decreases |m|
  {
    var p := Pick(m);
    if p != k {
      assert (m - {p}).Keys == m.Keys - {p} && (m - {k}).Keys == m.Keys - {k};
      TotalWithout(m - {p}, k);
      TotalWithout(m - {k}, p);
      assert m - {p} - {k} == m - {k} - {p};
    }
  }

  lemma TotalUpdate<K>(m: map<K, nat>, k: K, v: nat)
    ensures Total(m[k := v]) + (if k in m then m[k] else 0) == Total(m) + v
  {
    TotalWithout(m[k := v], k);
    if k in m {
      TotalWithout(m, k);
      assert m[k := v] - {k} == m - {k};
    } else {
      assert m[k := v] - {k} == m;
    }
  }

  lemma {:induction false} TotalBounded(m: map<string, nat>)
    requires forall k | k in m :: m[k] <= RETRY_LIMIT
    ensures Total(m) <= RETRY_LIMIT * |m|
    decreases |m|
  {
    if m != map[] {
      var p := Pick(m);
      assert (m - {p}).Keys == m.Keys - {p} && |m - {p}| == |m| - 1;
      TotalBounded(m - {p});
    }
  }

  function WorkerLoad(pc: Worker): nat {
    match pc
    case Idle => 0
    case LookingUp(_) => 19
    case Creating(_, _) => 18
    case Dropping(_) => 2
    case Finishing(_) => 1
  }

  ghost function WorkerLoads(s: State): map<nat, nat> {
    map w | w in s.workers :: WorkerLoad(s.workers[w])
  }

  ghost function ProducerLoads(s: State): map<nat, nat> {
    map p | p in s.producers :: if s.producers[p].Stored? then 21 else 0
  }

  /** What is left to do about the keys in `keys`; every failure so far saves a retry. */
  ghost function Load(s: State, keys: set<string>): int {
    20 * |s.dirty| + 21 * |s.delayed| + Total(ProducerLoads(s)) + Total(WorkerLoads(s))
    + 5 * (RETRY_LIMIT * |keys| - Total(s.failures))
  }

  ghost predicate Within(s: State, keys: set<string>) {
    && s.failures.Keys <= keys && s.dirty <= keys && s.delayed <= keys
    && (forall p | p in s.producers && s.producers[p].Stored? :: s.producers[p].key in keys)
    && (forall w | w in s.workers && !s.workers[w].Idle? :: s.workers[w].key in keys)
  }

  lemma LoadIsNatural(s: State, keys: set<string>)
    requires RetryInv(s) && Within(s, keys)
    ensures Load(s, keys) >= 0
  {
    forall k | k in s.failures ensures s.failures[k] <= RETRY_LIMIT {
      assert NumRequeues(s, k) <= RETRY_LIMIT;
    }
    TotalBounded(s.failures);
    Smaller(s.failures.Keys, keys);
  }

  lemma Smaller(a: set<string>, b: set<string>)
    requires a <= b
    ensures |a| <= |b|
  {
    assert b == a + (b - a);
  }

  lemma GetStaysWithin(s: State, w: nat, keys: set<string>)
    requires QueueInv(s) && Within(s, keys) && Enabled(s, Get(w))
    ensures Within(Apply(s, Get(w)), keys)
  {
    assert s.queue[0] in s.queue;
  }

  lemma WorkerStaysWithin(s: State, step: Step, keys: set<string>)
    requires Within(s, keys) && Enabled(s, step) && (step.Lookup? || step.Create? || step.Drop? || step.Done?)
    ensures Within(Apply(s, step), keys)
  {
    assert s.workers[step.w].key in keys;
  }

  lemma EnqueueStaysWithin(s: State, p: nat, keys: set<string>)
    requires Within(s, keys) && Enabled(s, Enqueue(p))
    ensures Within(Apply(s, Enqueue(p)), keys)
  {
  }

  lemma FireStaysWithin(s: State, key: string, keys: set<string>)
    requires Within(s, keys) && Enabled(s, Fire(key))
    ensures Within(Apply(s, Fire(key)), keys)
  {
  }

  lemma StepStaysWithin(s: State, step: Step, keys: set<string>)
    requires QueueInv(s) && Within(s, keys) && Enabled(s, step) && !step.Store?
    ensures Within(Apply(s, step), keys)
  {
    match step
    case Get(w) => GetStaysWithin(s, w, keys);
    case Enqueue(p) => EnqueueStaysWithin(s, p, keys);
    case Fire(key) => FireStaysWithin(s, key, keys);
    case _ => WorkerStaysWithin(s, step, keys);
  }

  /** The change of a worker, and of its failures, in the load. */
  lemma WorkerChanges(s: State, s': State, w: nat)
    requires w in s.workers && w in s'.workers && s'.workers == s.workers[w := s'.workers[w]]
    ensures Total(WorkerLoads(s')) + WorkerLoad(s.workers[w]) == Total(WorkerLoads(s)) + WorkerLoad(s'.workers[w])
  {
    assert WorkerLoads(s') == WorkerLoads(s)[w := WorkerLoad(s'.workers[w])];
    TotalUpdate(WorkerLoads(s), w, WorkerLoad(s'.workers[w]));
  }

  lemma Forgotten(s: State, k: string)
    requires RetryInv(s)
    ensures Total(s.failures) <= Total(s.failures - {k}) + RETRY_LIMIT
  {
    assert NumRequeues(s, k) <= RETRY_LIMIT;
    if k in s.failures {
      TotalWithout(s.failures, k);
    } else {
      assert s.failures - {k} == s.failures;
    }
  }

  /** One more key in a set, or none. */
  lemma AtMostOneMore(before: set<string>, after: set<string>, key: string)
    requires after == before || after == before + {key}
    ensures |after| <= |before| + 1
  {
    if after != before {
      assert key !in before;
    }
  }

  lemma AddsOneMore(s: State, key: string)
    ensures Add(s, key).dirty == s.dirty || Add(s, key).dirty == s.dirty + {key}
    ensures Add(s, key).delayed == s.delayed && Add(s, key).failures == s.failures
    ensures Add(s, key).producers == s.producers && Add(s, key).workers == s.workers
  {
  }

  /** The loads that do not change when only the dirty and the delayed keys do. */
  lemma SameLoads(s: State, s': State)
    requires s'.producers == s.producers && s'.workers == s.workers
    ensures ProducerLoads(s') == ProducerLoads(s) && WorkerLoads(s') == WorkerLoads(s)
  {
  }

  lemma ProducerIsDone(s: State, s': State, p: nat)
    requires p in s.producers && s.producers[p].Stored? && s'.producers == s.producers[p := Ready]
    ensures Total(ProducerLoads(s')) + 21 == Total(ProducerLoads(s))
  {
    assert ProducerLoads(s') == ProducerLoads(s)[p := 0];
    TotalUpdate(ProducerLoads(s), p, 0);
  }

  lemma EnqueueDoesWork(s: State, p: nat, keys: set<string>)
    requires Enabled(s, Enqueue(p))
    ensures Load(Apply(s, Enqueue(p)), keys) < Load(s, keys)
  {
    var s' := Apply(s, Enqueue(p));
    AddsOneMore(s, s.producers[p].key);
    AtMostOneMore(s.dirty, s'.dirty, s.producers[p].key);
    ProducerIsDone(s, s', p);
    assert WorkerLoads(s') == WorkerLoads(s);
  }

  lemma FireDoesWork(s: State, key: string, keys: set<string>)
    requires Enabled(s, Fire(key))
    ensures Load(Apply(s, Fire(key)), keys) < Load(s, keys)
  {
    var taken := s.(delayed := s.delayed - {key});
    AddsOneMore(taken, key);
    AtMostOneMore(s.dirty, Apply(s, Fire(key)).dirty, key);
    SameLoads(s, Apply(s, Fire(key)));
    assert |taken.delayed| == |s.delayed| - 1;
  }

  lemma GetDoesWork(s: State, w: nat, keys: set<string>)
    requires QueueInv(s) && Enabled(s, Get(w))
    ensures Load(Apply(s, Get(w)), keys) < Load(s, keys)
  {
    assert s.queue[0] in s.queue;
    WorkerChanges(s, Apply(s, Get(w)), w);
  }

  lemma LookupDoesWork(s: State, w: nat, keys: set<string>)
    requires RetryInv(s) && Enabled(s, Lookup(w))
    ensures Load(Apply(s, Lookup(w)), keys) < Load(s, keys)
  {
    Forgotten(s, s.workers[w].key);
    WorkerChanges(s, Apply(s, Lookup(w)), w);
  }

  lemma RetryDoesWork(s: State, w: nat, keys: set<string>)
    requires Enabled(s, Create(w, false)) && NumRequeues(s, s.workers[w].key) < RETRY_LIMIT
    ensures Load(Apply(s, Create(w, false)), keys) < Load(s, keys)
  {
    var key, s' := s.workers[w].key, Apply(s, Create(w, false));
    assert ProducerLoads(s') == ProducerLoads(s);
    WorkerChanges(s, s', w);
    TotalUpdate(s.failures, key, NumRequeues(s, key) + 1);
    AtMostOneMore(s.delayed, s'.delayed, key);
  }

  lemma CreateDoesWork(s: State, w: nat, ok: bool, keys: set<string>)
    requires RetryInv(s) && Enabled(s, Create(w, ok))
    ensures Load(Apply(s, Create(w, ok)), keys) < Load(s, keys)
  {
    if !ok && NumRequeues(s, s.workers[w].key) < RETRY_LIMIT {
      RetryDoesWork(s, w, keys);
    } else {
      Forgotten(s, s.workers[w].key);
      WorkerChanges(s, Apply(s, Create(w, ok)), w);
    }
  }

  /** Every step but the arrival of a new report leaves less to do. */
  lemma StepsDoWork(s: State, step: Step, keys: set<string>)
    requires QueueInv(s) && RetryInv(s) && Enabled(s, step) && !step.Store?
    ensures Load(Apply(s, step), keys) < Load(s, keys)
  {
    match step
    case Enqueue(p) => EnqueueDoesWork(s, p, keys);
    case Get(w) => GetDoesWork(s, w, keys);
    case Lookup(w) => LookupDoesWork(s, w, keys);
    case Create(w, ok) => CreateDoesWork(s, w, ok, keys);
    case Drop(w) => WorkerChanges(s, Apply(s, step), w);
    case Done(w) => WorkerChanges(s, Apply(s, step), w);
    case Fire(key) => FireDoesWork(s, key, keys);
  }

  /** Without new reports a run is no longer than the load it starts with, and when nothing else
      is left to happen, every report that was owed has been created or dropped. */
  lemma {:induction false} EverythingSettles(s: State, steps: seq<Step>, s': State, keys: set<string>, w: nat)
    requires Inv(s) && Within(s, keys) && Runs(s, steps, s')
    requires forall i | 0 <= i < |steps| :: !steps[i].Store?
    ensures |steps| <= Load(s, keys)
    ensures w in s'.workers && (forall step | Enabled(s', step) :: step.Store?) ==> s'.owed == {}
    decreases |steps|
  {
    LoadIsNatural(s, keys);
    if steps == [] {
      if k :| k in s.owed && w in s.workers {
        var step := OwedIsNeverStuck(s, k, w);
      }
    } else {
      assert !steps[0].Store?;
      StepKeepsInv(s, steps[0]);
      StepStaysWithin(s, steps[0], keys);
      StepsDoWork(s, steps[0], keys);
      EverythingSettles(Apply(s, steps[0]), steps[1..], s', keys, w);
    }
  }
}
