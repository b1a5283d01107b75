/** The policy violation generator: producers write a report into a store and then its key into
    a rate-limited work queue; workers take keys out, look the report up, try to create it,
    and put the key back a bounded number of times. Every access to the store and to the queue
    is one atomic step (the store has a lock, the queue its own), and the steps of all
    producers and workers interleave arbitrarily. */
module ViolationQueue {
  import opened Json
  import opened Text

  const RETRY_LIMIT := 3

  datatype Info = Info(policy: string, kind: string, namespace: string, name: string, rules: seq<string>)

  const EMPTY := Info("", "", "", "", [])

  function KeyParts(info: Info): seq<string> {
    [info.policy, info.kind, info.namespace, info.name, Itoa(|info.rules|)]
  }

  function Key(info: Info): string {
    Join(KeyParts(info), '/')
  }

  /** A report about a policy or a resource is not the empty one. */
  lemma ReportsAreNotEmpty(info: Info)
    requires info.policy != "" || info.kind != "" || info.name != ""
    ensures info != EMPTY
  {
  }

  /** Names in Kubernetes have no slashes. */
  predicate SlashFree(info: Info) {
    Lacks(info.policy, '/') && Lacks(info.kind, '/') && Lacks(info.namespace, '/') && Lacks(info.name, '/')
  }

  /** The same policy, resource and number of rules. */
  predicate SameSubject(a: Info, b: Info) {
    && a.policy == b.policy && a.kind == b.kind && a.namespace == b.namespace && a.name == b.name
    && |a.rules| == |b.rules|
  }

  /** Exactly those reports share a key. */
  lemma KeysCollideExactly(a: Info, b: Info)
    requires SlashFree(a) && SlashFree(b)
    ensures Key(a) == Key(b) <==> SameSubject(a, b)
  {
    PartsLackSlashes(a);
    PartsLackSlashes(b);
    SplitExactly(Key(a), KeyParts(a), '/');
    SplitExactly(Key(b), KeyParts(b), '/');
    if Key(a) == Key(b) {
      forall i | 0 <= i < 5 ensures KeyParts(a)[i] == KeyParts(b)[i] {
      }
      assert KeyParts(a)[0] == KeyParts(b)[0] && KeyParts(a)[1] == KeyParts(b)[1] && KeyParts(a)[2] == KeyParts(b)[2];
      assert KeyParts(a)[3] == KeyParts(b)[3] && KeyParts(a)[4] == KeyParts(b)[4];
      assert NumeralValue(KeyParts(a)[4]) == |a.rules|;
    }
  }

  lemma PartsLackSlashes(info: Info)
    requires SlashFree(info)
    ensures AllLack(KeyParts(info), '/')
  {
    assert forall c | c in Itoa(|info.rules|) :: IsDigit(c);
    assert !IsDigit('/');
  }

  datatype Producer = Ready | Stored(key: string)

  /** What a worker is about to do with the key it holds. */
  datatype Worker =
    | Idle
    | LookingUp(key: string)
    | Creating(key: string, info: Info)
    | Dropping(key: string)
    | Finishing(key: string)
  {
    predicate Holds(k: string) { !Idle? && key == k }
  }

  /** The store, the work queue of the Kubernetes client library (a queue of keys, the keys
      waiting to be processed, the keys being processed, the keys waiting for a delay, and the
      failures since the last Forget), and the processes. The last three fields record history:
      the last report added under a key, the keys added since they were last looked up, and the
      keys whose last report was neither created nor dropped. */
  datatype State = State(
    store: map<string, Info>,
    queue: seq<string>,
    dirty: set<string>,
    processing: set<string>,
    delayed: set<string>,
    failures: map<string, nat>,
    producers: map<nat, Producer>,
    workers: map<nat, Worker>,
    last: map<string, Info>,
    unseen: set<string>,
    owed: set<string>)

  datatype Step =
    | Store(p: nat, info: Info)
    | Enqueue(p: nat)
    | Get(w: nat)
    | Lookup(w: nat)
    | Create(w: nat, ok: bool)
    | Drop(w: nat)
    | Done(w: nat)
    | Fire(key: string)

  // ---------- The work queue ----------

  function Add(s: State, key: string): State {
    if key in s.dirty then s
    else if key in s.processing then s.(dirty := s.dirty + {key})
    else s.(dirty := s.dirty + {key}, queue := s.queue + [key])
  }

  function Forget(s: State, key: string): State {
    s.(failures := s.failures - {key})
  }

  function NumRequeues(s: State, key: string): nat {
    if key in s.failures then s.failures[key] else 0
  }

  function AddRateLimited(s: State, key: string): State {
    s.(failures := s.failures[key := NumRequeues(s, key) + 1], delayed := s.delayed + {key})
  }

  function AfterDone(s: State, key: string): State {
    s.(processing := s.processing - {key}, queue := if key in s.dirty then s.queue + [key] else s.queue)
  }

  // ---------- The steps ----------

  predicate Enabled(s: State, step: Step) {
    match step
    case Store(p, info) => p in s.producers && s.producers[p].Ready?
    case Enqueue(p) => p in s.producers && s.producers[p].Stored?
    case Get(w) => w in s.workers && s.workers[w].Idle? && s.queue != []
    case Lookup(w) => w in s.workers && s.workers[w].LookingUp?
    case Create(w, _) => w in s.workers && s.workers[w].Creating?
    case Drop(w) => w in s.workers && s.workers[w].Dropping?
    case Done(w) => w in s.workers && s.workers[w].Finishing?
    case Fire(key) => key in s.delayed
  }

  function At(s: State, w: nat, pc: Worker): State {
    s.(workers := s.workers[w := pc])
  }

  function Apply(s: State, step: Step): State
    requires Enabled(s, step)
  {
    match step
    case Store(p, info) =>
      var key := Key(info);
      s.(store := s.store[key := info], producers := s.producers[p := Stored(key)], last := s.last[key := info],
         unseen := if info == EMPTY then s.unseen - {key} else s.unseen + {key},
         owed := if info == EMPTY then s.owed - {key} else s.owed + {key})
    case Enqueue(p) =>
      Add(s, s.producers[p].key).(producers := s.producers[p := Ready])
    case Get(w) =>
      var key := s.queue[0];
      At(s.(queue := s.queue[1..], dirty := s.dirty - {key}, processing := s.processing + {key}), w, LookingUp(key))
    case Lookup(w) =>
      var key := s.workers[w].key;
      if key in s.store && s.store[key] != EMPTY then
        At(s.(unseen := s.unseen - {key}), w, Creating(key, s.store[key]))
      else
        At(Forget(s, key), w, Finishing(key))
    case Create(w, ok) =>
      var key, info := s.workers[w].key, s.workers[w].info;
      if ok then
        // a newer report under the same key is still owed
        At(Forget(s, key).(owed := if key in s.unseen then s.owed else s.owed - {key}), w, Finishing(key))
      else if NumRequeues(s, key) < RETRY_LIMIT then
        At(AddRateLimited(s, key), w, Finishing(key))
      else
        At(Forget(s, key), w, Dropping(key))
    case Drop(w) =>
      var key := s.workers[w].key;
      At(s.(store := s.store - {key}, unseen := s.unseen - {key}, owed := s.owed - {key}), w, Finishing(key))
    case Done(w) =>
      At(AfterDone(s, s.workers[w].key), w, Idle)
    case Fire(key) =>
      Add(s.(delayed := s.delayed - {key}), key)
  }

  predicate Initial(s: State) {
    && s.store == map[] && s.queue == [] && s.dirty == {} && s.processing == {} && s.delayed == {}
    && s.failures == map[]
    && (forall p | p in s.producers :: s.producers[p].Ready?)
    && (forall w | w in s.workers :: s.workers[w].Idle?)
    && s.last == map[] && s.unseen == {} && s.owed == {}
  }

  ghost predicate Runs(s: State, steps: seq<Step>, s': State)
    decreases |steps|
  {
    if steps == [] then s' == s
    else Enabled(s, steps[0]) && Runs(Apply(s, steps[0]), steps[1..], s')
  }

  // ---------- The invariant ----------

  /** A key waits in the queue exactly once, unless it is being processed. */
  ghost predicate QueueInv(s: State) {
    && (forall i, j | 0 <= i < j < |s.queue| :: s.queue[i] != s.queue[j])
    && (forall k :: k in s.queue <==> k in s.dirty && k !in s.processing)
  }

  /** The keys being processed are the keys in the hands of the workers, each of one worker. */
  ghost predicate HeldInv(s: State) {
    && (forall w | w in s.workers && !s.workers[w].Idle? :: s.workers[w].key in s.processing)
    && (forall k | k in s.processing :: exists w | w in s.workers :: s.workers[w].Holds(k))
    && (forall w, w' | w in s.workers && w' in s.workers && !s.workers[w].Idle? && !s.workers[w'].Idle?
          && s.workers[w].key == s.workers[w'].key :: w == w')
  }

  /** What is in the store is the last report added under its key. */
  ghost predicate StoreInv(s: State) {
    forall k | k in s.store :: k in s.last && s.store[k] == s.last[k]
  }

  /** A worker creating an owed report that nothing newer has replaced has the last one. */
  ghost predicate CreatingInv(s: State) {
    forall w | w in s.workers && s.workers[w].Creating? :: HasLast(s, s.workers[w].key, s.workers[w].info)
  }

  ghost predicate HasLast(s: State, k: string, info: Info) {
    k in s.last && (k in s.owed && k !in s.unseen ==> info == s.last[k])
  }

  ghost predicate BeingEnqueued(s: State, key: string) {
    exists p | p in s.producers :: s.producers[p] == Stored(key)
  }

  ghost predicate BeingLookedUp(s: State, key: string) {
    exists w | w in s.workers :: s.workers[w] == LookingUp(key)
  }

  ghost predicate InHand(s: State, key: string) {
    exists w | w in s.workers :: s.workers[w].Holds(key) && !s.workers[w].Finishing?
  }

  /** A report added since the last lookup is in the store, and its key is waiting, or about to
      be enqueued by the producer that stored it, or about to be looked up. */
  ghost predicate UnseenAt(s: State, k: string) {
    k in s.unseen ==>
      && k in s.owed
      && (k in s.dirty || BeingEnqueued(s, k) || BeingLookedUp(s, k))
  }

  /** A report that was neither created nor dropped is in the store, and its key is waiting,
      delayed, about to be enqueued, or in the hands of a worker that is not done with it. */
  ghost predicate OwedAt(s: State, k: string) {
    k in s.owed ==>
      && k in s.store && s.store[k] != EMPTY
      && (k in s.dirty || k in s.delayed || BeingEnqueued(s, k) || InHand(s, k))
  }

  ghost predicate NothingLost(s: State) {
    && (forall k :: UnseenAt(s, k))
    && (forall k :: OwedAt(s, k))
  }

  ghost predicate RetryInv(s: State) {
    forall k :: NumRequeues(s, k) <= RETRY_LIMIT
  }

  ghost predicate Inv(s: State) {
    QueueInv(s) && HeldInv(s) && StoreInv(s) && CreatingInv(s) && NothingLost(s) && RetryInv(s)
  }

  lemma AddKeepsQueue(s: State, key: string)
    requires QueueInv(s)
    ensures QueueInv(Add(s, key))
  {
  }

  lemma GetKeepsQueue(s: State, w: nat)
    requires QueueInv(s) && Enabled(s, Get(w))
    ensures QueueInv(Apply(s, Get(w)))
  {
    assert s.queue == [s.queue[0]] + s.queue[1..];
  }

  lemma DoneKeepsQueue(s: State, w: nat)
    requires QueueInv(s) && HeldInv(s) && Enabled(s, Done(w))
    ensures QueueInv(Apply(s, Done(w)))
  {
    assert s.workers[w].key in s.processing;
  }

  lemma StepKeepsQueue(s: State, step: Step)
    requires QueueInv(s) && HeldInv(s) && Enabled(s, step)
    ensures QueueInv(Apply(s, step))
  {
    var s' := Apply(s, step);
    match step
    case Enqueue(p) => AddKeepsQueue(s, s.producers[p].key);
    case Fire(key) => AddKeepsQueue(s.(delayed := s.delayed - {key}), key);
    case Get(w) => GetKeepsQueue(s, w);
    case Done(w) => DoneKeepsQueue(s, w);
    case _ =>
      assert s'.queue == s.queue && s'.dirty == s.dirty && s'.processing == s.processing;
  }

  /** A worker going on with the key it holds. */
  lemma SameHands(s: State, s': State, w: nat)
    requires HeldInv(s) && w in s.workers && !s.workers[w].Idle?
    requires s'.processing == s.processing && w in s'.workers
    requires s'.workers == s.workers[w := s'.workers[w]] && s'.workers[w].Holds(s.workers[w].key)
    ensures HeldInv(s')
  {
    forall k | k in s'.processing ensures exists v | v in s'.workers :: s'.workers[v].Holds(k) {
      var v :| v in s.workers && s.workers[v].Holds(k);
      assert s'.workers[v].Holds(k);
    }
  }

  lemma GetKeepsHeld(s: State, w: nat)
    requires QueueInv(s) && HeldInv(s) && Enabled(s, Get(w))
    ensures HeldInv(Apply(s, Get(w)))
  {
    var s' := Apply(s, Get(w));
    var key := s.queue[0];
    assert key in s.queue;
    assert s'.workers[w].Holds(key);
    forall k | k in s.processing ensures exists v | v in s'.workers :: s'.workers[v].Holds(k) {
      var v :| v in s.workers && s.workers[v].Holds(k);
      assert s'.workers[v].Holds(k);
    }
  }

  lemma DoneKeepsHeld(s: State, w: nat)
    requires HeldInv(s) && Enabled(s, Done(w))
    ensures HeldInv(Apply(s, Done(w)))
  {
    var s' := Apply(s, Done(w));
    forall k | k in s'.processing ensures exists v | v in s'.workers :: s'.workers[v].Holds(k) {
      var v :| v in s.workers && s.workers[v].Holds(k);
      assert s'.workers[v].Holds(k);
    }
  }

  lemma SameWorkers(s: State, s': State)
    requires HeldInv(s) && s'.workers == s.workers && s'.processing == s.processing
    ensures HeldInv(s')
  {
  }

  lemma LookupKeepsHeld(s: State, w: nat)
    requires HeldInv(s) && Enabled(s, Lookup(w))
    ensures HeldInv(Apply(s, Lookup(w)))
  {
    SameHands(s, Apply(s, Lookup(w)), w);
  }

  lemma CreateKeepsHeld(s: State, w: nat, ok: bool)
    requires HeldInv(s) && Enabled(s, Create(w, ok))
    ensures HeldInv(Apply(s, Create(w, ok)))
  {
    SameHands(s, Apply(s, Create(w, ok)), w);
  }

  lemma DropKeepsHeld(s: State, w: nat)
    requires HeldInv(s) && Enabled(s, Drop(w))
    ensures HeldInv(Apply(s, Drop(w)))
  {
    SameHands(s, Apply(s, Drop(w)), w);
  }

  lemma NoWorkerMoves(s: State, step: Step)
    requires Enabled(s, step) && (step.Store? || step.Enqueue? || step.Fire?)
    ensures Apply(s, step).workers == s.workers && Apply(s, step).processing == s.processing
  {
  }

  lemma OthersKeepHeld(s: State, step: Step)
    requires HeldInv(s) && Enabled(s, step) && (step.Store? || step.Enqueue? || step.Fire?)
    ensures HeldInv(Apply(s, step))
  {
    NoWorkerMoves(s, step);
    SameWorkers(s, Apply(s, step));
  }

  lemma StepKeepsHeld(s: State, step: Step)
    requires QueueInv(s) && HeldInv(s) && Enabled(s, step)
    ensures HeldInv(Apply(s, step))
  {
    match step
    case Get(w) => GetKeepsHeld(s, w);
    case Done(w) => DoneKeepsHeld(s, w);
    case Lookup(w) => LookupKeepsHeld(s, w);
    case Create(w, ok) => CreateKeepsHeld(s, w, ok);
    case Drop(w) => DropKeepsHeld(s, w);
    case _ => OthersKeepHeld(s, step);
  }

  // ---------- Where a key is found after a step ----------

  /** Another producer's key stays where it is. */
  lemma ProducerMoves(s: State, s': State, p: nat, k: string)
    requires p in s.producers && p in s'.producers && s'.producers == s.producers[p := s'.producers[p]]
    requires s'.workers == s.workers && s.producers[p] != Stored(k)
    ensures BeingEnqueued(s, k) ==> BeingEnqueued(s', k)
    ensures BeingLookedUp(s, k) ==> BeingLookedUp(s', k)
    ensures InHand(s, k) ==> InHand(s', k)
  {
    if BeingEnqueued(s, k) {
      var q :| q in s.producers && s.producers[q] == Stored(k);
      assert s'.producers[q] == Stored(k);
    }
  }

  /** Another worker's key stays where it is. */
  lemma WorkerMoves(s: State, s': State, w: nat, k: string)
    requires w in s.workers && w in s'.workers && s'.workers == s.workers[w := s'.workers[w]]
    requires s'.producers == s.producers
    ensures BeingEnqueued(s, k) ==> BeingEnqueued(s', k)
    ensures BeingLookedUp(s, k) && s.workers[w] != LookingUp(k) ==> BeingLookedUp(s', k)
    ensures InHand(s, k) && !s.workers[w].Holds(k) ==> InHand(s', k)
    ensures s'.workers[w].Holds(k) && !s'.workers[w].Finishing? ==> InHand(s', k)
    ensures s'.workers[w] == LookingUp(k) ==> BeingLookedUp(s', k)
  {
    if BeingLookedUp(s, k) && s.workers[w] != LookingUp(k) {
      var v :| v in s.workers && s.workers[v] == LookingUp(k);
      assert s'.workers[v] == LookingUp(k);
    }
    if InHand(s, k) && !s.workers[w].Holds(k) {
      var v :| v in s.workers && s.workers[v].Holds(k) && !s.workers[v].Finishing?;
      assert s'.workers[v].Holds(k) && !s'.workers[v].Finishing?;
    }
  }

  lemma StoreKeeps(s: State, p: nat, info: Info, k: string)
    requires Enabled(s, Store(p, info)) && UnseenAt(s, k) && OwedAt(s, k)
    ensures UnseenAt(Apply(s, Store(p, info)), k) && OwedAt(Apply(s, Store(p, info)), k)
  {
    var s' := Apply(s, Store(p, info));
    if k == Key(info) {
      assert s'.producers[p] == Stored(k);
    } else {
      ProducerMoves(s, s', p, k);
    }
  }

  lemma EnqueueKeeps(s: State, p: nat, k: string)
    requires Enabled(s, Enqueue(p)) && UnseenAt(s, k) && OwedAt(s, k)
    ensures UnseenAt(Apply(s, Enqueue(p)), k) && OwedAt(Apply(s, Enqueue(p)), k)
  {
    if k != s.producers[p].key {
      ProducerMoves(s, Apply(s, Enqueue(p)), p, k);
    }
  }

  lemma GetKeeps(s: State, w: nat, k: string)
    requires Enabled(s, Get(w)) && UnseenAt(s, k) && OwedAt(s, k)
    ensures UnseenAt(Apply(s, Get(w)), k) && OwedAt(Apply(s, Get(w)), k)
  {
    WorkerMoves(s, Apply(s, Get(w)), w, k);
  }

  lemma LookupKeeps(s: State, w: nat, k: string)
    requires Enabled(s, Lookup(w)) && UnseenAt(s, k) && OwedAt(s, k)
    ensures UnseenAt(Apply(s, Lookup(w)), k) && OwedAt(Apply(s, Lookup(w)), k)
  {
    WorkerMoves(s, Apply(s, Lookup(w)), w, k);
  }

  lemma CreateKeeps(s: State, w: nat, ok: bool, k: string)
    requires HeldInv(s) && Enabled(s, Create(w, ok)) && UnseenAt(s, k) && OwedAt(s, k)
    ensures UnseenAt(Apply(s, Create(w, ok)), k) && OwedAt(Apply(s, Create(w, ok)), k)
  {
    WorkerMoves(s, Apply(s, Create(w, ok)), w, k);
    if k == s.workers[w].key && k in s.unseen {
      // the key is not about to be looked up by another worker
      assert !BeingLookedUp(s, k);
    }
  }

  lemma DropKeeps(s: State, w: nat, k: string)
    requires Enabled(s, Drop(w)) && UnseenAt(s, k) && OwedAt(s, k)
    ensures UnseenAt(Apply(s, Drop(w)), k) && OwedAt(Apply(s, Drop(w)), k)
  {
    WorkerMoves(s, Apply(s, Drop(w)), w, k);
  }

  lemma DoneKeeps(s: State, w: nat, k: string)
    requires HeldInv(s) && Enabled(s, Done(w)) && UnseenAt(s, k) && OwedAt(s, k)
    ensures UnseenAt(Apply(s, Done(w)), k) && OwedAt(Apply(s, Done(w)), k)
  {
    WorkerMoves(s, Apply(s, Done(w)), w, k);
    if k == s.workers[w].key {
      assert !InHand(s, k);
    }
  }

  lemma FireKeeps(s: State, key: string, k: string)
    requires Enabled(s, Fire(key)) && UnseenAt(s, k) && OwedAt(s, k)
    ensures UnseenAt(Apply(s, Fire(key)), k) && OwedAt(Apply(s, Fire(key)), k)
  {
    var s' := Apply(s, Fire(key));
    assert s'.producers == s.producers && s'.workers == s.workers;
  }

  lemma StepLosesNothing(s: State, step: Step)
    requires HeldInv(s) && NothingLost(s) && Enabled(s, step)
    ensures NothingLost(Apply(s, step))
  {
    forall k ensures UnseenAt(Apply(s, step), k) && OwedAt(Apply(s, step), k) {
      assert UnseenAt(s, k) && OwedAt(s, k);
      match step
      case Store(p, info) => StoreKeeps(s, p, info, k);
      case Enqueue(p) => EnqueueKeeps(s, p, k);
      case Get(w) => GetKeeps(s, w, k);
      case Lookup(w) => LookupKeeps(s, w, k);
      case Create(w, ok) => CreateKeeps(s, w, ok, k);
      case Drop(w) => DropKeeps(s, w, k);
      case Done(w) => DoneKeeps(s, w, k);
      case Fire(key) => FireKeeps(s, key, k);
    }
  }

  lemma StoreKeepsStore(s: State, p: nat, info: Info)
    requires StoreInv(s) && Enabled(s, Store(p, info))
    ensures StoreInv(Apply(s, Store(p, info)))
  {
    var s' := Apply(s, Store(p, info));
    forall k | k in s'.store ensures k in s'.last && s'.store[k] == s'.last[k] {
    }
  }

  lemma DropKeepsStore(s: State, w: nat)
    requires StoreInv(s) && Enabled(s, Drop(w))
    ensures StoreInv(Apply(s, Drop(w)))
  {
    var s' := Apply(s, Drop(w));
    forall k | k in s'.store ensures k in s'.last && s'.store[k] == s'.last[k] {
    }
  }

  lemma StepKeepsStore(s: State, step: Step)
    requires StoreInv(s) && Enabled(s, step)
    ensures StoreInv(Apply(s, step))
  {
    match step
    case Store(p, info) => StoreKeepsStore(s, p, info);
    case Drop(w) => DropKeepsStore(s, w);
    case _ => StoreUnchanged(s, step);
  }

  lemma StoreUnchanged(s: State, step: Step)
    requires Enabled(s, step) && !step.Store? && !step.Drop?
    ensures Apply(s, step).store == s.store && Apply(s, step).last == s.last
  {
  }

  /** What a worker is creating stays the last report, unless a newer one or its own outcome
      comes in between. */
  lemma LastStays(s: State, step: Step, k: string, info: Info)
    requires Enabled(s, step) && HasLast(s, k, info)
    requires step.Lookup? ==> s.workers[step.w].key != k
    ensures HasLast(Apply(s, step), k, info)
  {
  }

  lemma StepKeepsCreating(s: State, step: Step)
    requires HeldInv(s) && StoreInv(s) && CreatingInv(s) && Enabled(s, step)
    ensures CreatingInv(Apply(s, step))
  {
    var s' := Apply(s, step);
    forall v | v in s'.workers && s'.workers[v].Creating? ensures HasLast(s', s'.workers[v].key, s'.workers[v].info) {
      if step.Lookup? && step.w == v {
        assert s'.workers[v].key in s.store;
      } else {
        assert s'.workers[v] == s.workers[v];
        LastStays(s, step, s.workers[v].key, s.workers[v].info);
      }
    }
  }

  lemma StepKeepsRetries(s: State, step: Step)
    requires RetryInv(s) && Enabled(s, step)
    ensures RetryInv(Apply(s, step))
  {
    var s' := Apply(s, step);
    forall k ensures NumRequeues(s', k) <= RETRY_LIMIT {
      assert NumRequeues(s, k) <= RETRY_LIMIT;
    }
  }

  /** Every step keeps the invariant. */
  lemma StepKeepsInv(s: State, step: Step)
    requires Inv(s) && Enabled(s, step)
    ensures Inv(Apply(s, step))
  {
    StepKeepsQueue(s, step);
    StepKeepsHeld(s, step);
    StepKeepsStore(s, step);
    StepKeepsCreating(s, step);
    StepLosesNothing(s, step);
    StepKeepsRetries(s, step);
  }

  /** No report is lost, in any run of any number of producers and workers. */
  lemma {:induction false} RunsKeepInv(s: State, steps: seq<Step>, s': State)
    requires (Initial(s) || Inv(s)) && Runs(s, steps, s')
    ensures Inv(s')
    decreases |steps|
  {
    if steps != [] {
      StepKeepsInv(s, steps[0]);
      RunsKeepInv(Apply(s, steps[0]), steps[1..], s');
    }
  }

  /** A report stops being owed only when the last one under its key is created, when it is
      dropped after its retries are exhausted, or when an empty report overwrites it. */
  lemma OnlyTheseSettle(s: State, step: Step, k: string)
    requires Inv(s) && Enabled(s, step)
    requires k in s.owed && k !in Apply(s, step).owed
    ensures match step
            case Create(w, ok) => ok && k in s.last && s.workers[w] == Creating(k, s.last[k])
            case Drop(w) => s.workers[w] == Dropping(k)
            case Store(p, info) => info == EMPTY && Key(info) == k
            case _ => false
  {
  }

  /** As long as a report is owed and there is a worker, something other than the arrival of
      new reports can happen. */
  lemma OwedIsNeverStuck(s: State, k: string, w: nat) returns (step: Step)
    requires Inv(s) && k in s.owed && w in s.workers
    ensures Enabled(s, step) && !step.Store?
  {
    assert OwedAt(s, k);
    if !s.workers[w].Idle? {
      step := NextOf(s, w);
    } else if k in s.delayed {
      step := Fire(k);
    } else if BeingEnqueued(s, k) {
      var p :| p in s.producers && s.producers[p] == Stored(k);
      step := Enqueue(p);
    } else if InHand(s, k) {
      var v :| v in s.workers && s.workers[v].Holds(k) && !s.workers[v].Finishing?;
      step := NextOf(s, v);
    } else if k in s.processing {
      var v :| v in s.workers && s.workers[v].Holds(k);
      step := NextOf(s, v);
    } else {
      assert k in s.queue;
      step := Get(w);
    }
  }

  function NextOf(s: State, w: nat): (step: Step)
    requires w in s.workers && !s.workers[w].Idle?
    ensures Enabled(s, step) && !step.Store?
  {
    match s.workers[w]
    case LookingUp(_) => Lookup(w)
    case Creating(_, _) => Create(w, true)
    case Dropping(_) => Drop(w)
    case Finishing(_) => Done(w)
  }

  /** A lookup of a key whose report nobody has seen yet finds the last report added. */
  lemma LookupFindsTheLast(s: State, w: nat)
    requires Inv(s) && Enabled(s, Lookup(w))
    ensures var k := s.workers[w].key;
            match Apply(s, Lookup(w)).workers[w]
            case Creating(k', info) => k' == k && k in s.last && info == s.last[k]
            case _ => k !in s.unseen && k !in s.owed
  {
    var k := s.workers[w].key;
    assert UnseenAt(s, k) && OwedAt(s, k);
  }

  // ---------- The order of service ----------

  function Gets(steps: seq<Step>): nat {
    if steps == [] then 0 else (if steps[0].Get? then 1 else 0) + Gets(steps[1..])
  }

  lemma StaysInLine(s: State, step: Step, i: nat)
    requires Enabled(s, step) && i < |s.queue| && (step.Get? ==> i > 0)
    ensures var next, j := Apply(s, step), if step.Get? then i - 1 else i;
            j < |next.queue| && next.queue[j] == s.queue[i]
  {
  }

  /** A key with `i` keys before it is still in line after `i` Gets, and the next Get takes it. */
  lemma {:induction false} FirstComeFirstServed(s: State, steps: seq<Step>, s': State, i: nat)
    requires Runs(s, steps, s') && i < |s.queue| && Gets(steps) <= i
    ensures var j := i - Gets(steps); j < |s'.queue| && s'.queue[j] == s.queue[i]
    ensures forall w | Gets(steps) == i && Enabled(s', Get(w)) :: Apply(s', Get(w)).workers[w] == LookingUp(s.queue[i])
    decreases |steps|
  {
    if steps != [] {
      StaysInLine(s, steps[0], i);
      FirstComeFirstServed(Apply(s, steps[0]), steps[1..], s', if steps[0].Get? then i - 1 else i);
    }
  }
}
