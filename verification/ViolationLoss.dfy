/** What becomes of a single report in the violation queue, and what a drop after the last retry
    loses. */
module ViolationLoss {
  import opened Json
  import opened ViolationQueue

  // ---------- What becomes of one report ----------

  /** The steps that decide about the report stored under `k`. */
  predicate Touches(s: State, step: Step, k: string)
    requires Enabled(s, step)
  {
    match step
    case Store(_, info) => Key(info) == k
    case Lookup(w) => s.workers[w].key == k
    case Drop(w) => s.workers[w].key == k
    case _ => false
  }

  /** A report nobody has looked up stays where it is until one of these steps, and which of them
      comes first decides: a lookup hands it over as it was stored, while another report under
      its key and a drop make it vanish. */
  lemma FateOfAReport(s: State, step: Step, k: string)
    requires Inv(s) && Enabled(s, step) && k in s.unseen
    ensures k in s.store
    ensures !Touches(s, step, k) ==>
              var s' := Apply(s, step); k in s'.unseen && k in s'.store && s'.store[k] == s.store[k]
    ensures Touches(s, step, k) ==>
              match step
              case Lookup(w) => Apply(s, step).workers[w] == Creating(k, s.store[k])
              case Store(_, info) => Apply(s, step).store[k] == info
              case _ => k !in Apply(s, step).store && k !in Apply(s, step).owed
  {
    assert UnseenAt(s, k) && OwedAt(s, k);
  }

  /** The first step of a run that touches the report under `k`. */
  ghost function FirstTouch(s: State, steps: seq<Step>, s': State, k: string): Option<Step>
    requires Runs(s, steps, s')
    decreases |steps|
  {
    if steps == [] then None
    else if Touches(s, steps[0], k) then Some(steps[0])
    else FirstTouch(Apply(s, steps[0]), steps[1..], s', k)
  }

  /** This step is a lookup that finds this report. */
  predicate TakesUp(s: State, step: Step, k: string, info: Info)
    requires Enabled(s, step)
  {
    step.Lookup? && s.workers[step.w].key == k && k in s.store && s.store[k] == info
  }

  /** Somewhere in the run a worker is handed this report. */
  ghost predicate TakenUp(s: State, steps: seq<Step>, s': State, k: string, info: Info)
    requires Runs(s, steps, s')
    decreases |steps|
  {
    steps != [] && (TakesUp(s, steps[0], k, info) || TakenUp(Apply(s, steps[0]), steps[1..], s', k, info))
  }

  ghost predicate NotStored(steps: seq<Step>, info: Info) {
    forall i | 0 <= i < |steps| :: !(steps[i].Store? && steps[i].info == info)
  }

  lemma {:induction false} GoneIsNotTakenUp(s: State, steps: seq<Step>, s': State, k: string, info: Info)
    requires Runs(s, steps, s') && NotStored(steps, info) && (k in s.store ==> s.store[k] != info)
    ensures !TakenUp(s, steps, s', k, info)
    decreases |steps|
  {
    if steps != [] {
      assert !(steps[0].Store? && steps[0].info == info);
      GoneIsNotTakenUp(Apply(s, steps[0]), steps[1..], s', k, info);
    }
  }

  lemma {:induction false} FateOverARun(s: State, steps: seq<Step>, s': State, k: string, info: Info)
    requires Inv(s) && Runs(s, steps, s') && NotStored(steps, info)
    requires k in s.unseen && k in s.store && s.store[k] == info && info != EMPTY
    ensures match FirstTouch(s, steps, s', k)
            case None => k in s'.unseen && k in s'.store && s'.store[k] == info && !TakenUp(s, steps, s', k, info)
            case Some(step) => TakenUp(s, steps, s', k, info) <==> step.Lookup?
    decreases |steps|
  {
    if steps != [] {
      var next := Apply(s, steps[0]);
      assert NotStored(steps[1..], info) && !(steps[0].Store? && steps[0].info == info);
      FateOfAReport(s, steps[0], k);
      if !Touches(s, steps[0], k) {
        StepKeepsInv(s, steps[0]);
        FateOverARun(next, steps[1..], s', k, info);
      } else if !steps[0].Lookup? {
        GoneIsNotTakenUp(next, steps[1..], s', k, info);
      }
    }
  }

  /** A report is handed to a worker, as it was stored, exactly if the first step after its Store
      that touches its key is a lookup; as long as there is none it waits. */
  lemma TakenUpExactly(s: State, p: nat, info: Info, steps: seq<Step>, s': State)
    requires Inv(s) && Enabled(s, Store(p, info)) && info != EMPTY
    requires Runs(Apply(s, Store(p, info)), steps, s') && NotStored(steps, info)
    ensures var stored, k := Apply(s, Store(p, info)), Key(info);
            var touch := FirstTouch(stored, steps, s', k);
            && (TakenUp(stored, steps, s', k, info) <==> touch.Some? && touch.value.Lookup?)
            && (touch.None? ==> k in s'.unseen && k in s'.store && s'.store[k] == info)
  {
    StepKeepsInv(s, Store(p, info));
    FateOverARun(Apply(s, Store(p, info)), steps, s', Key(info), info);
  }

  lemma {:induction false} FirstTouchTouches(s: State, steps: seq<Step>, s': State, k: string)
    requires Runs(s, steps, s') && FirstTouch(s, steps, s', k).Some?
    ensures var touch := FirstTouch(s, steps, s', k).value;
            touch in steps && (touch.Lookup? || touch.Drop? || (touch.Store? && Key(touch.info) == k))
    decreases |steps|
  {
    if !Touches(s, steps[0], k) {
      FirstTouchTouches(Apply(s, steps[0]), steps[1..], s', k);
    }
  }

  /** While no report on the same policy, resource and number of rules is stored, a report waits
      until its key is looked up, which hands it to a worker, or is dropped. */
  lemma OnlyTheSubjectMatters(s: State, p: nat, info: Info, steps: seq<Step>, s': State)
    requires Inv(s) && Enabled(s, Store(p, info)) && info != EMPTY && SlashFree(info)
    requires Runs(Apply(s, Store(p, info)), steps, s')
    requires forall i | 0 <= i < |steps| && steps[i].Store? ::
               SlashFree(steps[i].info) && !SameSubject(steps[i].info, info)
    ensures var stored, k := Apply(s, Store(p, info)), Key(info);
            match FirstTouch(stored, steps, s', k)
            case None => k in s'.unseen && k in s'.store && s'.store[k] == info
            case Some(touch) => (touch.Lookup? && TakenUp(stored, steps, s', k, info)) || touch.Drop?
  {
    var stored, k := Apply(s, Store(p, info)), Key(info);
    TakenUpExactly(s, p, info, steps, s');
    if FirstTouch(stored, steps, s', k).Some? {
      FirstTouchTouches(stored, steps, s', k);
      var touch := FirstTouch(stored, steps, s', k).value;
      var i :| 0 <= i < |steps| && steps[i] == touch;
      if touch.Store? {
        KeysCollideExactly(touch.info, info);
      }
    }
  }

  /** Nobody holds this report any more. */
  ghost predicate Vanished(s: State, k: string, info: Info) {
    && (k in s.store ==> s.store[k] != info)
    && (forall w | w in s.workers && s.workers[w].Creating? && s.workers[w].key == k :: s.workers[w].info != info)
  }

  /** A report that was overwritten before its lookup is never created, unless it is added
      again. */
  lemma {:induction false} VanishedIsNeverCreated(s: State, steps: seq<Step>, s': State, k: string, info: Info)
    requires Vanished(s, k, info) && Runs(s, steps, s')
    requires forall i | 0 <= i < |steps| :: !(steps[i].Store? && steps[i].info == info)
    ensures Vanished(s', k, info)
    decreases |steps|
  {
    if steps != [] {
      StaysVanished(s, steps[0], k, info);
      VanishedIsNeverCreated(Apply(s, steps[0]), steps[1..], s', k, info);
    }
  }

  lemma StaysVanished(s: State, step: Step, k: string, info: Info)
    requires Vanished(s, k, info) && Enabled(s, step) && !(step.Store? && step.info == info)
    ensures Vanished(Apply(s, step), k, info)
  {
  }

  // ---------- How often a creation is retried ----------

  /** The failed creations under a key since one succeeded, or a lookup found nothing; `n` before
      the run. */
  ghost function FailedSince(s: State, steps: seq<Step>, s': State, k: string, n: nat): nat
    requires Runs(s, steps, s')
    decreases |steps|
  {
    if steps == [] then n else FailedSince(Apply(s, steps[0]), steps[1..], s', k, Counted(s, steps[0], k, n))
  }

  function Counted(s: State, step: Step, k: string, n: nat): nat
    requires Enabled(s, step)
  {
    match step
    case Create(w, ok) => if s.workers[w].key != k then n else if ok then 0 else n + 1
    case Lookup(w) => if s.workers[w].key == k && (k !in s.store || s.store[k] == EMPTY) then 0 else n
    case _ => n
  }

  lemma StepCounts(s: State, step: Step, k: string, n: nat)
    requires Enabled(s, step) && NumRequeues(s, k) == n % 4
    ensures NumRequeues(Apply(s, step), k) == Counted(s, step, k, n) % 4
  {
  }

  lemma {:induction false} RunCounts(s: State, steps: seq<Step>, s': State, k: string, n: nat)
    requires Runs(s, steps, s') && NumRequeues(s, k) == n % 4
    ensures NumRequeues(s', k) == FailedSince(s, steps, s', k, n) % 4
    decreases |steps|
  {
    if steps != [] {
      StepCounts(s, steps[0], k, n);
      RunCounts(Apply(s, steps[0]), steps[1..], s', k, Counted(s, steps[0], k, n));
    }
  }

  /** In every run a failed creation is the end, and the report is dropped, exactly if it is the
      fourth in a row; otherwise the key comes back after a delay. */
  lemma FourthFailureDrops(s: State, steps: seq<Step>, s': State, w: nat)
    requires Initial(s) && Runs(s, steps, s') && Enabled(s', Create(w, false))
    ensures var k := s'.workers[w].key;
            var next := Apply(s', Create(w, false));
            if FailedSince(s, steps, s', k, 0) % 4 == 3 then next.workers[w] == Dropping(k)
            else next.workers[w] == Finishing(k) && k in next.delayed
  {
    RunCounts(s, steps, s', s'.workers[w].key, 0);
  }

  // ---------- What a drop loses ----------

  /** Worker `w` is not done with the key it holds. */
  ghost predicate NotDone(steps: seq<Step>, w: nat) {
    forall i | 0 <= i < |steps| :: steps[i] != Done(w)
  }

  /** The last report stored under a key. */
  function LastStored(steps: seq<Step>, k: string): Option<Info> {
    if steps == [] then None
    else
      var later := LastStored(steps[1..], k);
      if later.Some? then later
      else if steps[0].Store? && Key(steps[0].info) == k then Some(steps[0].info)
      else None
  }

  predicate AtWork(s: State, w: nat, k: string) {
    w in s.workers && s.workers[w].Holds(k) && (s.workers[w].Creating? || s.workers[w].Dropping?)
  }

  /** Nothing happened to what is stored under the key. */
  ghost predicate SameEntry(s: State, s': State, k: string) {
    && (k in s'.unseen <==> k in s.unseen)
    && (k in s'.store <==> k in s.store)
    && (k in s.store ==> s'.store[k] == s.store[k])
  }

  ghost predicate Entry(s: State, k: string, info: Info) {
    (k in s.unseen <==> info != EMPTY) && k in s.store && s.store[k] == info
  }

  lemma StoreAtWork(s: State, p: nat, info: Info, w: nat, k: string)
    requires AtWork(s, w, k) && Enabled(s, Store(p, info))
    ensures AtWork(Apply(s, Store(p, info)), w, k)
    ensures if Key(info) == k then Entry(Apply(s, Store(p, info)), k, info)
            else SameEntry(s, Apply(s, Store(p, info)), k)
  {
  }

  lemma OwnStepAtWork(s: State, step: Step, w: nat, k: string)
    requires AtWork(s, w, k) && Enabled(s, step) && (step.Create? || step.Drop?) && step.w == w
    ensures AtWork(Apply(s, step), w, k) || Apply(s, step).workers[w] == Finishing(k)
    ensures AtWork(Apply(s, step), w, k) ==> SameEntry(s, Apply(s, step), k)
  {
  }

  lemma OthersAtWork(s: State, step: Step, w: nat, k: string)
    requires HeldInv(s) && AtWork(s, w, k) && Enabled(s, step) && (step.Lookup? || step.Create? || step.Drop?)
             && step.w != w
    ensures AtWork(Apply(s, step), w, k) && SameEntry(s, Apply(s, step), k)
  {
    assert s.workers[step.w].key != k;
  }

  lemma OtherStepAtWork(s: State, step: Step, w: nat, k: string)
    requires AtWork(s, w, k) && Enabled(s, step) && step != Done(w)
    requires step.Get? || step.Enqueue? || step.Done? || step.Fire?
    ensures AtWork(Apply(s, step), w, k) && SameEntry(s, Apply(s, step), k)
  {
  }

  /** Between the lookup and the drop only new reports under the key matter. */
  lemma StepAtWork(s: State, step: Step, w: nat, k: string)
    requires HeldInv(s) && AtWork(s, w, k) && Enabled(s, step) && step != Done(w)
    ensures AtWork(Apply(s, step), w, k) || Apply(s, step).workers[w] == Finishing(k)
    ensures AtWork(Apply(s, step), w, k) ==>
              if step.Store? && Key(step.info) == k then Entry(Apply(s, step), k, step.info)
              else SameEntry(s, Apply(s, step), k)
  {
    if step.Store? {
      StoreAtWork(s, step.p, step.info, w, k);
    } else if (step.Create? || step.Drop?) && step.w == w {
      OwnStepAtWork(s, step, w, k);
    } else if step.Lookup? || step.Create? || step.Drop? {
      OthersAtWork(s, step, w, k);
    } else {
      OtherStepAtWork(s, step, w, k);
    }
  }

  lemma {:induction false} FinishingLasts(s: State, steps: seq<Step>, s': State, w: nat, k: string)
    requires Runs(s, steps, s') && NotDone(steps, w) && w in s.workers && s.workers[w] == Finishing(k)
    ensures w in s'.workers && s'.workers[w] == Finishing(k)
    decreases |steps|
  {
    if steps != [] {
      assert steps[0] != Done(w);
      FinishingLasts(Apply(s, steps[0]), steps[1..], s', w, k);
    }
  }

  lemma {:induction false} UnseenAtWork(s: State, steps: seq<Step>, s': State, w: nat, k: string)
    requires QueueInv(s) && HeldInv(s) && Runs(s, steps, s') && NotDone(steps, w) && AtWork(s, w, k)
    requires w in s'.workers && s'.workers[w].Dropping?
    ensures s'.workers[w] == Dropping(k) && AfterStores(s, LastStored(steps, k), s', k)
    decreases |steps|
  {
    if steps != [] {
      var next := FirstAtWork(s, steps, s', w, k);
      if AtWork(next, w, k) {
        UnseenAtWork(next, steps[1..], s', w, k);
        OneStoreEarlier(s, steps, next, s', k);
      } else {
        FinishingLasts(next, steps[1..], s', w, k);
      }
    }
  }

  lemma FirstAtWork(s: State, steps: seq<Step>, s': State, w: nat, k: string) returns (next: State)
    requires QueueInv(s) && HeldInv(s) && Runs(s, steps, s') && NotDone(steps, w) && AtWork(s, w, k) && steps != []
    ensures Runs(next, steps[1..], s') && NotDone(steps[1..], w) && QueueInv(next) && HeldInv(next)
    ensures AtWork(next, w, k) || (w in next.workers && next.workers[w] == Finishing(k))
    ensures AtWork(next, w, k) ==>
              if steps[0].Store? && Key(steps[0].info) == k then Entry(next, k, steps[0].info)
              else SameEntry(s, next, k)
  {
    next := Apply(s, steps[0]);
    assert steps[0] != Done(w);
    OneStepOn(s, steps[0], w, k);
  }

  lemma OneStepOn(s: State, step: Step, w: nat, k: string)
    requires QueueInv(s) && HeldInv(s) && AtWork(s, w, k) && Enabled(s, step) && step != Done(w)
    ensures QueueInv(Apply(s, step)) && HeldInv(Apply(s, step))
    ensures AtWork(Apply(s, step), w, k) || Apply(s, step).workers[w] == Finishing(k)
    ensures AtWork(Apply(s, step), w, k) ==>
              if step.Store? && Key(step.info) == k then Entry(Apply(s, step), k, step.info)
              else SameEntry(s, Apply(s, step), k)
  {
    StepAtWork(s, step, w, k);
    StepKeepsQueue(s, step);
    StepKeepsHeld(s, step);
  }

  ghost predicate AfterStores(s: State, last: Option<Info>, s': State, k: string) {
    if last.None? then SameEntry(s, s', k) else Entry(s', k, last.value)
  }

  lemma OneStoreEarlier(s: State, steps: seq<Step>, next: State, s': State, k: string)
    requires steps != [] && AfterStores(next, LastStored(steps[1..], k), s', k)
    requires if steps[0].Store? && Key(steps[0].info) == k then Entry(next, k, steps[0].info) else SameEntry(s, next, k)
    ensures AfterStores(s, LastStored(steps, k), s', k)
  {
  }

  /** From the lookup of a key to its drop after the last failed retry: the drop deletes a report
      nobody has looked up exactly if a report was stored under the key in between, and the last
      such report is not empty. */
  lemma DropLosesExactly(s: State, steps: seq<Step>, s': State, w: nat)
    requires Inv(s) && Enabled(s, Lookup(w)) && Apply(s, Lookup(w)).workers[w].Creating?
    requires Runs(Apply(s, Lookup(w)), steps, s') && NotDone(steps, w) && Enabled(s', Drop(w))
    ensures var k := s.workers[w].key;
            var last := LastStored(steps, k);
            && (k in s'.unseen <==> last.Some? && last.value != EMPTY)
            && (last.Some? ==> k in s'.store && s'.store[k] == last.value)
            && k !in Apply(s', Drop(w)).store && k !in Apply(s', Drop(w)).unseen && k !in Apply(s', Drop(w)).owed
  {
    StepKeepsInv(s, Lookup(w));
    UnseenAtWork(Apply(s, Lookup(w)), steps, s', w, s.workers[w].key);
  }

  // ---------- What the exception costs ----------

  /** One producer and one worker on one report: its key waits and has failed `n` times. */
  function Waiting(k: string, info: Info, n: nat): State {
    State(map[k := info], [k], {k}, {}, {}, if n == 0 then map[] else map[k := n],
          map[0 := Ready], map[0 := Idle], map[k := info], if n == 0 then {k} else {}, {k})
  }

  /** The worker holds the key. */
  function InWork(k: string, info: Info, n: nat, pc: Worker): State {
    Waiting(k, info, n).(queue := [], dirty := {}, processing := {k}, workers := map[0 := pc],
                         unseen := if n == 0 && pc.LookingUp? then {k} else {})
  }

  lemma {:induction false} RunsConcat(s: State, steps: seq<Step>, s': State, more: seq<Step>, s'': State)
    requires Runs(s, steps, s') && Runs(s', more, s'')
    ensures Runs(s, steps + more, s'')
    decreases |steps|
  {
    if steps == [] {
      assert steps + more == more;
    } else {
      assert (steps + more)[1..] == steps[1..] + more;
      RunsConcat(Apply(s, steps[0]), steps[1..], s', more, s'');
    }
  }

  lemma RunsOne(s: State, step: Step)
    requires Enabled(s, step)
    ensures Runs(s, [step], Apply(s, step))
  {
    assert [step][1..] == [];
  }

  lemma Fetch(k: string, info: Info, n: nat)
    requires info != EMPTY
    ensures Runs(Waiting(k, info, n), [Get(0)] + [Lookup(0)], InWork(k, info, n, Creating(k, info)))
  {
    var s0, s1, s2 := Waiting(k, info, n), InWork(k, info, n, LookingUp(k)), InWork(k, info, n, Creating(k, info));
    assert Apply(s0, Get(0)) == s1;
    assert Apply(s1, Lookup(0)) == s2;
    RunsOne(s0, Get(0));
    RunsOne(s1, Lookup(0));
    RunsConcat(s0, [Get(0)], s1, [Lookup(0)], s2);
  }

  lemma Retry(k: string, info: Info, n: nat)
    requires n < RETRY_LIMIT
    ensures Runs(InWork(k, info, n, Creating(k, info)), [Create(0, false)] + [Done(0)] + [Fire(k)],
                 Waiting(k, info, n + 1))
  {
    var s0, s1 := InWork(k, info, n, Creating(k, info)), InWork(k, info, n + 1, Finishing(k)).(delayed := {k});
    var s2 := s1.(processing := {}, workers := map[0 := Idle]);
    assert Apply(s0, Create(0, false)) == s1;
    assert Apply(s1, Done(0)) == s2;
    assert Apply(s2, Fire(k)) == Waiting(k, info, n + 1);
    RunsOne(s0, Create(0, false));
    RunsOne(s1, Done(0));
    RunsOne(s2, Fire(k));
    RunsConcat(s0, [Create(0, false)], s1, [Done(0)], s2);
    RunsConcat(s0, [Create(0, false)] + [Done(0)], s2, [Fire(k)], Waiting(k, info, n + 1));
  }

  lemma Round(k: string, info: Info, n: nat) returns (steps: seq<Step>)
    requires info != EMPTY && n < RETRY_LIMIT
    ensures Runs(Waiting(k, info, n), steps, Waiting(k, info, n + 1))
  {
    Fetch(k, info, n);
    Retry(k, info, n);
    steps := [Get(0)] + [Lookup(0)] + ([Create(0, false)] + [Done(0)] + [Fire(k)]);
    RunsConcat(Waiting(k, info, n), [Get(0)] + [Lookup(0)], InWork(k, info, n, Creating(k, info)),
               [Create(0, false)] + [Done(0)] + [Fire(k)], Waiting(k, info, n + 1));
  }

  /** A creation that keeps failing is retried up to the limit. */
  lemma {:induction false} FailTimes(k: string, info: Info, n: nat) returns (steps: seq<Step>)
    requires info != EMPTY && n <= RETRY_LIMIT
    ensures Runs(Waiting(k, info, 0), steps, Waiting(k, info, n))
  {
    if n == 0 {
      steps := [];
    } else {
      var before := FailTimes(k, info, n - 1);
      var round := Round(k, info, n - 1);
      steps := before + round;
      RunsConcat(Waiting(k, info, 0), before, Waiting(k, info, n - 1), round, Waiting(k, info, n));
    }
  }

  /** The first report is stored, enqueued, and fails up to the limit. */
  lemma FirstFails(info: Info) returns (s: State, steps: seq<Step>)
    requires info != EMPTY
    ensures Initial(s) && Runs(s, steps, InWork(Key(info), info, RETRY_LIMIT, Creating(Key(info), info)))
  {
    var k, n := Key(info), RETRY_LIMIT;
    s := Start();
    Arrival(info);
    var fails := FailTimes(k, info, n);
    steps := [Store(0, info)] + [Enqueue(0)];
    RunsConcat(s, steps, Waiting(k, info, 0), fails, Waiting(k, info, n));
    steps := steps + fails;
    Fetch(k, info, n);
    RunsConcat(s, steps, Waiting(k, info, n), [Get(0)] + [Lookup(0)], InWork(k, info, n, Creating(k, info)));
    steps := steps + ([Get(0)] + [Lookup(0)]);
  }

  function Start(): State {
    State(map[], [], {}, {}, {}, map[], map[0 := Ready], map[0 := Idle], map[], {}, {})
  }

  lemma Arrival(info: Info)
    requires info != EMPTY
    ensures Runs(Start(), [Store(0, info)] + [Enqueue(0)], Waiting(Key(info), info, 0))
  {
    var a := Apply(Start(), Store(0, info));
    assert Apply(a, Enqueue(0)) == Waiting(Key(info), info, 0);
    RunsOne(Start(), Store(0, info));
    RunsOne(a, Enqueue(0));
    RunsConcat(Start(), [Store(0, info)], a, [Enqueue(0)], Waiting(Key(info), info, 0));
  }

  /** The drop deletes whatever is stored: a second report under the key, arriving between the
      last failure and the deletion, is lost without ever being looked up. */
  lemma DropCanLoseANewReport(first: Info, second: Info) returns (s: State, steps: seq<Step>, s': State)
    requires first != EMPTY && second != EMPTY && Key(first) == Key(second)
    ensures Initial(s) && Runs(s, steps, s')
    ensures Enabled(s', Drop(0)) && Key(second) in s'.store && s'.store[Key(second)] == second
            && Key(second) in s'.unseen
    ensures Key(second) !in Apply(s', Drop(0)).store && Key(second) !in Apply(s', Drop(0)).owed
  {
    var k := Key(first);
    s, steps := FirstFails(first);
    var working := InWork(k, first, RETRY_LIMIT, Creating(k, first));
    var last;
    last, s' := LastFailure(k, first, second);
    RunsConcat(s, steps, working, last, s');
    steps := steps + last;
  }

  lemma LastFailure(k: string, first: Info, second: Info) returns (steps: seq<Step>, s': State)
    requires Key(second) == k && second != EMPTY
    ensures Runs(InWork(k, first, RETRY_LIMIT, Creating(k, first)), steps, s')
    ensures 0 in s'.workers && s'.workers[0] == Dropping(k)
    ensures k in s'.store && s'.store[k] == second && k in s'.unseen
  {
    var s := InWork(k, first, RETRY_LIMIT, Creating(k, first));
    var dropping := Apply(s, Create(0, false));
    assert dropping.workers[0] == Dropping(k) && dropping.producers == map[0 := Ready];
    s' := Apply(dropping, Store(0, second));
    RunsOne(s, Create(0, false));
    RunsOne(dropping, Store(0, second));
    steps := [Create(0, false)] + [Store(0, second)];
    RunsConcat(s, [Create(0, false)], dropping, [Store(0, second)], s');
  }

  /** A second report about the same resource with as many rules overwrites the first one before
      anyone has seen it. */
  lemma ReplacedUnseen(first: Info, second: Info) returns (s: State, steps: seq<Step>, s': State)
    requires first != EMPTY && second != EMPTY && first != second && Key(first) == Key(second)
    ensures Initial(s) && Runs(s, steps, s') && steps == [Store(0, first), Enqueue(0), Store(0, second)]
    ensures Vanished(s', Key(first), first) && Key(first) in s'.store && s'.store[Key(first)] == second
  {
    var k := Key(first);
    s := Start();
    Arrival(first);
    var waiting := Waiting(k, first, 0);
    s' := Apply(waiting, Store(0, second));
    RunsOne(waiting, Store(0, second));
    RunsConcat(s, [Store(0, first)] + [Enqueue(0)], waiting, [Store(0, second)], s');
    steps := [Store(0, first), Enqueue(0), Store(0, second)];
    assert [Store(0, first)] + [Enqueue(0)] + [Store(0, second)] == steps;
  }
}
