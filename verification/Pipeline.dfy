/** The clean-up pipeline of the init container: one goroutine generates requests, any number
    of processors handle them, one forwarder for each processor merges the results, and main
    receives them. All channels are unbuffered, so sending and receiving are one step. */
module Pipeline {

  datatype Outcome = Removed | Failed

  /** A processor waits for a request, is handling one, offers its result, or has returned and
      closed its channel. */
  datatype Processor = Receiving | Handling(req: nat) | Offering(req: nat, res: Outcome) | Returned

  datatype Forwarder = Waiting | Holding(req: nat, res: Outcome) | Over

  datatype Result = Result(req: nat, res: Outcome)

  /** Where a request that was sent is now. */
  datatype Place = InProcessor(i: nat) | InForwarder(i: nat) | Arrived(j: nat) | Abandoned

  /** Requests are the numbers below `total`. The last two fields record history: the outcome of
      every removal that was carried out, and the place of every request. */
  datatype State = State(
    total: nat,
    sent: nat,
    generated: bool,
    processors: seq<Processor>,
    forwarders: seq<Forwarder>,
    closed: bool,
    received: seq<Result>,
    failure: bool,
    stopped: bool,
    outcomes: map<nat, Outcome>,
    places: map<nat, Place>)

  datatype Step =
    | Send(i: nat)                      // the generator hands a request to processor i
    | EndOfRequests
    | StopGenerating
    | Remove(i: nat, res: Outcome)      // processor i carries out the removal
    | Offer(i: nat)                     // processor i hands its result to forwarder i
    | StopProcessing(i: nat)
    | EndOfInput(i: nat)
    | Forward(i: nat)                   // forwarder i hands a result to main
    | StopForwarding(i: nat)
    | EndOfResults(i: nat)
    | Close
    | Signal

  predicate AllOver(s: State) {
    forall i | 0 <= i < |s.forwarders| :: s.forwarders[i].Over?
  }

  predicate Enabled(s: State, step: Step) {
    match step
    case Send(i) => !s.generated && s.sent < s.total && i < |s.processors| && s.processors[i].Receiving?
    case EndOfRequests => !s.generated && s.sent == s.total
    case StopGenerating => !s.generated && s.sent < s.total && s.stopped
    case Remove(i, _) => i < |s.processors| && s.processors[i].Handling?
    case Offer(i) => i < |s.processors| && i < |s.forwarders| && s.processors[i].Offering? && s.forwarders[i].Waiting?
    case StopProcessing(i) => i < |s.processors| && s.processors[i].Offering? && s.stopped
    case EndOfInput(i) => i < |s.processors| && s.processors[i].Receiving? && s.generated
    case Forward(i) => i < |s.forwarders| && s.forwarders[i].Holding?
    case StopForwarding(i) => i < |s.forwarders| && s.forwarders[i].Holding? && s.stopped
    case EndOfResults(i) =>
      i < |s.forwarders| && i < |s.processors| && s.forwarders[i].Waiting? && s.processors[i].Returned?
    case Close => !s.closed && AllOver(s)
    case Signal => !s.stopped
  }

  function Apply(s: State, step: Step): State
    requires Enabled(s, step)
  {
    match step
    case Send(i) =>
      s.(sent := s.sent + 1, processors := s.processors[i := Handling(s.sent)],
         places := s.places[s.sent := InProcessor(i)])
    case EndOfRequests => s.(generated := true)
    case StopGenerating => s.(generated := true)
    case Remove(i, res) =>
      var req := s.processors[i].req;
      s.(processors := s.processors[i := Offering(req, res)], outcomes := s.outcomes[req := res])
    case Offer(i) =>
      var p := s.processors[i];
      s.(processors := s.processors[i := Receiving], forwarders := s.forwarders[i := Holding(p.req, p.res)],
         places := s.places[p.req := InForwarder(i)])
    case StopProcessing(i) =>
      s.(processors := s.processors[i := Returned], places := s.places[s.processors[i].req := Abandoned])
    case EndOfInput(i) => s.(processors := s.processors[i := Returned])
    case Forward(i) =>
      var f := s.forwarders[i];
      s.(forwarders := s.forwarders[i := Waiting], received := s.received + [Result(f.req, f.res)],
         failure := s.failure || f.res.Failed?, places := s.places[f.req := Arrived(|s.received|)])
    case StopForwarding(i) =>
      s.(forwarders := s.forwarders[i := Over], places := s.places[s.forwarders[i].req := Abandoned])
    case EndOfResults(i) => s.(forwarders := s.forwarders[i := Over])
    case Close => s.(closed := true)
    case Signal => s.(stopped := true)
  }

  predicate Initial(s: State) {
    && s.sent == 0 && !s.generated && !s.closed && s.received == [] && !s.failure && !s.stopped
    && |s.forwarders| == |s.processors|
    && (forall i | 0 <= i < |s.processors| :: s.processors[i].Receiving?)
    && (forall i | 0 <= i < |s.forwarders| :: s.forwarders[i].Waiting?)
    && s.outcomes == map[] && s.places == map[]
  }

  ghost predicate Runs(s: State, steps: seq<Step>, s': State)
    decreases |steps|
  {
    if steps == [] then s' == s
    else Enabled(s, steps[0]) && Runs(Apply(s, steps[0]), steps[1..], s')
  }

  // ---------- The invariant ----------

  predicate Has(p: Processor, req: nat) {
    (p.Handling? && p.req == req) || (p.Offering? && p.req == req)
  }

  predicate IsAt(s: State, req: nat, place: Place) {
    match place
    case InProcessor(i) => i < |s.processors| && Has(s.processors[i], req)
    case InForwarder(i) => i < |s.forwarders| && s.forwarders[i].Holding? && s.forwarders[i].req == req
    case Arrived(j) => j < |s.received| && s.received[j].req == req
    case Abandoned => s.stopped
  }

  ghost predicate ProcessorsPlaced(s: State) {
    forall i, req | 0 <= i < |s.processors| && Has(s.processors[i], req) ::
      req in s.places && s.places[req] == InProcessor(i)
  }

  ghost predicate ForwardersPlaced(s: State) {
    forall i | 0 <= i < |s.forwarders| && s.forwarders[i].Holding? ::
      s.forwarders[i].req in s.places && s.places[s.forwarders[i].req] == InForwarder(i)
  }

  ghost predicate ReceivedPlaced(s: State) {
    forall j | 0 <= j < |s.received| :: s.received[j].req in s.places && s.places[s.received[j].req] == Arrived(j)
  }

  ghost predicate SentPlaced(s: State) {
    && s.sent <= s.total
    && (forall req: nat | req < s.sent :: req in s.places)
    && (forall req: nat | req in s.places :: req < s.sent && IsAt(s, req, s.places[req]))
  }

  /** Every request that was sent is in exactly one place, and every place that seems to have a
      request does. */
  ghost predicate PlacesInv(s: State) {
    ProcessorsPlaced(s) && ForwardersPlaced(s) && ReceivedPlaced(s) && SentPlaced(s)
  }

  /** A removal was carried out exactly for the requests that got past handling, and what is
      passed on is its outcome. */
  ghost predicate OutcomesInv(s: State) {
    && (forall req | req in s.outcomes :: req in s.places)
    && (forall i | 0 <= i < |s.processors| ::
          && (s.processors[i].Handling? ==> s.processors[i].req !in s.outcomes)
          && (s.processors[i].Offering? ==>
                s.processors[i].req in s.outcomes && s.outcomes[s.processors[i].req] == s.processors[i].res))
    && (forall i | 0 <= i < |s.forwarders| && s.forwarders[i].Holding? ::
          s.forwarders[i].req in s.outcomes && s.outcomes[s.forwarders[i].req] == s.forwarders[i].res)
    && (forall j | 0 <= j < |s.received| ::
          s.received[j].req in s.outcomes && s.outcomes[s.received[j].req] == s.received[j].res)
    && (s.failure <==> exists j | 0 <= j < |s.received| :: s.received[j].res.Failed?)
  }

  /** Goroutines return in order: the generator first, then processors, forwarders and the
      closing goroutine, unless a signal cut them short. */
  ghost predicate OrderInv(s: State) {
    && (s.generated && !s.stopped ==> s.sent == s.total)
    && (forall i | 0 <= i < |s.processors| && s.processors[i].Returned? :: s.generated || s.stopped)
    && (|s.processors| == |s.forwarders|)
    && (forall i | 0 <= i < |s.forwarders| && s.forwarders[i].Over? :: s.processors[i].Returned? || s.stopped)
    && (s.closed ==> AllOver(s))
  }

  ghost predicate Inv(s: State) {
    PlacesInv(s) && OutcomesInv(s) && OrderInv(s)
  }

  lemma SendKeepsPlaces(s: State, i: nat)
    requires PlacesInv(s) && Enabled(s, Send(i))
    ensures PlacesInv(Apply(s, Send(i)))
  {
    var s' := Apply(s, Send(i));
    assert s.sent !in s.places;
    forall req: nat | req in s'.places ensures req < s'.sent && IsAt(s', req, s'.places[req]) {
      assert req in s.places ==> IsAt(s, req, s.places[req]);
    }
  }

  lemma RemoveKeepsPlaces(s: State, i: nat, res: Outcome)
    requires PlacesInv(s) && Enabled(s, Remove(i, res))
    ensures PlacesInv(Apply(s, Remove(i, res)))
  {
    var s' := Apply(s, Remove(i, res));
    assert Has(s.processors[i], s.processors[i].req);
    forall req: nat | req in s'.places ensures req < s'.sent && IsAt(s', req, s'.places[req]) {
      assert req in s.places ==> IsAt(s, req, s.places[req]);
    }
  }

  lemma OfferKeepsPlaces(s: State, i: nat)
    requires PlacesInv(s) && Enabled(s, Offer(i))
    ensures PlacesInv(Apply(s, Offer(i)))
  {
    var s' := Apply(s, Offer(i));
    assert Has(s.processors[i], s.processors[i].req) && s.places[s.processors[i].req] == InProcessor(i);
    forall req: nat | req in s'.places ensures req < s'.sent && IsAt(s', req, s'.places[req]) {
      assert req in s.places ==> IsAt(s, req, s.places[req]);
    }
  }

  lemma ForwardKeepsPlaces(s: State, i: nat)
    requires PlacesInv(s) && Enabled(s, Forward(i))
    ensures PlacesInv(Apply(s, Forward(i)))
  {
    var s' := Apply(s, Forward(i));
    assert s.places[s.forwarders[i].req] == InForwarder(i);
    forall req: nat | req in s'.places ensures req < s'.sent && IsAt(s', req, s'.places[req]) {
      assert req in s.places ==> IsAt(s, req, s.places[req]);
    }
  }

  lemma StopProcessingKeepsPlaces(s: State, i: nat)
    requires PlacesInv(s) && Enabled(s, StopProcessing(i))
    ensures PlacesInv(Apply(s, StopProcessing(i)))
  {
    var s' := Apply(s, StopProcessing(i));
    var gone := s.processors[i].req;
    assert Has(s.processors[i], gone) && s.places[gone] == InProcessor(i);
    forall k, req | 0 <= k < |s'.processors| && Has(s'.processors[k], req)
      ensures req in s'.places && s'.places[req] == InProcessor(k)
    {
      assert Has(s.processors[k], req) && s.places[req] == InProcessor(k);
    }
    forall req: nat | req in s.places ensures IsAt(s', req, s'.places[req]) {
      assert IsAt(s, req, s.places[req]);
    }
  }

  lemma StopForwardingKeepsPlaces(s: State, i: nat)
    requires PlacesInv(s) && Enabled(s, StopForwarding(i))
    ensures PlacesInv(Apply(s, StopForwarding(i)))
  {
    var s' := Apply(s, StopForwarding(i));
    forall req: nat | req in s.places ensures IsAt(s', req, s'.places[req]) {
      assert IsAt(s, req, s.places[req]);
    }
  }

  lemma EndOfInputKeepsPlaces(s: State, i: nat)
    requires PlacesInv(s) && Enabled(s, EndOfInput(i))
    ensures PlacesInv(Apply(s, EndOfInput(i)))
  {
    var s' := Apply(s, EndOfInput(i));
    forall req: nat | req in s.places ensures IsAt(s', req, s.places[req]) {
      assert IsAt(s, req, s.places[req]);
    }
  }

  lemma EndOfResultsKeepsPlaces(s: State, i: nat)
    requires PlacesInv(s) && Enabled(s, EndOfResults(i))
    ensures PlacesInv(Apply(s, EndOfResults(i)))
  {
    var s' := Apply(s, EndOfResults(i));
    forall req: nat | req in s.places ensures IsAt(s', req, s.places[req]) {
      assert IsAt(s, req, s.places[req]);
    }
  }

  /** Nothing changes hands. */
  predicate OnlyFlags(step: Step) {
    step.EndOfRequests? || step.StopGenerating? || step.Close? || step.Signal?
  }

  lemma FlagsOnly(s: State, step: Step)
    requires Enabled(s, step) && OnlyFlags(step)
    ensures var s' := Apply(s, step);
            && s'.total == s.total && s'.sent == s.sent && s'.processors == s.processors
            && s'.forwarders == s.forwarders
            && s'.received == s.received && s'.failure == s.failure && s'.outcomes == s.outcomes
            && s'.places == s.places
            && (s.stopped ==> s'.stopped)
  {
  }

  lemma FlagKeepsPlaces(s: State, step: Step)
    requires PlacesInv(s) && Enabled(s, step) && OnlyFlags(step)
    ensures PlacesInv(Apply(s, step))
  {
    FlagsOnly(s, step);
    var s' := Apply(s, step);
    forall req: nat | req in s.places ensures IsAt(s', req, s.places[req]) {
      assert IsAt(s, req, s.places[req]);
    }
  }

  lemma StepKeepsPlaces(s: State, step: Step)
    requires PlacesInv(s) && Enabled(s, step)
    ensures PlacesInv(Apply(s, step))
  {
    match step
    case Send(i) => SendKeepsPlaces(s, i);
    case Remove(i, res) => RemoveKeepsPlaces(s, i, res);
    case Offer(i) => OfferKeepsPlaces(s, i);
    case Forward(i) => ForwardKeepsPlaces(s, i);
    case StopProcessing(i) => StopProcessingKeepsPlaces(s, i);
    case StopForwarding(i) => StopForwardingKeepsPlaces(s, i);
    case EndOfInput(i) => EndOfInputKeepsPlaces(s, i);
    case EndOfResults(i) => EndOfResultsKeepsPlaces(s, i);
    case _ => FlagKeepsPlaces(s, step);
  }

  lemma RemoveKeepsOutcomes(s: State, i: nat, res: Outcome)
    requires PlacesInv(s) && OutcomesInv(s) && Enabled(s, Remove(i, res))
    ensures OutcomesInv(Apply(s, Remove(i, res)))
  {
    var req := s.processors[i].req;
    assert Has(s.processors[i], req) && s.places[req] == InProcessor(i);
    forall k | 0 <= k < |s.processors| && k != i && !s.processors[k].Receiving? && !s.processors[k].Returned?
      ensures s.processors[k].req != req
    {
      assert Has(s.processors[k], s.processors[k].req);
    }
  }

  lemma ForwardKeepsOutcomes(s: State, i: nat)
    requires PlacesInv(s) && OutcomesInv(s) && Enabled(s, Forward(i))
    ensures OutcomesInv(Apply(s, Forward(i)))
  {
    var s' := Apply(s, Forward(i));
    assert s'.received[|s.received|].res == s.forwarders[i].res;
    assert forall j | 0 <= j < |s.received| :: s'.received[j] == s.received[j];
  }

  lemma SendKeepsOutcomes(s: State, i: nat)
    requires PlacesInv(s) && OutcomesInv(s) && Enabled(s, Send(i))
    ensures OutcomesInv(Apply(s, Send(i)))
  {
    assert s.sent !in s.outcomes;
  }

  lemma OfferKeepsOutcomes(s: State, i: nat)
    requires OutcomesInv(s) && Enabled(s, Offer(i))
    ensures OutcomesInv(Apply(s, Offer(i)))
  {
    assert Apply(s, Offer(i)).received == s.received;
  }

  /** A processor or a forwarder returns. */
  predicate OnlyReturns(step: Step) {
    step.StopProcessing? || step.EndOfInput? || step.StopForwarding? || step.EndOfResults?
  }

  lemma ReturnKeepsOutcomes(s: State, step: Step)
    requires PlacesInv(s) && OutcomesInv(s) && Enabled(s, step) && OnlyReturns(step)
    ensures OutcomesInv(Apply(s, step))
  {
    var s' := Apply(s, step);
    assert s'.received == s.received && s'.outcomes == s.outcomes;
    assert step.StopProcessing? ==> Has(s.processors[step.i], s.processors[step.i].req);
    forall req | req in s'.outcomes ensures req in s'.places {
    }
  }

  lemma FlagKeepsOutcomes(s: State, step: Step)
    requires OutcomesInv(s) && Enabled(s, step) && OnlyFlags(step)
    ensures OutcomesInv(Apply(s, step))
  {
    FlagsOnly(s, step);
  }

  lemma StepKeepsOutcomes(s: State, step: Step)
    requires PlacesInv(s) && OutcomesInv(s) && Enabled(s, step)
    ensures OutcomesInv(Apply(s, step))
  {
    match step
    case Send(i) => SendKeepsOutcomes(s, i);
    case Remove(i, res) => RemoveKeepsOutcomes(s, i, res);
    case Offer(i) => OfferKeepsOutcomes(s, i);
    case Forward(i) => ForwardKeepsOutcomes(s, i);
    case StopProcessing(_) => ReturnKeepsOutcomes(s, step);
    case EndOfInput(_) => ReturnKeepsOutcomes(s, step);
    case StopForwarding(_) => ReturnKeepsOutcomes(s, step);
    case EndOfResults(_) => ReturnKeepsOutcomes(s, step);
    case _ => FlagKeepsOutcomes(s, step);
  }

  lemma StepKeepsOrder(s: State, step: Step)
    requires OrderInv(s) && Enabled(s, step)
    ensures OrderInv(Apply(s, step))
  {
  }

  lemma InitialInv(s: State)
    requires Initial(s)
    ensures Inv(s)
  {
  }

  lemma StepKeepsInv(s: State, step: Step)
    requires Inv(s) && Enabled(s, step)
    ensures Inv(Apply(s, step))
    ensures Apply(s, step).total == s.total && |Apply(s, step).processors| == |s.processors|
  {
    StepKeepsPlaces(s, step);
    StepKeepsOutcomes(s, step);
    StepKeepsOrder(s, step);
  }

  lemma {:induction false} RunsKeepInv(s: State, steps: seq<Step>, s': State)
    requires (Initial(s) || Inv(s)) && Runs(s, steps, s')
    ensures Inv(s') && s'.total == s.total && |s'.processors| == |s.processors|
    decreases |steps|
  {
    if steps != [] {
      if Initial(s) {
        InitialInv(s);
      }
      StepKeepsInv(s, steps[0]);
      RunsKeepInv(Apply(s, steps[0]), steps[1..], s');
    }
  }

  // ---------- What main can rely on ----------

  /** A removal is carried out at most once for each request: the processor that is about to do
      it has a request nobody has handled. */
  lemma HandledOnce(s: State, i: nat, res: Outcome)
    requires Inv(s) && Enabled(s, Remove(i, res))
    ensures s.processors[i].req !in s.outcomes
    ensures forall k | 0 <= k < |s.processors| && Has(s.processors[k], s.processors[i].req) :: k == i
  {
    var req := s.processors[i].req;
    assert Has(s.processors[i], req) && s.places[req] == InProcessor(i);
    forall k | 0 <= k < |s.processors| && Has(s.processors[k], req) ensures k == i {
      assert s.places[req] == InProcessor(k);
    }
  }

  /** Nobody sends on a channel that its owner has closed. */
  lemma NothingIsSentOnAClosedChannel(s: State, step: Step)
    requires Inv(s) && Enabled(s, step)
    ensures match step
            case Send(_) => !s.generated
            case Offer(i) => !s.processors[i].Returned?
            case Forward(_) => !s.closed
            case _ => true
  {
  }

  ghost predicate Answered(results: seq<Result>, req: nat) {
    exists j | 0 <= j < |results| :: results[j].req == req
  }

  /** Once the merged channel is closed, and unless a signal came, main has received exactly
      one result for every request, each the outcome of its removal, and the failure flag says
      whether any of them failed. */
  lemma ClosedMeansDone(s: State, steps: seq<Step>, s': State)
    requires Initial(s) && Runs(s, steps, s') && |s.processors| > 0
    requires s'.closed && !s'.stopped
    ensures |s'.received| == s.total
    ensures forall req: nat | req < s.total :: Answered(s'.received, req)
    ensures forall j, k | 0 <= j < k < |s'.received| :: s'.received[j].req != s'.received[k].req
    ensures forall j | 0 <= j < |s'.received| ::
              s'.received[j].req in s'.outcomes && s'.outcomes[s'.received[j].req] == s'.received[j].res
    ensures forall req: nat :: req in s'.outcomes <==> req < s.total
    ensures s'.failure <==> exists req | req in s'.outcomes :: s'.outcomes[req].Failed?
  {
    RunsKeepInv(s, steps, s');
    assert s'.forwarders[0].Over? && s'.processors[0].Returned? && s'.sent == s'.total;
    forall req: nat | req < s'.total
      ensures Answered(s'.received, req)
      ensures req in s'.outcomes
    {
      assert IsAt(s', req, s'.places[req]);
      var j := s'.places[req].j;
      assert s'.received[j].req == req;
    }
    forall j, k | 0 <= j < k < |s'.received| ensures s'.received[j].req != s'.received[k].req {
      assert s'.places[s'.received[j].req] == Arrived(j);
    }
    DistinctCount(s'.received, s'.total);
    if req :| req in s'.outcomes && s'.outcomes[req].Failed? {
      assert Answered(s'.received, req);
      var j :| 0 <= j < |s'.received| && s'.received[j].req == req;
      assert s'.received[j].res.Failed?;
    }
  }

  ghost predicate AllDifferent(results: seq<Result>) {
    forall j, k | 0 <= j < k < |results| :: results[j].req != results[k].req
  }

  function Without(results: seq<Result>, j: nat): (rest: seq<Result>)
    requires j < |results|
    ensures |rest| == |results| - 1
    ensures forall k | 0 <= k < |rest| :: rest[k] == results[if k < j then k else k + 1]
  {
    results[..j] + results[j + 1..]
  }

  lemma WithoutAnswers(results: seq<Result>, j: nat, req: nat)
    requires j < |results| && Answered(results, req) && results[j].req != req
    ensures Answered(Without(results, j), req)
  {
    var k :| 0 <= k < |results| && results[k].req == req;
    assert Without(results, j)[if k < j then k else k - 1] == results[k];
  }

  lemma WithoutDifferent(results: seq<Result>, j: nat, n: nat)
    requires j < |results| && AllDifferent(results) && results[j].req == n
    requires forall k | 0 <= k < |results| :: results[k].req <= n
    ensures AllDifferent(Without(results, j))
    ensures forall k | 0 <= k < |results| - 1 :: Without(results, j)[k].req < n
  {
    var rest := Without(results, j);
    forall k | 0 <= k < |rest| ensures rest[k].req < n {
      assert rest[k] == results[if k < j then k else k + 1];
    }
  }

  /** Distinct requests below a bound, all of them present, are as many as the bound. */
  lemma {:induction false} DistinctCount(results: seq<Result>, n: nat)
    requires forall req: nat | req < n :: Answered(results, req)
    requires forall j | 0 <= j < |results| :: results[j].req < n
    requires AllDifferent(results)
    ensures |results| == n
    decreases n
  {
    assert results != [] ==> results[0].req < n;
    if n > 0 {
      assert Answered(results, n - 1);
      var j :| 0 <= j < |results| && results[j].req == n - 1;
      forall req: nat | req < n - 1 ensures Answered(Without(results, j), req) {
        WithoutAnswers(results, j, req);
      }
      WithoutDifferent(results, j, n - 1);
      DistinctCount(Without(results, j), n - 1);
    }
  }

  /** Until the merged channel is closed something other than a signal can happen. */
  lemma NeverStuck(s: State) returns (step: Step)
    requires Inv(s) && !s.closed
    ensures Enabled(s, step) && !step.Signal?
  {
    if f :| 0 <= f < |s.forwarders| && s.forwarders[f].Holding? {
      step := Forward(f);
    } else if p :| 0 <= p < |s.processors| && s.processors[p].Handling? {
      step := Remove(p, Removed);
    } else if p :| 0 <= p < |s.processors| && s.processors[p].Offering? {
      step := if s.forwarders[p].Waiting? then Offer(p) else StopProcessing(p);
    } else if p :| 0 <= p < |s.processors| && s.processors[p].Receiving? {
      step := if s.generated then EndOfInput(p) else if s.sent == s.total then EndOfRequests else Send(p);
    } else if f :| 0 <= f < |s.forwarders| && s.forwarders[f].Waiting? {
      step := EndOfResults(f);
    } else {
      step := Close;
    }
  }

  // ---------- Every run comes to an end ----------

  function ProcessorWork(p: Processor): nat {
    match p
    case Receiving => 1
    case Handling(_) => 7
    case Offering(_, _) => 6
    case Returned => 0
  }

  function ForwarderWork(f: Forwarder): nat {
    match f
    case Waiting => 1
    case Holding(_, _) => 3
    case Over => 0
  }

  function Processing(ps: seq<Processor>): nat {
    if ps == [] then 0 else Processing(ps[..|ps| - 1]) + ProcessorWork(ps[|ps| - 1])
  }

  function Forwarding(fs: seq<Forwarder>): nat {
    if fs == [] then 0 else Forwarding(fs[..|fs| - 1]) + ForwarderWork(fs[|fs| - 1])
  }

  lemma {:induction false} ProcessorChanges(ps: seq<Processor>, i: nat, p: Processor)
    requires i < |ps|
    ensures Processing(ps[i := p]) + ProcessorWork(ps[i]) == Processing(ps) + ProcessorWork(p)
    decreases |ps|
  {
    var n := |ps| - 1;
    if i == n {
      assert ps[i := p][..n] == ps[..n];
    } else {
      ProcessorChanges(ps[..n], i, p);
      assert ps[i := p][..n] == ps[..n][i := p];
    }
  }

  lemma {:induction false} ForwarderChanges(fs: seq<Forwarder>, i: nat, f: Forwarder)
    requires i < |fs|
    ensures Forwarding(fs[i := f]) + ForwarderWork(fs[i]) == Forwarding(fs) + ForwarderWork(f)
    decreases |fs|
  {
    var n := |fs| - 1;
    if i == n {
      assert fs[i := f][..n] == fs[..n];
    } else {
      ForwarderChanges(fs[..n], i, f);
      assert fs[i := f][..n] == fs[..n][i := f];
    }
  }

  /** What is left to do. */
  function Work(s: State): nat
    requires s.sent <= s.total
  {
    10 * (s.total - s.sent) + Processing(s.processors) + Forwarding(s.forwarders)
    + (if s.generated then 0 else 1) + (if s.closed then 0 else 1) + (if s.stopped then 0 else 1)
  }

  /** Every step leaves less to do. */
  lemma StepsDoWork(s: State, step: Step)
    requires s.sent <= s.total && Enabled(s, step)
    ensures Apply(s, step).sent <= Apply(s, step).total && Work(Apply(s, step)) < Work(s)
  {
    match step
    case Offer(i) => OfferDoesWork(s, i);
    case Forward(i) => ForwardersDoWork(s, step, i);
    case StopForwarding(i) => ForwardersDoWork(s, step, i);
    case EndOfResults(i) => ForwardersDoWork(s, step, i);
    case Send(i) => ProcessorsDoWork(s, step, i);
    case Remove(i, _) => ProcessorsDoWork(s, step, i);
    case StopProcessing(i) => ProcessorsDoWork(s, step, i);
    case EndOfInput(i) => ProcessorsDoWork(s, step, i);
    case _ =>
  }

  lemma OfferDoesWork(s: State, i: nat)
    requires s.sent <= s.total && Enabled(s, Offer(i))
    ensures Work(Apply(s, Offer(i))) < Work(s)
  {
    var s' := Apply(s, Offer(i));
    ProcessorChanges(s.processors, i, s'.processors[i]);
    ForwarderChanges(s.forwarders, i, s'.forwarders[i]);
  }

  lemma ForwardersDoWork(s: State, step: Step, i: nat)
    requires s.sent <= s.total && Enabled(s, step)
    requires step in {Forward(i), StopForwarding(i), EndOfResults(i)}
    ensures Apply(s, step).sent <= Apply(s, step).total && Work(Apply(s, step)) < Work(s)
  {
    ForwarderChanges(s.forwarders, i, Apply(s, step).forwarders[i]);
  }

  lemma ProcessorsDoWork(s: State, step: Step, i: nat)
    requires s.sent <= s.total && Enabled(s, step)
    requires step == Send(i) || (step.Remove? && step.i == i) || step == StopProcessing(i) || step == EndOfInput(i)
    ensures Apply(s, step).sent <= Apply(s, step).total && Work(Apply(s, step)) < Work(s)
  {
    ProcessorChanges(s.processors, i, Apply(s, step).processors[i]);
  }

  /** No run is longer than the work it starts with, and one that cannot go on has closed the
      merged channel. */
  lemma {:induction false} RunsEndClosed(s: State, steps: seq<Step>, s': State)
    requires (Initial(s) || Inv(s)) && Runs(s, steps, s')
    ensures s.sent <= s.total && |steps| <= Work(s)
    ensures (forall step | Enabled(s', step) :: step.Signal?) ==> s'.closed
    decreases |steps|
  {
    if Initial(s) {
      InitialInv(s);
    }
    if steps == [] {
      if !s.closed {
        var step := NeverStuck(s);
      }
    } else {
      StepKeepsInv(s, steps[0]);
      StepsDoWork(s, steps[0]);
      RunsEndClosed(Apply(s, steps[0]), steps[1..], s');
    }
  }

  // ---------- After a signal ----------

  /** A step that hands nothing on: no request to a processor, no result to a forwarder or to main. */
  predicate HandsNothingOn(step: Step) {
    !step.Send? && !step.Offer? && !step.Forward? && !step.Signal?
  }

  /** After a signal everything can come to its end without handing anything on. */
  lemma CanStop(s: State) returns (step: Step)
    requires Inv(s) && s.stopped && !s.closed
    ensures Enabled(s, step) && HandsNothingOn(step)
  {
    if !s.generated {
      step := if s.sent == s.total then EndOfRequests else StopGenerating;
    } else if p :| 0 <= p < |s.processors| && s.processors[p].Handling? {
      step := Remove(p, Removed);
    } else if p :| 0 <= p < |s.processors| && s.processors[p].Offering? {
      step := StopProcessing(p);
    } else if p :| 0 <= p < |s.processors| && s.processors[p].Receiving? {
      step := EndOfInput(p);
    } else if f :| 0 <= f < |s.forwarders| && s.forwarders[f].Holding? {
      step := StopForwarding(f);
    } else if f :| 0 <= f < |s.forwarders| && s.forwarders[f].Waiting? {
      step := EndOfResults(f);
    } else {
      step := Close;
    }
  }

  /** So from every state of every run a signal leads to the merged channel being closed, with
      what main has received by then. */
  lemma {:induction false} SignalShutsDown(s: State) returns (steps: seq<Step>, s': State)
    requires Inv(s) && s.stopped
    ensures Runs(s, steps, s') && s'.closed && s'.received == s.received && s'.sent == s.sent
    ensures forall i | 0 <= i < |steps| :: HandsNothingOn(steps[i])
    decreases Work(s)
  {
    if s.closed {
      steps, s' := [], s;
    } else {
      var step := CanStop(s);
      StepKeepsInv(s, step);
      StepsDoWork(s, step);
      var rest;
      rest, s' := SignalShutsDown(Apply(s, step));
      steps := [step] + rest;
      assert steps[1..] == rest;
    }
  }

  lemma SignalsAreTaken(s: State) returns (steps: seq<Step>, s': State)
    requires Inv(s) && !s.stopped
    ensures Runs(s, steps, s') && s'.closed && s'.received == s.received && s'.sent == s.sent
    ensures steps != [] && steps[0] == Signal && forall i | 0 < i < |steps| :: HandsNothingOn(steps[i])
  {
    StepKeepsInv(s, Signal);
    var rest;
    rest, s' := SignalShutsDown(Apply(s, Signal));
    steps := [Signal] + rest;
    assert steps[1..] == rest;
  }
}
