/**
 The capacity of the decision service under concurrent requests: a bounded semaphore
 acquired without blocking and released when the predictor returns or raises. A step
 is one request arriving, or one predictor call ending, in any order.
 */
module DecisionCapacity {
  import opened Optional
  import opened RankQuantiles
  import opened DecisionService

  type CallId = nat

  /** What the requests are, and the service they go to. */
  datatype Service = Service(settings: Settings, model: Model, requests: CallId -> DecisionRequest, slots: nat)

  datatype State = State(free: nat, inFlight: set<CallId>, results: map<CallId, DecisionResult>)

  datatype Step =
    | Arrive(call: CallId)
    | Return(call: CallId, forward: Option<real>)   // None: the model raised

  ghost predicate ServiceOk(v: Service) { SettingsOk(v.settings) && v.slots >= 1 }

  function Init(v: Service): State { State(v.slots, {}, map[]) }

  predicate Enabled(s: State, step: Step) {
    match step
    case Arrive(call) => call !in s.inFlight && call !in s.results
    case Return(call, _) => call in s.inFlight
  }

  function Apply(v: Service, s: State, step: Step): State
    requires Enabled(s, step) && (v.settings.mapper.Some? ==> Accepted(v.settings.mapper.value.manifest))
  {
    var a := v.settings;
    match step
    case Arrive(call) =>
      var req := v.requests(call);
      if !a.ready then s.(results := s.results[call := Fault(503, "not_ready", true)])
      else
        (match AbstainConfidence(a.gate, req)
         case Some(confidence) => s.(results := s.results[call := BuildResponse(a, req, confidence, false, None)])
         case None =>
           if s.free == 0 then s.(results := s.results[call := Fault(429, "rate_limited", true)])
           else s.(free := s.free - 1, inFlight := s.inFlight + {call}))
    case Return(call, forward) =>
      var req := v.requests(call);
      var result := match Predict(v.model, req, forward)
        case None => Fault(503, "internal_error", true)
        case Some(p) => BuildResponse(a, req, p.confidence, false, Some(p.score));
      s.(free := s.free + 1, inFlight := s.inFlight - {call}, results := s.results[call := result])
  }

  /** No slot is lost or made: those free and those held are always all of them. */
  ghost predicate Inv(v: Service, s: State) {
    && s.free + |s.inFlight| == v.slots
    && s.inFlight !! s.results.Keys
    && (forall call :: call in s.inFlight ==> v.settings.ready && AbstainConfidence(v.settings.gate, v.requests(call)).None?)
  }

  lemma StepKeepsInv(v: Service, s: State, step: Step)
    requires ServiceOk(v) && Inv(v, s) && Enabled(s, step)
    ensures Inv(v, Apply(v, s, step))
  {
    hide BuildResponse, Predict, AbstainConfidence, Accepted;
  }

  /** A result, once given, stays. */
  lemma ResultsStay(v: Service, s: State, step: Step, call: CallId)
    requires ServiceOk(v) && Inv(v, s) && Enabled(s, step) && call in s.results
    ensures var s' := Apply(v, s, step); call in s'.results && s'.results[call] == s.results[call]
  {
    hide BuildResponse, Predict, AbstainConfidence, Accepted;
  }

  predicate Executable(v: Service, s: State, steps: seq<Step>)
    requires v.settings.mapper.Some? ==> Accepted(v.settings.mapper.value.manifest)
    decreases |steps|
  {
    steps == [] || (Enabled(s, steps[0]) && Executable(v, Apply(v, s, steps[0]), steps[1..]))
  }

  function Execute(v: Service, s: State, steps: seq<Step>): State
    requires v.settings.mapper.Some? ==> Accepted(v.settings.mapper.value.manifest)
    requires Executable(v, s, steps)
    decreases |steps|
  {
    if steps == [] then s else Execute(v, Apply(v, s, steps[0]), steps[1..])
  }

  /** Over every interleaving slots are conserved; once no call is in flight they are all free again. */
  lemma {:induction false} CapacityConserved(v: Service, s: State, steps: seq<Step>)
    requires ServiceOk(v) && Inv(v, s) && Executable(v, s, steps)
    ensures var e := Execute(v, s, steps);
      Inv(v, e) && (e.inFlight == {} ==> e.free == v.slots)
    decreases |steps|
  {
    hide Apply, Accepted;
    if steps != [] {
      StepKeepsInv(v, s, steps[0]);
      CapacityConserved(v, Apply(v, s, steps[0]), steps[1..]);
    }
  }

  /** In particular from the start, when every slot is free. */
  lemma CapacityConservedFromStart(v: Service, steps: seq<Step>)
    requires ServiceOk(v) && Executable(v, Init(v), steps)
    ensures var e := Execute(v, Init(v), steps);
      Inv(v, e) && (e.inFlight == {} ==> e.free == v.slots)
  {
    hide Execute, Executable, Accepted;
    CapacityConserved(v, Init(v), steps);
  }

  /**
   What a call is answered, and when it is refused: the answer is `Decide` of whether a
   slot was free when the call arrived, and it is rate limited exactly when it needs the
   model and every slot is held by another call.
   */
  lemma ArrivalIsDecided(v: Service, s: State, call: CallId, forward: Option<real>)
    requires ServiceOk(v) && Inv(v, s) && Enabled(s, Arrive(call))
    ensures var s' := Apply(v, s, Arrive(call));
      var req := v.requests(call);
      && (call in s'.results ==> s'.results[call] == Decide(v.settings, v.model, req, forward, s.free > 0))
      && (call in s'.results && s'.results[call] == Fault(429, "rate_limited", true) <==>
            v.settings.ready && AbstainConfidence(v.settings.gate, req).None? && |s.inFlight| == v.slots)
  {
    hide Predict, AbstainConfidence, Accepted, EstimatedTokens;
  }

  /** A call that got a slot is answered as `Decide` with a free slot, whatever the others do meanwhile. */
  lemma ReturnIsDecided(v: Service, s: State, call: CallId, forward: Option<real>)
    requires ServiceOk(v) && Inv(v, s) && Enabled(s, Return(call, forward))
    ensures var s' := Apply(v, s, Return(call, forward));
      call in s'.results && s'.results[call] == Decide(v.settings, v.model, v.requests(call), forward, true)
  {
    hide Predict, AbstainConfidence, Accepted, BuildResponse;
  }
}
