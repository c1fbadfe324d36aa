/**
 From a rank score to a place in the engine's queue: the decision service's response,
 through the gateway, into the metadata of an engine request, to the prediction that
 the scheduler sorts by.
 */
module DecisionPipeline {
  import opened Optional
  import opened Orders
  import opened Sorting
  import opened RankQuantiles
  import opened DecisionService
  import opened GatewayTransport
  import opened ToolStrata
  import opened Policies
  import opened RuleCTheorems

  // ----- the engine's side -----

  /** `key.removeprefix("ltr_")`. */
  function RemovePrefix(key: string): string {
    if "ltr_" <= key then key[4..] else key
  }

  /** Later entries win when two keys fall together. */
  function MetadataOf(xargs: Dict): map<string, Cell> {
    if xargs == [] then map[]
    else
      var n := |xargs| - 1;
      MetadataOf(xargs[..n])[RemovePrefix(xargs[n].key) := xargs[n].value]
  }

  /** Trace headers in order, and how names are lower-cased. */
  datatype Headers = Headers(entries: seq<Header>, lower: string -> string)
  datatype Header = Header(name: string, text: string)

  /** `.replace("-", "_")`. */
  function Underscored(name: string): (r: string)
    ensures |r| == |name| && forall i :: 0 <= i < |r| ==> r[i] == if name[i] == '-' then '_' else name[i]
  {
    seq(|name|, i requires 0 <= i < |name| => if name[i] == '-' then '_' else name[i])
  }

  /** `key.lower().removeprefix("x-ltr-").replace("-", "_")`. */
  function HeaderName(name: string, lower: string -> string): string {
    var low := lower(name);
    Underscored(if "x-ltr-" <= low then low[6..] else low)
  }

  function HeaderMetadata(h: Headers): map<string, Cell>
    decreases |h.entries|
  {
    if h.entries == [] then map[]
    else
      var n := |h.entries| - 1;
      HeaderMetadata(Headers(h.entries[..n], h.lower))[HeaderName(h.entries[n].name, h.lower) := Text(h.entries[n].text)]
  }

  /** `_request_metadata`: headers first, engine arguments over them. */
  method RequestMetadata(headers: Headers, xargs: Dict) returns (metadata: map<string, Cell>)
    ensures metadata == HeaderMetadata(headers) + MetadataOf(xargs)
  {
    hide HeaderName;
    metadata := map[];
    for k := 0 to |headers.entries|
      invariant metadata == HeaderMetadata(Headers(headers.entries[..k], headers.lower))
    {
      assert headers.entries[..k + 1][..k] == headers.entries[..k];
      var h := headers.entries[k];
      metadata := metadata[HeaderName(h.name, headers.lower) := Text(h.text)];
    }
    assert headers.entries[..|headers.entries|] == headers.entries;
    assert Headers(headers.entries, headers.lower) == headers;
    for k := 0 to |xargs|
      invariant metadata == HeaderMetadata(headers) + MetadataOf(xargs[..k])
    {
      assert xargs[..k + 1][..k] == xargs[..k];
      metadata := metadata[RemovePrefix(xargs[k].key) := xargs[k].value];
    }
    assert xargs[..|xargs|] == xargs;
  }

  lemma MergeThenUpdate(m: map<string, Cell>, n: map<string, Cell>, key: string, value: Cell)
    ensures (m + n)[key := value] == m + n[key := value]
  {
  }

  lemma {:induction false} MetadataOfAppend(a: Dict, b: Dict)
    ensures MetadataOf(a + b) == MetadataOf(a) + MetadataOf(b)
  {
    hide RemovePrefix;
    if b == [] {
      assert a + b == a;
    } else {
      var n := |b| - 1;
      MetadataOfAppend(a, b[..n]);
      assert (a + b)[..|a| + n] == a + b[..n];
      MergeThenUpdate(MetadataOf(a), MetadataOf(b[..n]), RemovePrefix(b[n].key), b[n].value);
    }
  }

  lemma MetadataOfLast(d: Dict, e: Entry)
    ensures MetadataOf(d + [e]) == MetadataOf(d)[RemovePrefix(e.key) := e.value]
  {
    hide RemovePrefix;
    assert (d + [e])[..|d|] == d;
  }

  /** The last entry that comes to a name provides its metadata. */
  lemma {:induction false} LastArgumentCounts(xargs: Dict, i: nat)
    requires i < |xargs| && forall k :: i < k < |xargs| ==> RemovePrefix(xargs[k].key) != RemovePrefix(xargs[i].key)
    ensures var name := RemovePrefix(xargs[i].key);
      name in MetadataOf(xargs) && MetadataOf(xargs)[name] == xargs[i].value
  {
    hide RemovePrefix;
    if i < |xargs| - 1 { LastArgumentCounts(xargs[..|xargs| - 1], i); }
  }

  /** And a name that no entry comes to has none. */
  lemma {:induction false} UnnamedHasNone(xargs: Dict, name: string)
    requires forall i :: 0 <= i < |xargs| ==> RemovePrefix(xargs[i].key) != name
    ensures name !in MetadataOf(xargs)
  {
    hide RemovePrefix;
    if xargs != [] { UnnamedHasNone(xargs[..|xargs| - 1], name); }
  }

  /** Headers likewise. */
  lemma {:induction false} LastHeaderCounts(h: Headers, i: nat)
    requires i < |h.entries|
    requires forall k :: i < k < |h.entries| ==> HeaderName(h.entries[k].name, h.lower) != HeaderName(h.entries[i].name, h.lower)
    ensures var name := HeaderName(h.entries[i].name, h.lower);
      name in HeaderMetadata(h) && HeaderMetadata(h)[name] == Text(h.entries[i].text)
    decreases |h.entries|
  {
    hide HeaderName;
    if i < |h.entries| - 1 { LastHeaderCounts(Headers(h.entries[..|h.entries| - 1], h.lower), i); }
  }

  /** What a header's name comes to: lower-cased, without the prefix, with underscores. */
  lemma HeaderNaming(name: string, lower: string -> string, rest: string)
    ensures lower(name) == "x-ltr-" + rest ==>
      |HeaderName(name, lower)| == |rest| && forall i :: 0 <= i < |rest| ==>
        HeaderName(name, lower)[i] == if rest[i] == '-' then '_' else rest[i]
    ensures !("x-ltr-" <= lower(name)) ==> HeaderName(name, lower) == Underscored(lower(name))
    ensures '-' !in HeaderName(name, lower)
  {
    if lower(name) == "x-ltr-" + rest {
      assert lower(name)[6..] == rest;
    }
  }

  const FALLBACK := Prediction(1.0, 0.0, true, 0.0)

  predicate SaysReliable(metadata: map<string, Cell>) {
    && "prediction_reliable" in metadata && metadata["prediction_reliable"] == Whole(RELIABLE)
    && "workflow_estimated_tokens" in metadata && metadata["workflow_estimated_tokens"].Whole?
    && metadata["workflow_estimated_tokens"].whole >= 1
  }

  /** `GatewayMetadataPredictor.predict`. */
  function GatewayPredict(metadata: map<string, Cell>): (p: Prediction)
    ensures p.Valid()
    ensures p == FALLBACK == Prediction(1.0, 0.0, true, 0.0) <==> !SaysReliable(metadata)
    ensures Policies.DEFAULT_CONFIG.confidenceThreshold <= p.confidence && !p.ood <==> SaysReliable(metadata)
  {
    if !SaysReliable(metadata) then FALLBACK
    else
      var tokens := metadata["workflow_estimated_tokens"].whole;
      var capped := if tokens < MAX_ESTIMATED_TOKENS then tokens else MAX_ESTIMATED_TOKENS;
      Prediction(capped as real / MAX_ESTIMATED_TOKENS as real, 0.9, false, 0.0)
  }

  /** What the engine predicts for a payload the gateway forwarded. */
  function EngineView(forwarded: Payload, headers: Headers): Prediction {
    GatewayPredict(HeaderMetadata(headers) + MetadataOf(if forwarded.xargs.Mapping? then forwarded.xargs.entries else []))
  }

  /** The prediction that a usable bundle stands for. */
  function BundleView(b: Bundle): Prediction
    requires Legible(b)
  {
    if b["prediction_reliable"].flag
    then Prediction(b["estimated_tokens"].whole as real / MAX_ESTIMATED_TOKENS as real, 0.9, false, 0.0)
    else FALLBACK
  }

  // ----- what reaches the engine -----

  /** None of the names the gateway writes loses a prefix on the way. */
  lemma OptimizerNamesAreKept(key: string)
    requires key in OPTIMIZER_XARGS
    ensures RemovePrefix(key) == key && !("ltr_" <= key)
  {
    assert "ltr_"[0] == 'l' && key[0] != 'l';
  }

  predicate HoldsDecision(m: map<string, Cell>, b: Bundle)
    requires Legible(b)
  {
    && "prediction_reliable" in m
    && m["prediction_reliable"] == Whole(if b["prediction_reliable"].flag then RELIABLE else UNRELIABLE)
    && (b["prediction_reliable"].flag ==>
          "workflow_estimated_tokens" in m && m["workflow_estimated_tokens"] == b["estimated_tokens"])
  }

  lemma DecisionMetadata(b: Bundle, id: string, workflowId: Option<string>, stepId: Option<string>)
    requires Legible(b)
    ensures HoldsDecision(MetadataOf(DecisionEntries(b, id, workflowId, stepId)), b)
  {
    hide RemovePrefix, MetadataOf;
    var reliable := b["prediction_reliable"].flag;
    OptimizerNamesAreKept("prediction_reliable");
    OptimizerNamesAreKept("decision_id");
    OptimizerNamesAreKept("workflow_id");
    OptimizerNamesAreKept("step_id");
    OptimizerNamesAreKept("workflow_estimated_tokens");
    var e := Entry("prediction_reliable", Whole(if reliable then RELIABLE else UNRELIABLE));
    var d := Entry("decision_id", Text(id));
    MetadataOfLast([], e);
    assert [] + [e] == [e];
    MetadataOfLast([e], d);
    assert [e] + [d] == [e, d];
    var w := [e, d] + if workflowId.Some? then [Entry("workflow_id", Text(workflowId.value))] else [];
    if workflowId.Some? { MetadataOfLast([e, d], Entry("workflow_id", Text(workflowId.value))); } else { assert w == [e, d]; }
    var s := w + if stepId.Some? then [Entry("step_id", Text(stepId.value))] else [];
    if stepId.Some? { MetadataOfLast(w, Entry("step_id", Text(stepId.value))); } else { assert s == w; }
    var all := DecisionEntries(b, id, workflowId, stepId);
    if reliable {
      MetadataOfLast(s, Entry("workflow_estimated_tokens", b["estimated_tokens"]));
    } else {
      assert all == s;
    }
  }

  /**
   Once the gateway accepts a bundle, the engine's prediction is the bundle's, whatever
   the client put in its payload and headers.
   */
  lemma EngineHearsTheService(p: Payload, rpc: RpcResult, id: string, workflowId: Option<string>, stepId: Option<string>, headers: Headers)
    requires UsableBundle(rpc, id).Some?
    ensures EngineView(Forwarded(p, rpc, id, workflowId, stepId), headers) == BundleView(UsableBundle(rpc, id).value)
  {
    hide ClientXargs, UsableBundle, MetadataOf, HeaderMetadata, DecisionEntries;
    var b := UsableBundle(rpc, id).value;
    DecisionMetadata(b, id, workflowId, stepId);
    MetadataOfAppend(ClientXargs(p), DecisionEntries(b, id, workflowId, stepId));
  }

  // ----- without a usable bundle -----

  /** Under which entry, if any, engine arguments free of a name still provide its metadata. */
  lemma {:induction false} PrefixedLookup(d: Dict, name: string)
    requires DistinctEntries(d) && !HasKey(d, name) && !("ltr_" <= name)
    ensures name in MetadataOf(d) <==> HasKey(d, "ltr_" + name)
    ensures forall i :: 0 <= i < |d| && d[i].key == "ltr_" + name ==> name in MetadataOf(d) && MetadataOf(d)[name] == d[i].value
  {
    if d != [] {
      var n := |d| - 1;
      var rest := d[..n];
      assert forall i :: 0 <= i < n ==> rest[i] == d[i];
      PrefixedLookup(rest, name);
      PrefixedName(d[n].key, name);
    }
  }

  lemma PrefixedName(key: string, name: string)
    requires key != name && !("ltr_" <= name)
    ensures RemovePrefix(key) == name <==> key == "ltr_" + name
  {
    if "ltr_" <= key {
      assert key == "ltr_" + key[4..];
    }
  }

  /** A reliable estimate under names carrying the engine's own `ltr_` prefix. */
  ghost predicate PrefixedEstimate(d: Dict) {
    && Entry("ltr_prediction_reliable", Whole(RELIABLE)) in d
    && exists e :: e in d && e.key == "ltr_workflow_estimated_tokens" && e.value.Whole? && e.value.whole >= 1
  }

  lemma PrefixedEstimateIsHeard(d: Dict)
    requires DistinctEntries(d) && OptimizerFree(d)
    ensures SaysReliable(MetadataOf(d)) <==> PrefixedEstimate(d)
  {
    hide MetadataOf, OptimizerFree, DistinctEntries;
    assert "prediction_reliable" in OPTIMIZER_XARGS && "workflow_estimated_tokens" in OPTIMIZER_XARGS;
    hide OPTIMIZER_XARGS;
    PrefixedValue(d, "prediction_reliable", "ltr_prediction_reliable");
    PrefixedValue(d, "workflow_estimated_tokens", "ltr_workflow_estimated_tokens");
  }

  lemma PrefixedValue(d: Dict, name: string, full: string)
    requires DistinctEntries(d) && OptimizerFree(d) && name in OPTIMIZER_XARGS
    requires full == "ltr_" + name
    ensures forall e :: e in d && e.key == full ==> name in MetadataOf(d) && MetadataOf(d)[name] == e.value
    ensures name in MetadataOf(d) ==> Entry(full, MetadataOf(d)[name]) in d
  {
    hide MetadataOf;
    OptimizerNamesAreKept(name);
    hide OPTIMIZER_XARGS;
    PrefixedLookup(d, name);
    if name in MetadataOf(d) {
      var i :| 0 <= i < |d| && d[i].key == full;
      assert d[i] == Entry(full, MetadataOf(d)[name]);
    }
  }

  lemma {:induction false} HeadersHoldTexts(h: Headers)
    ensures forall key :: key in HeaderMetadata(h) ==> HeaderMetadata(h)[key].Text?
    decreases |h.entries|
  {
    hide HeaderName;
    if h.entries != [] { HeadersHoldTexts(Headers(h.entries[..|h.entries| - 1], h.lower)); }
  }

  /** Headers only ever hold texts, so they cannot tell the engine that a request is reliable. */
  lemma HeadersSayNothing(headers: Headers, m: map<string, Cell>)
    ensures SaysReliable(HeaderMetadata(headers) + m) <==> SaysReliable(m)
  {
    hide HeaderMetadata;
    HeadersHoldTexts(headers);
  }

  /**
   Without a usable bundle the engine falls back on its own, unless the client's own
   engine arguments hold an estimate under prefixed names: the gateway replaces the
   unprefixed names only.
   */
  lemma FallbackIff(p: Payload, rpc: RpcResult, id: string, workflowId: Option<string>, stepId: Option<string>, headers: Headers)
    requires UsableBundle(rpc, id).None?
    requires p.xargs.Mapping? ==> DistinctEntries(p.xargs.entries)
    ensures EngineView(Forwarded(p, rpc, id, workflowId, stepId), headers) == FALLBACK
      <==> !(p.xargs.Mapping? && PrefixedEstimate(p.xargs.entries))
  {
    hide UsableBundle, MetadataOf, Strip, SaysReliable, HeaderMetadata;
    ClientXargsAreFree(p);
    if p.xargs.Mapping? {
      var d := p.xargs.entries;
      StripKeepsDistinct(d, OPTIMIZER_XARGS);
      PrefixedEstimateIsHeard(ClientXargs(p));
      StrippedEstimate(d);
    } else {
      PrefixedEstimateIsHeard([]);
      assert ClientXargs(p) == [];
    }
    HeadersSayNothing(headers, MetadataOf(ClientXargs(p)));
  }

  lemma PrefixRemoved(name: string)
    ensures !("ltr_" <= name) ==> RemovePrefix(name) == name
    ensures RemovePrefix("ltr_" + name) == name && "ltr_" + name !in OPTIMIZER_XARGS
  {
    assert ("ltr_" + name)[4..] == name;
    if "ltr_" + name in OPTIMIZER_XARGS { OptimizerNamesAreKept("ltr_" + name); }
  }

  /** Two arguments with prefixed names, as the client sends them. */
  function PrefixedArguments(tokens: int): Dict {
    [Entry("ltr_" + "prediction_reliable", Whole(RELIABLE)), Entry("ltr_" + "workflow_estimated_tokens", Whole(tokens))]
  }

  lemma PrefixedArgumentsAreReliable(tokens: int)
    requires tokens >= 1
    ensures SaysReliable(MetadataOf(PrefixedArguments(tokens)))
    ensures MetadataOf(PrefixedArguments(tokens))["workflow_estimated_tokens"] == Whole(tokens)
    ensures forall e :: e in PrefixedArguments(tokens) ==> e.key !in OPTIMIZER_XARGS
  {
    hide OPTIMIZER_XARGS;
    PrefixRemoved("prediction_reliable");
    PrefixRemoved("workflow_estimated_tokens");
    hide RemovePrefix, MetadataOf;
    var d := PrefixedArguments(tokens);
    MetadataOfLast([], d[0]);
    MetadataOfLast([d[0]], d[1]);
    assert [] + [d[0]] == [d[0]] && [d[0]] + [d[1]] == d;
  }

  /** With these and no usable bundle the engine ranks the request by the client's own number. */
  lemma PrefixedEstimateReachesEngine(tokens: int, rpc: RpcResult, id: string, workflowId: Option<string>, stepId: Option<string>, headers: Headers)
    requires UsableBundle(rpc, id).None? && tokens >= 1
    ensures EngineView(Forwarded(Payload(map[], Mapping(PrefixedArguments(tokens))), rpc, id, workflowId, stepId), headers)
      == Prediction(if tokens <= 4096 then tokens as real / 4096.0 else 1.0, 0.9, false, 0.0)
  {
    hide UsableBundle, HeaderMetadata, OPTIMIZER_XARGS, MetadataOf, RemovePrefix;
    PrefixedArgumentsAreReliable(tokens);
    KeptEntries(PrefixedArguments(tokens));
  }

  lemma {:induction false} KeptEntries(d: Dict)
    requires forall e :: e in d ==> e.key !in OPTIMIZER_XARGS
    ensures Strip(d, OPTIMIZER_XARGS) == d
  {
    hide OPTIMIZER_XARGS;
    if d != [] { KeptEntries(d[1..]); }
  }

  lemma StrippedEstimate(d: Dict)
    ensures PrefixedEstimate(Strip(d, OPTIMIZER_XARGS)) <==> PrefixedEstimate(d)
  {
    hide Strip;
    assert "ltr_prediction_reliable" !in OPTIMIZER_XARGS && "ltr_workflow_estimated_tokens" !in OPTIMIZER_XARGS;
  }

  // ----- from a raw score to the engine's queue -----

  /** How the HTTP layer reports a decision to the gateway. */
  function RpcOf(r: DecisionResult): RpcResult {
    match r
    case Response(b) => RpcResult(Some(b), None)
    case Fault(_, code, _) => RpcResult(None, Some(code))
    case MissingScore => RpcResult(None, Some("internal_error"))
  }

  /** One request on its way: what the model makes of it, and what the client sends along. */
  datatype Trip = Trip(
    request: DecisionRequest,
    forward: Option<real>,
    slotFree: bool,
    payload: Payload,
    workflowId: Option<string>,
    stepId: Option<string>,
    headers: Headers)

  /** A service whose responses carry full provenance. */
  ghost predicate ServiceOk(a: Settings) {
    SettingsOk(a) && a.mapper.Some? && Sha256Text(a.mapper.value.manifestSha256) && a.predictorRevision != ""
  }

  /** What loading a vocabulary accepts. */
  ghost predicate VocabularyOk(v: GateVocabulary) {
    0.0 <= v.unknownConfidence <= 1.0 && forall s :: 0.0 <= v.confidenceOf(s) <= 1.0
  }

  function Answer(a: Settings, m: Model, t: Trip): DecisionResult
    requires a.mapper.Some? ==> Accepted(a.mapper.value.manifest)
  {
    Decide(a, m, t.request, t.forward, t.slotFree)
  }

  /** The prediction the engine ends up with. */
  function Engine(a: Settings, m: Model, t: Trip): Prediction
    requires a.mapper.Some? ==> Accepted(a.mapper.value.manifest)
  {
    var rpc := RpcOf(Answer(a, m, t));
    EngineView(Forwarded(t.payload, rpc, t.request.decisionId, t.workflowId, t.stepId), t.headers)
  }

  ghost predicate IsReliable(a: Settings, m: Model, t: Trip)
    requires a.mapper.Some? ==> Accepted(a.mapper.value.manifest)
  {
    var answer := Answer(a, m, t);
    answer.Response? && "prediction_reliable" in answer.bundle && answer.bundle["prediction_reliable"] == Flag(true)
  }

  function EngineScore(a: Settings, score: real): real
    requires a.mapper.Some? ==> Accepted(a.mapper.value.manifest)
  {
    EstimatedTokens(a.mapper, score) as real / MAX_ESTIMATED_TOKENS as real
  }

  /** Every answer is built from some confidence in [0, 1]; a reliable one from the model's raw score. */
  lemma AnswerIsBuilt(a: Settings, m: Model, t: Trip) returns (confidence: real, score: Option<real>)
    requires SettingsOk(a) && (a.gate.Some? ==> VocabularyOk(a.gate.value))
    requires Answer(a, m, t).Response?
    ensures 0.0 <= confidence <= 1.0
    ensures Answer(a, m, t) == BuildResponse(a, t.request, confidence, false, score)
    ensures score.Some? ==> score == t.forward
  {
    hide BuildResponse, Accepted, StratumOf;
    var abstained := AbstainConfidence(a.gate, t.request);
    if abstained.Some? {
      confidence, score := abstained.value, None;
    } else {
      var p := Predict(m, t.request, t.forward).value;
      confidence, score := p.confidence, Some(p.score);
    }
  }

  lemma ReliableBundle(a: Settings, request: DecisionRequest, confidence: real, score: Option<real>)
    requires SettingsOk(a)
    requires BuildResponse(a, request, confidence, false, score).Response?
    ensures var b := BuildResponse(a, request, confidence, false, score).bundle;
      && "prediction_reliable" in b && b["prediction_reliable"].Flag?
      && (b["prediction_reliable"].flag ==>
            score.Some? && "estimated_tokens" in b
            && b["estimated_tokens"] == Whole(EstimatedTokens(a.mapper, score.value)))
  {
    hide EstimatedTokens, Accepted, KnownVariant;
  }

  /**
   Every response of a well-configured service is accepted and reaches the engine: a
   reliable one as the rank of its score, an unreliable one as the safe fallback.
   */
  lemma ResponseReachesEngine(a: Settings, m: Model, t: Trip)
    requires ServiceOk(a) && (a.gate.Some? ==> VocabularyOk(a.gate.value))
    requires Answer(a, m, t).Response?
    ensures UsableBundle(RpcOf(Answer(a, m, t)), t.request.decisionId) == Some(Answer(a, m, t).bundle)
    ensures if IsReliable(a, m, t)
      then t.forward.Some? && Engine(a, m, t) == Prediction(EngineScore(a, t.forward.value), 0.9, false, 0.0)
      else Engine(a, m, t) == FALLBACK
  {
    hide BuildResponse, Answer, Accepted, Forwarded, EngineView, EstimatedTokens, ValidateBundle, Sha256Text;
    var confidence, score := AnswerIsBuilt(a, m, t);
    ServiceResponseAcceptedIff(a, t.request, confidence, false, score, t.request.decisionId);
    ReliableBundle(a, t.request, confidence, score);
    EngineHearsTheService(t.payload, RpcOf(Answer(a, m, t)), t.request.decisionId, t.workflowId, t.stepId, t.headers);
  }

  /** An answer that is no response leaves the engine to fall back, with the exception that `FallbackIff` names. */
  lemma FaultFallsBack(a: Settings, m: Model, t: Trip)
    requires SettingsOk(a) && !Answer(a, m, t).Response?
    requires t.payload.xargs.Mapping? ==> DistinctEntries(t.payload.xargs.entries)
    ensures RpcOf(Answer(a, m, t)).errorCode.Some?
    ensures Engine(a, m, t) == FALLBACK <==> !(t.payload.xargs.Mapping? && PrefixedEstimate(t.payload.xargs.entries))
  {
    hide Answer, Accepted, Forwarded, EngineView, PrefixedEstimate, DistinctEntries;
    FallbackIff(t.payload, RpcOf(Answer(a, m, t)), t.request.decisionId, t.workflowId, t.stepId, t.headers);
  }

  lemma TokensMonotone(mapper: Mapper, s: real, t: real)
    requires Accepted(mapper.manifest) && s <= t
    ensures EstimatedTokens(Some(mapper), s) <= EstimatedTokens(Some(mapper), t)
  {
    hide Accepted, MapScore, RoundHalfEven;
    MapScoreMonotone(mapper.manifest, s, t);
    RoundMonotone(MapScore(mapper.manifest, s).p50, MapScore(mapper.manifest, t).p50);
  }

  /** What the engine makes of a reliable answer: in units of 4096 tokens, the length that its score maps to, to within half a token. */
  lemma LengthReachesEngine(a: Settings, m: Model, t: Trip)
    requires ServiceOk(a) && (a.gate.Some? ==> VocabularyOk(a.gate.value)) && IsReliable(a, m, t)
    ensures t.forward.Some?
    ensures var length, score := MapScore(a.mapper.value.manifest, t.forward.value).p50, Engine(a, m, t).score;
      && (1.0 <= length <= 4096.0 ==> length - 0.5 <= 4096.0 * score <= length + 0.5)
      && (length <= 1.0 ==> 4096.0 * score == 1.0)
      && (length >= 4096.0 ==> score == 1.0)
  {
    hide Answer, Accepted, Engine, EstimatedTokens, Sha256Text, MapScore;
    ResponseReachesEngine(a, m, t);
    EstimateIsNearest(a.mapper, t.forward.value);
  }

  /** A score at a percentile reaches the engine as that percentile's own length. */
  lemma PercentileReachesEngine(a: Settings, m: Model, t: Trip, p: int, k: int)
    requires ServiceOk(a) && (a.gate.Some? ==> VocabularyOk(a.gate.value)) && IsReliable(a, m, t)
    requires MIN_PERCENTILE <= p <= MAX_PERCENTILE && t.forward == Some(p as real / 100.0)
    requires 1 <= k <= 4096 && p in a.mapper.value.manifest.percentiles
    requires a.mapper.value.manifest.percentiles[p] == k as real
    ensures Engine(a, m, t).score == k as real / 4096.0
  {
    hide Answer, Accepted, Engine, EstimatedTokens, Sha256Text, MapScore;
    ResponseReachesEngine(a, m, t);
    EstimateIsNearest(a.mapper, t.forward.value);
    PercentileIsLookedUp(a.mapper.value.manifest, p);
    NearestWhole(EstimatedTokens(a.mapper, t.forward.value), k);
  }

  lemma NearestWhole(n: int, k: int)
    requires -0.5 <= n as real - k as real <= 0.5
    ensures n == k
  {
  }

  /** Lengths more than a token apart stay apart: the shorter one has the strictly lower engine score. */
  lemma LengthsApartStayApart(a: Settings, m: Model, t: Trip, u: Trip)
    requires ServiceOk(a) && (a.gate.Some? ==> VocabularyOk(a.gate.value))
    requires IsReliable(a, m, t) && IsReliable(a, m, u)
    ensures t.forward.Some? && u.forward.Some?
    ensures var manifest := a.mapper.value.manifest;
      var x, y := MapScore(manifest, t.forward.value).p50, MapScore(manifest, u.forward.value).p50;
      1.0 <= x <= 4096.0 && 1.0 <= y <= 4096.0 && x + 1.0 < y ==> Engine(a, m, t).score < Engine(a, m, u).score
  {
    hide Answer, Accepted, Engine, EstimatedTokens, Sha256Text, MapScore;
    LengthReachesEngine(a, m, t);
    LengthReachesEngine(a, m, u);
  }

  /** A lower raw score never becomes a higher engine score, whatever the clients send along. */
  lemma RankReachesEngine(a: Settings, m: Model, t: Trip, u: Trip)
    requires ServiceOk(a) && (a.gate.Some? ==> VocabularyOk(a.gate.value))
    requires IsReliable(a, m, t) && IsReliable(a, m, u)
    ensures t.forward.Some? && u.forward.Some?
    ensures t.forward.value <= u.forward.value ==> Engine(a, m, t).score <= Engine(a, m, u).score
  {
    hide Answer, Accepted, Engine, EstimatedTokens, Sha256Text;
    ResponseReachesEngine(a, m, t);
    ResponseReachesEngine(a, m, u);
    if t.forward.value <= u.forward.value {
      TokensMonotone(a.mapper.value, t.forward.value, u.forward.value);
    }
  }

  // ----- the queue -----

  /** The trusted requests of a list ordered by rule C, or all of a list in pure ranker order, follow the ranker. */
  lemma TrustedInRankOrder(waiting: seq<RequestContext>, policy: Policy, now: real, i: nat, j: nat)
    requires DistinctIds(waiting) && (policy == PureLtr || policy == GatedRuleC)
    requires i < j < |OrderWaiting(waiting, policy, now, Policies.DEFAULT_CONFIG)|
    requires var r := OrderWaiting(waiting, policy, now, Policies.DEFAULT_CONFIG);
      Eligible(r[i], Policies.DEFAULT_CONFIG) && Eligible(r[j], Policies.DEFAULT_CONFIG)
    ensures var r := OrderWaiting(waiting, policy, now, Policies.DEFAULT_CONFIG);
      KeyLe(LtrKey(r[i]), LtrKey(r[j]))
  {
    hide Sort, TrustedOf, Eligible, RuleC;
    var config := Policies.DEFAULT_CONFIG;
    var r := OrderWaiting(waiting, policy, now, config);
    if policy == PureLtr {
      PureLtrSortsByRank(waiting, now, config);
      SortIsSorted(LtrKey, waiting);
    } else {
      RuleCIsRuleCOrder(waiting, config);
      TrustedRank(r, config, i);
      TrustedRank(r, config, j);
      TrustedOfMonotone(r, config, i + 1, j);
      TrustedStep(r, config, i);
    }
  }

  lemma TrustedStep(r: seq<RequestContext>, config: PolicyConfig, i: nat)
    requires i < |r| && Eligible(r[i], config)
    ensures |TrustedOf(r[..i + 1], config)| == |TrustedOf(r[..i], config)| + 1
  {
    assert r[..i + 1][..i] == r[..i];
  }

  /**
   The end of the pipeline. When the engine orders its queue by `pure_ltr`, or by
   `gated_rule_c`, two requests with reliable answers come out in the order of their raw
   scores; only when their engine scores tie may the one with the larger raw score go
   first, and then it arrived no later and its length is less than a token above.
   */
  lemma QueueFollowsRawScores(a: Settings, m: Model, t: Trip, u: Trip, waiting: seq<RequestContext>, policy: Policy, now: real, i: nat, j: nat)
    requires ServiceOk(a) && (a.gate.Some? ==> VocabularyOk(a.gate.value))
    requires IsReliable(a, m, t) && IsReliable(a, m, u)
    requires DistinctIds(waiting) && (policy == PureLtr || policy == GatedRuleC)
    requires i < j < |OrderWaiting(waiting, policy, now, Policies.DEFAULT_CONFIG)|
    requires var r := OrderWaiting(waiting, policy, now, Policies.DEFAULT_CONFIG);
      r[i].prediction == Engine(a, m, u) && r[j].prediction == Engine(a, m, t)
    ensures t.forward.Some? && u.forward.Some?
    ensures var r := OrderWaiting(waiting, policy, now, Policies.DEFAULT_CONFIG);
      t.forward.value <= u.forward.value ==>
        && Engine(a, m, t).score == Engine(a, m, u).score
        && KeyLe(FcfsKey(r[i]), FcfsKey(r[j]))
    ensures var manifest := a.mapper.value.manifest;
      var x, y := MapScore(manifest, t.forward.value).p50, MapScore(manifest, u.forward.value).p50;
      1.0 <= x <= 4096.0 && 1.0 <= y <= 4096.0 ==> y <= x + 1.0
  {
    hide Answer, Accepted, Engine, EngineScore, Sha256Text, OrderWaiting, MapScore;
    LengthsApartStayApart(a, m, t, u);
    ResponseReachesEngine(a, m, t);
    ResponseReachesEngine(a, m, u);
    RankReachesEngine(a, m, t, u);
    TrustedInRankOrder(waiting, policy, now, i, j);
  }
}
