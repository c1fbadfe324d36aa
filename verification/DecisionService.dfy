/**
 `DecisionApplication`: answering one validated decision request, with or without
 the gate's short-circuit in front of the model.
 */
module DecisionService {
  import opened Optional
  import opened RankQuantiles
  import opened ToolStrata

  const SCHEMA_VERSION := "1.0"
  const MAX_ESTIMATED_TOKENS: int := 4096

  /** A value in a response or in request metadata; `Compound` stands for null, arrays and objects. */
  datatype Cell = Flag(flag: bool) | Whole(whole: int) | Number(number: real) | Text(text: string) | Compound(json: string)

  type Bundle = map<string, Cell>

  predicate KnownVariant(name: string) {
    name == "prompt" || name == "prompt_schema" || name == "prompt_schema_history"
    || name == "prompt_schema_history_workflow"
  }

  /** `FEATURE_VARIANTS`. */
  lemma VariantsAreFour(name: string)
    ensures KnownVariant(name)
      <==> name in {"prompt", "prompt_schema", "prompt_schema_history", "prompt_schema_history_workflow"}
  {
  }

  /** What the decision logic reads of a validated request. */
  datatype DecisionRequest = DecisionRequest(
    decisionId: string,
    promptText: Option<string>,
    toolSchemaText: Option<string>,
    missingOptional: bool)

  /** The mapper and the provenance of its manifest go together. */
  datatype Mapper = Mapper(manifest: Manifest, manifestSha256: string)

  datatype Settings = Settings(
    ready: bool,
    predictorRevision: string,
    featureVariant: string,
    threshold: real,
    mapper: Option<Mapper>,
    gate: Option<GateVocabulary>)

  /** What the constructor accepts. */
  ghost predicate SettingsOk(a: Settings) {
    && KnownVariant(a.featureVariant)
    && 0.0 <= a.threshold <= 1.0
    && (a.mapper.Some? ==> Accepted(a.mapper.value.manifest) && a.mapper.value.manifestSha256 != "")
  }

  datatype DecisionResult =
    | Response(bundle: Bundle)
    | Fault(status: int, code: string, retryable: bool)
    | MissingScore          // ValueError: a reliable decision without a score

  // ----- the response -----

  function ReasonCode(ood: bool, confidence: real, missingOptional: bool, threshold: real): string {
    if ood then "ood_rejected"
    else if confidence < threshold then "low_reliability"
    else if missingOptional then "missing_optional_features"
    else "prediction_reliable"
  }

  function Clamp(n: int): (r: int)
    ensures 1 <= r <= MAX_ESTIMATED_TOKENS
  {
    if n < 1 then 1 else if MAX_ESTIMATED_TOKENS < n then MAX_ESTIMATED_TOKENS else n
  }

  /** The token estimate of a rank score, through the mapper if there is one. */
  function EstimatedTokens(mapper: Option<Mapper>, score: real): int
    requires mapper.Some? ==> Accepted(mapper.value.manifest)
  {
    match mapper
    case None => Clamp(RoundHalfEven(score * MAX_ESTIMATED_TOKENS as real))
    case Some(m) => Clamp(RoundHalfEven(MapScore(m.manifest, score).p50))
  }

  /** The token length that a rank score stands for, before it is made a whole number in range. */
  function TokenLength(mapper: Option<Mapper>, score: real): real
    requires mapper.Some? ==> Accepted(mapper.value.manifest)
  {
    match mapper
    case None => score * 4096.0
    case Some(m) => MapScore(m.manifest, score).p50
  }

  /** The estimate is the whole number nearest to that length, and the nearer limit outside 1..4096. */
  lemma EstimateIsNearest(mapper: Option<Mapper>, score: real)
    requires mapper.Some? ==> Accepted(mapper.value.manifest)
    ensures var length, tokens := TokenLength(mapper, score), EstimatedTokens(mapper, score);
      && (1.0 <= length <= 4096.0 ==> -0.5 <= tokens as real - length <= 0.5)
      && (length <= 1.0 ==> tokens == 1)
      && (length >= 4096.0 ==> tokens == 4096)
  {
    hide MapScore, Accepted, RoundHalfEven;
    var length := TokenLength(mapper, score);
    RoundIsNearest(length);
    RoundMonotone(length, 1.0);
    RoundMonotone(1.0, length);
    RoundMonotone(length, 4096.0);
    RoundMonotone(4096.0, length);
    RoundWhole(1);
    RoundWhole(4096);
  }

  /** `_build_response`. */
  function BuildResponse(a: Settings, req: DecisionRequest, confidence: real, ood: bool, score: Option<real>): DecisionResult
    requires a.mapper.Some? ==> Accepted(a.mapper.value.manifest)
  {
    var reason := ReasonCode(ood, confidence, req.missingOptional, a.threshold);
    var reliable := reason == "prediction_reliable";
    var base: Bundle := map[
      "schema_version" := Text(SCHEMA_VERSION),
      "decision_id" := Text(req.decisionId),
      "reliability_probability" := Number(confidence),
      "ood_score" := Number(if ood then 1.0 else 0.0),
      "prediction_reliable" := Flag(reliable),
      "predictor_revision" := Text(a.predictorRevision),
      "feature_variant" := Text(a.featureVariant),
      "reason_code" := Text(reason)];
    var mapped := match a.mapper
      case None => base
      case Some(m) => base[
        "mapping_version" := Text(m.manifest.mappingVersion)][
        "approximation_notice" := Text(m.manifest.approximationNotice)][
        "quantile_manifest_sha256" := Text(m.manifestSha256)];
    if !reliable then Response(mapped)
    else if score.None? then MissingScore
    else Response(mapped["estimated_tokens" := Whole(EstimatedTokens(a.mapper, score.value))])
  }

  // ----- the model behind it -----

  /** The BERT predictor: its vocabulary, an optional pinned confidence, and how the model's forward pass ends. */
  datatype Model = Model(vocabulary: GateVocabulary, pinned: Option<real>)

  datatype Scored = Scored(score: real, confidence: real)

  /** `BertPredictor.predict`; None stands for the exceptions it raises. */
  function Predict(m: Model, req: DecisionRequest, forward: Option<real>): Option<Scored> {
    if req.promptText.None? || req.promptText.value == "" then None
    else if req.toolSchemaText.None? || req.toolSchemaText.value == "" then None
    else if forward.None? then None
    else
      var confidence := if m.pinned.Some? then m.pinned.value else Confidence(m.vocabulary, req.toolSchemaText.value);
      if 0.0 <= forward.value <= 1.0 && 0.0 <= confidence <= 1.0 then Some(Scored(forward.value, confidence)) else None
  }

  /** `_abstain_confidence`. */
  function AbstainConfidence(gate: Option<GateVocabulary>, req: DecisionRequest): Option<real> {
    match gate
    case None => None
    case Some(v) =>
      var confidence :=
        if req.toolSchemaText.None? || req.toolSchemaText.value == "" then v.unknownConfidence
        else Confidence(v, req.toolSchemaText.value);
      if confidence <= 0.0 then Some(confidence) else None
  }

  /** `decide`: the gate first, then a capacity slot, then the model. */
  function Decide(a: Settings, m: Model, req: DecisionRequest, forward: Option<real>, slotFree: bool): DecisionResult
    requires a.mapper.Some? ==> Accepted(a.mapper.value.manifest)
  {
    if !a.ready then Fault(503, "not_ready", true)
    else
      match AbstainConfidence(a.gate, req)
      case Some(confidence) => BuildResponse(a, req, confidence, false, None)
      case None =>
        if !slotFree then Fault(429, "rate_limited", true)
        else
          match Predict(m, req, forward)
          case None => Fault(503, "internal_error", true)
          case Some(p) => BuildResponse(a, req, p.confidence, false, Some(p.score))
  }

  /** The application with its bounded semaphore. */
  class DecisionApplication {
    const settings: Settings
    const model: Model
    var slots: nat

    constructor (settings: Settings, model: Model, maxConcurrency: nat)
      requires SettingsOk(settings) && maxConcurrency >= 1
      ensures this.settings == settings && this.model == model && slots == maxConcurrency
    {
      this.settings, this.model, slots := settings, model, maxConcurrency;
    }

    /** Whatever way the request ends, every slot taken is given back. */
    method DecideRequest(req: DecisionRequest, forward: Option<real>) returns (r: DecisionResult)
      requires SettingsOk(settings)
      modifies this`slots
      ensures r == Decide(settings, model, req, forward, old(slots) > 0)
      ensures slots == old(slots)
    {
      hide BuildResponse, Predict, Accepted;
      if !settings.ready {
        return Fault(503, "not_ready", true);
      }
      var abstained := AbstainConfidence(settings.gate, req);
      if abstained.Some? {
        r := BuildResponse(settings, req, abstained.value, false, None);
        return;
      }
      if slots == 0 {
        return Fault(429, "rate_limited", true);
      }
      slots := slots - 1;
      var prediction := Predict(model, req, forward);
      slots := slots + 1;
      if prediction.None? {
        return Fault(503, "internal_error", true);
      }
      r := BuildResponse(settings, req, prediction.value.confidence, false, Some(prediction.value.score));
    }
  }

  // ----- what is answered, and why -----

  /** The four reasons, each exactly when it applies; the first that does is given. */
  lemma ReasonsExactly(ood: bool, confidence: real, missingOptional: bool, threshold: real)
    ensures var reason := ReasonCode(ood, confidence, missingOptional, threshold);
      && (reason == "ood_rejected" <==> ood)
      && (reason == "low_reliability" <==> !ood && confidence < threshold)
      && (reason == "missing_optional_features" <==> !ood && threshold <= confidence && missingOptional)
      && (reason == "prediction_reliable" <==> !ood && threshold <= confidence && !missingOptional)
  {
    assert |"ood_rejected"| < |"low_reliability"| < |"prediction_reliable"| < |"missing_optional_features"|;
  }

  /** A response is reliable exactly when nothing speaks against it, and only then may it lack a score. */
  lemma ReliableExactly(a: Settings, req: DecisionRequest, confidence: real, ood: bool, score: Option<real>)
    requires a.mapper.Some? ==> Accepted(a.mapper.value.manifest)
    ensures var r, sure := BuildResponse(a, req, confidence, ood, score), !ood && a.threshold <= confidence && !req.missingOptional;
      && (r.MissingScore? <==> sure && score.None?)
      && (!r.MissingScore? ==>
            && r.Response? && "prediction_reliable" in r.bundle && r.bundle["prediction_reliable"] == Flag(sure)
            && ("estimated_tokens" in r.bundle <==> sure))
  {
    hide EstimatedTokens, Accepted, ReasonCode;
    ReasonsExactly(ood, confidence, req.missingOptional, a.threshold);
  }

  /** What the model needs of a request. */
  predicate Readable(req: DecisionRequest) {
    && req.promptText.Some? && req.promptText.value != ""
    && req.toolSchemaText.Some? && req.toolSchemaText.value != ""
  }

  /** The three faults, each exactly when it occurs; nothing else is one. */
  lemma FaultsExactly(a: Settings, m: Model, req: DecisionRequest, forward: Option<real>, slotFree: bool)
    requires SettingsOk(a)
    ensures var r, abstains := Decide(a, m, req, forward, slotFree), AbstainConfidence(a.gate, req).Some?;
      && (r == Fault(503, "not_ready", true) <==> !a.ready)
      && (r == Fault(429, "rate_limited", true) <==> a.ready && !abstains && !slotFree)
      && (r == Fault(503, "internal_error", true) <==>
            && a.ready && !abstains && slotFree
            && !(Readable(req) && forward.Some? && 0.0 <= forward.value <= 1.0
                 && 0.0 <= (if m.pinned.Some? then m.pinned.value else Confidence(m.vocabulary, req.toolSchemaText.value)) <= 1.0))
      && (r.Fault? ==> r.retryable && (r.code == "not_ready" || r.code == "rate_limited" || r.code == "internal_error"))
  {
    hide EstimatedTokens, Accepted, Confidence, ReasonCode, AbstainConfidence;
    assert |"not_ready"| < |"rate_limited"| < |"internal_error"|;
  }

  /** The gate abstains exactly on what its vocabulary gives no confidence, be it a schema or the lack of one. */
  lemma AbstainsExactly(v: GateVocabulary, req: DecisionRequest)
    ensures var schema := req.toolSchemaText;
      var confidence := if schema.Some? && schema.value != "" then Confidence(v, schema.value) else v.unknownConfidence;
      && (AbstainConfidence(Some(v), req).Some? <==> confidence <= 0.0)
      && (AbstainConfidence(Some(v), req).Some? ==> AbstainConfidence(Some(v), req).value == confidence)
      && AbstainConfidence(None, req).None?
  {
    hide Confidence;
  }

  // ----- the short-circuit -----

  /** The path the short-circuit replaces: the same application without a gate in front of the model. */
  function WithoutGate(a: Settings): Settings { a.(gate := None) }

  /** A request and model on which the full path produces a prediction. */
  ghost predicate FullPathWorks(a: Settings, m: Model, req: DecisionRequest, forward: Option<real>) {
    a.ready && Predict(m, req, forward).Some?
  }

  lemma ResponseIgnoresGate(a: Settings, req: DecisionRequest, confidence: real, ood: bool, score: Option<real>)
    requires a.mapper.Some? ==> Accepted(a.mapper.value.manifest)
    ensures BuildResponse(WithoutGate(a), req, confidence, ood, score) == BuildResponse(a, req, confidence, ood, score)
  {
  }

  /** An unreliable response does not depend on the score, nor on there being one. */
  lemma UnreliableIgnoresScore(a: Settings, req: DecisionRequest, confidence: real, ood: bool, s: Option<real>, t: Option<real>)
    requires a.mapper.Some? ==> Accepted(a.mapper.value.manifest)
    requires ReasonCode(ood, confidence, req.missingOptional, a.threshold) != "prediction_reliable"
    ensures BuildResponse(a, req, confidence, ood, s) == BuildResponse(a, req, confidence, ood, t)
  {
    hide EstimatedTokens, Accepted;
  }

  lemma ResponseShowsConfidence(a: Settings, req: DecisionRequest, c: real, d: real, s: Option<real>, t: Option<real>)
    requires a.mapper.Some? ==> Accepted(a.mapper.value.manifest)
    requires c != d && BuildResponse(a, req, c, false, s).Response?
    ensures BuildResponse(a, req, c, false, s) != BuildResponse(a, req, d, false, t)
  {
    hide EstimatedTokens, Accepted;
    ResponseConfidence(a, req, c, s);
    ResponseConfidence(a, req, d, t);
  }

  lemma ResponseConfidence(a: Settings, req: DecisionRequest, confidence: real, score: Option<real>)
    requires a.mapper.Some? ==> Accepted(a.mapper.value.manifest)
    ensures var r := BuildResponse(a, req, confidence, false, score);
      r.Response? ==> "reliability_probability" in r.bundle && r.bundle["reliability_probability"] == Number(confidence)
  {
    hide EstimatedTokens, Accepted;
  }

  /**
   When the gate may answer for the model. On requests the full path can serve, with
   the gate sharing the predictor's vocabulary, the short-circuit gives the response the
   model would have led to for every score, if and only if the gate does not abstain, or
   an abstention says what the model would have said: the predictor's confidence is not
   pinned to another value, and it is unreliable anyway because the threshold is positive
   or an optional feature is missing.
   */
  lemma GateRefinesFullPath(a: Settings, m: Model, req: DecisionRequest, forward: Option<real>)
    requires SettingsOk(a) && FullPathWorks(a, m, req, forward)
    requires a.gate == Some(m.vocabulary)
    ensures Decide(a, m, req, forward, true) == Decide(WithoutGate(a), m, req, forward, true)
      <==>
      || AbstainConfidence(a.gate, req).None?
      || ((m.pinned.None? || m.pinned == AbstainConfidence(a.gate, req)) && (a.threshold > 0.0 || req.missingOptional))
  {
    hide BuildResponse, EstimatedTokens, Accepted, Confidence;
    var p := Predict(m, req, forward).value;
    var abstained := AbstainConfidence(a.gate, req);
    ResponseIgnoresGate(a, req, p.confidence, false, Some(p.score));
    if abstained.Some? {
      if m.pinned.Some? && m.pinned != abstained {
        PredictionResponds(a, req, p.confidence, p.score);
        ResponseShowsConfidence(a, req, p.confidence, abstained.value, Some(p.score), None);
      } else if a.threshold > 0.0 || req.missingOptional {
        UnreliableIgnoresScore(a, req, 0.0, false, None, Some(p.score));
      } else {
        ReliableWithoutScore(a, req, p.score);
      }
    }
  }

  lemma PredictionResponds(a: Settings, req: DecisionRequest, confidence: real, score: real)
    requires a.mapper.Some? ==> Accepted(a.mapper.value.manifest)
    ensures BuildResponse(a, req, confidence, false, Some(score)).Response?
  {
    hide EstimatedTokens, Accepted;
  }

  /**
   With the confidence pinned at 0.9 and a threshold of 0.8 the full path answers
   reliably, and the gate, which still classifies, answers that reliability is low.
   */
  lemma PinnedConfidenceIsOverruled()
    ensures
      var v := GateVocabulary({}, {}, (s: Stratum) => 0.0, 0.0, (names: seq<string>) => "");
      var a := Settings(true, "revision", "prompt_schema", 0.8, None, Some(v));
      var req := DecisionRequest("id", Some("prompt"), Some("schema"), false);
      var m := Model(v, Some(0.9));
      var gated, full := Decide(a, m, req, Some(0.5), true), Decide(WithoutGate(a), m, req, Some(0.5), true);
      && SettingsOk(a) && FullPathWorks(a, m, req, Some(0.5))
      && gated.Response? && "reason_code" in gated.bundle && gated.bundle["reason_code"] == Text("low_reliability")
      && full.Response? && "reason_code" in full.bundle && full.bundle["reason_code"] == Text("prediction_reliable")
  {
    hide StratumOf, EstimatedTokens;
  }

  lemma ReliableWithoutScore(a: Settings, req: DecisionRequest, score: real)
    requires a.mapper.Some? ==> Accepted(a.mapper.value.manifest)
    requires a.threshold <= 0.0 && !req.missingOptional
    ensures BuildResponse(a, req, 0.0, false, None) == MissingScore
    ensures BuildResponse(a, req, 0.0, false, Some(score)).Response?
  {
    hide EstimatedTokens, Accepted;
  }

  /** An abstention needs neither the model nor a slot: it is answered alike whatever they do. */
  lemma AbstentionNeedsNoModel(a: Settings, m: Model, req: DecisionRequest, f: Option<real>, g: Option<real>, s: bool, t: bool)
    requires SettingsOk(a) && AbstainConfidence(a.gate, req).Some?
    ensures Decide(a, m, req, f, s) == Decide(a, m, req, g, t)
  {
    hide BuildResponse, Accepted, Predict, Confidence;
  }

  /**
   Requests without a readable schema: the predictor cannot serve them, and the gate
   turns that failure into an unreliable response.
   */
  lemma ZeroToolRequestsAreAnswered(a: Settings, m: Model, req: DecisionRequest, forward: Option<real>, slotFree: bool)
    requires SettingsOk(a) && a.ready && a.threshold > 0.0
    requires req.toolSchemaText.None? || req.toolSchemaText.value == ""
    requires a.gate.Some? && a.gate.value.unknownConfidence == 0.0
    ensures Decide(WithoutGate(a), m, req, forward, true) == Fault(503, "internal_error", true)
    ensures var r := Decide(a, m, req, forward, slotFree);
      r.Response? && "prediction_reliable" in r.bundle && r.bundle["prediction_reliable"] == Flag(false)
      && "estimated_tokens" !in r.bundle
  {
    hide EstimatedTokens, Accepted, Confidence;
  }
}
