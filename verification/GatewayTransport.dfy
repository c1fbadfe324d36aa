/** The gateway's side of a decision: checking the service's bundle and carrying it to the engine. */
module GatewayTransport {
  import opened Optional
  import opened DecisionService
  import opened RankQuantiles

  const RELIABLE: int := 1
  const UNRELIABLE: int := 0

  const OPTIMIZER_XARGS: set<string> :=
    {"workflow_estimated_tokens", "prediction_reliable", "workflow_id", "step_id", "decision_id"}

  const REQUIRED: set<string> :=
    {"schema_version", "decision_id", "reliability_probability", "ood_score", "prediction_reliable",
     "predictor_revision", "feature_variant", "reason_code", "mapping_version", "approximation_notice",
     "quantile_manifest_sha256"}

  predicate KnownReason(code: string) {
    code == "prediction_reliable" || code == "low_reliability"
    || code == "ood_rejected" || code == "missing_optional_features"
  }

  // ----- `_validate_bundle` -----

  /** `_bounded_float`; no upper bound stands for infinity. */
  function BoundedFloat(c: Cell, lower: real, upper: Option<real>): (r: Option<real>)
    ensures r.Some? ==> c.Whole? || c.Number?
    ensures r.Some? ==> lower <= r.value && (upper.Some? ==> r.value <= upper.value)
  {
    var n := match c
      case Whole(i) => Some(i as real)
      case Number(x) => Some(x)
      case _ => None;
    if n.Some? && lower <= n.value && (upper.Some? ==> n.value <= upper.value) then n else None
  }

  predicate HexDigit(c: char) { '0' <= c <= '9' || 'a' <= c <= 'f' || 'A' <= c <= 'F' }

  predicate Sha256Text(s: string) {
    |s| == 64 && forall i :: 0 <= i < |s| ==> HexDigit(s[i])
  }

  /** What a bundle may say about its estimate. */
  predicate EstimateOk(b: Bundle, reliable: bool, reason: string) {
    if reliable then
      && reason == "prediction_reliable"
      && "estimated_tokens" in b && b["estimated_tokens"].Whole?
      && 1 <= b["estimated_tokens"].whole <= MAX_ESTIMATED_TOKENS
    else "estimated_tokens" !in b && reason != "prediction_reliable"
  }

  /** The fields of a bundle that do not need normalising. */
  predicate FieldsOk(b: Bundle, expectedId: string)
    requires REQUIRED <= b.Keys
  {
    && b["schema_version"] == Text(SCHEMA_VERSION)
    && b["decision_id"] == Text(expectedId)
    && b["prediction_reliable"].Flag?
    && b["predictor_revision"].Text? && b["predictor_revision"].text != ""
    && b["feature_variant"].Text? && KnownVariant(b["feature_variant"].text)
    && b["reason_code"].Text? && KnownReason(b["reason_code"].text)
    && b["mapping_version"] == Text(MAPPING_VERSION)
    && b["approximation_notice"] == Text(APPROXIMATION_NOTICE)
    && b["quantile_manifest_sha256"].Text? && Sha256Text(b["quantile_manifest_sha256"].text)
    && EstimateOk(b, b["prediction_reliable"].flag, b["reason_code"].text)
  }

  /** `_validate_bundle`; None stands for the exceptions it raises. */
  function ValidateBundle(b: Bundle, expectedId: string): Option<Bundle> {
    if !(REQUIRED <= b.Keys) || !FieldsOk(b, expectedId) then None
    else
      var reliability := BoundedFloat(b["reliability_probability"], 0.0, Some(1.0));
      var ood := BoundedFloat(b["ood_score"], 0.0, None);
      if reliability.None? || ood.None? then None
      else Some(b["reliability_probability" := Number(reliability.value)]["ood_score" := Number(ood.value)])
  }

  /** An accepted bundle says whether it is reliable, and carries an estimate in range exactly when it is. */
  lemma AcceptedEstimate(b: Bundle, expectedId: string)
    requires ValidateBundle(b, expectedId).Some?
    ensures var r := ValidateBundle(b, expectedId).value;
      && "prediction_reliable" in r && r["prediction_reliable"].Flag?
      && "reason_code" in r && r["reason_code"].Text?
      && (r["prediction_reliable"].flag <==> r["reason_code"] == Text("prediction_reliable"))
      && (r["prediction_reliable"].flag <==> "estimated_tokens" in r)
      && ("estimated_tokens" in r ==>
            r["estimated_tokens"].Whole? && 1 <= r["estimated_tokens"].whole <= MAX_ESTIMATED_TOKENS)
  {
    hide Sha256Text, BoundedFloat, KnownReason, KnownVariant;
  }

  /** What every accepted bundle says, and that checking it changes nothing but how its two numbers are written. */
  lemma AcceptedBundleSays(b: Bundle, expectedId: string)
    requires ValidateBundle(b, expectedId).Some?
    ensures var r := ValidateBundle(b, expectedId).value;
      && r.Keys == b.Keys
      && (forall key :: key in b && key != "reliability_probability" && key != "ood_score" ==> r[key] == b[key])
      && "schema_version" in b && b["schema_version"] == Text("1.0")
      && "decision_id" in b && b["decision_id"] == Text(expectedId)
      && "predictor_revision" in b && b["predictor_revision"].Text? && b["predictor_revision"].text != ""
      && "feature_variant" in b && b["feature_variant"].Text? && KnownVariant(b["feature_variant"].text)
      && "reason_code" in b
      && (b["reason_code"] == Text("prediction_reliable") || b["reason_code"] == Text("low_reliability")
          || b["reason_code"] == Text("ood_rejected") || b["reason_code"] == Text("missing_optional_features"))
      && "mapping_version" in b && b["mapping_version"] == Text(MAPPING_VERSION)
      && "approximation_notice" in b && b["approximation_notice"] == Text(APPROXIMATION_NOTICE)
      && "quantile_manifest_sha256" in b && b["quantile_manifest_sha256"].Text? && |b["quantile_manifest_sha256"].text| == 64
      && (forall c :: c in b["quantile_manifest_sha256"].text ==> c in "0123456789abcdefABCDEF")
      && "reliability_probability" in r && r["reliability_probability"].Number? && 0.0 <= r["reliability_probability"].number <= 1.0
      && "ood_score" in r && r["ood_score"].Number? && 0.0 <= r["ood_score"].number
  {
    hide KnownVariant, EstimateOk, HexDigit;
    forall c | c in b["quantile_manifest_sha256"].text ensures c in "0123456789abcdefABCDEF" {
      HexDigits(c);
    }
  }

  lemma HexDigits(c: char)
    ensures HexDigit(c) ==> c in "0123456789abcdefABCDEF"
  {
    var s := "0123456789abcdefABCDEF";
    if '0' <= c <= '9' { assert s[c as int - '0' as int] == c; }
    if 'a' <= c <= 'f' { assert s[10 + c as int - 'a' as int] == c; }
    if 'A' <= c <= 'F' { assert s[16 + c as int - 'A' as int] == c; }
  }

  /**
   Which of the service's own responses the gateway accepts: exactly those of a service
   with a mapper whose provenance is 64 hexadecimal digits and with a named predictor
   revision, answering the decision the gateway asked for. Reliable or not, an accepted
   response passes unchanged.
   */
  lemma ServiceResponseAcceptedIff(a: Settings, req: DecisionRequest, confidence: real, ood: bool, score: Option<real>, expectedId: string)
    requires SettingsOk(a) && 0.0 <= confidence <= 1.0
    requires BuildResponse(a, req, confidence, ood, score).Response?
    ensures var b := BuildResponse(a, req, confidence, ood, score).bundle;
      && (ValidateBundle(b, expectedId).Some? <==>
            && a.mapper.Some? && Sha256Text(a.mapper.value.manifestSha256)
            && a.predictorRevision != "" && expectedId == req.decisionId)
      && (ValidateBundle(b, expectedId).Some? ==> ValidateBundle(b, expectedId).value == b)
  {
    hide Sha256Text, EstimatedTokens, BuildResponse, KnownVariant, KnownReason, EstimateOk;
    var b := BuildResponse(a, req, confidence, ood, score).bundle;
    if a.mapper.None? {
      WithoutMapper(a, req, confidence, ood, score);
    } else {
      ServiceFields(a, req, confidence, ood, score);
      MapperFields(a, req, confidence, ood, score);
      EstimateField(a, req, confidence, ood, score);
    }
  }

  lemma WithoutMapper(a: Settings, req: DecisionRequest, confidence: real, ood: bool, score: Option<real>)
    requires SettingsOk(a) && a.mapper.None?
    requires BuildResponse(a, req, confidence, ood, score).Response?
    ensures "mapping_version" !in BuildResponse(a, req, confidence, ood, score).bundle
  {
    hide EstimatedTokens;
  }

  lemma ServiceFields(a: Settings, req: DecisionRequest, confidence: real, ood: bool, score: Option<real>)
    requires SettingsOk(a)
    requires BuildResponse(a, req, confidence, ood, score).Response?
    ensures var b := BuildResponse(a, req, confidence, ood, score).bundle;
      && "schema_version" in b && b["schema_version"] == Text(SCHEMA_VERSION)
      && "decision_id" in b && b["decision_id"] == Text(req.decisionId)
      && "reliability_probability" in b && b["reliability_probability"] == Number(confidence)
      && "ood_score" in b && b["ood_score"] == Number(if ood then 1.0 else 0.0)
      && "predictor_revision" in b && b["predictor_revision"] == Text(a.predictorRevision)
      && "feature_variant" in b && b["feature_variant"] == Text(a.featureVariant)
  {
    hide EstimatedTokens, ReasonCode, Accepted, KnownVariant, SettingsOk;
  }

  lemma MapperFields(a: Settings, req: DecisionRequest, confidence: real, ood: bool, score: Option<real>)
    requires SettingsOk(a) && a.mapper.Some?
    requires BuildResponse(a, req, confidence, ood, score).Response?
    ensures var b := BuildResponse(a, req, confidence, ood, score).bundle;
      && "mapping_version" in b && b["mapping_version"] == Text(MAPPING_VERSION)
      && "approximation_notice" in b && b["approximation_notice"] == Text(APPROXIMATION_NOTICE)
      && "quantile_manifest_sha256" in b && b["quantile_manifest_sha256"] == Text(a.mapper.value.manifestSha256)
  {
    hide EstimatedTokens, ReasonCode;
    assert a.mapper.value.manifest.mappingVersion == MAPPING_VERSION;
    assert a.mapper.value.manifest.approximationNotice == APPROXIMATION_NOTICE;
    hide Accepted;
  }

  lemma EstimateField(a: Settings, req: DecisionRequest, confidence: real, ood: bool, score: Option<real>)
    requires SettingsOk(a)
    requires BuildResponse(a, req, confidence, ood, score).Response?
    ensures var b := BuildResponse(a, req, confidence, ood, score).bundle;
      && "reason_code" in b && b["reason_code"] == Text(ReasonCode(ood, confidence, req.missingOptional, a.threshold))
      && "prediction_reliable" in b && b["prediction_reliable"] == Flag(b["reason_code"] == Text("prediction_reliable"))
      && KnownReason(b["reason_code"].text)
      && EstimateOk(b, b["prediction_reliable"].flag, b["reason_code"].text)
  {
    hide EstimatedTokens, Accepted;
    if score.Some? {
      TokensInRange(a.mapper, score.value);
    }
  }

  lemma TokensInRange(mapper: Option<Mapper>, score: real)
    requires mapper.Some? ==> Accepted(mapper.value.manifest)
    ensures 1 <= EstimatedTokens(mapper, score) <= MAX_ESTIMATED_TOKENS
  {
  }

  // ----- `apply_decision_to_payload` -----

  /** A Python dict in insertion order. */
  datatype Entry = Entry(key: string, value: Cell)
  type Dict = seq<Entry>

  predicate HasKey(d: Dict, key: string) {
    exists i :: 0 <= i < |d| && d[i].key == key
  }

  /** The entries left when the given keys are popped. */
  function Strip(d: Dict, keys: set<string>): (r: Dict)
    ensures forall e :: e in r <==> e in d && e.key !in keys
  {
    if d == [] then []
    else (if d[0].key in keys then [] else [d[0]]) + Strip(d[1..], keys)
  }

  /** `d[key] = value`: in place if the key is there, at the end otherwise. */
  function Put(d: Dict, key: string, value: Cell): Dict {
    if d == [] then [Entry(key, value)]
    else if d[0].key == key then [Entry(key, value)] + d[1..]
    else [d[0]] + Put(d[1..], key, value)
  }

  lemma {:induction false} PutAppends(d: Dict, key: string, value: Cell)
    requires !HasKey(d, key)
    ensures Put(d, key, value) == d + [Entry(key, value)]
  {
    if d != [] {
      assert d[0].key != key;
      assert forall i :: 0 <= i < |d[1..]| ==> d[1..][i] == d[i + 1];
      PutAppends(d[1..], key, value);
    }
  }

  lemma {:induction false} StripTwice(d: Dict, a: set<string>, b: set<string>)
    ensures Strip(Strip(d, a), b) == Strip(d, a + b)
  {
    if d != [] {
      StripTwice(d[1..], a, b);
      var rest := Strip(d[1..], a);
      if d[0].key in a {
        assert Strip(d, a) == rest;
      } else {
        assert Strip(d, a) == [d[0]] + rest && ([d[0]] + rest)[1..] == rest;
      }
    }
  }

  datatype XargsField = Missing | Mapping(entries: Dict) | NotMapping(value: Cell)

  /** A client payload, with `vllm_xargs` apart from the other fields. */
  datatype Payload = Payload(others: map<string, Cell>, xargs: XargsField)

  datatype RpcResult = RpcResult(bundle: Option<Bundle>, errorCode: Option<string>)

  datatype Audit = Audit(decisionId: string, fallbackSource: Option<string>, reasonCode: Option<string>, errorCode: Option<string>)

  /** The client's engine arguments without the optimizer's keys. */
  function ClientXargs(p: Payload): Dict {
    if p.xargs.Mapping? then Strip(p.xargs.entries, OPTIMIZER_XARGS) else []
  }

  /** What a decision adds, in the order it is written. */
  function DecisionEntries(b: Bundle, decisionId: string, workflowId: Option<string>, stepId: Option<string>): Dict
    requires Legible(b)
  {
    [Entry("prediction_reliable", Whole(if b["prediction_reliable"].flag then RELIABLE else UNRELIABLE)),
     Entry("decision_id", Text(decisionId))]
    + (if workflowId.Some? then [Entry("workflow_id", Text(workflowId.value))] else [])
    + (if stepId.Some? then [Entry("step_id", Text(stepId.value))] else [])
    + (if b["prediction_reliable"].flag then [Entry("workflow_estimated_tokens", b["estimated_tokens"])] else [])
  }

  /** A bundle that says whether it is reliable, and why, and that has an estimate if it is. */
  predicate Legible(b: Bundle) {
    && "prediction_reliable" in b && b["prediction_reliable"].Flag?
    && "reason_code" in b && b["reason_code"].Text?
    && (b["prediction_reliable"].flag ==>
          "estimated_tokens" in b && b["estimated_tokens"].Whole?
          && 1 <= b["estimated_tokens"].whole <= MAX_ESTIMATED_TOKENS)
  }

  /** The bundle a call ends with, if the gateway may use it. */
  function UsableBundle(rpc: RpcResult, expectedId: string): (r: Option<Bundle>)
    ensures r.Some? ==> Legible(r.value)
  {
    if rpc.bundle.None? || rpc.errorCode.Some? then None
    else
      hide ValidateBundle;
      var checked := ValidateBundle(rpc.bundle.value, expectedId);
      if checked.None? then None
      else
        AcceptedEstimate(rpc.bundle.value, expectedId);
        checked
  }

  /** The payload the gateway sends on. */
  function Forwarded(p: Payload, rpc: RpcResult, expectedId: string, workflowId: Option<string>, stepId: Option<string>): Payload {
    match UsableBundle(rpc, expectedId)
    case None => Payload(p.others, if ClientXargs(p) == [] then Missing else Mapping(ClientXargs(p)))
    case Some(b) => Payload(p.others, Mapping(ClientXargs(p) + DecisionEntries(b, expectedId, workflowId, stepId)))
  }

  // ----- what is forwarded, from the client's side -----

  ghost predicate DistinctEntries(d: Dict) {
    forall i, j :: 0 <= i < j < |d| ==> d[i].key != d[j].key
  }

  lemma {:induction false} StripKeepsDistinct(d: Dict, keys: set<string>)
    requires DistinctEntries(d)
    ensures DistinctEntries(Strip(d, keys))
    ensures forall key :: key !in keys ==> (HasKey(d, key) <==> HasKey(Strip(d, keys), key))
  {
    if d != [] {
      assert forall i :: 0 <= i < |d[1..]| ==> d[1..][i] == d[i + 1];
      StripKeepsDistinct(d[1..], keys);
      var rest := Strip(d[1..], keys);
      var r := Strip(d, keys);
      forall i | 0 <= i < |rest| ensures rest[i].key != d[0].key { assert rest[i] in rest; assert rest[i] in d[1..]; }
      forall key | key !in keys ensures HasKey(d, key) <==> HasKey(r, key) {
        HasKeyCons(d, key);
        if d[0].key !in keys { HasKeyCons(r, key); assert r[1..] == rest; }
      }
    }
  }

  lemma HasKeyCons(d: Dict, key: string)
    requires d != []
    ensures HasKey(d, key) <==> d[0].key == key || HasKey(d[1..], key)
  {
    assert forall i :: 0 <= i < |d[1..]| ==> d[1..][i] == d[i + 1];
    if HasKey(d, key) && d[0].key != key {
      var i :| 0 <= i < |d| && d[i].key == key;
      assert d[1..][i - 1].key == key;
    }
  }

  ghost predicate InThisOrder(d: Dict, x: Entry, y: Entry) {
    exists k, l :: 0 <= k < l < |d| && d[k] == x && d[l] == y
  }

  /** The engine arguments that the client gave and the optimizer does not own: the same in both, in the same order. */
  ghost predicate ClientPartKept(given: Dict, sent: Dict) {
    && (forall e: Entry :: e.key !in OPTIMIZER_XARGS ==> (e in sent <==> e in given))
    && (forall i, j :: 0 <= i < j < |given| && given[i].key !in OPTIMIZER_XARGS && given[j].key !in OPTIMIZER_XARGS ==>
          InThisOrder(sent, given[i], given[j]))
    && (DistinctEntries(given) ==> DistinctEntries(sent))
  }

  /** The optimizer's arguments say what the bundle and the caller say, and nothing the client said. */
  ghost predicate DecisionSent(sent: Dict, b: Bundle, decisionId: string, workflowId: Option<string>, stepId: Option<string>)
    requires Legible(b)
  {
    && (forall value :: Entry("decision_id", value) in sent <==> value == Text(decisionId))
    && (forall value :: Entry("workflow_id", value) in sent <==> workflowId.Some? && value == Text(workflowId.value))
    && (forall value :: Entry("step_id", value) in sent <==> stepId.Some? && value == Text(stepId.value))
    && (forall value :: Entry("prediction_reliable", value) in sent <==>
          value == Whole(if b["prediction_reliable"].flag then 1 else 0))
    && (forall value :: Entry("workflow_estimated_tokens", value) in sent <==>
          b["prediction_reliable"].flag && value == b["estimated_tokens"])
  }

  function EntriesOf(xargs: XargsField): Dict { if xargs.Mapping? then xargs.entries else [] }

  lemma OrderBehind(head: Dict, rest: Dict, x: Entry, y: Entry)
    ensures InThisOrder(rest, x, y) ==> InThisOrder(head + rest, x, y)
    ensures head == [x] && y in rest ==> InThisOrder(head + rest, x, y)
  {
    if InThisOrder(rest, x, y) {
      var k, l :| 0 <= k < l < |rest| && rest[k] == x && rest[l] == y;
      assert (head + rest)[|head| + k] == x && (head + rest)[|head| + l] == y;
    }
    if head == [x] && y in rest {
      var l :| 0 <= l < |rest| && rest[l] == y;
      assert (head + rest)[0] == x && (head + rest)[1 + l] == y;
    }
  }

  lemma {:induction false} StripKeepsOrder(d: Dict, keys: set<string>, i: nat, j: nat)
    requires i < j < |d| && d[i].key !in keys && d[j].key !in keys
    ensures InThisOrder(Strip(d, keys), d[i], d[j])
  {
    var head := if d[0].key in keys then [] else [d[0]];
    assert Strip(d, keys) == head + Strip(d[1..], keys);
    assert d[1..][j - 1] == d[j];
    hide InThisOrder, Strip;
    OrderBehind(head, Strip(d[1..], keys), d[i], d[j]);
    if i > 0 { StripKeepsOrder(d[1..], keys, i - 1, j - 1); }
  }

  lemma OrderWithTail(d: Dict, tail: Dict, x: Entry, y: Entry)
    requires InThisOrder(d, x, y)
    ensures InThisOrder(d + tail, x, y)
  {
    var k, l :| 0 <= k < l < |d| && d[k] == x && d[l] == y;
    assert (d + tail)[k] == x && (d + tail)[l] == y;
  }

  function Appended(base: Dict, given: bool, e: Entry): Dict { base + if given then [e] else [] }

  lemma OptionalTail(base: Dict, given: bool, e: Entry)
    ensures forall x :: x in Appended(base, given, e) <==> x in base || (given && x == e)
    ensures DistinctEntries(base) && !HasKey(base, e.key) ==> DistinctEntries(Appended(base, given, e))
    ensures forall key :: HasKey(Appended(base, given, e), key) ==> HasKey(base, key) || key == e.key
  {
  }

  lemma DecisionPair(reliable: Cell, id: Cell)
    ensures var d := [Entry("prediction_reliable", reliable), Entry("decision_id", id)];
      && DistinctEntries(d)
      && (forall x :: x in d <==> x == Entry("prediction_reliable", reliable) || x == Entry("decision_id", id))
      && (forall key :: HasKey(d, key) <==> key == "prediction_reliable" || key == "decision_id")
  {
    assert |"prediction_reliable"| != |"decision_id"|;
    var d := [Entry("prediction_reliable", reliable), Entry("decision_id", id)];
    assert d[0].key == "prediction_reliable" && d[1].key == "decision_id";
  }

  lemma OptimizerNames()
    ensures "decision_id" != "workflow_id" && "step_id" != "decision_id" && "step_id" != "workflow_id"
    ensures "prediction_reliable" != "decision_id" && "prediction_reliable" != "workflow_id" && "prediction_reliable" != "step_id"
    ensures "workflow_estimated_tokens" != "decision_id" && "workflow_estimated_tokens" != "workflow_id"
    ensures "workflow_estimated_tokens" != "step_id" && "workflow_estimated_tokens" != "prediction_reliable"
  {
    assert "decision_id"[0] != "workflow_id"[0];
    assert |"step_id"| < |"decision_id"| == |"workflow_id"| < |"prediction_reliable"| < |"workflow_estimated_tokens"|;
  }

  lemma OptimizerNamesAreListed()
    ensures OPTIMIZER_XARGS ==
      {"prediction_reliable", "decision_id", "workflow_id", "step_id", "workflow_estimated_tokens"}
  {
  }

  lemma DecisionEntriesAre(b: Bundle, decisionId: string, workflowId: Option<string>, stepId: Option<string>)
    requires Legible(b)
    ensures var tail, reliable := DecisionEntries(b, decisionId, workflowId, stepId), b["prediction_reliable"].flag;
      && DistinctEntries(tail)
      && forall e :: e in tail <==>
           || e == Entry("prediction_reliable", Whole(if reliable then RELIABLE else UNRELIABLE))
           || e == Entry("decision_id", Text(decisionId))
           || (workflowId.Some? && e == Entry("workflow_id", Text(workflowId.value)))
           || (stepId.Some? && e == Entry("step_id", Text(stepId.value)))
           || (reliable && e == Entry("workflow_estimated_tokens", b["estimated_tokens"]))
  {
    OptimizerNames();
    hide OPTIMIZER_XARGS, DistinctEntries, HasKey;
    var reliable := b["prediction_reliable"].flag;
    var says, id := Whole(if reliable then RELIABLE else UNRELIABLE), Text(decisionId);
    DecisionPair(says, id);
    var d := [Entry("prediction_reliable", says), Entry("decision_id", id)];
    var w := Entry("workflow_id", Text(if workflowId.Some? then workflowId.value else ""));
    assert !HasKey(d, "workflow_id");
    OptionalTail(d, workflowId.Some?, w);
    var dw := Appended(d, workflowId.Some?, w);
    var s := Entry("step_id", Text(if stepId.Some? then stepId.value else ""));
    assert !HasKey(dw, "step_id");
    OptionalTail(dw, stepId.Some?, s);
    var dws := Appended(dw, stepId.Some?, s);
    var t := Entry("workflow_estimated_tokens", if reliable then b["estimated_tokens"] else says);
    assert !HasKey(dws, "workflow_estimated_tokens");
    OptionalTail(dws, reliable, t);
    assert DecisionEntries(b, decisionId, workflowId, stepId) == Appended(dws, reliable, t);
  }

  /** The arguments a decision adds are the optimizer's own, each once. */
  lemma DecisionEntriesAreOptimizers(b: Bundle, decisionId: string, workflowId: Option<string>, stepId: Option<string>)
    requires Legible(b)
    ensures var tail := DecisionEntries(b, decisionId, workflowId, stepId);
      && (forall e :: e in tail ==> e.key in OPTIMIZER_XARGS)
      && DistinctEntries(tail)
      && DecisionSent(tail, b, decisionId, workflowId, stepId)
  {
    DecisionEntriesAre(b, decisionId, workflowId, stepId);
    OptimizerNamesAreListed();
    OptimizerNames();
    hide OPTIMIZER_XARGS, DistinctEntries, DecisionEntries;
  }

  lemma JoinedParts(given: Dict, tail: Dict)
    requires forall e :: e in tail ==> e.key in OPTIMIZER_XARGS
    requires DistinctEntries(tail)
    ensures ClientPartKept(given, Strip(given, OPTIMIZER_XARGS) + tail)
    ensures forall e: Entry :: e.key in OPTIMIZER_XARGS ==> (e in Strip(given, OPTIMIZER_XARGS) + tail <==> e in tail)
  {
    hide OPTIMIZER_XARGS, Strip, InThisOrder;
    var kept := Strip(given, OPTIMIZER_XARGS);
    forall i, j | 0 <= i < j < |given| && given[i].key !in OPTIMIZER_XARGS && given[j].key !in OPTIMIZER_XARGS
      ensures InThisOrder(kept + tail, given[i], given[j])
    {
      StripKeepsOrder(given, OPTIMIZER_XARGS, i, j);
      OrderWithTail(kept, tail, given[i], given[j]);
    }
    if DistinctEntries(given) {
      StripKeepsDistinct(given, OPTIMIZER_XARGS);
      forall i, j | 0 <= i < |kept| && 0 <= j < |tail| ensures kept[i].key != tail[j].key {
        assert kept[i] in kept && tail[j] in tail;
      }
    }
  }

  /**
   The forwarded payload, in the client's and the caller's terms. Every other field of
   the payload is as the client sent it, and so is every engine argument the optimizer
   does not own, in its order; the optimizer's own are the decision's and the caller's,
   or, without a usable bundle, absent.
   */
  lemma ForwardedKeepsPayload(p: Payload, rpc: RpcResult, expectedId: string, workflowId: Option<string>, stepId: Option<string>)
    ensures var f := Forwarded(p, rpc, expectedId, workflowId, stepId);
      && f.others == p.others && !f.xargs.NotMapping?
      && ClientPartKept(EntriesOf(p.xargs), EntriesOf(f.xargs))
      && (UsableBundle(rpc, expectedId).Some? ==>
            DecisionSent(EntriesOf(f.xargs), UsableBundle(rpc, expectedId).value, expectedId, workflowId, stepId))
      && (UsableBundle(rpc, expectedId).None? ==>
            && (forall e :: e in EntriesOf(f.xargs) ==> e.key !in OPTIMIZER_XARGS)
            && (f.xargs.Missing? <==> forall e :: e in EntriesOf(p.xargs) ==> e.key in OPTIMIZER_XARGS))
  {
    hide OPTIMIZER_XARGS, Strip, DecisionEntries, UsableBundle, ClientPartKept, DecisionSent;
    var given, kept := EntriesOf(p.xargs), ClientXargs(p);
    StrippedXargs(p);
    match UsableBundle(rpc, expectedId)
    case None =>
      JoinedParts(given, []);
      assert kept + [] == kept;
      if kept == [] {
        assert forall e :: e in given && e.key !in OPTIMIZER_XARGS ==> e in kept;
      } else {
        assert kept[0] in kept;
      }
    case Some(b) =>
      var tail := DecisionEntries(b, expectedId, workflowId, stepId);
      DecisionEntriesAreOptimizers(b, expectedId, workflowId, stepId);
      JoinedParts(given, tail);
      SameDecision(tail, kept + tail, b, expectedId, workflowId, stepId);
  }

  lemma StrippedXargs(p: Payload)
    ensures ClientXargs(p) == Strip(EntriesOf(p.xargs), OPTIMIZER_XARGS)
  {
    StripNone(OPTIMIZER_XARGS);
  }

  lemma SameDecision(tail: Dict, sent: Dict, b: Bundle, decisionId: string, workflowId: Option<string>, stepId: Option<string>)
    requires Legible(b) && DecisionSent(tail, b, decisionId, workflowId, stepId)
    requires forall e: Entry :: e.key in OPTIMIZER_XARGS ==> (e in sent <==> e in tail)
    ensures DecisionSent(sent, b, decisionId, workflowId, stepId)
  {
    OptimizerNamesAreListed();
    hide OPTIMIZER_XARGS;
  }

  /**
   `apply_decision_to_payload`. Of the client's payload only the optimizer's keys are
   replaced; without a usable bundle nothing takes their place.
   */
  method ApplyDecision(payload: Payload, rpc: RpcResult, expectedId: string, workflowId: Option<string>, stepId: Option<string>)
      returns (forwarded: Payload, audit: Audit)
    ensures forwarded == Forwarded(payload, rpc, expectedId, workflowId, stepId)
    ensures forwarded.others == payload.others
    ensures ClientPartKept(EntriesOf(payload.xargs), EntriesOf(forwarded.xargs))
    ensures UsableBundle(rpc, expectedId).Some? ==>
      DecisionSent(EntriesOf(forwarded.xargs), UsableBundle(rpc, expectedId).value, expectedId, workflowId, stepId)
    ensures UsableBundle(rpc, expectedId).None? ==> forall e :: e in EntriesOf(forwarded.xargs) ==> e.key !in OPTIMIZER_XARGS
    ensures UsableBundle(rpc, expectedId).Some? <==>
      rpc.errorCode.None? && rpc.bundle.Some? && ValidateBundle(rpc.bundle.value, expectedId).Some?
    ensures UsableBundle(rpc, expectedId).None? ==>
      && audit.fallbackSource == Some("fallback_native") && audit.reasonCode.None?
      && audit.errorCode == Some(
           if rpc.errorCode.Some? && rpc.errorCode.value != "" then rpc.errorCode.value else "malformed_response")
    ensures UsableBundle(rpc, expectedId).Some? ==>
      var b := UsableBundle(rpc, expectedId).value;
      && (audit.fallbackSource.None? <==> b["prediction_reliable"].flag)
      && audit.reasonCode == Some(b["reason_code"].text) && audit.errorCode.None?
    ensures audit.decisionId == expectedId
  {
    hide ValidateBundle, Strip, Put, ClientPartKept, DecisionSent, DecisionEntries;
    ForwardedKeepsPayload(payload, rpc, expectedId, workflowId, stepId);
    var xargs := if payload.xargs.Mapping? then payload.xargs.entries else [];
    ghost var given := xargs;
    var remaining := OPTIMIZER_XARGS;
    StripNothing(given);
    assert OPTIMIZER_XARGS - remaining == {};
    while remaining != {}
      invariant remaining <= OPTIMIZER_XARGS
      invariant xargs == Strip(given, OPTIMIZER_XARGS - remaining)
      decreases |remaining|
    {
      var key :| key in remaining;
      StripTwice(given, OPTIMIZER_XARGS - remaining, {key});
      assert OPTIMIZER_XARGS - remaining + {key} == OPTIMIZER_XARGS - (remaining - {key});
      xargs := Strip(xargs, {key});
      remaining := remaining - {key};
    }
    assert OPTIMIZER_XARGS - remaining == OPTIMIZER_XARGS;
    assert xargs == ClientXargs(payload) by { StripNone(OPTIMIZER_XARGS); }
    ClientXargsAreFree(payload);
    forwarded := Payload(payload.others, if xargs == [] then Missing else Mapping(xargs));
    if rpc.bundle.None? || rpc.errorCode.Some? {
      var code := if rpc.errorCode.Some? && rpc.errorCode.value != "" then rpc.errorCode.value else "malformed_response";
      audit := Audit(expectedId, Some("fallback_native"), None, Some(code));
      return;
    }
    var checked := ValidateBundle(rpc.bundle.value, expectedId);
    if checked.None? {
      audit := Audit(expectedId, Some("fallback_native"), None, Some("malformed_response"));
      return;
    }
    AcceptedEstimate(rpc.bundle.value, expectedId);
    var b := checked.value;
    var reliable := b["prediction_reliable"].flag;
    PutDecision(xargs, b, expectedId, workflowId, stepId);
    var transported := Put(xargs, "prediction_reliable", Whole(if reliable then RELIABLE else UNRELIABLE));
    transported := Put(transported, "decision_id", Text(expectedId));
    if workflowId.Some? {
      transported := Put(transported, "workflow_id", Text(workflowId.value));
    }
    if stepId.Some? {
      transported := Put(transported, "step_id", Text(stepId.value));
    }
    if reliable {
      transported := Put(transported, "workflow_estimated_tokens", b["estimated_tokens"]);
    }
    forwarded := Payload(payload.others, Mapping(transported));
    audit := Audit(expectedId, if reliable then None else Some("fallback_native"), Some(b["reason_code"].text), None);
  }

  lemma StripNone(keys: set<string>)
    ensures Strip([], keys) == []
  {
  }

  lemma {:induction false} StripNothing(d: Dict)
    ensures Strip(d, {}) == d
  {
    if d != [] { StripNothing(d[1..]); }
  }

  predicate OptimizerFree(d: Dict) {
    forall i :: 0 <= i < |d| ==> d[i].key !in OPTIMIZER_XARGS
  }

  lemma ClientXargsAreFree(p: Payload)
    ensures OptimizerFree(ClientXargs(p))
  {
    hide Strip;
    forall i | 0 <= i < |ClientXargs(p)| ensures ClientXargs(p)[i].key !in OPTIMIZER_XARGS {
      assert ClientXargs(p)[i] in ClientXargs(p);
    }
  }

  /** An optimizer key that is new among those written so far goes to the end. */
  lemma PutFresh(base: Dict, tail: Dict, key: string, value: Cell)
    requires OptimizerFree(base) && key in OPTIMIZER_XARGS && !HasKey(tail, key)
    ensures Put(base + tail, key, value) == base + (tail + [Entry(key, value)])
  {
    hide Put;
    assert !HasKey(base + tail, key);
    PutAppends(base + tail, key, value);
    assert base + tail + [Entry(key, value)] == base + (tail + [Entry(key, value)]);
  }

  lemma PutDecision(base: Dict, b: Bundle, id: string, workflowId: Option<string>, stepId: Option<string>)
    requires OptimizerFree(base)
    requires Legible(b)
    ensures
      var reliable := b["prediction_reliable"].flag;
      var t1 := Put(base, "prediction_reliable", Whole(if reliable then RELIABLE else UNRELIABLE));
      var t2 := Put(t1, "decision_id", Text(id));
      var t3 := if workflowId.Some? then Put(t2, "workflow_id", Text(workflowId.value)) else t2;
      var t4 := if stepId.Some? then Put(t3, "step_id", Text(stepId.value)) else t3;
      var t5 := if reliable then Put(t4, "workflow_estimated_tokens", b["estimated_tokens"]) else t4;
      t5 == base + DecisionEntries(b, id, workflowId, stepId)
  {
    hide Put, OptimizerFree;
    var reliable := b["prediction_reliable"].flag;
    var r := Whole(if reliable then RELIABLE else UNRELIABLE);
    assert base + [] == base;
    var e1: Dict := [Entry("prediction_reliable", r)];
    PutFresh(base, [], "prediction_reliable", r);
    assert [] + e1 == e1;
    PutFresh(base, e1, "decision_id", Text(id));
    var e2 := e1 + [Entry("decision_id", Text(id))];
    var e3 := e2 + if workflowId.Some? then [Entry("workflow_id", Text(workflowId.value))] else [];
    if workflowId.Some? { PutFresh(base, e2, "workflow_id", Text(workflowId.value)); } else { assert e3 == e2; }
    var e4 := e3 + if stepId.Some? then [Entry("step_id", Text(stepId.value))] else [];
    if stepId.Some? { PutFresh(base, e3, "step_id", Text(stepId.value)); } else { assert e4 == e3; }
    if reliable { PutFresh(base, e4, "workflow_estimated_tokens", b["estimated_tokens"]); }
    assert e2 == [Entry("prediction_reliable", r), Entry("decision_id", Text(id))];
    var e5 := e4 + if reliable then [Entry("workflow_estimated_tokens", b["estimated_tokens"])] else [];
    assert reliable || e5 == e4;
    assert e5 == DecisionEntries(b, id, workflowId, stepId);
  }
}
