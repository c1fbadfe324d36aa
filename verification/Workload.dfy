/** Requests as the simulators see them, and what each one costs to serve. */
module Workload {

  datatype WorkItem = WorkItem(
    requestId: string,
    kind: string,
    outputTokens: nat,
    promptProxy: nat,
    category: string)

  /** One entry of an arrival list: when the request comes in, and the request. */
  datatype Arrival = Arrival(time: real, item: WorkItem)

  /** Python's `part in whole` on strings. */
  predicate Contains(part: string, whole: string) {
    part <= whole || (whole != "" && Contains(part, whole[1..]))
  }

  function ServiceTime(item: WorkItem): (cost: real)
    ensures cost >= 25.0
  {
    if item.kind == "chat" then
      25.0 + 0.85 * item.outputTokens as real + 0.03 * item.promptProxy as real
    else
      var overhead := 35.0
        + (if Contains("multi_turn", item.category) then 90.0 else 0.0)
        + (if Contains("live_multiple", item.category) then 25.0 else 0.0);
      overhead + 1.10 * item.outputTokens as real + 0.01 * item.promptProxy as real
  }

  function ToolawareRuleScore(item: WorkItem): real {
    item.promptProxy as real
    + (if item.kind == "tool" then 80.0 else 0.0)
    + (if Contains("multi_turn", item.category) then 180.0 else 0.0)
  }

  function CategoryCost(kind: string, category: string): (cost: real)
    ensures cost >= 90.0
  {
    if kind == "chat" then 250.0
    else if Contains("multi_turn", category) then 420.0
    else if Contains("live_multiple", category) then 180.0
    else 90.0
  }

  function TailRiskMultiplier(kind: string, category: string): (m: real)
    ensures 0.45 <= m <= 1.25
  {
    if kind == "chat" then 0.65
    else if Contains("multi_turn", category) then 1.25
    else if Contains("live_multiple", category) then 0.90
    else 0.45
  }

  /** The simulator's risk inflation: chat is costed by its service time, tools by category. */
  function TailRiskCostScore(item: WorkItem, tailWeight: real): real {
    var expected := if item.kind == "chat" then ServiceTime(item) else CategoryCost(item.kind, item.category);
    expected * (1.0 + tailWeight * TailRiskMultiplier(item.kind, item.category))
  }

  /** `Contains` is Python's `in`: some place in the text starts with the part. */
  lemma {:induction false} ContainsIff(part: string, whole: string)
    ensures Contains(part, whole) <==> exists i :: 0 <= i <= |whole| && part <= whole[i..]
  {
    if part <= whole {
      assert whole[0..] == whole;
    } else if whole != "" {
      ContainsIff(part, whole[1..]);
      if Contains(part, whole[1..]) {
        var i :| 0 <= i <= |whole[1..]| && part <= whole[1..][i..];
        assert whole[i + 1..] == whole[1..][i..];
      }
      if exists i :: 0 <= i <= |whole| && part <= whole[i..] {
        var i :| 0 <= i <= |whole| && part <= whole[i..];
        assert whole[0..] == whole;
        assert whole[1..][i - 1..] == whole[i..];
      }
    }
  }

  /** What more tokens cost, and what a request without any costs. */
  lemma ServiceTimeGrows(item: WorkItem, n: nat)
    ensures var perOutput, perPrompt := if item.kind == "chat" then 0.85 else 1.1, if item.kind == "chat" then 0.03 else 0.01;
      && ServiceTime(item.(outputTokens := item.outputTokens + n)) == ServiceTime(item) + n as real * perOutput
      && ServiceTime(item.(promptProxy := item.promptProxy + n)) == ServiceTime(item) + n as real * perPrompt
    ensures var idle, tool := ServiceTime(item.(outputTokens := 0, promptProxy := 0)), item.kind != "chat";
      var multi, live := Contains("multi_turn", item.category), Contains("live_multiple", item.category);
      && (!tool <==> idle == 25.0)
      && (tool && !multi && !live <==> idle == 35.0) && (tool && !multi && live <==> idle == 60.0)
      && (tool && multi && !live <==> idle == 125.0) && (tool && multi && live <==> idle == 150.0)
  {
    hide Contains;
  }

  /** The cost and the risk of a request tell its class, and each other. */
  lemma CostTellsClass(kind: string, category: string)
    ensures var cost, risk := CategoryCost(kind, category), TailRiskMultiplier(kind, category);
      var multi, live := Contains("multi_turn", category), Contains("live_multiple", category);
      && (kind == "chat" <==> cost == 250.0) && (kind == "chat" <==> risk == 0.65)
      && (kind != "chat" && multi <==> cost == 420.0) && (kind != "chat" && multi <==> risk == 1.25)
      && (kind != "chat" && !multi && live <==> cost == 180.0) && (kind != "chat" && !multi && live <==> risk == 0.9)
      && (kind != "chat" && !multi && !live <==> cost == 90.0) && (kind != "chat" && !multi && !live <==> risk == 0.45)
  {
    hide Contains;
  }

  /** The rule's surcharges on the prompt: 80 for a tool, 180 for several turns. */
  lemma RuleSurcharges(item: WorkItem)
    ensures var tool, multi, extra := item.kind == "tool", Contains("multi_turn", item.category),
                                      ToolawareRuleScore(item) - item.promptProxy as real;
      && (tool && multi <==> extra == 260.0) && (!tool && multi <==> extra == 180.0)
      && (tool && !multi <==> extra == 80.0) && (!tool && !multi <==> extra == 0.0)
  {
    hide Contains;
  }

  /** The risk cost: chat by its service time, tools by their category, and each raised by its risk times the weight. */
  lemma RiskRaisesCost(item: WorkItem, tailWeight: real)
    ensures item.kind == "chat" ==> TailRiskCostScore(item, 0.0) == ServiceTime(item)
    ensures item.kind != "chat" ==> TailRiskCostScore(item, 0.0) == CategoryCost(item.kind, item.category)
    ensures TailRiskCostScore(item, tailWeight) - TailRiskCostScore(item, 0.0)
      == TailRiskCostScore(item, 0.0) * (tailWeight * TailRiskMultiplier(item.kind, item.category))
  {
    hide Contains, ServiceTime, CategoryCost, TailRiskMultiplier;
  }

  /** Work(q) is the time the server needs for all of q. */
  function Work(queue: seq<Arrival>): (w: real)
    ensures w >= 0.0
  {
    if queue == [] then 0.0 else ServiceTime(queue[0].item) + Work(queue[1..])
  }

  ghost predicate SortedByTime(queue: seq<Arrival>) {
    forall i, j :: 0 <= i < j < |queue| ==> queue[i].time <= queue[j].time
  }

  /** The first m requests of the queue have arrived by `now`. */
  ghost predicate Arrived(now: real, queue: seq<Arrival>, m: nat) {
    m <= |queue| && forall i :: 0 <= i < m ==> queue[i].time <= now
  }

  /** What `pop(k)` leaves behind. */
  function RemoveAt<T>(s: seq<T>, k: nat): (r: seq<T>)
    requires k < |s|
    ensures |r| == |s| - 1
  {
    s[..k] + s[k + 1..]
  }

  lemma RemoveAtTail<T>(s: seq<T>, k: nat)
    requires 0 < k < |s|
    ensures RemoveAt(s, k)[0] == s[0] && RemoveAt(s, k)[1..] == RemoveAt(s[1..], k - 1)
  {
  }

  lemma RemoveAtElements<T>(s: seq<T>, k: nat)
    requires k < |s|
    ensures multiset(s) == multiset{s[k]} + multiset(RemoveAt(s, k))
  {
    assert s == s[..k] + [s[k]] + s[k + 1..];
  }

  lemma {:induction false} WorkOfRemoveAt(queue: seq<Arrival>, k: nat)
    requires k < |queue|
    ensures Work(queue) == ServiceTime(queue[k].item) + Work(RemoveAt(queue, k))
  {
    hide ServiceTime;
    if k > 0 {
      WorkOfRemoveAt(queue[1..], k - 1);
      assert RemoveAt(queue, k)[1..] == RemoveAt(queue[1..], k - 1);
    } else {
      assert RemoveAt(queue, 0) == queue[1..];
    }
  }
}
