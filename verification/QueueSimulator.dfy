/**
 The single-server, non-preemptive queue loop: `simulate_queue`, and the copies of
 the same loop in `_simulate_selection` and `simulate_candidate`.

 A loop state is a clock, the requests not yet served, and how many of them have
 been admitted: `queue == pending + arrivals[index..]` and `admitted == |pending|`.
 */
module QueueSimulator {
  import opened Orders
  import opened Workload

  /** The pair a key function returns; smaller pairs go first. */
  type Priority = (real, real)

  /** A key function: request, age and arrival time to priority. */
  type KeyFn = (WorkItem, real, real) -> Priority

  /** The `fcfs` branch takes the head of the pending list; every other one minimises a key. */
  datatype Selector = Head | ByKey(key: KeyFn)

  /** A service slot: which request, and when it started. */
  datatype Served = Served(arrival: Arrival, start: real) {
    function Wait(): real { RMax(0.0, start - arrival.time) }
    function End(): real { start + ServiceTime(arrival.item) }
  }

  /** Python's `<` on priorities. */
  predicate Before(a: Priority, b: Priority) {
    a.0 < b.0 || (a.0 == b.0 && a.1 < b.1)
  }

  function PriorityOf(key: KeyFn, now: real, a: Arrival): Priority {
    key(a.item, RMax(0.0, now - a.time), a.time)
  }

  /** `min(range(len(pending)), key=...)`: the first position of least priority. */
  function FirstMinimum(key: KeyFn, now: real, pending: seq<Arrival>): (k: nat)
    requires pending != []
    ensures k < |pending|
    ensures forall j :: 0 <= j < |pending| ==>
      !Before(PriorityOf(key, now, pending[j]), PriorityOf(key, now, pending[k]))
    ensures forall j :: 0 <= j < k ==>
      Before(PriorityOf(key, now, pending[k]), PriorityOf(key, now, pending[j]))
  {
    var last := |pending| - 1;
    if last == 0 then 0
    else
      var k := FirstMinimum(key, now, pending[..last]);
      if Before(PriorityOf(key, now, pending[last]), PriorityOf(key, now, pending[k])) then last else k
  }

  function Select(sel: Selector, now: real, pending: seq<Arrival>): (k: nat)
    requires pending != []
    ensures k < |pending|
  {
    match sel
    case Head => 0
    case ByKey(key) => FirstMinimum(key, now, pending)
  }

  /** How many requests are admitted once everything that has arrived by `now` has been let in. */
  function Admit(now: real, queue: seq<Arrival>, admitted: nat): (m: nat)
    requires admitted <= |queue|
    ensures admitted <= m <= |queue|
    ensures forall i :: admitted <= i < m ==> queue[i].time <= now
    ensures m < |queue| ==> now < queue[m].time
    decreases |queue| - admitted
  {
    if admitted < |queue| && queue[admitted].time <= now then Admit(now, queue, admitted + 1) else admitted
  }

  /** The clock after the idle jump: an empty server waits for the next arrival. */
  function Wake(now: real, queue: seq<Arrival>, admitted: nat): (t: real)
    requires admitted <= |queue|
    ensures now <= t
  {
    if admitted == 0 && queue != [] && now < queue[0].time then queue[0].time else now
  }

  /** The services of a whole run, in order. */
  function Run(sel: Selector, now: real, queue: seq<Arrival>, admitted: nat): (run: seq<Served>)
    requires admitted <= |queue|
    ensures |run| == |queue|
    decreases |queue|
  {
    if queue == [] then []
    else
      var t := Wake(now, queue, admitted);
      var m := Admit(t, queue, admitted);
      var k := Select(sel, t, queue[..m]);
      [Served(queue[k], t)] + Run(sel, t + ServiceTime(queue[k].item), RemoveAt(queue, k), m - 1)
  }

  function Waits(run: seq<Served>): (r: seq<real>)
    ensures |r| == |run| && forall i :: 0 <= i < |run| ==> r[i] == run[i].Wait()
  {
    seq(|run|, i requires 0 <= i < |run| => run[i].Wait())
  }

  function Services(run: seq<Served>): (r: seq<real>)
    ensures |r| == |run| && forall i :: 0 <= i < |run| ==> r[i] == ServiceTime(run[i].arrival.item)
  {
    seq(|run|, i requires 0 <= i < |run| => ServiceTime(run[i].arrival.item))
  }

  /** Waits of the requests whose service takes at least 250 ms. */
  function SlowWaits(run: seq<Served>): seq<real> {
    if run == [] then []
    else
      var last := run[|run| - 1];
      SlowWaits(run[..|run| - 1]) + if ServiceTime(last.arrival.item) >= 250.0 then [last.Wait()] else []
  }

  function EndClock(now: real, run: seq<Served>): real {
    if run == [] then now else run[|run| - 1].End()
  }

  /** Recording one more service extends every list of the report by that service's entry. */
  lemma RecordExtends(run: seq<Served>, slot: Served)
    ensures Waits(run + [slot]) == Waits(run) + [slot.Wait()]
    ensures Services(run + [slot]) == Services(run) + [ServiceTime(slot.arrival.item)]
    ensures SlowWaits(run + [slot]) ==
      SlowWaits(run) + if ServiceTime(slot.arrival.item) >= 250.0 then [slot.Wait()] else []
    ensures EndClock(0.0, run + [slot]) == slot.End()
  {
    assert (run + [slot])[..|run|] == run;
  }

  /** One turn of the loop, seen from the pending list and the arrivals behind it. */
  lemma {:induction false} RunTurn(
      sel: Selector, now: real, queue: seq<Arrival>, admitted: nat,
      pending: seq<Arrival>, later: seq<Arrival>, done: seq<Served>)
    requires queue == pending + later && pending != [] && admitted <= |queue|
    requires |pending| == Admit(Wake(now, queue, admitted), queue, admitted)
    ensures var t := Wake(now, queue, admitted);
      var k := Select(sel, t, pending);
      var slot := Served(pending[k], t);
      done + Run(sel, now, queue, admitted)
      == (done + [slot]) + Run(sel, slot.End(), RemoveAt(pending, k) + later, |pending| - 1)
  {
    hide ServiceTime, FirstMinimum, Select, Admit, Wake, RemoveAt;
    var k := Select(sel, Wake(now, queue, admitted), pending);
    var m := |pending|;
    assert queue[..m] == pending;
    assert queue[k] == pending[k];
    RemoveAtPrefix(pending, later, k);
    var slot := Served(pending[k], Wake(now, queue, admitted));
    var rest := Run(sel, slot.End(), RemoveAt(pending, k) + later, m - 1);
    assert Run(sel, now, queue, admitted) == [slot] + rest;
    assert done + ([slot] + rest) == (done + [slot]) + rest;
  }

  lemma RemoveAtPrefix<T>(s: seq<T>, t: seq<T>, k: nat)
    requires k < |s|
    ensures RemoveAt(s + t, k) == RemoveAt(s, k) + t
  {
  }

  lemma RunAtStart(sel: Selector, arrivals: seq<Arrival>)
    ensures Run(sel, 0.0, arrivals, 0) == [] + Run(sel, 0.0, [] + arrivals[0..], 0)
    ensures Waits([]) == [] && SlowWaits([]) == [] && Services([]) == [] && EndClock(0.0, []) == 0.0
  {
    assert [] + arrivals[0..] == arrivals;
  }

  lemma RunOfNothing(sel: Selector, now: real, queue: seq<Arrival>, admitted: nat, done: seq<Served>)
    requires queue == [] && admitted == 0
    ensures done + Run(sel, now, queue, admitted) == done
  {
  }

  /** The inner loop of a turn: everything that has arrived by `now` joins the pending list. */
  method AdmitArrived(arrivals: seq<Arrival>, now: real, pending0: seq<Arrival>, index0: nat)
    returns (pending: seq<Arrival>, index: nat)
    requires index0 <= |arrivals|
    ensures index0 <= index <= |arrivals|
    ensures pending + arrivals[index..] == pending0 + arrivals[index0..]
    ensures |pending| == Admit(now, pending0 + arrivals[index0..], |pending0|)
  {
    pending, index := pending0, index0;
    ghost var queue := pending0 + arrivals[index0..];
    while index < |arrivals| && arrivals[index].time <= now
      invariant index0 <= index <= |arrivals|
      invariant queue == pending + arrivals[index..]
      invariant Admit(now, queue, |pending0|) == Admit(now, queue, |pending|)
    {
      pending := pending + [arrivals[index]];
      index := index + 1;
    }
  }

  /** The loop itself. */
  method SimulateQueue(arrivals: seq<Arrival>, sel: Selector)
    returns (waits: seq<real>, slowWaits: seq<real>, services: seq<real>, clock: real)
    ensures var run := Run(sel, 0.0, arrivals, 0);
      && waits == Waits(run)
      && slowWaits == SlowWaits(run)
      && services == Services(run)
      && clock == EndClock(0.0, run)
  {
    RunAtStart(sel, arrivals);
    hide Run, EndClock, ServiceTime, Waits, Services, SlowWaits, Admit, FirstMinimum, Select, RemoveAt;
    var pending: seq<Arrival> := [];
    var now, index := 0.0, 0;
    waits, slowWaits, services := [], [], [];
    ghost var run: seq<Served> := [];

    while index < |arrivals| || pending != []
      invariant index <= |arrivals|
      invariant Run(sel, 0.0, arrivals, 0) == run + Run(sel, now, pending + arrivals[index..], |pending|)
      invariant waits == Waits(run) && slowWaits == SlowWaits(run) && services == Services(run)
      invariant now == EndClock(0.0, run)
      decreases |pending| + |arrivals| - index
    {
      ghost var queue, before, admitted := pending + arrivals[index..], now, |pending|;
      if pending == [] && index < |arrivals| && now < arrivals[index].time {
        now := arrivals[index].time;
      }
      pending, index := AdmitArrived(arrivals, now, pending, index);
      RunTurn(sel, before, queue, admitted, pending, arrivals[index..], run);

      var selected := Select(sel, now, pending);
      var chosen := pending[selected];
      pending := RemoveAt(pending, selected);
      ghost var slot := Served(chosen, now);
      RecordExtends(run, slot);
      var wait := RMax(0.0, now - chosen.time);
      var cost := ServiceTime(chosen.item);
      waits := waits + [wait];
      services := services + [cost];
      if cost >= 250.0 {
        slowWaits := slowWaits + [wait];
      }
      now := now + cost;
      run := run + [slot];
    }
    RunOfNothing(sel, now, pending + arrivals[index..], |pending|, run);
    clock := now;
  }
}
