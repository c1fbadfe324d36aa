/**
 `_dispatch` on job objects: how one batch's outcome is written into the fields that
 the submitting threads wait on.
 */
module MicroBatcherDispatch {
  import opened Optional
  import opened MicroBatcher

  /** What a job's `error` may hold: the error of `run_batch`, or the length mismatch. */
  datatype Failure = RunFailed(error: string) | LengthMismatch(got: nat, want: nat)

  class Job<Item, R> {
    const item: Item
    var result: Option<R>
    var error: Option<Failure>
    var done: bool

    constructor (item: Item)
      ensures this.item == item && result == None && error == None && !done
    {
      this.item, result, error, done := item, None, None, false;
    }

    /** What `submit` ends with once the job is done: the error if there is one, the result otherwise. */
    ghost predicate ResolvedWith(r: Resolution<R>)
      reads this
    {
      && done
      && match error
         case Some(RunFailed(e)) => r == Relayed(e)
         case Some(LengthMismatch(got, want)) => r == WrongLength(got, want)
         case None => result.Some? && r == Value(result.value)
    }
  }

  ghost predicate DistinctJobs<Item, R>(batch: seq<Job<Item, R>>) {
    forall i, j :: 0 <= i < j < |batch| ==> batch[i] != batch[j]
  }

  /** Give every job of the batch the same error. */
  method Relay<Item, R>(batch: seq<Job<Item, R>>, failure: Failure)
    requires DistinctJobs(batch)
    modifies batch
    ensures forall p :: 0 <= p < |batch| ==>
      batch[p].done && batch[p].error == Some(failure) && batch[p].result == old(batch[p].result)
  {
    for k := 0 to |batch|
      invariant forall p :: 0 <= p < k ==> batch[p].done && batch[p].error == Some(failure)
      invariant forall p :: 0 <= p < |batch| ==> batch[p].result == old(batch[p].result)
    {
      batch[k].error := Some(failure);
      batch[k].done := true;
    }
  }

  /**
   Every job of the batch, and no other, is resolved with what the step relation gives
   its position: `results[p]` at position `p`, or the batch's error.
   */
  method Dispatch<Item, R>(batch: seq<Job<Item, R>>, outcome: RunOutcome<R>)
    requires DistinctJobs(batch)
    requires forall p :: 0 <= p < |batch| ==> !batch[p].done && batch[p].error.None?
    modifies batch
    ensures outcome.Returned? && |outcome.results| == |batch| ==> forall p :: 0 <= p < |batch| ==>
      batch[p].done && batch[p].error.None? && batch[p].result == Some(outcome.results[p])
    ensures outcome.Returned? && |outcome.results| != |batch| ==> forall p :: 0 <= p < |batch| ==>
      && batch[p].done && batch[p].error == Some(LengthMismatch(|outcome.results|, |batch|))
      && batch[p].result == old(batch[p].result)
    ensures outcome.Raised? ==> forall p :: 0 <= p < |batch| ==>
      batch[p].done && batch[p].error == Some(RunFailed(outcome.error)) && batch[p].result == old(batch[p].result)
    ensures forall p :: 0 <= p < |batch| ==> batch[p].ResolvedWith(Settle(outcome, |batch|, p))
  {
    if outcome.Raised? {
      Relay(batch, RunFailed(outcome.error));
      return;
    }
    var results := outcome.results;
    if |results| != |batch| {
      Relay(batch, LengthMismatch(|results|, |batch|));
      return;
    }
    for k := 0 to |batch|
      invariant forall p :: 0 <= p < k ==> batch[p].done && batch[p].result == Some(results[p])
      invariant forall p :: 0 <= p < |batch| ==> batch[p].error.None?
    {
      batch[k].result := Some(results[k]);
      batch[k].done := true;
    }
  }
}
