/**
 `QueueService.put_queues_on_pending`: at start-up every queue still
 INITIALIZING is asked to become PENDING, one after the other. The response
 to each request must report status PENDING; at the first one that does not,
 the service prints the queue id and exits (`sys.exit()`), leaving the later
 queues untouched. Only when every request was confirmed does the `for ...
 else` branch print its summary: one line saying all queues were put on
 PENDING (or that there was nothing to initialize), and one with the number
 of PENDING queues the registry now reports.

 The registry is an oracle: `confirmed(i)` is the `status` field of the
 response to the `i`-th request (None when the field is absent), and
 `pendingTotal` the length of the PENDING list fetched for the summary.
 */
module Promotion {
  import opened Base

  const StatusPending: string := "PENDING"

  /** Which of the two summary lines is printed first. */
  datatype Summary = AllPutOnPending | NothingToInitialize

  /** How the promotion step ends: the service exits on the first queue whose
      change was not confirmed, or it prints its summary and carries on. */
  datatype PromotionOutcome =
    | Exited(queueId: nat)
    | Summarized(summary: Summary, pendingTotal: nat)

  /** `initializing` are the ids of the INITIALIZING queues in the order the
      registry listed them; `changed` are the ids a change request was sent
      for, in order. */
  method PutQueuesOnPending(initializing: seq<nat>, confirmed: nat -> Option<string>, pendingTotal: nat)
    returns (changed: seq<nat>, outcome: PromotionOutcome)
    ensures |changed| <= |initializing| && changed == initializing[..|changed|]
    ensures forall i :: 0 <= i < |changed| - 1 ==> confirmed(i) == Some(StatusPending)
    ensures outcome.Exited? <==> exists i :: 0 <= i < |initializing| && confirmed(i) != Some(StatusPending)
    ensures outcome.Exited? ==>
      && 1 <= |changed|
      && outcome.queueId == changed[|changed| - 1]
      && confirmed(|changed| - 1) != Some(StatusPending)
    ensures outcome.Summarized? ==>
      && changed == initializing
      && outcome.pendingTotal == pendingTotal
      && (outcome.summary == AllPutOnPending <==> |initializing| > 0)
  {
    changed := [];
    var i := 0;
    while i < |initializing|
      invariant i <= |initializing|
      invariant changed == initializing[..i]
      invariant forall j :: 0 <= j < i ==> confirmed(j) == Some(StatusPending)
    {
      var queueId := initializing[i];
      changed := changed + [queueId];
      if confirmed(i) != Some(StatusPending) {
        return changed, Exited(queueId);
      }
      i := i + 1;
    }
    var summary := if |initializing| > 0 then AllPutOnPending else NothingToInitialize;
    return changed, Summarized(summary, pendingTotal);
  }
}
