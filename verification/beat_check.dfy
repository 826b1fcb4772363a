/**
 `QueueService.queue_beat_check`: what one attempt thread asks of the lock
 registry. Without a beat from the queue's client the queue is aborted and no
 lock is requested; with a beat the resource is requested for the queue's
 signoff and link, and the queue is moved to FINISHED (naming the resource)
 when the registry reports it locked, or to FAILED (with the registry's
 response text cut to 2048 characters) when it does not.

 The beat verdict is an input: it is what `queue_has_beat` returned (see
 module Heartbeat). The registry's answer to the lock request is an input too.
 */
module BeatCheck {
  import opened Base
  import opened Queues

  /** Queue statuses the service writes. */
  datatype Status = Finished | Failed

  /** The registry's answer to `lock_resource`: the truthiness of its JSON
      `is_locked` field, and the raw response text. */
  datatype LockResponse = LockResponse(isLocked: bool, text: string)

  /** The calls an attempt makes on the registry, in order. */
  datatype RegistryCall =
    | AbortQueue(queueId: nat, abortMessage: string)
    | LockResource(resource: Resource, signoff: Option<string>, link: Option<string>)
    | ChangeQueue(queueId: nat, status: Status, finalResource: Option<string>, description: Option<string>)

  /** The terminal state an attempt leaves its queue in. */
  datatype Verdict = Aborted | MarkedFinished(resourceName: string) | MarkedFailed(reason: string)

  const DescriptionLimit: nat := 2048

  /** Python's `text[:n]`. */
  function Truncate(text: string, n: nat): (t: string)
    ensures |t| == if |text| <= n then |text| else n
    ensures t == text[..|t|]
  {
    if |text| <= n then text else text[..n]
  }

  /** The abort message; the configured timeout is rendered in decimal,
      with a minus sign when it is negative. */
  function OrphanMessage(timeout: int): (msg: string)
    ensures |msg| >= 24 && msg[18..24] == "orphan"
  {
    var head := "This queue was an orphan queue! \n";
    assert head[18..24] == "orphan";
    head + "There was no associated client, because queue was not beating  in the last "
      + SignedDecimal(timeout) + " seconds"
  }

  function QueueBeatCheck(q: Queue, r: Resource, hasBeat: bool, lock: LockResponse, timeout: int): (calls: seq<RegistryCall>)
    ensures !hasBeat ==> calls == [AbortQueue(q.id, OrphanMessage(timeout))]
    ensures hasBeat ==>
      && |calls| == 2
      && calls[0] == LockResource(r, q.data.signoff, q.data.link)
      && calls[1].ChangeQueue? && calls[1].queueId == q.id
    ensures hasBeat && lock.isLocked ==>
      calls[1] == ChangeQueue(q.id, Finished, Some(r.name), None)
    ensures hasBeat && !lock.isLocked ==>
      && calls[1].status == Failed && calls[1].finalResource.None? && calls[1].description.Some?
      && var d := calls[1].description.value;
         |d| == (if |lock.text| <= DescriptionLimit then |lock.text| else DescriptionLimit)
         && d == lock.text[..|d|]
  {
    if hasBeat then
      var attempt := LockResource(r, q.data.signoff, q.data.link);
      if lock.isLocked then
        [attempt, ChangeQueue(q.id, Finished, Some(r.name), None)]
      else
        [attempt, ChangeQueue(q.id, Failed, None, Some(Truncate(lock.text, DescriptionLimit)))]
    else
      [AbortQueue(q.id, OrphanMessage(timeout))]
  }

  /** Number of calls in a trace that set a queue's status. */
  function StatusChanges(calls: seq<RegistryCall>): nat
  {
    if |calls| == 0 then 0
    else
      var last := if calls[|calls| - 1].LockResource? then 0 else 1;
      StatusChanges(calls[..|calls| - 1]) + last
  }

  /** Whether a trace contains a lock request. */
  predicate RequestsLock(calls: seq<RegistryCall>)
  {
    exists i :: 0 <= i < |calls| && calls[i].LockResource?
  }

  /** How a registry observer reads the queue's final state off a trace:
      the last status-setting call decides. */
  function VerdictOf(calls: seq<RegistryCall>): Option<Verdict>
  {
    if |calls| == 0 then None
    else match calls[|calls| - 1]
      case AbortQueue(_, _) => Some(Aborted)
      case ChangeQueue(_, Finished, res, _) => Some(MarkedFinished(if res.Some? then res.value else ""))
      case ChangeQueue(_, Failed, _, d) => Some(MarkedFailed(if d.Some? then d.value else ""))
      case LockResource(_, _, _) => VerdictOf(calls[..|calls| - 1])
  }

  /** Every attempt makes exactly one status-setting call, and its verdict is
      the three-way outcome machine: no beat aborts without a lock request;
      a beat and a granted lock finish on the resource; a beat and a denied
      lock fail with the response text cut to 2048 characters. */
  lemma QueueBeatCheckOutcome(q: Queue, r: Resource, hasBeat: bool, lock: LockResponse, timeout: int)
    ensures var calls := QueueBeatCheck(q, r, hasBeat, lock, timeout);
      && StatusChanges(calls) == 1
      && (RequestsLock(calls) <==> hasBeat)
      && (VerdictOf(calls) == Some(Aborted) <==> !hasBeat)
      && (VerdictOf(calls) == Some(MarkedFinished(r.name)) <==> hasBeat && lock.isLocked)
      && (VerdictOf(calls) == Some(MarkedFailed(Truncate(lock.text, DescriptionLimit))) <==> hasBeat && !lock.isLocked)
  {
    var calls := QueueBeatCheck(q, r, hasBeat, lock, timeout);
    if hasBeat {
      assert calls[..1] == [calls[0]];
      assert calls[..1][..0] == [];
      assert calls[0].LockResource?;
      assert StatusChanges(calls[..1]) == 0;
    } else {
      assert calls[..0] == [];
      assert !calls[0].LockResource?;
    }
  }

  /** Cutting the description is idempotent and leaves short texts alone. */
  lemma TruncateFacts(text: string)
    ensures Truncate(Truncate(text, DescriptionLimit), DescriptionLimit) == Truncate(text, DescriptionLimit)
    ensures |text| <= DescriptionLimit ==> Truncate(text, DescriptionLimit) == text
    ensures |Truncate(text, DescriptionLimit)| <= DescriptionLimit
  {
  }
}
