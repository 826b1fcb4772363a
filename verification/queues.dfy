/**
 The queue service's in-memory entities, rebuilt every beat from the lock
 registry's answers: queue entries, the groups they are collected into, and
 the lockable resources the registry reports free. Also the naming convention
 for attempt threads, `Thread-<queue id>`, on which duplicate suppression rests.
 */
module Queues {
  import opened Base

  /** The payload of a queue entry; every field is read with `dict.get`, so any
      of them may be missing. `resourceLabel` and `resourceName` are the
      payload's "label" and "name" entries: the resource the entry asks for. */
  datatype QueueData = QueueData(
    signoff: Option<string>,
    link: Option<string>,
    resourceLabel: Option<string>,
    resourceName: Option<string>)

  /** An `Rqueue` instance: id, priority and data payload. */
  datatype Queue = Queue(id: nat, priority: int, data: QueueData)

  /** One entry of `Rqueue.grouped_queues`: a selector type (expected to be
      "label" or "name"), the selector value, and the member queues in order. */
  datatype Group = Group(groupType: string, groupName: string, queues: seq<Queue>)

  /** A lockable resource as the registry returns it; only its name is read. */
  datatype Resource = Resource(name: string)

  const ThreadPrefix: string := "Thread-"

  /** The name under which the attempt thread for queue `id` runs. */
  function ThreadName(id: nat): (name: string)
    ensures |name| > |ThreadPrefix| && name[..|ThreadPrefix|] == ThreadPrefix
  {
    ThreadPrefix + Decimal(id)
  }

  /** After the prefix a thread name holds only digits, with no leading zero
      for ids of two or more digits, as `str` renders an integer. */
  lemma ThreadNameDigits(id: nat)
    ensures forall i :: |ThreadPrefix| <= i < |ThreadName(id)| ==> IsDigit(ThreadName(id)[i])
    ensures id >= 10 ==> ThreadName(id)[|ThreadPrefix|] != '0'
  {
    var name := ThreadName(id);
    assert name[|ThreadPrefix|..] == Decimal(id);
    forall i | |ThreadPrefix| <= i < |name|
      ensures IsDigit(name[i])
    {
      assert name[i] == Decimal(id)[i - |ThreadPrefix|];
    }
  }

  /** Reads the queue id back out of an attempt-thread name. */
  function ThreadQueueId(name: string): Option<nat>
  {
    if |name| > |ThreadPrefix| && name[..|ThreadPrefix|] == ThreadPrefix
    then Some(ParseDecimal(name[|ThreadPrefix|..]))
    else None
  }

  lemma ThreadNameRoundTrip(id: nat)
    ensures ThreadQueueId(ThreadName(id)) == Some(id)
  {
    assert ThreadName(id)[|ThreadPrefix|..] == Decimal(id);
    DecimalRoundTrip(id);
  }

  /** Two queues share an attempt-thread name only if they share an id. */
  lemma ThreadNameInjective(a: nat, b: nat)
    ensures ThreadName(a) == ThreadName(b) <==> a == b
  {
    if ThreadName(a) == ThreadName(b) {
      assert ThreadName(a)[|ThreadPrefix|..] == Decimal(a);
      assert ThreadName(b)[|ThreadPrefix|..] == Decimal(b);
      DecimalInjective(a, b);
    }
  }
}
