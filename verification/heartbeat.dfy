/**
 `queue_has_beat`: a bounded polling loop deciding whether the client that
 owns a queue is still beating. Each poll reads the queue's `last_beat` and
 the UTC clock (both as whole epoch seconds here) and computes the gap with
 `calculate_time_diff_str`. The first poll accepts a gap of at most one
 second; a poll that does not accept records its gap, and later polls accept
 a gap no larger than the smallest recorded one. After `in_last_x_seconds`
 polls without acceptance the answer is False.

 A missing `last_beat` (absent, `None` or the text "None") is replaced by the
 1970 epoch, and the gap is taken modulo one day, so the gap of a missing
 beat is the number of seconds since UTC midnight: shortly after midnight a
 queue with no client at all is judged alive. `QueueHasBeat` models the loop
 as written; `QueueHasBeatCorrected` treats a missing beat as no beat and
 uses the unwrapped age.

 The registry and the clock are an oracle: `observe(i)` is what poll `i`
 sees. Sleeping and printing are not modelled.
 */
module Heartbeat {
  import opened Base
  import opened TimeDiff

  /** What one poll observes: the queue's last beat, if any, and the UTC
      clock. The beat is its stamp's local clock time in epoch seconds, with
      the stamp's UTC offset dropped, as the reformatting before the
      comparison does. */
  datatype Poll = Poll(lastBeat: Option<int>, now: int)

  /** "1970-01-01T00:00:00.000000Z" as epoch seconds. */
  const EpochStart: int := 0

  /** The last beat, with a missing one replaced by the epoch. */
  function BeatOrEpoch(lastBeat: Option<int>): (t: int)
    ensures lastBeat.Some? ==> t == lastBeat.value
    ensures lastBeat.None? ==> t == EpochStart
  {
    if lastBeat.Some? then lastBeat.value else EpochStart
  }

  /** The gap the loop computes for one poll. */
  function Gap(p: Poll): (g: int)
    ensures 0 <= g < SecondsPerDay
    ensures (p.now - BeatOrEpoch(p.lastBeat) - g) % SecondsPerDay == 0
    ensures p.lastBeat.Some? && 0 <= p.now - p.lastBeat.value < SecondsPerDay ==> g == p.now - p.lastBeat.value
  {
    TimeDiffSeconds(BeatOrEpoch(p.lastBeat), p.now)
  }

  /** Python's `min(xs, default=d)`. */
  function MinOr(xs: seq<int>, d: int): (m: int)
    ensures |xs| == 0 ==> m == d
    ensures |xs| > 0 ==> m in xs && forall i :: 0 <= i < |xs| ==> m <= xs[i]
  {
    if |xs| == 0 then d
    else if |xs| == 1 then xs[0]
    else
      var rest := MinOr(xs[1..], d);
      if xs[0] <= rest then xs[0] else rest
  }

  /** `len(range(n))`: a negative bound polls zero times. */
  function PollBound(inLastXSeconds: int): nat
  {
    if inLastXSeconds < 0 then 0 else inLastXSeconds
  }

  /** The accept rule of poll `i`, stated without the running list: the first
      poll needs a gap of at most one second, a later poll a gap no larger
      than the first poll's gap. */
  predicate Qualifies(observe: nat -> Poll, i: nat)
  {
    if i == 0 then Gap(observe(0)) <= 1 else Gap(observe(i)) <= Gap(observe(0))
  }

  /** The loop as written. `polls` is the number of polls made and
      `timeDiffs` the list of recorded gaps. Every recorded gap exceeds the
      running minimum, so the minimum is always the first recorded gap, and
      the loop accepts at the first poll satisfying `Qualifies`. */
  method QueueHasBeat(observe: nat -> Poll, inLastXSeconds: int) returns (alive: bool, polls: nat, timeDiffs: seq<int>)
    ensures polls <= PollBound(inLastXSeconds)
    ensures alive ==> 1 <= polls && Qualifies(observe, polls - 1)
    ensures !alive ==> polls == PollBound(inLastXSeconds)
    ensures forall j :: 0 <= j < polls - 1 ==> !Qualifies(observe, j)
    ensures !alive ==> forall j :: 0 <= j < polls ==> !Qualifies(observe, j)
    ensures |timeDiffs| == (if alive then polls - 1 else polls)
    ensures forall j :: 0 <= j < |timeDiffs| ==> timeDiffs[j] == Gap(observe(j))
    ensures |timeDiffs| > 0 ==> 1 < timeDiffs[0]
    ensures forall j :: 0 < j < |timeDiffs| ==> timeDiffs[0] < timeDiffs[j]
  {
    var bound := PollBound(inLastXSeconds);
    timeDiffs := [];
    var k: nat := 0;
    while k < bound
      invariant k <= bound
      invariant |timeDiffs| == k
      invariant forall j :: 0 <= j < k ==> timeDiffs[j] == Gap(observe(j)) && !Qualifies(observe, j)
      invariant k > 0 ==> 1 < timeDiffs[0]
      invariant forall j :: 0 < j < k ==> timeDiffs[0] < timeDiffs[j]
      invariant k > 0 ==> MinOr(timeDiffs, 1) == timeDiffs[0]
    {
      var gap := Gap(observe(k));
      if !(gap <= MinOr(timeDiffs, 1)) {
        timeDiffs := timeDiffs + [gap];
        k := k + 1;
      } else {
        return true, k + 1, timeDiffs;
      }
    }
    return false, k, timeDiffs;
  }

  /** Seconds since UTC midnight. */
  function TimeOfDay(now: int): (s: int)
    ensures 0 <= s < SecondsPerDay
  {
    now % SecondsPerDay
  }

  /** With no beat on record, the gap is just the time of day. */
  lemma MissingBeatGapIsTimeOfDay(p: Poll)
    requires p.lastBeat.None?
    ensures Gap(p) == TimeOfDay(p.now)
  {
    var q := p.now / SecondsPerDay;
    TimeDiffIsTimedeltaSeconds(EpochStart, p.now, q, TimeOfDay(p.now));
  }

  /** A queue that never beat, polled at 2023-11-15T00:00:00Z, qualifies on
      the very first poll, so the loop as written returns True for it. */
  lemma MissingBeatJudgedFreshAtMidnight()
    ensures Qualifies((i: nat) => Poll(None, 1700006400), 0)
  {
    MissingBeatGapIsTimeOfDay(Poll(None, 1700006400));
  }

  /** The age of the last beat, unwrapped, or None when there is no beat. */
  function BeatAge(p: Poll): (age: Option<int>)
    ensures age.Some? <==> p.lastBeat.Some?
    ensures age.Some? ==> p.lastBeat.value + age.value == p.now
  {
    if p.lastBeat.Some? then Some(p.now - p.lastBeat.value) else None
  }

  /** The loop with the evident intent restored: a poll without a beat never
      accepts and records nothing, and ages are not reduced modulo a day.
      A queue whose client never beat during the polls is not alive, and an
      accepting poll always saw an actual beat. */
  method QueueHasBeatCorrected(observe: nat -> Poll, inLastXSeconds: int) returns (alive: bool, polls: nat, timeDiffs: seq<int>)
    ensures polls <= PollBound(inLastXSeconds)
    ensures !alive ==> polls == PollBound(inLastXSeconds)
    ensures alive ==>
      && 1 <= polls
      && observe(polls - 1).lastBeat.Some?
      && BeatAge(observe(polls - 1)).value <= MinOr(timeDiffs, 1)
    ensures (forall j :: 0 <= j < PollBound(inLastXSeconds) ==> observe(j).lastBeat.None?) ==> !alive
    ensures forall j :: 0 <= j < |timeDiffs| ==> 1 < timeDiffs[j]
  {
    var bound := PollBound(inLastXSeconds);
    timeDiffs := [];
    var k: nat := 0;
    while k < bound
      invariant k <= bound
      invariant forall j :: 0 <= j < |timeDiffs| ==> 1 < timeDiffs[j]
    {
      var age := BeatAge(observe(k));
      if age.Some? && age.value <= MinOr(timeDiffs, 1) {
        return true, k + 1, timeDiffs;
      }
      if age.Some? {
        timeDiffs := timeDiffs + [age.value];
      }
      k := k + 1;
    }
    return false, k, timeDiffs;
  }
}
