/**
 `calculate_time_diff_str(fmt, s1, s2)`: the `seconds` field of the
 `timedelta` between two parsed timestamps. Timestamps are modelled as
 integer epoch seconds (the format string only serves the parsing, which is
 not modelled). Python normalises a timedelta into whole days plus a seconds
 field in [0, 86399], borrowing a day for negative differences, so the result
 is the difference modulo one day: whole days are dropped and negative
 differences wrap.
 */
module TimeDiff {

  const SecondsPerDay: int := 86400

  function TimeDiffSeconds(s1: int, s2: int): (r: int)
    ensures 0 <= r < SecondsPerDay
    ensures (s2 - s1 - r) % SecondsPerDay == 0
  {
    (s2 - s1) % SecondsPerDay
  }

  /** The normalisation is unique: any split of the difference into whole
      days plus a remainder in [0, 86399] has the result as its remainder. */
  lemma TimeDiffIsTimedeltaSeconds(s1: int, s2: int, days: int, seconds: int)
    requires 0 <= seconds < SecondsPerDay
    requires s2 - s1 == days * SecondsPerDay + seconds
    ensures TimeDiffSeconds(s1, s2) == seconds
  {
    var r := TimeDiffSeconds(s1, s2);
    var q := (s2 - s1) / SecondsPerDay;
    assert s2 - s1 == q * SecondsPerDay + r;
    assert (q - days) * SecondsPerDay == seconds - r;
  }

  /** Equal timestamps are zero seconds apart. */
  lemma TimeDiffSame(s: int)
    ensures TimeDiffSeconds(s, s) == 0
  {
  }

  /** Whole days between the two timestamps are discarded. */
  lemma TimeDiffDropsWholeDays(s1: int, s2: int, days: int)
    ensures TimeDiffSeconds(s1, s2 + days * SecondsPerDay) == TimeDiffSeconds(s1, s2)
  {
    var r := TimeDiffSeconds(s1, s2);
    var q := (s2 - s1) / SecondsPerDay;
    assert s2 - s1 == q * SecondsPerDay + r;
    assert s2 + days * SecondsPerDay - s1 == (q + days) * SecondsPerDay + r;
    TimeDiffIsTimedeltaSeconds(s1, s2 + days * SecondsPerDay, q + days, r);
  }

  /** Less than a day forward: the exact difference. */
  lemma TimeDiffWithinDay(s1: int, s2: int)
    requires 0 <= s2 - s1 < SecondsPerDay
    ensures TimeDiffSeconds(s1, s2) == s2 - s1
  {
    TimeDiffIsTimedeltaSeconds(s1, s2, 0, s2 - s1);
  }

  /** Less than a day backward: the difference wraps to the previous day. */
  lemma TimeDiffNegativeWraps(s1: int, s2: int)
    requires -SecondsPerDay <= s2 - s1 < 0
    ensures TimeDiffSeconds(s1, s2) == s2 - s1 + SecondsPerDay
  {
    TimeDiffIsTimedeltaSeconds(s1, s2, -1, s2 - s1 + SecondsPerDay);
  }
}
