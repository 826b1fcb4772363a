/**
 `QueueService.__exit__`, the end of every beat: after sleeping and clearing
 the console it empties the two class-level collections of `Rqueue` (all
 instances, and the grouped queues) and appends one health record
 `\nTIMESTAMP:<timestamp>,` to the status log, which external monitoring
 reads to tell whether the service is still beating.

 The timestamp is the text Python renders for `get_time().timestamp()`; it is
 taken as an opaque string. Sleeping and console clearing are not modelled.
 */
module BeatReset {
  import opened Base
  import opened Queues

  /** The state that outlives one call of `run`: the two `Rqueue` collections
      and the status log's contents. */
  datatype BeatContext = BeatContext(all: seq<Queue>, grouped: seq<Group>, statusLog: string)

  const RecordTag: string := "TIMESTAMP:"

  /** The text of one health record, without its leading line break. */
  function HealthRecord(stamp: string): (r: string)
    ensures StampOf(r) == Some(stamp)
    ensures '\n' !in stamp ==> '\n' !in r
  {
    var r := RecordTag + stamp + ",";
    assert r[..|RecordTag|] == RecordTag;
    assert r[|RecordTag|..|r| - 1] == stamp;
    r
  }

  function EndOfBeat(ctx: BeatContext, stamp: string): (r: BeatContext)
    ensures r.all == [] && r.grouped == []
    ensures |ctx.statusLog| < |r.statusLog| && r.statusLog[..|ctx.statusLog|] == ctx.statusLog
    ensures r.statusLog[|ctx.statusLog|..] == "\n" + HealthRecord(stamp)
  {
    BeatContext([], [], ctx.statusLog + "\n" + RecordTag + stamp + ",")
  }

  /** Position of the last line break in a text, if any. */
  function LastBreak(text: string): (k: Option<nat>)
    ensures k.Some? ==> k.value < |text| && text[k.value] == '\n'
    ensures k.Some? ==> forall j :: k.value < j < |text| ==> text[j] != '\n'
    ensures k.None? ==> forall j :: 0 <= j < |text| ==> text[j] != '\n'
  {
    if |text| == 0 then None
    else if text[|text| - 1] == '\n' then Some(|text| - 1)
    else
      var k := LastBreak(text[..|text| - 1]);
      assert text == text[..|text| - 1] + [text[|text| - 1]];
      k
  }

  /** How the log is read back: the lines after the first line break, in
      order (the text before the first break is whatever the file started
      with). */
  function Records(log: string): seq<string>
    decreases |log|
  {
    match LastBreak(log)
    case None => []
    case Some(k) => Records(log[..k]) + [log[k + 1..]]
  }

  /** The health-record text back to its timestamp. */
  function StampOf(record: string): Option<string>
  {
    if |record| >= |RecordTag| + 1 && record[..|RecordTag|] == RecordTag && record[|record| - 1] == ','
    then Some(record[|RecordTag|..|record| - 1])
    else None
  }

  lemma StampOfHealthRecord(stamp: string)
    ensures StampOf(HealthRecord(stamp)) == Some(stamp)
  {
    var r := HealthRecord(stamp);
    assert r[..|RecordTag|] == RecordTag;
    assert r[|RecordTag|..|r| - 1] == stamp;
  }

  /** Appending a line break and a line without breaks puts the last break
      just after the old text. */
  lemma AppendedBreak(log: string, line: string)
    requires '\n' !in line
    ensures var text := log + "\n" + line;
      text[|log|] == '\n' && forall j :: |log| < j < |text| ==> text[j] != '\n'
  {
    var text := log + "\n" + line;
    forall j | |log| < j < |text|
      ensures text[j] != '\n'
    {
      assert text[j] == line[j - |log| - 1];
    }
  }

  /** A break with no break after it is the one `LastBreak` finds. */
  lemma LastBreakIs(text: string, k: nat)
    requires k < |text| && text[k] == '\n'
    requires forall j :: k < j < |text| ==> text[j] != '\n'
    ensures LastBreak(text) == Some(k)
  {
  }

  lemma LastBreakOfAppend(log: string, line: string)
    requires '\n' !in line
    ensures LastBreak(log + "\n" + line) == Some(|log|)
  {
    AppendedBreak(log, line);
    LastBreakIs(log + "\n" + line, |log|);
  }

  /** Ending a beat appends exactly one record to the log as it is read back,
      leaving the earlier records unchanged, and that record gives back the
      stamp — provided the stamp itself has no line break. */
  lemma EndOfBeatAppendsOneRecord(ctx: BeatContext, stamp: string)
    requires '\n' !in stamp
    ensures var log := EndOfBeat(ctx, stamp).statusLog;
      && Records(log) == Records(ctx.statusLog) + [HealthRecord(stamp)]
      && StampOf(Records(log)[|Records(log)| - 1]) == Some(stamp)
  {
    var log := EndOfBeat(ctx, stamp).statusLog;
    assert '\n' !in HealthRecord(stamp);
    assert log == ctx.statusLog + "\n" + HealthRecord(stamp);
    LastBreakOfAppend(ctx.statusLog, HealthRecord(stamp));
    assert log[..|ctx.statusLog|] == ctx.statusLog;
    assert log[|ctx.statusLog| + 1..] == HealthRecord(stamp);
    StampOfHealthRecord(stamp);
  }

  /** The stamps of consecutive beats, ended one after another starting from
      a given log, are read back in order. */
  function EndBeats(ctx: BeatContext, stamps: seq<string>): BeatContext
    decreases |stamps|
  {
    if |stamps| == 0 then ctx
    else EndOfBeat(EndBeats(ctx, stamps[..|stamps| - 1]), stamps[|stamps| - 1])
  }

  /** A timestamp text without line breaks. */
  predicate SingleLine(stamp: string)
  {
    '\n' !in stamp
  }

  /** The records a sequence of stamps is written as. */
  function HealthRecords(stamps: seq<string>): seq<string>
    decreases |stamps|
  {
    if |stamps| == 0 then []
    else HealthRecords(stamps[..|stamps| - 1]) + [HealthRecord(stamps[|stamps| - 1])]
  }

  /** Consecutive beats add their records after the existing ones, in beat
      order. */
  lemma {:induction false} EndBeatsRecordsEveryBeat(ctx: BeatContext, stamps: seq<string>)
    requires forall i :: 0 <= i < |stamps| ==> SingleLine(stamps[i])
    ensures Records(EndBeats(ctx, stamps).statusLog) == Records(ctx.statusLog) + HealthRecords(stamps)
    decreases |stamps|
  {
    if |stamps| > 0 {
      var n := |stamps| - 1;
      EndBeatsRecordsEveryBeat(ctx, stamps[..n]);
      var prev := EndBeats(ctx, stamps[..n]);
      AppendRecord(prev, stamps[n], Records(ctx.statusLog), HealthRecords(stamps[..n]));
    }
  }

  lemma AppendRecord(prev: BeatContext, stamp: string, earlier: seq<string>, front: seq<string>)
    requires SingleLine(stamp)
    requires Records(prev.statusLog) == earlier + front
    ensures Records(EndOfBeat(prev, stamp).statusLog) == earlier + (front + [HealthRecord(stamp)])
  {
    EndOfBeatAppendsOneRecord(prev, stamp);
  }

  /** Every record written for a stamp reads back as that stamp. */
  lemma {:induction false} HealthRecordsReadBack(stamps: seq<string>, i: nat)
    requires i < |stamps|
    ensures |HealthRecords(stamps)| == |stamps|
    ensures StampOf(HealthRecords(stamps)[i]) == Some(stamps[i])
    decreases |stamps|
  {
    var n := |stamps| - 1;
    if i < n {
      HealthRecordsReadBack(stamps[..n], i);
    } else {
      if n > 0 {
        HealthRecordsReadBack(stamps[..n], 0);
      }
      StampOfHealthRecord(stamps[n]);
    }
  }
}
