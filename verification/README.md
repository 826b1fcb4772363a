# Queue service core, modelled in Dafny

This project models the scheduling core of a resource-locking queue service.
The service polls a remote lock registry in beats. A beat does four things:

1. It takes the grouped PENDING queue entries.
2. For each group it asks the registry for free resources matching the
   group's selector, a label or a resource name.
3. It pairs the group's first queue with the first free resource, and starts
   an attempt thread named `Thread-<queue id>`, unless a live thread already
   has that name.
4. At the end of the beat it resets its in-memory state and appends a health
   record to a status log.

Each attempt thread first checks that the queue's client is still beating.
It then either aborts the queue as an orphan, or tries to lock the resource
and marks the queue FINISHED or FAILED. At start-up the service promotes
every INITIALIZING queue to PENDING, and exits at the first promotion the
registry does not confirm.

The model is functional. The registry, the clock and `json.loads` are oracles
passed in as functions, and shared mutable state becomes values passed in and
returned.

| module | file | what it models |
|---|---|---|
| `Base` | base.dfy | `Option`; Python's decimal rendering of ids, with its inverse |
| `Queues` | queues.dfy | queue entries, groups, resources; attempt-thread names |
| `Dispatch` | dispatch.dfy | `QueueService.run`: one beat as a left fold over the groups |
| `Promotion` | promotion.dfy | `QueueService.put_queues_on_pending` |
| `BeatCheck` | beat_check.dfy | `QueueService.queue_beat_check`: the registry calls of one attempt |
| `BeatReset` | beat_reset.dfy | `QueueService.__exit__`: state reset and the health log |
| `TimeDiff` | time_diff.dfy | `calculate_time_diff_str` |
| `Heartbeat` | heartbeat.dfy | `queue_has_beat`, as written and corrected |
| `JsonLoader` | json_loader.dfy | `json_continuously_loader`, as written and corrected |
| `SortKeys` | sort_keys.dfy | the selector and priority sort keys |
| `Connection` | connection.dfy | the `Singleton` metaclass: `__call__` and `clear` |

Nothing in `run` keeps two groups from being offered the same free resource
in one beat. Each group's registry query is independent, so a label group and
a name group can both pick the same free resource, and the registry's lock
decides between them. `Dispatch.SameResourceOfferedToTwoGroups` exhibits
this.

## Model

| member | source | states |
|---|---|---|
| `Base.SignedDecimal` | queue_service/queue_service.py:151 | an integer renders with a leading minus sign iff it is negative, followed by the decimal digits of its magnitude |
| `Base.DecimalRoundTrip` | queue_service/queue_service.py:52 | the decimal text of a queue id reads back as that id |
| `Base.DecimalInjective` | queue_service/queue_service.py:52 | distinct ids render as distinct decimal texts |
| `Queues.ThreadName` | queue_service/queue_service.py:52 | the attempt-thread name starts with `Thread-` and has at least one character after it |
| `Queues.ThreadNameDigits` | queue_service/queue_service.py:52 | after `Thread-` the name holds only digits, with no leading zero for ids of two or more digits, as `str` renders the id |
| `Queues.ThreadNameRoundTrip` | queue_service/queue_service.py:52 | the queue id can be recovered from its attempt-thread name |
| `Queues.ThreadNameInjective` | queue_service/queue_service.py:52-54 | two queues share a thread name iff they share an id (through the injectivity of the decimal rendering), so the live-name check is a check on queue ids |
| `Dispatch.QueryFor` | queue_service/queue_service.py:33-42 | a group is queried by label iff its type is "label", by exact name iff its type is "name", and not at all otherwise |
| `Dispatch.Step` | queue_service/queue_service.py:32-61 | one iteration touches only the current group; it either appends one outcome or raises, and raising changes nothing |
| `Dispatch.Run` | queue_service/queue_service.py:32-61 | a whole beat: it completes iff there is one outcome per group; every group reached did what the loop body says (query, pop, pair); unreached groups are untouched; an exception names its cause at the group where it was raised |
| `Dispatch.RunPrefix` | queue_service/queue_service.py:32-61 | after n iterations there are n outcomes, or fewer if the loop raised |
| `Dispatch.RunPrefixGroups` | queue_service/queue_service.py:32-47 | group by group: an empty lookup leaves the group alone; otherwise the first queue and first resource are paired and the queue is removed; unreached groups are untouched; an exception names its cause at the group where it was raised |
| `Dispatch.StepStartRule` | queue_service/queue_service.py:52-61 | an iteration starts the picked queue's thread iff its name is not live, and adds the name to the live set |
| `Dispatch.RunPrefixLive` | queue_service/queue_service.py:52-61 | the live names are the initial ones plus the names of threads started so far, and every start obeyed the start rule |
| `Dispatch.RunDispatchesPerGroup` | queue_service/queue_service.py:44-47 | each group yields at most one pair, and yields one iff its lookup is non-empty; the pair is the group's first queue and the first resource, and that queue leaves the group |
| `Dispatch.RunErrorAtGroup` | queue_service/queue_service.py:32-47 | an unknown selector type raises at that group with its type; outcomes of earlier groups stand; the beat completes iff every group has a known type and no group with free resources is empty |
| `Dispatch.RunRaisesAtUnknownType` | queue_service/queue_service.py:41-42 | if the first unknown type is at position k and no earlier group raised, exactly k groups are processed before the exception |
| `Dispatch.RunStartsUniqueAttempts` | queue_service/queue_service.py:52-61 | no thread starts under a name that was live at beat start; no two threads started in one beat serve the same queue id; a picked queue whose name is neither live at beat start nor started earlier in the beat gets its thread |
| `Dispatch.SameResourceOfferedToTwoGroups` | queue_service/queue_service.py:32-47 | two groups can pick the same free resource in one beat |
| `Promotion.PutQueuesOnPending` | queue_service/queue_service.py:73-98 | change requests go out in order as a prefix of the INITIALIZING list; the service exits iff some promotion is unconfirmed, naming the first such queue and sending no later requests; otherwise it summarises with the "all put on PENDING" line iff there were queues |
| `BeatCheck.Truncate` | queue_service/queue_service.py:144 | `text[:n]` is the prefix of length min(len(text), n) |
| `BeatCheck.OrphanMessage` | queue_service/queue_service.py:149-151 | the abort message calls the queue an orphan |
| `BeatCheck.QueueBeatCheck` | queue_service/queue_service.py:121-152 | no beat gives only an abort with the orphan message; a beat gives a lock request for the queue's signoff and link, then one status change: FINISHED with the resource name if locked, FAILED with the truncated response text if not |
| `BeatCheck.QueueBeatCheckOutcome` | queue_service/queue_service.py:121-152 | every attempt sets the status exactly once; it requests a lock iff there is a beat; the final state is ABORTED iff no beat, FINISHED on the resource iff beat and locked, FAILED with the truncated text iff beat and not locked |
| `BeatCheck.TruncateFacts` | queue_service/queue_service.py:144 | the FAILED description never exceeds 2048 characters, short texts are kept whole, and cutting twice equals cutting once |
| `BeatReset.EndOfBeat` | queue_service/queue_service.py:178-183 | both collections end empty; the old log is kept as a prefix and exactly `\nTIMESTAMP:<stamp>,` is appended |
| `BeatReset.HealthRecord` | queue_service/queue_service.py:183 | the record text `TIMESTAMP:<stamp>,` reads back as its stamp, and has no line break when the stamp has none |
| `BeatReset.StampOfHealthRecord` | queue_service/queue_service.py:183 | a health record reads back as its timestamp |
| `BeatReset.EndOfBeatAppendsOneRecord` | queue_service/queue_service.py:180-183 | read back line by line, the log gains exactly one record after the earlier ones, and that record gives back the stamp |
| `BeatReset.EndBeatsRecordsEveryBeat` | queue_service/queue_service.py:178-183 | over consecutive beats the log reads back as the earlier records followed by one record per beat, in beat order |
| `BeatReset.HealthRecordsReadBack` | queue_service/queue_service.py:183 | the i-th record written reads back as the i-th stamp |
| `TimeDiff.TimeDiffSeconds` | queue_service/utils.py:63-64 | the result is in [0, 86399] and differs from s2 − s1 by whole days |
| `TimeDiff.TimeDiffIsTimedeltaSeconds` | queue_service/utils.py:63-64 | the result is the seconds part of the unique split of s2 − s1 into whole days plus seconds in [0, 86399] |
| `TimeDiff.TimeDiffSame` | queue_service/utils.py:63-64 | equal timestamps are 0 seconds apart |
| `TimeDiff.TimeDiffDropsWholeDays` | queue_service/utils.py:63-64 | adding whole days to one timestamp does not change the result |
| `TimeDiff.TimeDiffWithinDay` | queue_service/utils.py:63-64 | a forward difference under a day is returned exactly |
| `TimeDiff.TimeDiffNegativeWraps` | queue_service/utils.py:63-64 | a backward difference under a day wraps to 86400 plus the difference |
| `Heartbeat.BeatOrEpoch` | queue_service/utils.py:91-93 | a recorded beat is used as it is; a missing one (None or the text "None") is replaced by 1970-01-01T00:00:00Z, epoch second 0 |
| `Heartbeat.Gap` | queue_service/utils.py:106-108 | a poll's gap is in [0, 86399] and differs from now minus the beat (or the epoch) by whole days; a recorded beat less than a day old gives its exact age |
| `Heartbeat.MinOr` | queue_service/utils.py:109 | `min(xs, default=d)` is an element of xs no larger than any other, or d when xs is empty |
| `Heartbeat.QueueHasBeat` | queue_service/utils.py:82-119 | it polls at most `in_last_x_seconds` times and returns False iff no poll qualifies; the first poll qualifies iff its gap ≤ 1, a later poll iff its gap ≤ the first poll's gap; recorded gaps exceed the first, which is therefore the running minimum |
| `Heartbeat.MissingBeatGapIsTimeOfDay` | queue_service/utils.py:91-108 | a missing beat is replaced by the epoch, so its gap is the number of seconds since UTC midnight |
| `Heartbeat.MissingBeatJudgedFreshAtMidnight` | queue_service/utils.py:91-116 | a queue that never beat, polled at 2023-11-15T00:00:00Z, qualifies on the first poll |
| `Heartbeat.BeatAge` | queue_service/utils.py:91-108 | the age exists iff a beat is on record, and beat plus age is now |
| `Heartbeat.QueueHasBeatCorrected` | queue_service/utils.py:82-119 | a queue with no beat during the polls is not alive, and an accepting poll saw a real beat no older than the smallest recorded age |
| `JsonLoader.DictVerdictOf` | queue_service/utils.py:36-38 | `dict(v)` converts a dict; on a string it acts as on the sequence of the string's one-character strings; on a list as on its elements; None, booleans and numbers raise TypeError |
| `JsonLoader.PairsVerdict` | queue_service/utils.py:36-38 | `dict()` converts a sequence iff every element is a two-item pair with a hashable first item |
| `JsonLoader.LoadAttempt` | queue_service/utils.py:31-51 | the loop makes at most the remaining number of parse calls, starting with the current value; a returned value is what the last call parsed and `dict()` accepts; ValueError escapes only from the last attempt, whose text did not parse or whose value `dict()` refused with a ValueError; TypeError escapes when the argument is not text or `dict()` refuses the value with a TypeError |
| `JsonLoader.ContinuouslyLoad` | queue_service/utils.py:28-51 | a dict comes back unchanged with no parse call; with no attempts the result is None; otherwise at most `attempts` calls are made, the first on the input; a ValueError escapes only after all `attempts` calls, and the last call's failure explains whichever exception escapes |
| `JsonLoader.StuckTextRaises` | queue_service/utils.py:40-51 | when an unparsable text is retried on itself, the last attempt re-raises ValueError |
| `JsonLoader.LoadAttemptReturns` | queue_service/utils.py:33-45 | an attempt returns v iff v is the first of the remaining successive parses that `dict()` accepts, every earlier parse having been refused with a ValueError |
| `JsonLoader.ContinuouslyLoadReturnsFirstDict` | queue_service/utils.py:28-45 | the loader returns v iff v is the first of at most `attempts` successive parses that `dict()` accepts; a dict input is returned whatever the parser does |
| `JsonLoader.AllRefusedRaisesValueError` | queue_service/utils.py:33-51 | when every remaining successive parse yields a value `dict()` refuses with a ValueError, the last attempt re-raises that ValueError |
| `JsonLoader.ContinuouslyLoadAllRefusedRaises` | queue_service/utils.py:28-51 | when all `attempts` successive parses yield values `dict()` refuses with a ValueError, the loader makes `attempts` calls and raises ValueError |
| `JsonLoader.MalformedTextRaisesTypeError` | queue_service/utils.py:31-45 | a malformed text makes the second attempt parse None and raise TypeError |
| `JsonLoader.LoadAttemptCorrected` | queue_service/utils.py:33-51 | each call re-parses the previous result; the outcome is explained by the last call: returned when `dict()` accepts, ValueError when parsing or `dict()` fails that way, TypeError otherwise |
| `JsonLoader.ContinuouslyLoadCorrected` | queue_service/utils.py:19-51 | a dict comes back unchanged; each call re-parses the previous result; an unparsable text ends in ValueError |
| `JsonLoader.MalformedTextRaisesValueErrorWhenCorrected` | queue_service/utils.py:40-51 | with the correction, the malformed text raises ValueError after one call |
| `SortKeys.CompareInt` | queue_service/utils.py:12-13 | integer comparison says Less iff a < b and Equal iff a = b |
| `SortKeys.CompareStrEqual` | queue_service/utils.py:12-13 | string comparison says Equal iff the strings are equal |
| `SortKeys.CompareStrLess` | queue_service/utils.py:12-13 | string comparison says Less iff the first string is a proper prefix of the second or is smaller at the first differing character |
| `SortKeys.CompareStrFlip` | queue_service/utils.py:12-13 | comparing strings the other way round flips the answer |
| `SortKeys.CompareKeysMeaning` | queue_service/utils.py:12-13 | tuple comparison raises iff exactly one key lacks a selector; it says Equal iff the keys are equal and Less iff the direct lexicographic order holds; swapping the keys flips the answer |
| `SortKeys.StrLessTransitive` | queue_service/utils.py:12-13 | the string order is transitive |
| `SortKeys.StrLessAsymmetric` | queue_service/utils.py:12-13 | the string order never holds both ways |
| `SortKeys.KeyLessTransitive` | queue_service/utils.py:12-13 | the key order is transitive |
| `SortKeys.KeyLessTotal` | queue_service/utils.py:12-13 | two distinct comparable keys are ordered exactly one way |
| `SortKeys.ByDataLabel` | queue_service/utils.py:9 | the key is the queue's label, None when its data has none (`dict.get`) |
| `SortKeys.ByDataName` | queue_service/utils.py:10 | the key is the queue's resource name, None when its data has none |
| `SortKeys.LabelPriorityKey` | queue_service/utils.py:12 | the key is the tuple (label or None, priority, id) |
| `SortKeys.NamePriorityKey` | queue_service/utils.py:13 | the key is the tuple (resource name or None, priority, id) |
| `SortKeys.LabelPriorityOrder` | queue_service/utils.py:9-12 | with the same label, lower priority comes first and ties go by id; different labels go by label text; a queue without a label cannot be compared with one that has one |
| `SortKeys.NamePriorityOrder` | queue_service/utils.py:10-13 | the same for the name key |
| `SortKeys.SameSelectorContiguous` | queue_service/utils.py:12-13 | in key order, keys sharing a selector are contiguous |
| `Connection.Call` | service_base/connection.py:14-17 | a cached class returns its instance and changes nothing; for an uncached class, an instance the constructor builds from this call's arguments is cached under the class and returned, and if the constructor raises, the call raises and nothing is cached; other classes' entries are untouched |
| `Connection.Clear` | service_base/connection.py:19-23 | the class's entry is gone; clearing an absent class changes nothing; other classes' entries are untouched |
| `Connection.LaterCallsIgnoreArguments` | service_base/connection.py:15-17 | once a class has an instance, a later call returns it and leaves the cache as it was, whatever its arguments or constructor |
| `Connection.ClearThenCallConstructsAfresh` | service_base/connection.py:14-21 | after `clear` the next call runs the constructor on that call's own arguments |
| `Connection.EntriesArePerClass` | service_base/connection.py:6-21 | calling or clearing one class leaves every other class's entry unchanged |
| `Connection.ClientBuiltOnceAtStartup` | queue_service/queue_service.py:9-13 | the utilities import builds the client from the configuration first, so the service module's later call without arguments gets the same client; that call would raise on an empty cache |

## Left out

- `Rqueue` and its grouping rule (`group_all`, `Rqueue.all`, `Rqueue.grouped_queues`): queue_service/rqueue.py is not part of this model. The grouped queues are an input to `Dispatch.Run`, and the sort keys are modelled without the sort that uses them.
- queue_service/constants.py is not part of this model. Statuses appear as the datatype `BeatCheck.Status` and the string "PENDING".
- The registry fetches in `run` and `__init__` (`get_queues` for PENDING and INITIALIZING, `instantiate_pending_queue_objects`, `pprint`) are left out. They are network I/O; their results are model inputs.
- Threads are left out. Starting a thread is modelled as adding its name to the set of live names. Threads that finish during a beat, and the interleaving of attempts with the loop, are not modelled. The per-group lookup oracle stands in for whatever earlier attempts changed in the registry.
- `Dispatch.RunStartsUniqueAttempts` holds for the carried set of live names, which never loses a name during a beat. The source re-reads `threading.enumerate()` for every group. If an earlier attempt for a queue finishes after the PENDING list was fetched and before that queue's group is reached, a second attempt starts for the queue on the stale list, even though the queue may already be FINISHED. The model does not show this.
- `time.sleep`, console clearing, `print` and the status-log file handle are left out. The log is modelled as its text, and only appending is modelled.
- Timestamps are modelled as integer epoch seconds. `strptime`/`strftime`, the two `last_beat` formats, and the `fmt` parameter are left out; a `last_beat` in neither format raises in the source and is not modelled. The health-record stamp is Python's float rendering of `timestamp()` and is taken as an opaque text without line breaks.
- `Heartbeat.QueueHasBeat`: `lastBeat` is the stamp's local clock time read as if it were UTC. The source parses `last_beat` with its `%z` offset and then reformats it with `strftime(FMT)` (queue_service/utils.py:96-104), which discards the offset, and it compares the result with `utcnow()` (utils.py:85). A beat stamped `+02:00` one second ago thus gives a gap of -7199 seconds, which wraps to 79201. The model takes `lastBeat` as that offset-free clock reading and does not model the offset itself.
- `BeatCheck.QueueBeatCheck` takes the heartbeat verdict and the lock response as inputs. The truthiness of `is_locked` is a boolean, and `print(attempt_lock.json())` is left out.
- `BeatCheck.QueueBeatCheck`: the lock response is modelled as already read, as a flag and a text. The source calls `attempt_lock.json()` at queue_service/queue_service.py:131 and :134. That call raises when the body is not JSON, and `.get` fails when the body is JSON but not an object. The attempt thread then dies and the queue's status is never set. The model does not cover such a response.
- `BeatCheck.QueueBeatCheckOutcome`: "every attempt sets the status exactly once" holds only for lock responses whose body is a JSON object. For any other body the source sets no status, as the line above says.
- `Promotion.PutQueuesOnPending` takes the `status` field of each response as an input. A response that `dict()` refuses raises in the source and is not modelled; `sys.exit` ends the method with an `Exited` outcome.
- `JsonLoader.LoadAttempt`: floats and `bytes` input to `json.loads` are not modelled, and the text grammar of JSON is an abstract parse function.
- `ResourceLockerConnection.__init__`: the environment and configuration lookup, and the `ResourceLocker` client, are not modelled. The constructor is a parameter; in the start-up scenario it is a function of the `conf_file` argument.
- `QUEUE_BEAT_TIMEOUT` is an integer, and a negative one polls zero times; `INTERVAL` is not modelled. A configuration lookup returning None is not modelled.
- Queue ids are natural numbers; negative ids, whose thread names carry a minus sign, are not modelled.

## Findings

| source | as written | input that shows it | evidently intended | confidence | as-written member | corrected member |
|---|---|---|---|---|---|---|
| queue_service/utils.py:31-45 | a parse error leaves `loaded_json` at its earlier value, and the next attempt parses that value; on attempt 1 it is None | `json_continuously_loader("{")` calls `json.loads(None)` on attempt 2 and raises TypeError | the parse error surfaces as ValueError, as the re-raise on the last attempt means | high; not executed | `JsonLoader.MalformedTextRaisesTypeError` | `JsonLoader.ContinuouslyLoadCorrected` |
| queue_service/utils.py:91-109 | a missing beat is replaced by 1970-01-01T00:00:00Z, but the gap is the `timedelta.seconds` field, i.e. taken modulo one day | a queue with no `last_beat`, polled at 2023-11-15T00:00:00Z: the gap is 0, so `queue_has_beat` returns True | a missing beat counts as no beat, so the queue is aborted as an orphan | high; not executed | `Heartbeat.MissingBeatJudgedFreshAtMidnight` | `Heartbeat.QueueHasBeatCorrected` |
