/**
 One beat of `QueueService.run`: a left fold over the already-grouped queues.
 For each group, in order, the registry is asked for free resources matching
 the group's selector; when it answers with at least one, the group's first
 queue is popped and paired with the first resource, and an attempt thread
 named `Thread-<queue id>` is started unless a live thread already has that
 name. An unknown selector type raises at that group; whatever earlier groups
 did stands.

 The registry is an oracle `lookup(i, query)`: the free resources it reports
 for the query of the group at position `i`. It is indexed by position
 because attempt threads started for earlier groups may lock resources while
 the loop continues. The live thread names are carried as a set.
 */
module Dispatch {
  import opened Base
  import opened Queues

  /** `get_lockable_resources(free_only=True, label_matches=...)` or
      `get_lockable_resources(free_only=True, name=...)`. */
  datatype Query = FreeByLabel(labelMatches: string) | FreeByName(exactName: string)

  /** What a group did this beat, when it got past its selector check. */
  datatype GroupOutcome =
    | NoFreeResource
    | Picked(queue: Queue, resource: Resource, started: bool)

  /** The two ways the loop raises: the explicit exception for an unknown
      group type, and `pop(0)` on a group whose queue list is empty. */
  datatype RunError = UnknownGroupType(groupType: string) | PopFromEmptyGroup

  /** State of the loop: the (mutated) groups, the live thread names, one
      outcome per group processed so far, and the exception, if one was raised
      at the group after the last outcome. */
  datatype Beat = Beat(
    groups: seq<Group>,
    live: set<string>,
    outcomes: seq<GroupOutcome>,
    error: Option<RunError>)

  /** The registry query a group's selector type asks for. */
  function QueryFor(g: Group): (q: Option<Query>)
    ensures q.Some? <==> g.groupType == "label" || g.groupType == "name"
    ensures q == Some(FreeByLabel(g.groupName)) <==> g.groupType == "label"
    ensures q == Some(FreeByName(g.groupName)) <==> g.groupType == "name"
  {
    if g.groupType == "label" then Some(FreeByLabel(g.groupName))
    else if g.groupType == "name" then Some(FreeByName(g.groupName))
    else None
  }

  /** The body of the `for group in Rqueue.grouped_queues` loop, for the group
      at position `|b.outcomes|`. */
  function Step(b: Beat, lookup: (nat, Query) -> seq<Resource>): (r: Beat)
    requires b.error.None? && |b.outcomes| < |b.groups|
    ensures |r.groups| == |b.groups|
    ensures r.error.None? ==> |r.outcomes| == |b.outcomes| + 1 && r.outcomes[..|b.outcomes|] == b.outcomes
    ensures r.error.Some? ==> r.outcomes == b.outcomes && r.groups == b.groups && r.live == b.live
    ensures forall j :: 0 <= j < |b.groups| && j != |b.outcomes| ==> r.groups[j] == b.groups[j]
  {
    var i := |b.outcomes|;
    var g := b.groups[i];
    match QueryFor(g)
    case None => b.(error := Some(UnknownGroupType(g.groupType)))
    case Some(query) =>
      var free := lookup(i, query);
      if |free| == 0 then b.(outcomes := b.outcomes + [NoFreeResource])
      else if |g.queues| == 0 then b.(error := Some(PopFromEmptyGroup))
      else
        var next := g.queues[0];
        var name := ThreadName(next.id);
        var fire := name !in b.live;
        b.(groups := b.groups[i := g.(queues := g.queues[1..])],
           live := if fire then b.live + {name} else b.live,
           outcomes := b.outcomes + [Picked(next, free[0], fire)])
  }

  /** The loop after its first `n` iterations (fewer when it raised). */
  function RunPrefix(groups: seq<Group>, live: set<string>, lookup: (nat, Query) -> seq<Resource>, n: nat): (b: Beat)
    requires n <= |groups|
    ensures |b.groups| == |groups|
    ensures b.error.None? ==> |b.outcomes| == n
    ensures b.error.Some? ==> |b.outcomes| < n
  {
    if n == 0 then Beat(groups, live, [], None)
    else
      var prev := RunPrefix(groups, live, lookup, n - 1);
      if prev.error.Some? then prev else Step(prev, lookup)
  }

  /** One full pass of `run` over the grouped queues: every group the loop
      got through did what the loop body says, and an exception names its
      cause at the group after the last outcome. */
  function Run(groups: seq<Group>, live: set<string>, lookup: (nat, Query) -> seq<Resource>): (b: Beat)
    ensures |b.groups| == |groups| && |b.outcomes| <= |groups|
    ensures b.error.None? <==> |b.outcomes| == |groups|
    ensures forall j :: |b.outcomes| <= j < |groups| ==> b.groups[j] == groups[j]
    ensures forall j :: 0 <= j < |b.outcomes| ==> ProcessedAsRun(groups, lookup, j, b.outcomes[j], b.groups[j])
    ensures b.error.Some? ==> |b.outcomes| < |groups| && RaisedAt(groups, lookup, |b.outcomes|, b.error.value)
  {
    RunPrefixGroups(groups, live, lookup, |groups|);
    RunPrefix(groups, live, lookup, |groups|)
  }

  /** Names of the attempt threads started by the given outcomes. */
  function StartedNames(outcomes: seq<GroupOutcome>): set<string>
  {
    if |outcomes| == 0 then {}
    else
      var last := outcomes[|outcomes| - 1];
      StartedNames(outcomes[..|outcomes| - 1])
        + (if last.Picked? && last.started then {ThreadName(last.queue.id)} else {})
  }

  /** What group `j` of the original list did, given the outcome recorded for
      it and the group as the loop left it. */
  ghost predicate ProcessedAsRun(groups: seq<Group>, lookup: (nat, Query) -> seq<Resource>, j: nat, o: GroupOutcome, after: Group)
    requires j < |groups|
  {
    var g := groups[j];
    && QueryFor(g).Some?
    && var free := lookup(j, QueryFor(g).value);
       match o
       case NoFreeResource => |free| == 0 && after == g
       case Picked(q, res, _) =>
         && |free| > 0 && |g.queues| > 0
         && q == g.queues[0] && res == free[0]
         && after == g.(queues := g.queues[1..])
  }

  /** Why the loop raised at group `k`. */
  ghost predicate RaisedAt(groups: seq<Group>, lookup: (nat, Query) -> seq<Resource>, k: nat, e: RunError)
    requires k < |groups|
  {
    match e
    case UnknownGroupType(t) => QueryFor(groups[k]).None? && t == groups[k].groupType
    case PopFromEmptyGroup =>
      QueryFor(groups[k]).Some? && |lookup(k, QueryFor(groups[k]).value)| > 0 && |groups[k].queues| == 0
  }

  /** Group by group, the loop does what the source does: a group whose
      lookup is empty is left alone; otherwise its first queue is paired with
      the first free resource and removed from the group; groups the loop has
      not reached are untouched; and an exception names the group it was
      raised at. */
  lemma {:induction false} RunPrefixGroups(groups: seq<Group>, live: set<string>, lookup: (nat, Query) -> seq<Resource>, n: nat)
    requires n <= |groups|
    ensures var b := RunPrefix(groups, live, lookup, n);
      && (forall j :: |b.outcomes| <= j < |groups| ==> b.groups[j] == groups[j])
      && (forall j :: 0 <= j < |b.outcomes| ==> ProcessedAsRun(groups, lookup, j, b.outcomes[j], b.groups[j]))
      && (b.error.Some? ==> RaisedAt(groups, lookup, |b.outcomes|, b.error.value))
  {
    if n > 0 {
      RunPrefixGroups(groups, live, lookup, n - 1);
      var prev := RunPrefix(groups, live, lookup, n - 1);
      if prev.error.None? {
        var b := Step(prev, lookup);
        var i := |prev.outcomes|;
        assert prev.groups[i] == groups[i];
        if b.error.None? {
          forall j | 0 <= j < |b.outcomes|
            ensures ProcessedAsRun(groups, lookup, j, b.outcomes[j], b.groups[j])
          {
            if j < i {
              assert b.outcomes[j] == prev.outcomes[j];
              assert b.groups[j] == prev.groups[j];
            }
          }
        }
      }
    }
  }

  lemma StartedNamesAppend(outcomes: seq<GroupOutcome>, o: GroupOutcome)
    ensures StartedNames(outcomes + [o])
      == StartedNames(outcomes) + (if o.Picked? && o.started then {ThreadName(o.queue.id)} else {})
  {
    assert (outcomes + [o])[..|outcomes|] == outcomes;
  }

  /** One iteration starts the picked queue's attempt exactly when its name
      is not live, and adds that name to the live set. */
  lemma StepStartRule(b: Beat, lookup: (nat, Query) -> seq<Resource>)
    requires b.error.None? && |b.outcomes| < |b.groups|
    ensures var r := Step(b, lookup);
      r.error.None? ==>
        var o := r.outcomes[|b.outcomes|];
        && r.outcomes == b.outcomes + [o]
        && r.live == b.live + (if o.Picked? && o.started then {ThreadName(o.queue.id)} else {})
        && (o.Picked? ==> (o.started <==> ThreadName(o.queue.id) !in b.live))
  {
  }

  /** A thread is started for a picked queue exactly when no live thread
      (initial, or started earlier this beat) has its name. */
  ghost predicate StartRuleHolds(live: set<string>, outcomes: seq<GroupOutcome>)
  {
    forall j :: 0 <= j < |outcomes| && outcomes[j].Picked? ==>
      (outcomes[j].started <==> ThreadName(outcomes[j].queue.id) !in live + StartedNames(outcomes[..j]))
  }

  lemma StartRuleExtends(live: set<string>, outcomes: seq<GroupOutcome>, o: GroupOutcome)
    requires StartRuleHolds(live, outcomes)
    requires o.Picked? ==> (o.started <==> ThreadName(o.queue.id) !in live + StartedNames(outcomes))
    ensures StartRuleHolds(live, outcomes + [o])
  {
    var all := outcomes + [o];
    forall j | 0 <= j < |all| && all[j].Picked?
      ensures all[j].started <==> ThreadName(all[j].queue.id) !in live + StartedNames(all[..j])
    {
      if j < |outcomes| {
        assert all[..j] == outcomes[..j];
        assert all[j] == outcomes[j];
      } else {
        assert all[..j] == outcomes;
      }
    }
  }

  /** The live names after `n` iterations are the initial ones plus the
      started threads' names, and the start rule holds for every outcome. */
  lemma {:induction false} RunPrefixLive(groups: seq<Group>, live: set<string>, lookup: (nat, Query) -> seq<Resource>, n: nat)
    requires n <= |groups|
    ensures var b := RunPrefix(groups, live, lookup, n);
      b.live == live + StartedNames(b.outcomes) && StartRuleHolds(live, b.outcomes)
  {
    if n > 0 {
      RunPrefixLive(groups, live, lookup, n - 1);
      var prev := RunPrefix(groups, live, lookup, n - 1);
      if prev.error.None? {
        StepKeepsLive(live, prev, lookup);
      }
    }
  }

  lemma StepKeepsLive(live: set<string>, b: Beat, lookup: (nat, Query) -> seq<Resource>)
    requires b.error.None? && |b.outcomes| < |b.groups|
    requires b.live == live + StartedNames(b.outcomes) && StartRuleHolds(live, b.outcomes)
    ensures var r := Step(b, lookup);
      r.live == live + StartedNames(r.outcomes) && StartRuleHolds(live, r.outcomes)
  {
    var r := Step(b, lookup);
    if r.error.None? {
      StepStartRule(b, lookup);
      var o := r.outcomes[|b.outcomes|];
      StartedNamesAppend(b.outcomes, o);
      StartRuleExtends(live, b.outcomes, o);
    }
  }

  lemma {:induction false} StartedNamesContains(outcomes: seq<GroupOutcome>, i: nat)
    requires i < |outcomes| && outcomes[i].Picked? && outcomes[i].started
    ensures ThreadName(outcomes[i].queue.id) in StartedNames(outcomes)
  {
    var m := |outcomes| - 1;
    if i < m {
      assert outcomes[..m][i] == outcomes[i];
      StartedNamesContains(outcomes[..m], i);
    }
  }

  /** Each group yields at most one (queue, resource) pair, and it yields one
      exactly when its free-resource lookup is non-empty; the pair is the
      group's first queue and the first resource returned, and that queue is
      gone from the group afterwards. */
  lemma RunDispatchesPerGroup(groups: seq<Group>, live: set<string>, lookup: (nat, Query) -> seq<Resource>, j: nat)
    requires var b := Run(groups, live, lookup); j < |b.outcomes|
    ensures var b := Run(groups, live, lookup);
      && QueryFor(groups[j]).Some?
      && var free := lookup(j, QueryFor(groups[j]).value);
         && (b.outcomes[j].Picked? <==> |free| > 0)
         && (b.outcomes[j].NoFreeResource? ==> b.groups[j] == groups[j])
         && (b.outcomes[j].Picked? ==>
               && |groups[j].queues| > 0
               && b.outcomes[j].queue == groups[j].queues[0]
               && b.outcomes[j].resource == free[0]
               && b.groups[j].queues == groups[j].queues[1..])
  {
    var b := Run(groups, live, lookup);
    RunPrefixGroups(groups, live, lookup, |groups|);
    assert ProcessedAsRun(groups, lookup, j, b.outcomes[j], b.groups[j]);
  }

  /** The loop raises for an unknown selector type at the first such group
      (unless an empty group raised earlier), and the outcomes of all earlier
      groups stand; it completes exactly when every group has a known type and
      no group with free resources is empty. */
  lemma RunErrorAtGroup(groups: seq<Group>, live: set<string>, lookup: (nat, Query) -> seq<Resource>)
    ensures var b := Run(groups, live, lookup);
      && (b.error.Some? ==> |b.outcomes| < |groups|)
      && (b.error.Some? && b.error.value.UnknownGroupType? ==>
            && b.error.value.groupType == groups[|b.outcomes|].groupType
            && groups[|b.outcomes|].groupType != "label" && groups[|b.outcomes|].groupType != "name")
      && (b.error.Some? ==> forall j :: 0 <= j < |b.outcomes| ==> QueryFor(groups[j]).Some?)
      && (b.error.None? <==>
            forall j :: 0 <= j < |groups| ==>
              QueryFor(groups[j]).Some? && (|lookup(j, QueryFor(groups[j]).value)| > 0 ==> |groups[j].queues| > 0))
  {
    var b := Run(groups, live, lookup);
    RunPrefixGroups(groups, live, lookup, |groups|);
    forall j | 0 <= j < |b.outcomes|
      ensures QueryFor(groups[j]).Some?
    {
      assert ProcessedAsRun(groups, lookup, j, b.outcomes[j], b.groups[j]);
    }
    if b.error.None? {
      forall j | 0 <= j < |groups|
        ensures QueryFor(groups[j]).Some? && (|lookup(j, QueryFor(groups[j]).value)| > 0 ==> |groups[j].queues| > 0)
      {
        assert ProcessedAsRun(groups, lookup, j, b.outcomes[j], b.groups[j]);
      }
    }
  }

  /** Unknown selector types: when the first group with a type other than
      "label" or "name" is at position k, and no earlier group raised, the
      loop raises there having processed exactly the k groups before it. */
  lemma RunRaisesAtUnknownType(groups: seq<Group>, live: set<string>, lookup: (nat, Query) -> seq<Resource>, k: nat)
    requires k < |groups| && QueryFor(groups[k]).None?
    requires forall j :: 0 <= j < k ==>
      QueryFor(groups[j]).Some? && (|lookup(j, QueryFor(groups[j]).value)| > 0 ==> |groups[j].queues| > 0)
    ensures var b := Run(groups, live, lookup);
      |b.outcomes| == k && b.error == Some(UnknownGroupType(groups[k].groupType))
  {
    var b := Run(groups, live, lookup);
    RunPrefixGroups(groups, live, lookup, |groups|);
    RunErrorAtGroup(groups, live, lookup);
  }

  /** No attempt is started under a name that was live when the beat began,
      no two attempts started in one beat share a name (hence a queue id), and
      a picked queue whose name is neither live at beat start nor started
      earlier in the beat gets its attempt started. */
  lemma RunStartsUniqueAttempts(groups: seq<Group>, live: set<string>, lookup: (nat, Query) -> seq<Resource>)
    ensures var b := Run(groups, live, lookup);
      && b.live == live + StartedNames(b.outcomes)
      && (forall j :: 0 <= j < |b.outcomes| && b.outcomes[j].Picked? && b.outcomes[j].started ==>
            ThreadName(b.outcomes[j].queue.id) !in live)
      && (forall j ::
            (0 <= j < |b.outcomes| && b.outcomes[j].Picked?
             && ThreadName(b.outcomes[j].queue.id) !in live + StartedNames(b.outcomes[..j])) ==>
            b.outcomes[j].started)
      && (forall i, j ::
            (0 <= i < j < |b.outcomes| && b.outcomes[i].Picked? && b.outcomes[i].started
             && b.outcomes[j].Picked? && b.outcomes[j].started) ==>
            b.outcomes[i].queue.id != b.outcomes[j].queue.id)
  {
    var b := Run(groups, live, lookup);
    RunPrefixLive(groups, live, lookup, |groups|);
    assert StartRuleHolds(live, b.outcomes);
    forall i, j | 0 <= i < j < |b.outcomes| && b.outcomes[i].Picked? && b.outcomes[i].started
      && b.outcomes[j].Picked? && b.outcomes[j].started
      ensures b.outcomes[i].queue.id != b.outcomes[j].queue.id
    {
      var prefix := b.outcomes[..j];
      assert prefix[i] == b.outcomes[i];
      StartedNamesContains(prefix, i);
    }
  }

  /** Nothing in the loop keeps two groups from being offered the same free
      resource in one beat: a "label" group and a "name" group whose queries
      both report resource r1 both pick it (the registry decides which lock
      wins). */
  lemma SameResourceOfferedToTwoGroups()
    ensures var q1 := Queue(1, 0, QueueData(None, None, Some("x"), None));
      var q2 := Queue(2, 0, QueueData(None, None, None, Some("r1")));
      var groups := [Group("label", "x", [q1]), Group("name", "r1", [q2])];
      var b := Run(groups, {}, (i: nat, q: Query) => [Resource("r1")]);
      && b.error.None?
      && b.outcomes == [Picked(q1, Resource("r1"), true), Picked(q2, Resource("r1"), true)]
  {
    var q1 := Queue(1, 0, QueueData(None, None, Some("x"), None));
    var q2 := Queue(2, 0, QueueData(None, None, None, Some("r1")));
    ThreadNameInjective(1, 2);
    assert ThreadName(1) != ThreadName(2);
  }
}
