/**
 Status conditions of the cluster and of its node groups, and the time of their last transition: a
 new status takes over the transition time of the previous one where the status word is unchanged.
 */
module StatusConditions {
  import opened Wrappers
  import opened Streak

  datatype Condition = Condition(kind: string, status: string, lastProbeTime: Time, lastTransitionTime: Time)

  datatype NodeGroupStatus = NodeGroupStatus(providerId: string, conditions: seq<Condition>)

  datatype Status = Status(nodeGroups: seq<NodeGroupStatus>, clusterwide: seq<Condition>)

  const NO_STATUS := Status([], [])

  // ----- Looking up conditions: the first match counts -----

  function FirstOfKind(conditions: seq<Condition>, kind: string): Option<Condition> {
    if conditions == [] then None
    else if conditions[0].kind == kind then Some(conditions[0])
    else FirstOfKind(conditions[1..], kind)
  }

  function FirstGroup(groups: seq<NodeGroupStatus>, id: string): Option<NodeGroupStatus> {
    if groups == [] then None
    else if groups[0].providerId == id then Some(groups[0])
    else FirstGroup(groups[1..], id)
  }

  function ConditionsOf(groups: seq<NodeGroupStatus>, id: string): seq<Condition> {
    match FirstGroup(groups, id)
    case Some(g) => g.conditions
    case None => []
  }

  datatype Scope = Clusterwide | Group(id: string)

  /** The condition of a kind in a scope. */
  function Probe(s: Status, scope: Scope, kind: string): Option<Condition> {
    match scope
    case Clusterwide => FirstOfKind(s.clusterwide, kind)
    case Group(id) => FirstOfKind(ConditionsOf(s.nodeGroups, id), kind)
  }

  // ----- Carrying the transition time over -----

  function WithTransition(past: seq<Condition>, c: Condition): Condition {
    var before := FirstOfKind(past, c.kind);
    c.(lastTransitionTime :=
       if before.Some? && before.value.status == c.status then before.value.lastTransitionTime else c.lastProbeTime)
  }

  function WithTransitions(past: seq<Condition>, conditions: seq<Condition>): (r: seq<Condition>)
    ensures |r| == |conditions| && forall i :: 0 <= i < |r| ==> r[i] == WithTransition(past, conditions[i])
  {
    seq(|conditions|, i requires 0 <= i < |conditions| => WithTransition(past, conditions[i]))
  }

  function GroupWithTransitions(past: seq<NodeGroupStatus>, g: NodeGroupStatus): NodeGroupStatus {
    g.(conditions := WithTransitions(ConditionsOf(past, g.providerId), g.conditions))
  }

  function GroupsWithTransitions(past: seq<NodeGroupStatus>, groups: seq<NodeGroupStatus>): (r: seq<NodeGroupStatus>)
    ensures |r| == |groups| && forall i :: 0 <= i < |r| ==> r[i] == GroupWithTransitions(past, groups[i])
  {
    seq(|groups|, i requires 0 <= i < |groups| => GroupWithTransitions(past, groups[i]))
  }

  function Transitioned(past: Status, s: Status): Status {
    Status(GroupsWithTransitions(past.nodeGroups, s.nodeGroups), WithTransitions(past.clusterwide, s.clusterwide))
  }

  method UpdateLastTransitionSingleList(past: seq<Condition>, conditions: seq<Condition>) returns (result: seq<Condition>)
    ensures result == WithTransitions(past, conditions)
  {
    result := [];
    for n := 0 to |conditions|
      invariant result == WithTransitions(past, conditions[..n])
    {
      var condition := conditions[n];
      condition := condition.(lastTransitionTime := condition.lastProbeTime);
      for m := 0 to |past|
        invariant FirstOfKind(past, condition.kind) == FirstOfKind(past[m..], condition.kind)
        invariant condition == conditions[n].(lastTransitionTime := conditions[n].lastProbeTime)
      {
        if condition.kind == past[m].kind {
          if condition.status == past[m].status {
            condition := condition.(lastTransitionTime := past[m].lastTransitionTime);
          }
          break;
        }
        assert past[m..][1..] == past[m + 1..];
      }
      assert condition == WithTransition(past, conditions[n]);
      result := result + [condition];
    }
    assert conditions[..|conditions|] == conditions;
  }

  method UpdateLastTransition(past: Status, s: Status) returns (result: Status)
    ensures result == Transitioned(past, s)
  {
    var clusterwide := UpdateLastTransitionSingleList(past.clusterwide, s.clusterwide);
    var groups := [];
    for n := 0 to |s.nodeGroups|
      invariant groups == GroupsWithTransitions(past.nodeGroups, s.nodeGroups[..n])
    {
      var group := s.nodeGroups[n];
      var before := FindConditions(past.nodeGroups, group.providerId);
      var conditions := UpdateLastTransitionSingleList(before, group.conditions);
      groups := groups + [NodeGroupStatus(group.providerId, conditions)];
    }
    assert s.nodeGroups[..|s.nodeGroups|] == s.nodeGroups;
    result := Status(groups, clusterwide);
  }

  method FindConditions(groups: seq<NodeGroupStatus>, id: string) returns (conditions: seq<Condition>)
    ensures conditions == ConditionsOf(groups, id)
  {
    conditions := [];
    for n := 0 to |groups|
      invariant FirstGroup(groups, id) == FirstGroup(groups[n..], id)
    {
      if groups[n].providerId == id {
        return groups[n].conditions;
      }
      assert groups[n..][1..] == groups[n + 1..];
    }
  }

  // ----- The transition time is the start of the streak -----

  /** The statuses returned by a sequence of status calls, given the freshly built ones. */
  function Reported(built: seq<Status>): Status {
    if built == [] then NO_STATUS
    else Transitioned(Reported(built[..|built| - 1]), built[|built| - 1])
  }

  function Seen(s: Status, scope: Scope, kind: string): Observation<string> {
    match Probe(s, scope, kind)
    case Some(c) => Observation(Some(c.status), c.lastProbeTime)
    case None => Observation(None, 0)
  }

  function MarkOf(c: Option<Condition>): Option<Mark<string>> {
    match c
    case Some(c) => Some(Mark(c.status, c.lastTransitionTime))
    case None => None
  }

  function Sightings(built: seq<Status>, scope: Scope, kind: string): (r: seq<Observation<string>>)
    ensures |r| == |built| && forall i :: 0 <= i < |r| ==> r[i] == Seen(built[i], scope, kind)
  {
    seq(|built|, i requires 0 <= i < |built| => Seen(built[i], scope, kind))
  }

  lemma {:induction false} FirstOfTransitioned(past: seq<Condition>, conditions: seq<Condition>, kind: string)
    ensures var c := FirstOfKind(conditions, kind);
            FirstOfKind(WithTransitions(past, conditions), kind) ==
            if c.Some? then Some(WithTransition(past, c.value)) else None
    ensures var c := FirstOfKind(conditions, kind); c.Some? ==> c.value.kind == kind
  {
    if conditions != [] {
      FirstOfTransitioned(past, conditions[1..], kind);
      assert WithTransitions(past, conditions)[1..] == WithTransitions(past, conditions[1..]);
    }
  }

  lemma {:induction false} FirstOfTransitionedGroups(past: seq<NodeGroupStatus>, groups: seq<NodeGroupStatus>, id: string)
    ensures ConditionsOf(GroupsWithTransitions(past, groups), id) ==
            WithTransitions(ConditionsOf(past, id), ConditionsOf(groups, id))
  {
    if groups != [] {
      FirstOfTransitionedGroups(past, groups[1..], id);
      assert GroupsWithTransitions(past, groups)[1..] == GroupsWithTransitions(past, groups[1..]);
    }
  }

  lemma TransitionCarries(past: Status, s: Status, scope: Scope, kind: string)
    ensures MarkOf(Probe(Transitioned(past, s), scope, kind)) == Carry(MarkOf(Probe(past, scope, kind)), Seen(s, scope, kind))
  {
    match scope
    case Clusterwide =>
      FirstOfTransitioned(past.clusterwide, s.clusterwide, kind);
    case Group(id) =>
      FirstOfTransitionedGroups(past.nodeGroups, s.nodeGroups, id);
      FirstOfTransitioned(ConditionsOf(past.nodeGroups, id), ConditionsOf(s.nodeGroups, id), kind);
  }

  lemma {:induction false} ReportedIsCarried(built: seq<Status>, scope: Scope, kind: string)
    ensures MarkOf(Probe(Reported(built), scope, kind)) == Carried(Sightings(built, scope, kind))
  {
    if built != [] {
      var n := |built| - 1;
      ReportedIsCarried(built[..n], scope, kind);
      TransitionCarries(Reported(built[..n]), built[n], scope, kind);
      assert Sightings(built, scope, kind) == Sightings(built[..n], scope, kind) + [Seen(built[n], scope, kind)];
      CarriedOneMore(Sightings(built[..n], scope, kind), Seen(built[n], scope, kind));
    }
  }

  /**
   Over any sequence of status calls, a condition is reported exactly if its status has a current
   unbroken run, and its transition time is the probe time of the call that started that run.
   */
  lemma LastTransitionIsStreakStart(built: seq<Status>, scope: Scope, kind: string)
    ensures Probe(Reported(built), scope, kind).Some? <==> exists start: nat :: StreakStart(Sightings(built, scope, kind), start)
    ensures forall start: nat :: StreakStart(Sightings(built, scope, kind), start) ==>
              && Probe(Reported(built), scope, kind).Some? && Probe(built[start], scope, kind).Some?
              && Probe(Reported(built), scope, kind).value.lastTransitionTime == Probe(built[start], scope, kind).value.lastProbeTime
  {
    var seen := Sightings(built, scope, kind);
    ReportedIsCarried(built, scope, kind);
    CarriedIsStreak(seen);
    forall start: nat | StreakStart(seen, start)
      ensures Probe(built[start], scope, kind).Some? && seen[start].time == Probe(built[start], scope, kind).value.lastProbeTime
    {
      assert seen[start] == Seen(built[start], scope, kind);
    }
  }
}
