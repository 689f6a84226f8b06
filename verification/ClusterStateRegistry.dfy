/** The cluster state registry object. Its methods carry out, step by step, what ClusterState specifies. */
module ClusterStateRegistries {
  import opened Wrappers
  import opened Streak
  import opened ClusterState

  class ClusterStateRegistry {
    var ups: seq<ScaleUpRequest>
    var downs: seq<ScaleDownRequest>
    var readiness: map<string, Readiness>
    var total: Readiness
    var ranges: map<string, AcceptableRange>
    var incorrect: map<string, IncorrectSize>
    var unregistered: map<string, Time>
    var backoff: map<string, Backoff>

    function Value(): Registry
      reads this
    {
      Registry(ups, downs, readiness, total, ranges, incorrect, unregistered, backoff)
    }

    constructor ()
      ensures Value() == NEW_REGISTRY
    {
      ups, downs, readiness, total := [], [], map[], NOBODY;
      ranges, incorrect, unregistered, backoff := map[], map[], map[], map[];
    }

    method RegisterScaleUp(request: ScaleUpRequest)
      modifies this
      ensures Value() == Step(old(Value()), Op.RegisterScaleUp(request))
    {
      ups := ups + [request];
    }

    method RegisterScaleDown(request: ScaleDownRequest)
      modifies this
      ensures Value() == Step(old(Value()), Op.RegisterScaleDown(request))
    {
      downs := downs + [request];
    }

    method RegisterFailedScaleUp(group: string, now: Time)
      modifies this
      ensures Value() == Step(old(Value()), Op.RegisterFailedScaleUp(group, now))
    {
      BackoffNodeGroup(group, now);
    }

    method BackoffNodeGroup(group: string, now: Time)
      modifies this`backoff
      ensures backoff == BackedOff(old(backoff), group, now)
    {
      var duration := INITIAL_NODE_GROUP_BACKOFF_DURATION;
      if group in backoff {
        if backoff[group].until < now {
          duration := 2 * backoff[group].duration;
          if duration > MAX_NODE_GROUP_BACKOFF_DURATION {
            duration := MAX_NODE_GROUP_BACKOFF_DURATION;
          }
        }
      }
      backoff := backoff[group := Backoff(duration, now + duration, now)];
    }

    // ----- The parts of an update -----

    method UpdateReadinessStats(nodes: seq<Node>, now: Time)
      modifies this`readiness, this`total
      ensures Value() == WithReadiness(old(Value()), nodes, now)
    {
      readiness, total := CountNodes(nodes, now);
    }

    method UpdateAcceptableRanges(targets: map<string, int>)
      modifies this`ranges
      ensures Value() == WithRanges(old(Value()), targets)
    {
      var result := SubtractIncreases(targets, ups);
      ranges := AddDeletions(targets, ups, downs, result);
    }

    /** Drops the backoffs whose last failure is too long ago. */
    method DropStaleBackoffs(now: Time)
      modifies this`backoff
      ensures backoff == FreshBackoffs(old(backoff), {}, now)
    {
      var todo := backoff.Keys;
      while todo != {}
        invariant todo <= old(backoff).Keys
        invariant backoff == map g | g in old(backoff) && (g in todo || !Stale(old(backoff)[g], now)) :: old(backoff)[g]
        decreases todo
      {
        var g :| g in todo;
        if Stale(backoff[g], now) {
          backoff := backoff - {g};
        }
        todo := todo - {g};
      }
    }

    /** Sorts the scale-up requests; a finished one also ends its group's backoff. */
    method SortScaleUps(now: Time) returns (survivors: seq<ScaleUpRequest>, timeouts: seq<ScaleUpRequest>)
      modifies this`backoff
      ensures survivors == Survivors(old(Value()), ups, now) && timeouts == Timeouts(old(Value()), ups, now)
      ensures backoff == old(backoff) - FinishedGroups(old(Value()), ups)
    {
      var s := Value();
      survivors, timeouts := [], [];
      for n := 0 to |ups|
        invariant survivors == Survivors(s, ups[..n], now) && timeouts == Timeouts(s, ups[..n], now)
        invariant backoff == s.backoff - FinishedGroups(s, ups[..n])
      {
        var r := ups[n];
        assert ups[..n + 1][..n] == ups[..n];
        if !Upcoming(s, r.group) {
          backoff := backoff - {r.group};
        } else if now < r.expectedAddTime {
          survivors := survivors + [r];
        } else {
          timeouts := timeouts + [r];
        }
      }
      assert ups[..|ups|] == ups;
    }

    /** Backs off the groups of timed-out requests that no other request keeps going. */
    method BackoffTimeouts(timeouts: seq<ScaleUpRequest>, now: Time)
      requires forall r :: r in timeouts ==> Upcoming(Value(), r.group)
      modifies this`backoff
      ensures backoff == AfterTimeouts(old(backoff), timeouts, ups, now)
    {
      ghost var s := Value();
      for n := 0 to |timeouts|
        invariant backoff == AfterTimeouts(old(backoff), timeouts[..n], ups, now)
      {
        var r := timeouts[n];
        assert r in timeouts && timeouts[..n + 1][..n] == timeouts[..n];
        assert Upcoming(Value(), r.group) == Upcoming(s, r.group);
        if !IsNodeGroupScalingUp(Value(), r.group) {
          BackoffNodeGroup(r.group, now);
        }
      }
      assert timeouts[..|timeouts|] == timeouts;
    }

    method UpdateScaleRequests(now: Time)
      modifies this`ups, this`downs, this`backoff
      ensures Value() == WithRequestsSorted(old(Value()), now)
    {
      ghost var s := Value();
      DropStaleBackoffs(now);
      ghost var s' := Value();
      var survivors, timeouts := SortScaleUps(now);
      SortingIgnoresBackoff(s, s', ups, now);
      assert backoff == FreshBackoffs(s.backoff, FinishedGroups(s, s.ups), now);
      ups := survivors;
      TimeoutsAreUpcoming(s, s.ups, now);
      forall r | r in timeouts ensures Upcoming(Value(), r.group) {
        assert Upcoming(s, r.group);
      }
      BackoffTimeouts(timeouts, now);
      downs := DropExpired(downs, now);
    }

    method UpdateIncorrectNodeGroupSizes(groups: seq<NodeGroup>, now: Time)
      modifies this`incorrect
      ensures Value() == old(Value()).(incorrect := IncorrectSizes(old(Value()), KnownGroups(groups), now))
    {
      incorrect := FindIncorrectSizes(Value(), groups, now);
    }

    method UpdateUnregisteredNodes(names: seq<string>, now: Time)
      modifies this`unregistered
      ensures Value() == old(Value()).(unregistered := UnregisteredSince(old(unregistered), SetOf(names), now))
    {
      var result: map<string, Time> := map[];
      for n := 0 to |names|
        invariant unregistered == old(unregistered)
        invariant result == UnregisteredSince(unregistered, SetOf(names[..n]), now)
      {
        assert names[..n + 1] == names[..n] + [names[n]];
        SetOfAppend(names[..n], [names[n]]);
        if names[n] in unregistered {
          result := result[names[n] := unregistered[names[n]]];
        } else {
          result := result[names[n] := now];
        }
      }
      assert names[..|names|] == names;
      unregistered := result;
    }

    /** One update. When the cloud provider cannot be read, nothing changes. */
    method UpdateNodes(nodes: seq<Node>, groups: seq<NodeGroup>, now: Time) returns (ok: bool)
      modifies this
      ensures ok <==> Readable(groups)
      ensures Value() == Step(old(Value()), Op.UpdateNodes(nodes, groups, now))
    {
      var targets := GetTargetSizes(groups);
      if targets.None? {
        return false;
      }
      var notRegistered := GetNotRegisteredNodes(nodes, groups);
      if notRegistered.None? {
        return false;
      }
      UpdateEverything(nodes, groups, targets.value, notRegistered.value, now);
      ok := true;
    }

    method UpdateEverything(nodes: seq<Node>, groups: seq<NodeGroup>, targets: map<string, int>, notRegistered: seq<string>, now: Time)
      requires Readable(groups) && targets == Targets(groups) && SetOf(notRegistered) == UnregisteredNames(nodes, groups)
      modifies this
      ensures Value() == Updated(old(Value()), nodes, groups, now)
    {
      ghost var s := Value();
      UpdateReadinessStats(nodes, now);
      UpdateAcceptableRanges(targets);
      assert Value() == Prepared(s, nodes, groups, now);
      UpdateScaleRequests(now);
      UpdateAcceptableRanges(targets);
      ghost var s' := Value();
      assert s' == Sorted(s, nodes, groups, now);
      UpdateIncorrectNodeGroupSizes(groups, now);
      UpdateUnregisteredNodes(notRegistered, now);
      assert Value() == s'.(incorrect := IncorrectSizes(s', KnownGroups(groups), now),
                            unregistered := UnregisteredSince(s'.unregistered, UnregisteredNames(nodes, groups), now));
    }
  }

  function SetOf(s: seq<string>): set<string> {
    set x | x in s
  }

  lemma SetOfAppend(s: seq<string>, t: seq<string>)
    ensures SetOf(s + t) == SetOf(s) + SetOf(t)
  {
  }

  method CountNodes(nodes: seq<Node>, now: Time) returns (perNodeGroup: map<string, Readiness>, all: Readiness)
    ensures perNodeGroup == GroupTallies(nodes, now) && all == Tally(nodes, now, Everywhere)
  {
    perNodeGroup, all := map[], NOBODY;
    for n := 0 to |nodes|
      invariant perNodeGroup == GroupTallies(nodes[..n], now) && all == Tally(nodes[..n], now, Everywhere)
    {
      var node := nodes[n];
      assert nodes[..n + 1][..n] == nodes[..n];
      GroupTalliesStep(nodes[..n], node, now);
      assert nodes[..n + 1] == nodes[..n] + [node];
      if node.group.Some? {
        var g := node.group.value;
        var before := if g in perNodeGroup then perNodeGroup[g] else NOBODY;
        perNodeGroup := perNodeGroup[g := Counted(before, ClassOf(node, now))];
      }
      all := Counted(all, ClassOf(node, now));
    }
    assert nodes[..|nodes|] == nodes;
  }

  method SubtractIncreases(targets: map<string, int>, ups: seq<ScaleUpRequest>) returns (result: map<string, AcceptableRange>)
    ensures result == Ranges(targets, ups, [])
  {
    result := map g | g in targets :: AcceptableRange(targets[g], targets[g], targets[g]);
    assert result == Ranges(targets, [], []);
    for n := 0 to |ups|
      invariant result == Ranges(targets, ups[..n], [])
    {
      var g := ups[n].group;
      var range := if g in result then result[g] else AcceptableRange(0, 0, 0);
      assert ups[..n + 1] == ups[..n] + [ups[n]];
      RangesUpStep(targets, ups[..n], ups[n]);
      result := result[g := range.(minNodes := range.minNodes - ups[n].increase)];
    }
    assert ups[..|ups|] == ups;
  }

  method AddDeletions(targets: map<string, int>, ups: seq<ScaleUpRequest>, downs: seq<ScaleDownRequest>, start: map<string, AcceptableRange>)
    returns (result: map<string, AcceptableRange>)
    requires start == Ranges(targets, ups, [])
    ensures result == Ranges(targets, ups, downs)
  {
    result := start;
    for n := 0 to |downs|
      invariant result == Ranges(targets, ups, downs[..n])
    {
      var g := downs[n].group;
      var range := if g in result then result[g] else AcceptableRange(0, 0, 0);
      assert downs[..n + 1] == downs[..n] + [downs[n]];
      RangesDownStep(targets, ups, downs[..n], downs[n]);
      result := result[g := range.(maxNodes := range.maxNodes + 1)];
    }
    assert downs[..|downs|] == downs;
  }

  method DropExpired(downs: seq<ScaleDownRequest>, now: Time) returns (r: seq<ScaleDownRequest>)
    ensures r == PendingDowns(downs, now)
  {
    r := [];
    for n := 0 to |downs|
      invariant r == PendingDowns(downs[..n], now)
    {
      assert downs[..n + 1][..n] == downs[..n];
      if now < downs[n].expectedDeleteTime {
        r := r + [downs[n]];
      }
    }
    assert downs[..|downs|] == downs;
  }

  method FindIncorrectSizes(s: Registry, groups: seq<NodeGroup>, now: Time) returns (result: map<string, IncorrectSize>)
    ensures result == IncorrectSizes(s, KnownGroups(groups), now)
  {
    result := map[];
    for n := 0 to |groups|
      invariant result == IncorrectSizes(s, KnownGroups(groups[..n]), now)
    {
      var g := groups[n].id;
      assert groups[..n + 1] == groups[..n] + [groups[n]];
      KnownGroupsStep(groups[..n], groups[n]);
      IncorrectStep(s, KnownGroups(groups[..n]), g, now);
      if g in s.ranges && g in s.readiness {
        var range, registered := s.ranges[g], s.readiness[g].registered;
        if registered > range.maxNodes || registered < range.minNodes {
          var size := IncorrectSize(range.currentTarget, registered, now);
          if g in s.incorrect && s.incorrect[g].current == size.current && s.incorrect[g].expected == size.expected {
            size := s.incorrect[g];
          }
          result := result[g := size];
        }
      }
    }
    assert groups[..|groups|] == groups;
  }

  method GetTargetSizes(groups: seq<NodeGroup>) returns (r: Option<map<string, int>>)
    ensures r.Some? <==> forall g :: g in groups ==> g.targetSize.Some?
    ensures r.Some? ==> r.value == Targets(groups)
  {
    var result: map<string, int> := map[];
    for n := 0 to |groups|
      invariant forall g :: g in groups[..n] ==> g.targetSize.Some?
      invariant result == Targets(groups[..n])
    {
      assert groups[n] in groups;
      if groups[n].targetSize.None? {
        return None;
      }
      assert groups[..n + 1] == groups[..n] + [groups[n]];
      result := result[groups[n].id := groups[n].targetSize.value];
    }
    assert groups[..|groups|] == groups;
    r := Some(result);
  }

  /** The cloud's nodes that Kubernetes does not list. */
  method GetNotRegisteredNodes(nodes: seq<Node>, groups: seq<NodeGroup>) returns (r: Option<seq<string>>)
    ensures r.Some? <==> forall g :: g in groups ==> g.nodes.Some?
    ensures r.Some? ==> SetOf(r.value) == UnregisteredNames(nodes, groups)
  {
    var registered := set n | n in nodes :: n.providerId;
    var result: seq<string> := [];
    for n := 0 to |groups|
      invariant forall g :: g in groups[..n] ==> g.nodes.Some?
      invariant SetOf(result) == UnregisteredNames(nodes, groups[..n])
    {
      assert groups[n] in groups;
      if groups[n].nodes.None? {
        return None;
      }
      assert groups[..n + 1] == groups[..n] + [groups[n]];
      var names := NotIn(groups[n].nodes.value, registered);
      UnregisteredStep(nodes, groups[..n], groups[n]);
      SetOfAppend(result, names);
      result := result + names;
    }
    assert groups[..|groups|] == groups;
    r := Some(result);
  }

  method NotIn(names: seq<string>, registered: set<string>) returns (r: seq<string>)
    ensures SetOf(r) == SetOf(names) - registered
  {
    r := [];
    for n := 0 to |names|
      invariant SetOf(r) == SetOf(names[..n]) - registered
    {
      assert names[..n + 1] == names[..n] + [names[n]];
      SetOfAppend(names[..n], [names[n]]);
      SetOfAppend(r, [names[n]]);
      if names[n] !in registered {
        r := r + [names[n]];
      }
    }
    assert names[..|names|] == names;
  }

  // ----- How the specification grows with its inputs -----

  lemma UnregisteredStep(nodes: seq<Node>, groups: seq<NodeGroup>, g: NodeGroup)
    requires forall g' :: g' in groups + [g] ==> g'.nodes.Some?
    requires g in groups + [g] && forall g' :: g' in groups ==> g' in groups + [g]
    ensures UnregisteredNames(nodes, groups + [g]) ==
            UnregisteredNames(nodes, groups) + (SetOf(g.nodes.value) - (set n | n in nodes :: n.providerId))
  {
  }

  function GroupTallies(nodes: seq<Node>, now: Time): map<string, Readiness> {
    map g | g in PopulatedGroups(nodes) :: Tally(nodes, now, In(g))
  }

  lemma GroupTalliesStep(nodes: seq<Node>, node: Node, now: Time)
    ensures var before := GroupTallies(nodes, now);
            GroupTallies(nodes + [node], now) ==
            if node.group.None? then before else
              var g := node.group.value;
              before[g := Counted(if g in before then before[g] else NOBODY, ClassOf(node, now))]
  {
    var after := GroupTallies(nodes + [node], now);
    assert (nodes + [node])[..|nodes|] == nodes;
    PopulatedGroupsStep(nodes, node);
    if node.group.Some? && node.group.value !in PopulatedGroups(nodes) {
      NobodyThere(nodes, now, node.group.value);
    }
    forall g | g in after && node.group != Some(g) ensures after[g] == Tally(nodes, now, In(g)) {
    }
  }

  lemma PopulatedGroupsStep(nodes: seq<Node>, node: Node)
    ensures PopulatedGroups(nodes + [node]) ==
            PopulatedGroups(nodes) + if node.group.Some? then {node.group.value} else {}
    ensures node.group.Some? && node.group.value !in PopulatedGroups(nodes) ==>
            forall i :: 0 <= i < |nodes| ==> nodes[i].group != node.group
  {
    assert forall n :: n in nodes + [node] <==> n in nodes || n == node;
    assert forall i :: 0 <= i < |nodes| ==> nodes[i] in nodes;
  }

  lemma {:induction false} NobodyThere(nodes: seq<Node>, now: Time, g: string)
    requires forall i :: 0 <= i < |nodes| ==> nodes[i].group != Some(g)
    ensures Tally(nodes, now, In(g)) == NOBODY
  {
    if nodes != [] {
      NobodyThere(nodes[..|nodes| - 1], now, g);
    }
  }

  lemma UpStep(ups: seq<ScaleUpRequest>, r: ScaleUpRequest, g: string)
    ensures UpGroups(ups + [r]) == UpGroups(ups) + {r.group}
    ensures PendingIncrease(ups + [r], g) == PendingIncrease(ups, g) + if r.group == g then r.increase else 0
  {
    assert (ups + [r])[..|ups|] == ups;
  }

  lemma RangesUpStep(targets: map<string, int>, ups: seq<ScaleUpRequest>, r: ScaleUpRequest)
    ensures var before, g := Ranges(targets, ups, []), r.group;
            var range := if g in before then before[g] else AcceptableRange(0, 0, 0);
            Ranges(targets, ups + [r], []) == before[g := range.(minNodes := range.minNodes - r.increase)]
  {
    var before, after, g := Ranges(targets, ups, []), Ranges(targets, ups + [r], []), r.group;
    var range := if g in before then before[g] else AcceptableRange(0, 0, 0);
    UpStep(ups, r, g);
    NoIncrease(ups, g);
    assert after.Keys == before.Keys + {g};
    forall h | h in after ensures after[h] == if h == g then range.(minNodes := range.minNodes - r.increase) else before[h] {
      UpStep(ups, r, h);
    }
  }

  lemma {:induction false} NoIncrease(ups: seq<ScaleUpRequest>, g: string)
    ensures g !in UpGroups(ups) ==> PendingIncrease(ups, g) == 0
  {
    if ups != [] {
      NoIncrease(ups[..|ups| - 1], g);
    }
  }

  lemma DownStep(downs: seq<ScaleDownRequest>, r: ScaleDownRequest, g: string)
    ensures DownGroups(downs + [r]) == DownGroups(downs) + {r.group}
    ensures PendingDeletions(downs + [r], g) == PendingDeletions(downs, g) + if r.group == g then 1 else 0
  {
    assert (downs + [r])[..|downs|] == downs;
  }

  lemma RangesDownStep(targets: map<string, int>, ups: seq<ScaleUpRequest>, downs: seq<ScaleDownRequest>, r: ScaleDownRequest)
    ensures var before, g := Ranges(targets, ups, downs), r.group;
            var range := if g in before then before[g] else AcceptableRange(0, 0, 0);
            Ranges(targets, ups, downs + [r]) == before[g := range.(maxNodes := range.maxNodes + 1)]
  {
    var before, after, g := Ranges(targets, ups, downs), Ranges(targets, ups, downs + [r]), r.group;
    var range := if g in before then before[g] else AcceptableRange(0, 0, 0);
    DownStep(downs, r, g);
    NoIncrease(ups, g);
    NoDeletions(downs, g);
    assert after.Keys == before.Keys + {g};
    forall h | h in after ensures after[h] == if h == g then range.(maxNodes := range.maxNodes + 1) else before[h] {
      DownStep(downs, r, h);
    }
  }

  lemma {:induction false} NoDeletions(downs: seq<ScaleDownRequest>, g: string)
    ensures g !in DownGroups(downs) ==> PendingDeletions(downs, g) == 0
  {
    if downs != [] {
      NoDeletions(downs[..|downs| - 1], g);
    }
  }

  /** Which requests finish, survive or time out does not depend on the backoffs. */
  lemma {:induction false} SortingIgnoresBackoff(s: Registry, s': Registry, ups: seq<ScaleUpRequest>, now: Time)
    requires s'.ranges == s.ranges && s'.readiness == s.readiness
    ensures Survivors(s', ups, now) == Survivors(s, ups, now) && Timeouts(s', ups, now) == Timeouts(s, ups, now)
    ensures FinishedGroups(s', ups) == FinishedGroups(s, ups)
  {
    if ups != [] {
      SortingIgnoresBackoff(s, s', ups[..|ups| - 1], now);
      assert Upcoming(s', ups[|ups| - 1].group) == Upcoming(s, ups[|ups| - 1].group);
    }
  }

  lemma {:induction false} TimeoutsAreUpcoming(s: Registry, ups: seq<ScaleUpRequest>, now: Time)
    ensures forall r :: r in Timeouts(s, ups, now) ==> Upcoming(s, r.group)
  {
    if ups != [] {
      TimeoutsAreUpcoming(s, ups[..|ups| - 1], now);
    }
  }

  lemma KnownGroupsStep(groups: seq<NodeGroup>, g: NodeGroup)
    ensures KnownGroups(groups + [g]) == KnownGroups(groups) + {g.id}
  {
    assert forall x :: x in groups + [g] <==> x in groups || x == g;
  }

  lemma IncorrectStep(s: Registry, known: set<string>, g: string, now: Time)
    ensures var before, mismatch := IncorrectSizes(s, known, now), Mismatch(s, known + {g}, g);
            IncorrectSizes(s, known + {g}, now) ==
            if mismatch.None? then before else
              var m := Carry(IncorrectMark(s.incorrect, g), Observation(mismatch, now)).value;
              before[g := IncorrectSize(m.key.1, m.key.0, m.since)]
  {
    forall h | h in known ensures Mismatch(s, known + {g}, h) == Mismatch(s, known, h) {
    }
  }
}
