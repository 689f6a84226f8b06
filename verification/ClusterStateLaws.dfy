/** What every update of the cluster state registry, and every run of it, keeps. */
module ClusterStateLaws {
  import opened Wrappers
  import opened Streak
  import opened ClusterState

  // ----- Readiness counts -----

  function Plus(r: Readiness, t: Readiness): Readiness {
    Readiness(r.ready + t.ready, r.unready + t.unready, r.deleted + t.deleted,
              r.longNotStarted + t.longNotStarted, r.notStarted + t.notStarted, r.registered + t.registered)
  }

  /** The classes partition the registered nodes, whatever nodes are counted. */
  lemma {:induction false} ClassesPartition(nodes: seq<Node>, now: Time, scope: Scope)
    ensures var r := Tally(nodes, now, scope);
            && r.registered == r.ready + r.unready + r.deleted + r.longNotStarted + r.notStarted
            && 0 <= r.ready && 0 <= r.unready && 0 <= r.deleted && 0 <= r.longNotStarted && 0 <= r.notStarted
  {
    if nodes != [] {
      ClassesPartition(nodes[..|nodes| - 1], now, scope);
    }
  }

  /** As time passes, a node's class changes only from not started to long not started. */
  lemma ClassesAge(node: Node, now: Time, later: Time)
    requires now <= later
    ensures ClassOf(node, later) ==
            if ClassOf(node, now) == NotStarted && node.created + MAX_NODE_STARTUP_TIME < later then LongNotStarted
            else ClassOf(node, now)
    ensures ClassOf(node, now) == NotStarted ==> now <= node.created + MAX_NODE_STARTUP_TIME
  {
  }

  /** With the same nodes, later counts differ only by nodes that failed to start in time. */
  lemma {:induction false} TalliesAge(nodes: seq<Node>, now: Time, later: Time, scope: Scope)
    requires now <= later
    ensures var r, r' := Tally(nodes, now, scope), Tally(nodes, later, scope);
            && r'.notStarted <= r.notStarted
            && r' == r.(notStarted := r'.notStarted, longNotStarted := r.longNotStarted + r.notStarted - r'.notStarted)
  {
    if nodes != [] {
      TalliesAge(nodes[..|nodes| - 1], now, later, scope);
      ClassesAge(nodes[|nodes| - 1], now, later);
    }
  }

  function SumOver(nodes: seq<Node>, now: Time, groups: seq<string>): Readiness {
    if groups == [] then NOBODY
    else Plus(SumOver(nodes, now, groups[..|groups| - 1]), Tally(nodes, now, In(groups[|groups| - 1])))
  }

  /** One more node adds to the sum over the groups exactly if its group is listed. */
  lemma {:induction false} SumOverOneMore(nodes: seq<Node>, now: Time, groups: seq<string>)
    requires nodes != [] && forall i, j :: 0 <= i < j < |groups| ==> groups[i] != groups[j]
    ensures var front, last := nodes[..|nodes| - 1], nodes[|nodes| - 1];
            SumOver(nodes, now, groups) ==
            if last.group.Some? && last.group.value in groups then Counted(SumOver(front, now, groups), ClassOf(last, now))
            else SumOver(front, now, groups)
  {
    if groups != [] {
      SumOverOneMore(nodes, now, groups[..|groups| - 1]);
      var g := groups[|groups| - 1];
      assert groups == groups[..|groups| - 1] + [g];
      assert g !in groups[..|groups| - 1];
      var front, last := nodes[..|nodes| - 1], nodes[|nodes| - 1];
      PlusCounted(SumOver(front, now, groups[..|groups| - 1]), Tally(front, now, In(g)), ClassOf(last, now));
    }
  }

  lemma {:induction false} SumOverNobody(now: Time, groups: seq<string>)
    ensures SumOver([], now, groups) == NOBODY
  {
    if groups != [] {
      SumOverNobody(now, groups[..|groups| - 1]);
    }
  }

  lemma PlusCounted(r: Readiness, t: Readiness, c: Class)
    ensures Plus(Counted(r, c), t) == Counted(Plus(r, t), c) == Plus(r, Counted(t, c))
  {
  }

  /** Either the unmanaged nodes or the sum over the groups grows with the total. */
  lemma TotalOneMore(nodes: seq<Node>, now: Time, groups: seq<string>)
    requires nodes != [] && forall i, j :: 0 <= i < j < |groups| ==> groups[i] != groups[j]
    requires var g := nodes[|nodes| - 1].group; g.Some? ==> g.value in groups
    ensures var front := nodes[..|nodes| - 1];
            Tally(front, now, Everywhere) == Plus(Tally(front, now, Unmanaged), SumOver(front, now, groups)) ==>
            Tally(nodes, now, Everywhere) == Plus(Tally(nodes, now, Unmanaged), SumOver(nodes, now, groups))
  {
    var front, last := nodes[..|nodes| - 1], nodes[|nodes| - 1];
    SumOverOneMore(nodes, now, groups);
    PlusCounted(Tally(front, now, Unmanaged), SumOver(front, now, groups), ClassOf(last, now));
  }

  /** In every class, the groups and the unmanaged nodes together make up the total. */
  lemma {:induction false} GroupsMakeUpTotal(nodes: seq<Node>, now: Time, groups: seq<string>)
    requires forall i, j :: 0 <= i < j < |groups| ==> groups[i] != groups[j]
    requires forall i :: 0 <= i < |nodes| && nodes[i].group.Some? ==> nodes[i].group.value in groups
    ensures Tally(nodes, now, Everywhere) == Plus(Tally(nodes, now, Unmanaged), SumOver(nodes, now, groups))
  {
    if nodes == [] {
      NobodyMakesUpTotal(now, groups);
    } else {
      GroupsMakeUpTotal(nodes[..|nodes| - 1], now, groups);
      TotalOneMore(nodes, now, groups);
    }
  }

  lemma NobodyMakesUpTotal(now: Time, groups: seq<string>)
    ensures Tally([], now, Everywhere) == Plus(Tally([], now, Unmanaged), SumOver([], now, groups))
  {
    SumOverNobody(now, groups);
  }

  // ----- Acceptable ranges -----

  lemma {:induction false} RangeContainsTarget(targets: map<string, int>, ups: seq<ScaleUpRequest>, downs: seq<ScaleDownRequest>, g: string)
    requires forall r :: r in ups ==> 0 <= r.increase
    ensures var a := RangeOf(targets, ups, downs, g); a.minNodes <= a.currentTarget <= a.maxNodes
  {
    IncreaseNonNegative(ups, g);
  }

  lemma {:induction false} IncreaseNonNegative(ups: seq<ScaleUpRequest>, g: string)
    requires forall r :: r in ups ==> 0 <= r.increase
    ensures 0 <= PendingIncrease(ups, g)
  {
    if ups != [] {
      IncreaseNonNegative(ups[..|ups| - 1], g);
    }
  }

  // ----- Requests that survive an update -----

  function SurvivingPositions(s: Registry, ups: seq<ScaleUpRequest>, now: Time): seq<nat> {
    if ups == [] then [] else
      var n := |ups| - 1;
      SurvivingPositions(s, ups[..n], now) + if Survives(s, ups[n], now) then [n] else []
  }

  lemma {:induction false} SurvivingPositionsAscend(s: Registry, ups: seq<ScaleUpRequest>, now: Time)
    ensures AscendingBelow(SurvivingPositions(s, ups, now), |ups|)
  {
    if ups != [] {
      var n := |ups| - 1;
      SurvivingPositionsAscend(s, ups[..n], now);
      var before := SurvivingPositions(s, ups[..n], now);
      assert AscendingBelow(before, n);
      if Survives(s, ups[n], now) {
        assert SurvivingPositions(s, ups, now) == before + [n];
      } else {
        assert SurvivingPositions(s, ups, now) == before;
      }
    }
  }

  predicate AscendingBelow(at: seq<nat>, bound: nat) {
    && (forall k :: 0 <= k < |at| ==> at[k] < bound)
    && (forall k, l :: 0 <= k < l < |at| ==> at[k] < at[l])
  }

  lemma {:induction false} SurvivingPositionsExact(s: Registry, ups: seq<ScaleUpRequest>, now: Time, i: nat)
    requires i < |ups|
    ensures i in SurvivingPositions(s, ups, now) <==> Survives(s, ups[i], now)
  {
    var n := |ups| - 1;
    var before, at := SurvivingPositions(s, ups[..n], now), SurvivingPositions(s, ups, now);
    SurvivingPositionsAscend(s, ups[..n], now);
    assert at == before + if Survives(s, ups[n], now) then [n] else [];
    assert i in at <==> i in before || (i == n && Survives(s, ups[n], now));
    if i < n {
      SurvivingPositionsExact(s, ups[..n], now, i);
    }
  }

  /** The surviving requests are the old ones at exactly the surviving positions, in order. */
  lemma {:induction false} SurvivorsInOrder(s: Registry, ups: seq<ScaleUpRequest>, now: Time, k: nat)
    requires k < |Survivors(s, ups, now)|
    ensures var at := SurvivingPositions(s, ups, now);
            |at| == |Survivors(s, ups, now)| && at[k] < |ups| && Survivors(s, ups, now)[k] == ups[at[k]]
  {
    var n := |ups| - 1;
    var front := ups[..n];
    if k < |Survivors(s, front, now)| {
      SurvivorsInOrder(s, front, now, k);
    } else {
      SameNumber(s, front, now);
    }
  }

  lemma {:induction false} SameNumber(s: Registry, ups: seq<ScaleUpRequest>, now: Time)
    ensures |SurvivingPositions(s, ups, now)| == |Survivors(s, ups, now)|
  {
    if ups != [] {
      SameNumber(s, ups[..|ups| - 1], now);
    }
  }

  lemma {:induction false} TargetsAreKnown(groups: seq<NodeGroup>)
    requires forall g :: g in groups ==> g.targetSize.Some?
    ensures Targets(groups).Keys == KnownGroups(groups)
  {
    if groups != [] {
      var front, last := groups[..|groups| - 1], groups[|groups| - 1];
      assert groups == front + [last];
      TargetsAreKnown(front);
      assert KnownGroups(groups) == KnownGroups(front) + {last.id};
    } else {
      assert KnownGroups(groups) == {};
    }
  }

  lemma ProvisionedNonNegative(s: Registry, nodes: seq<Node>, now: Time, g: string)
    ensures 0 <= Provisioned(WithReadiness(s, nodes, now), g)
  {
    ClassesPartition(nodes, now, In(g));
  }

  /** A group with nodes to come is known and has a positive target, before and after sorting the requests. */
  lemma UpcomingIsKnown(s: Registry, nodes: seq<Node>, groups: seq<NodeGroup>, now: Time, g: string)
    requires Readable(groups) && Upcoming(Prepared(s, nodes, groups, now), g)
    ensures g in KnownGroups(groups) && g in Targets(groups)
    ensures TargetOf(Targets(groups), g) > Provisioned(Prepared(s, nodes, groups, now), g) >= 0
    ensures Upcoming(Updated(s, nodes, groups, now), g)
  {
    ProvisionedNonNegative(s, nodes, now, g);
    TargetsAreKnown(groups);
    assert g in Sorted(s, nodes, groups, now).ranges;
  }

  lemma {:induction false} SurvivorsSurvive(s: Registry, ups: seq<ScaleUpRequest>, now: Time, r: ScaleUpRequest)
    ensures r in Survivors(s, ups, now) <==> r in ups && Survives(s, r, now)
  {
    if ups != [] {
      assert ups == ups[..|ups| - 1] + [ups[|ups| - 1]];
      SurvivorsSurvive(s, ups[..|ups| - 1], now, r);
    }
  }

  lemma {:induction false} RemainingDowns(downs: seq<ScaleDownRequest>, now: Time, r: ScaleDownRequest)
    ensures r in PendingDowns(downs, now) <==> r in downs && now < r.expectedDeleteTime
  {
    if downs != [] {
      assert downs == downs[..|downs| - 1] + [downs[|downs| - 1]];
      RemainingDowns(downs[..|downs| - 1], now, r);
    }
  }

  /**
   After an update every remaining request is unexpired and for a known group whose target exceeds
   what is provisioned, so a group is scaling up exactly if a request for it remains.
   */
  lemma RemainingRequests(s: Registry, nodes: seq<Node>, groups: seq<NodeGroup>, now: Time, g: string)
    requires Readable(groups)
    ensures var s' := Updated(s, nodes, groups, now);
            && (IsNodeGroupScalingUp(s', g) <==> HasRequest(s'.ups, g))
            && forall r :: r in s'.ups && r.group == g ==>
                 && r in s.ups && now < r.expectedAddTime
                 && g in KnownGroups(groups) && TargetOf(Targets(groups), g) > Provisioned(s', g) >= 0
  {
    var s' := Updated(s, nodes, groups, now);
    var p := Prepared(s, nodes, groups, now);
    TargetsAreKnown(groups);
    forall r | r in s'.ups && r.group == g
      ensures r in s.ups && now < r.expectedAddTime
      ensures g in KnownGroups(groups) && TargetOf(Targets(groups), g) > Provisioned(s', g) >= 0 && Upcoming(s', g)
    {
      SurvivorsSurvive(p, s.ups, now, r);
      UpcomingIsKnown(s, nodes, groups, now, g);
    }
    if HasRequest(s'.ups, g) {
      var i :| 0 <= i < |s'.ups| && s'.ups[i].group == g;
      assert s'.ups[i] in s'.ups;
    }
  }

  // ----- Backoff -----

  predicate IsBackoffDuration(d: int) {
    d == 5 * MINUTE || d == 10 * MINUTE || d == 20 * MINUTE || d == 30 * MINUTE
  }

  predicate WellFormedBackoffs(b: map<string, Backoff>) {
    forall g :: g in b ==> IsBackoffDuration(b[g].duration) && b[g].until == b[g].lastFailed + b[g].duration
  }

  lemma BackingOffKeepsForm(b: map<string, Backoff>, g: string, now: Time)
    requires WellFormedBackoffs(b)
    ensures WellFormedBackoffs(BackedOff(b, g, now))
  {
  }

  lemma {:induction false} TimeoutsKeepForm(b: map<string, Backoff>, timeouts: seq<ScaleUpRequest>, survivors: seq<ScaleUpRequest>, now: Time)
    requires WellFormedBackoffs(b)
    ensures WellFormedBackoffs(AfterTimeouts(b, timeouts, survivors, now))
  {
    if timeouts != [] {
      var front := timeouts[..|timeouts| - 1];
      TimeoutsKeepForm(b, front, survivors, now);
      BackingOffKeepsForm(AfterTimeouts(b, front, survivors, now), timeouts[|timeouts| - 1].group, now);
    }
  }

  /** In every reachable state a backoff lasts 5, 10, 20 or 30 minutes from the last failure. */
  lemma {:induction false} BackoffsStayWellFormed(ops: seq<Op>)
    ensures WellFormedBackoffs(After(ops).backoff)
  {
    if ops != [] {
      var s, op := After(ops[..|ops| - 1]), ops[|ops| - 1];
      BackoffsStayWellFormed(ops[..|ops| - 1]);
      match op
      case UpdateNodes(nodes, groups, now) =>
        if Readable(groups) {
          var p := Prepared(s, nodes, groups, now);
          TimeoutsKeepForm(FreshBackoffs(s.backoff, FinishedGroups(p, s.ups), now), Timeouts(p, s.ups, now), Survivors(p, s.ups, now), now);
        }
      case RegisterScaleUp(_) =>
      case RegisterScaleDown(_) =>
      case RegisterFailedScaleUp(g, now) => BackingOffKeepsForm(s.backoff, g, now);
    }
  }

  function CountFor(ups: seq<ScaleUpRequest>, g: string): nat {
    if ups == [] then 0 else CountFor(ups[..|ups| - 1], g) + if ups[|ups| - 1].group == g then 1 else 0
  }

  /** The entry of one group. */
  function EntryOf(b: map<string, Backoff>, g: string): Option<Backoff> {
    if g in b then Some(b[g]) else None
  }

  function FailedFor(duration: int, now: Time): Option<Backoff> {
    Some(Backoff(duration, now + duration, now))
  }

  /** Repeated failures in one update: the first counts as usual, any further one restarts the backoff. */
  lemma {:induction false} EntryAfterTimeouts(b: map<string, Backoff>, timeouts: seq<ScaleUpRequest>, survivors: seq<ScaleUpRequest>, now: Time, g: string)
    requires WellFormedBackoffs(b)
    ensures EntryOf(AfterTimeouts(b, timeouts, survivors, now), g) ==
            if HasRequest(survivors, g) || CountFor(timeouts, g) == 0 then EntryOf(b, g)
            else if CountFor(timeouts, g) == 1 then FailedFor(NextDuration(b, g, now), now)
            else FailedFor(INITIAL_NODE_GROUP_BACKOFF_DURATION, now)
  {
    if timeouts != [] {
      EntryAfterTimeouts(b, timeouts[..|timeouts| - 1], survivors, now, g);
    }
  }

  lemma {:induction false} TimeoutsTimeOut(s: Registry, ups: seq<ScaleUpRequest>, now: Time, g: string)
    ensures CountFor(Timeouts(s, ups, now), g) > 0 <==>
            exists i :: 0 <= i < |ups| && ups[i].group == g && TimedOut(s, ups[i], now)
  {
    if ups != [] {
      var front, last := ups[..|ups| - 1], ups[|ups| - 1];
      TimeoutsTimeOut(s, front, now, g);
      var t := Timeouts(s, front, now);
      assert (t + [last])[..|t|] == t;
      assert TimedOut(s, last, now) || Timeouts(s, ups, now) == t;
      assert forall i :: 0 <= i < |front| ==> front[i] == ups[i];
    }
  }

  /** What an update does to the backoff of each group, in closed form. */
  lemma BackoffAfterUpdate(s: Registry, nodes: seq<Node>, groups: seq<NodeGroup>, now: Time, g: string)
    requires Readable(groups) && WellFormedBackoffs(s.backoff)
    ensures var p := Prepared(s, nodes, groups, now);
            var failures := CountFor(Timeouts(p, s.ups, now), g);
            EntryOf(Updated(s, nodes, groups, now).backoff, g) ==
            if failures > 0 && !HasRequest(Survivors(p, s.ups, now), g) then
              FailedFor(if failures == 1 && g in s.backoff && !Stale(s.backoff[g], now) && s.backoff[g].until < now
                        then Min(2 * s.backoff[g].duration, MAX_NODE_GROUP_BACKOFF_DURATION)
                        else INITIAL_NODE_GROUP_BACKOFF_DURATION, now)
            else if HasRequest(s.ups, g) && !Upcoming(p, g) then None
            else if g in s.backoff && !Stale(s.backoff[g], now) then Some(s.backoff[g])
            else None
  {
    var p := Prepared(s, nodes, groups, now);
    var kept := FreshBackoffs(s.backoff, FinishedGroups(p, s.ups), now);
    EntryAfterTimeouts(kept, Timeouts(p, s.ups, now), Survivors(p, s.ups, now), now, g);
    TimeoutsTimeOut(p, s.ups, now, g);
    FinishedIff(p, s.ups, g);
  }

  lemma {:induction false} FinishedIff(s: Registry, ups: seq<ScaleUpRequest>, g: string)
    ensures g in FinishedGroups(s, ups) <==> HasRequest(ups, g) && !Upcoming(s, g)
  {
    if ups != [] {
      var front := ups[..|ups| - 1];
      FinishedIff(s, front, g);
      assert forall i :: 0 <= i < |front| ==> front[i] == ups[i];
    }
  }

  lemma CountForOneMore(ups: seq<ScaleUpRequest>, r: ScaleUpRequest, g: string)
    ensures CountFor(ups + [r], g) == CountFor(ups, g) + if r.group == g then 1 else 0
  {
    assert (ups + [r])[..|ups|] == ups;
  }

  /** Of a group with nodes to come every request survives or times out, of any other group none does. */
  lemma {:induction false} RequestsAreSorted(s: Registry, ups: seq<ScaleUpRequest>, now: Time, g: string)
    ensures CountFor(Survivors(s, ups, now), g) + CountFor(Timeouts(s, ups, now), g) ==
            if Upcoming(s, g) then CountFor(ups, g) else 0
  {
    if ups != [] {
      var front, last := ups[..|ups| - 1], ups[|ups| - 1];
      RequestsAreSorted(s, front, now, g);
      if Survives(s, last, now) {
        CountForOneMore(Survivors(s, front, now), last, g);
      } else {
        assert Survivors(s, ups, now) == Survivors(s, front, now);
      }
      if TimedOut(s, last, now) {
        CountForOneMore(Timeouts(s, front, now), last, g);
      } else {
        assert Timeouts(s, ups, now) == Timeouts(s, front, now);
      }
    }
  }

  /**
   In one update a group either finishes, and then none of its requests times out or remains and its
   backoff is over, or each of its requests times out or remains.
   */
  lemma FinishedOrTimedOut(s: Registry, nodes: seq<Node>, groups: seq<NodeGroup>, now: Time, g: string)
    requires Readable(groups) && WellFormedBackoffs(s.backoff)
    ensures var p, s' := Prepared(s, nodes, groups, now), Updated(s, nodes, groups, now);
            var timeouts := CountFor(Timeouts(p, s.ups, now), g);
            if g in FinishedGroups(p, s.ups) then timeouts == 0 && CountFor(s'.ups, g) == 0 && g !in s'.backoff
            else timeouts + CountFor(s'.ups, g) == CountFor(s.ups, g)
  {
    var p := Prepared(s, nodes, groups, now);
    FinishedIff(p, s.ups, g);
    RequestsAreSorted(p, s.ups, now, g);
    NoneToCount(s.ups, g);
    BackoffAfterUpdate(s, nodes, groups, now, g);
  }

  lemma {:induction false} NoneToCount(ups: seq<ScaleUpRequest>, g: string)
    ensures CountFor(ups, g) > 0 <==> HasRequest(ups, g)
  {
    if ups != [] {
      var front := ups[..|ups| - 1];
      NoneToCount(front, g);
      assert forall i :: 0 <= i < |front| ==> front[i] == ups[i];
    }
  }

  /** A failed scale-up, then one node short for too long: one late request doubles the backoff, two restart it. */
  lemma SecondTimeoutRestartsBackoff()
    ensures BackoffAfterLate(LateRequests(1)) == FailedFor(10 * MINUTE, 6 * MINUTE)
    ensures BackoffAfterLate(LateRequests(2)) == FailedFor(5 * MINUTE, 6 * MINUTE)
  {
    LateRequestsPend(1);
    BackoffOfLate(LateRequests(1), 1);
    LateRequestsPend(2);
    BackoffOfLate(LateRequests(2), 2);
  }

  /** The backoff of "g", one node short, when a run is followed by an update after 6 minutes. */
  function BackoffAfterLate(ops: seq<Op>): Option<Backoff> {
    EntryOf(After(ops + [UpdateNodes([], [NodeGroup("g", Some(1), Some([]))], 6 * MINUTE)]).backoff, "g")
  }

  /** A run: a scale-up fails at 0, and n more are requested that should have succeeded within a minute. */
  function LateRequests(n: nat): seq<Op> {
    if n == 0 then [RegisterFailedScaleUp("g", 0)]
    else LateRequests(n - 1) + [RegisterScaleUp(ScaleUpRequest("g", 0, 1 * MINUTE, 1))]
  }

  ghost predicate Pending(s: Registry, n: nat) {
    && s.backoff == map["g" := Backoff(5 * MINUTE, 5 * MINUTE, 0)] && CountFor(s.ups, "g") == n
    && forall r :: r in s.ups ==> r.expectedAddTime == 1 * MINUTE
  }

  lemma PendingOneMore(ops: seq<Op>, n: nat)
    requires Pending(After(ops), n)
    ensures Pending(After(ops + [RegisterScaleUp(ScaleUpRequest("g", 0, 1 * MINUTE, 1))]), n + 1)
  {
    var late := ScaleUpRequest("g", 0, 1 * MINUTE, 1);
    AfterOneMore(ops, RegisterScaleUp(late));
    CountForOneMore(After(ops).ups, late, "g");
  }

  lemma FailedAtFirst(ops: seq<Op>)
    requires ops == [RegisterFailedScaleUp("g", 0)]
    ensures Pending(After(ops), 0)
  {
    AfterOneMore([], ops[0]);
    assert [] + [ops[0]] == ops;
  }

  lemma {:induction false} LateRequestsPend(n: nat)
    ensures Pending(After(LateRequests(n)), n)
  {
    if n == 0 {
      FailedAtFirst(LateRequests(0));
    } else {
      LateRequestsPend(n - 1);
      PendingOneMore(LateRequests(n - 1), n - 1);
    }
  }

  lemma AfterOneMore(ops: seq<Op>, op: Op)
    ensures After(ops + [op]) == Step(After(ops), op)
  {
    assert (ops + [op])[..|ops|] == ops;
  }

  lemma BackoffOfLate(ops: seq<Op>, n: nat)
    requires Pending(After(ops), n) && n > 0
    ensures BackoffAfterLate(ops) == FailedFor(if n == 1 then 10 * MINUTE else 5 * MINUTE, 6 * MINUTE)
  {
    AfterOneMore(ops, UpdateNodes([], [NodeGroup("g", Some(1), Some([]))], 6 * MINUTE));
    BackoffOfPending(After(ops), [NodeGroup("g", Some(1), Some([]))], n);
  }

  lemma BackoffOfPending(s: Registry, groups: seq<NodeGroup>, n: nat)
    requires Pending(s, n) && n > 0 && groups == [NodeGroup("g", Some(1), Some([]))]
    ensures EntryOf(Updated(s, [], groups, 6 * MINUTE).backoff, "g") ==
            FailedFor(if n == 1 then 10 * MINUTE else 5 * MINUTE, 6 * MINUTE)
  {
    LateRequestTimesOut(s, groups, 6 * MINUTE);
    BackoffAfterUpdate(s, [], groups, 6 * MINUTE, "g");
  }

  /** Of a group of target one without nodes, every late request times out. */
  lemma LateRequestTimesOut(s: Registry, groups: seq<NodeGroup>, now: Time)
    requires groups == [NodeGroup("g", Some(1), Some([]))]
    requires forall r :: r in s.ups ==> r.expectedAddTime <= now
    ensures var p := Prepared(s, [], groups, now);
            Survivors(p, s.ups, now) == [] && CountFor(Timeouts(p, s.ups, now), "g") == CountFor(s.ups, "g")
  {
    var p := Prepared(s, [], groups, now);
    assert groups[..0] == [];
    assert Targets(groups) == map["g" := 1];
    assert "g" in p.ranges && p.ranges["g"].currentTarget == 1;
    assert "g" !in PopulatedGroups([]);
    NoneSurvives(p, s.ups, now);
    RequestsAreSorted(p, s.ups, now, "g");
  }

  lemma {:induction false} NoneSurvives(s: Registry, ups: seq<ScaleUpRequest>, now: Time)
    requires forall r :: r in ups ==> r.expectedAddTime <= now
    ensures Survivors(s, ups, now) == []
  {
    if ups != [] {
      NoneSurvives(s, ups[..|ups| - 1], now);
    }
  }

  /** An unexpired backoff disappears in an update exactly when a scale-up of its group finished. */
  lemma UnexpiredEndsOnlyBySuccess(s: Registry, nodes: seq<Node>, groups: seq<NodeGroup>, now: Time, g: string)
    requires Readable(groups) && WellFormedBackoffs(s.backoff)
    requires g in s.backoff && now <= s.backoff[g].until
    ensures g !in Updated(s, nodes, groups, now).backoff <==>
            exists i :: 0 <= i < |s.ups| && s.ups[i].group == g && Finished(Prepared(s, nodes, groups, now), s.ups[i])
  {
    var p := Prepared(s, nodes, groups, now);
    BackoffAfterUpdate(s, nodes, groups, now, g);
    TimeoutsTimeOut(p, s.ups, now, g);
    if HasRequest(s.ups, g) && !Upcoming(p, g) {
      var i :| 0 <= i < |s.ups| && s.ups[i].group == g;
      assert Finished(p, s.ups[i]);
    }
  }

  /** A group that timed out without a surviving request is unsafe to scale up for at least 5 more minutes. */
  lemma TimedOutIsUnsafe(s: Registry, nodes: seq<Node>, groups: seq<NodeGroup>, now: Time, i: nat, config: Config, later: Time)
    requires Readable(groups) && WellFormedBackoffs(s.backoff)
    requires i < |s.ups| && TimedOut(Prepared(s, nodes, groups, now), s.ups[i], now)
    requires !HasRequest(Updated(s, nodes, groups, now).ups, s.ups[i].group)
    requires later <= now + 5 * MINUTE
    ensures !IsNodeGroupSafeToScaleUp(Updated(s, nodes, groups, now), config, s.ups[i].group, later)
  {
    var p := Prepared(s, nodes, groups, now);
    TimeoutsTimeOut(p, s.ups, now, s.ups[i].group);
    BackoffAfterUpdate(s, nodes, groups, now, s.ups[i].group);
  }

  // ----- First observed and unregistered since -----

  /** What a call sees of a group's size: only a successful update looks at it. */
  function SizeSeen(s: Registry, op: Op, g: string): seq<Observation<(int, int)>> {
    if op.UpdateNodes? && Readable(op.groups)
    then [Observation(Mismatch(Step(s, op), KnownGroups(op.groups), g), op.now)] else []
  }

  function SizeSightings(ops: seq<Op>, g: string): seq<Observation<(int, int)>> {
    if ops == [] then [] else SizeSightings(ops[..|ops| - 1], g) + SizeSeen(After(ops[..|ops| - 1]), ops[|ops| - 1], g)
  }

  lemma UpdateCarriesSizes(s: Registry, nodes: seq<Node>, groups: seq<NodeGroup>, now: Time, g: string)
    requires Readable(groups)
    ensures var s' := Updated(s, nodes, groups, now);
            IncorrectMark(s'.incorrect, g) ==
            Carry(IncorrectMark(s.incorrect, g), Observation(Mismatch(s', KnownGroups(groups), g), now))
  {
    var sorted := Sorted(s, nodes, groups, now);
    assert Mismatch(Updated(s, nodes, groups, now), KnownGroups(groups), g) == Mismatch(sorted, KnownGroups(groups), g);
  }

  lemma StepCarriesSizes(s: Registry, op: Op, seen: seq<Observation<(int, int)>>, g: string)
    requires IncorrectMark(s.incorrect, g) == Carried(seen)
    ensures IncorrectMark(Step(s, op).incorrect, g) == Carried(seen + SizeSeen(s, op, g))
  {
    if op.UpdateNodes? && Readable(op.groups) {
      UpdateCarriesSizes(s, op.nodes, op.groups, op.now, g);
      CarriedOneMore(seen, SizeSeen(s, op, g)[0]);
    } else {
      assert seen + [] == seen;
    }
  }

  lemma {:induction false} IncorrectIsCarried(ops: seq<Op>, g: string)
    ensures IncorrectMark(After(ops).incorrect, g) == Carried(SizeSightings(ops, g))
  {
    if ops != [] {
      var front := ops[..|ops| - 1];
      IncorrectIsCarried(front, g);
      StepCarriesSizes(After(front), ops[|ops| - 1], SizeSightings(front, g), g);
    }
  }

  /**
   A group is listed exactly while its size mismatches, as first observed at the update that started
   the current unbroken streak of the same mismatch.
   */
  lemma FirstObservedIsStreakStart(ops: seq<Op>, g: string)
    ensures g in After(ops).incorrect <==> exists start: nat :: StreakStart(SizeSightings(ops, g), start)
    ensures forall start: nat :: StreakStart(SizeSightings(ops, g), start) ==>
              && g in After(ops).incorrect
              && var (current, expected) := SizeSightings(ops, g)[start].key.value;
                 After(ops).incorrect[g] == IncorrectSize(expected, current, SizeSightings(ops, g)[start].time)
  {
    IncorrectIsCarried(ops, g);
    CarriedIsStreak(SizeSightings(ops, g));
  }

  /** What a call sees of a node's registration. */
  function RegistrationSeen(op: Op, name: string): seq<Observation<bool>> {
    if op.UpdateNodes? && Readable(op.groups)
    then [Observation(if name in UnregisteredNames(op.nodes, op.groups) then Some(true) else None, op.now)] else []
  }

  function RegistrationSightings(ops: seq<Op>, name: string): seq<Observation<bool>> {
    if ops == [] then [] else RegistrationSightings(ops[..|ops| - 1], name) + RegistrationSeen(ops[|ops| - 1], name)
  }

  function UnregisteredMark(unregistered: map<string, Time>, name: string): Option<Mark<bool>> {
    if name in unregistered then Some(Mark(true, unregistered[name])) else None
  }

  lemma StepCarriesRegistration(s: Registry, op: Op, seen: seq<Observation<bool>>, name: string)
    requires UnregisteredMark(s.unregistered, name) == Carried(seen)
    ensures UnregisteredMark(Step(s, op).unregistered, name) == Carried(seen + RegistrationSeen(op, name))
  {
    if op.UpdateNodes? && Readable(op.groups) {
      CarriedOneMore(seen, RegistrationSeen(op, name)[0]);
    } else {
      assert seen + [] == seen;
    }
  }

  lemma {:induction false} UnregisteredIsCarried(ops: seq<Op>, name: string)
    ensures UnregisteredMark(After(ops).unregistered, name) == Carried(RegistrationSightings(ops, name))
  {
    if ops != [] {
      var front := ops[..|ops| - 1];
      UnregisteredIsCarried(front, name);
      StepCarriesRegistration(After(front), ops[|ops| - 1], RegistrationSightings(front, name), name);
    }
  }

  /** A node is unregistered since the update that started its current unbroken streak. */
  lemma UnregisteredSinceStreakStart(ops: seq<Op>, name: string)
    ensures name in After(ops).unregistered <==> exists start: nat :: StreakStart(RegistrationSightings(ops, name), start)
    ensures forall start: nat :: StreakStart(RegistrationSightings(ops, name), start) ==>
              name in After(ops).unregistered && After(ops).unregistered[name] == RegistrationSightings(ops, name)[start].time
  {
    UnregisteredIsCarried(ops, name);
    CarriedIsStreak(RegistrationSightings(ops, name));
  }
}
