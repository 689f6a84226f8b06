/**
 The cluster state registry as a value: its data, what one update makes of it, and runs of it.
 Times are in seconds and are passed in.
 */
module ClusterState {
  import opened Wrappers
  import opened Streak

  const MINUTE: int := 60
  const MAX_NODE_STARTUP_TIME: int := 5 * MINUTE
  const MAX_STATUS_SETTING_DELAY_AFTER_CREATION: int := 2 * MINUTE
  const MAX_NODE_GROUP_BACKOFF_DURATION: int := 30 * MINUTE
  const INITIAL_NODE_GROUP_BACKOFF_DURATION: int := 5 * MINUTE
  const NODE_GROUP_BACKOFF_RESET_TIMEOUT: int := 180 * MINUTE

  // ----- What the registry is told -----

  datatype ScaleUpRequest = ScaleUpRequest(group: string, time: Time, expectedAddTime: Time, increase: int)

  datatype ScaleDownRequest = ScaleDownRequest(node: string, group: string, time: Time, expectedDeleteTime: Time)

  datatype ConditionKind = NodeReady | NodeOutOfDisk | NodeNetworkUnavailable | NodeDiskPressure | OtherCondition

  datatype ConditionStatus = True | False | Unknown

  datatype NodeCondition = NodeCondition(kind: ConditionKind, status: ConditionStatus, lastTransitionTime: Time)

  /** A Kubernetes node with the group the cloud provider finds for it, if any. */
  datatype Node = Node(providerId: string, group: Option<string>, toBeDeleted: bool, created: Time, conditions: seq<NodeCondition>)

  /** A node group as the cloud provider reports it; either reading may fail. */
  datatype NodeGroup = NodeGroup(id: string, targetSize: Option<int>, nodes: Option<seq<string>>)

  // ----- Readiness of nodes -----

  datatype Class = Ready | Unready | Deleted | LongNotStarted | NotStarted

  predicate StartsBadly(node: Node, c: NodeCondition) {
    && (|| (c.kind == NodeReady && c.status == False)
        || (c.kind == NodeOutOfDisk && c.status == True)
        || (c.kind == NodeNetworkUnavailable && c.status == True))
    && c.lastTransitionTime - node.created < MAX_STATUS_SETTING_DELAY_AFTER_CREATION
  }

  predicate IsNotStarted(node: Node) {
    exists i :: 0 <= i < |node.conditions| && StartsBadly(node, node.conditions[i])
  }

  predicate Spoils(c: NodeCondition) {
    if c.kind == NodeReady then c.status != True
    else c.kind != OtherCondition && c.status == True
  }

  predicate IsReady(node: Node) {
    && (exists i :: 0 <= i < |node.conditions| && node.conditions[i].kind == NodeReady)
    && (forall i :: 0 <= i < |node.conditions| ==> !Spoils(node.conditions[i]))
  }

  function ClassOf(node: Node, now: Time): Class {
    if node.toBeDeleted then Deleted
    else if IsNotStarted(node) && node.created + MAX_NODE_STARTUP_TIME < now then LongNotStarted
    else if IsNotStarted(node) then NotStarted
    else if IsReady(node) then Ready
    else Unready
  }

  datatype Readiness = Readiness(ready: int, unready: int, deleted: int, longNotStarted: int, notStarted: int, registered: int)

  const NOBODY := Readiness(0, 0, 0, 0, 0, 0)

  function Counted(r: Readiness, c: Class): Readiness {
    var r' := r.(registered := r.registered + 1);
    match c
    case Deleted => r'.(deleted := r.deleted + 1)
    case LongNotStarted => r'.(longNotStarted := r.longNotStarted + 1)
    case NotStarted => r'.(notStarted := r.notStarted + 1)
    case Ready => r'.(ready := r.ready + 1)
    case Unready => r'.(unready := r.unready + 1)
  }

  /** Which nodes a count is about. */
  datatype Scope = Everywhere | Unmanaged | In(group: string)

  predicate Covers(scope: Scope, node: Node) {
    match scope
    case Everywhere => true
    case Unmanaged => node.group.None?
    case In(g) => node.group == Some(g)
  }

  function Tally(nodes: seq<Node>, now: Time, scope: Scope): Readiness {
    if nodes == [] then NOBODY else
      var r, last := Tally(nodes[..|nodes| - 1], now, scope), nodes[|nodes| - 1];
      if Covers(scope, last) then Counted(r, ClassOf(last, now)) else r
  }

  /** The groups that have nodes. */
  function PopulatedGroups(nodes: seq<Node>): set<string> {
    set n | n in nodes && n.group.Some? :: n.group.value
  }

  // ----- Acceptable sizes -----

  datatype AcceptableRange = AcceptableRange(minNodes: int, maxNodes: int, currentTarget: int)

  function PendingIncrease(requests: seq<ScaleUpRequest>, g: string): int {
    if requests == [] then 0 else
      var last := requests[|requests| - 1];
      PendingIncrease(requests[..|requests| - 1], g) + if last.group == g then last.increase else 0
  }

  function PendingDeletions(requests: seq<ScaleDownRequest>, g: string): nat {
    if requests == [] then 0 else
      var last := requests[|requests| - 1];
      PendingDeletions(requests[..|requests| - 1], g) + if last.group == g then 1 else 0
  }

  function KnownGroups(groups: seq<NodeGroup>): set<string> {
    set g | g in groups :: g.id
  }

  /** The target sizes; of two groups with one id the later counts. */
  function Targets(groups: seq<NodeGroup>): map<string, int>
    requires forall g :: g in groups ==> g.targetSize.Some?
  {
    if groups == [] then map[] else
      var last := groups[|groups| - 1];
      Targets(groups[..|groups| - 1])[last.id := last.targetSize.value]
  }

  function TargetOf(targets: map<string, int>, g: string): int {
    if g in targets then targets[g] else 0
  }

  function UpGroups(ups: seq<ScaleUpRequest>): set<string> {
    if ups == [] then {} else UpGroups(ups[..|ups| - 1]) + {ups[|ups| - 1].group}
  }

  function DownGroups(downs: seq<ScaleDownRequest>): set<string> {
    if downs == [] then {} else DownGroups(downs[..|downs| - 1]) + {downs[|downs| - 1].group}
  }

  /** The target less the pending increases, and plus the pending deletions. */
  function RangeOf(targets: map<string, int>, ups: seq<ScaleUpRequest>, downs: seq<ScaleDownRequest>, g: string): AcceptableRange {
    var t := TargetOf(targets, g);
    AcceptableRange(t - PendingIncrease(ups, g), t + PendingDeletions(downs, g), t)
  }

  function Ranges(targets: map<string, int>, ups: seq<ScaleUpRequest>, downs: seq<ScaleDownRequest>): map<string, AcceptableRange> {
    map g | g in targets.Keys + UpGroups(ups) + DownGroups(downs) :: RangeOf(targets, ups, downs, g)
  }

  // ----- The registry -----

  datatype Backoff = Backoff(duration: int, until: Time, lastFailed: Time)

  datatype IncorrectSize = IncorrectSize(expected: int, current: int, firstObserved: Time)

  datatype Registry = Registry(
    ups: seq<ScaleUpRequest>,
    downs: seq<ScaleDownRequest>,
    readiness: map<string, Readiness>,
    total: Readiness,
    ranges: map<string, AcceptableRange>,
    incorrect: map<string, IncorrectSize>,
    unregistered: map<string, Time>,
    backoff: map<string, Backoff>)

  const NEW_REGISTRY := Registry([], [], map[], NOBODY, map[], map[], map[], map[])

  function Provisioned(s: Registry, g: string): int {
    if g in s.readiness then
      s.readiness[g].registered - s.readiness[g].notStarted - s.readiness[g].longNotStarted
    else 0
  }

  /** Whether nodes are still to come in the group. */
  predicate Upcoming(s: Registry, g: string) {
    g in s.ranges && s.ranges[g].currentTarget > Provisioned(s, g)
  }

  predicate IsNodeGroupScalingUp(s: Registry, g: string) {
    Upcoming(s, g) && exists i :: 0 <= i < |s.ups| && s.ups[i].group == g
  }

  /** Thresholds below which unready nodes are tolerated. */
  datatype Config = Config(maxTotalUnreadyPercentage: real, okTotalUnreadyCount: int)

  predicate IsNodeGroupHealthy(s: Registry, config: Config, g: string) {
    && g in s.ranges
    && var acceptable := s.ranges[g];
       if g !in s.readiness then acceptable.currentTarget == 0 || (acceptable.minNodes == 0 && acceptable.currentTarget > 0)
       else
         var r := s.readiness[g];
         var missing := if r.ready < acceptable.minNodes then acceptable.minNodes - r.ready else 0;
         !(missing > config.okTotalUnreadyCount &&
           missing as real > config.maxTotalUnreadyPercentage / 100.0 *
             (r.ready + r.unready + r.notStarted + r.longNotStarted) as real)
  }

  predicate IsNodeGroupSafeToScaleUp(s: Registry, config: Config, g: string, now: Time) {
    IsNodeGroupHealthy(s, config, g) && (g in s.backoff ==> s.backoff[g].until < now)
  }

  // ----- Scale requests and backoff -----

  predicate Finished(s: Registry, r: ScaleUpRequest) {
    !Upcoming(s, r.group)
  }

  predicate TimedOut(s: Registry, r: ScaleUpRequest, now: Time) {
    Upcoming(s, r.group) && r.expectedAddTime <= now
  }

  predicate Survives(s: Registry, r: ScaleUpRequest, now: Time) {
    Upcoming(s, r.group) && now < r.expectedAddTime
  }

  function Survivors(s: Registry, ups: seq<ScaleUpRequest>, now: Time): seq<ScaleUpRequest> {
    if ups == [] then [] else
      Survivors(s, ups[..|ups| - 1], now) + if Survives(s, ups[|ups| - 1], now) then [ups[|ups| - 1]] else []
  }

  function Timeouts(s: Registry, ups: seq<ScaleUpRequest>, now: Time): seq<ScaleUpRequest> {
    if ups == [] then [] else
      Timeouts(s, ups[..|ups| - 1], now) + if TimedOut(s, ups[|ups| - 1], now) then [ups[|ups| - 1]] else []
  }

  function FinishedGroups(s: Registry, ups: seq<ScaleUpRequest>): set<string> {
    if ups == [] then {} else
      FinishedGroups(s, ups[..|ups| - 1]) + if Finished(s, ups[|ups| - 1]) then {ups[|ups| - 1].group} else {}
  }

  function PendingDowns(downs: seq<ScaleDownRequest>, now: Time): seq<ScaleDownRequest> {
    if downs == [] then [] else
      PendingDowns(downs[..|downs| - 1], now) + if now < downs[|downs| - 1].expectedDeleteTime then [downs[|downs| - 1]] else []
  }

  predicate Stale(b: Backoff, now: Time) {
    b.lastFailed + NODE_GROUP_BACKOFF_RESET_TIMEOUT < now
  }

  /** How long to back off after a failure: doubled, up to the maximum, only when the previous backoff is over. */
  function NextDuration(b: map<string, Backoff>, g: string, now: Time): int {
    if g in b && b[g].until < now then Min(2 * b[g].duration, MAX_NODE_GROUP_BACKOFF_DURATION)
    else INITIAL_NODE_GROUP_BACKOFF_DURATION
  }

  function BackedOff(b: map<string, Backoff>, g: string, now: Time): map<string, Backoff> {
    var d := NextDuration(b, g, now);
    b[g := Backoff(d, now + d, now)]
  }

  /** Each timed-out request whose group has no survivor counts as one failure. */
  function AfterTimeouts(b: map<string, Backoff>, timeouts: seq<ScaleUpRequest>, survivors: seq<ScaleUpRequest>, now: Time): map<string, Backoff> {
    if timeouts == [] then b else
      var b', g := AfterTimeouts(b, timeouts[..|timeouts| - 1], survivors, now), timeouts[|timeouts| - 1].group;
      if HasRequest(survivors, g) then b' else BackedOff(b', g, now)
  }

  predicate HasRequest(ups: seq<ScaleUpRequest>, g: string) {
    exists i :: 0 <= i < |ups| && ups[i].group == g
  }

  function FreshBackoffs(b: map<string, Backoff>, finished: set<string>, now: Time): map<string, Backoff> {
    map g | g in b && !Stale(b[g], now) && g !in finished :: b[g]
  }

  /** Sorting the requests into finished, timed out and surviving ones. */
  function WithRequestsSorted(s: Registry, now: Time): Registry {
    var survivors := Survivors(s, s.ups, now);
    s.(ups := survivors,
       downs := PendingDowns(s.downs, now),
       backoff := AfterTimeouts(FreshBackoffs(s.backoff, FinishedGroups(s, s.ups), now), Timeouts(s, s.ups, now), survivors, now))
  }

  // ----- Incorrect sizes and unregistered nodes -----

  /** How a group's registered nodes miss its acceptable range: current and expected size. */
  function Mismatch(s: Registry, known: set<string>, g: string): Option<(int, int)> {
    if g in known && g in s.ranges && g in s.readiness &&
       (s.readiness[g].registered > s.ranges[g].maxNodes || s.readiness[g].registered < s.ranges[g].minNodes)
    then Some((s.readiness[g].registered, s.ranges[g].currentTarget)) else None
  }

  function IncorrectMark(incorrect: map<string, IncorrectSize>, g: string): Option<Mark<(int, int)>> {
    if g in incorrect then Some(Mark((incorrect[g].current, incorrect[g].expected), incorrect[g].firstObserved)) else None
  }

  function IncorrectSizes(s: Registry, known: set<string>, now: Time): map<string, IncorrectSize> {
    map g | g in known && Mismatch(s, known, g).Some? ::
      var m := Carry(IncorrectMark(s.incorrect, g), Observation(Mismatch(s, known, g), now)).value;
      IncorrectSize(m.key.1, m.key.0, m.since)
  }

  function UnregisteredNames(nodes: seq<Node>, groups: seq<NodeGroup>): set<string>
    requires forall g :: g in groups ==> g.nodes.Some?
  {
    (set g, n | g in groups && n in g.nodes.value :: n) - (set n | n in nodes :: n.providerId)
  }

  function UnregisteredSince(unregistered: map<string, Time>, names: set<string>, now: Time): map<string, Time> {
    map n | n in names :: if n in unregistered then unregistered[n] else now
  }

  // ----- One update -----

  predicate Readable(groups: seq<NodeGroup>) {
    forall g :: g in groups ==> g.targetSize.Some? && g.nodes.Some?
  }

  function WithReadiness(s: Registry, nodes: seq<Node>, now: Time): Registry {
    s.(readiness := map g | g in PopulatedGroups(nodes) :: Tally(nodes, now, In(g)),
       total := Tally(nodes, now, Everywhere))
  }

  function WithRanges(s: Registry, targets: map<string, int>): Registry {
    s.(ranges := Ranges(targets, s.ups, s.downs))
  }

  /** The registry when the requests are sorted: readiness and ranges are up to date. */
  function Prepared(s: Registry, nodes: seq<Node>, groups: seq<NodeGroup>, now: Time): Registry
    requires Readable(groups)
  {
    WithRanges(WithReadiness(s, nodes, now), Targets(groups))
  }

  function Sorted(s: Registry, nodes: seq<Node>, groups: seq<NodeGroup>, now: Time): Registry
    requires Readable(groups)
  {
    WithRanges(WithRequestsSorted(Prepared(s, nodes, groups, now), now), Targets(groups))
  }

  function Updated(s: Registry, nodes: seq<Node>, groups: seq<NodeGroup>, now: Time): Registry
    requires Readable(groups)
  {
    var s' := Sorted(s, nodes, groups, now);
    s'.(incorrect := IncorrectSizes(s', KnownGroups(groups), now),
        unregistered := UnregisteredSince(s.unregistered, UnregisteredNames(nodes, groups), now))
  }

  // ----- Runs -----

  datatype Op =
    | UpdateNodes(nodes: seq<Node>, groups: seq<NodeGroup>, now: Time)
    | RegisterScaleUp(up: ScaleUpRequest)
    | RegisterScaleDown(down: ScaleDownRequest)
    | RegisterFailedScaleUp(group: string, now: Time)

  function Step(s: Registry, op: Op): Registry {
    match op
    case UpdateNodes(nodes, groups, now) => if Readable(groups) then Updated(s, nodes, groups, now) else s
    case RegisterScaleUp(r) => s.(ups := s.ups + [r])
    case RegisterScaleDown(r) => s.(downs := s.downs + [r])
    case RegisterFailedScaleUp(g, now) => s.(backoff := BackedOff(s.backoff, g, now))
  }

  function After(ops: seq<Op>): Registry {
    if ops == [] then NEW_REGISTRY else Step(After(ops[..|ops| - 1]), ops[|ops| - 1])
  }
}
