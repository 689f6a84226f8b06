/**
 Which pods have to leave a node that is drained, whether that is acceptable, and which pods would
 reappear on a new node. References to controllers are not checked, as no caller asks for it.
 */
module Drain {
  import opened Wrappers

  const POD_DELETION_TIMEOUT: int := 12 * 60

  type LabelSet = map<string, string>

  datatype Volume = Volume(hostPath: bool, emptyDir: bool)

  datatype Pod = Pod(
    namespace: string, name: string, selfLink: string,
    isMirror: bool, deletionTimestamp: Option<Time>, controllerKind: string,
    labels: LabelSet, volumes: seq<Volume>)

  /** A label selector of a disruption budget; it may fail to parse. */
  datatype Selector = Malformed | Matching(matches: LabelSet -> bool)

  datatype DisruptionBudget = DisruptionBudget(namespace: string, selector: Selector, disruptionsAllowed: int)

  datatype DrainError =
    | NotReplicated(pod: Pod)
    | MalformedBudget
    | UnbudgetedSystemPod(pod: Pod)
    | LocalStorage(pod: Pod)
    | NoDisruptionsLeft

  // ----- What each pod is -----

  /** The pod has been terminating for long enough not to count. */
  predicate IsGoneSoon(pod: Pod, now: Time) {
    pod.deletionTimestamp.Some? && pod.deletionTimestamp.value < now - POD_DELETION_TIMEOUT
  }

  predicate IsDaemon(pod: Pod) {
    pod.controllerKind == "DaemonSet"
  }

  predicate IsReplicated(pod: Pod) {
    || pod.controllerKind == "ReplicationController" || pod.controllerKind == "Job"
    || pod.controllerKind == "ReplicaSet" || pod.controllerKind == "StatefulSet"
  }

  predicate HasLocalStorage(pod: Pod) {
    exists i :: 0 <= i < |pod.volumes| && (pod.volumes[i].hostPath || pod.volumes[i].emptyDir)
  }

  /** The pod has to be moved when its node is drained. */
  predicate MustMove(pod: Pod, now: Time) {
    !pod.isMirror && !IsGoneSoon(pod, now) && !IsDaemon(pod)
  }

  function PodsToMove(pods: seq<Pod>, now: Time): (r: seq<Pod>)
    ensures forall p :: p in r <==> p in pods && MustMove(p, now)
  {
    if pods == [] then [] else
      var last := pods[|pods| - 1];
      assert pods == pods[..|pods| - 1] + [last];
      PodsToMove(pods[..|pods| - 1], now) + if MustMove(last, now) then [last] else []
  }

  // ----- Objections to moving a pod -----

  function SystemBudgets(budgets: seq<DisruptionBudget>): seq<DisruptionBudget> {
    if budgets == [] then [] else
      var last := budgets[|budgets| - 1];
      SystemBudgets(budgets[..|budgets| - 1]) + if last.namespace == "kube-system" then [last] else []
  }

  /** Whether some budget matches the pod; an earlier malformed one is an error. */
  function Budgeted(pod: Pod, budgets: seq<DisruptionBudget>): Option<bool> {
    if budgets == [] then Some(false)
    else if budgets[0].selector.Malformed? then None
    else if budgets[0].selector.matches(pod.labels) then Some(true)
    else Budgeted(pod, budgets[1..])
  }

  datatype Options = Options(skipNodesWithSystemPods: bool, skipNodesWithLocalStorage: bool)

  function Objection(pod: Pod, budgets: seq<DisruptionBudget>, options: Options): Option<DrainError> {
    if !IsReplicated(pod) then Some(NotReplicated(pod))
    else if pod.namespace == "kube-system" && options.skipNodesWithSystemPods && Budgeted(pod, SystemBudgets(budgets)).None? then
      Some(MalformedBudget)
    else if pod.namespace == "kube-system" && options.skipNodesWithSystemPods && Budgeted(pod, SystemBudgets(budgets)) == Some(false) then
      Some(UnbudgetedSystemPod(pod))
    else if HasLocalStorage(pod) && options.skipNodesWithLocalStorage then Some(LocalStorage(pod))
    else None
  }

  function FirstObjection(pods: seq<Pod>, budgets: seq<DisruptionBudget>, options: Options, now: Time): Option<DrainError> {
    if pods == [] then None else
      var before := FirstObjection(pods[..|pods| - 1], budgets, options, now);
      var last := pods[|pods| - 1];
      if before.Some? then before
      else if MustMove(last, now) then Objection(last, budgets, options) else None
  }

  method CheckKubeSystemPDBs(pod: Pod, budgets: seq<DisruptionBudget>) returns (r: Option<bool>)
    ensures r == Budgeted(pod, budgets)
  {
    for n := 0 to |budgets|
      invariant Budgeted(pod, budgets) == Budgeted(pod, budgets[n..])
    {
      if budgets[n].selector.Malformed? {
        return None;
      }
      if budgets[n].selector.matches(pod.labels) {
        return Some(true);
      }
      assert budgets[n..][1..] == budgets[n + 1..];
    }
    return Some(false);
  }

  method KubeSystemPDBs(budgets: seq<DisruptionBudget>) returns (r: seq<DisruptionBudget>)
    ensures r == SystemBudgets(budgets)
  {
    r := [];
    for n := 0 to |budgets|
      invariant r == SystemBudgets(budgets[..n])
    {
      assert budgets[..n + 1][..n] == budgets[..n];
      if budgets[n].namespace == "kube-system" {
        r := r + [budgets[n]];
      }
    }
    assert budgets[..|budgets|] == budgets;
  }

  /** The pods to delete, or the first objection; with deleteAll there are no objections. */
  method GetPodsForDeletionOnNodeDrain(pods: seq<Pod>, budgets: seq<DisruptionBudget>, deleteAll: bool, options: Options, now: Time)
    returns (r: Result<seq<Pod>, DrainError>)
    ensures r == ToDelete(pods, budgets, deleteAll, options, now)
  {
    var systemBudgets := KubeSystemPDBs(budgets);
    var selected := [];
    for n := 0 to |pods|
      invariant selected == PodsToMove(pods[..n], now)
      invariant !deleteAll ==> FirstObjection(pods[..n], budgets, options, now) == None
    {
      var pod := pods[n];
      assert pods[..n + 1][..n] == pods[..n];
      if pod.isMirror || IsGoneSoon(pod, now) || IsDaemon(pod) {
        continue;
      }
      if !deleteAll {
        var objection := CheckPod(pod, budgets, systemBudgets, options);
        if objection.Some? {
          ObjectionStays(pods, n + 1, budgets, options, now);
          return Err(objection.value);
        }
      }
      selected := selected + [pod];
    }
    assert pods[..|pods|] == pods;
    r := Ok(selected);
  }

  method CheckPod(pod: Pod, ghost budgets: seq<DisruptionBudget>, systemBudgets: seq<DisruptionBudget>, options: Options)
    returns (r: Option<DrainError>)
    requires systemBudgets == SystemBudgets(budgets)
    ensures r == Objection(pod, budgets, options)
  {
    if !IsReplicated(pod) {
      return Some(NotReplicated(pod));
    }
    if pod.namespace == "kube-system" && options.skipNodesWithSystemPods {
      var hasPDB := CheckKubeSystemPDBs(pod, systemBudgets);
      if hasPDB.None? {
        return Some(MalformedBudget);
      }
      if !hasPDB.value {
        return Some(UnbudgetedSystemPod(pod));
      }
    }
    if HasLocalStorage(pod) && options.skipNodesWithLocalStorage {
      return Some(LocalStorage(pod));
    }
    return None;
  }

  function ToDelete(pods: seq<Pod>, budgets: seq<DisruptionBudget>, deleteAll: bool, options: Options, now: Time): Result<seq<Pod>, DrainError> {
    var objection := if deleteAll then None else FirstObjection(pods, budgets, options, now);
    if objection.Some? then Err(objection.value) else Ok(PodsToMove(pods, now))
  }

  lemma {:induction false} ObjectionStays(pods: seq<Pod>, n: nat, budgets: seq<DisruptionBudget>, options: Options, now: Time)
    requires n <= |pods| && FirstObjection(pods[..n], budgets, options, now).Some?
    ensures FirstObjection(pods, budgets, options, now) == FirstObjection(pods[..n], budgets, options, now)
  {
    if n == |pods| {
      assert pods[..n] == pods;
    } else {
      var front := pods[..|pods| - 1];
      assert front[..n] == pods[..n];
      ObjectionStays(front, n, budgets, options, now);
    }
  }

  // ----- Disruption budgets -----

  /** Every budget parses, and those that match a pod to move allow a disruption. */
  ghost predicate BudgetsAllow(pods: seq<Pod>, budgets: seq<DisruptionBudget>) {
    forall b :: 0 <= b < |budgets| ==>
      && budgets[b].selector.Matching?
      && forall p :: 0 <= p < |pods| && pods[p].namespace == budgets[b].namespace && budgets[b].selector.matches(pods[p].labels) ==>
           budgets[b].disruptionsAllowed >= 1
  }

  predicate Disrupts(pod: Pod, b: DisruptionBudget)
    requires b.selector.Matching?
  {
    pod.namespace == b.namespace && b.selector.matches(pod.labels) && b.disruptionsAllowed < 1
  }

  /** The first budget, in order, that is malformed or exhausted. */
  function CheckPdbs(pods: seq<Pod>, budgets: seq<DisruptionBudget>): Option<DrainError> {
    if budgets == [] then None
    else if budgets[0].selector.Malformed? then Some(MalformedBudget)
    else if exists p :: 0 <= p < |pods| && Disrupts(pods[p], budgets[0]) then Some(NoDisruptionsLeft)
    else CheckPdbs(pods, budgets[1..])
  }

  lemma {:induction false} CheckPdbsIff(pods: seq<Pod>, budgets: seq<DisruptionBudget>)
    ensures CheckPdbs(pods, budgets).None? <==> BudgetsAllow(pods, budgets)
  {
    if budgets != [] {
      CheckPdbsIff(pods, budgets[1..]);
      assert budgets == [budgets[0]] + budgets[1..];
      if p :| 0 <= p < |pods| && budgets[0].selector.Matching? && Disrupts(pods[p], budgets[0]) {
        assert !BudgetsAllow(pods, budgets);
      }
    }
  }

  /** The selected pods, provided the disruption budgets allow moving them. */
  function Budget(selected: Result<seq<Pod>, DrainError>, budgets: seq<DisruptionBudget>): Result<seq<Pod>, DrainError> {
    if selected.Err? then selected
    else if CheckPdbs(selected.value, budgets).Some? then Err(CheckPdbs(selected.value, budgets).value)
    else selected
  }

  /** The fast check: every pod to move must be acceptable. */
  function FastGetPodsToMove(pods: seq<Pod>, options: Options, budgets: seq<DisruptionBudget>, now: Time): Result<seq<Pod>, DrainError> {
    Budget(ToDelete(pods, budgets, false, options, now), budgets)
  }

  /** The detailed check, which forces all removals. */
  function DetailedGetPodsForMove(pods: seq<Pod>, options: Options, budgets: seq<DisruptionBudget>, now: Time): Result<seq<Pod>, DrainError> {
    Budget(ToDelete(pods, budgets, true, options, now), budgets)
  }

  /** No pod that has to be moved is objected to. */
  predicate Unobjectionable(pods: seq<Pod>, budgets: seq<DisruptionBudget>, options: Options, now: Time) {
    forall i :: 0 <= i < |pods| && MustMove(pods[i], now) ==> Objection(pods[i], budgets, options).None?
  }

  lemma {:induction false} NoObjectionIff(pods: seq<Pod>, budgets: seq<DisruptionBudget>, options: Options, now: Time)
    ensures FirstObjection(pods, budgets, options, now).None? <==> Unobjectionable(pods, budgets, options, now)
  {
    if pods != [] {
      NoObjectionIff(pods[..|pods| - 1], budgets, options, now);
    }
  }

  /**
   At the same time and with the same budgets, the fast check succeeds exactly if the detailed one does
   and no pod to move is objected to; then both return the same pods in the same order.
   */
  lemma FastAgreesWithDetailed(pods: seq<Pod>, options: Options, budgets: seq<DisruptionBudget>, now: Time)
    ensures var fast := FastGetPodsToMove(pods, options, budgets, now);
            var detailed := DetailedGetPodsForMove(pods, options, budgets, now);
            && (fast.Ok? ==> detailed == fast)
            && (fast.Ok? <==> detailed.Ok? && Unobjectionable(pods, budgets, options, now))
            && (detailed.Ok? <==> BudgetsAllow(PodsToMove(pods, now), budgets))
  {
    NoObjectionIff(pods, budgets, options, now);
    CheckPdbsIff(PodsToMove(pods, now), budgets);
  }

  /** A pod without controller: the fast check refuses to move it, the detailed one returns it. */
  lemma UnreplicatedPodIsMoved(now: Time)
    ensures var pod := Pod("default", "bare", "/bare", false, None, "", map[], []);
            && FastGetPodsToMove([pod], Options(true, true), [], now) == Err(NotReplicated(pod))
            && DetailedGetPodsForMove([pod], Options(true, true), [], now) == Ok([pod])
  {
    var pod := Pod("default", "bare", "/bare", false, None, "", map[], []);
    assert [pod][..0] == [] && [pod][|[pod]| - 1] == pod;
    assert MustMove(pod, now) && Objection(pod, [], Options(true, true)) == Some(NotReplicated(pod));
    assert FirstObjection([pod], [], Options(true, true), now) == Some(NotReplicated(pod));
    assert PodsToMove([pod], now) == [pod];
  }

  // ----- Pods of a new node -----

  /** The pods a fresh node would run: mirror and daemon pods that are not being deleted. */
  function RequiredPods(pods: seq<Pod>): (r: seq<Pod>)
    ensures forall p :: p in r <==> p in pods && p.deletionTimestamp.None? && (p.isMirror || IsDaemon(p))
  {
    if pods == [] then [] else
      var last := pods[|pods| - 1];
      assert pods == pods[..|pods| - 1] + [last];
      RequiredPods(pods[..|pods| - 1]) + if last.deletionTimestamp.None? && (last.isMirror || IsDaemon(last)) then [last] else []
  }

  function Unlinked(pods: seq<Pod>, links: set<string>): (r: seq<Pod>)
    ensures forall p :: p in r <==> p in pods && p.deletionTimestamp.None? && p.selfLink !in links
  {
    if pods == [] then [] else
      var last := pods[|pods| - 1];
      assert pods == pods[..|pods| - 1] + [last];
      Unlinked(pods[..|pods| - 1], links) + if last.deletionTimestamp.None? && last.selfLink !in links then [last] else []
  }

  function LinksOf(pods: seq<Pod>): (r: set<string>)
    ensures forall l :: l in r <==> exists i :: 0 <= i < |pods| && pods[i].selfLink == l
  {
    set i | 0 <= i < |pods| :: pods[i].selfLink
  }

  /** Removes the pods a drain would move, by self link, from the pods that are not being deleted. */
  method GetRequiredPodsForNode(pods: seq<Pod>, now: Time) returns (required: seq<Pod>)
    ensures required == Unlinked(pods, LinksOf(PodsToMove(pods, now)))
    ensures required == RequiredPods(pods) <==> LinksApart(pods, now)
  {
    var r := GetPodsForDeletionOnNodeDrain(pods, [], true, Options(false, false), now);
    var toRemove := r.value;
    var links := {};
    for n := 0 to |toRemove|
      invariant links == LinksOf(toRemove[..n])
    {
      assert toRemove[..n + 1] == toRemove[..n] + [toRemove[n]];
      LinksOfAppend(toRemove[..n], toRemove[n]);
      links := links + {toRemove[n].selfLink};
    }
    assert toRemove[..|toRemove|] == toRemove;
    required := [];
    for n := 0 to |pods|
      invariant required == Unlinked(pods[..n], links)
    {
      assert pods[..n + 1][..n] == pods[..n];
      if pods[n].deletionTimestamp.Some? {
        continue;
      }
      if pods[n].selfLink !in links {
        required := required + [pods[n]];
      }
    }
    assert pods[..|pods|] == pods;
    RequiredIffApart(pods, now);
  }

  lemma LinksOfAppend(pods: seq<Pod>, pod: Pod)
    ensures LinksOf(pods + [pod]) == LinksOf(pods) + {pod.selfLink}
  {
    var all := pods + [pod];
    forall l | l in LinksOf(pods) + {pod.selfLink} ensures l in LinksOf(all) {
      if l in LinksOf(pods) {
        var i :| 0 <= i < |pods| && pods[i].selfLink == l;
        assert all[i].selfLink == l;
      } else {
        assert all[|pods|].selfLink == l;
      }
    }
  }

  /** No pod that a new node would run shares its self link with a pod to move. */
  predicate LinksApart(pods: seq<Pod>, now: Time) {
    forall p :: p in RequiredPods(pods) ==> p.selfLink !in LinksOf(PodsToMove(pods, now))
  }

  lemma {:induction false} SameFilter(pods: seq<Pod>, links: set<string>)
    requires forall p :: p in pods && p.deletionTimestamp.None? ==> (p.selfLink !in links <==> p.isMirror || IsDaemon(p))
    ensures Unlinked(pods, links) == RequiredPods(pods)
  {
    if pods != [] {
      var last := pods[|pods| - 1];
      assert pods == pods[..|pods| - 1] + [last];
      SameFilter(pods[..|pods| - 1], links);
    }
  }

  /** The self-link filter returns the required pods exactly if no required pod shares a link with a moved one. */
  lemma RequiredIffApart(pods: seq<Pod>, now: Time)
    ensures Unlinked(pods, LinksOf(PodsToMove(pods, now))) == RequiredPods(pods) <==> LinksApart(pods, now)
  {
    var moved := PodsToMove(pods, now);
    var links := LinksOf(moved);
    if LinksApart(pods, now) {
      forall p | p in pods && p.deletionTimestamp.None? ensures p.selfLink !in links <==> p.isMirror || IsDaemon(p) {
        if p.isMirror || IsDaemon(p) {
          assert p in RequiredPods(pods);
        } else {
          assert p in moved;
          var i :| 0 <= i < |moved| && moved[i] == p;
          assert moved[i].selfLink == p.selfLink;
        }
      }
      SameFilter(pods, links);
    } else {
      var p :| p in RequiredPods(pods) && p.selfLink in links;
      assert p !in Unlinked(pods, links);
    }
  }

  /** A daemon pod that shares its self link with another pod is required and not returned. */
  lemma SharedLinkLosesPod(now: Time)
    ensures var daemon := Pod("default", "a", "/same", false, None, "DaemonSet", map[], []);
            var other := Pod("default", "b", "/same", false, None, "ReplicaSet", map[], []);
            && RequiredPods([daemon, other]) == [daemon]
            && Unlinked([daemon, other], LinksOf(PodsToMove([daemon, other], now))) == []
  {
    var daemon := Pod("default", "a", "/same", false, None, "DaemonSet", map[], []);
    var other := Pod("default", "b", "/same", false, None, "ReplicaSet", map[], []);
    var pods := [daemon, other];
    assert pods[..1] == [daemon] && [daemon][..0] == [];
    assert RequiredPods([]) == [] && RequiredPods([daemon]) == [daemon];
    var moved := PodsToMove(pods, now);
    assert other in moved;
    var i :| 0 <= i < |moved| && moved[i] == other;
    assert "/same" in LinksOf(moved);
    assert Unlinked([], LinksOf(moved)) == [] && Unlinked([daemon], LinksOf(moved)) == [];
  }

  /** Distinct self links keep them apart. */
  lemma DistinctLinksAreApart(pods: seq<Pod>, now: Time)
    requires forall i, j :: 0 <= i < j < |pods| ==> pods[i].selfLink != pods[j].selfLink
    ensures LinksApart(pods, now)
  {
    var moved := PodsToMove(pods, now);
    forall p | p in RequiredPods(pods) ensures p.selfLink !in LinksOf(moved) {
      forall k | 0 <= k < |moved| ensures moved[k].selfLink != p.selfLink {
        assert moved[k] in moved;
      }
    }
  }
}
