/**
 Choosing labels for new nodes so that the pods that request most CPU can be scheduled: start from the
 selector with the most CPU and merge in every other selector that does not get in the way.
 */
module Labels {
  import opened Sorting
  import opened Wrappers

  type LabelSet = map<string, string>

  /** A pod with the CPU request of each container, in millicores; None when a container requests nothing. */
  datatype Pod = Pod(containerCpu: seq<Option<int>>, nodeSelector: LabelSet)

  const DEFAULT_MIN_CPU := 50

  const INFRASTRUCTURE_LABELS := ["kubernetes.io", "cloud.google.com"]

  function SumCpu(cpus: seq<Option<int>>): int {
    if cpus == [] then 0 else
      var last := cpus[|cpus| - 1];
      SumCpu(cpus[..|cpus| - 1]) + if last.Some? then last.value else 0
  }

  /** What a pod counts for; a pod that requests nothing counts for the default. */
  function PodCpu(pod: Pod): int {
    var cpu := SumCpu(pod.containerCpu);
    if cpu == 0 then DEFAULT_MIN_CPU else cpu
  }

  /** The CPU of all pods with this selector. */
  function CpuFor(pods: seq<Pod>, selector: LabelSet): int {
    if pods == [] then 0 else
      var last := pods[|pods| - 1];
      CpuFor(pods[..|pods| - 1], selector) + if last.nodeSelector == selector then PodCpu(last) else 0
  }

  function TotalCpu(pods: seq<Pod>): int {
    if pods == [] then 0 else TotalCpu(pods[..|pods| - 1]) + PodCpu(pods[|pods| - 1])
  }

  // ----- Grouping pods by selector -----

  datatype SelectorStats = SelectorStats(selector: LabelSet, totalCpu: int)

  function StatsCpu(stats: seq<SelectorStats>): int {
    if stats == [] then 0 else StatsCpu(stats[..|stats| - 1]) + stats[|stats| - 1].totalCpu
  }

  /** One entry per selector of the pods, with the CPU of the pods that have it. */
  ghost predicate Groups(pods: seq<Pod>, stats: seq<SelectorStats>) {
    && (forall i, j :: 0 <= i < j < |stats| ==> stats[i].selector != stats[j].selector)
    && (forall i :: 0 <= i < |stats| ==> stats[i].totalCpu == CpuFor(pods, stats[i].selector))
    && (forall i :: 0 <= i < |stats| ==> HasSelector(pods, stats[i].selector))
    && (forall p :: 0 <= p < |pods| ==> Listed(stats, pods[p].nodeSelector))
  }

  predicate Listed(stats: seq<SelectorStats>, selector: LabelSet) {
    exists i :: 0 <= i < |stats| && stats[i].selector == selector
  }

  predicate HasSelector(pods: seq<Pod>, selector: LabelSet) {
    exists p :: 0 <= p < |pods| && pods[p].nodeSelector == selector
  }

  lemma {:induction false} NoPodNoCpu(pods: seq<Pod>, selector: LabelSet)
    ensures !HasSelector(pods, selector) ==> CpuFor(pods, selector) == 0
  {
    if pods != [] && !HasSelector(pods, selector) {
      assert !HasSelector(pods[..|pods| - 1], selector);
      NoPodNoCpu(pods[..|pods| - 1], selector);
    }
  }

  lemma CpuForOneMore(pods: seq<Pod>, pod: Pod, selector: LabelSet)
    ensures CpuFor(pods + [pod], selector) == CpuFor(pods, selector) + if pod.nodeSelector == selector then PodCpu(pod) else 0
  {
    assert (pods + [pod])[..|pods|] == pods;
  }

  lemma {:induction false} StatsCpuUpdate(stats: seq<SelectorStats>, i: nat, s: SelectorStats)
    requires i < |stats|
    ensures StatsCpu(stats[i := s]) == StatsCpu(stats) - stats[i].totalCpu + s.totalCpu
  {
    if i < |stats| - 1 {
      StatsCpuUpdate(stats[..|stats| - 1], i, s);
      assert stats[i := s][..|stats| - 1] == stats[..|stats| - 1][i := s];
    } else {
      assert stats[i := s][..|stats| - 1] == stats[..|stats| - 1];
    }
  }

  /** A pod whose selector is already listed adds to its entry. */
  lemma GroupsWithKnown(pods: seq<Pod>, stats: seq<SelectorStats>, pod: Pod, i: nat)
    requires Groups(pods, stats) && i < |stats| && stats[i].selector == pod.nodeSelector
    ensures Groups(pods + [pod], stats[i := SelectorStats(pod.nodeSelector, stats[i].totalCpu + PodCpu(pod))])
  {
    var all, grown := pods + [pod], stats[i := SelectorStats(pod.nodeSelector, stats[i].totalCpu + PodCpu(pod))];
    assert forall j :: 0 <= j < |stats| ==> grown[j].selector == stats[j].selector;
    forall j | 0 <= j < |grown|
      ensures grown[j].totalCpu == CpuFor(all, grown[j].selector) && HasSelector(all, grown[j].selector)
    {
      CpuForOneMore(pods, pod, grown[j].selector);
      var p :| 0 <= p < |pods| && pods[p].nodeSelector == stats[j].selector;
      assert all[p] == pods[p];
    }
    forall p | 0 <= p < |all| ensures Listed(grown, all[p].nodeSelector) {
      if p == |pods| {
        assert grown[i].selector == all[p].nodeSelector;
      } else {
        var j :| 0 <= j < |stats| && stats[j].selector == pods[p].nodeSelector;
        assert grown[j].selector == all[p].nodeSelector;
      }
    }
  }

  /** A pod with a new selector gets an entry of its own. */
  lemma GroupsWithNew(pods: seq<Pod>, stats: seq<SelectorStats>, pod: Pod)
    requires Groups(pods, stats) && !Listed(stats, pod.nodeSelector)
    ensures Groups(pods + [pod], stats + [SelectorStats(pod.nodeSelector, PodCpu(pod))])
  {
    var all, grown := pods + [pod], stats + [SelectorStats(pod.nodeSelector, PodCpu(pod))];
    assert !HasSelector(pods, pod.nodeSelector);
    NoPodNoCpu(pods, pod.nodeSelector);
    forall j | 0 <= j < |grown|
      ensures grown[j].totalCpu == CpuFor(all, grown[j].selector) && HasSelector(all, grown[j].selector)
    {
      CpuForOneMore(pods, pod, grown[j].selector);
      if j < |stats| {
        var p :| 0 <= p < |pods| && pods[p].nodeSelector == stats[j].selector;
        assert all[p] == pods[p];
      } else {
        assert all[|pods|] == pod;
      }
    }
    forall p | 0 <= p < |all| ensures Listed(grown, all[p].nodeSelector) {
      if p == |pods| {
        assert grown[|stats|].selector == all[p].nodeSelector;
      } else {
        var j :| 0 <= j < |stats| && stats[j].selector == pods[p].nodeSelector;
        assert grown[j].selector == all[p].nodeSelector;
      }
    }
  }

  method CalculateNodeSelectorStats(pods: seq<Pod>) returns (stats: seq<SelectorStats>)
    ensures Groups(pods, stats)
    ensures StatsCpu(stats) == TotalCpu(pods)
  {
    stats := [];
    for n := 0 to |pods|
      invariant Groups(pods[..n], stats)
      invariant StatsCpu(stats) == TotalCpu(pods[..n])
    {
      var pod := pods[n];
      assert pods[..n + 1] == pods[..n] + [pod];
      assert pods[..n + 1][..n] == pods[..n];
      stats := AddPod(pods[..n], stats, pod);
    }
    assert pods[..|pods|] == pods;
  }

  method AddPod(ghost pods: seq<Pod>, stats: seq<SelectorStats>, pod: Pod) returns (r: seq<SelectorStats>)
    requires Groups(pods, stats)
    ensures Groups(pods + [pod], r)
    ensures StatsCpu(r) == StatsCpu(stats) + PodCpu(pod)
  {
    var cpu := RequestedCpu(pod);
    var i := FindSelector(stats, pod.nodeSelector);
    if i < |stats| {
      GroupsWithKnown(pods, stats, pod, i);
      StatsCpuUpdate(stats, i, SelectorStats(pod.nodeSelector, stats[i].totalCpu + cpu));
      r := stats[i := SelectorStats(pod.nodeSelector, stats[i].totalCpu + cpu)];
    } else {
      GroupsWithNew(pods, stats, pod);
      r := stats + [SelectorStats(pod.nodeSelector, cpu)];
      assert r[..|stats|] == stats;
    }
  }

  method FindSelector(stats: seq<SelectorStats>, selector: LabelSet) returns (i: nat)
    ensures i <= |stats|
    ensures if i < |stats| then stats[i].selector == selector else !Listed(stats, selector)
  {
    i := 0;
    while i < |stats| && stats[i].selector != selector
      invariant i <= |stats| && forall j :: 0 <= j < i ==> stats[j].selector != selector
    {
      i := i + 1;
    }
  }

  method RequestedCpu(pod: Pod) returns (cpu: int)
    ensures cpu == PodCpu(pod)
  {
    cpu := 0;
    for c := 0 to |pod.containerCpu|
      invariant cpu == SumCpu(pod.containerCpu[..c])
    {
      assert pod.containerCpu[..c + 1][..c] == pod.containerCpu[..c];
      if pod.containerCpu[c].Some? {
        cpu := cpu + pod.containerCpu[c].value;
      }
    }
    assert pod.containerCpu[..|pod.containerCpu|] == pod.containerCpu;
    if cpu == 0 {
      cpu := DEFAULT_MIN_CPU;
    }
  }

  // ----- Merging selectors -----

  predicate Contains(s: string, part: string) {
    part <= s || (s != "" && Contains(s[1..], part))
  }

  predicate IsInfrastructure(key: string) {
    exists i :: 0 <= i < |INFRASTRUCTURE_LABELS| && Contains(key, INFRASTRUCTURE_LABELS[i])
  }

  predicate Within(s: LabelSet, labels: LabelSet) {
    forall k :: k in s ==> k in labels && labels[k] == s[k]
  }

  predicate Contradicts(s: LabelSet, labels: LabelSet) {
    exists k :: k in s && k in labels && labels[k] != s[k]
  }

  /** The selector asks for an infrastructure label that is not there. */
  predicate LacksInfrastructure(s: LabelSet, labels: LabelSet) {
    exists k :: k in s && k !in labels && IsInfrastructure(k)
  }

  predicate Blocked(s: LabelSet, labels: LabelSet) {
    Contradicts(s, labels) || LacksInfrastructure(s, labels)
  }

  method IsBlocked(s: LabelSet, labels: LabelSet) returns (blocked: bool)
    ensures blocked <==> Blocked(s, labels)
  {
    var todo := s.Keys;
    while todo != {}
      invariant todo <= s.Keys
      invariant forall k :: k in s && k !in todo ==> if k in labels then labels[k] == s[k] else !IsInfrastructure(k)
      decreases todo
    {
      var k :| k in todo;
      if k in labels && labels[k] != s[k] {
        return true;
      }
      if k !in labels {
        for i := 0 to |INFRASTRUCTURE_LABELS|
          invariant forall j :: 0 <= j < i ==> !Contains(k, INFRASTRUCTURE_LABELS[j])
        {
          if Contains(k, INFRASTRUCTURE_LABELS[i]) {
            return true;
          }
        }
      }
      todo := todo - {k};
    }
    return false;
  }

  /** The labels grew without losing any and without gaining infrastructure labels. */
  ghost predicate Extends(labels: LabelSet, start: LabelSet) {
    Within(start, labels) && forall k :: k in labels && IsInfrastructure(k) ==> k in start
  }

  lemma BlockedStaysBlocked(s: LabelSet, before: LabelSet, labels: LabelSet)
    requires Blocked(s, before) && Extends(labels, before)
    ensures Blocked(s, labels)
  {
  }

  /** Every selector before n is either part of the labels or blocked by them. */
  ghost predicate Maximal(stats: seq<SelectorStats>, n: nat, labels: LabelSet) {
    forall i :: 0 <= i < n && i < |stats| ==> Within(stats[i].selector, labels) || Blocked(stats[i].selector, labels)
  }

  lemma MaximalExtends(stats: seq<SelectorStats>, n: nat, before: LabelSet, labels: LabelSet)
    requires Maximal(stats, n, before) && Extends(labels, before)
    ensures Maximal(stats, n, labels)
  {
    forall i | 0 <= i < n && i < |stats| ensures Within(stats[i].selector, labels) || Blocked(stats[i].selector, labels) {
      if Blocked(stats[i].selector, before) {
        BlockedStaysBlocked(stats[i].selector, before, labels);
      }
    }
  }

  ghost predicate FromSelectors(stats: seq<SelectorStats>, labels: LabelSet) {
    forall k :: k in labels ==> exists i :: 0 <= i < |stats| && k in stats[i].selector && stats[i].selector[k] == labels[k]
  }

  /** Merges the selectors into the first one, in order, skipping those that are blocked. */
  method MergeSelectors(stats: seq<SelectorStats>) returns (labels: LabelSet)
    requires stats != []
    ensures Extends(labels, stats[0].selector) && FromSelectors(stats, labels)
    ensures Maximal(stats, |stats|, labels)
  {
    labels := stats[0].selector;
    for n := 1 to |stats|
      invariant Extends(labels, stats[0].selector) && FromSelectors(stats, labels)
      invariant Maximal(stats, n, labels)
    {
      var blocked := IsBlocked(stats[n].selector, labels);
      if !blocked {
        var merged := labels + stats[n].selector;
        MaximalExtends(stats, n, labels, merged);
        labels := merged;
      }
    }
  }

  /** Some pod asks for this label. */
  predicate Requested(pods: seq<Pod>, key: string, value: string) {
    exists p :: 0 <= p < |pods| && key in pods[p].nodeSelector && pods[p].nodeSelector[key] == value
  }

  /** No selector of the pods has more CPU. */
  ghost predicate MostCpu(pods: seq<Pod>, selector: LabelSet) {
    && HasSelector(pods, selector)
    && forall p :: 0 <= p < |pods| ==> CpuFor(pods, pods[p].nodeSelector) <= CpuFor(pods, selector)
  }

  /**
   The chosen labels contain a selector with the most CPU and no other infrastructure labels, and they
   are maximal: a pod's selector is part of them exactly if it neither contradicts them nor asks for
   an infrastructure label they lack.
   */
  method BestLabelSet(pods: seq<Pod>) returns (labels: LabelSet, ghost best: LabelSet)
    requires pods != []
    ensures MostCpu(pods, best) && Extends(labels, best)
    ensures forall p :: 0 <= p < |pods| ==>
              (Within(pods[p].nodeSelector, labels) <==> !Blocked(pods[p].nodeSelector, labels))
    ensures forall k :: k in labels ==> Requested(pods, k, labels[k])
  {
    var stats := CalculateNodeSelectorStats(pods);
    var sorted := SortBy(stats, LeastCpuFirst);
    SortedGroups(pods, stats, sorted);
    labels := MergeSelectors(sorted);
    best := sorted[0].selector;
    FirstHasMostCpu(pods, sorted);
    forall p | 0 <= p < |pods|
      ensures Within(pods[p].nodeSelector, labels) <==> !Blocked(pods[p].nodeSelector, labels)
    {
      WithinOrBlocked(pods, sorted, labels, p);
    }
    forall k | k in labels ensures Requested(pods, k, labels[k]) {
      LabelIsRequested(pods, sorted, labels, k);
    }
  }

  /** Sorting by descending CPU is sorting by ascending negated CPU. */
  function LeastCpuFirst(s: SelectorStats): int { -s.totalCpu }

  ghost predicate Lists(pods: seq<Pod>, stats: seq<SelectorStats>) {
    && (forall i :: 0 <= i < |stats| ==> stats[i].totalCpu == CpuFor(pods, stats[i].selector))
    && (forall i :: 0 <= i < |stats| ==> HasSelector(pods, stats[i].selector))
    && (forall p :: 0 <= p < |pods| ==> Listed(stats, pods[p].nodeSelector))
  }

  lemma SortedGroups(pods: seq<Pod>, stats: seq<SelectorStats>, sorted: seq<SelectorStats>)
    requires pods != [] && Groups(pods, stats) && multiset(sorted) == multiset(stats)
    ensures Lists(pods, sorted) && sorted != []
  {
    forall i | 0 <= i < |sorted|
      ensures sorted[i].totalCpu == CpuFor(pods, sorted[i].selector) && HasSelector(pods, sorted[i].selector)
    {
      assert sorted[i] in multiset(stats);
    }
    forall p | 0 <= p < |pods| ensures Listed(sorted, pods[p].nodeSelector) {
      var i :| 0 <= i < |stats| && stats[i].selector == pods[p].nodeSelector;
      assert stats[i] in multiset(sorted);
      var j :| 0 <= j < |sorted| && sorted[j] == stats[i];
    }
    assert Listed(sorted, pods[0].nodeSelector);
  }

  lemma FirstHasMostCpu(pods: seq<Pod>, sorted: seq<SelectorStats>)
    requires Lists(pods, sorted) && sorted != [] && Ascending(sorted, LeastCpuFirst)
    ensures MostCpu(pods, sorted[0].selector)
  {
    forall p | 0 <= p < |pods| ensures CpuFor(pods, pods[p].nodeSelector) <= CpuFor(pods, sorted[0].selector) {
      var i :| 0 <= i < |sorted| && sorted[i].selector == pods[p].nodeSelector;
      assert i == 0 || LeastCpuFirst(sorted[0]) <= LeastCpuFirst(sorted[i]);
    }
  }

  lemma WithinOrBlocked(pods: seq<Pod>, sorted: seq<SelectorStats>, labels: LabelSet, p: nat)
    requires Lists(pods, sorted) && Maximal(sorted, |sorted|, labels) && p < |pods|
    ensures Within(pods[p].nodeSelector, labels) <==> !Blocked(pods[p].nodeSelector, labels)
  {
    var i :| 0 <= i < |sorted| && sorted[i].selector == pods[p].nodeSelector;
    assert Within(sorted[i].selector, labels) || Blocked(sorted[i].selector, labels);
  }

  lemma LabelIsRequested(pods: seq<Pod>, sorted: seq<SelectorStats>, labels: LabelSet, k: string)
    requires Lists(pods, sorted) && FromSelectors(sorted, labels) && k in labels
    ensures Requested(pods, k, labels[k])
  {
    var i :| 0 <= i < |sorted| && k in sorted[i].selector && sorted[i].selector[k] == labels[k];
    var p :| 0 <= p < |pods| && pods[p].nodeSelector == sorted[i].selector;
    assert k in pods[p].nodeSelector;
  }
}
