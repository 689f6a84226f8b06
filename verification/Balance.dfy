/**
 The balanced scale-up allocator: spread a number of new nodes over several node
 groups, always growing the smallest one that still has room.

 The first half models the allocator itself (an in-place loop over a sorted array);
 the second half proves that what it returns is optimal.
 */
module Balance {
  import opened Sorting
  import opened Wrappers

  /** A node group as the allocator sees it. A target size that cannot be read is None. */
  datatype NodeGroup = NodeGroup(id: string, targetSize: Option<int>, maxSize: int)

  datatype Error = InternalError | CloudProviderError

  datatype ScaleUpInfo = ScaleUpInfo(group: NodeGroup, currentSize: int, newSize: int, maxSize: int) {
    /** The largest size the group may end with. A group already above its maximum stays as it is. */
    function Cap(): int {
      Max(currentSize, maxSize)
    }

    /** The same group before any node was added. */
    function Base(): ScaleUpInfo {
      this.(newSize := currentSize)
    }
  }

  // ----- Sums and permutations -----

  function SumBy(s: seq<ScaleUpInfo>, f: ScaleUpInfo -> int): int {
    if s == [] then 0 else SumBy(s[..|s| - 1], f) + f(s[|s| - 1])
  }

  lemma {:induction false} SumByAppend(s: seq<ScaleUpInfo>, t: seq<ScaleUpInfo>, f: ScaleUpInfo -> int)
    ensures SumBy(s + t, f) == SumBy(s, f) + SumBy(t, f)
  {
    if t == [] {
      assert s + t == s;
    } else {
      assert (s + t)[..|s + t| - 1] == s + t[..|t| - 1];
      SumByAppend(s, t[..|t| - 1], f);
    }
  }

  lemma SumByLast(s: seq<ScaleUpInfo>, x: ScaleUpInfo, f: ScaleUpInfo -> int)
    ensures SumBy(s + [x], f) == SumBy(s, f) + f(x)
  {
    assert (s + [x])[..|s|] == s;
  }

  lemma SumByAround(s: seq<ScaleUpInfo>, i: nat, f: ScaleUpInfo -> int)
    requires i < |s|
    ensures SumBy(s, f) == SumBy(s[..i], f) + f(s[i]) + SumBy(s[i + 1..], f)
  {
    assert s == s[..i + 1] + s[i + 1..];
    SumByAppend(s[..i + 1], s[i + 1..], f);
    assert s[..i + 1][..i] == s[..i];
  }

  lemma SumByUpdate(s: seq<ScaleUpInfo>, i: nat, x: ScaleUpInfo, f: ScaleUpInfo -> int)
    requires i < |s|
    ensures SumBy(s[i := x], f) == SumBy(s, f) - f(s[i]) + f(x)
  {
    SumByAround(s, i, f);
    SumByAround(s[i := x], i, f);
    assert s[i := x][..i] == s[..i];
    assert s[i := x][i + 1..] == s[i + 1..];
  }

  /** Finds x in t and takes it out, given that t is a permutation of s and s ends in x. */
  lemma Extract(t: seq<ScaleUpInfo>, x: ScaleUpInfo, s: seq<ScaleUpInfo>) returns (i: nat, rest: seq<ScaleUpInfo>)
    requires multiset(s) == multiset(t) && s != [] && s[|s| - 1] == x
    ensures i < |t| && t[i] == x && rest == t[..i] + t[i + 1..]
    ensures multiset(s[..|s| - 1]) == multiset(rest)
  {
    assert x in multiset(t);
    i :| 0 <= i < |t| && t[i] == x;
    rest := t[..i] + t[i + 1..];
    ElementsAround(t, i);
    ElementsOfLast(s);
    assert multiset(rest) == multiset(t) - multiset{x};
    assert multiset(s[..|s| - 1]) == multiset(s) - multiset{x};
  }

  lemma ElementsAround(t: seq<ScaleUpInfo>, i: nat)
    requires i < |t|
    ensures multiset(t) == multiset(t[..i] + t[i + 1..]) + multiset{t[i]}
  {
    assert t == t[..i] + [t[i]] + t[i + 1..];
  }

  lemma ElementsOfLast(s: seq<ScaleUpInfo>)
    requires s != []
    ensures multiset(s) == multiset(s[..|s| - 1]) + multiset{s[|s| - 1]}
  {
    assert s == s[..|s| - 1] + [s[|s| - 1]];
  }

  /** A sum does not depend on the order of its terms. */
  lemma {:induction false} SumByPermutation(s: seq<ScaleUpInfo>, t: seq<ScaleUpInfo>, f: ScaleUpInfo -> int)
    requires multiset(s) == multiset(t)
    ensures SumBy(s, f) == SumBy(t, f)
    decreases |s|
  {
    if s == [] {
      assert |multiset(t)| == 0;
    } else {
      var i, rest := Extract(t, s[|s| - 1], s);
      SumByPermutation(s[..|s| - 1], rest, f);
      SumByAround(t, i, f);
      SumByAppend(t[..i], t[i + 1..], f);
    }
  }

  /** Sums compare when their terms do. */
  lemma {:induction false} SumByPointwise(s: seq<ScaleUpInfo>, t: seq<ScaleUpInfo>, f: ScaleUpInfo -> int, g: ScaleUpInfo -> int)
    requires |s| == |t| && forall i :: 0 <= i < |s| ==> f(s[i]) <= g(t[i])
    ensures SumBy(s, f) <= SumBy(t, g)
    ensures SumBy(s, f) == SumBy(t, g) <==> forall i :: 0 <= i < |s| ==> f(s[i]) == g(t[i])
  {
    if s != [] {
      var n := |s| - 1;
      SumByPointwise(s[..n], t[..n], f, g);
      assert f(s[n]) <= g(t[n]);
      assert forall i :: 0 <= i < n ==> s[..n][i] == s[i] && t[..n][i] == t[i];
    }
  }

  lemma {:induction false} SumByPositive(s: seq<ScaleUpInfo>, f: ScaleUpInfo -> int) returns (i: nat)
    requires SumBy(s, f) > 0
    ensures i < |s| && f(s[i]) > 0
  {
    if f(s[|s| - 1]) > 0 {
      i := |s| - 1;
    } else {
      i := SumByPositive(s[..|s| - 1], f);
    }
  }

  function CurrentSizeOf(info: ScaleUpInfo): int { info.currentSize }
  function NewSizeOf(info: ScaleUpInfo): int { info.newSize }
  function RoomOf(info: ScaleUpInfo): int { info.Cap() - info.newSize }
  function ListedRoomOf(info: ScaleUpInfo): int { info.maxSize - info.currentSize }

  function Bases(s: seq<ScaleUpInfo>): (r: seq<ScaleUpInfo>)
    ensures |r| == |s| && forall i :: 0 <= i < |s| ==> r[i] == s[i].Base()
  {
    seq(|s|, i requires 0 <= i < |s| => s[i].Base())
  }

  // ----- What the allocator is given -----

  predicate Readable(groups: seq<NodeGroup>) {
    forall g :: g in groups ==> g.targetSize.Some?
  }

  function InfoOf(g: NodeGroup): ScaleUpInfo
    requires g.targetSize.Some?
  {
    ScaleUpInfo(g, g.targetSize.value, g.targetSize.value, g.maxSize)
  }

  function AllInfos(groups: seq<NodeGroup>): (r: seq<ScaleUpInfo>)
    requires Readable(groups)
    ensures |r| == |groups| && forall i :: 0 <= i < |r| ==> r[i] == InfoOf(groups[i])
  {
    seq(|groups|, i requires 0 <= i < |groups| => InfoOf(groups[i]))
  }

  /** The groups worth looking at: all but those whose size equals their maximum. */
  function Candidates(s: seq<ScaleUpInfo>): seq<ScaleUpInfo> {
    if s == [] then [] else
      var last := s[|s| - 1];
      Candidates(s[..|s| - 1]) + if last.currentSize == last.maxSize then [] else [last]
  }

  /** The groups left aside. */
  function Maxed(s: seq<ScaleUpInfo>): seq<ScaleUpInfo> {
    if s == [] then [] else
      var last := s[|s| - 1];
      Maxed(s[..|s| - 1]) + if last.currentSize == last.maxSize then [last] else []
  }

  /** Every group is either a candidate or left aside. */
  lemma {:induction false} SplitSum(s: seq<ScaleUpInfo>, f: ScaleUpInfo -> int)
    ensures SumBy(s, f) == SumBy(Candidates(s), f) + SumBy(Maxed(s), f)
  {
    if s != [] {
      var front, last := s[..|s| - 1], s[|s| - 1];
      SplitSum(front, f);
      if last.currentSize == last.maxSize {
        assert Candidates(s) == Candidates(front);
        SumByLast(Maxed(front), last, f);
      } else {
        assert Maxed(s) == Maxed(front);
        SumByLast(Candidates(front), last, f);
      }
    }
  }

  lemma {:induction false} SplitKeepsElements(s: seq<ScaleUpInfo>)
    ensures multiset(s) == multiset(Candidates(s)) + multiset(Maxed(s))
  {
    if s != [] {
      SplitKeepsElements(s[..|s| - 1]);
      ElementsOfLast(s);
    }
  }

  lemma {:induction false} PartsOf(s: seq<ScaleUpInfo>)
    ensures |Candidates(s)| <= |s|
    ensures forall info :: info in Candidates(s) ==> info in s
    ensures forall info :: info in Maxed(s) ==> info in s && info.currentSize == info.maxSize
  {
    if s != [] {
      PartsOf(s[..|s| - 1]);
    }
  }

  /** The capacity the allocator computes: a group above its maximum counts negatively. */
  function ListedCapacity(groups: seq<NodeGroup>): int
    requires Readable(groups)
  {
    SumBy(Candidates(AllInfos(groups)), ListedRoomOf)
  }

  /** The nodes that can be added to the groups without passing any maximum. */
  function FreeCapacity(groups: seq<NodeGroup>): int
    requires Readable(groups)
  {
    SumBy(AllInfos(groups), RoomOf)
  }

  function Allotted(newNodes: int, capacity: int): int {
    Max(0, Min(newNodes, capacity))
  }

  /** No node has been added yet. */
  predicate Unplanned(s: seq<ScaleUpInfo>) {
    forall i :: 0 <= i < |s| ==> s[i].newSize == s[i].currentSize
  }

  // ----- What the allocator promises -----

  predicate WithinLimits(q: seq<ScaleUpInfo>) {
    forall i :: 0 <= i < |q| ==> q[i].currentSize <= q[i].newSize <= q[i].Cap()
  }

  /** Every group that grew is at most level + 1, and every group with room left is at least level. */
  predicate Level(q: seq<ScaleUpInfo>, level: int) {
    forall i :: 0 <= i < |q| ==>
      && (q[i].currentSize < q[i].newSize ==> q[i].newSize <= level + 1)
      && (q[i].newSize < q[i].Cap() ==> level <= q[i].newSize)
  }

  /** The plan resizes exactly the candidate groups, within their limits, adds `added` nodes and is level. */
  ghost predicate BalancedPlan(groups: seq<NodeGroup>, added: int, plan: seq<ScaleUpInfo>)
    requires Readable(groups)
  {
    && multiset(Bases(plan)) == multiset(Candidates(AllInfos(groups)))
    && WithinLimits(plan)
    && SumBy(plan, NewSizeOf) == SumBy(plan, CurrentSizeOf) + added
    && exists level :: Level(plan, level)
  }

  /** The groups of a plan that change size, in the plan's order. */
  function Resized(plan: seq<ScaleUpInfo>): (r: seq<ScaleUpInfo>)
    ensures forall info :: info in r <==> info in plan && info.newSize != info.currentSize
  {
    if plan == [] then [] else
      var last := plan[|plan| - 1];
      Resized(plan[..|plan| - 1]) + if last.newSize != last.currentSize then [last] else []
  }

  // ----- The allocation loop -----

  /** Between start and current every group is one above the current group; from current on sizes ascend. */
  ghost predicate Waterline(q: seq<ScaleUpInfo>, start: nat, current: nat) {
    |q| > 0 ==>
      && start <= current < |q|
      && (forall i :: 0 <= i < start ==> q[i].newSize == q[i].Cap() && q[i].newSize <= q[current].newSize)
      && (forall i :: start <= i < current ==> q[i].newSize == q[current].newSize + 1)
      && (forall i, j :: current <= i < j < |q| ==> q[i].newSize <= q[j].newSize)
      && (forall i :: current <= i < |q| && q[i].currentSize < q[i].newSize ==> q[i].newSize <= q[current].newSize)
  }

  /** Where the loop goes next, given the slot it just handled. */
  function NextIndex(q: seq<ScaleUpInfo>, start: nat, current: nat): nat
    requires current < |q|
  {
    if current < |q| - 1 && q[current].newSize > q[current + 1].newSize then current + 1 else start
  }

  lemma AddKeepsWaterline(q: seq<ScaleUpInfo>, start: nat, current: nat)
    requires |q| > 0 && Waterline(q, start, current)
    ensures var grown := q[current := q[current].(newSize := q[current].newSize + 1)];
            Waterline(grown, start, NextIndex(grown, start, current))
  {
  }

  lemma RemoveKeepsWaterline(q: seq<ScaleUpInfo>, start: nat, current: nat)
    requires |q| > 0 && Waterline(q, start, current)
    requires q[current].newSize == q[current].Cap()
    requires start < |q| - 1
    ensures var swapped := q[start := q[current]][current := q[start]];
            Waterline(swapped, start + 1, NextIndex(swapped, start + 1, current))
  {
  }

  /** The array with one more node in the group at the current index. */
  function Grown(q: seq<ScaleUpInfo>, current: nat): seq<ScaleUpInfo>
    requires current < |q|
  {
    q[current := q[current].(newSize := q[current].newSize + 1)]
  }

  function Swapped(q: seq<ScaleUpInfo>, i: nat, j: nat): seq<ScaleUpInfo>
    requires i < |q| && j < |q|
  {
    q[i := q[j]][j := q[i]]
  }

  /** The state of the greedy loop with `remaining` nodes still to place. */
  ghost predicate Placing(q: seq<ScaleUpInfo>, bases: multiset<ScaleUpInfo>, total: int,
                          start: nat, current: nat, remaining: int) {
    && Waterline(q, start, current)
    && WithinLimits(q)
    && multiset(Bases(q)) == bases
    && remaining <= SumBy(q, RoomOf)
    && SumBy(q, NewSizeOf) + remaining == total
  }

  /** While nodes remain, some group at or after start has room. */
  lemma RoomIsAhead(q: seq<ScaleUpInfo>, start: nat, current: nat) returns (open: nat)
    requires WithinLimits(q) && Waterline(q, start, current) && 0 < SumBy(q, RoomOf)
    ensures start <= open < |q| && q[open].newSize < q[open].Cap()
  {
    open := SumByPositive(q, RoomOf);
  }

  lemma AddStep(q: seq<ScaleUpInfo>, bases: multiset<ScaleUpInfo>, total: int, start: nat, current: nat, remaining: int)
    requires current < |q| && q[current].newSize < q[current].maxSize
    requires Placing(q, bases, total, start, current, remaining)
    ensures var grown := Grown(q, current);
            Placing(grown, bases, total, start, NextIndex(grown, start, current), remaining - 1)
  {
    var grown := Grown(q, current);
    AddKeepsWaterline(q, start, current);
    SumByUpdate(q, current, grown[current], RoomOf);
    SumByUpdate(q, current, grown[current], NewSizeOf);
    assert Bases(grown) == Bases(q);
  }

  lemma RemoveStep(q: seq<ScaleUpInfo>, bases: multiset<ScaleUpInfo>, total: int, start: nat, current: nat, remaining: int)
    requires start <= current < |q| && q[current].maxSize <= q[current].newSize
    requires Placing(q, bases, total, start, current, remaining) && 0 < remaining
    ensures var swapped := Swapped(q, start, current);
            && start + 1 < |q|
            && Placing(swapped, bases, total, start + 1, NextIndex(swapped, start + 1, current), remaining)
  {
    var swapped := Swapped(q, start, current);
    var open := RoomIsAhead(q, start, current);
    RemoveKeepsWaterline(q, start, current);
    SwapKeepsSum(q, start, current, RoomOf);
    SwapKeepsSum(q, start, current, NewSizeOf);
    assert Bases(swapped) == Swapped(Bases(q), start, current);
  }

  lemma SwapKeepsSum(q: seq<ScaleUpInfo>, i: nat, j: nat, f: ScaleUpInfo -> int)
    requires i < |q| && j < |q|
    ensures SumBy(Swapped(q, i, j), f) == SumBy(q, f)
  {
    SumByUpdate(q, i, q[j], f);
    SumByUpdate(q[i := q[j]], j, q[i], f);
  }

  lemma WaterlineIsLevel(q: seq<ScaleUpInfo>, start: nat, current: nat)
    requires WithinLimits(q) && Waterline(q, start, current)
    ensures exists level :: Level(q, level)
  {
    var level := if |q| == 0 then 0 else q[current].newSize;
    assert Level(q, level);
  }

  lemma PlacingStarts(q: seq<ScaleUpInfo>, newNodes: nat)
    requires Unplanned(q) && Ascending(q, CurrentSizeOf) && newNodes <= SumBy(q, RoomOf)
    ensures Placing(q, multiset(q), SumBy(q, NewSizeOf) + newNodes, 0, 0, newNodes)
    ensures newNodes > 0 ==> |q| > 0
  {
    assert Bases(q) == q;
    assert forall i, j :: 0 <= i < j < |q| ==> CurrentSizeOf(q[i]) <= CurrentSizeOf(q[j]);
    if newNodes > 0 {
      var open := SumByPositive(q, RoomOf);
    }
  }

  method AddNode(a: array<ScaleUpInfo>, current: nat)
    requires current < a.Length
    modifies a
    ensures a[..] == Grown(old(a[..]), current)
  {
    a[current] := a[current].(newSize := a[current].newSize + 1);
  }

  method Swap(a: array<ScaleUpInfo>, i: nat, j: nat)
    requires i < a.Length && j < a.Length
    modifies a
    ensures a[..] == Swapped(old(a[..]), i, j)
  {
    a[i], a[j] := a[j], a[i];
  }

  /** One iteration: add a node to the current group, or remove the group when it is full. */
  method Visit(a: array<ScaleUpInfo>, start: nat, current: nat, remaining: nat,
               ghost bases: multiset<ScaleUpInfo>, ghost total: int)
    returns (start': nat, current': nat, remaining': nat)
    requires remaining > 0 && start <= current < a.Length
    requires Placing(a[..], bases, total, start, current, remaining)
    modifies a
    ensures Placing(a[..], bases, total, start', current', remaining')
    ensures start' <= current' < a.Length
    ensures start' - remaining' == start - remaining + 1
  {
    start', remaining' := start, remaining;
    ghost var q := a[..];
    if a[current].newSize < a[current].maxSize {
      AddNode(a, current);
      remaining' := remaining - 1;
      AddStep(q, bases, total, start, current, remaining);
    } else {
      Swap(a, start, current);
      start' := start + 1;
      RemoveStep(q, bases, total, start, current, remaining);
    }
    current' := Advance(a, start', current);
  }

  /** On to the next group if it is smaller, else back to the first one. */
  method Advance(a: array<ScaleUpInfo>, start: nat, current: nat) returns (next: nat)
    requires current < a.Length
    ensures next == NextIndex(a[..], start, current)
  {
    if current < a.Length - 1 && a[current].newSize > a[current + 1].newSize {
      next := current + 1;
    } else {
      next := start;
    }
  }

  /** The greedy loop. Returns the number of iterations it took. */
  method Distribute(a: array<ScaleUpInfo>, newNodes: nat) returns (steps: nat)
    requires Unplanned(a[..]) && Ascending(a[..], CurrentSizeOf)
    requires newNodes <= SumBy(a[..], RoomOf)
    modifies a
    ensures multiset(Bases(a[..])) == old(multiset(a[..]))
    ensures WithinLimits(a[..])
    ensures SumBy(a[..], NewSizeOf) == old(SumBy(a[..], NewSizeOf)) + newNodes
    ensures exists level :: Level(a[..], level)
    ensures steps <= newNodes + a.Length
  {
    ghost var bases, total := multiset(a[..]), SumBy(a[..], NewSizeOf) + newNodes;
    PlacingStarts(a[..], newNodes);
    var remaining: nat, start: nat, current: nat := newNodes, 0, 0;
    steps := 0;
    while remaining > 0
      invariant start <= a.Length && (remaining > 0 ==> start <= current < a.Length)
      invariant Placing(a[..], bases, total, start, current, remaining)
      invariant steps + remaining == newNodes + start
      decreases remaining + (a.Length - start)
    {
      start, current, remaining := Visit(a, start, current, remaining, bases, total);
      steps := steps + 1;
    }
    WaterlineIsLevel(a[..], start, current);
  }

  /** Reads the sizes of the groups and drops those that are exactly at their maximum. */
  method CollectInfos(groups: seq<NodeGroup>) returns (r: Option<seq<ScaleUpInfo>>, totalCapacity: int)
    ensures r.Some? <==> Readable(groups)
    ensures Readable(groups) ==>
              r.value == Candidates(AllInfos(groups)) && totalCapacity == ListedCapacity(groups)
  {
    var infos := [];
    totalCapacity := 0;
    for n := 0 to |groups|
      invariant Readable(groups[..n])
      invariant infos == Candidates(AllInfos(groups[..n])) && totalCapacity == ListedCapacity(groups[..n])
    {
      var g := groups[n];
      assert g in groups;
      if g.targetSize.None? {
        return None, 0;
      }
      assert groups[..n + 1] == groups[..n] + [g];
      assert AllInfos(groups[..n + 1])[..n] == AllInfos(groups[..n]);
      if g.targetSize.value != g.maxSize {
        infos := infos + [InfoOf(g)];
        totalCapacity := totalCapacity + (g.maxSize - g.targetSize.value);
      }
    }
    assert groups[..|groups|] == groups;
    r := Some(infos);
  }

  lemma CandidatesHaveNoNodesAdded(groups: seq<NodeGroup>)
    requires Readable(groups)
    ensures var c := Candidates(AllInfos(groups));
            && |c| <= |groups|
            && Unplanned(c)
            && ListedCapacity(groups) <= SumBy(c, RoomOf)
  {
    var c := Candidates(AllInfos(groups));
    PartsOf(AllInfos(groups));
    forall i | 0 <= i < |c| ensures c[i].newSize == c[i].currentSize {
      assert c[i] in AllInfos(groups);
    }
    SumByPointwise(c, c, ListedRoomOf, RoomOf);
  }

  /** The candidates in ascending order, still without added nodes. */
  method OrderedCandidates(groups: seq<NodeGroup>, infos: seq<ScaleUpInfo>) returns (a: array<ScaleUpInfo>)
    requires Readable(groups) && infos == Candidates(AllInfos(groups))
    ensures fresh(a) && a.Length <= |groups|
    ensures multiset(a[..]) == multiset(infos) && Ascending(a[..], CurrentSizeOf)
    ensures Unplanned(a[..])
    ensures ListedCapacity(groups) <= SumBy(a[..], RoomOf) && 0 <= SumBy(a[..], RoomOf)
  {
    var sorted := SortBy(infos, CurrentSizeOf);
    CandidatesHaveNoNodesAdded(groups);
    PermutationIsUnplanned(infos, sorted);
    SumByPermutation(sorted, infos, RoomOf);
    SumNonNegative(sorted);
    a := new ScaleUpInfo[|sorted|](i requires 0 <= i < |sorted| => sorted[i]);
    assert a[..] == sorted;
  }

  lemma PermutationIsUnplanned(s: seq<ScaleUpInfo>, t: seq<ScaleUpInfo>)
    requires Unplanned(s) && multiset(t) == multiset(s)
    ensures Unplanned(t) && |t| == |s|
  {
    assert |multiset(t)| == |multiset(s)|;
    forall i | 0 <= i < |t| ensures t[i].newSize == t[i].currentSize {
      assert t[i] in multiset(s);
    }
  }

  lemma {:induction false} SumNonNegative(s: seq<ScaleUpInfo>)
    requires WithinLimits(s)
    ensures 0 <= SumBy(s, RoomOf)
  {
    if s != [] {
      SumNonNegative(s[..|s| - 1]);
    }
  }

  /**
   The allocator. `plan` is the final content of its array, of which the result keeps the resized
   groups; `steps` counts the iterations of the greedy loop.
   */
  method BalanceScaleUpBetweenGroups(groups: seq<NodeGroup>, newNodes: int)
    returns (r: Result<seq<ScaleUpInfo>, Error>, ghost plan: seq<ScaleUpInfo>, ghost steps: nat)
    ensures groups == [] ==> r == Err(InternalError)
    ensures groups != [] && !Readable(groups) ==> r == Err(CloudProviderError)
    ensures groups != [] && Readable(groups) ==>
              && r == Ok(Resized(plan))
              && BalancedPlan(groups, Allotted(newNodes, ListedCapacity(groups)), plan)
    ensures steps <= Max(0, newNodes) + |groups|
  {
    plan, steps := [], 0;
    if |groups| == 0 {
      return Err(InternalError), plan, steps;
    }
    var collected, totalCapacity := CollectInfos(groups);
    if collected.None? {
      return Err(CloudProviderError), plan, steps;
    }
    var toAdd := if totalCapacity < newNodes then totalCapacity else newNodes;
    var a := OrderedCandidates(groups, collected.value);
    var iterations := PlanSizes(groups, a, Max(0, toAdd));
    plan, steps := a[..], iterations;
    var result := ResizedOnly(a);
    r := Ok(result);
  }

  /** Runs the greedy loop on the ordered candidates. */
  method PlanSizes(ghost groups: seq<NodeGroup>, a: array<ScaleUpInfo>, toAdd: nat) returns (steps: nat)
    requires Readable(groups)
    requires multiset(a[..]) == multiset(Candidates(AllInfos(groups))) && Unplanned(a[..]) && Ascending(a[..], CurrentSizeOf)
    requires toAdd <= SumBy(a[..], RoomOf)
    modifies a
    ensures BalancedPlan(groups, toAdd, a[..])
    ensures steps <= toAdd + a.Length
  {
    ghost var sorted := a[..];
    steps := Distribute(a, toAdd);
    PlanKeepsCurrentSizes(a[..], sorted);
  }

  /** Filters out the groups that have not changed size. */
  method ResizedOnly(a: array<ScaleUpInfo>) returns (result: seq<ScaleUpInfo>)
    ensures result == Resized(a[..])
  {
    result := [];
    for n := 0 to a.Length
      invariant result == Resized(a[..n])
    {
      assert a[..n + 1][..n] == a[..n];
      if a[n].newSize != a[n].currentSize {
        result := result + [a[n]];
      }
    }
    assert a[..a.Length] == a[..];
  }

  lemma PlanKeepsCurrentSizes(plan: seq<ScaleUpInfo>, sorted: seq<ScaleUpInfo>)
    requires multiset(Bases(plan)) == multiset(sorted)
    requires Unplanned(sorted)
    ensures SumBy(plan, CurrentSizeOf) == SumBy(sorted, NewSizeOf)
  {
    SumByPermutation(Bases(plan), sorted, NewSizeOf);
    SumByBases(plan);
  }

  lemma {:induction false} SumByBases(plan: seq<ScaleUpInfo>)
    ensures SumBy(Bases(plan), NewSizeOf) == SumBy(plan, CurrentSizeOf)
  {
    if plan != [] {
      assert Bases(plan)[..|plan| - 1] == Bases(plan[..|plan| - 1]);
      SumByBases(plan[..|plan| - 1]);
    }
  }

  // ----- Optimality -----

  ghost predicate SlopeGrows(f: int -> int, k: int) {
    f(k + 1) - f(k) <= f(k + 2) - f(k + 1)
  }

  /** f is convex on the integers: each further node costs at least as much as the one before. */
  ghost predicate Convex(f: int -> int) {
    forall k :: SlopeGrows(f, k)
  }

  lemma {:induction false} SlopeAtLeast(f: int -> int, level: int, k: int)
    requires Convex(f) && level <= k
    ensures f(level + 1) - f(level) <= f(k + 1) - f(k)
    decreases k - level
  {
    if level < k {
      SlopeAtLeast(f, level, k - 1);
      assert SlopeGrows(f, k - 1);
    }
  }

  lemma {:induction false} SlopeAtMost(f: int -> int, level: int, k: int)
    requires Convex(f) && k <= level
    ensures f(k + 1) - f(k) <= f(level + 1) - f(level)
    decreases level - k
  {
    if k < level {
      SlopeAtMost(f, level, k + 1);
      assert SlopeGrows(f, k);
    }
  }

  /** What a size costs beyond a price per node. */
  ghost function Excess(f: int -> int, price: int, size: int): int {
    f(size) - price * size
  }

  lemma {:induction false} ExcessGrowsAbove(f: int -> int, level: int, a: int, b: int)
    requires Convex(f) && level <= a <= b
    ensures Excess(f, f(level + 1) - f(level), a) <= Excess(f, f(level + 1) - f(level), b)
    decreases b - a
  {
    if a < b {
      ExcessGrowsAbove(f, level, a, b - 1);
      SlopeAtLeast(f, level, b - 1);
    }
  }

  lemma {:induction false} ExcessFallsBelow(f: int -> int, level: int, a: int, b: int)
    requires Convex(f) && a <= b <= level + 1
    ensures Excess(f, f(level + 1) - f(level), b) <= Excess(f, f(level + 1) - f(level), a)
    decreases b - a
  {
    if a < b {
      ExcessFallsBelow(f, level, a + 1, b);
      SlopeAtMost(f, level, a);
    }
  }

  ghost function CostOf(f: int -> int): ScaleUpInfo -> int {
    (info: ScaleUpInfo) => f(info.newSize)
  }

  ghost function ExcessOf(f: int -> int, price: int): ScaleUpInfo -> int {
    (info: ScaleUpInfo) => Excess(f, price, info.newSize)
  }

  /** What a plan costs, for a cost per group size. */
  ghost function Cost(s: seq<ScaleUpInfo>, f: int -> int): int {
    SumBy(s, CostOf(f))
  }

  lemma {:induction false} CostIsExcess(s: seq<ScaleUpInfo>, f: int -> int, price: int)
    ensures Cost(s, f) == SumBy(s, ExcessOf(f, price)) + price * SumBy(s, NewSizeOf)
  {
    if s != [] {
      CostIsExcess(s[..|s| - 1], f, price);
    }
  }

  /** With equal totals, costs compare as excesses do. */
  lemma CostsCompare(s: seq<ScaleUpInfo>, t: seq<ScaleUpInfo>, f: int -> int, price: int)
    requires SumBy(s, NewSizeOf) == SumBy(t, NewSizeOf)
    requires SumBy(s, ExcessOf(f, price)) <= SumBy(t, ExcessOf(f, price))
    ensures Cost(s, f) <= Cost(t, f)
  {
    CostIsExcess(s, f, price);
    CostIsExcess(t, f, price);
  }

  /** The size in the group's range that is closest to the level. */
  function Nearest(info: ScaleUpInfo, level: int): ScaleUpInfo {
    info.(newSize := Max(info.currentSize, Min(level, info.Cap())))
  }

  /** The level assignment of all groups, for comparison. */
  function AtLevel(s: seq<ScaleUpInfo>, level: int): (r: seq<ScaleUpInfo>)
    ensures |r| == |s| && forall i :: 0 <= i < |s| ==> r[i] == Nearest(s[i], level)
  {
    seq(|s|, i requires 0 <= i < |s| => Nearest(s[i], level))
  }

  lemma NearestIsCheapest(f: int -> int, level: int, info: ScaleUpInfo)
    requires Convex(f) && info.currentSize <= info.newSize <= info.Cap()
    ensures Excess(f, f(level + 1) - f(level), Nearest(info, level).newSize)
            <= Excess(f, f(level + 1) - f(level), info.newSize)
  {
    var best := Nearest(info, level).newSize;
    if level <= best <= info.newSize {
      ExcessGrowsAbove(f, level, best, info.newSize);
    } else {
      ExcessFallsBelow(f, level, info.newSize, best);
    }
  }

  /** A group of a level plan pays only the least excess. */
  lemma LevelIsCheapest(f: int -> int, level: int, info: ScaleUpInfo)
    requires WithinLimits([info]) && Level([info], level)
    ensures Excess(f, f(level + 1) - f(level), info.newSize)
            == Excess(f, f(level + 1) - f(level), Nearest(info, level).newSize)
  {
    assert [info][0] == info;
    var best := Nearest(info, level).newSize;
    assert info.newSize == best || info.newSize == level + 1 == best + 1;
  }

  lemma LevelPlanIsCheapest(f: int -> int, level: int, plan: seq<ScaleUpInfo>)
    requires WithinLimits(plan) && Level(plan, level)
    ensures var excess := ExcessOf(f, f(level + 1) - f(level));
            SumBy(plan, excess) == SumBy(AtLevel(plan, level), excess)
  {
    var excess := ExcessOf(f, f(level + 1) - f(level));
    forall i | 0 <= i < |plan| ensures excess(plan[i]) == excess(AtLevel(plan, level)[i]) {
      LevelIsCheapest(f, level, plan[i]);
    }
    SumByPointwise(plan, AtLevel(plan, level), excess, excess);
  }

  lemma FeasiblePaysLeast(f: int -> int, level: int, sizes: seq<ScaleUpInfo>)
    requires Convex(f) && WithinLimits(sizes)
    ensures var excess := ExcessOf(f, f(level + 1) - f(level));
            SumBy(AtLevel(sizes, level), excess) <= SumBy(sizes, excess)
  {
    var excess := ExcessOf(f, f(level + 1) - f(level));
    forall i | 0 <= i < |sizes| ensures excess(AtLevel(sizes, level)[i]) <= excess(sizes[i]) {
      NearestIsCheapest(f, level, sizes[i]);
    }
    SumByPointwise(AtLevel(sizes, level), sizes, excess, excess);
  }

  /** Level plans of the same groups, in any order, cost the same. */
  lemma AtLevelPermutes(s: seq<ScaleUpInfo>, t: seq<ScaleUpInfo>, level: int)
    requires multiset(Bases(s)) == multiset(Bases(t))
    ensures multiset(AtLevel(s, level)) == multiset(AtLevel(t, level))
  {
    assert AtLevel(s, level) == AtLevel(Bases(s), level);
    assert AtLevel(t, level) == AtLevel(Bases(t), level);
    AtLevelOfPermutation(Bases(s), Bases(t), level);
  }

  lemma {:induction false} AtLevelOfPermutation(s: seq<ScaleUpInfo>, t: seq<ScaleUpInfo>, level: int)
    requires multiset(s) == multiset(t)
    ensures multiset(AtLevel(s, level)) == multiset(AtLevel(t, level))
    decreases |s|
  {
    if s == [] {
      assert |multiset(t)| == 0;
    } else {
      var front, x := s[..|s| - 1], s[|s| - 1];
      var i, rest := Extract(t, x, s);
      AtLevelOfPermutation(front, rest, level);
      assert AtLevel(s, level) == AtLevel(front, level) + [Nearest(x, level)];
      assert AtLevel(t, level) == AtLevel(t[..i], level) + [Nearest(x, level)] + AtLevel(t[i + 1..], level);
      assert AtLevel(rest, level) == AtLevel(t[..i], level) + AtLevel(t[i + 1..], level);
    }
  }

  /** Sizes for all groups, in the order they were given, that respect every group's limits. */
  predicate Feasible(groups: seq<NodeGroup>, sizes: seq<ScaleUpInfo>)
    requires Readable(groups)
  {
    && |sizes| == |groups|
    && WithinLimits(sizes)
    && forall i :: 0 <= i < |sizes| ==> sizes[i].Base() == InfoOf(groups[i])
  }

  /** The final sizes of all groups: the planned ones and those left aside at their maximum. */
  function FinalSizes(groups: seq<NodeGroup>, plan: seq<ScaleUpInfo>): seq<ScaleUpInfo>
    requires Readable(groups)
  {
    plan + Maxed(AllInfos(groups))
  }

  lemma FinalSizesOfPlan(groups: seq<NodeGroup>, added: int, plan: seq<ScaleUpInfo>, level: int)
    requires Readable(groups) && BalancedPlan(groups, added, plan) && Level(plan, level)
    ensures var all := FinalSizes(groups, plan);
            && WithinLimits(all) && Level(all, level)
            && multiset(Bases(all)) == multiset(AllInfos(groups))
            && SumBy(all, NewSizeOf) == SumBy(AllInfos(groups), NewSizeOf) + added
  {
    var infos, maxed := AllInfos(groups), Maxed(AllInfos(groups));
    MaxedStay(infos, maxed);
    FinalLimits(plan, maxed, level);
    FinalBases(infos, plan, maxed);
    FinalTotal(groups, added, plan);
  }

  lemma FinalLimits(plan: seq<ScaleUpInfo>, maxed: seq<ScaleUpInfo>, level: int)
    requires WithinLimits(plan) && Level(plan, level)
    requires forall i :: 0 <= i < |maxed| ==> maxed[i].Base() == maxed[i] && maxed[i].newSize == maxed[i].Cap()
    ensures WithinLimits(plan + maxed) && Level(plan + maxed, level)
  {
    var all := plan + maxed;
    forall i | 0 <= i < |all| ensures WithinLimits([all[i]]) && Level([all[i]], level) {
      var info := if i < |plan| then plan[i] else maxed[i - |plan|];
      assert all[i] == info && [info][0] == info;
    }
    forall i | 0 <= i < |all|
      ensures all[i].currentSize <= all[i].newSize <= all[i].Cap()
      ensures all[i].currentSize < all[i].newSize ==> all[i].newSize <= level + 1
      ensures all[i].newSize < all[i].Cap() ==> level <= all[i].newSize
    {
      assert [all[i]][0] == all[i];
    }
  }

  lemma FinalBases(infos: seq<ScaleUpInfo>, plan: seq<ScaleUpInfo>, maxed: seq<ScaleUpInfo>)
    requires maxed == Maxed(infos) && multiset(Bases(plan)) == multiset(Candidates(infos))
    requires forall i :: 0 <= i < |maxed| ==> maxed[i].Base() == maxed[i]
    ensures multiset(Bases(plan + maxed)) == multiset(infos)
  {
    BasesOfBoth(plan, maxed);
    SplitKeepsElements(infos);
  }

  lemma BasesOfBoth(plan: seq<ScaleUpInfo>, maxed: seq<ScaleUpInfo>)
    requires forall i :: 0 <= i < |maxed| ==> maxed[i].Base() == maxed[i]
    ensures Bases(plan + maxed) == Bases(plan) + maxed
  {
    var both := plan + maxed;
    forall i | 0 <= i < |both| ensures Bases(both)[i] == (Bases(plan) + maxed)[i] {
      assert i >= |plan| ==> both[i] == maxed[i - |plan|];
    }
  }

  /** The groups left aside keep their size, which is the largest they may have. */
  lemma MaxedStay(infos: seq<ScaleUpInfo>, maxed: seq<ScaleUpInfo>)
    requires maxed == Maxed(infos) && Unplanned(infos)
    ensures forall i :: 0 <= i < |maxed| ==> maxed[i].Base() == maxed[i] && maxed[i].newSize == maxed[i].Cap()
  {
    PartsOf(infos);
    forall i | 0 <= i < |maxed| ensures maxed[i].Base() == maxed[i] && maxed[i].newSize == maxed[i].Cap() {
      assert maxed[i] in maxed && maxed[i] in infos;
    }
  }

  lemma FinalTotal(groups: seq<NodeGroup>, added: int, plan: seq<ScaleUpInfo>)
    requires Readable(groups) && BalancedPlan(groups, added, plan)
    ensures SumBy(FinalSizes(groups, plan), NewSizeOf) == SumBy(AllInfos(groups), NewSizeOf) + added
  {
    var infos := AllInfos(groups);
    SumByAppend(plan, Maxed(infos), NewSizeOf);
    SumByPermutation(Bases(plan), Candidates(infos), NewSizeOf);
    SumByBases(plan);
    SplitSum(infos, NewSizeOf);
  }

  /**
   The allocator's plan is optimal: for every convex cost of a group's size, no way of giving the
   same number of nodes to the groups within their limits is cheaper.
   */
  lemma PlanIsOptimal(groups: seq<NodeGroup>, added: int, plan: seq<ScaleUpInfo>, sizes: seq<ScaleUpInfo>, f: int -> int)
    requires Readable(groups) && BalancedPlan(groups, added, plan)
    requires Feasible(groups, sizes)
    requires SumBy(sizes, NewSizeOf) == SumBy(AllInfos(groups), NewSizeOf) + added
    requires Convex(f)
    ensures Cost(FinalSizes(groups, plan), f) <= Cost(sizes, f)
  {
    var all := FinalSizes(groups, plan);
    var level :| Level(plan, level);
    FinalSizesOfPlan(groups, added, plan, level);
    assert Bases(sizes) == AllInfos(groups);
    LevelIsOptimal(all, level, sizes, f);
  }

  lemma LevelIsOptimal(all: seq<ScaleUpInfo>, level: int, sizes: seq<ScaleUpInfo>, f: int -> int)
    requires WithinLimits(all) && Level(all, level) && WithinLimits(sizes)
    requires multiset(Bases(all)) == multiset(Bases(sizes))
    requires SumBy(all, NewSizeOf) == SumBy(sizes, NewSizeOf)
    requires Convex(f)
    ensures Cost(all, f) <= Cost(sizes, f)
  {
    LevelPaysLeast(all, level, sizes, f);
    CostsCompare(all, sizes, f, f(level + 1) - f(level));
  }

  /** A level assignment pays the least excess over the price of one more node at that level. */
  lemma LevelPaysLeast(all: seq<ScaleUpInfo>, level: int, sizes: seq<ScaleUpInfo>, f: int -> int)
    requires WithinLimits(all) && Level(all, level) && WithinLimits(sizes)
    requires multiset(Bases(all)) == multiset(Bases(sizes))
    requires Convex(f)
    ensures var excess := ExcessOf(f, f(level + 1) - f(level)); SumBy(all, excess) <= SumBy(sizes, excess)
  {
    var excess := ExcessOf(f, f(level + 1) - f(level));
    LevelPlanIsCheapest(f, level, all);
    AtLevelPermutes(all, sizes, level);
    SumByPermutation(AtLevel(all, level), AtLevel(sizes, level), excess);
    FeasiblePaysLeast(f, level, sizes);
  }

  function Square(size: int): int { size * size }

  /** In particular the plan minimises the sum of squared sizes. */
  lemma PlanMinimisesSquares(groups: seq<NodeGroup>, added: int, plan: seq<ScaleUpInfo>, sizes: seq<ScaleUpInfo>)
    requires Readable(groups) && BalancedPlan(groups, added, plan)
    requires Feasible(groups, sizes)
    requires SumBy(sizes, NewSizeOf) == SumBy(AllInfos(groups), NewSizeOf) + added
    ensures Cost(FinalSizes(groups, plan), Square) <= Cost(sizes, Square)
  {
    SquareIsConvex();
    PlanIsOptimal(groups, added, plan, sizes, Square);
  }

  lemma SquareIsConvex()
    ensures Convex(Square)
  {
    forall k ensures SlopeGrows(Square, k) {
      assert Square(k + 1) == k * k + 2 * k + 1;
      assert Square(k + 2) == k * k + 4 * k + 4;
    }
  }

  // ----- The capacity cap -----

  lemma {:induction false} MaxedHaveNoRoom(s: seq<ScaleUpInfo>)
    ensures SumBy(Maxed(s), ListedRoomOf) == 0
  {
    if s != [] {
      var front, last := s[..|s| - 1], s[|s| - 1];
      MaxedHaveNoRoom(front);
      if last.currentSize == last.maxSize {
        SumByLast(Maxed(front), last, ListedRoomOf);
      } else {
        assert Maxed(s) == Maxed(front);
      }
    }
  }

  lemma CapacitiesCompared(groups: seq<NodeGroup>)
    requires Readable(groups)
    ensures ListedCapacity(groups) <= FreeCapacity(groups) && 0 <= FreeCapacity(groups)
    ensures ListedCapacity(groups) == FreeCapacity(groups) <==>
            forall i :: 0 <= i < |groups| ==> groups[i].targetSize.value <= groups[i].maxSize
  {
    var infos := AllInfos(groups);
    SplitSum(infos, ListedRoomOf);
    PartsOf(infos);
    MaxedHaveNoRoom(infos);
    SumByPointwise(infos, infos, ListedRoomOf, RoomOf);
    SumNonNegative(infos);
    assert forall i :: 0 <= i < |infos| ==>
      (ListedRoomOf(infos[i]) == RoomOf(infos[i]) <==> groups[i].targetSize.value <= groups[i].maxSize);
  }

  /**
   Requests are documented to be capped to the total free capacity. They are, except when some
   group is above its maximum (its negative room is deducted from the others) and the request
   does not fit into what is then counted although there is room.
   */
  lemma CappedToFreeCapacity(groups: seq<NodeGroup>, newNodes: int)
    requires Readable(groups)
    ensures Allotted(newNodes, ListedCapacity(groups)) == Allotted(newNodes, FreeCapacity(groups)) <==>
            || (forall i :: 0 <= i < |groups| ==> groups[i].targetSize.value <= groups[i].maxSize)
            || newNodes <= Max(0, ListedCapacity(groups))
            || FreeCapacity(groups) == 0
  {
    CapacitiesCompared(groups);
  }

  /** Two groups of which one is above its maximum: three nodes are refused although they would fit. */
  lemma OversizedGroupHidesRoom()
    ensures var groups := [NodeGroup("a", Some(9), 5), NodeGroup("b", Some(1), 4)];
            FreeCapacity(groups) == 3 && Allotted(3, ListedCapacity(groups)) == 0
  {
    var x, y := NodeGroup("a", Some(9), 5), NodeGroup("b", Some(1), 4);
    assert AllInfos([x, y]) == [InfoOf(x), InfoOf(y)];
    TwoCandidates(InfoOf(x), InfoOf(y));
    SumByTwo(InfoOf(x), InfoOf(y), RoomOf);
    SumByTwo(InfoOf(x), InfoOf(y), ListedRoomOf);
  }

  lemma TwoCandidates(x: ScaleUpInfo, y: ScaleUpInfo)
    requires x.currentSize != x.maxSize && y.currentSize != y.maxSize
    ensures Candidates([x, y]) == [x, y]
  {
    assert [x][..0] == [];
    assert Candidates([x]) == [x];
    assert [x, y][..1] == [x];
  }

  lemma SumByTwo(x: ScaleUpInfo, y: ScaleUpInfo, f: ScaleUpInfo -> int)
    ensures SumBy([x, y], f) == f(x) + f(y)
  {
    SumByLast([], x, f);
    SumByLast([x], y, f);
    assert [] + [x] == [x] && [x] + [y] == [x, y];
  }
}
