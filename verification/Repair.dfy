/**
 The repair protocol: replace the nodes that stay NotReady, group by group, by growing the group
 first where it has room and shrinking it first where it has none.

 Every answer of the cloud and of Kubernetes is a nondeterministic choice, so the contracts hold
 for any pattern of failures. Each call that has an effect or observes one is a method of its own,
 which notes it in the controller's log, or counts it among the faults if it failed; all other methods
 only compose those. The target size of a group is changed by this controller only.
 */
module Repair {
  import opened Wrappers
  import opened RepairTrace

  // ----- Confirming unhealthy nodes -----

  predicate ContainsNode(node: Node, nodes: seq<Node>) {
    exists i :: 0 <= i < |nodes| && nodes[i].name == node.name
  }

  function Common(first: seq<Node>, second: seq<Node>): seq<Node> {
    if first == [] then [] else
      var last := first[|first| - 1];
      Common(first[..|first| - 1], second) + if ContainsNode(last, second) then [last] else []
  }

  method CommonNodes(first: seq<Node>, second: seq<Node>) returns (common: seq<Node>)
    ensures common == Common(first, second)
  {
    common := [];
    for n := 0 to |first|
      invariant common == Common(first[..n], second)
    {
      assert first[..n + 1][..n] == first[..n];
      if ContainsNode(first[n], second) {
        common := common + [first[n]];
      }
    }
    assert first[..|first|] == first;
  }

  lemma CountLast(nodes: seq<Node>, node: Node)
    requires nodes != []
    ensures multiset(nodes)[node] == multiset(nodes[..|nodes| - 1])[node] + if nodes[|nodes| - 1] == node then 1 else 0
  {
    assert nodes == nodes[..|nodes| - 1] + [nodes[|nodes| - 1]];
  }

  /** Exactly the nodes of both samples, each as often as in the first. */
  lemma {:induction false} CommonIsIntersection(first: seq<Node>, second: seq<Node>, node: Node)
    ensures multiset(Common(first, second))[node] == if ContainsNode(node, second) then multiset(first)[node] else 0
  {
    if first != [] {
      CommonIsIntersection(first[..|first| - 1], second, node);
      CountLast(first, node);
    }
  }

  // ----- Batches -----

  /** How many nodes can be replaced at once, given the target, the maximum and the number of nodes. */
  function ExpandSize(target: int, maxSize: int, count: nat): int {
    if maxSize - target >= count then count else maxSize - target
  }

  /** What reading a target size gives: the error that comes with -1 is ignored. */
  function ReadOf(target: int, ok: bool): int {
    if ok then target else -1
  }

  /** The batch taken from `count` nodes; the target is read twice. */
  function BatchSize(firstRead: int, secondRead: int, maxSize: int, count: nat): int {
    if firstRead >= maxSize then 1 else ExpandSize(secondRead, maxSize, count)
  }

  /** A batch is a non-empty part of the nodes exactly when the second read is below the maximum or is not used. */
  lemma BatchMakesProgress(firstRead: int, secondRead: int, maxSize: int, count: nat)
    requires count > 0
    ensures 1 <= BatchSize(firstRead, secondRead, maxSize, count) <= count <==>
            firstRead >= maxSize || secondRead < maxSize
  {
  }

  /**
   In terms of the calls: progress is lost exactly when the first read fails and the second finds the
   group full. At the maximum the batch is empty; above it, its size is negative.
   */
  lemma ProgressLostIff(target: int, ok1: bool, ok2: bool, maxSize: nat, count: nat)
    requires count > 0
    ensures BatchSize(ReadOf(target, ok1), ReadOf(target, ok2), maxSize, count) == 0 <==> !ok1 && ok2 && target == maxSize
    ensures BatchSize(ReadOf(target, ok1), ReadOf(target, ok2), maxSize, count) < 0 <==> !ok1 && ok2 && target > maxSize
  {
  }

  /** A group of at most 3, at its maximum and above it, after a failed first read. */
  lemma FailedReadLosesProgress()
    ensures BatchSize(ReadOf(3, false), ReadOf(3, true), 3, 2) == 0
    ensures BatchSize(ReadOf(4, false), ReadOf(4, true), 3, 2) == -1
  {
  }

  function Flatten(batches: seq<seq<Node>>): seq<Node> {
    if batches == [] then [] else batches[0] + Flatten(batches[1..])
  }

  lemma OneMoreBatch(nodes: seq<Node>, size: nat, rest: seq<seq<Node>>)
    requires 0 < size <= |nodes| && Flatten(rest) <= nodes[size..] && forall b :: b in rest ==> b != []
    ensures var batches := [nodes[..size]] + rest;
            && Flatten(batches) <= nodes && (forall b :: b in batches ==> b != [])
            && (Flatten(rest) == nodes[size..] ==> Flatten(batches) == nodes)
  {
    assert nodes == nodes[..size] + nodes[size..];
    assert ([nodes[..size]] + rest)[1..] == rest;
  }

  // ----- What a deletion and a repair do to the target -----

  /** The target after deleting `count` nodes in one call: the minimum is compared once. */
  function DeletedTogether(target: int, minSize: int, count: nat): int {
    if target <= minSize then target else target - count
  }

  /** One call keeps the minimum exactly when the group is at it or has that many nodes to spare. */
  lemma DeletedTogetherKeepsMinimumIff(target: int, minSize: int, count: nat)
    requires minSize <= target
    ensures minSize <= DeletedTogether(target, minSize, count) <==> target == minSize || minSize + count <= target
  {
  }

  /** The target after `count` single deletions: each decrements it unless it is at the minimum. */
  function AfterDeletes(target: int, minSize: int, count: nat): int {
    if target <= minSize then target else Max(minSize, target - count)
  }

  /**
   The target of a repaired group: back where it was, never above the maximum, and one below its
   start only if it started at the maximum with room downwards.
   */
  ghost predicate Smooth(asg: Asg, target: int, trace: Trace) {
    && Net(trace, asg.id) == 0
    && Stays(if target == asg.maxSize && asg.minSize < asg.maxSize then target - 1 else target,
             asg.maxSize, target, trace, asg.id)
  }

  lemma SmoothAppend(asg: Asg, target: int, s: Trace, t: Trace)
    requires Smooth(asg, target, s) && Smooth(asg, target + Net(s, asg.id), t)
    ensures Smooth(asg, target, s + t)
  {
    assert Net(s, asg.id) == 0;
    NetAppend(s, t, asg.id);
    StaysAppend(if target == asg.maxSize && asg.minSize < asg.maxSize then target - 1 else target,
                asg.maxSize, target, s, t, asg.id);
  }

  predicate DistinctIds(asgs: seq<Asg>) {
    forall i, j :: 0 <= i < j < |asgs| ==> asgs[i].id != asgs[j].id
  }

  predicate AllOwned(owner: map<string, Asg>, nodes: seq<Node>, asg: Asg) {
    forall n :: n in nodes ==> n.providerId in owner && owner[n.providerId] == asg
  }

  lemma MovedOnce(d0: Targets, trace: Trace, d1: Targets, e: Event, d2: Targets)
    requires Moved(d0, trace, d1) && d2.Keys == d1.Keys
    requires forall id :: id in d1 ==> d2[id] == d1[id] + Delta(e, id)
    ensures Moved(d0, trace + [e], d2)
  {
    forall id | id in d0 ensures d2[id] == d0[id] + Net(trace + [e], id) {
      NetAppend(trace, [e], id);
      NetOne(e, id);
    }
  }

  /** The trace terminates a prefix of the nodes, each in its own group. */
  predicate Terminating(owner: map<string, Asg>, nodes: seq<Node>, decrement: bool, trace: Trace) {
    && |trace| <= |nodes|
    && forall i :: 0 <= i < |trace| ==>
         && nodes[i].providerId in owner
         && trace[i] == Terminated(owner[nodes[i].providerId].id, nodes[i], decrement)
  }

  lemma OneMoreTerminated(owner: map<string, Asg>, nodes: seq<Node>, decrement: bool, d0: Targets, trace: Trace, d1: Targets, d2: Targets)
    requires Terminating(owner, nodes, decrement, trace) && Moved(d0, trace, d1) && |trace| < |nodes|
    requires nodes[|trace|].providerId in owner && owner[nodes[|trace|].providerId].id in d1
    requires var id := owner[nodes[|trace|].providerId].id; d2 == if decrement then d1[id := d1[id] - 1] else d1
    ensures var e := Terminated(owner[nodes[|trace|].providerId].id, nodes[|trace|], decrement);
            Terminating(owner, nodes, decrement, trace + [e]) && Moved(d0, trace + [e], d2)
  {
    var e := Terminated(owner[nodes[|trace|].providerId].id, nodes[|trace|], decrement);
    MovedOnce(d0, trace, d1, e, d2);
  }

  /**
   Both nodes of a group of two with minimum one: the terminations of a single call leave none, while
   two calls leave one.
   */
  lemma DeletingTogetherPassesMinimum()
    ensures var asg, a, b := Asg("g", 1, 3), Node("a", "i-a"), Node("b", "i-b");
            var trace := [Terminated("g", a, true), Terminated("g", b, true)];
            && Terminating(map["i-a" := asg, "i-b" := asg], [a, b], 2 > asg.minSize, trace)
            && Moved(map["g" := 2], trace, map["g" := 0])
            && DeletedTogether(2, asg.minSize, 2) == 0 < asg.minSize == AfterDeletes(2, asg.minSize, 2)
  {
    var trace := [Terminated("g", Node("a", "i-a"), true), Terminated("g", Node("b", "i-b"), true)];
    NetOfTerminations(trace, "g", true);
  }

  lemma NetInGroup(owner: map<string, Asg>, asg: Asg, nodes: seq<Node>, decrement: bool, trace: Trace)
    requires AllOwned(owner, nodes, asg) && Terminating(owner, nodes, decrement, trace)
    ensures Net(trace, asg.id) == if decrement then -|trace| else 0
  {
    forall i | 0 <= i < |trace| ensures trace[i] == Terminated(asg.id, nodes[i], decrement) {
      assert nodes[i] in nodes;
    }
    NetOfTerminations(trace, asg.id, decrement);
  }

  function AllGone(pods: seq<Pod>): (r: Trace)
    ensures |r| == |pods| && forall i :: 0 <= i < |pods| ==> r[i] == Seen(pods[i], true)
  {
    seq(|pods|, i requires 0 <= i < |pods| => Seen(pods[i], true))
  }

  function Indices(pods: seq<Pod>): (r: set<int>)
    ensures forall i :: i in r <==> 0 <= i < |pods|
  {
    if pods == [] then {} else Indices(pods[..|pods| - 1]) + {|pods| - 1}
  }

  lemma OneMoreEvicted(log: Trace, pod: Pod)
    ensures forall p :: EvictedIn(log, p) || p == pod ==> EvictedIn(log + [Evicted(pod)], p)
  {
    var more := log + [Evicted(pod)];
    forall p | EvictedIn(log, p) || p == pod ensures EvictedIn(more, p) {
      if p == pod {
        assert more[|log|] == Evicted(p);
      } else {
        var k :| 0 <= k < |log| && log[k] == Evicted(p);
        assert more[k] == Evicted(p);
      }
    }
  }

  /** A drain is complete once a round of polls has seen all pods gone. */
  lemma PolledToTheEnd(pods: seq<Pod>, evictions: Trace, log: Trace, seen: Trace)
    requires Draining(pods, log) && evictions <= log && (forall p :: p in pods ==> EvictedIn(evictions, p))
    requires seen == AllGone(pods)
    ensures Drains(pods, log + seen)
  {
    var all := log + seen;
    assert all[..|all| - |pods|] == log;
    forall p | p in pods ensures EvictedIn(log, p) {
      var k :| 0 <= k < |evictions| && evictions[k] == Evicted(p);
      assert log[k] == Evicted(p);
    }
  }

  /** `count` single deletions from a group at `target`: where they end, and that they only go down. */
  ghost predicate Shrunk(asg: Asg, target: int, count: nat, trace: Trace) {
    var end := AfterDeletes(target, asg.minSize, count);
    target + Net(trace, asg.id) == end && Stays(end, target, target, trace, asg.id)
  }

  lemma OwnedParts(owner: map<string, Asg>, nodes: seq<Node>, rest: seq<Node>, asg: Asg)
    ensures AllOwned(owner, nodes + rest, asg) <==> AllOwned(owner, nodes, asg) && AllOwned(owner, rest, asg)
  {
    assert forall n :: n in nodes + rest <==> n in nodes || n in rest;
  }

  lemma ShrunkAppend(asg: Asg, target: int, count: nat, s: Trace, t: Trace)
    requires Shrunk(asg, target, count, s)
    requires Shrunk(asg, target + Net(s, asg.id), 1, t)
    ensures Shrunk(asg, target, count + 1, s + t)
  {
    var middle := target + Net(s, asg.id);
    var end := AfterDeletes(target, asg.minSize, count + 1);
    assert AfterDeletes(middle, asg.minSize, 1) == end;
    NetAppend(s, t, asg.id);
    StaysWider(AfterDeletes(target, asg.minSize, count), target, end, target, target, s, asg.id);
    StaysWider(end, middle, end, target, middle, t, asg.id);
    StaysAppend(end, target, target, s, t, asg.id);
  }

  lemma StartedShrink(asg: Asg, target: int, start: Trace, t: Trace)
    requires Quiet(start) && Shrunk(asg, target, 1, t)
    ensures Shrunk(asg, target, 1, start + t)
  {
    UntouchedStays(target, target, target, start, asg.id);
    ShrunkAppend(asg, target, 0, start, t);
  }

  /** A request to grow, before or after a deletion, is no event of any node. */
  lemma IncreaseAside(s: Trace, t: Trace, id: string)
    requires s == [] || (|s| == 1 && s[0].Increased? && s[0].asg == id)
    ensures Attempts(s + t) == Attempts(t) == Attempts(t + s)
    ensures Terminations(s + t) == Terminations(t) == Terminations(t + s)
    ensures OnlyTouches(s, id) && (Accounted(t) ==> Accounted(s + t) && Accounted(t + s))
  {
    NodesNone(s, Attempt);
    NodesNone(s, Termination);
    NodesAppend(s, t, Attempt);
    NodesAppend(t, s, Attempt);
    NodesAppend(s, t, Termination);
    NodesAppend(t, s, Termination);
    forall node ensures AccountedNode(s, node) {
      assert s == [] || s[1..] == [];
    }
    if Accounted(t) {
      AccountedAppend(s, t);
      AccountedAppend(t, s);
    }
  }

  /** With room, the group grows by the batch and shrinks back to where it was. */
  lemma GrowThenShrink(asg: Asg, target: int, count: nat, s: Trace, t: Trace)
    requires 0 < count && asg.minSize <= target && target + count <= asg.maxSize
    requires s == [Increased(asg.id, count)]
    requires Shrunk(asg, target + Net(s, asg.id), count, t)
    ensures Smooth(asg, target, s + t)
  {
    NetOne(s[0], asg.id);
    NetAppend(s, t, asg.id);
    StaysOne(target, asg.maxSize, target, s[0], asg.id);
    assert target + Net(s, asg.id) == target + count;
    StaysWider(target, target + count, target, asg.maxSize, target + count, t, asg.id);
    StaysAppend(target, asg.maxSize, target, s, t, asg.id);
  }

  /** At the maximum, the group gives one node back first, unless that is its minimum too. */
  lemma ShrinkThenGrow(asg: Asg, target: int, s: Trace, t: Trace)
    requires target == asg.maxSize && asg.minSize <= target
    requires Shrunk(asg, target, 1, s)
    requires t == if target + Net(s, asg.id) + 1 <= asg.maxSize then [Increased(asg.id, 1)] else []
    ensures Smooth(asg, target, s + t)
  {
    var low := AfterDeletes(target, asg.minSize, 1);
    NetOne(Increased(asg.id, 1), asg.id);
    NetAppend(s, t, asg.id);
    if t != [] {
      StaysOne(low, asg.maxSize, low, t[0], asg.id);
    }
    StaysAppend(low, asg.maxSize, target, s, t, asg.id);
  }

  /**
   Deleting a batch from a group at `target`: its nodes are taken up in order until one cannot be
   deleted, and all of them are deleted when no call fails.
   */
  ghost predicate Deletion(owner: map<string, Asg>, asg: Asg, batch: seq<Node>, target: int, clean: bool, trace: Trace) {
    && (batch != [] ==> TakesUp(batch, trace))
    && Attempts(trace) <= batch && GivesUpOnlyAtEnd(trace) && Accounted(trace)
    && (AllOwned(owner, batch, asg) ==>
          && RightOwner(owner, trace) && OnlyTouches(trace, asg.id)
          && (clean ==> Attempts(trace) == batch && Terminations(trace) == batch && Shrunk(asg, target, |batch|, trace)))
  }

  /** The nodes of a batch are taken up in order, until one cannot be deleted. */
  predicate TakesUp(batch: seq<Node>, trace: Trace) {
    && Attempts(trace) != [] && Attempts(trace) <= batch
    && (Attempts(trace) == batch || GivesUp(trace))
  }

  /** One more node after a batch that was attempted to its end. */
  lemma DeletionAppend(owner: map<string, Asg>, asg: Asg, batch: seq<Node>, node: Node,
                       target: int, c1: bool, s: Trace, c2: bool, t: Trace)
    requires Deletion(owner, asg, batch, target, c1, s) && Attempts(s) == batch && !GivesUp(s)
    requires Deletion(owner, asg, [node], target + Net(s, asg.id), c2, t) && Attempts(t) == [node]
    ensures Deletion(owner, asg, batch + [node], target, c1 && c2, s + t)
    ensures Attempts(s + t) == batch + [node] && (GivesUp(s + t) <==> GivesUp(t))
  {
    NodesAppend(s, t, Attempt);
    NodesAppend(s, t, Termination);
    AccountedAppend(s, t);
    GivesUpOnlyAtEndAppend(s, t);
    OwnedParts(owner, batch, [node], asg);
    assert |batch + [node]| == |batch| + 1;
    if AllOwned(owner, batch + [node], asg) && c1 && c2 {
      ShrunkAppend(asg, target, |batch|, s, t);
    }
  }

  lemma NextNode(asgs: seq<Asg>, owner: map<string, Asg>, asg: Asg, batch: seq<Node>, n: nat,
                 d0: Targets, c1: bool, s: Trace, d1: Targets, c2: bool, t: Trace, d2: Targets)
    requires n < |batch| && asg.id in d0 && asg.id in d1
    requires Transition(asgs, owner, d0, s, d1) && Transition(asgs, owner, d1, t, d2)
    requires Deletion(owner, asg, batch[..n], d0[asg.id], c1, s) && Attempts(s) == batch[..n] && !GivesUp(s)
    requires Deletion(owner, asg, [batch[n]], d1[asg.id], c2, t) && Attempts(t) == [batch[n]]
    ensures Transition(asgs, owner, d0, s + t, d2)
    ensures Deletion(owner, asg, batch[..n + 1], d0[asg.id], c1 && c2, s + t)
    ensures Attempts(s + t) == batch[..n + 1] && (GivesUp(s + t) <==> GivesUp(t))
  {
    TransitionAppend(asgs, owner, d0, s, d1, t, d2);
    assert d1[asg.id] == d0[asg.id] + Net(s, asg.id);
    DeletionAppend(owner, asg, batch[..n], batch[n], d0[asg.id], c1, s, c2, t);
    assert batch[..n + 1] == batch[..n] + [batch[n]];
  }

  lemma PartialDeletion(owner: map<string, Asg>, asg: Asg, batch: seq<Node>, n: nat, target: int, clean: bool, trace: Trace)
    requires 0 < n <= |batch| && Deletion(owner, asg, batch[..n], target, clean, trace) && GivesUp(trace)
    requires clean ==> !AllOwned(owner, batch, asg)
    ensures Deletion(owner, asg, batch, target, clean, trace)
  {
    assert batch[..n] <= batch;
    assert forall x :: x in batch[..n] ==> x in batch;
  }

  /** What deleting one node did: its own group shrank if it succeeded, and nothing else moved. */
  ghost predicate SingleDeletion(owner: map<string, Asg>, node: Node, d: Targets, deleted: bool, trace: Trace) {
    && Attempts(trace) == [] && RightOwner(owner, trace)
    && Terminations(trace) == (if deleted then [node] else [])
    && OnlyAbout(trace, node)
    && GivesUpOnlyAtEnd(trace) && (trace != [] ==> (GivesUp(trace) <==> !deleted))
    && (deleted ==>
          && node.providerId in owner && owner[node.providerId].id in d
          && Shrunk(owner[node.providerId], d[owner[node.providerId].id], 1, trace))
    && (node.providerId in owner ==> OnlyTouches(trace, owner[node.providerId].id))
  }

  lemma NothingDeleted(owner: map<string, Asg>, node: Node, d: Targets)
    ensures SingleDeletion(owner, node, d, false, [])
  {
    forall other ensures OnlyOnce([], node, other) {
    }
  }

  /** The deletion of a node, started with the event that it is attempted. */
  lemma StartedDeletion(owner: map<string, Asg>, asg: Asg, node: Node, d: Targets, deleted: bool, clean: bool, t: Trace)
    requires asg.id in d && SingleDeletion(owner, node, d, deleted, t)
    requires clean && node.providerId in owner ==> deleted
    ensures var trace := [Attempted(asg.id, node)] + t;
            && Deletion(owner, asg, [node], d[asg.id], clean, trace)
            && Attempts(trace) == [node] && Terminations(trace) == (if deleted then [node] else [])
            && (GivesUp(trace) <==> GivesUp(t))
  {
    var start := [Attempted(asg.id, node)];
    StartedNodes(asg.id, node, deleted, t);
    GivesUpOnlyAtEndAppend(start, t);
    if AllOwned(owner, [node], asg) {
      assert node in [node];
      if deleted {
        StartedShrink(asg, d[asg.id], start, t);
        assert |[node]| == 1;
      }
    }
  }

  lemma StartedNodes(id: string, node: Node, deleted: bool, t: Trace)
    requires Attempts(t) == [] && Terminations(t) == (if deleted then [node] else []) && OnlyAbout(t, node)
    ensures var trace := [Attempted(id, node)] + t;
            Attempts(trace) == [node] && Terminations(trace) == Terminations(t) && Accounted(trace)
  {
    var trace := [Attempted(id, node)] + t;
    assert trace[1..] == t;
    forall other ensures AccountedNode(trace, other) {
      assert OnlyOnce(t, node, other);
    }
  }

  /**
   Repairing nodes of a group at `target`: none is attempted twice and nothing happens to any other, and
   when no call fails each is replaced and the target is smooth.
   */
  ghost predicate Repairing(owner: map<string, Asg>, asg: Asg, nodes: seq<Node>, target: int, clean: bool, trace: Trace) {
    && multiset(Attempts(trace)) <= multiset(nodes) && Accounted(trace)
    && (AllOwned(owner, nodes, asg) ==>
          && RightOwner(owner, trace) && OnlyTouches(trace, asg.id)
          && (clean ==> Attempts(trace) == nodes && Terminations(trace) == nodes)
          && (clean && asg.minSize <= target <= asg.maxSize ==> Smooth(asg, target, trace)))
  }

  lemma UncleanRepairing(owner: map<string, Asg>, asg: Asg, nodes: seq<Node>, target: int, clean: bool, trace: Trace)
    requires Repairing(owner, asg, nodes, target, clean, trace)
    ensures Repairing(owner, asg, nodes, target, false, trace)
  {
  }

  lemma RepairingAppend(owner: map<string, Asg>, asg: Asg, batch: seq<Node>, rest: seq<Node>,
                        target: int, c1: bool, s: Trace, c2: bool, t: Trace)
    requires Repairing(owner, asg, batch, target, c1, s)
    requires Repairing(owner, asg, rest, target + Net(s, asg.id), c2, t)
    ensures Repairing(owner, asg, batch + rest, target, c1 && c2, s + t)
  {
    NodesAppend(s, t, Attempt);
    NodesAppend(s, t, Termination);
    AccountedAppend(s, t);
    PartsAppend(Attempts(s), batch, Attempts(t), rest);
    OwnedParts(owner, batch, rest, asg);
    if AllOwned(owner, batch + rest, asg) && c1 && c2 && asg.minSize <= target <= asg.maxSize {
      SmoothAppend(asg, target, s, t);
    }
  }

  /** The trace is that of repairing the batches one after the other. */
  ghost predicate InBatches(owner: map<string, Asg>, asg: Asg, batches: seq<seq<Node>>, target: int, clean: bool, trace: Trace)
    decreases |batches|
  {
    if batches == [] then trace == []
    else exists k :: BatchEndsAt(owner, asg, batches, target, clean, trace, k)
  }

  ghost predicate BatchEndsAt(owner: map<string, Asg>, asg: Asg, batches: seq<seq<Node>>, target: int, clean: bool, trace: Trace, k: int)
    requires batches != []
    decreases |batches|, 0
  {
    && 0 <= k <= |trace|
    && Repairing(owner, asg, batches[0], target, clean, trace[..k]) && TakesUp(batches[0], trace[..k])
    && InBatches(owner, asg, batches[1..], target + Net(trace[..k], asg.id), clean, trace[k..])
  }

  lemma {:induction false} InBatchesUnclean(owner: map<string, Asg>, asg: Asg, batches: seq<seq<Node>>, target: int, clean: bool, trace: Trace)
    requires InBatches(owner, asg, batches, target, clean, trace)
    ensures InBatches(owner, asg, batches, target, false, trace)
    decreases |batches|
  {
    if batches != [] {
      var k :| BatchEndsAt(owner, asg, batches, target, clean, trace, k);
      InBatchesUnclean(owner, asg, batches[1..], target + Net(trace[..k], asg.id), clean, trace[k..]);
      assert BatchEndsAt(owner, asg, batches, target, false, trace, k);
    }
  }

  lemma BatchInFront(owner: map<string, Asg>, asg: Asg, batch: seq<Node>, rest: seq<seq<Node>>,
                     target: int, c1: bool, s: Trace, c2: bool, t: Trace)
    requires Repairing(owner, asg, batch, target, c1, s) && TakesUp(batch, s)
    requires InBatches(owner, asg, rest, target + Net(s, asg.id), c2, t)
    ensures InBatches(owner, asg, [batch] + rest, target, c1 && c2, s + t)
  {
    var k, batches := |s|, [batch] + rest;
    assert (s + t)[..k] == s && (s + t)[k..] == t;
    assert batches[1..] == rest;
    if !(c1 && c2) {
      InBatchesUnclean(owner, asg, rest, target + Net(s, asg.id), c2, t);
    }
    assert BatchEndsAt(owner, asg, batches, target, c1 && c2, s + t, k);
  }

  /** What repairing the nodes of a group did: batch by batch, all of them if it finished. */
  ghost predicate Batchwise(owner: map<string, Asg>, asg: Asg, nodes: seq<Node>, target: int, finished: bool, clean: bool,
                            trace: Trace, batches: seq<seq<Node>>) {
    && Repairing(owner, asg, nodes, target, clean, trace)
    && Flatten(batches) <= nodes && (forall b :: b in batches ==> b != [])
    && (finished ==> Flatten(batches) == nodes)
    && InBatches(owner, asg, batches, target, clean, trace)
  }

  lemma NextBatch(owner: map<string, Asg>, asg: Asg, nodes: seq<Node>, size: nat, rest: seq<seq<Node>>, finished: bool,
                  target: int, c1: bool, s: Trace, c2: bool, t: Trace)
    requires 0 < size <= |nodes|
    requires Repairing(owner, asg, nodes[..size], target, c1, s) && TakesUp(nodes[..size], s)
    requires Batchwise(owner, asg, nodes[size..], target + Net(s, asg.id), finished, c2, t, rest)
    ensures Batchwise(owner, asg, nodes, target, finished, c1 && c2, s + t, [nodes[..size]] + rest)
  {
    RepairingAppend(owner, asg, nodes[..size], nodes[size..], target, c1, s, c2, t);
    assert nodes == nodes[..size] + nodes[size..];
    OneMoreBatch(nodes, size, rest);
    BatchInFront(owner, asg, nodes[..size], rest, target, c1, s, c2, t);
  }

  lemma NothingRepaired(owner: map<string, Asg>, asg: Asg, target: int)
    ensures Batchwise(owner, asg, [], target, true, true, [], [])
  {
  }

  lemma RepairNotBegun(owner: map<string, Asg>, asg: Asg, nodes: seq<Node>, target: int)
    ensures Batchwise(owner, asg, nodes, target, false, false, [], [])
  {
  }

  /** An answered request to grow: accepted when it fits, as far as nothing failed. */
  predicate Growth(asg: Asg, delta: int, target: int, clean: bool, trace: Trace) {
    && (trace == [] || trace == [Increased(asg.id, delta)])
    && (clean ==> (trace != [] <==> 0 < delta && target + delta <= asg.maxSize))
  }

  lemma GrowThenDelete(owner: map<string, Asg>, asg: Asg, batch: seq<Node>, target: int, fits: bool, c1: bool, s: Trace, c2: bool, t: Trace)
    requires fits ==> 0 < |batch| && target + |batch| <= asg.maxSize
    requires Growth(asg, |batch|, target, c1, s)
    requires Deletion(owner, asg, batch, target + Net(s, asg.id), c2, t)
    ensures Repairing(owner, asg, batch, target, fits && c1 && c2, s + t)
    ensures batch != [] ==> TakesUp(batch, s + t)
  {
    IncreaseAside(s, t, asg.id);
    PrefixIsSubset(Attempts(t), batch);
    if AllOwned(owner, batch, asg) && fits && c1 && c2 && asg.minSize <= target {
      NetOne(s[0], asg.id);
      GrowThenShrink(asg, target, |batch|, s, t);
    }
  }

  lemma DeleteThenGrow(owner: map<string, Asg>, asg: Asg, node: Node, target: int, full: bool, c1: bool, s: Trace, c2: bool, t: Trace)
    requires full ==> asg.maxSize <= target
    requires Deletion(owner, asg, [node], target, c1, s)
    requires Growth(asg, 1, target + Net(s, asg.id), c2, t)
    ensures Repairing(owner, asg, [node], target, full && c1 && c2, s + t)
    ensures TakesUp([node], s + t)
  {
    IncreaseAside(t, s, asg.id);
    PrefixIsSubset(Attempts(s), [node]);
    assert Attempts(s) == [node];
    if AllOwned(owner, [node], asg) && full && c1 && c2 && asg.minSize <= target == asg.maxSize {
      ShrinkThenGrow(asg, target, s, t);
    }
  }

  lemma PrefixIsSubset(s: seq<Node>, t: seq<Node>)
    requires s <= t
    ensures multiset(s) <= multiset(t)
  {
    assert t == s + t[|s|..];
  }

  /**
   A pass over the groups: every attempt is on behalf of the owner and of a planned node, nothing happens
   to other nodes, and when no call fails all planned nodes are replaced and all targets are smooth.
   */
  ghost predicate Pass(asgs: seq<Asg>, owner: map<string, Asg>, plan: seq<Node>, d0: Targets, clean: bool, trace: Trace) {
    && RightOwner(owner, trace)
    && multiset(Attempts(trace)) <= multiset(plan) && Accounted(trace)
    && (clean ==> Attempts(trace) == plan && Terminations(trace) == plan)
    && (clean ==> forall a :: a in asgs && Within(a, d0) ==> Smooth(a, d0[a.id], trace))
  }

  lemma PassAppend(asgs: seq<Asg>, owner: map<string, Asg>, plan: seq<Node>, n: nat, all: seq<Node>, nodes: seq<Node>,
                   d0: Targets, c1: bool, s: Trace, c2: bool, t: Trace)
    requires n < |asgs| && DistinctIds(asgs) && asgs[n].id in d0
    requires Pass(asgs, owner, plan, d0, c1, s)
    requires AllOwned(owner, nodes, asgs[n]) && multiset(nodes) <= multiset(all) && (c2 ==> nodes == all)
    requires Repairing(owner, asgs[n], nodes, d0[asgs[n].id] + Net(s, asgs[n].id), c2, t)
    ensures Pass(asgs, owner, plan + all, d0, c1 && c2, s + t)
  {
    NodesAppend(s, t, Attempt);
    NodesAppend(s, t, Termination);
    AccountedAppend(s, t);
    PartsAppend(Attempts(s), plan, Attempts(t), all);
    if c1 && c2 {
      AllStaySmooth(asgs, n, d0, s, t);
    }
  }

  /** The nodes of a list that are in a group, in the list's order. */
  function MembersOf(owner: map<string, Asg>, nodes: seq<Node>, asg: Asg): seq<Node> {
    if nodes == [] then [] else
      var last := nodes[|nodes| - 1];
      MembersOf(owner, nodes[..|nodes| - 1], asg) +
      if last.providerId in owner && owner[last.providerId] == asg then [last] else []
  }

  lemma MembersStep(owner: map<string, Asg>, nodes: seq<Node>, n: nat, asg: Asg, members: seq<Node>, taken: bool)
    requires n < |nodes| && multiset(members) <= multiset(MembersOf(owner, nodes[..n], asg))
    requires taken ==> nodes[n].providerId in owner && owner[nodes[n].providerId] == asg
    ensures MembersOf(owner, nodes[..n + 1], asg) == MembersOf(owner, nodes[..n], asg) +
              if nodes[n].providerId in owner && owner[nodes[n].providerId] == asg then [nodes[n]] else []
    ensures multiset(if taken then members + [nodes[n]] else members) <= multiset(MembersOf(owner, nodes[..n + 1], asg))
  {
    var all := MembersOf(owner, nodes[..n], asg);
    assert nodes[..n + 1][..n] == nodes[..n];
    if taken {
      PartsAppend(members, all, [nodes[n]], [nodes[n]]);
    } else {
      PrefixIsSubset(all, MembersOf(owner, nodes[..n + 1], asg));
    }
  }

  /** What a pass without failures repairs: group by group, the members among the nodes. */
  function Plan(owner: map<string, Asg>, asgs: seq<Asg>, nodes: seq<Node>): seq<Node> {
    if asgs == [] then [] else
      Plan(owner, asgs[..|asgs| - 1], nodes) + MembersOf(owner, nodes, asgs[|asgs| - 1])
  }

  lemma PlanOneMore(owner: map<string, Asg>, asgs: seq<Asg>, nodes: seq<Node>, n: nat)
    requires n < |asgs|
    ensures Plan(owner, asgs[..n + 1], nodes) == Plan(owner, asgs[..n], nodes) + MembersOf(owner, nodes, asgs[n])
  {
    assert asgs[..n + 1][..n] == asgs[..n];
  }

  lemma NextGroup(asgs: seq<Asg>, owner: map<string, Asg>, nodes: seq<Node>, n: nat, members: seq<Node>,
                  d0: Targets, c1: bool, s: Trace, d1: Targets, c2: bool, t: Trace, d2: Targets)
    requires n < |asgs| && DistinctIds(asgs) && asgs[n].id in d0 && asgs[n].id in d1
    requires Transition(asgs, owner, d0, s, d1) && Transition(asgs, owner, d1, t, d2)
    requires Pass(asgs, owner, Plan(owner, asgs[..n], nodes), d0, c1, s)
    requires AllOwned(owner, members, asgs[n]) && multiset(members) <= multiset(MembersOf(owner, nodes, asgs[n]))
    requires c2 ==> members == MembersOf(owner, nodes, asgs[n])
    requires Repairing(owner, asgs[n], members, d1[asgs[n].id], c2, t)
    ensures Transition(asgs, owner, d0, s + t, d2)
    ensures Pass(asgs, owner, Plan(owner, asgs[..n + 1], nodes), d0, c1 && c2, s + t)
  {
    TransitionAppend(asgs, owner, d0, s, d1, t, d2);
    assert d1[asgs[n].id] == d0[asgs[n].id] + Net(s, asgs[n].id);
    PlanOneMore(owner, asgs, nodes, n);
    PassAppend(asgs, owner, Plan(owner, asgs[..n], nodes), n, MembersOf(owner, nodes, asgs[n]), members, d0, c1, s, c2, t);
  }

  // ----- Every group is visited -----

  /** Some members of the group, all of them if the lookups answered, were repaired batch by batch to the end. */
  ghost predicate Visited(owner: map<string, Asg>, asg: Asg, nodes: seq<Node>, complete: bool, trace: Trace) {
    exists members, target, clean, batches :: VisitedBy(owner, asg, nodes, complete, trace, members, target, clean, batches)
  }

  ghost predicate VisitedBy(owner: map<string, Asg>, asg: Asg, nodes: seq<Node>, complete: bool, trace: Trace,
                            members: seq<Node>, target: int, clean: bool, batches: seq<seq<Node>>) {
    && AllOwned(owner, members, asg) && multiset(members) <= multiset(MembersOf(owner, nodes, asg))
    && (complete ==> members == MembersOf(owner, nodes, asg))
    && Batchwise(owner, asg, members, target, true, clean, trace, batches)
  }

  lemma VisitedWith(owner: map<string, Asg>, asg: Asg, nodes: seq<Node>, complete: bool, trace: Trace,
                    members: seq<Node>, target: int, clean: bool, batches: seq<seq<Node>>)
    requires AllOwned(owner, members, asg) && multiset(members) <= multiset(MembersOf(owner, nodes, asg))
    requires complete ==> members == MembersOf(owner, nodes, asg)
    requires Batchwise(owner, asg, members, target, true, clean, trace, batches)
    ensures Visited(owner, asg, nodes, complete, trace)
  {
    assert VisitedBy(owner, asg, nodes, complete, trace, members, target, clean, batches);
  }

  /** The trace is that of visiting the groups one after the other. */
  ghost predicate AllVisited(owner: map<string, Asg>, asgs: seq<Asg>, nodes: seq<Node>, complete: bool, trace: Trace)
    decreases |asgs|
  {
    if asgs == [] then trace == []
    else exists k :: LastVisitStarts(owner, asgs, nodes, complete, trace, k)
  }

  ghost predicate LastVisitStarts(owner: map<string, Asg>, asgs: seq<Asg>, nodes: seq<Node>, complete: bool, trace: Trace, k: int)
    requires asgs != []
    decreases |asgs|, 0
  {
    && 0 <= k <= |trace|
    && AllVisited(owner, asgs[..|asgs| - 1], nodes, complete, trace[..k])
    && Visited(owner, asgs[|asgs| - 1], nodes, complete, trace[k..])
  }

  lemma VisitedIncompletely(owner: map<string, Asg>, asg: Asg, nodes: seq<Node>, complete: bool, trace: Trace)
    requires Visited(owner, asg, nodes, complete, trace)
    ensures Visited(owner, asg, nodes, false, trace)
  {
    var members, target, clean, batches :| VisitedBy(owner, asg, nodes, complete, trace, members, target, clean, batches);
    assert VisitedBy(owner, asg, nodes, false, trace, members, target, clean, batches);
  }

  lemma {:induction false} AllVisitedIncompletely(owner: map<string, Asg>, asgs: seq<Asg>, nodes: seq<Node>, complete: bool, trace: Trace)
    requires AllVisited(owner, asgs, nodes, complete, trace)
    ensures AllVisited(owner, asgs, nodes, false, trace)
    decreases |asgs|
  {
    if asgs != [] {
      var k :| LastVisitStarts(owner, asgs, nodes, complete, trace, k);
      AllVisitedIncompletely(owner, asgs[..|asgs| - 1], nodes, complete, trace[..k]);
      VisitedIncompletely(owner, asgs[|asgs| - 1], nodes, complete, trace[k..]);
      assert LastVisitStarts(owner, asgs, nodes, false, trace, k);
    }
  }

  lemma OneMoreVisited(owner: map<string, Asg>, asgs: seq<Asg>, n: nat, nodes: seq<Node>, c1: bool, s: Trace, c2: bool, t: Trace)
    requires n < |asgs| && AllVisited(owner, asgs[..n], nodes, c1, s) && Visited(owner, asgs[n], nodes, c2, t)
    ensures AllVisited(owner, asgs[..n + 1], nodes, c1 && c2, s + t)
  {
    var more, k := asgs[..n + 1], |s|;
    if !(c1 && c2) {
      AllVisitedIncompletely(owner, asgs[..n], nodes, c1, s);
      VisitedIncompletely(owner, asgs[n], nodes, c2, t);
    }
    assert more[..|more| - 1] == asgs[..n] && more[|more| - 1] == asgs[n];
    assert (s + t)[..k] == s && (s + t)[k..] == t;
    assert LastVisitStarts(owner, more, nodes, c1 && c2, s + t, k);
  }

  lemma {:induction false} NothingVisited(owner: map<string, Asg>, asgs: seq<Asg>)
    ensures AllVisited(owner, asgs, [], true, []) && Plan(owner, asgs, []) == []
    decreases |asgs|
  {
    if asgs != [] {
      var last := asgs[|asgs| - 1];
      NothingVisited(owner, asgs[..|asgs| - 1]);
      NothingRepaired(owner, last, 0);
      VisitedWith(owner, last, [], true, [], [], 0, true, []);
      assert LastVisitStarts(owner, asgs, [], true, [], 0);
    }
  }

  lemma NothingToDo(asgs: seq<Asg>, owner: map<string, Asg>, d: Targets)
    ensures Transition(asgs, owner, d, [], d) && Pass(asgs, owner, Plan(owner, asgs, []), d, true, [])
    ensures AllVisited(owner, asgs, [], true, [])
  {
    EmptyTransition(asgs, owner, d);
    NothingVisited(owner, asgs);
    forall node ensures AccountedNode([], node) {
    }
  }

  /** Every group is within its limits, and its maximum is not negative. */
  predicate Sane(asgs: seq<Asg>, targets: Targets) {
    forall a :: a in asgs ==> Within(a, targets) && 0 <= a.maxSize
  }

  /** One more batch in front of the others, as a step of all groups. */
  lemma NextBatches(asgs: seq<Asg>, owner: map<string, Asg>, asg: Asg, nodes: seq<Node>, size: nat, rest: seq<seq<Node>>, finished: bool,
                    d0: Targets, c1: bool, s: Trace, d1: Targets, c2: bool, t: Trace, d2: Targets)
    requires asg.id in d0 && asg.id in d1 && 0 < size <= |nodes|
    requires Transition(asgs, owner, d0, s, d1) && Transition(asgs, owner, d1, t, d2)
    requires Repairing(owner, asg, nodes[..size], d0[asg.id], c1, s) && TakesUp(nodes[..size], s)
    requires Batchwise(owner, asg, nodes[size..], d1[asg.id], finished, c2, t, rest)
    ensures Transition(asgs, owner, d0, s + t, d2)
    ensures Batchwise(owner, asg, nodes, d0[asg.id], finished, c1 && c2, s + t, [nodes[..size]] + rest)
  {
    TransitionAppend(asgs, owner, d0, s, d1, t, d2);
    assert d1[asg.id] == d0[asg.id] + Net(s, asg.id);
    NextBatch(owner, asg, nodes, size, rest, finished, d0[asg.id], c1, s, c2, t);
  }

  lemma StaysWithin(asgs: seq<Asg>, owner: map<string, Asg>, asg: Asg, d0: Targets, s: Trace, d1: Targets)
    requires asg in asgs && Transition(asgs, owner, d0, s, d1)
    ensures Within(asg, d0) ==> Within(asg, d1)
  {
    if Within(asg, d0) {
      StaysEndsInside(asg.minSize, asg.maxSize, d0[asg.id], s, asg.id);
    }
  }

  lemma {:induction false} CountMembers(owner: map<string, Asg>, nodes: seq<Node>, asg: Asg, node: Node)
    ensures multiset(MembersOf(owner, nodes, asg))[node] ==
            if node.providerId in owner && owner[node.providerId] == asg then multiset(nodes)[node] else 0
  {
    if nodes != [] {
      CountMembers(owner, nodes[..|nodes| - 1], asg, node);
      CountLast(nodes, node);
    }
  }

  lemma {:induction false} CountPlan(owner: map<string, Asg>, asgs: seq<Asg>, nodes: seq<Node>, node: Node)
    requires DistinctIds(asgs)
    ensures multiset(Plan(owner, asgs, nodes))[node] ==
            if node.providerId in owner && owner[node.providerId] in asgs then multiset(nodes)[node] else 0
  {
    if asgs != [] {
      var front, last := asgs[..|asgs| - 1], asgs[|asgs| - 1];
      CountPlan(owner, front, nodes, node);
      CountMembers(owner, nodes, last, node);
      assert forall a :: a in asgs <==> a in front || a == last;
      assert last !in front;
    }
  }

  /** No node is in the plan more often than in the list, since it has one owner. */
  lemma PlanIsPart(owner: map<string, Asg>, asgs: seq<Asg>, nodes: seq<Node>)
    requires DistinctIds(asgs)
    ensures multiset(Plan(owner, asgs, nodes)) <= multiset(nodes)
  {
    forall node ensures multiset(Plan(owner, asgs, nodes))[node] <= multiset(nodes)[node] {
      CountPlan(owner, asgs, nodes, node);
    }
  }

  lemma {:induction false} PlanPrefix(owner: map<string, Asg>, asgs: seq<Asg>, nodes: seq<Node>, n: nat)
    requires n <= |asgs|
    ensures multiset(Plan(owner, asgs[..n], nodes)) <= multiset(Plan(owner, asgs, nodes))
  {
    if n == |asgs| {
      assert asgs[..n] == asgs;
    } else {
      var front := asgs[..|asgs| - 1];
      assert front[..n] == asgs[..n];
      PlanPrefix(owner, front, nodes, n);
      PrefixIsSubset(Plan(owner, front, nodes), Plan(owner, asgs, nodes));
    }
  }

  /** A pass that ended early. */
  lemma PartialPass(asgs: seq<Asg>, owner: map<string, Asg>, nodes: seq<Node>, n: nat, d0: Targets, clean: bool, trace: Trace)
    requires n <= |asgs| && Pass(asgs, owner, Plan(owner, asgs[..n], nodes), d0, clean, trace)
    ensures Pass(asgs, owner, Plan(owner, asgs, nodes), d0, false, trace)
  {
    PlanPrefix(owner, asgs, nodes, n);
  }

  /** Repairing one group smoothly keeps every group smooth. */
  lemma AllStaySmooth(asgs: seq<Asg>, n: nat, d0: Targets, s: Trace, t: Trace)
    requires n < |asgs| && DistinctIds(asgs) && asgs[n].id in d0
    requires forall a :: a in asgs && Within(a, d0) ==> Smooth(a, d0[a.id], s)
    requires OnlyTouches(t, asgs[n].id)
    requires Within(asgs[n], d0) ==> Smooth(asgs[n], d0[asgs[n].id] + Net(s, asgs[n].id), t)
    ensures forall a :: a in asgs && Within(a, d0) ==> Smooth(a, d0[a.id], s + t)
  {
    forall a | a in asgs && Within(a, d0) ensures Smooth(a, d0[a.id], s + t) {
      SameId(asgs, a, asgs[n]);
      assert Smooth(a, d0[a.id], s);
      if a != asgs[n] {
        UntouchedStays(if d0[a.id] == a.maxSize && a.minSize < a.maxSize then d0[a.id] - 1 else d0[a.id],
                       a.maxSize, d0[a.id], t, a.id);
      }
      SmoothAppend(a, d0[a.id], s, t);
    }
  }

  /**
   All nodes were NotReady in both samples, and if no name is listed twice in the first sample then none
   is among the nodes.
   */
  predicate Confirmed(notReady: seq<Node>, stillNotReady: seq<Node>, nodes: seq<Node>) {
    && (forall n :: n in nodes ==> n in notReady && ContainsNode(n, stillNotReady))
    && (DistinctNames(notReady) ==> DistinctNames(nodes))
  }

  predicate DistinctNames(nodes: seq<Node>) {
    forall i, j :: 0 <= i < j < |nodes| ==> nodes[i].name != nodes[j].name
  }

  /** What a bound by the plan means. */
  lemma ConfirmedAndAtMostOnce(owner: map<string, Asg>, asgs: seq<Asg>, notReady: seq<Node>, stillNotReady: seq<Node>, nodes: seq<Node>)
    requires multiset(nodes) <= multiset(Plan(owner, asgs, Common(notReady, stillNotReady)))
    requires DistinctIds(asgs)
    ensures Confirmed(notReady, stillNotReady, nodes)
  {
    PlanIsPart(owner, asgs, Common(notReady, stillNotReady));
    forall n | n in nodes ensures n in notReady && ContainsNode(n, stillNotReady) {
      CommonIsIntersection(notReady, stillNotReady, n);
      assert n in multiset(nodes);
    }
    if DistinctNames(notReady) {
      forall i, j | 0 <= i < j < |nodes| ensures nodes[i].name != nodes[j].name {
        var x, y := nodes[i], nodes[j];
        assert x in notReady && y in notReady;
        if x.name == y.name {
          assert x == y;
          CommonIsIntersection(notReady, stillNotReady, x);
          CountsAtMostOnce(notReady, x);
          CountsTwice(nodes, i, j);
        }
      }
    }
  }

  /** In a pass only confirmed nodes are attempted, selected, tainted or terminated, and each at most once. */
  lemma PassIsConfirmed(asgs: seq<Asg>, owner: map<string, Asg>, notReady: seq<Node>, stillNotReady: seq<Node>,
                        d0: Targets, clean: bool, trace: Trace)
    requires DistinctIds(asgs)
    requires Pass(asgs, owner, Plan(owner, asgs, Common(notReady, stillNotReady)), d0, clean, trace)
    ensures forall kind :: Confirmed(notReady, stillNotReady, NodesIn(trace, kind))
  {
    forall kind ensures Confirmed(notReady, stillNotReady, NodesIn(trace, kind)) {
      AccountedFor(trace, kind);
      ConfirmedAndAtMostOnce(owner, asgs, notReady, stillNotReady, NodesIn(trace, kind));
    }
  }

  lemma {:induction false} CountsAtMostOnce(nodes: seq<Node>, x: Node)
    requires DistinctNames(nodes)
    ensures multiset(nodes)[x] <= 1
  {
    if nodes != [] {
      var front, last := nodes[..|nodes| - 1], nodes[|nodes| - 1];
      CountsAtMostOnce(front, x);
      CountLast(nodes, x);
      assert last !in front;
    }
  }

  lemma CountsTwice(nodes: seq<Node>, i: nat, j: nat)
    requires i < j < |nodes| && nodes[i] == nodes[j]
    ensures multiset(nodes)[nodes[i]] >= 2
  {
    assert nodes == nodes[..i] + [nodes[i]] + nodes[i + 1..j] + [nodes[j]] + nodes[j + 1..];
  }

  /** Every newly tainted node was terminated, or its taint could not be removed. */
  ghost predicate TaintsExplained(before: set<string>, trace: Trace, after: set<string>) {
    forall name :: name in after && name !in before ==> exists j :: 0 <= j < |trace| && LeavesTaint(trace[j], name)
  }

  lemma TaintsAreExplained(owner: map<string, Asg>, start: set<string>, log: Log, trace: Trace)
    requires Safe(owner, trace)
    ensures TaintsExplained(TaintsOf(start, log), trace, TaintsOf(start, Extended(log, trace)))
  {
    TaintsOfExtended(start, log, trace);
    forall name | name in Taints(TaintsOf(start, log), trace) && name !in TaintsOf(start, log)
      ensures exists j :: 0 <= j < |trace| && LeavesTaint(trace[j], name)
    {
      NoTaintForgotten(owner, TaintsOf(start, log), trace, name);
    }
  }

  lemma SelectedThen(log: Log, a: Event, b: Event, rest: Trace)
    ensures Extended(Then(Then(log, a), b), rest) == Extended(log, [a] + ([b] + rest))
  {
    assert ([a] + ([b] + rest))[1..] == [b] + rest && ([b] + rest)[1..] == rest;
  }

  /** How a repair ends: it may also crash on a negative batch, or go on forever with empty ones. */
  datatype Ending = Finished | Crashed | Stuck

  /** How many calls have failed: reads of a target size, lookups of a node's group, and all others. */
  datatype Faults = Faults(misreads: nat, misses: nat, others: nat)

  predicate NoFewer(before: Faults, after: Faults) {
    before.misreads <= after.misreads && before.misses <= after.misses && before.others <= after.others
  }

  class Controller {
    const asgs: seq<Asg>
    /** Which group an instance belongs to; it does not change during a repair. */
    const owner: map<string, Asg>
    /** The desired capacity of every group. */
    var desired: Targets
    /** The names of the nodes that carry the deletion taint. */
    var tainted: set<string>
    ghost const initiallyTainted: set<string>
    /** Every accepted call and every observation so far; only the calls below append to it. */
    ghost var log: Log
    /** The failed calls so far; only the calls below add to them. */
    ghost var faults: Faults

    ghost predicate Valid()
      reads this`desired, this`tainted, this`log
    {
      && DistinctIds(asgs)
      && (forall a :: a in asgs ==> a.id in desired)
      && (forall p :: p in owner ==> owner[p] in asgs)
      && tainted == TaintsOf(initiallyTainted, log)
    }

    constructor (asgs: seq<Asg>, owner: map<string, Asg>, desired: Targets, tainted: set<string>)
      requires DistinctIds(asgs)
      requires forall a :: a in asgs ==> a.id in desired
      requires forall p :: p in owner ==> owner[p] in asgs
      ensures Valid() && this.asgs == asgs && this.owner == owner && this.desired == desired
      ensures this.tainted == tainted && log == Nothing && faults == Faults(0, 0, 0)
    {
      this.asgs, this.owner, this.desired, this.tainted := asgs, owner, desired, tainted;
      initiallyTainted, log, faults := tainted, Nothing, Faults(0, 0, 0);
    }

    function OwnerOf(node: Node): Option<Asg> {
      if node.providerId in owner then Some(owner[node.providerId]) else None
    }

    predicate SameOwner(nodes: seq<Node>) {
      forall i, j :: 0 <= i < |nodes| && 0 <= j < |nodes| ==> OwnerOf(nodes[i]) == OwnerOf(nodes[j])
    }

    lemma OneGroup(asg: Asg, nodes: seq<Node>)
      requires AllOwned(owner, nodes, asg)
      ensures SameOwner(nodes)
    {
      forall i | 0 <= i < |nodes| ensures OwnerOf(nodes[i]) == Some(asg) {
        assert nodes[i] in nodes;
      }
    }

    // ----- The calls to the cloud and to Kubernetes -----

    /** Notes that a node is taken up; nothing happens yet. */
    ghost method Announce(asg: Asg, node: Node)
      requires Valid()
      modifies this`log
      ensures Valid() && log == Then(old(log), Attempted(asg.id, node))
    {
      log := Then(log, Attempted(asg.id, node));
    }

    /** Counts a failed call that is neither a read nor a lookup. */
    ghost method Fail()
      modifies this`faults
      ensures faults == old(faults).(others := old(faults.others) + 1)
    {
      faults := faults.(others := faults.others + 1);
    }

    /** Selects the pods that have to leave a node; that is refused or the node is unknown, or it succeeds. */
    method SelectPods(node: Node) returns (pods: Option<seq<Pod>>)
      requires Valid()
      modifies this`log, this`faults
      ensures Valid() && log == if pods.Some? then Then(old(log), Selected(node, pods.value)) else old(log)
      ensures faults == if pods.Some? then old(faults) else old(faults).(others := old(faults.others) + 1)
    {
      pods :| true;
      if pods.Some? {
        log := Then(log, Selected(node, pods.value));
      } else {
        Fail();
      }
    }

    /**
     The lookup fails, answers that the node is in no known group, or answers its group. Not to answer
     the group of a node that has one counts as a failure.
     */
    method NodeGroupForNode(node: Node) returns (ok: bool, asg: Option<Asg>)
      modifies this`faults
      ensures asg.Some? ==> ok && asg == OwnerOf(node)
      ensures faults == if ok && asg == OwnerOf(node) then old(faults) else old(faults).(misses := old(faults.misses) + 1)
    {
      var failed: bool, missed: bool := *, *;
      ok := !failed;
      asg := if failed || missed then None else OwnerOf(node);
      if !(ok && asg == OwnerOf(node)) {
        faults := faults.(misses := faults.misses + 1);
      }
    }

    method GetAsgSize(asg: Asg) returns (ok: bool, size: int)
      requires asg.id in desired
      modifies this`faults
      ensures size == ReadOf(desired[asg.id], ok)
      ensures faults == if ok then old(faults) else old(faults).(misreads := old(faults.misreads) + 1)
    {
      ok := *;
      size := if ok then desired[asg.id] else -1;
      if !ok {
        faults := faults.(misreads := faults.misreads + 1);
      }
    }

    method SetAsgSize(asg: Asg, size: int) returns (ok: bool)
      requires Valid() && asg in asgs
      modifies this`desired, this`log, this`faults
      ensures Valid()
      ensures desired == if ok then old(desired)[asg.id := size] else old(desired)
      ensures log == if ok then Then(old(log), Increased(asg.id, size - old(desired)[asg.id])) else old(log)
      ensures faults == if ok then old(faults) else old(faults).(others := old(faults.others) + 1)
    {
      ok := *;
      if ok {
        log := Then(log, Increased(asg.id, size - desired[asg.id]));
        desired := desired[asg.id := size];
      } else {
        Fail();
      }
    }

    /** Terminates one instance; the cloud may refuse. */
    method TerminateInstance(node: Node, decrement: bool) returns (ok: bool)
      requires Valid()
      modifies this`desired, this`log, this`faults
      ensures Valid()
      ensures ok ==> node.providerId in owner
      ensures desired == if ok && decrement
                         then old(desired)[owner[node.providerId].id := old(desired)[owner[node.providerId].id] - 1]
                         else old(desired)
      ensures log == if ok then Then(old(log), Terminated(owner[node.providerId].id, node, decrement)) else old(log)
      ensures faults == if ok then old(faults) else old(faults).(others := old(faults.others) + 1)
    {
      ok := *;
      if node.providerId !in owner {
        ok := false;
      }
      if ok {
        var id := owner[node.providerId].id;
        log := Then(log, Terminated(id, node, decrement));
        if decrement {
          desired := desired[id := desired[id] - 1];
        }
      } else {
        Fail();
      }
    }

    method MarkToBeDeleted(node: Node) returns (ok: bool)
      requires Valid()
      modifies this`tainted, this`log, this`faults
      ensures Valid()
      ensures tainted == if ok then old(tainted) + {node.name} else old(tainted)
      ensures log == if ok then Then(old(log), Tainted(node)) else old(log)
      ensures faults == if ok then old(faults) else old(faults).(others := old(faults.others) + 1)
    {
      ok := *;
      if ok {
        tainted, log := tainted + {node.name}, Then(log, Tainted(node));
      } else {
        Fail();
      }
    }

    method CleanToBeDeleted(node: Node) returns (ok: bool)
      requires Valid()
      modifies this`tainted, this`log, this`faults
      ensures Valid()
      ensures tainted == if ok then old(tainted) - {node.name} else old(tainted)
      ensures log == Then(old(log), Untainted(node, ok))
      ensures faults == if ok then old(faults) else old(faults).(others := old(faults.others) + 1)
    {
      ok := *;
      log := Then(log, Untainted(node, ok));
      if ok {
        tainted := tainted - {node.name};
      } else {
        Fail();
      }
    }

    /** Asks once for the eviction of a pod; a pod that is not there counts as evicted. */
    method AskEviction(pod: Pod) returns (ok: bool)
      requires Valid()
      modifies this`log, this`faults
      ensures Valid() && log == if ok then Then(old(log), Evicted(pod)) else old(log)
      ensures faults == if ok then old(faults) else old(faults).(others := old(faults.others) + 1)
    {
      var accepted: bool, notFound: bool := *, *;
      ok := accepted || notFound;
      if ok {
        log := Then(log, Evicted(pod));
      } else {
        Fail();
      }
    }

    /** Looks a pod up: it is there, it is not there, or that cannot be told. */
    method GetPod(pod: Pod) returns (found: bool, notFound: bool)
      requires Valid()
      modifies this`log, this`faults
      ensures Valid() && log == Then(old(log), Seen(pod, !found && notFound))
      ensures faults == if found || notFound then old(faults) else old(faults).(others := old(faults.others) + 1)
    {
      found, notFound := *, *;
      log := Then(log, Seen(pod, !found && notFound));
      if !found && !notFound {
        Fail();
      }
    }

    /** A wait ends without what was waited for. */
    ghost method TimeIsUp()
      modifies this`faults
      ensures faults == old(faults).(others := old(faults.others) + 1)
    {
      Fail();
    }

    /** Whether an answer arrives in time. */
    method InTime() returns (ok: bool)
      modifies this`faults
      ensures faults == if ok then old(faults) else old(faults).(others := old(faults.others) + 1)
    {
      ok := *;
      if !ok {
        Fail();
      }
    }

    // ----- The auto scaling groups -----

    /** Grows a group unless that would pass its maximum. */
    method AsgIncreaseSize(asg: Asg, delta: int) returns (ok: bool, ghost trace: Trace)
      requires Valid() && asg in asgs
      modifies this`desired, this`log, this`faults
      ensures Valid() && log == Extended(old(log), trace) && Transition(asgs, owner, old(desired), trace, desired)
      ensures NoFewer(old(faults), faults)
      ensures trace == if ok then [Increased(asg.id, delta)] else []
      ensures ok ==> 0 < delta && old(desired)[asg.id] + delta <= asg.maxSize
      ensures faults == old(faults) && 0 < delta && old(desired)[asg.id] + delta <= asg.maxSize ==> ok
    {
      trace, ok := [], false;
      EmptyTransition(asgs, owner, desired);
      if delta <= 0 {
        return;
      }
      var read, size := GetAsgSize(asg);
      if !read {
        return;
      }
      if size + delta > asg.maxSize {
        return;
      }
      ok := SetAsgSize(asg, size + delta);
      if ok {
        trace := [Increased(asg.id, delta)];
        ExtendedOne(old(log), trace[0]);
        IncreaseIsTransition(asgs, owner, old(desired), asg, delta);
      }
    }

    /**
     Terminates instances that must all be in one group: with decrement this is a deletion, without
     it the group replaces them (a restart). Stops at the first refusal.
     */
    method TerminateInstances(nodes: seq<Node>, decrement: bool) returns (ok: bool, ghost trace: Trace)
      requires Valid()
      modifies this`desired, this`log, this`faults
      ensures Valid() && log == Extended(old(log), trace) && ok == (|trace| == |nodes|)
      ensures Terminating(owner, nodes, decrement, trace)
      ensures Moved(old(desired), trace, desired)
      ensures NoFewer(old(faults), faults)
      ensures faults == old(faults) ==> (ok <==> SameOwner(nodes))
    {
      trace := [];
      if |nodes| == 0 {
        return true, trace;
      }
      var found, common := NodeGroupForNode(nodes[0]);
      if !found {
        return false, trace;
      }
      for n := 0 to |nodes|
        invariant Valid() && desired == old(desired) && log == old(log) && NoFewer(old(faults), faults)
        invariant faults == old(faults) ==>
                    common == OwnerOf(nodes[0]) && forall i :: 0 <= i < n ==> OwnerOf(nodes[i]) == common
      {
        var ok', asg := NodeGroupForNode(nodes[n]);
        if !ok' || asg != common {
          return false, trace;
        }
      }
      ok, trace := TerminateEach(nodes, decrement);
    }

    method TerminateEach(nodes: seq<Node>, decrement: bool) returns (ok: bool, ghost trace: Trace)
      requires Valid()
      modifies this`desired, this`log, this`faults
      ensures Valid() && log == Extended(old(log), trace) && ok == (|trace| == |nodes|)
      ensures Terminating(owner, nodes, decrement, trace)
      ensures Moved(old(desired), trace, desired)
      ensures NoFewer(old(faults), faults) && (ok <==> faults == old(faults))
    {
      trace := [];
      for n := 0 to |nodes|
        invariant Valid() && log == Extended(old(log), trace) && |trace| == n && faults == old(faults)
        invariant Terminating(owner, nodes, decrement, trace)
        invariant Moved(old(desired), trace, desired)
      {
        ghost var before := desired;
        var accepted := TerminateInstance(nodes[n], decrement);
        if !accepted {
          return false, trace;
        }
        ghost var e := Terminated(owner[nodes[n].providerId].id, nodes[n], decrement);
        OneMoreTerminated(owner, nodes, decrement, old(desired), trace, before, desired);
        ExtendedOneMore(old(log), trace, e);
        trace := trace + [e];
      }
      ok := true;
    }

    /** Whether the node is in the group; None when that cannot be told. */
    method Belongs(asg: Asg, node: Node) returns (belongs: Option<bool>)
      requires Valid() && asg in asgs
      modifies this`faults
      ensures belongs == Some(true) ==> OwnerOf(node) == Some(asg)
      ensures NoFewer(old(faults), faults)
      ensures faults == old(faults) ==>
                belongs == match OwnerOf(node) case Some(a) => Some(a == asg) case None => None
    {
      var ok, target := NodeGroupForNode(node);
      if !ok || target.None? {
        return None;
      }
      SameId(asgs, target.value, asg);
      belongs := Some(target.value.id == asg.id);
    }

    /**
     Deletes nodes of a group, or restarts them when the group is at its minimum. The minimum is
     compared once, before the first deletion.
     */
    method AsgDeleteNodes(asg: Asg, nodes: seq<Node>) returns (ok: bool, ghost trace: Trace)
      requires Valid() && asg in asgs
      modifies this`desired, this`log, this`faults
      ensures Valid() && log == Extended(old(log), trace) && Moved(old(desired), trace, desired)
      ensures (ok ==> |trace| == |nodes|) && |trace| <= |nodes| && (!ok && |nodes| <= 1 ==> trace == [])
      ensures Terminating(owner, nodes, old(desired)[asg.id] > asg.minSize, trace)
      ensures trace != [] ==> AllOwned(owner, nodes, asg)
      ensures ok && AllOwned(owner, nodes, asg) ==>
                desired[asg.id] == DeletedTogether(old(desired)[asg.id], asg.minSize, |nodes|)
      ensures NoFewer(old(faults), faults)
      ensures faults == old(faults) ==> (ok <==> AllOwned(owner, nodes, asg))
    {
      trace, ok := [], false;
      var read, size := GetAsgSize(asg);
      if !read {
        return;
      }
      for n := 0 to |nodes|
        invariant Valid() && desired == old(desired) && log == old(log) && AllOwned(owner, nodes[..n], asg)
        invariant NoFewer(old(faults), faults)
      {
        assert nodes[n] in nodes;
        var belongs := Belongs(asg, nodes[n]);
        if belongs != Some(true) {
          return;
        }
        assert nodes[..n + 1] == nodes[..n] + [nodes[n]];
      }
      assert nodes[..|nodes|] == nodes;
      OneGroup(asg, nodes);
      if size <= asg.minSize {
        ok, trace := TerminateInstances(nodes, false);
      } else {
        ok, trace := TerminateInstances(nodes, true);
      }
      NetInGroup(owner, asg, nodes, size > asg.minSize, trace);
    }

    // ----- Deleting one node -----

    /** Looks up the node's group and deletes or restarts it there. */
    method DeleteNodeFromCloudProvider(node: Node) returns (ok: bool, ghost trace: Trace)
      requires Valid()
      modifies this`desired, this`log, this`faults
      ensures Valid() && log == Extended(old(log), trace) && Moved(old(desired), trace, desired)
      ensures ok ==> node.providerId in owner &&
                     var asg := owner[node.providerId];
                     trace == [Terminated(asg.id, node, old(desired)[asg.id] > asg.minSize)]
      ensures !ok ==> trace == [] && desired == old(desired)
      ensures NoFewer(old(faults), faults)
      ensures faults == old(faults) ==> (ok <==> node.providerId in owner)
    {
      trace := [];
      var found, asg := NodeGroupForNode(node);
      if !found || asg.None? {
        return false, trace;
      }
      ok, trace := AsgDeleteNodes(asg.value, [node]);
      if ok {
        assert trace == [trace[0]];
      }
    }

    /** Asks for the eviction of a pod, at least once and again until it is accepted or the time is up. */
    method EvictPod(pod: Pod) returns (ok: bool)
      requires Valid()
      modifies this`log, this`faults
      ensures Valid() && log == if ok then Then(old(log), Evicted(pod)) else old(log)
      ensures NoFewer(old(faults), faults) && (!ok ==> faults != old(faults))
    {
      var attempts :| attempts >= 1;
      for n := 0 to attempts
        invariant Valid() && log == old(log)
        invariant NoFewer(old(faults), faults) && (n > 0 ==> faults != old(faults))
      {
        var accepted := AskEviction(pod);
        if accepted {
          return true;
        }
      }
      ok := false;
    }

    /** Evicts all pods, in any order; waiting for an answer may time out. */
    method EvictPods(pods: seq<Pod>) returns (ok: bool, ghost trace: Trace)
      requires Valid()
      modifies this`log, this`faults
      ensures Valid() && log == Extended(old(log), trace) && Draining(pods, trace)
      ensures ok ==> forall p :: p in pods ==> EvictedIn(trace, p)
      ensures NoFewer(old(faults), faults) && (!ok ==> faults != old(faults))
    {
      trace := [];
      var evictionErrors := 0;
      var todo := Indices(pods);
      while todo != {}
        invariant Valid() && log == Extended(old(log), trace) && Draining(pods, trace)
        invariant todo <= Indices(pods)
        invariant evictionErrors == 0 ==> forall i :: 0 <= i < |pods| && i !in todo ==> EvictedIn(trace, pods[i])
        invariant evictionErrors >= 0 && NoFewer(old(faults), faults) && (evictionErrors > 0 ==> faults != old(faults))
        decreases todo
      {
        var i :| i in todo;
        var answered := InTime();
        if !answered {
          return false, trace;
        }
        var evicted := EvictPod(pods[i]);
        if evicted {
          ExtendedOneMore(old(log), trace, Evicted(pods[i]));
          OneMoreEvicted(trace, pods[i]);
          trace := trace + [Evicted(pods[i])];
        } else {
          evictionErrors := evictionErrors + 1;
        }
        todo := todo - {i};
      }
      ok := evictionErrors == 0;
    }

    /** Evicts the pods and polls until one round has seen all of them gone or the time is up. */
    method DrainNode(pods: seq<Pod>) returns (ok: bool, ghost trace: Trace)
      requires Valid()
      modifies this`log, this`faults
      ensures Valid() && log == Extended(old(log), trace)
      ensures Draining(pods, trace) && (ok ==> Drains(pods, trace))
      ensures NoFewer(old(faults), faults) && (!ok ==> faults != old(faults))
    {
      ok, trace := EvictPods(pods);
      if !ok {
        return;
      }
      ghost var evictions := trace;
      var rounds :| rounds >= 0;
      for r := 0 to rounds
        invariant Valid() && log == Extended(old(log), trace) && NoFewer(old(faults), faults)
        invariant Draining(pods, trace) && evictions <= trace
      {
        var allGone, seen := PollPods(pods);
        ExtendedAppend(old(log), trace, seen);
        if allGone {
          PolledToTheEnd(pods, evictions, trace, seen);
          trace := trace + seen;
          return;
        }
        trace := trace + seen;
      }
      ok := false;
      TimeIsUp();
    }

    /** One round of polls; it ends early at a pod that is still there. */
    method PollPods(pods: seq<Pod>) returns (allGone: bool, ghost seen: Trace)
      requires Valid()
      modifies this`log, this`faults
      ensures Valid() && log == Extended(old(log), seen) && NoFewer(old(faults), faults)
      ensures Draining(pods, seen)
      ensures allGone ==> seen == AllGone(pods)
      ensures !allGone && faults == old(faults) ==> exists p :: p in pods && Seen(p, false) in seen
    {
      allGone, seen := true, [];
      for n := 0 to |pods|
        invariant Valid() && log == Extended(old(log), seen) && NoFewer(old(faults), faults)
        invariant Draining(pods, seen)
        invariant allGone ==> seen == AllGone(pods[..n])
        invariant !allGone ==> faults != old(faults)
      {
        var found, notFound := GetPod(pods[n]);
        ExtendedOneMore(old(log), seen, Seen(pods[n], !found && notFound));
        seen := seen + [Seen(pods[n], !found && notFound)];
        if found {
          allGone := false;
          assert seen[|seen| - 1] == Seen(pods[n], false);
          break;
        }
        if !notFound {
          allGone := false;
        }
      }
      assert pods[..|pods|] == pods;
    }

    /**
     Taint, drain, terminate; a failure after the taint attempts to remove it. Together with the
     selection of the pods before it, this is a safe deletion of one node.
     */
    method DeleteNode(node: Node, pods: seq<Pod>) returns (ok: bool, ghost trace: Trace)
      requires Valid()
      modifies this`desired, this`tainted, this`log, this`faults
      ensures Valid() && log == Extended(old(log), trace)
      ensures Transition(asgs, owner, old(desired), [Selected(node, pods)] + trace, desired)
      ensures SingleDeletion(owner, node, old(desired), ok, [Selected(node, pods)] + trace)
      ensures ok ==> node.name in tainted
      ensures !ok ==> trace == [] || trace[|trace| - 1] == Untainted(node, node.name !in tainted)
      ensures NoFewer(old(faults), faults)
      ensures faults == old(faults) ==> (ok <==> node.providerId in owner)
    {
      trace, ok := [], false;
      var marked := MarkToBeDeleted(node);
      if !marked {
        RefusedDeletion(asgs, owner, desired, node, pods);
        return;
      }
      var drained, drain := DrainNode(pods);
      trace := [Tainted(node)] + drain;
      ExtendedOne(old(log), Tainted(node));
      ExtendedAppend(old(log), [Tainted(node)], drain);
      ghost var end: Event;
      if drained {
        ghost var cloud;
        ok, cloud := DeleteNodeFromCloudProvider(node);
        if ok {
          end := cloud[0];
          ExtendedAppend(old(log), trace, cloud);
          EndedDeletion(asgs, owner, old(desired), desired, node, pods, drain, end);
          trace := trace + cloud;
          return;
        }
      }
      var cleaned := CleanToBeDeleted(node);
      end := Untainted(node, cleaned);
      ExtendedOneMore(old(log), trace, end);
      EndedDeletion(asgs, owner, old(desired), desired, node, pods, drain, end);
      trace := trace + [end];
    }

    // ----- Repairing a group -----

    /**
     Deletes the nodes of a batch one by one. A node whose pods cannot be selected is skipped; the
     first deletion that fails ends the batch.
     */
    method DeleteNodes(asg: Asg, batch: seq<Node>) returns (ghost trace: Trace)
      requires Valid() && asg in asgs
      modifies this`desired, this`tainted, this`log, this`faults
      ensures Valid() && log == Extended(old(log), trace) && Transition(asgs, owner, old(desired), trace, desired)
      ensures NoFewer(old(faults), faults)
      ensures Deletion(owner, asg, batch, old(desired)[asg.id], faults == old(faults), trace)
      ensures batch == [] ==> trace == []
    {
      trace := [];
      EmptyTransition(asgs, owner, desired);
      for n := 0 to |batch|
        invariant Valid() && log == Extended(old(log), trace) && Transition(asgs, owner, old(desired), trace, desired)
        invariant NoFewer(old(faults), faults)
        invariant Deletion(owner, asg, batch[..n], old(desired)[asg.id], faults == old(faults), trace)
        invariant Attempts(trace) == batch[..n] && !GivesUp(trace) && (n == 0 ==> trace == [])
      {
        ghost var s, f := trace, faults;
        var ok;
        ok, trace := DeleteNext(asg, batch, n, old(desired), f == old(faults), s);
        ExtendedAppend(old(log), s, trace[|s|..]);
        assert trace == s + trace[|s|..];
        if ok == Some(false) {
          assert batch[n] in batch;
          PartialDeletion(owner, asg, batch, n + 1, old(desired)[asg.id], faults == old(faults), trace);
          return;
        }
      }
      assert batch[..|batch|] == batch;
    }

    /** Continues the deletion of a batch from a group at `start`, of which the first n nodes have been taken up. */
    method DeleteNext(asg: Asg, batch: seq<Node>, n: nat, ghost start: Targets, ghost c: bool, ghost s: Trace)
      returns (ok: Option<bool>, ghost trace: Trace)
      requires Valid() && asg in asgs && n < |batch| && asg.id in start && Transition(asgs, owner, start, s, desired)
      requires Deletion(owner, asg, batch[..n], start[asg.id], c, s) && Attempts(s) == batch[..n] && !GivesUp(s)
      modifies this`desired, this`tainted, this`log, this`faults
      ensures Valid() && s <= trace && log == Extended(old(log), trace[|s|..]) && Transition(asgs, owner, start, trace, desired)
      ensures NoFewer(old(faults), faults)
      ensures Deletion(owner, asg, batch[..n + 1], start[asg.id], c && faults == old(faults), trace)
      ensures Attempts(trace) == batch[..n + 1] && (GivesUp(trace) <==> ok == Some(false))
      ensures faults == old(faults) ==> ok == Some(batch[n].providerId in owner)
    {
      ghost var d, t := desired, [];
      ok, t := AttemptNode(asg, batch[n]);
      NextNode(asgs, owner, asg, batch, n, start, c, s, d, faults == old(faults), t, desired);
      trace := s + t;
    }

    /** Takes up one node: None when its pods cannot be selected, else whether it was deleted. */
    method AttemptNode(asg: Asg, node: Node) returns (ok: Option<bool>, ghost trace: Trace)
      requires Valid() && asg in asgs
      modifies this`desired, this`tainted, this`log, this`faults
      ensures Valid() && log == Extended(old(log), trace) && Transition(asgs, owner, old(desired), trace, desired)
      ensures NoFewer(old(faults), faults)
      ensures Attempts(trace) == [node] && Terminations(trace) == (if ok == Some(true) then [node] else [])
      ensures ok == None ==> trace == [Attempted(asg.id, node)]
      ensures GivesUp(trace) <==> ok == Some(false)
      ensures faults == old(faults) ==> ok == Some(node.providerId in owner)
      ensures Deletion(owner, asg, [node], old(desired)[asg.id], faults == old(faults), trace)
    {
      ghost var start := [Attempted(asg.id, node)];
      Announce(asg, node);
      ExtendedOne(old(log), start[0]);
      PlainIsSafe(owner, start);
      QuietTransition(asgs, owner, desired, start);
      var pods := SelectPods(node);
      if pods.None? {
        NothingDeleted(owner, node, desired);
        StartedDeletion(owner, asg, node, desired, false, false, []);
        assert start + [] == start;
        return None, start;
      }
      var deleted, rest := DeleteNode(node, pods.value);
      ghost var t := [Selected(node, pods.value)] + rest;
      TransitionAppend(asgs, owner, old(desired), start, old(desired), t, desired);
      StartedDeletion(owner, asg, node, old(desired), deleted, faults == old(faults), t);
      SelectedThen(old(log), start[0], t[0], rest);
      return Some(deleted), start + t;
    }

    /** Grows the group; waiting for the new nodes to become ready changes nothing here. */
    method IncreaseSize(asg: Asg, incSize: int) returns (ghost trace: Trace)
      requires Valid() && asg in asgs
      modifies this`desired, this`log, this`faults
      ensures Valid() && log == Extended(old(log), trace) && Transition(asgs, owner, old(desired), trace, desired)
      ensures NoFewer(old(faults), faults)
      ensures Growth(asg, incSize, old(desired)[asg.id], faults == old(faults), trace)
      ensures incSize <= 0 ==> trace == []
    {
      var ok, t := AsgIncreaseSize(asg, incSize);
      trace := t;
    }

    /**
     One round of a repair: grow first where there is room, delete first at the maximum. The target is
     read twice, and errors are ignored. A round that takes no node does nothing.
     */
    method RepairBatch(asg: Asg, nodes: seq<Node>) returns (incSize: int, ghost ok1: bool, ghost ok2: bool, ghost trace: Trace)
      requires Valid() && asg in asgs && nodes != []
      modifies this`desired, this`tainted, this`log, this`faults
      ensures Valid() && log == Extended(old(log), trace) && Transition(asgs, owner, old(desired), trace, desired)
      ensures NoFewer(old(faults), faults) && (faults.misreads == old(faults.misreads) ==> ok1 && ok2)
      ensures incSize == BatchSize(ReadOf(old(desired)[asg.id], ok1), ReadOf(old(desired)[asg.id], ok2), asg.maxSize, |nodes|)
      ensures 1 <= incSize <==> ReadOf(old(desired)[asg.id], ok1) >= asg.maxSize || ReadOf(old(desired)[asg.id], ok2) < asg.maxSize
      ensures incSize <= |nodes| && (ok1 && ok2 ==> 1 <= incSize)
      ensures incSize <= 0 ==> trace == [] && desired == old(desired)
      ensures incSize > 0 ==> TakesUp(nodes[..incSize], trace)
      ensures Repairing(owner, asg, nodes[..Max(0, incSize)], old(desired)[asg.id], faults == old(faults), trace)
    {
      var read1, desiredSize := GetAsgSize(asg);
      ok1, ok2, incSize := read1, true, 1;
      if desiredSize >= asg.maxSize {
        trace := DeleteThenIncrease(asg, nodes[0], read1);
        assert nodes[..1] == [nodes[0]];
      } else {
        incSize, ok2, trace := ExpandAndDelete(asg, nodes, read1);
      }
      BatchMakesProgress(desiredSize, ReadOf(old(desired)[asg.id], ok2), asg.maxSize, |nodes|);
    }

    /** Reads the target again and replaces as many nodes as fit; a negative number is a crash. */
    method ExpandAndDelete(asg: Asg, nodes: seq<Node>, ghost roomy: bool) returns (incSize: int, ghost ok: bool, ghost trace: Trace)
      requires Valid() && asg in asgs && nodes != [] && (roomy ==> desired[asg.id] < asg.maxSize)
      modifies this`desired, this`tainted, this`log, this`faults
      ensures Valid() && log == Extended(old(log), trace) && Transition(asgs, owner, old(desired), trace, desired)
      ensures NoFewer(old(faults), faults) && (faults.misreads == old(faults.misreads) ==> ok)
      ensures incSize == ExpandSize(ReadOf(old(desired)[asg.id], ok), asg.maxSize, |nodes|) <= |nodes|
      ensures incSize <= 0 ==> trace == [] && desired == old(desired)
      ensures incSize > 0 ==> TakesUp(nodes[..incSize], trace)
      ensures Repairing(owner, asg, nodes[..Max(0, incSize)], old(desired)[asg.id], roomy && faults == old(faults), trace)
    {
      var read, size := GetAsgSize(asg);
      ok, incSize := read, ExpandSize(size, asg.maxSize, |nodes|);
      if incSize < 0 {
        trace := [];
        EmptyTransition(asgs, owner, desired);
        RepairNotBegun(owner, asg, [], desired[asg.id]);
        return;
      }
      trace := IncreaseThenDelete(asg, nodes[..incSize], roomy && read);
    }

    /** The round of a full group; `full` says that it is known to be full. */
    method DeleteThenIncrease(asg: Asg, node: Node, ghost full: bool) returns (ghost trace: Trace)
      requires Valid() && asg in asgs && (full ==> asg.maxSize <= desired[asg.id])
      modifies this`desired, this`tainted, this`log, this`faults
      ensures Valid() && log == Extended(old(log), trace) && Transition(asgs, owner, old(desired), trace, desired)
      ensures NoFewer(old(faults), faults)
      ensures Repairing(owner, asg, [node], old(desired)[asg.id], full && faults == old(faults), trace)
      ensures TakesUp([node], trace)
    {
      ghost var s := DeleteNodes(asg, [node]);
      ghost var d, f := desired, faults;
      ghost var t := IncreaseSize(asg, 1);
      assert d[asg.id] == old(desired)[asg.id] + Net(s, asg.id);
      DeleteThenGrow(owner, asg, node, old(desired)[asg.id], full, f == old(faults), s, faults == f, t);
      TransitionAppend(asgs, owner, old(desired), s, d, t, desired);
      ExtendedAppend(old(log), s, t);
      trace := s + t;
    }

    /** The round of a group with room; `fits` says that the batch is known to fit. */
    method IncreaseThenDelete(asg: Asg, batch: seq<Node>, ghost fits: bool) returns (ghost trace: Trace)
      requires Valid() && asg in asgs && (fits ==> 0 < |batch| && desired[asg.id] + |batch| <= asg.maxSize)
      modifies this`desired, this`tainted, this`log, this`faults
      ensures Valid() && log == Extended(old(log), trace) && Transition(asgs, owner, old(desired), trace, desired)
      ensures NoFewer(old(faults), faults)
      ensures Repairing(owner, asg, batch, old(desired)[asg.id], fits && faults == old(faults), trace)
      ensures if batch == [] then trace == [] else TakesUp(batch, trace)
    {
      ghost var s := IncreaseSize(asg, |batch|);
      ghost var d, f := desired, faults;
      ghost var t := DeleteNodes(asg, batch);
      assert d[asg.id] == old(desired)[asg.id] + Net(s, asg.id);
      GrowThenDelete(owner, asg, batch, old(desired)[asg.id], fits, f == old(faults), s, faults == f, t);
      TransitionAppend(asgs, owner, old(desired), s, d, t, desired);
      ExtendedAppend(old(log), s, t);
      trace := s + t;
    }

    /**
     Rounds until one takes a node or crashes; a round that takes none is repeated with the same nodes.
     Zero means that no round so far has taken any, because the group is at its maximum.
     */
    method RepairUntilProgress(asg: Asg, nodes: seq<Node>) returns (incSize: int, ghost trace: Trace)
      requires Valid() && asg in asgs && nodes != []
      modifies this`desired, this`tainted, this`log, this`faults
      ensures Valid() && log == Extended(old(log), trace) && Transition(asgs, owner, old(desired), trace, desired)
      ensures NoFewer(old(faults), faults)
      ensures incSize <= |nodes|
      ensures incSize <= 0 ==> faults.misreads > old(faults.misreads) && trace == [] && desired == old(desired)
      ensures 0 <= asg.maxSize ==>
                && (incSize == 0 ==> old(desired)[asg.id] == asg.maxSize)
                && (incSize < 0 ==> old(desired)[asg.id] > asg.maxSize)
      ensures incSize > 0 ==> TakesUp(nodes[..incSize], trace)
      ensures Repairing(owner, asg, nodes[..Max(0, incSize)], old(desired)[asg.id], faults == old(faults), trace)
    {
      var rounds :| rounds >= 1;
      ghost var ok1, ok2;
      incSize, ok1, ok2, trace := RepairBatch(asg, nodes);
      for r := 1 to rounds
        invariant Valid() && log == Extended(old(log), trace) && Transition(asgs, owner, old(desired), trace, desired)
        invariant NoFewer(old(faults), faults)
        invariant incSize <= |nodes|
        invariant incSize <= 0 ==> faults.misreads > old(faults.misreads) && trace == [] && desired == old(desired) && log == old(log)
        invariant 0 <= asg.maxSize ==>
                    && (incSize == 0 ==> old(desired)[asg.id] == asg.maxSize)
                    && (incSize < 0 ==> old(desired)[asg.id] > asg.maxSize)
        invariant incSize > 0 ==> TakesUp(nodes[..incSize], trace)
        invariant Repairing(owner, asg, nodes[..Max(0, incSize)], old(desired)[asg.id], faults == old(faults), trace)
      {
        if incSize != 0 {
          return;
        }
        ghost var f := faults;
        incSize, ok1, ok2, trace := RepairBatch(asg, nodes);
        UncleanRepairing(owner, asg, nodes[..Max(0, incSize)], old(desired)[asg.id], faults == f, trace);
      }
    }

    /** Repairs the nodes of a group batch by batch. */
    method AsgRepairNodes(asg: Asg, nodes: seq<Node>) returns (end: Ending, ghost trace: Trace, ghost batches: seq<seq<Node>>)
      requires Valid() && asg in asgs
      modifies this`desired, this`tainted, this`log, this`faults
      ensures Valid() && log == Extended(old(log), trace) && Transition(asgs, owner, old(desired), trace, desired)
      ensures NoFewer(old(faults), faults)
      ensures Batchwise(owner, asg, nodes, old(desired)[asg.id], end == Finished, faults == old(faults), trace, batches)
      ensures faults.misreads == old(faults.misreads) ==> end == Finished
      ensures Within(asg, old(desired)) && 0 <= asg.maxSize ==> end != Crashed
      decreases |nodes|
    {
      if |nodes| == 0 {
        end, trace, batches := Finished, [], [];
        EmptyTransition(asgs, owner, desired);
        NothingRepaired(owner, asg, desired[asg.id]);
        return;
      }
      var incSize;
      ghost var s, t, rest;
      incSize, s := RepairUntilProgress(asg, nodes);
      if incSize <= 0 {
        end, trace, batches := if incSize < 0 then Crashed else Stuck, s, [];
        RepairNotBegun(owner, asg, nodes, old(desired)[asg.id]);
        return;
      }
      ghost var d, f := desired, faults;
      end, t, rest := AsgRepairNodes(asg, nodes[incSize..]);
      StaysWithin(asgs, owner, asg, old(desired), s, d);
      NextBatches(asgs, owner, asg, nodes, incSize, rest, end == Finished, old(desired), f == old(faults), s, d, faults == f, t, desired);
      ExtendedAppend(old(log), s, t);
      trace, batches := s + t, [nodes[..incSize]] + rest;
    }

    // ----- Repairing the cluster -----

    /** The nodes of the list that are in the group; none at all when a lookup fails. */
    method AsgNotReadyNodes(asg: Asg, nodes: seq<Node>) returns (members: seq<Node>)
      requires Valid()
      modifies this`faults
      ensures AllOwned(owner, members, asg)
      ensures multiset(members) <= multiset(MembersOf(owner, nodes, asg))
      ensures NoFewer(old(faults), faults)
      ensures faults.misses == old(faults.misses) ==> members == MembersOf(owner, nodes, asg)
    {
      members := [];
      for n := 0 to |nodes|
        invariant AllOwned(owner, members, asg) && NoFewer(old(faults), faults)
        invariant multiset(members) <= multiset(MembersOf(owner, nodes[..n], asg))
        invariant faults.misses == old(faults.misses) ==> members == MembersOf(owner, nodes[..n], asg)
      {
        var ok, found := NodeGroupForNode(nodes[n]);
        if !ok {
          return [];
        }
        MembersStep(owner, nodes, n, asg, members, found == Some(asg));
        if found == Some(asg) {
          members := members + [nodes[n]];
        }
      }
      assert nodes[..|nodes|] == nodes;
    }

    /** Repairs the members of one group that are found. */
    method RepairGroup(asg: Asg, nodes: seq<Node>) returns (members: seq<Node>, end: Ending, ghost trace: Trace)
      requires Valid() && asg in asgs
      modifies this`desired, this`tainted, this`log, this`faults
      ensures Valid() && log == Extended(old(log), trace) && Transition(asgs, owner, old(desired), trace, desired)
      ensures NoFewer(old(faults), faults)
      ensures AllOwned(owner, members, asg) && multiset(members) <= multiset(MembersOf(owner, nodes, asg))
      ensures faults.misses == old(faults.misses) ==> members == MembersOf(owner, nodes, asg)
      ensures Repairing(owner, asg, members, old(desired)[asg.id], faults == old(faults), trace)
      ensures end == Finished ==> Visited(owner, asg, nodes, faults.misses == old(faults.misses), trace)
      ensures faults.misreads == old(faults.misreads) ==> end == Finished
      ensures Within(asg, old(desired)) && 0 <= asg.maxSize ==> end != Crashed
    {
      members := AsgNotReadyNodes(asg, nodes);
      ghost var f, batches := faults, [];
      end, trace, batches := AsgRepairNodes(asg, members);
      if faults != old(faults) {
        UncleanRepairing(owner, asg, members, old(desired)[asg.id], faults == f, trace);
      }
      if end == Finished {
        VisitedWith(owner, asg, nodes, faults.misses == old(faults.misses), trace, members, old(desired)[asg.id], faults == f, batches);
      }
    }

    /** Continues a pass that started at the targets `start` and has repaired the first n groups. */
    method RepairNext(n: nat, nodes: seq<Node>, ghost start: Targets, ghost c: bool, ghost found: bool, ghost s: Trace)
      returns (end: Ending, ghost trace: Trace)
      requires Valid() && n < |asgs| && Transition(asgs, owner, start, s, desired)
      requires Pass(asgs, owner, Plan(owner, asgs[..n], nodes), start, c, s)
      requires AllVisited(owner, asgs[..n], nodes, found, s)
      modifies this`desired, this`tainted, this`log, this`faults
      ensures Valid() && s <= trace && log == Extended(old(log), trace[|s|..]) && Transition(asgs, owner, start, trace, desired)
      ensures NoFewer(old(faults), faults)
      ensures Pass(asgs, owner, Plan(owner, asgs[..n + 1], nodes), start, c && faults == old(faults), trace)
      ensures end == Finished ==>
                AllVisited(owner, asgs[..n + 1], nodes, found && faults.misses == old(faults.misses), trace)
      ensures faults.misreads == old(faults.misreads) ==> end == Finished
      ensures Sane(asgs, start) ==> end != Crashed
    {
      ghost var d, t := desired, [];
      var members;
      members, end, t := RepairGroup(asgs[n], nodes);
      NextGroup(asgs, owner, nodes, n, members, start, c, s, d, faults == old(faults), t, desired);
      StaysWithin(asgs, owner, asgs[n], start, s, d);
      if end == Finished {
        OneMoreVisited(owner, asgs, n, nodes, found, s, faults.misses == old(faults.misses), t);
      }
      trace := s + t;
    }

    /** Repairs group after group, unless one of the repairs does not finish. */
    method RepairNodes(nodes: seq<Node>) returns (end: Ending, ghost trace: Trace)
      requires Valid()
      modifies this`desired, this`tainted, this`log, this`faults
      ensures Valid() && log == Extended(old(log), trace) && Transition(asgs, owner, old(desired), trace, desired)
      ensures NoFewer(old(faults), faults)
      ensures Pass(asgs, owner, Plan(owner, asgs, nodes), old(desired), faults == old(faults), trace)
      ensures end == Finished ==> AllVisited(owner, asgs, nodes, faults.misses == old(faults.misses), trace)
      ensures faults.misreads == old(faults.misreads) ==> end == Finished
      ensures Sane(asgs, old(desired)) ==> end != Crashed
    {
      end, trace := Finished, [];
      EmptyTransition(asgs, owner, desired);
      for n := 0 to |asgs|
        invariant Valid() && log == Extended(old(log), trace) && Transition(asgs, owner, old(desired), trace, desired)
        invariant NoFewer(old(faults), faults) && end == Finished
        invariant Pass(asgs, owner, Plan(owner, asgs[..n], nodes), old(desired), faults == old(faults), trace)
        invariant AllVisited(owner, asgs[..n], nodes, faults.misses == old(faults.misses), trace)
      {
        ghost var s, f := trace, faults;
        end, trace := RepairNext(n, nodes, old(desired), f == old(faults), f.misses == old(faults.misses), s);
        ExtendedAppend(old(log), s, trace[|s|..]);
        assert trace == s + trace[|s|..];
        if end != Finished {
          PartialPass(asgs, owner, nodes, n + 1, old(desired), faults == old(faults), trace);
          return;
        }
      }
      assert asgs[..|asgs|] == asgs;
    }

    /**
     One pass: sample the NotReady nodes twice and repair those that stayed NotReady. A node that is
     newly tainted afterwards was terminated, or its taint could not be removed.
     */
    method RunOnce(notReady: seq<Node>, stillNotReady: seq<Node>) returns (end: Ending, ghost trace: Trace)
      requires Valid()
      modifies this`desired, this`tainted, this`log, this`faults
      ensures Valid() && log == Extended(old(log), trace) && Transition(asgs, owner, old(desired), trace, desired)
      ensures NoFewer(old(faults), faults) && Events(log) == old(Events(log)) + trace
      ensures Pass(asgs, owner, Plan(owner, asgs, Common(notReady, stillNotReady)), old(desired), faults == old(faults), trace)
      ensures end == Finished ==>
                AllVisited(owner, asgs, Common(notReady, stillNotReady), faults.misses == old(faults.misses), trace)
      ensures faults.misreads == old(faults.misreads) ==> end == Finished
      ensures Sane(asgs, old(desired)) ==> end != Crashed
      ensures forall kind :: Confirmed(notReady, stillNotReady, NodesIn(trace, kind))
      ensures TaintsExplained(old(tainted), trace, tainted)
    {
      end, trace := Finished, [];
      NothingToDo(asgs, owner, desired);
      if |notReady| != 0 {
        var toBeRepaired := CommonNodes(notReady, stillNotReady);
        if |toBeRepaired| != 0 {
          end, trace := RepairNodes(toBeRepaired);
        }
      }
      PassIsConfirmed(asgs, owner, notReady, stillNotReady, old(desired), faults == old(faults), trace);
      EventsOfExtended(old(log), trace);
      TaintsAreExplained(owner, initiallyTainted, old(log), trace);
    }
  }

  lemma IncreaseIsTransition(asgs: seq<Asg>, owner: map<string, Asg>, d: Targets, asg: Asg, delta: int)
    requires asg in asgs && asg.id in d && 0 < delta && d[asg.id] + delta <= asg.maxSize
    requires DistinctIds(asgs)
    ensures Transition(asgs, owner, d, [Increased(asg.id, delta)], d[asg.id := d[asg.id] + delta])
  {
    var trace := [Increased(asg.id, delta)];
    forall id ensures Net(trace, id) == Delta(trace[0], id) {
      NetOne(trace[0], id);
    }
    PlainIsSafe(owner, trace);
    forall a | a in asgs && Within(a, d) ensures Stays(a.minSize, a.maxSize, d[a.id], trace, a.id) {
      SameId(asgs, a, asg);
      StaysOne(a.minSize, a.maxSize, d[a.id], trace[0], a.id);
    }
  }

  lemma SameId(asgs: seq<Asg>, a: Asg, b: Asg)
    requires a in asgs && b in asgs
    requires DistinctIds(asgs)
    ensures a.id == b.id ==> a == b
  {
    var i :| 0 <= i < |asgs| && asgs[i] == a;
    var j :| 0 <= j < |asgs| && asgs[j] == b;
    assert i < j || j < i || i == j;
  }

  /** Events that change nothing in the cloud. */
  lemma QuietTransition(asgs: seq<Asg>, owner: map<string, Asg>, d: Targets, trace: Trace)
    requires Quiet(trace) && Safe(owner, trace)
    ensures Transition(asgs, owner, d, trace, d)
  {
    forall id ensures Net(trace, id) == 0 {
      UntouchedStays(0, 0, 0, trace, id);
    }
    forall a | a in asgs && Within(a, d) ensures Stays(a.minSize, a.maxSize, d[a.id], trace, a.id) {
      UntouchedStays(a.minSize, a.maxSize, d[a.id], trace, a.id);
    }
  }

  /** A node whose taint was refused. */
  lemma RefusedDeletion(asgs: seq<Asg>, owner: map<string, Asg>, d: Targets, node: Node, pods: seq<Pod>)
    ensures Transition(asgs, owner, d, [Selected(node, pods)] + [], d)
    ensures SingleDeletion(owner, node, d, false, [Selected(node, pods)] + [])
  {
    var trace := [Selected(node, pods)];
    assert trace + [] == trace;
    PlainIsSafe(owner, trace);
    QuietTransition(asgs, owner, d, trace);
    NodesOne(trace[0], Attempt);
    NodesOne(trace[0], Termination);
    assert trace[1..] == [];
    forall other ensures OnlyOnce(trace, node, other) {
    }
  }

  lemma {:induction false} DrainIsAboutNoNode(pods: seq<Pod>, drain: Trace, kind: Kind, node: Node)
    requires Draining(pods, drain)
    ensures Count(drain, kind, node) == 0 && NodesIn(drain, kind) == []
  {
    if drain != [] {
      DrainIsAboutNoNode(pods, drain[1..], kind, node);
    }
  }

  /** A deletion is about its own node, selected and tainted once, and in the end untainted or terminated. */
  lemma DeletionIsAbout(node: Node, pods: seq<Pod>, drain: Trace, end: Event, kind: Kind, other: Node)
    requires Draining(pods, drain) && (end.Untainted? || end.Terminated?) && end.node == node
    ensures var trace, mine := DeletionTrace(node, pods, drain, end), kind == Selection || kind == Taint || IsA(end, kind);
            && Count(trace, kind, other) == (if mine && other == node then 1 else 0)
            && NodesIn(trace, kind) == (if mine then [node] else [])
  {
    var trace, rest := DeletionTrace(node, pods, drain, end), drain + [end];
    var tail := [Tainted(node)] + rest;
    assert trace[1..] == tail && tail[1..] == rest;
    assert trace[0] == Selected(node, pods) && tail[0] == Tainted(node);
    assert NodesIn(tail, kind) == if kind == Taint then [node] + NodesIn(rest, kind) else NodesIn(rest, kind);
    DrainIsAboutNoNode(pods, drain, kind, other);
    CountAppend(drain, [end], kind, other);
    NodesAppend(drain, [end], kind);
    NodesOne(end, kind);
    assert [end][1..] == [];
  }

  lemma DeletionResolves(node: Node, pods: seq<Pod>, drain: Trace, end: Event)
    requires Draining(pods, drain) && (end.Untainted? || end.Terminated?) && end.node == node
    ensures var trace := DeletionTrace(node, pods, drain, end);
            && Attempts(trace) == [] && Terminations(trace) == (if end.Terminated? then [node] else [])
            && OnlyAbout(trace, node)
            && GivesUpOnlyAtEnd(trace) && (GivesUp(trace) <==> end.Untainted?)
  {
    var trace := DeletionTrace(node, pods, drain, end);
    DeletionIsAbout(node, pods, drain, end, Attempt, node);
    DeletionIsAbout(node, pods, drain, end, Termination, node);
    forall other ensures OnlyOnce(trace, node, other) {
      DeletionIsAbout(node, pods, drain, end, Termination, other);
      DeletionIsAbout(node, pods, drain, end, Untaint, other);
      DeletionIsAbout(node, pods, drain, end, Taint, other);
      DeletionIsAbout(node, pods, drain, end, Selection, other);
    }
    forall i | 2 <= i < |trace| - 1 ensures trace[i] == drain[i - 2] {
    }
  }

  /** A deletion from its selection to its end, as one step of the groups and of the node. */
  lemma EndedDeletion(asgs: seq<Asg>, owner: map<string, Asg>, d: Targets, d': Targets, node: Node, pods: seq<Pod>, drain: Trace, end: Event)
    requires DistinctIds(asgs) && (forall p :: p in owner ==> owner[p] in asgs) && (forall a :: a in asgs ==> a.id in d)
    requires Draining(pods, drain) && Moved(d, [end], d')
    requires (end.Untainted? || end.Terminated?) && end.node == node
    requires end.Terminated? ==>
               && Drains(pods, drain) && node.providerId in owner
               && var asg := owner[node.providerId]; end == Terminated(asg.id, node, d[asg.id] > asg.minSize)
    ensures var trace := [Selected(node, pods)] + ([Tainted(node)] + drain + [end]);
            Transition(asgs, owner, d, trace, d') && SingleDeletion(owner, node, d, end.Terminated?, trace)
  {
    var quiet := [Selected(node, pods), Tainted(node)] + drain;
    assert [Selected(node, pods)] + ([Tainted(node)] + drain + [end]) == quiet + [end] == DeletionTrace(node, pods, drain, end);
    DeletionIsSafe(owner, node, pods, drain, end);
    DeletionResolves(node, pods, drain, end);
    QuietThen(asgs, d, quiet, end, d');
    if end.Terminated? {
      TerminationIsBounded(asgs, owner[node.providerId], d, quiet, end);
      TerminationShrinks(owner[node.providerId], d[owner[node.providerId].id], node, quiet, end);
    }
  }

  lemma QuietThen(asgs: seq<Asg>, d: Targets, quiet: Trace, end: Event, d': Targets)
    requires Quiet(quiet) && Moved(d, [end], d')
    ensures Moved(d, quiet + [end], d')
    ensures !end.Increased? && !end.Terminated? ==> Bounded(asgs, d, quiet + [end])
  {
    forall id ensures Net(quiet + [end], id) == Net([end], id) {
      UntouchedStays(0, 0, 0, quiet, id);
      NetAppend(quiet, [end], id);
    }
    if !end.Increased? && !end.Terminated? {
      QuietIsBounded(asgs, d, quiet + [end]);
    }
  }

  lemma QuietIsBounded(asgs: seq<Asg>, d: Targets, trace: Trace)
    requires Quiet(trace)
    ensures Bounded(asgs, d, trace)
  {
    forall a | a in asgs && Within(a, d) ensures Stays(a.minSize, a.maxSize, d[a.id], trace, a.id) {
      UntouchedStays(a.minSize, a.maxSize, d[a.id], trace, a.id);
    }
  }

  lemma TerminationShrinks(asg: Asg, target: int, node: Node, quiet: Trace, end: Event)
    requires Quiet(quiet) && end == Terminated(asg.id, node, target > asg.minSize)
    ensures Shrunk(asg, target, 1, quiet + [end])
  {
    var after := AfterDeletes(target, asg.minSize, 1);
    NetOne(end, asg.id);
    NetAppend(quiet, [end], asg.id);
    UntouchedStays(after, target, target, quiet, asg.id);
    StaysOne(after, target, target, end, asg.id);
    StaysAppend(after, target, target, quiet, [end], asg.id);
  }

  lemma TerminationIsBounded(asgs: seq<Asg>, asg: Asg, d: Targets, quiet: Trace, end: Event)
    requires DistinctIds(asgs) && asg in asgs && asg.id in d && Quiet(quiet)
    requires end.Terminated? && end.asg == asg.id && end.decremented == (d[asg.id] > asg.minSize)
    ensures Bounded(asgs, d, quiet + [end])
  {
    forall a | a in asgs && Within(a, d) ensures Stays(a.minSize, a.maxSize, d[a.id], quiet + [end], a.id) {
      SameId(asgs, a, asg);
      UntouchedStays(a.minSize, a.maxSize, d[a.id], quiet, a.id);
      StaysOne(a.minSize, a.maxSize, d[a.id], end, a.id);
      StaysAppend(a.minSize, a.maxSize, d[a.id], quiet, [end], a.id);
    }
  }
}
