/**
 What a repair run leaves behind: the sequence of accepted calls and of observations, and what such a
 sequence may look like.
 */
module RepairTrace {

  /** A node as Kubernetes lists it; the provider id names its cloud instance. */
  datatype Node = Node(name: string, providerId: string)

  type Pod = string

  /** An auto scaling group and the limits it was configured with. */
  datatype Asg = Asg(id: string, minSize: int, maxSize: int)

  datatype Event =
    /** An accepted change of the desired capacity. */
    | Increased(asg: string, amount: int)
    /** A node is taken up for deletion on behalf of a group. */
    | Attempted(asg: string, node: Node)
    /** The pods that have to leave the node were selected. */
    | Selected(node: Node, pods: seq<Pod>)
    | Tainted(node: Node)
    /** The eviction of a pod was accepted, or the pod was not there. */
    | Evicted(pod: Pod)
    /** A poll of one pod during the drain. */
    | Seen(pod: Pod, gone: bool)
    /** An accepted termination, with or without decrementing the desired capacity. */
    | Terminated(asg: string, node: Node, decremented: bool)
    /** An attempt to remove the taint, and whether that was done. */
    | Untainted(node: Node, done: bool)

  type Trace = seq<Event>

  // ----- Desired capacity along a trace -----

  function Delta(e: Event, id: string): int {
    match e
    case Increased(asg, amount) => if asg == id then amount else 0
    case Terminated(asg, _, decremented) => if asg == id && decremented then -1 else 0
    case _ => 0
  }

  /** Accepted increases minus decrementing terminations. */
  function Net(trace: Trace, id: string): int {
    if trace == [] then 0 else Delta(trace[0], id) + Net(trace[1..], id)
  }

  lemma {:induction false} NetAppend(s: Trace, t: Trace, id: string)
    ensures Net(s + t, id) == Net(s, id) + Net(t, id)
  {
    if s == [] {
      assert s + t == t;
    } else {
      NetAppend(s[1..], t, id);
      assert (s + t)[1..] == s[1..] + t;
    }
  }

  lemma NetOne(e: Event, id: string)
    ensures Net([e], id) == Delta(e, id)
  {
  }

  /** The target, started at `target`, is between lo and hi before and after every event of the trace. */
  ghost predicate Stays(lo: int, hi: int, target: int, trace: Trace, id: string)
    decreases trace
  {
    lo <= target <= hi && (trace != [] ==> Stays(lo, hi, target + Delta(trace[0], id), trace[1..], id))
  }

  lemma {:induction false} StaysIff(lo: int, hi: int, target: int, trace: Trace, id: string)
    ensures Stays(lo, hi, target, trace, id) <==> forall k :: 0 <= k <= |trace| ==> lo <= target + Net(trace[..k], id) <= hi
    decreases trace
  {
    assert trace[..0] == [];
    if trace != [] {
      var next, rest := target + Delta(trace[0], id), trace[1..];
      StaysIff(lo, hi, next, rest, id);
      forall k | 0 < k <= |trace| ensures target + Net(trace[..k], id) == next + Net(rest[..k - 1], id) {
        assert trace[..k][1..] == rest[..k - 1];
      }
      if Stays(lo, hi, target, trace, id) {
        forall k | 0 <= k <= |trace| ensures lo <= target + Net(trace[..k], id) <= hi {
          assert k == 0 || target + Net(trace[..k], id) == next + Net(rest[..k - 1], id);
        }
      }
      if forall k :: 0 <= k <= |trace| ==> lo <= target + Net(trace[..k], id) <= hi {
        forall k | 0 <= k <= |rest| ensures lo <= next + Net(rest[..k], id) <= hi {
          assert target + Net(trace[..k + 1], id) == next + Net(rest[..k], id);
        }
      }
    }
  }

  lemma {:induction false} StaysAppend(lo: int, hi: int, target: int, s: Trace, t: Trace, id: string)
    requires Stays(lo, hi, target, s, id) && Stays(lo, hi, target + Net(s, id), t, id)
    ensures Stays(lo, hi, target, s + t, id)
    decreases s
  {
    if s == [] {
      assert s + t == t;
    } else {
      StaysAppend(lo, hi, target + Delta(s[0], id), s[1..], t, id);
      assert (s + t)[1..] == s[1..] + t;
    }
  }

  lemma {:induction false} StaysWider(lo: int, hi: int, lo': int, hi': int, target: int, trace: Trace, id: string)
    requires Stays(lo, hi, target, trace, id) && lo' <= lo && hi <= hi'
    ensures Stays(lo', hi', target, trace, id)
    decreases trace
  {
    if trace != [] {
      StaysWider(lo, hi, lo', hi', target + Delta(trace[0], id), trace[1..], id);
    }
  }

  lemma StaysOne(lo: int, hi: int, target: int, e: Event, id: string)
    requires lo <= target <= hi && lo <= target + Delta(e, id) <= hi
    ensures Stays(lo, hi, target, [e], id)
  {
  }

  /** No event of the trace moves the target of this group. */
  predicate Untouched(trace: Trace, id: string) {
    forall i :: 0 <= i < |trace| ==> Delta(trace[i], id) == 0
  }

  lemma {:induction false} UntouchedStays(lo: int, hi: int, target: int, trace: Trace, id: string)
    requires Untouched(trace, id) && lo <= target <= hi
    ensures Stays(lo, hi, target, trace, id) && Net(trace, id) == 0
  {
    if trace != [] {
      UntouchedStays(lo, hi, target, trace[1..], id);
    }
  }

  /** A trace without accepted cloud calls. */
  predicate Quiet(trace: Trace) {
    forall i :: 0 <= i < |trace| ==> !trace[i].Increased? && !trace[i].Terminated?
  }

  /** Terminations in one group, all with or all without decrement. */
  lemma {:induction false} NetOfTerminations(trace: Trace, id: string, decremented: bool)
    requires forall i :: 0 <= i < |trace| ==>
               trace[i].Terminated? && trace[i].asg == id && trace[i].decremented == decremented
    ensures Net(trace, id) == if decremented then -|trace| else 0
  {
    if trace != [] {
      NetOfTerminations(trace[1..], id, decremented);
    }
  }

  // ----- Safe traces -----

  /** A log of evictions and polls of these pods. */
  predicate Draining(pods: seq<Pod>, log: Trace) {
    forall k :: 0 <= k < |log| ==> (log[k].Evicted? || log[k].Seen?) && log[k].pod in pods
  }

  predicate EvictedIn(log: Trace, pod: Pod) {
    exists k :: 0 <= k < |log| && log[k] == Evicted(pod)
  }

  /** A complete drain: the last polls have seen all pods gone, and before that each was evicted. */
  ghost predicate Drains(pods: seq<Pod>, log: Trace) {
    && Draining(pods, log) && |pods| <= |log|
    && (forall p :: p in pods ==> EvictedIn(log[..|log| - |pods|], p))
    && (forall k :: 0 <= k < |pods| ==> log[|log| - |pods| + k] == Seen(pods[k], true))
  }

  /** The event at j taints a node right after its pods were selected, and up to i follows only their drain. */
  ghost predicate UnderTaint(trace: Trace, i: nat, j: nat) {
    && 1 <= j < i <= |trace|
    && trace[j].Tainted? && trace[j - 1].Selected? && trace[j - 1].node == trace[j].node
    && Draining(trace[j - 1].pods, trace[j + 1..i])
  }

  /** The event at i is part of the drain of the node tainted at j. */
  ghost predicate DrainsAt(trace: Trace, i: nat, j: nat) {
    UnderTaint(trace, i + 1, j)
  }

  /** The event at i ends the deletion of the node tainted at j. */
  ghost predicate EndsAt(trace: Trace, i: nat, j: nat) {
    && i < |trace| && UnderTaint(trace, i, j)
    && (trace[i].Untainted? || trace[i].Terminated?) && trace[i].node == trace[j].node
    && (trace[i].Terminated? ==> Drains(trace[j - 1].pods, trace[j + 1..i]))
  }

  /**
   What may stand at i: a taint right after the selection and with an end; evictions and polls of the
   selected pods under that taint; the removal of the taint, or, after a complete drain, the
   termination of the node in its own group.
   */
  ghost predicate SafeAt(owner: map<string, Asg>, trace: Trace, i: nat)
    requires i < |trace|
  {
    match trace[i]
    case Tainted(_) => exists j: nat :: EndsAt(trace, j, i)
    case Evicted(_) => exists j: nat :: DrainsAt(trace, i, j)
    case Seen(_, _) => exists j: nat :: DrainsAt(trace, i, j)
    case Untainted(_, _) => exists j: nat :: EndsAt(trace, i, j)
    case Terminated(asg, node, _) =>
      && node.providerId in owner && owner[node.providerId].id == asg
      && exists j: nat :: EndsAt(trace, i, j)
    case _ => true
  }

  /** Every step of every deletion in the trace is in order. */
  ghost predicate Safe(owner: map<string, Asg>, trace: Trace) {
    forall i :: 0 <= i < |trace| ==> SafeAt(owner, trace, i)
  }

  lemma UnderTaintShifted(before: Trace, trace: Trace, after: Trace, i: nat, j: nat)
    requires UnderTaint(trace, i, j)
    ensures UnderTaint(before + trace + after, |before| + i, |before| + j)
  {
    var whole, n := before + trace + after, |before|;
    assert whole[n + j + 1..n + i] == trace[j + 1..i];
    assert whole[n + j] == trace[j] && whole[n + j - 1] == trace[j - 1];
  }

  lemma EndsAtShifted(before: Trace, trace: Trace, after: Trace, i: nat, j: nat)
    requires EndsAt(trace, i, j)
    ensures EndsAt(before + trace + after, |before| + i, |before| + j)
  {
    var whole, n := before + trace + after, |before|;
    UnderTaintShifted(before, trace, after, i, j);
    assert whole[n + i] == trace[i] && whole[n + j] == trace[j] && whole[n + j - 1] == trace[j - 1];
    assert whole[n + j + 1..n + i] == trace[j + 1..i];
  }

  lemma SafeAtShifted(owner: map<string, Asg>, before: Trace, trace: Trace, after: Trace, i: nat)
    requires i < |trace| && SafeAt(owner, trace, i)
    ensures SafeAt(owner, before + trace + after, |before| + i)
  {
    assert (before + trace + after)[|before| + i] == trace[i];
    match trace[i]
    case Tainted(_) =>
      var j: nat :| EndsAt(trace, j, i);
      EndsAtShifted(before, trace, after, j, i);
    case Evicted(_) =>
      var j: nat :| DrainsAt(trace, i, j);
      UnderTaintShifted(before, trace, after, i + 1, j);
      assert DrainsAt(before + trace + after, |before| + i, |before| + j);
    case Seen(_, _) =>
      var j: nat :| DrainsAt(trace, i, j);
      UnderTaintShifted(before, trace, after, i + 1, j);
      assert DrainsAt(before + trace + after, |before| + i, |before| + j);
    case Untainted(_, _) =>
      var j: nat :| EndsAt(trace, i, j);
      EndsAtShifted(before, trace, after, i, j);
    case Terminated(_, _, _) =>
      var j: nat :| EndsAt(trace, i, j);
      EndsAtShifted(before, trace, after, i, j);
    case _ =>
  }

  lemma SafeAppend(owner: map<string, Asg>, s: Trace, t: Trace)
    requires Safe(owner, s) && Safe(owner, t)
    ensures Safe(owner, s + t)
  {
    forall i | 0 <= i < |s + t| ensures SafeAt(owner, s + t, i) {
      if i < |s| {
        SafeAtShifted(owner, [], s, t, i);
        assert [] + s + t == s + t;
      } else {
        SafeAtShifted(owner, s, t, [], i - |s|);
        assert s + t + [] == s + t;
      }
    }
  }

  /** The trace of one deletion, from the selection of the pods to its end. */
  function DeletionTrace(node: Node, pods: seq<Pod>, drain: Trace, end: Event): Trace {
    [Selected(node, pods), Tainted(node)] + drain + [end]
  }

  lemma DrainIsSafe(node: Node, pods: seq<Pod>, drain: Trace, end: Event, i: nat)
    requires Draining(pods, drain) && 2 <= i <= |drain| + 2
    ensures UnderTaint(DeletionTrace(node, pods, drain, end), i, 1)
  {
    var trace := DeletionTrace(node, pods, drain, end);
    assert trace[2..i] == drain[..i - 2];
    assert trace[1] == Tainted(node) && trace[0] == Selected(node, pods);
  }

  /** A deletion that ends in a termination is safe after a complete drain, one that takes the taint back always is. */
  lemma DeletionIsSafe(owner: map<string, Asg>, node: Node, pods: seq<Pod>, drain: Trace, end: Event)
    requires Draining(pods, drain)
    requires (end.Untainted? || end.Terminated?) && end.node == node
    requires end.Terminated? ==> Drains(pods, drain) && node.providerId in owner && owner[node.providerId].id == end.asg
    ensures Safe(owner, DeletionTrace(node, pods, drain, end))
  {
    var trace := DeletionTrace(node, pods, drain, end);
    var n := |trace| - 1;
    DrainIsSafe(node, pods, drain, end, n);
    assert trace[2..n] == drain && trace[1] == Tainted(node) && trace[n] == end;
    assert EndsAt(trace, n, 1);
    forall i | 0 <= i < |trace| ensures SafeAt(owner, trace, i) {
      if 2 <= i < n {
        assert trace[i] == drain[i - 2];
        DrainIsSafe(node, pods, drain, end, i + 1);
        assert DrainsAt(trace, i, 1);
      }
    }
  }

  /** Events that belong to no drain. */
  predicate Plain(trace: Trace) {
    forall i :: 0 <= i < |trace| ==> trace[i].Increased? || trace[i].Attempted? || trace[i].Selected?
  }

  lemma PlainIsSafe(owner: map<string, Asg>, trace: Trace)
    requires Plain(trace)
    ensures Safe(owner, trace)
  {
  }

  // ----- Transitions of the desired capacities -----

  type Targets = map<string, int>

  predicate Within(a: Asg, targets: Targets) {
    a.id in targets && a.minSize <= targets[a.id] <= a.maxSize
  }

  /** The targets moved by exactly what the trace says. */
  ghost predicate Moved(d0: Targets, trace: Trace, d1: Targets) {
    d1.Keys == d0.Keys && forall id :: id in d0 ==> d1[id] == d0[id] + Net(trace, id)
  }

  /** Every group that was within its limits stayed there all along the trace. */
  ghost predicate Bounded(asgs: seq<Asg>, d0: Targets, trace: Trace) {
    forall a :: a in asgs && Within(a, d0) ==> Stays(a.minSize, a.maxSize, d0[a.id], trace, a.id)
  }

  lemma BoundedAppend(asgs: seq<Asg>, d0: Targets, s: Trace, d1: Targets, t: Trace)
    requires Bounded(asgs, d0, s) && Moved(d0, s, d1) && Bounded(asgs, d1, t)
    ensures Bounded(asgs, d0, s + t)
  {
    forall a | a in asgs && Within(a, d0) ensures Stays(a.minSize, a.maxSize, d0[a.id], s + t, a.id) {
      StaysEndsInside(a.minSize, a.maxSize, d0[a.id], s, a.id);
      StaysAppend(a.minSize, a.maxSize, d0[a.id], s, t, a.id);
    }
  }

  lemma {:induction false} StaysEndsInside(lo: int, hi: int, target: int, trace: Trace, id: string)
    requires Stays(lo, hi, target, trace, id)
    ensures lo <= target + Net(trace, id) <= hi
    decreases trace
  {
    if trace != [] {
      StaysEndsInside(lo, hi, target + Delta(trace[0], id), trace[1..], id);
    }
  }

  ghost predicate Transition(asgs: seq<Asg>, owner: map<string, Asg>, d0: Targets, trace: Trace, d1: Targets) {
    Moved(d0, trace, d1) && Bounded(asgs, d0, trace) && Safe(owner, trace)
  }

  lemma MovedAppend(d0: Targets, s: Trace, d1: Targets, t: Trace, d2: Targets)
    requires Moved(d0, s, d1) && Moved(d1, t, d2)
    ensures Moved(d0, s + t, d2)
  {
    forall id | id in d0 ensures d2[id] == d0[id] + Net(s + t, id) {
      NetAppend(s, t, id);
    }
  }

  lemma TransitionAppend(asgs: seq<Asg>, owner: map<string, Asg>, d0: Targets, s: Trace, d1: Targets, t: Trace, d2: Targets)
    requires Transition(asgs, owner, d0, s, d1) && Transition(asgs, owner, d1, t, d2)
    ensures Transition(asgs, owner, d0, s + t, d2)
  {
    SafeAppend(owner, s, t);
    MovedAppend(d0, s, d1, t, d2);
    BoundedAppend(asgs, d0, s, d1, t);
  }

  lemma EmptyTransition(asgs: seq<Asg>, owner: map<string, Asg>, d: Targets)
    ensures Transition(asgs, owner, d, [], d)
  {
  }

  // ----- Nodes of a trace -----

  /** The kinds of events that are about a node. */
  datatype Kind = Attempt | Selection | Taint | Untaint | Termination

  predicate IsA(e: Event, kind: Kind) {
    match kind
    case Attempt => e.Attempted?
    case Selection => e.Selected?
    case Taint => e.Tainted?
    case Untaint => e.Untainted?
    case Termination => e.Terminated?
  }

  /** The nodes of the events of one kind, in order. */
  function NodesIn(trace: Trace, kind: Kind): seq<Node> {
    if trace == [] then [] else
      var rest := NodesIn(trace[1..], kind);
      if IsA(trace[0], kind) then [trace[0].node] + rest else rest
  }

  function Attempts(trace: Trace): seq<Node> { NodesIn(trace, Attempt) }

  function Terminations(trace: Trace): seq<Node> { NodesIn(trace, Termination) }

  lemma {:induction false} NodesAppend(s: Trace, t: Trace, kind: Kind)
    ensures NodesIn(s + t, kind) == NodesIn(s, kind) + NodesIn(t, kind)
  {
    if s == [] {
      assert s + t == t;
    } else {
      NodesAppend(s[1..], t, kind);
      assert (s + t)[1..] == s[1..] + t && (s + t)[0] == s[0];
    }
  }

  lemma NodesOne(e: Event, kind: Kind)
    ensures NodesIn([e], kind) == if IsA(e, kind) then [e.node] else []
  {
  }

  lemma {:induction false} NodesNone(trace: Trace, kind: Kind)
    requires forall i :: 0 <= i < |trace| ==> !IsA(trace[i], kind)
    ensures NodesIn(trace, kind) == []
  {
    if trace != [] {
      NodesNone(trace[1..], kind);
    }
  }

  /** How often events of one kind are about a node. */
  function Count(trace: Trace, kind: Kind, node: Node): nat {
    if trace == [] then 0 else
      (if IsA(trace[0], kind) && trace[0].node == node then 1 else 0) + Count(trace[1..], kind, node)
  }

  lemma {:induction false} CountAppend(s: Trace, t: Trace, kind: Kind, node: Node)
    ensures Count(s + t, kind, node) == Count(s, kind, node) + Count(t, kind, node)
  {
    if s == [] {
      assert s + t == t;
    } else {
      CountAppend(s[1..], t, kind, node);
      assert (s + t)[1..] == s[1..] + t && (s + t)[0] == s[0];
    }
  }

  lemma {:induction false} CountIsMultiplicity(trace: Trace, kind: Kind, node: Node)
    ensures Count(trace, kind, node) == multiset(NodesIn(trace, kind))[node]
  {
    if trace != [] {
      CountIsMultiplicity(trace[1..], kind, node);
    }
  }

  /** Each taint of the node has one end, a termination or an attempt to remove it, and each follows a selection. */
  predicate ResolvedNode(trace: Trace, node: Node) {
    Count(trace, Termination, node) + Count(trace, Untaint, node) == Count(trace, Taint, node) <= Count(trace, Selection, node)
  }

  predicate AccountedNode(trace: Trace, node: Node) {
    ResolvedNode(trace, node) && Count(trace, Selection, node) <= Count(trace, Attempt, node)
  }

  /** Nothing happens to a node that is not taken up, and nothing more often than it is taken up. */
  ghost predicate Accounted(trace: Trace) {
    forall node :: AccountedNode(trace, node)
  }

  lemma AccountedAppend(s: Trace, t: Trace)
    requires Accounted(s) && Accounted(t)
    ensures Accounted(s + t)
  {
    forall node ensures AccountedNode(s + t, node) {
      assert AccountedNode(s, node) && AccountedNode(t, node);
      forall kind ensures Count(s + t, kind, node) == Count(s, kind, node) + Count(t, kind, node) {
        CountAppend(s, t, kind, node);
      }
    }
  }

  lemma AccountedFor(trace: Trace, kind: Kind)
    requires Accounted(trace)
    ensures multiset(NodesIn(trace, kind)) <= multiset(NodesIn(trace, Attempt))
  {
    forall node ensures multiset(NodesIn(trace, kind))[node] <= multiset(NodesIn(trace, Attempt))[node] {
      assert AccountedNode(trace, node);
      CountIsMultiplicity(trace, kind, node);
      CountIsMultiplicity(trace, Attempt, node);
    }
  }

  /** Nothing happens to any node but this one, and to this one at most once. */
  predicate OnlyOnce(trace: Trace, node: Node, other: Node) {
    ResolvedNode(trace, other) && Count(trace, Selection, other) <= if other == node then 1 else 0
  }

  ghost predicate OnlyAbout(trace: Trace, node: Node) {
    forall other :: OnlyOnce(trace, node, other)
  }

  /** A deletion is not completed at the end of the trace: the taint was refused, or taken back. */
  predicate GivesUp(trace: Trace) {
    trace != [] && (trace[|trace| - 1].Selected? || trace[|trace| - 1].Untainted?)
  }

  /** No deletion was given up before the end of the trace. */
  predicate GivesUpOnlyAtEnd(trace: Trace) {
    forall i :: 0 <= i < |trace| - 1 ==> !trace[i].Untainted? && (trace[i].Selected? ==> trace[i + 1].Tainted?)
  }

  lemma GivesUpOnlyAtEndAppend(s: Trace, t: Trace)
    requires GivesUpOnlyAtEnd(s) && !GivesUp(s) && GivesUpOnlyAtEnd(t)
    ensures GivesUpOnlyAtEnd(s + t)
    ensures GivesUp(s + t) <==> GivesUp(t)
  {
    var whole := s + t;
    forall i | 0 <= i < |whole| - 1 ensures !whole[i].Untainted? && (whole[i].Selected? ==> whole[i + 1].Tainted?) {
      if i >= |s| {
        assert whole[i] == t[i - |s|] && whole[i + 1] == t[i + 1 - |s|];
      } else if i == |s| - 1 {
        assert whole[i] == s[|s| - 1];
      }
    }
  }

  /** Every attempt is made on behalf of the group that owns the node. */
  predicate RightOwner(owner: map<string, Asg>, trace: Trace) {
    forall i :: 0 <= i < |trace| && trace[i].Attempted? ==>
      trace[i].node.providerId in owner && owner[trace[i].node.providerId].id == trace[i].asg
  }

  /** Every accepted cloud call of the trace is for this group. */
  predicate OnlyTouches(trace: Trace, id: string) {
    forall i :: 0 <= i < |trace| && (trace[i].Increased? || trace[i].Terminated?) ==> trace[i].asg == id
  }

  // ----- Taints -----

  function TaintsNext(tainted: set<string>, e: Event): set<string> {
    match e
    case Tainted(node) => tainted + {node.name}
    case Untainted(node, done) => if done then tainted - {node.name} else tainted
    case _ => tainted
  }

  /** The names of the tainted nodes after a trace. */
  function Taints(start: set<string>, trace: Trace): set<string>
    decreases trace
  {
    if trace == [] then start else Taints(TaintsNext(start, trace[0]), trace[1..])
  }

  /** A taint that is there was set at some point i, or before the trace, and not removed since. */
  lemma {:induction false} LastTaint(start: set<string>, trace: Trace, name: string) returns (i: int)
    requires name in Taints(start, trace)
    ensures -1 <= i < |trace|
    ensures if i == -1 then name in start else trace[i].Tainted? && trace[i].node.name == name
    ensures forall j :: i < j < |trace| && trace[j].Untainted? && trace[j].node.name == name ==> !trace[j].done
    decreases trace
  {
    i := -1;
    if trace != [] {
      var k := LastTaint(TaintsNext(start, trace[0]), trace[1..], name);
      if k >= 0 || (trace[0].Tainted? && trace[0].node.name == name) {
        i := k + 1;
      }
    }
  }

  /** An event that leaves a tainted node behind: it was terminated, or its taint could not be removed. */
  predicate LeavesTaint(e: Event, name: string) {
    || (e.Terminated? && e.node.name == name)
    || (e.Untainted? && !e.done && e.node.name == name)
  }

  /** After a safe trace only terminated nodes, and those whose taint could not be removed, are newly tainted. */
  lemma NoTaintForgotten(owner: map<string, Asg>, start: set<string>, trace: Trace, name: string)
    requires Safe(owner, trace)
    requires name in Taints(start, trace) && name !in start
    ensures exists j :: 0 <= j < |trace| && LeavesTaint(trace[j], name)
  {
    var i := LastTaint(start, trace, name);
    assert SafeAt(owner, trace, i);
    var j: nat :| EndsAt(trace, j, i);
    assert LeavesTaint(trace[j], name);
  }

  // ----- The log of a run -----

  /** Everything that has happened, the latest event outermost. */
  datatype Log = Nothing | Then(before: Log, last: Event)

  /** The log once a trace has happened as well. */
  function Extended(log: Log, trace: Trace): Log
    decreases trace
  {
    if trace == [] then log else Extended(Then(log, trace[0]), trace[1..])
  }

  lemma ExtendedOne(log: Log, e: Event)
    ensures Extended(log, [e]) == Then(log, e)
  {
  }

  lemma {:induction false} ExtendedAppend(log: Log, s: Trace, t: Trace)
    ensures Extended(Extended(log, s), t) == Extended(log, s + t)
    decreases s
  {
    if s == [] {
      assert s + t == t;
    } else {
      ExtendedAppend(Then(log, s[0]), s[1..], t);
      assert (s + t)[1..] == s[1..] + t;
    }
  }

  lemma ExtendedOneMore(log: Log, s: Trace, e: Event)
    ensures Then(Extended(log, s), e) == Extended(log, s + [e])
  {
    ExtendedAppend(log, s, [e]);
    ExtendedOne(Extended(log, s), e);
  }

  /** The events of a log, in order. */
  function Events(log: Log): Trace {
    if log.Nothing? then [] else Events(log.before) + [log.last]
  }

  /** The log has grown by exactly the trace, so the trace is what happened in between. */
  lemma {:induction false} EventsOfExtended(log: Log, trace: Trace)
    ensures Events(Extended(log, trace)) == Events(log) + trace
    decreases trace
  {
    if trace != [] {
      EventsOfExtended(Then(log, trace[0]), trace[1..]);
      assert Events(log) + [trace[0]] + trace[1..] == Events(log) + trace;
    }
  }

  /** The names of the tainted nodes, by the log. */
  function TaintsOf(start: set<string>, log: Log): set<string> {
    if log.Nothing? then start else TaintsNext(TaintsOf(start, log.before), log.last)
  }

  lemma {:induction false} TaintsOfExtended(start: set<string>, log: Log, trace: Trace)
    ensures TaintsOf(start, Extended(log, trace)) == Taints(TaintsOf(start, log), trace)
    decreases trace
  {
    if trace != [] {
      TaintsOfExtended(start, Then(log, trace[0]), trace[1..]);
    }
  }

  /** Of two lists, no node is taken more often than it is there. */
  lemma PartsAppend(a: seq<Node>, x: seq<Node>, b: seq<Node>, y: seq<Node>)
    requires multiset(a) <= multiset(x) && multiset(b) <= multiset(y)
    ensures multiset(a + b) <= multiset(x + y)
  {
    assert multiset(a + b) == multiset(a) + multiset(b);
    assert multiset(x + y) == multiset(x) + multiset(y);
  }
}
