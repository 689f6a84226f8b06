/**
 The cache from instances to auto scaling groups. A positive cache is replaced as a whole when it is
 regenerated; a negative cache of instances known to be in no managed group only grows.

 The reference is the direct lookup in the cloud's current membership.
 */
module AsgCache {
  import opened Wrappers
  import opened RepairTrace

  type Ref = string

  /** Which group each instance is in, by group id, as the cloud knows it. */
  type Members = map<Ref, string>

  /** The last registered group with this id. */
  function GroupNamed(registered: seq<Asg>, id: string): Option<Asg> {
    if registered == [] then None
    else if registered[|registered| - 1].id == id then Some(registered[|registered| - 1])
    else GroupNamed(registered[..|registered| - 1], id)
  }

  /** The direct lookup: the managed group an instance is in right now. */
  function Direct(registered: seq<Asg>, members: Members, i: Ref): Option<Asg> {
    if i in members then GroupNamed(registered, members[i]) else None
  }

  function Snapshot(registered: seq<Asg>, members: Members): map<Ref, Asg> {
    map i | i in members && Direct(registered, members, i).Some? :: Direct(registered, members, i).value
  }

  lemma {:induction false} NamedHasId(registered: seq<Asg>, id: string)
    ensures GroupNamed(registered, id).Some? ==> GroupNamed(registered, id).value.id == id
  {
    if registered != [] {
      NamedHasId(registered[..|registered| - 1], id);
    }
  }

  // ----- The cache as a value -----

  datatype Cache = Cache(registered: seq<Asg>, positive: map<Ref, Asg>, negative: set<Ref>)

  datatype Answer = Failed | Answer(asg: Option<Asg>)

  /** Whether a lookup has to ask the cloud. */
  predicate Misses(c: Cache, i: Ref) {
    i !in c.positive && i !in c.negative
  }

  function Answered(c: Cache, members: Members, i: Ref, apiOk: bool): Answer {
    if i in c.positive then Answer(Some(c.positive[i]))
    else if i in c.negative then Answer(None)
    else if apiOk then Answer(Direct(c.registered, members, i))
    else Failed
  }

  function Regenerated(c: Cache, members: Members): Cache {
    c.(positive := Snapshot(c.registered, members))
  }

  function LookedUp(c: Cache, members: Members, i: Ref, apiOk: bool): Cache {
    if !Misses(c, i) || !apiOk then c
    else
      var c' := Regenerated(c, members);
      if i in c'.positive then c' else c'.(negative := c.negative + {i})
  }

  /** The cache object. Each cloud answer is a nondeterministic choice, reported in `apiOk`. */
  class AutoScalingGroups {
    var registeredAsgs: seq<Asg>
    var instanceToAsg: map<Ref, Asg>
    var instancesNotInManagedAsg: set<Ref>

    function Value(): Cache
      reads this
    {
      Cache(registeredAsgs, instanceToAsg, instancesNotInManagedAsg)
    }

    constructor ()
      ensures Value() == Cache([], map[], {})
    {
      registeredAsgs, instanceToAsg, instancesNotInManagedAsg := [], map[], {};
    }

    method Register(asg: Asg)
      modifies this
      ensures Value() == old(Value()).(registered := old(registeredAsgs) + [asg])
    {
      registeredAsgs := registeredAsgs + [asg];
    }

    /** Asks the cloud about every registered group; the first failed query leaves the cache as it is. */
    method RegenerateCache(members: Members) returns (ok: bool)
      modifies this
      ensures Value() == if ok then Regenerated(old(Value()), members) else old(Value())
    {
      var newCache: map<Ref, Asg> := map[];
      for n := 0 to |registeredAsgs|
        invariant Value() == old(Value())
        invariant newCache == Snapshot(registeredAsgs[..n], members)
      {
        var failed: bool := *;
        if failed {
          return false;
        }
        var asg := registeredAsgs[n];
        newCache := AddInstances(newCache, asg, members);
        GroupsGrow(registeredAsgs, n, members);
      }
      assert registeredAsgs[..|registeredAsgs|] == registeredAsgs;
      instanceToAsg := newCache;
      ok := true;
    }

    method FindForInstance(instance: Ref, members: Members) returns (answer: Answer, ghost apiOk: bool)
      modifies this
      ensures answer == Answered(old(Value()), members, instance, apiOk)
      ensures Value() == LookedUp(old(Value()), members, instance, apiOk)
    {
      apiOk := true;
      if instance in instanceToAsg {
        return Answer(Some(instanceToAsg[instance])), apiOk;
      }
      if instance in instancesNotInManagedAsg {
        return Answer(None), apiOk;
      }
      var ok := RegenerateCache(members);
      apiOk := ok;
      if !ok {
        return Failed, apiOk;
      }
      if instance in instanceToAsg {
        return Answer(Some(instanceToAsg[instance])), apiOk;
      }
      instancesNotInManagedAsg := instancesNotInManagedAsg + {instance};
      answer := Answer(None);
    }
  }

  /** Enters the instances of one group. */
  method AddInstances(cache: map<Ref, Asg>, asg: Asg, members: Members) returns (r: map<Ref, Asg>)
    ensures r == cache + map i | i in members && members[i] == asg.id :: asg
  {
    var instances := set i | i in members && members[i] == asg.id;
    var todo := instances;
    r := cache;
    while todo != {}
      invariant todo <= instances
      invariant r == cache + map i | i in instances - todo :: asg
      decreases todo
    {
      var i :| i in todo;
      r := r[i := asg];
      todo := todo - {i};
    }
  }

  lemma GroupsGrow(registered: seq<Asg>, n: nat, members: Members)
    requires n < |registered|
    ensures Snapshot(registered[..n], members) + (map i | i in members && members[i] == registered[n].id :: registered[n])
            == Snapshot(registered[..n + 1], members)
  {
    assert registered[..n + 1][..n] == registered[..n];
  }

  // ----- Runs -----

  datatype Op =
    | Register(asg: Asg)
    | Join(instance: Ref, group: string)
    | Leave(instance: Ref)
    | Lookup(instance: Ref, apiOk: bool)
    | Regenerate(apiOk: bool)

  datatype World = World(cache: Cache, members: Members)

  function Step(w: World, op: Op): World {
    match op
    case Register(asg) => w.(cache := w.cache.(registered := w.cache.registered + [asg]))
    case Join(i, group) => w.(members := w.members[i := group])
    case Leave(i) => w.(members := w.members - {i})
    case Lookup(i, apiOk) => w.(cache := LookedUp(w.cache, w.members, i, apiOk))
    case Regenerate(apiOk) => if apiOk then w.(cache := Regenerated(w.cache, w.members)) else w
  }

  function After(ops: seq<Op>): World {
    if ops == [] then World(Cache([], map[], {}), map[]) else Step(After(ops[..|ops| - 1]), ops[|ops| - 1])
  }

  /** The group an instance is in, by the cloud, after a run. */
  function CurrentGroup(ops: seq<Op>, i: Ref): Option<Asg> {
    Direct(After(ops).cache.registered, After(ops).members, i)
  }

  function AnswerAfter(ops: seq<Op>, i: Ref, apiOk: bool): Answer {
    Answered(After(ops).cache, After(ops).members, i, apiOk)
  }

  /** Instances never change group: every join is to the instance's home. */
  predicate Stable(ops: seq<Op>, home: Ref -> string) {
    ops != [] ==>
      var op := ops[|ops| - 1];
      Stable(ops[..|ops| - 1], home) && (op.Join? ==> op.group == home(op.instance))
  }

  /** Some earlier lookup answered that the instance is in no managed group. */
  predicate ToldUnmanaged(ops: seq<Op>, i: Ref) {
    ops != [] &&
      var front, op := ops[..|ops| - 1], ops[|ops| - 1];
      ToldUnmanaged(front, i) || (op.Lookup? && op.instance == i && AnswerAfter(front, i, op.apiOk) == Answer(None))
  }

  /** The operation regenerates the positive cache successfully. */
  predicate Refreshes(ops: seq<Op>, op: Op) {
    match op
    case Lookup(i, apiOk) => apiOk && Misses(After(ops).cache, i)
    case Regenerate(apiOk) => apiOk
    case _ => false
  }

  /** The managed group an instance was in when the positive cache was last regenerated. */
  function GroupAtLastRefresh(ops: seq<Op>, i: Ref): Option<Asg> {
    if ops == [] then None else
      var front, op := ops[..|ops| - 1], ops[|ops| - 1];
      if Refreshes(front, op) then CurrentGroup(front, i) else GroupAtLastRefresh(front, i)
  }

  function Cached(cache: Cache, i: Ref): Option<Asg> {
    if i in cache.positive then Some(cache.positive[i]) else None
  }

  lemma {:induction false} NegativeIsTold(ops: seq<Op>, i: Ref)
    ensures i in After(ops).cache.negative <==> ToldUnmanaged(ops, i)
  {
    if ops != [] {
      NegativeIsTold(ops[..|ops| - 1], i);
    }
  }

  lemma {:induction false} PositiveIsLastRefresh(ops: seq<Op>, i: Ref)
    ensures Cached(After(ops).cache, i) == GroupAtLastRefresh(ops, i)
  {
    if ops != [] {
      PositiveIsLastRefresh(ops[..|ops| - 1], i);
    }
  }

  lemma {:induction false} GroupsAreHome(ops: seq<Op>, home: Ref -> string, i: Ref)
    requires Stable(ops, home)
    ensures i in After(ops).members ==> After(ops).members[i] == home(i)
    ensures i in After(ops).cache.positive ==> After(ops).cache.positive[i].id == home(i)
  {
    if ops != [] {
      var w := After(ops[..|ops| - 1]);
      GroupsAreHome(ops[..|ops| - 1], home, i);
      NamedHasId(w.cache.registered, home(i));
    }
  }

  /** Every error-free answer, told by the history of calls and memberships alone. */
  lemma AnswerExplained(ops: seq<Op>, i: Ref, apiOk: bool)
    requires AnswerAfter(ops, i, apiOk) != Failed
    ensures AnswerAfter(ops, i, apiOk).asg ==
            if GroupAtLastRefresh(ops, i).Some? then GroupAtLastRefresh(ops, i)
            else if ToldUnmanaged(ops, i) then None
            else CurrentGroup(ops, i)
  {
    PositiveIsLastRefresh(ops, i);
    NegativeIsTold(ops, i);
  }

  /**
   An error-free lookup of any instance answers the very group the cloud has it in exactly when that is
   what the last successful regeneration saw, or that saw none and no earlier lookup denied the instance.
   */
  lemma LookupIsRightIff(ops: seq<Op>, i: Ref, apiOk: bool)
    requires AnswerAfter(ops, i, apiOk) != Failed
    ensures AnswerAfter(ops, i, apiOk).asg == CurrentGroup(ops, i) <==>
            || GroupAtLastRefresh(ops, i) == CurrentGroup(ops, i)
            || (GroupAtLastRefresh(ops, i).None? && !ToldUnmanaged(ops, i))
  {
    AnswerExplained(ops, i, apiOk);
  }

  /**
   For an instance that never changes group and is in a managed one, the answer has the right id exactly
   when no earlier lookup denied it or it was a member at the last successful regeneration.
   */
  lemma MemberIsFoundIff(ops: seq<Op>, home: Ref -> string, i: Ref, apiOk: bool)
    requires Stable(ops, home) && AnswerAfter(ops, i, apiOk) != Failed
    requires CurrentGroup(ops, i).Some?
    ensures var answer := AnswerAfter(ops, i, apiOk).asg;
            answer.Some? && answer.value.id == CurrentGroup(ops, i).value.id <==>
            !ToldUnmanaged(ops, i) || GroupAtLastRefresh(ops, i).Some?
  {
    AnswerExplained(ops, i, apiOk);
    PositiveIsLastRefresh(ops, i);
    GroupsAreHome(ops, home, i);
    NamedHasId(After(ops).cache.registered, home(i));
  }

  /** No two registered groups have one id. */
  predicate RegisteredOnce(registered: seq<Asg>) {
    forall i, j :: 0 <= i < |registered| && 0 <= j < |registered| && registered[i].id == registered[j].id ==>
      registered[i] == registered[j]
  }

  lemma {:induction false} NamedIsRegistered(registered: seq<Asg>, id: string)
    ensures GroupNamed(registered, id).Some? ==> GroupNamed(registered, id).value in registered
  {
    if registered != [] {
      var front := registered[..|registered| - 1];
      NamedIsRegistered(front, id);
      assert forall a :: a in front ==> a in registered;
    }
  }

  lemma {:induction false} CachedIsRegistered(ops: seq<Op>, i: Ref)
    ensures Cached(After(ops).cache, i).Some? ==> Cached(After(ops).cache, i).value in After(ops).cache.registered
  {
    if ops != [] {
      CachedIsRegistered(ops[..|ops| - 1], i);
      StepCachesRegistered(After(ops[..|ops| - 1]), ops[|ops| - 1], i);
    }
  }

  lemma StepCachesRegistered(w: World, op: Op, i: Ref)
    requires Cached(w.cache, i).Some? ==> Cached(w.cache, i).value in w.cache.registered
    ensures var c := Step(w, op).cache; Cached(c, i).Some? ==> Cached(c, i).value in c.registered
  {
    if op.Register? {
      assert forall a :: a in w.cache.registered ==> a in w.cache.registered + [op.asg];
    } else if i in w.members {
      NamedIsRegistered(w.cache.registered, w.members[i]);
    }
  }

  /** Every earlier lookup of the instance happened while it was in a managed group. */
  predicate LookedUpOnlyAsMember(ops: seq<Op>, i: Ref) {
    ops != [] ==>
      var front, op := ops[..|ops| - 1], ops[|ops| - 1];
      LookedUpOnlyAsMember(front, i) && (op.Lookup? && op.instance == i ==> CurrentGroup(front, i).Some?)
  }

  lemma {:induction false} MembersAreNotDenied(ops: seq<Op>, i: Ref)
    requires LookedUpOnlyAsMember(ops, i)
    ensures !ToldUnmanaged(ops, i)
  {
    if ops != [] {
      MembersAreNotDenied(ops[..|ops| - 1], i);
      NegativeIsTold(ops[..|ops| - 1], i);
    }
  }

  /**
   In particular lookups agree with the cloud for instances that are never looked up before they join;
   and if no id is registered twice, the answer is the very group.
   */
  lemma MemberIsFound(ops: seq<Op>, home: Ref -> string, i: Ref, apiOk: bool)
    requires Stable(ops, home) && LookedUpOnlyAsMember(ops, i)
    requires CurrentGroup(ops, i).Some? && AnswerAfter(ops, i, apiOk) != Failed
    ensures AnswerAfter(ops, i, apiOk).asg.Some?
    ensures AnswerAfter(ops, i, apiOk).asg.value.id == CurrentGroup(ops, i).value.id
    ensures RegisteredOnce(After(ops).cache.registered) ==> AnswerAfter(ops, i, apiOk).asg == CurrentGroup(ops, i)
  {
    MembersAreNotDenied(ops, i);
    MemberIsFoundIff(ops, home, i, apiOk);
    AnswerExplained(ops, i, apiOk);
    PositiveIsLastRefresh(ops, i);
    CachedIsRegistered(ops, i);
    NamedIsRegistered(After(ops).cache.registered, After(ops).members[i]);
  }

  /** A lookup just before the instance joins sticks, until the cache is regenerated for another reason. */
  lemma EarlyLookupSticks(g: Asg, i: Ref)
    ensures var ops := [Register(g), Lookup(i, true), Join(i, g.id)];
            && CurrentGroup(ops, i) == Some(g)
            && AnswerAfter(ops, i, true) == Answer(None)
            && AnswerAfter(ops + [Regenerate(true)], i, true) == Answer(Some(g))
  {
    var o1, o2, o3 := Register(g), Lookup(i, true), Join(i, g.id);
    var ops := [o1, o2, o3];
    assert [o1][..0] == [] && [o1, o2][..1] == [o1] && ops[..2] == [o1, o2];
    assert After([o1]) == World(Cache([g], map[], {}), map[]);
    assert After([o1, o2]) == World(Cache([g], map[], {i}), map[]);
    assert After(ops) == World(Cache([g], map[], {i}), map[i := g.id]);
    assert (ops + [Regenerate(true)])[..3] == ops;
  }
}
