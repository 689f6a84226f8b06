/**
 The usage tracker: which node counted on which other node for rescheduling its pods, and when.

 Each record keeps at most MAX_USAGE_RECORDED entries per direction and an overflow flag once it
 had to drop one. The reference is the exact, uncapped relation of a history of calls.
 */
module UsageTracking {
  import opened Wrappers

  const MAX_USAGE_RECORDED := 50

  datatype UsageRecord = UsageRecord(
    usingTooMany: bool, using: map<string, Time>,
    usedByTooMany: bool, usedBy: map<string, Time>)

  const NO_RECORD := UsageRecord(false, map[], false, map[])

  type Usage = map<string, UsageRecord>

  /** The record of a node; a node without one counts as having an empty record. */
  function RecordOf(u: Usage, node: string): UsageRecord {
    if node in u then u[node] else NO_RECORD
  }

  // ----- The effect of each operation on the records -----

  function UsingNoted(u: Usage, a: string, b: string, t: Time): Usage {
    var r := RecordOf(u, a);
    u[a := if |r.using| >= MAX_USAGE_RECORDED then r.(usingTooMany := true) else r.(using := r.using[b := t])]
  }

  function UsedByNoted(u: Usage, a: string, b: string, t: Time): Usage {
    var r := RecordOf(u, b);
    u[b := if |r.usedBy| >= MAX_USAGE_RECORDED then r.(usedByTooMany := true) else r.(usedBy := r.usedBy[a := t])]
  }

  function Registered(u: Usage, a: string, b: string, t: Time): Usage {
    UsedByNoted(UsingNoted(u, a, b, t), a, b, t)
  }

  /** The record of another node once n is gone: n is removed where n's own record says it appears. */
  function Without(r: UsageRecord, n: string, isUsed: bool, isUser: bool): UsageRecord {
    r.(usedBy := if isUsed then r.usedBy - {n} else r.usedBy,
       using := if isUser then r.using - {n} else r.using)
  }

  function Unregistered(u: Usage, n: string): Usage {
    if n !in u then u else
      map m | m in u && m != n :: Without(u[m], n, m in u[n].using, m in u[n].usedBy)
  }

  /** Unregistering in two passes: first n's own uses, then the uses of n. */
  function UsesForgotten(u: Usage, n: string): Usage {
    map m | m in u :: Without(u[m], n, m in RecordOf(u, n).using, false)
  }

  function UsersForgotten(u: Usage, n: string): Usage {
    map m | m in u :: Without(u[m], n, false, m in RecordOf(u, n).usedBy)
  }

  lemma TwoPasses(u: Usage, n: string)
    requires n in u
    ensures UsersForgotten(UsesForgotten(u, n), n) - {n} == Unregistered(u, n)
  {
    var v := UsersForgotten(UsesForgotten(u, n), n) - {n};
    assert v.Keys == u.Keys - {n};
    forall m | m in v ensures v[m] == Unregistered(u, n)[m] {
      assert UsesForgotten(u, n)[m] == Without(u[m], n, m in u[n].using, false);
    }
  }

  function Recent(times: map<string, Time>, cutoff: Time): map<string, Time> {
    map k | k in times && cutoff <= times[k] :: times[k]
  }

  function RecentRecord(r: UsageRecord, cutoff: Time): UsageRecord {
    r.(using := if r.usingTooMany then r.using else Recent(r.using, cutoff),
       usedBy := if r.usedByTooMany then r.usedBy else Recent(r.usedBy, cutoff))
  }

  function CleanedUp(u: Usage, cutoff: Time): Usage {
    map m | m in u && RecentRecord(u[m], cutoff) != NO_RECORD :: RecentRecord(u[m], cutoff)
  }

  // ----- Histories and the exact relation -----

  datatype Call =
    | RegisterUsage(user: string, used: string, at: Time)
    | Unregister(node: string)
    | CleanUp(cutoff: Time)

  function Step(u: Usage, c: Call): Usage {
    match c
    case RegisterUsage(a, b, t) => Registered(u, a, b, t)
    case Unregister(n) => Unregistered(u, n)
    case CleanUp(cutoff) => CleanedUp(u, cutoff)
  }

  /** The records after a history of calls on a new tracker. */
  function UsageAfter(h: seq<Call>): Usage {
    if h == [] then map[] else Step(UsageAfter(h[..|h| - 1]), h[|h| - 1])
  }

  type Relation = map<(string, string), Time>

  function ExactStep(e: Relation, c: Call): Relation {
    match c
    case RegisterUsage(a, b, t) => e[(a, b) := t]
    case Unregister(n) => map p | p in e && p.0 != n && p.1 != n :: e[p]
    case CleanUp(cutoff) => map p | p in e && cutoff <= e[p] :: e[p]
  }

  /** The relation an unbounded tracker would hold: who uses whom, with the last time it was registered. */
  function Exact(h: seq<Call>): Relation {
    if h == [] then map[] else ExactStep(Exact(h[..|h| - 1]), h[|h| - 1])
  }

  /** A call after which "a uses b since t" no longer stands. */
  predicate Ends(c: Call, a: string, b: string, t: Time) {
    match c
    case RegisterUsage(x, y, _) => x == a && y == b
    case Unregister(n) => n == a || n == b
    case CleanUp(cutoff) => t < cutoff
  }

  /** The i-th call registered that a uses b at t, and nothing has ended that since. */
  ghost predicate Stands(h: seq<Call>, i: nat, a: string, b: string, t: Time) {
    && i < |h| && h[i] == RegisterUsage(a, b, t)
    && forall j :: i < j < |h| ==> !Ends(h[j], a, b, t)
  }

  /** The exact relation, told by the history alone. */
  lemma {:induction false} ExactIsLastUse(h: seq<Call>, a: string, b: string, t: Time)
    ensures (a, b) in Exact(h) && Exact(h)[(a, b)] == t <==> exists i: nat :: Stands(h, i, a, b, t)
  {
    if h != [] {
      var front, last := h[..|h| - 1], h[|h| - 1];
      ExactIsLastUse(front, a, b, t);
      if i: nat :| Stands(front, i, a, b, t) {
        if !Ends(last, a, b, t) {
          assert Stands(h, i, a, b, t);
        }
      }
      if last == RegisterUsage(a, b, t) {
        assert Stands(h, |h| - 1, a, b, t);
      }
      if i: nat :| Stands(h, i, a, b, t) {
        if i < |h| - 1 {
          assert Stands(front, i, a, b, t);
        }
      }
    }
  }

  // ----- The records cover the exact relation -----

  predicate Covered(u: Usage, a: string, b: string, t: Time) {
    && a in u && b in u
    && (u[a].usingTooMany || (b in u[a].using && u[a].using[b] == t))
    && (u[b].usedByTooMany || (a in u[b].usedBy && u[b].usedBy[a] == t))
  }

  ghost predicate Covers(u: Usage, e: Relation) {
    forall p :: p in e ==> Covered(u, p.0, p.1, e[p])
  }

  lemma RegisterKeepsCovered(u: Usage, a: string, b: string, t: Time, x: string, y: string, at: Time)
    requires if x == a && y == b then at == t else Covered(u, x, y, at)
    ensures Covered(Registered(u, a, b, t), x, y, at)
  {
  }

  lemma RegisterKeepsCovers(u: Usage, e: Relation, a: string, b: string, t: Time)
    requires Covers(u, e)
    ensures Covers(Registered(u, a, b, t), ExactStep(e, RegisterUsage(a, b, t)))
  {
    var e' := ExactStep(e, RegisterUsage(a, b, t));
    forall p | p in e' ensures Covered(Registered(u, a, b, t), p.0, p.1, e'[p]) {
      assert p != (a, b) ==> p in e && Covered(u, p.0, p.1, e[p]);
      RegisterKeepsCovered(u, a, b, t, p.0, p.1, e'[p]);
    }
  }

  lemma UnregisterKeepsCovers(u: Usage, e: Relation, n: string)
    requires Covers(u, e)
    ensures Covers(Unregistered(u, n), ExactStep(e, Unregister(n)))
  {
  }

  lemma CleanUpKeepsCovers(u: Usage, e: Relation, cutoff: Time)
    requires Covers(u, e)
    ensures Covers(CleanedUp(u, cutoff), ExactStep(e, CleanUp(cutoff)))
  {
    var e' := ExactStep(e, CleanUp(cutoff));
    forall p | p in e' ensures Covered(CleanedUp(u, cutoff), p.0, p.1, e'[p]) {
      assert Covered(u, p.0, p.1, e[p]);
      assert RecentRecord(u[p.0], cutoff).usingTooMany || p.1 in RecentRecord(u[p.0], cutoff).using;
      assert RecentRecord(u[p.1], cutoff).usedByTooMany || p.0 in RecentRecord(u[p.1], cutoff).usedBy;
    }
  }

  /** In every run the capped records over-approximate the exact relation. */
  lemma {:induction false} RunCovers(h: seq<Call>)
    ensures Covers(UsageAfter(h), Exact(h))
  {
    if h != [] {
      var front := h[..|h| - 1];
      RunCovers(front);
      match h[|h| - 1]
      case RegisterUsage(a, b, t) => RegisterKeepsCovers(UsageAfter(front), Exact(front), a, b, t);
      case Unregister(n) => UnregisterKeepsCovers(UsageAfter(front), Exact(front), n);
      case CleanUp(cutoff) => CleanUpKeepsCovers(UsageAfter(front), Exact(front), cutoff);
    }
  }

  // ----- The cap -----

  predicate Capped(u: Usage) {
    forall n :: n in u ==> |u[n].using| <= MAX_USAGE_RECORDED && |u[n].usedBy| <= MAX_USAGE_RECORDED
  }

  lemma FewerEntries<K, V>(m: map<K, V>, m': map<K, V>)
    requires m'.Keys <= m.Keys
    ensures |m'| <= |m|
  {
    SubsetIsSmaller(m'.Keys, m.Keys);
  }

  lemma {:induction false} SubsetIsSmaller<K>(s: set<K>, t: set<K>)
    requires s <= t
    ensures |s| <= |t|
  {
    if x :| x in s {
      SubsetIsSmaller(s - {x}, t - {x});
    }
  }

  lemma StepKeepsCap(u: Usage, c: Call)
    requires Capped(u)
    ensures Capped(Step(u, c))
  {
    var v := Step(u, c);
    forall n | n in v ensures |v[n].using| <= MAX_USAGE_RECORDED && |v[n].usedBy| <= MAX_USAGE_RECORDED {
      if !c.RegisterUsage? {
        FewerEntries(u[n].using, v[n].using);
        FewerEntries(u[n].usedBy, v[n].usedBy);
      }
    }
  }

  lemma {:induction false} RunIsCapped(h: seq<Call>)
    ensures Capped(UsageAfter(h))
  {
    if h != [] {
      RunIsCapped(h[..|h| - 1]);
      StepKeepsCap(UsageAfter(h[..|h| - 1]), h[|h| - 1]);
    }
  }

  /** Some call of the history wanted to record one more entry for a node that was full. */
  predicate WasFull(h: seq<Call>, n: string) {
    h != [] &&
      var front, last := h[..|h| - 1], h[|h| - 1];
      var r := RecordOf(UsageAfter(front), n);
      || WasFull(front, n)
      || (last.RegisterUsage? && last.user == n && |r.using| >= MAX_USAGE_RECORDED)
      || (last.RegisterUsage? && last.used == n && |r.usedBy| >= MAX_USAGE_RECORDED)
  }

  /** A node is flagged only after it was full. */
  lemma {:induction false} OverflowMeansWasFull(h: seq<Call>, n: string)
    ensures Overflowed(RecordOf(UsageAfter(h), n)) ==> WasFull(h, n)
  {
    if h != [] {
      OverflowMeansWasFull(h[..|h| - 1], n);
    }
  }

  // ----- Runs that never unregister an overflowed node -----

  predicate Overflowed(r: UsageRecord) {
    r.usingTooMany || r.usedByTooMany
  }

  /** No overflowed node is unregistered in this history. */
  predicate NeverForgetsOverflow(h: seq<Call>) {
    h != [] ==>
      var front, last := h[..|h| - 1], h[|h| - 1];
      && NeverForgetsOverflow(front)
      && (last.Unregister? ==> !Overflowed(RecordOf(UsageAfter(front), last.node)))
  }

  predicate Entry(times: map<string, Time>, k: string, e: Relation, p: (string, string)) {
    if p in e then k in times && times[k] == e[p] else k !in times
  }

  /** Unless a flag excuses it, both directions agree with the exact relation. */
  predicate Mirrored(u: Usage, e: Relation, a: string, b: string) {
    !RecordOf(u, a).usingTooMany && !RecordOf(u, b).usedByTooMany ==>
      && Entry(RecordOf(u, a).using, b, e, (a, b))
      && Entry(RecordOf(u, b).usedBy, a, e, (a, b))
  }

  ghost predicate Mirror(u: Usage, e: Relation) {
    forall a, b :: Mirrored(u, e, a, b)
  }

  lemma RegisterKeepsMirror(u: Usage, e: Relation, a: string, b: string, t: Time)
    requires Mirror(u, e)
    ensures Mirror(Registered(u, a, b, t), ExactStep(e, RegisterUsage(a, b, t)))
  {
    forall x, y ensures Mirrored(Registered(u, a, b, t), ExactStep(e, RegisterUsage(a, b, t)), x, y) {
      RegisterKeepsMirrored(u, e, a, b, t, x, y);
    }
  }

  lemma RegisterKeepsMirrored(u: Usage, e: Relation, a: string, b: string, t: Time, x: string, y: string)
    requires Mirrored(u, e, x, y)
    ensures Mirrored(Registered(u, a, b, t), ExactStep(e, RegisterUsage(a, b, t)), x, y)
  {
    var v := Registered(u, a, b, t);
    if x != a {
      assert RecordOf(v, x).using == RecordOf(u, x).using;
    }
    if y != b {
      assert RecordOf(v, y).usedBy == RecordOf(u, y).usedBy;
    }
  }

  /** Every unflagged record that mentions n is one n's own record points to. */
  ghost predicate KnowsMentions(u: Usage, n: string) {
    forall m :: m in u && m != n && n in u ==>
      && (n in u[m].using && !u[m].usingTooMany ==> m in u[n].usedBy)
      && (n in u[m].usedBy && !u[m].usedByTooMany ==> m in u[n].using)
  }

  /** Exactly when unregistering n, overflowed or not, keeps the two directions in agreement. */
  lemma UnregisterKeepsMirrorIff(u: Usage, e: Relation, n: string)
    requires Mirror(u, e)
    ensures Mirror(Unregistered(u, n), ExactStep(e, Unregister(n))) <==> KnowsMentions(u, n)
  {
    var v, e' := Unregistered(u, n), ExactStep(e, Unregister(n));
    if KnowsMentions(u, n) {
      forall x, y ensures Mirrored(v, e', x, y) {
        assert Mirrored(u, e, x, y);
      }
    }
    if Mirror(v, e') {
      forall m | m in u && m != n && n in u
        ensures n in u[m].using && !u[m].usingTooMany ==> m in u[n].usedBy
        ensures n in u[m].usedBy && !u[m].usedByTooMany ==> m in u[n].using
      {
        assert Mirrored(v, e', m, n) && Mirrored(v, e', n, m);
        assert v[m] == Without(u[m], n, m in u[n].using, m in u[n].usedBy);
      }
    }
  }

  lemma CleanUpKeepsMirror(u: Usage, e: Relation, cutoff: Time)
    requires Mirror(u, e)
    ensures Mirror(CleanedUp(u, cutoff), ExactStep(e, CleanUp(cutoff)))
  {
    forall x, y ensures Mirrored(CleanedUp(u, cutoff), ExactStep(e, CleanUp(cutoff)), x, y) {
      assert Mirrored(u, e, x, y);
    }
  }

  /** A node that did not overflow knows who mentions it. */
  lemma UnflaggedKnowsMentions(u: Usage, e: Relation, n: string)
    requires Mirror(u, e) && !Overflowed(RecordOf(u, n))
    ensures KnowsMentions(u, n)
  {
    forall m | m in u && m != n && n in u
      ensures n in u[m].using && !u[m].usingTooMany ==> m in u[n].usedBy
      ensures n in u[m].usedBy && !u[m].usedByTooMany ==> m in u[n].using
    {
      assert Mirrored(u, e, m, n) && Mirrored(u, e, n, m);
    }
  }

  /** The directions agree after every prefix of the history. */
  ghost predicate MirrorsThroughout(h: seq<Call>) {
    Mirror(UsageAfter(h), Exact(h)) && (h != [] ==> MirrorsThroughout(h[..|h| - 1]))
  }

  /** Every unregistered node knew, when it was unregistered, who mentions it. */
  ghost predicate ForgetsOnlyKnown(h: seq<Call>) {
    h != [] ==>
      var front, last := h[..|h| - 1], h[|h| - 1];
      ForgetsOnlyKnown(front) && (last.Unregister? ==> KnowsMentions(UsageAfter(front), last.node))
  }

  /** Over whole runs: the directions agree throughout exactly when every unregistered node knew its mentions. */
  lemma {:induction false} MirrorsThroughoutIff(h: seq<Call>)
    ensures MirrorsThroughout(h) <==> ForgetsOnlyKnown(h)
  {
    if h == [] {
      assert forall a, b :: Mirrored(map[], map[], a, b);
    } else {
      MirrorsThroughoutIff(h[..|h| - 1]);
      if Mirror(UsageAfter(h[..|h| - 1]), Exact(h[..|h| - 1])) {
        LastCallMirrorsIff(h);
      }
    }
  }

  lemma LastCallMirrorsIff(h: seq<Call>)
    requires h != [] && Mirror(UsageAfter(h[..|h| - 1]), Exact(h[..|h| - 1]))
    ensures Mirror(UsageAfter(h), Exact(h)) <==>
            (h[|h| - 1].Unregister? ==> KnowsMentions(UsageAfter(h[..|h| - 1]), h[|h| - 1].node))
  {
    var u, e := UsageAfter(h[..|h| - 1]), Exact(h[..|h| - 1]);
    match h[|h| - 1]
    case RegisterUsage(a, b, t) => RegisterKeepsMirror(u, e, a, b, t);
    case Unregister(n) => UnregisterKeepsMirrorIff(u, e, n);
    case CleanUp(cutoff) => CleanUpKeepsMirror(u, e, cutoff);
  }

  /** In particular they agree when no overflowed node is ever unregistered. */
  lemma {:induction false} RunMirrors(h: seq<Call>)
    requires NeverForgetsOverflow(h)
    ensures Mirror(UsageAfter(h), Exact(h))
  {
    if h == [] {
      assert forall a, b :: Mirrored(map[], map[], a, b);
    } else {
      var front, last := h[..|h| - 1], h[|h| - 1];
      RunMirrors(front);
      if last.Unregister? {
        UnflaggedKnowsMentions(UsageAfter(front), Exact(front), last.node);
      }
      LastCallMirrorsIff(h);
    }
  }

  // ----- Why the restriction on runs is needed -----

  function User(i: nat): (k: string)
    ensures |k| == i + 1 && k[0] == 'k'
  {
    seq(i + 1, _ => 'k')
  }

  /** n different nodes register that they use the node "x". */
  function Star(n: nat): seq<Call> {
    if n == 0 then [] else Star(n - 1) + [RegisterUsage(User(n - 1), "x", 0)]
  }

  /** The node "x" is used by n nodes with short names, and no record is flagged or uses more than "x". */
  predicate StarLike(u: Usage, n: nat) {
    && (forall m :: m in u ==> |m| <= n + 1 && (|m| == n + 1 ==> m == "x"))
    && RecordOf(u, "x").using == map[] && !Overflowed(RecordOf(u, "x"))
    && |RecordOf(u, "x").usedBy| == n
    && (forall k :: k in RecordOf(u, "x").usedBy ==> |k| <= n)
  }

  lemma OneMoreUser(u: Usage, n: nat)
    requires StarLike(u, n) && n < MAX_USAGE_RECORDED
    ensures StarLike(Registered(u, User(n), "x", 0), n + 1)
  {
    var x := RecordOf(u, "x");
    assert x.usedBy[User(n) := 0].Keys == x.usedBy.Keys + {User(n)};
    assert RecordOf(Registered(u, User(n), "x", 0), "x") == x.(usedBy := x.usedBy[User(n) := 0]);
  }

  lemma {:induction false} StarRecords(n: nat)
    requires n <= MAX_USAGE_RECORDED
    ensures StarLike(UsageAfter(Star(n)), n)
  {
    if n > 0 {
      StarRecords(n - 1);
      OneMoreUser(UsageAfter(Star(n - 1)), n - 1);
      assert Star(n)[..|Star(n)| - 1] == Star(n - 1);
    }
  }

  /**
   Fifty-one users overflow "x", and the last of them is not recorded there. Until then both
   directions agree; unregistering "x" leaves a stale entry in the record of that user.
   */
  lemma OverflowHidesAUser()
    ensures var h := Star(MAX_USAGE_RECORDED + 1);
            && Mirror(UsageAfter(h), Exact(h)) && Overflowed(RecordOf(UsageAfter(h), "x"))
            && !KnowsMentions(UsageAfter(h), "x")
            && !Mirror(UsageAfter(h + [Unregister("x")]), Exact(h + [Unregister("x")]))
  {
    var h := Star(MAX_USAGE_RECORDED + 1);
    LastUserIsHidden();
    StarOnlyRegisters(MAX_USAGE_RECORDED + 1);
    RunMirrors(h);
    assert (h + [Unregister("x")])[..|h|] == h;
    LastCallMirrorsIff(h + [Unregister("x")]);
  }

  lemma LastUserIsHidden()
    ensures var u := UsageAfter(Star(MAX_USAGE_RECORDED + 1));
            Overflowed(RecordOf(u, "x")) && !KnowsMentions(u, "x")
  {
    var n := MAX_USAGE_RECORDED;
    var before, u := UsageAfter(Star(n)), UsageAfter(Star(n + 1));
    StarRecords(n);
    assert Star(n + 1)[..|Star(n + 1)| - 1] == Star(n);
    assert u[User(n)].using == map["x" := 0] && !u[User(n)].usingTooMany;
    assert u["x"] == RecordOf(before, "x").(usedByTooMany := true);
  }

  lemma {:induction false} StarOnlyRegisters(n: nat)
    ensures NeverForgetsOverflow(Star(n))
  {
    if n > 0 {
      StarOnlyRegisters(n - 1);
      assert Star(n)[..|Star(n)| - 1] == Star(n - 1);
    }
  }

  // ----- Removing a node -----

  /** n and k count on a common node. */
  ghost predicate ShareUsedNode(e: Relation, n: string, k: string) {
    exists b :: (n, b) in e && (k, b) in e
  }

  /** Some node that n uses has forgotten who uses it. */
  ghost predicate UsesOverflowed(u: Usage, n: string) {
    exists b :: b in RecordOf(u, n).using && RecordOf(u, b).usedByTooMany
  }

  /** According to the records, k uses a node that n uses. */
  ghost predicate ListedTogether(u: Usage, n: string, k: string) {
    exists b :: b in RecordOf(u, n).using && k in RecordOf(u, b).usedBy
  }

  /** What removing n drops from a utilization map. */
  ghost predicate Drops(u: Usage, n: string, k: string) {
    k == n || RecordOf(u, n).usingTooMany || UsesOverflowed(u, n) || ListedTogether(u, n, k)
  }

  /** Overflow or not, every node that shares a used node with n is dropped together with n. */
  lemma RemovalIsSafe(h: seq<Call>, n: string, k: string)
    ensures k == n || ShareUsedNode(Exact(h), n, k) ==> Drops(UsageAfter(h), n, k)
  {
    RunCovers(h);
    var u, e := UsageAfter(h), Exact(h);
    if b :| (n, b) in e && (k, b) in e {
      assert Covered(u, n, b, e[(n, b)]) && Covered(u, k, b, e[(k, b)]);
      if !u[n].usingTooMany {
        assert b in RecordOf(u, n).using;
      }
    }
  }

  /** Without overflow exactly n and the nodes that share a used node with it are dropped. */
  lemma RemovalIsExact(h: seq<Call>, n: string, k: string)
    requires ForgetsOnlyKnown(h)
    requires forall m :: m in UsageAfter(h) ==> !Overflowed(UsageAfter(h)[m])
    ensures Drops(UsageAfter(h), n, k) <==> k == n || ShareUsedNode(Exact(h), n, k)
  {
    MirrorsThroughoutIff(h);
    RemovalIsSafe(h, n, k);
    var u, e := UsageAfter(h), Exact(h);
    if b :| b in RecordOf(u, n).using && k in RecordOf(u, b).usedBy {
      assert Mirrored(u, e, n, b) && Mirrored(u, e, k, b);
      assert (n, b) in e && (k, b) in e;
    }
  }

  // ----- The tracker object -----

  class UsageTracker {
    var usage: Usage
    /** Every call made so far. */
    ghost var history: seq<Call>

    ghost predicate Valid()
      reads this
    {
      usage == UsageAfter(history)
    }

    constructor ()
      ensures Valid() && usage == map[] && history == []
    {
      usage, history := map[], [];
    }

    method RegisterUsage(nodeA: string, nodeB: string, timestamp: Time)
      requires Valid()
      modifies this
      ensures Valid() && history == old(history) + [Call.RegisterUsage(nodeA, nodeB, timestamp)]
      ensures usage == Registered(old(usage), nodeA, nodeB, timestamp)
    {
      if nodeA in usage {
        var record := usage[nodeA];
        if |record.using| >= MAX_USAGE_RECORDED {
          usage := usage[nodeA := record.(usingTooMany := true)];
        } else {
          usage := usage[nodeA := record.(using := record.using[nodeB := timestamp])];
        }
      } else {
        usage := usage[nodeA := NO_RECORD.(using := map[nodeB := timestamp])];
      }
      assert usage == UsingNoted(old(usage), nodeA, nodeB, timestamp);
      if nodeB in usage {
        var record := usage[nodeB];
        if |record.usedBy| >= MAX_USAGE_RECORDED {
          usage := usage[nodeB := record.(usedByTooMany := true)];
        } else {
          usage := usage[nodeB := record.(usedBy := record.usedBy[nodeA := timestamp])];
        }
      } else {
        usage := usage[nodeB := NO_RECORD.(usedBy := map[nodeA := timestamp])];
      }
      Record(Call.RegisterUsage(nodeA, nodeB, timestamp));
    }

    /** Notes a call whose effect on the records has just been carried out. */
    ghost method Record(c: Call)
      requires usage == Step(UsageAfter(history), c)
      modifies this`history
      ensures Valid() && history == old(history) + [c]
    {
      history := history + [c];
      assert history[..|history| - 1] == old(history);
    }

    method Unregister(node: string)
      requires Valid()
      modifies this
      ensures Valid() && history == old(history) + [Call.Unregister(node)]
      ensures usage == Unregistered(old(usage), node)
    {
      if node in usage {
        TwoPasses(usage, node);
        RemoveUser(node);
        RemoveUsed(node);
        usage := usage - {node};
      }
      Record(Call.Unregister(node));
    }

    /** Takes node out of the usedBy map of every node it uses. */
    method RemoveUser(node: string)
      requires node in usage
      modifies this`usage
      ensures usage == UsesForgotten(old(usage), node)
    {
      var using := usage[node].using.Keys;
      var todo := using;
      while todo != {}
        invariant todo <= using
        invariant usage == map m | m in old(usage) :: Without(old(usage)[m], node, m in using && m !in todo, false)
        decreases todo
      {
        var used :| used in todo;
        if used in usage {
          usage := usage[used := usage[used].(usedBy := usage[used].usedBy - {node})];
        }
        todo := todo - {used};
      }
    }

    /** Takes node out of the using map of every node that uses it. */
    method RemoveUsed(node: string)
      requires node in usage
      modifies this`usage
      ensures usage == UsersForgotten(old(usage), node)
    {
      var usedBy := usage[node].usedBy.Keys;
      var todo := usedBy;
      while todo != {}
        invariant todo <= usedBy
        invariant usage == map m | m in old(usage) :: Without(old(usage)[m], node, false, m in usedBy && m !in todo)
        decreases todo
      {
        var user :| user in todo;
        if user in usage {
          usage := usage[user := usage[user].(using := usage[user].using - {node})];
        }
        todo := todo - {user};
      }
    }

    method CleanUp(cutoff: Time)
      requires Valid()
      modifies this
      ensures Valid() && history == old(history) + [Call.CleanUp(cutoff)]
      ensures usage == CleanedUp(old(usage), cutoff)
    {
      var toDelete := DropOldEntries(cutoff);
      usage := usage - toDelete;
      assert usage == CleanedUp(old(usage), cutoff);
      Record(Call.CleanUp(cutoff));
    }

    /** Drops the old entries of every record and returns the nodes whose records became empty. */
    method DropOldEntries(cutoff: Time) returns (toDelete: set<string>)
      modifies this`usage
      ensures usage == map m | m in old(usage) :: RecentRecord(old(usage)[m], cutoff)
      ensures toDelete == set m | m in old(usage) && RecentRecord(old(usage)[m], cutoff) == NO_RECORD
    {
      toDelete := {};
      var todo := usage.Keys;
      while todo != {}
        invariant todo <= old(usage).Keys
        invariant usage == map m | m in old(usage) ::
                             if m in todo then old(usage)[m] else RecentRecord(old(usage)[m], cutoff)
        invariant toDelete == set m | m in old(usage) && m !in todo && RecentRecord(old(usage)[m], cutoff) == NO_RECORD
        decreases todo
      {
        var key :| key in todo;
        var record := DropOld(usage[key], cutoff);
        usage := usage[key := record];
        var empty := !record.usingTooMany && !record.usedByTooMany && |record.using| == 0 && |record.usedBy| == 0;
        assert empty <==> record == NO_RECORD;
        if empty {
          toDelete := toDelete + {key};
        }
        todo := todo - {key};
      }
    }
  }

  method DropOld(record: UsageRecord, cutoff: Time) returns (r: UsageRecord)
    ensures r == RecentRecord(record, cutoff)
  {
    r := record;
    if !r.usingTooMany {
      var using := FilterOutOld(r.using, cutoff);
      r := r.(using := using);
    }
    if !r.usedByTooMany {
      var usedBy := FilterOutOld(r.usedBy, cutoff);
      r := r.(usedBy := usedBy);
    }
  }

  method FilterOutOld(times: map<string, Time>, cutoff: Time) returns (r: map<string, Time>)
    ensures r == Recent(times, cutoff)
  {
    var todo, toRemove := times.Keys, {};
    while todo != {}
      invariant todo <= times.Keys
      invariant toRemove == set k | k in times && k !in todo && times[k] < cutoff
      decreases todo
    {
      var key :| key in todo;
      if times[key] < cutoff {
        toRemove := toRemove + {key};
      }
      todo := todo - {key};
    }
    r := times - toRemove;
  }

  /** The nodes to drop from `utilization` besides `node` itself, by the tracker's records. */
  method KeysToRemove(tracker: UsageTracker, node: string, utilization: map<string, Time>) returns (keys: set<string>)
    requires tracker.Valid()
    ensures forall k :: k in utilization && k != node ==> (k in keys <==> Drops(tracker.usage, node, k))
  {
    keys := {};
    var u := tracker.usage;
    if node in u {
      if u[node].usingTooMany {
        keys := utilization.Keys;
      } else {
        var todo := u[node].using.Keys;
        while todo != {}
          invariant todo <= u[node].using.Keys
          invariant forall b :: b in u[node].using && b !in todo ==> !RecordOf(u, b).usedByTooMany
          invariant keys == set b, k | b in u[node].using && b !in todo && k in RecordOf(u, b).usedBy :: k
          decreases todo
        {
          var used :| used in todo;
          if used in u {
            if u[used].usedByTooMany {
              keys := utilization.Keys;
              break;
            } else {
              keys := keys + u[used].usedBy.Keys;
            }
          }
          todo := todo - {used};
        }
      }
    }
  }

  /** Removes a node from the tracker and returns what is left of the caller's utilization map. */
  method RemoveNodeFromTracker(tracker: UsageTracker, node: string, utilization: map<string, Time>)
    returns (left: map<string, Time>)
    requires tracker.Valid()
    modifies tracker
    ensures tracker.Valid() && tracker.history == old(tracker.history) + [Call.Unregister(node)]
    ensures left == map k | k in utilization && !Drops(old(tracker.usage), node, k) :: utilization[k]
    ensures forall k :: k in left ==> k != node && !ShareUsedNode(Exact(old(tracker.history)), node, k)
  {
    var keys := KeysToRemove(tracker, node, utilization);
    forall k ensures k == node || ShareUsedNode(Exact(tracker.history), node, k) ==> Drops(tracker.usage, node, k) {
      RemovalIsSafe(tracker.history, node, k);
    }
    tracker.Unregister(node);
    left := utilization - {node} - keys;
  }
}
