/**
 "Since when": a value is observed again and again, and the time of the observation that started the
 current unbroken streak is carried along.
 */
module Streak {
  import opened Wrappers

  /** One observation: what was seen, if anything, and the time to remember if it is new. */
  datatype Observation<K> = Observation(key: Option<K>, time: Time)

  datatype Mark<K> = Mark(key: K, since: Time)

  /** How a mark is carried over an observation. */
  function Carry<K(==)>(previous: Option<Mark<K>>, o: Observation<K>): Option<Mark<K>> {
    if o.key.None? then None
    else if previous.Some? && previous.value.key == o.key.value then previous
    else Some(Mark(o.key.value, o.time))
  }

  function Carried<K(==)>(observations: seq<Observation<K>>): Option<Mark<K>> {
    if observations == [] then None
    else Carry(Carried(observations[..|observations| - 1]), observations[|observations| - 1])
  }

  lemma CarriedOneMore<K>(observations: seq<Observation<K>>, o: Observation<K>)
    ensures Carried(observations + [o]) == Carry(Carried(observations), o)
  {
    assert (observations + [o])[..|observations|] == observations;
  }

  /** From `start` to the end the last key was seen without a break, and not just before. */
  ghost predicate StreakStart<K>(observations: seq<Observation<K>>, start: nat) {
    && start < |observations|
    && var key := observations[|observations| - 1].key;
       && key.Some?
       && (forall i :: start <= i < |observations| ==> observations[i].key == key)
       && (start > 0 ==> observations[start - 1].key != key)
  }

  /** The carried mark is the last key with the time of the observation that started its streak. */
  lemma {:induction false} CarriedSinceStreakStart<K>(observations: seq<Observation<K>>) returns (start: nat)
    ensures Carried(observations).None? <==>
            observations == [] || observations[|observations| - 1].key == None
    ensures Carried(observations).Some? ==>
              && StreakStart(observations, start)
              && Carried(observations).value.key == observations[start].key.value
              && Carried(observations).value.since == observations[start].time
  {
    start := 0;
    if observations != [] {
      var n := |observations| - 1;
      var before := CarriedSinceStreakStart(observations[..n]);
      if n > 0 && observations[n].key == observations[n - 1].key {
        start := before;
      } else {
        start := n;
      }
    }
  }

  lemma StreakStartIsUnique<K>(observations: seq<Observation<K>>, s: nat, t: nat)
    requires StreakStart(observations, s) && StreakStart(observations, t)
    ensures s == t
  {
  }

  /** A mark is carried exactly if there is a current streak, and then it is the mark of its start. */
  lemma CarriedIsStreak<K>(observations: seq<Observation<K>>)
    ensures Carried(observations).Some? <==> exists start: nat :: StreakStart(observations, start)
    ensures forall start: nat :: StreakStart(observations, start) ==>
              Carried(observations) == Some(Mark(observations[start].key.value, observations[start].time))
  {
    var s := CarriedSinceStreakStart(observations);
    forall start: nat | StreakStart(observations, start)
      ensures Carried(observations) == Some(Mark(observations[start].key.value, observations[start].time))
    {
      StreakStartIsUnique(observations, s, start);
    }
  }
}
