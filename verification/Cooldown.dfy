/** Rate-limited emission: each key waits for a cooldown, and only its last emission
    is remembered. The funding, the funding replay and the triangular strategy all
    emit this way. */
module Cooldown {

  datatype Emission = Emission(key: string, at: int)

  /** The latest emission of each key. */
  function LastEmissions(log: seq<Emission>): map<string, int> {
    if log == [] then map[]
    else
      var e := log[|log| - 1];
      LastEmissions(log[..|log| - 1])[e.key := e.at]
  }

  /** Any two emissions of one key are a cooldown apart. */
  ghost predicate Spaced(log: seq<Emission>, cooldown: int) {
    forall i, j | 0 <= i < j < |log| && log[i].key == log[j].key :: log[j].at - log[i].at >= cooldown
  }

  predicate CoolingDown(lastEmit: map<string, int>, key: string, now: int, cooldown: int) {
    key in lastEmit && now - lastEmit[key] < cooldown
  }

  lemma {:induction false} LastEmissionIsLatest(log: seq<Emission>, cooldown: int, i: nat)
    requires Spaced(log, cooldown) && cooldown >= 0 && i < |log|
    ensures log[i].key in LastEmissions(log) && log[i].at <= LastEmissions(log)[log[i].key]
  {
    var n := |log| - 1;
    if log[i].key == log[n].key {
      if i < n {
        assert log[n].at - log[i].at >= cooldown;
      }
    } else {
      LastEmissionIsLatest(log[..n], cooldown, i);
    }
  }

  lemma {:induction false} LastEmissionHappened(log: seq<Emission>, key: string) returns (i: nat)
    requires key in LastEmissions(log)
    ensures i < |log| && log[i] == Emission(key, LastEmissions(log)[key])
  {
    var n := |log| - 1;
    if log[n].key == key {
      i := n;
    } else {
      i := LastEmissionHappened(log[..n], key);
    }
  }

  /** Every emission of `key` is at least a cooldown ago. */
  ghost predicate Rested(log: seq<Emission>, key: string, now: int, cooldown: int) {
    forall i | 0 <= i < |log| && log[i].key == key :: now - log[i].at >= cooldown
  }

  /** A key is held back exactly while one of its emissions is less than a cooldown
      ago; so it is free again as soon as the cooldown is over. */
  lemma CoolingDownIff(log: seq<Emission>, key: string, now: int, cooldown: int)
    requires Spaced(log, cooldown) && cooldown >= 0
    ensures CoolingDown(LastEmissions(log), key, now, cooldown) <==> !Rested(log, key, now, cooldown)
  {
    forall i | 0 <= i < |log| && log[i].key == key
      ensures key in LastEmissions(log) && log[i].at <= LastEmissions(log)[key]
    {
      LastEmissionIsLatest(log, cooldown, i);
    }
    if key in LastEmissions(log) {
      var i := LastEmissionHappened(log, key);
      assert log[i].key == key;
    }
  }

  /** Checking only against the last emission of a key spaces all of them. */
  lemma {:induction false} EmittingKeepsSpacing(log: seq<Emission>, cooldown: int, e: Emission)
    requires Spaced(log, cooldown) && cooldown >= 0
    requires !CoolingDown(LastEmissions(log), e.key, e.at, cooldown)
    ensures Spaced(log + [e], cooldown)
    ensures LastEmissions(log + [e]) == LastEmissions(log)[e.key := e.at]
  {
    assert (log + [e])[..|log|] == log;
    forall i | 0 <= i < |log| && log[i].key == e.key
      ensures e.at - log[i].at >= cooldown
    {
      LastEmissionIsLatest(log, cooldown, i);
    }
  }
}
