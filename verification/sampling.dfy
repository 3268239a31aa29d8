/**
 * `random.sample(population, k)`: k picks without replacement. Each pick takes the element at
 * a random position among those not yet taken and removes it. The random numbers are a
 * parameter (`rolls`); the model states what every draw guarantees, whatever numbers come out.
 */
module Sampling {
  import opened Sequences

  /** `population` without the element at position `i`. */
  function RemoveAt<T>(population: seq<T>, i: nat): (rest: seq<T>)
    requires i < |population|
    ensures |rest| == |population| - 1
  {
    population[..i] + population[i + 1..]
  }

  /** Removing the element at `i` takes exactly one occurrence of it out of the population. */
  lemma RemoveAtTakesOne<T>(population: seq<T>, i: nat)
    requires i < |population|
    ensures multiset(RemoveAt(population, i)) + multiset{population[i]} == multiset(population)
  {
    assert population == population[..i] + [population[i]] + population[i + 1..];
  }

  /** The position of the next pick among the `remaining` elements not yet taken. */
  function NextPick(rolls: seq<nat>, remaining: nat): (i: nat)
    requires remaining > 0
    ensures i < remaining
  {
    (if |rolls| == 0 then 0 else rolls[0]) % remaining
  }

  /**
   * The k picks. Pick number j takes position `rolls[j] % remaining` of what is left; once the
   * rolls run out, the first remaining element is taken.
   */
  function Sample<T>(population: seq<T>, rolls: seq<nat>, k: nat): (picks: seq<T>)
    requires k <= |population|
    ensures |picks| == k
    decreases k
  {
    if k == 0 then []
    else
      var i := NextPick(rolls, |population|);
      [population[i]] + Sample(RemoveAt(population, i), if |rolls| == 0 then [] else rolls[1..], k - 1)
  }

  /** Without replacement: no element is picked more often than it occurs in the population. */
  lemma {:induction false} SampleWithoutReplacement<T>(population: seq<T>, rolls: seq<nat>, k: nat)
    requires k <= |population|
    ensures multiset(Sample(population, rolls, k)) <= multiset(population)
    decreases k
  {
    if k > 0 {
      var i := NextPick(rolls, |population|);
      var next := if |rolls| == 0 then [] else rolls[1..];
      var rest := RemoveAt(population, i);
      var later := Sample(rest, next, k - 1);
      assert Sample(population, rolls, k) == [population[i]] + later;
      assert multiset(later) <= multiset(rest) by {
        SampleWithoutReplacement(rest, next, k - 1);
      }
      assert multiset(rest) + multiset{population[i]} == multiset(population) by {
        RemoveAtTakesOne(population, i);
      }
      assert multiset([population[i]] + later) == multiset{population[i]} + multiset(later);
    }
  }

  /** Every pick comes from the population. */
  lemma SampleFromPopulation<T>(population: seq<T>, rolls: seq<nat>, k: nat)
    requires k <= |population|
    ensures forall e :: e in Sample(population, rolls, k) ==> e in population
  {
    var picks := Sample(population, rolls, k);
    SampleWithoutReplacement(population, rolls, k);
    forall e | e in picks ensures e in population {
      assert e in multiset(picks);
    }
  }

  /** Without replacement: from a population without repeats, no element is picked twice. */
  lemma SampleDistinct<T>(population: seq<T>, rolls: seq<nat>, k: nat)
    requires k <= |population| && Distinct(population)
    ensures Distinct(Sample(population, rolls, k))
  {
    var picks := Sample(population, rolls, k);
    SampleWithoutReplacement(population, rolls, k);
    forall e ensures multiset(picks)[e] <= 1 {
      DistinctOccursOnce(population, e);
    }
    OccursOnceDistinct(picks);
  }
}
