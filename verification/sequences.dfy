/** Facts about sequences shared by the sampling and drawing models. */
module Sequences {
  /** No element occurs twice in `s`. */
  predicate Distinct<T(==)>(s: seq<T>) {
    forall i, j :: 0 <= i < j < |s| ==> s[i] != s[j]
  }

  /** In a sequence without repeats every element occurs once. */
  lemma {:induction false} DistinctOccursOnce<T>(s: seq<T>, e: T)
    requires Distinct(s)
    ensures multiset(s)[e] <= 1
  {
    if |s| != 0 {
      var rest := s[1..];
      assert Distinct(rest) by {
        forall i, j | 0 <= i < j < |rest| ensures rest[i] != rest[j] {
          assert rest[i] == s[i + 1] && rest[j] == s[j + 1];
        }
      }
      DistinctOccursOnce(rest, e);
      assert s == [s[0]] + rest;
      assert s[0] !in rest;
    }
  }

  /** A sequence in which every element occurs at most once has no repeats. */
  lemma OccursOnceDistinct<T>(s: seq<T>)
    requires forall e :: multiset(s)[e] <= 1
    ensures Distinct(s)
  {
    forall i, j | 0 <= i < j < |s| ensures s[i] != s[j] {
      assert s == s[..j] + [s[j]] + s[j + 1..];
      assert s[i] in s[..j];
      assert multiset(s)[s[j]] == multiset(s[..j])[s[j]] + 1 + multiset(s[j + 1..])[s[j]];
    }
  }
}
