/**
 * Ordering of path strings as `list.sort` orders Python `str` values: lexicographically by
 * code point, a proper prefix before its extensions. The sort itself is modelled by an
 * insertion sort; because the order is total and antisymmetric, every sorted permutation of a
 * list is the same list, so the choice of algorithm does not change the result.
 */
module Order {
  /** `a <= b` on Python strings. */
  predicate LexLe(a: string, b: string) {
    if |a| == 0 then true
    else if |b| == 0 then false
    else if a[0] != b[0] then a[0] < b[0]
    else LexLe(a[1..], b[1..])
  }

  lemma {:induction false} LexLeReflexive(a: string)
    ensures LexLe(a, a)
  {
    if |a| != 0 {
      LexLeReflexive(a[1..]);
    }
  }

  lemma {:induction false} LexLeTotal(a: string, b: string)
    ensures LexLe(a, b) || LexLe(b, a)
  {
    if |a| != 0 && |b| != 0 && a[0] == b[0] {
      LexLeTotal(a[1..], b[1..]);
    }
  }

  lemma {:induction false} LexLeAntisymmetric(a: string, b: string)
    requires LexLe(a, b) && LexLe(b, a)
    ensures a == b
  {
    if |a| != 0 && |b| != 0 {
      LexLeAntisymmetric(a[1..], b[1..]);
      assert a == [a[0]] + a[1..] && b == [b[0]] + b[1..];
    }
  }

  lemma {:induction false} LexLeTransitive(a: string, b: string, c: string)
    requires LexLe(a, b) && LexLe(b, c)
    ensures LexLe(a, c)
  {
    if |a| != 0 && |b| != 0 && |c| != 0 && a[0] == b[0] && b[0] == c[0] {
      LexLeTransitive(a[1..], b[1..], c[1..]);
    }
  }

  predicate Sorted(s: seq<string>) {
    forall i, j :: 0 <= i < j < |s| ==> LexLe(s[i], s[j])
  }

  lemma SortedTail(s: seq<string>)
    requires Sorted(s) && |s| > 0
    ensures Sorted(s[1..])
  {
    forall i, j | 0 <= i < j < |s| - 1 ensures LexLe(s[1..][i], s[1..][j]) {
      assert s[1..][i] == s[i + 1] && s[1..][j] == s[j + 1];
    }
  }

  lemma SortedCons(x: string, s: seq<string>)
    requires Sorted(s)
    requires forall k :: 0 <= k < |s| ==> LexLe(x, s[k])
    ensures Sorted([x] + s)
  {
    var r := [x] + s;
    forall i, j | 0 <= i < j < |r| ensures LexLe(r[i], r[j]) {
      assert r[j] == s[j - 1];
      if i > 0 {
        assert r[i] == s[i - 1];
      }
    }
  }

  /** Inserts `x` in front of the first element it does not follow. */
  function Insert(x: string, s: seq<string>): (r: seq<string>)
    requires Sorted(s)
    ensures Sorted(r)
    ensures multiset(r) == multiset(s) + multiset{x}
  {
    if |s| == 0 then [x]
    else if LexLe(x, s[0]) then
      assert forall k :: 0 <= k < |s| ==> LexLe(x, s[k]) by {
        forall k | 0 < k < |s| {
          LexLeTransitive(x, s[0], s[k]);
        }
      }
      SortedCons(x, s);
      [x] + s
    else
      LexLeTotal(x, s[0]);
      SortedTail(s);
      var rest := Insert(x, s[1..]);
      assert s == [s[0]] + s[1..];
      assert forall k :: 0 <= k < |rest| ==> LexLe(s[0], rest[k]) by {
        forall k | 0 <= k < |rest| ensures LexLe(s[0], rest[k]) {
          assert rest[k] in multiset(rest);
          if rest[k] != x {
            assert rest[k] in s[1..];
          }
        }
      }
      SortedCons(s[0], rest);
      [s[0]] + rest
  }

  /** `list.sort()` on a list of strings. */
  function Sort(s: seq<string>): (r: seq<string>)
    ensures Sorted(r)
    ensures multiset(r) == multiset(s)
  {
    if |s| == 0 then []
    else
      assert s == [s[0]] + s[1..];
      Insert(s[0], Sort(s[1..]))
  }

  /** The first element of a sorted list is at most every element of it. */
  lemma SortedHeadLeast(s: seq<string>, e: string)
    requires Sorted(s) && e in s
    ensures LexLe(s[0], e)
  {
    var k :| 0 <= k < |s| && s[k] == e;
    if k == 0 {
      LexLeReflexive(e);
    }
  }

  /** Two sorted lists with the same elements start with the same element. */
  lemma SortedSameHead(a: seq<string>, b: seq<string>)
    requires Sorted(a) && Sorted(b) && multiset(a) == multiset(b) && |a| > 0
    ensures |b| > 0 && a[0] == b[0]
  {
    assert a[0] in multiset(b);
    assert b[0] in multiset(a);
    SortedHeadLeast(b, a[0]);
    SortedHeadLeast(a, b[0]);
    LexLeAntisymmetric(a[0], b[0]);
  }

  /** The tail of a list holds its elements less one occurrence of its head. */
  lemma MultisetTail(s: seq<string>)
    requires |s| > 0
    ensures multiset(s[1..]) == multiset(s) - multiset{s[0]}
  {
    assert s == [s[0]] + s[1..];
  }

  /** Sorting is determined by the contents: any two sorted lists with the same elements are equal. */
  lemma {:induction false} SortedPermutationsEqual(a: seq<string>, b: seq<string>)
    requires Sorted(a) && Sorted(b) && multiset(a) == multiset(b)
    ensures a == b
    decreases |a|
  {
    if |a| != 0 {
      SortedSameHead(a, b);
      MultisetTail(a);
      MultisetTail(b);
      SortedTail(a);
      SortedTail(b);
      SortedPermutationsEqual(a[1..], b[1..]);
      assert a == [a[0]] + a[1..];
      assert b == [b[0]] + b[1..];
    }
  }

  /** `sub` is `s` with some elements removed and the rest kept in order. */
  predicate IsSubsequence(sub: seq<string>, s: seq<string>)
    decreases |s|
  {
    if |sub| == 0 then true
    else if |s| == 0 then false
    else if sub[|sub| - 1] == s[|s| - 1] then IsSubsequence(sub[..|sub| - 1], s[..|s| - 1])
    else IsSubsequence(sub, s[..|s| - 1])
  }

  /** The elements of `s` that satisfy `keep`, in their order in `s`, every occurrence of them. */
  function Filter(s: seq<string>, keep: string -> bool): (r: seq<string>)
    ensures |r| <= |s|
    ensures forall e :: e in r <==> e in s && keep(e)
  {
    if |s| == 0 then []
    else
      var before := Filter(s[..|s| - 1], keep);
      assert s == s[..|s| - 1] + [s[|s| - 1]];
      if keep(s[|s| - 1]) then before + [s[|s| - 1]] else before
  }

  /** Filtering one more element appends it when it passes and nothing otherwise. */
  lemma FilterSnoc(s: seq<string>, x: string, keep: string -> bool)
    ensures Filter(s + [x], keep) == Filter(s, keep) + (if keep(x) then [x] else [])
  {
    assert (s + [x])[..|s + [x]| - 1] == s;
  }

  /** Filtering keeps every occurrence of a passing element and none of a failing one. */
  lemma {:induction false} FilterKeepsEveryCopy(s: seq<string>, keep: string -> bool)
    ensures forall e :: multiset(Filter(s, keep))[e] == (if keep(e) then multiset(s)[e] else 0)
  {
    if |s| != 0 {
      var init, last := s[..|s| - 1], s[|s| - 1];
      var before := Filter(init, keep);
      var added: seq<string> := if keep(last) then [last] else [];
      FilterKeepsEveryCopy(init, keep);
      assert s == init + [last];
      assert Filter(s, keep) == before + added by {
        FilterSnoc(init, last, keep);
      }
      assert multiset(s) == multiset(init) + multiset{last};
      assert multiset(before + added) == multiset(before) + multiset(added);
      forall e ensures multiset(Filter(s, keep))[e] == (if keep(e) then multiset(s)[e] else 0) {
        assert multiset(before)[e] == (if keep(e) then multiset(init)[e] else 0);
      }
    }
  }

  /** Filtering keeps order: the result is a subsequence of the input, and stays sorted when the input is. */
  lemma {:induction false} FilterIsOrderedSubsequence(s: seq<string>, keep: string -> bool)
    ensures IsSubsequence(Filter(s, keep), s)
    ensures Sorted(s) ==> Sorted(Filter(s, keep))
  {
    if |s| != 0 {
      var init := s[..|s| - 1];
      FilterIsOrderedSubsequence(init, keep);
      var before := Filter(init, keep);
      var r := Filter(s, keep);
      if keep(s[|s| - 1]) {
        assert r[..|r| - 1] == before;
      }
      if Sorted(s) {
        assert Sorted(init);
        forall i, j | 0 <= i < j < |r| ensures LexLe(r[i], r[j]) {
          assert r[i] in s && r[j] in s;
          if keep(s[|s| - 1]) && j == |r| - 1 {
            assert r[i] in init;
            var k :| 0 <= k < |init| && init[k] == r[i];
            assert LexLe(s[k], s[|s| - 1]);
          } else {
            assert r[i] == before[i] && r[j] == before[j];
          }
        }
      }
    }
  }
}
