/**
  `sorted(image_groups.items())`: the group ids in Python's string order.
  Python compares strings code point by code point, a proper prefix coming
  first.  The ids of a scan are distinct, so the items compare by id alone
  and the lists never take part.  `sorted` is a library call, so it is a
  function here, proved to return the unique increasing arrangement of its
  input.
 */
module Sorting {
  import opened Collections

  /** `a < b` on Python strings. */
  predicate LexLess(a: string, b: string)
    decreases |a|
  {
    |b| > 0 && (|a| == 0 || a[0] < b[0] || (a[0] == b[0] && LexLess(a[1..], b[1..])))
  }

  lemma {:induction false} LexIrreflexive(a: string)
    ensures !LexLess(a, a)
    decreases |a|
  {
    if |a| > 0 {
      LexIrreflexive(a[1..]);
    }
  }

  lemma {:induction false} LexTransitive(a: string, b: string, c: string)
    requires LexLess(a, b) && LexLess(b, c)
    ensures LexLess(a, c)
    decreases |a|
  {
    if |a| > 0 && a[0] == b[0] && b[0] == c[0] {
      LexTransitive(a[1..], b[1..], c[1..]);
    }
  }

  /** Any two different strings are ordered one way or the other. */
  lemma {:induction false} LexTotal(a: string, b: string)
    requires a != b
    ensures LexLess(a, b) || LexLess(b, a)
    decreases |a|
  {
    if |a| > 0 && |b| > 0 && a[0] == b[0] {
      assert a == [a[0]] + a[1..] && b == [b[0]] + b[1..];
      LexTotal(a[1..], b[1..]);
    }
  }

  lemma LexAsymmetric(a: string, b: string)
    ensures LexLess(a, b) ==> !LexLess(b, a)
  {
    if LexLess(a, b) && LexLess(b, a) {
      LexTransitive(a, b, a);
      LexIrreflexive(a);
    }
  }

  /** Not-below is transitive. */
  lemma LexNotBelowTransitive(a: string, b: string, c: string)
    requires !LexLess(b, a) && !LexLess(c, b)
    ensures !LexLess(c, a)
  {
    if a != b && b != c {
      LexTotal(a, b);
      LexTotal(b, c);
      LexTransitive(a, b, c);
      LexAsymmetric(a, c);
    }
  }

  /** Non-decreasing in Python's order. */
  ghost predicate Sorted(s: seq<string>) {
    forall i, j :: 0 <= i < j < |s| ==> !LexLess(s[j], s[i])
  }

  /** Strictly increasing in Python's order. */
  ghost predicate Increasing(s: seq<string>) {
    forall i, j :: 0 <= i < j < |s| ==> LexLess(s[i], s[j])
  }

  /** Inserting `x` before the first element not below it. */
  function Insert(x: string, s: seq<string>): (r: seq<string>)
    ensures multiset(r) == multiset(s) + multiset{x}
    decreases |s|
  {
    if |s| == 0 || !LexLess(s[0], x) then [x] + s
    else
      assert s == [s[0]] + s[1..];
      [s[0]] + Insert(x, s[1..])
  }

  /** `sorted(keys)`, as an insertion sort. */
  function Sort(s: seq<string>): (r: seq<string>)
    ensures multiset(r) == multiset(s)
    decreases |s|
  {
    if |s| == 0 then []
    else
      assert s == [s[0]] + s[1..];
      Insert(s[0], Sort(s[1..]))
  }

  lemma {:induction false} InsertSorted(x: string, s: seq<string>)
    requires Sorted(s)
    ensures Sorted(Insert(x, s))
    decreases |s|
  {
    if |s| == 0 {
    } else if !LexLess(s[0], x) {
      var r := [x] + s;
      forall i, j | 0 <= i < j < |r| ensures !LexLess(r[j], r[i]) {
        if i == 0 && j > 1 {
          LexNotBelowTransitive(x, s[0], s[j - 1]);
        }
      }
    } else {
      var t := s[1..];
      InsertSorted(x, t);
      var it := Insert(x, t);
      var r := [s[0]] + it;
      forall i, j | 0 <= i < j < |r| ensures !LexLess(r[j], r[i]) {
        if i == 0 {
          assert r[j] in multiset(it);
          assert r[j] in multiset(t) + multiset{x};
          if r[j] == x {
            LexAsymmetric(s[0], x);
          } else {
            assert r[j] in t;
            var k :| 0 <= k < |t| && t[k] == r[j];
            assert !LexLess(s[k + 1], s[0]);
          }
        }
      }
    }
  }

  lemma {:induction false} SortSorted(s: seq<string>)
    ensures Sorted(Sort(s))
    decreases |s|
  {
    if |s| > 0 {
      SortSorted(s[1..]);
      InsertSorted(s[0], Sort(s[1..]));
    }
  }

  lemma DistinctIncreasing(s: seq<string>)
    requires Sorted(s) && Distinct(s)
    ensures Increasing(s)
  {
    forall i, j | 0 <= i < j < |s| ensures LexLess(s[i], s[j]) {
      LexTotal(s[i], s[j]);
    }
  }

  lemma {:induction false} DistinctCount(a: seq<string>, x: string)
    requires Distinct(a)
    ensures multiset(a)[x] <= 1
    decreases |a|
  {
    if |a| > 0 {
      var n := |a|;
      assert a == a[..n - 1] + [a[n - 1]];
      DistinctCount(a[..n - 1], x);
      assert a[n - 1] !in a[..n - 1];
    }
  }

  lemma DuplicateCount(b: seq<string>, i: nat, j: nat)
    requires i < j < |b|
    ensures b[i] == b[j] ==> multiset(b)[b[i]] >= 2
  {
    assert b == b[..i] + [b[i]] + b[i + 1..j] + [b[j]] + b[j + 1..];
  }

  lemma PermutationDistinct(a: seq<string>, b: seq<string>)
    requires multiset(a) == multiset(b) && Distinct(a)
    ensures Distinct(b)
  {
    forall i, j | 0 <= i < j < |b| ensures b[i] != b[j] {
      DistinctCount(a, b[i]);
      DuplicateCount(b, i, j);
    }
  }

  /** Two increasing lists with the same elements start alike. */
  lemma IncreasingHeads(a: seq<string>, b: seq<string>)
    requires Increasing(a) && Increasing(b) && multiset(a) == multiset(b) && |a| > 0
    ensures |b| > 0 && a[0] == b[0]
  {
    assert a[0] in multiset(b);
    var i :| 0 <= i < |b| && b[i] == a[0];
    assert b[0] in multiset(a);
    var j :| 0 <= j < |a| && a[j] == b[0];
    assert i == 0 || LexLess(b[0], a[0]);
    assert j == 0 || LexLess(a[0], b[0]);
    LexAsymmetric(a[0], b[0]);
  }

  lemma TailMultiset(a: seq<string>)
    requires |a| > 0
    ensures multiset(a[1..]) == multiset(a) - multiset{a[0]}
  {
    assert a == [a[0]] + a[1..];
  }

  /** An increasing list is determined by its elements. */
  lemma {:induction false} IncreasingUnique(a: seq<string>, b: seq<string>)
    requires Increasing(a) && Increasing(b) && multiset(a) == multiset(b)
    ensures a == b
    decreases |a|
  {
    if |a| > 0 {
      IncreasingHeads(a, b);
      TailMultiset(a);
      TailMultiset(b);
      IncreasingUnique(a[1..], b[1..]);
      assert a == [a[0]] + a[1..] && b == [b[0]] + b[1..];
    } else {
      assert |b| == 0 by { assert |multiset(a)| == |multiset(b)|; }
    }
  }

  /** `sorted` of distinct ids: a strictly increasing permutation, and the
      only one. */
  lemma SortOfDistinct(s: seq<string>)
    requires Distinct(s)
    ensures multiset(Sort(s)) == multiset(s)
    ensures Distinct(Sort(s)) && Increasing(Sort(s))
    ensures forall t :: Increasing(t) && multiset(t) == multiset(s) ==> t == Sort(s)
  {
    SortSorted(s);
    PermutationDistinct(s, Sort(s));
    DistinctIncreasing(Sort(s));
    forall t | Increasing(t) && multiset(t) == multiset(s) ensures t == Sort(s) {
      IncreasingUnique(t, Sort(s));
    }
  }
}
