/** Ordered integer sequences: ascending predicates, the filtered integer range
    that serves as the reference for every prime list in the model, and the
    uniqueness of an ascending arrangement. */
module Sequences {

  predicate Sorted(s: seq<int>) {
    forall i, j :: 0 <= i < j < |s| ==> s[i] <= s[j]
  }

  predicate StrictlyAscending(s: seq<int>) {
    forall i, j :: 0 <= i < j < |s| ==> s[i] < s[j]
  }

  predicate NoDuplicates(s: seq<int>) {
    forall i, j :: 0 <= i < j < |s| ==> s[i] != s[j]
  }

  /** The integers of [lo, hi] that `keep` accepts, in ascending order
      (`RangeFilterAscending`). */
  function RangeFilter(lo: int, hi: int, keep: int -> bool): (r: seq<int>)
    ensures forall x :: x in r <==> lo <= x <= hi && keep(x)
    ensures |r| <= if hi < lo then 0 else hi - lo + 1
    decreases hi - lo
  {
    if hi < lo then []
    else RangeFilter(lo, hi - 1, keep) + (if keep(hi) then [hi] else [])
  }

  lemma {:induction false} RangeFilterAscending(lo: int, hi: int, keep: int -> bool)
    ensures StrictlyAscending(RangeFilter(lo, hi, keep))
    decreases hi - lo
  {
    if lo <= hi {
      var below := RangeFilter(lo, hi - 1, keep);
      RangeFilterAscending(lo, hi - 1, keep);
      forall i | 0 <= i < |below|
        ensures below[i] < hi
      {
        assert below[i] in below;
      }
    }
  }

  /** Filtering two adjacent ranges and concatenating is filtering their union. */
  lemma {:induction false} RangeFilterSplit(lo: int, mid: int, hi: int, keep: int -> bool)
    requires lo <= mid + 1 <= hi + 1
    ensures RangeFilter(lo, mid, keep) + RangeFilter(mid + 1, hi, keep) == RangeFilter(lo, hi, keep)
    decreases hi - mid
  {
    if hi == mid {
      assert RangeFilter(mid + 1, hi, keep) == [];
    } else {
      RangeFilterSplit(lo, mid, hi - 1, keep);
      assert RangeFilter(lo, mid, keep) + RangeFilter(mid + 1, hi, keep)
          == (RangeFilter(lo, mid, keep) + RangeFilter(mid + 1, hi - 1, keep))
             + (if keep(hi) then [hi] else []);
    }
  }

  /** Two predicates that agree on [lo, hi] select the same sequence there. */
  lemma {:induction false} RangeFilterCongruent(lo: int, hi: int, f: int -> bool, g: int -> bool)
    requires forall x :: lo <= x <= hi ==> f(x) == g(x)
    ensures RangeFilter(lo, hi, f) == RangeFilter(lo, hi, g)
    decreases hi - lo
  {
    if lo <= hi {
      RangeFilterCongruent(lo, hi - 1, f, g);
    }
  }

  /** `RangeFilterSplit` counted as multisets. */
  lemma RangeFilterSplitMultiset(lo: int, mid: int, hi: int, keep: int -> bool)
    requires lo <= mid + 1 <= hi + 1
    ensures multiset(RangeFilter(lo, hi, keep))
            == multiset(RangeFilter(lo, mid, keep)) + multiset(RangeFilter(mid + 1, hi, keep))
  {
    RangeFilterSplit(lo, mid, hi, keep);
    var a, b := RangeFilter(lo, mid, keep), RangeFilter(mid + 1, hi, keep);
    assert multiset(a + b) == multiset(a) + multiset(b);
  }

  /** A non-empty sequence is its front followed by its last element. */
  lemma SplitLast(s: seq<int>)
    requires |s| > 0
    ensures s == s[..|s| - 1] + [s[|s| - 1]]
  {
  }

  lemma EmptyIfNoMembers(s: seq<int>)
    requires forall x :: x !in s
    ensures s == []
  {
    var x := if |s| > 0 then s[0] else 0;
    assert |s| > 0 ==> x in s;
    assert x !in s;
  }

  lemma StrictlyAscendingHasNoDuplicates(s: seq<int>)
    requires StrictlyAscending(s)
    ensures NoDuplicates(s)
  {
  }

  /** The head of a strictly ascending sequence is below every later value,
      so the tail holds exactly the other values. */
  lemma AscendingTail(s: seq<int>, x: int)
    requires StrictlyAscending(s) && |s| > 0
    ensures x in s ==> s[0] <= x
    ensures x in s[1..] <==> x in s && x != s[0]
  {
    if x in s {
      var k :| 0 <= k < |s| && s[k] == x;
    }
    if x in s[1..] {
      var k :| 1 <= k < |s| && s[k] == x;
    }
    assert s == [s[0]] + s[1..];
  }

  /** Two strictly ascending sequences holding the same values are equal. */
  lemma {:induction false} AscendingUnique(a: seq<int>, b: seq<int>)
    requires StrictlyAscending(a) && StrictlyAscending(b)
    requires forall x :: x in a <==> x in b
    ensures a == b
    decreases |a|
  {
    assert |b| > 0 ==> b[0] in b;
    if |a| > 0 {
      assert a[0] in a && a[0] in b;
      assert b[0] in b && b[0] in a;
      AscendingTail(a, b[0]);
      AscendingTail(b, a[0]);
      assert a[0] == b[0];
      forall x
        ensures x in a[1..] <==> x in b[1..]
      {
        AscendingTail(a, x);
        AscendingTail(b, x);
      }
      AscendingUnique(a[1..], b[1..]);
      assert a == [a[0]] + a[1..];
      assert b == [b[0]] + b[1..];
    }
  }

  /** A sorted sequence whose multiset is that of a strictly ascending one is
      that very sequence. */
  lemma SortedPermutationUnique(a: seq<int>, b: seq<int>)
    requires Sorted(a) && StrictlyAscending(b)
    requires multiset(a) == multiset(b)
    ensures a == b
  {
    forall x
      ensures x in a <==> x in b
    {
      assert x in a <==> x in multiset(a);
      assert x in b <==> x in multiset(b);
    }
    StrictlyAscendingHasNoDuplicates(b);
    NoDuplicatesOfSameMultiset(a, b);
    assert StrictlyAscending(a) by {
      forall i, j | 0 <= i < j < |a|
        ensures a[i] < a[j]
      {
        assert a[i] <= a[j] && a[i] != a[j];
      }
    }
    AscendingUnique(a, b);
  }

  lemma MultiplicityOfRepeated(a: seq<int>, i: int, j: int)
    requires 0 <= i < j < |a| && a[i] == a[j]
    ensures multiset(a)[a[i]] >= 2
  {
    assert a == a[..i] + [a[i]] + a[i + 1..j] + [a[j]] + a[j + 1..];
    assert multiset(a) == multiset(a[..i]) + multiset{a[i]} + multiset(a[i + 1..j])
                          + multiset{a[j]} + multiset(a[j + 1..]);
  }

  lemma {:induction false} MultiplicityAtMostOne(b: seq<int>, x: int)
    requires NoDuplicates(b)
    ensures multiset(b)[x] <= 1
    decreases |b|
  {
    if |b| > 0 {
      var t := b[..|b| - 1];
      assert b == t + [b[|b| - 1]];
      assert NoDuplicates(t);
      MultiplicityAtMostOne(t, x);
      if x == b[|b| - 1] {
        assert x !in t;
        assert multiset(t)[x] == 0;
      }
    }
  }

  /** A sequence whose multiset equals that of a duplicate-free one has no duplicates. */
  lemma NoDuplicatesOfSameMultiset(a: seq<int>, b: seq<int>)
    requires NoDuplicates(b) && multiset(a) == multiset(b)
    ensures NoDuplicates(a)
  {
    forall i, j | 0 <= i < j < |a|
      ensures a[i] != a[j]
    {
      if a[i] == a[j] {
        MultiplicityOfRepeated(a, i, j);
        MultiplicityAtMostOne(b, a[i]);
      }
    }
  }
}
