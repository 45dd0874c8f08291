/** Ascending sort of unsigned observations, specified as the unique sorted
    permutation of its input. */
module Sorting {

  /** Every element is at most every later element. */
  predicate Sorted(s: seq<nat>) {
    forall i, j :: 0 <= i <= j < |s| ==> s[i] <= s[j]
  }

  /** Inserts `x` into the sorted sequence `s` before its first element not below `x`. */
  function Insert(x: nat, s: seq<nat>): (r: seq<nat>)
    requires Sorted(s)
    ensures Sorted(r)
    ensures multiset(r) == multiset(s) + multiset{x}
    ensures |r| == |s| + 1
  {
    if |s| == 0 || x <= s[0] then [x] + s
    else
      var rest := Insert(x, s[1..]);
      assert s == [s[0]] + s[1..];
      assert forall i :: 0 <= i < |rest| ==> s[0] <= rest[i] by {
        forall i | 0 <= i < |rest|
          ensures s[0] <= rest[i]
        {
          assert rest[i] in multiset(s[1..]) + multiset{x};
        }
      }
      [s[0]] + rest
  }

  /** Insertion sort: the result is sorted and holds the same observations. */
  function Sort(s: seq<nat>): (r: seq<nat>)
    ensures Sorted(r)
    ensures multiset(r) == multiset(s)
    ensures |r| == |s|
  {
    if |s| == 0 then []
    else
      assert s == [s[0]] + s[1..];
      Insert(s[0], Sort(s[1..]))
  }

  /** The first element of a non-empty sorted sequence is its least element. */
  lemma SortedHeadIsLeast(s: seq<nat>, x: nat)
    requires Sorted(s) && x in multiset(s)
    ensures |s| > 0 && s[0] <= x
  {
    var i :| 0 <= i < |s| && s[i] == x;
  }

  /** A sorted permutation is unique: two sorted sequences with the same
      multiset of elements are equal. */
  lemma {:induction false} SortedPermutationUnique(a: seq<nat>, b: seq<nat>)
    requires Sorted(a) && Sorted(b)
    requires multiset(a) == multiset(b)
    ensures a == b
  {
    if |a| == 0 {
      assert |multiset(b)| == 0;
    } else {
      assert a[0] == b[0] by {
        assert a[0] in multiset(a);
        SortedHeadIsLeast(b, a[0]);
        assert b[0] in multiset(b);
        SortedHeadIsLeast(a, b[0]);
      }
      DropHead(a);
      DropHead(b);
      SortedPermutationUnique(a[1..], b[1..]);
      assert |a| == |b| by {
        assert |a| == |multiset(a)| && |b| == |multiset(b)|;
      }
      assert forall i :: 0 <= i < |a| ==> a[i] == b[i] by {
        forall i | 0 < i < |a|
          ensures a[i] == b[i]
        {
          assert a[i] == a[1..][i - 1] && b[i] == b[1..][i - 1];
        }
      }
    }
  }

  /** Dropping the head of a sorted sequence keeps it sorted and removes one
      copy of the head from its multiset. */
  lemma DropHead(s: seq<nat>)
    requires Sorted(s) && |s| > 0
    ensures Sorted(s[1..])
    ensures multiset(s[1..]) == multiset(s) - multiset{s[0]}
  {
    assert s == [s[0]] + s[1..];
  }

  /** Sorting depends only on the multiset of its input, not on its order. */
  lemma SortIgnoresOrder(s: seq<nat>, t: seq<nat>)
    requires multiset(s) == multiset(t)
    ensures Sort(s) == Sort(t)
  {
    SortedPermutationUnique(Sort(s), Sort(t));
  }

  /** Any sorted permutation of the input is what `Sort` returns. */
  lemma SortIsTheSortedPermutation(s: seq<nat>, sorted: seq<nat>)
    requires Sorted(sorted) && multiset(sorted) == multiset(s)
    ensures Sort(s) == sorted
  {
    SortedPermutationUnique(Sort(s), sorted);
  }

  /** How many elements of `s` are at most `v`. */
  function CountAtMost(s: seq<nat>, v: nat): nat {
    if |s| == 0 then 0
    else (if s[0] <= v then 1 else 0) + CountAtMost(s[1..], v)
  }

  /** Counting distributes over concatenation. */
  lemma {:induction false} CountAtMostAppend(s: seq<nat>, t: seq<nat>, v: nat)
    ensures CountAtMost(s + t, v) == CountAtMost(s, v) + CountAtMost(t, v)
  {
    if |s| == 0 {
      assert s + t == t;
    } else {
      assert (s + t)[1..] == s[1..] + t;
      CountAtMostAppend(s[1..], t, v);
    }
  }

  /** Removing the element at `k` removes one copy of it from the multiset
      and, if it is at most `v`, one from the count. */
  lemma RemoveAt(t: seq<nat>, k: nat, v: nat)
    requires k < |t|
    ensures multiset(t[..k] + t[k + 1..]) == multiset(t) - multiset{t[k]}
    ensures CountAtMost(t, v) == CountAtMost(t[..k] + t[k + 1..], v) + (if t[k] <= v then 1 else 0)
  {
    assert t == t[..k] + [t[k]] + t[k + 1..];
    CountAtMostAppend(t[..k] + [t[k]], t[k + 1..], v);
    CountAtMostAppend(t[..k], [t[k]], v);
    CountAtMostAppend(t[..k], t[k + 1..], v);
  }

  /** The count depends only on the multiset of elements. */
  lemma {:induction false} CountAtMostPermutation(s: seq<nat>, t: seq<nat>, v: nat)
    requires multiset(s) == multiset(t)
    ensures CountAtMost(s, v) == CountAtMost(t, v)
  {
    if |s| == 0 {
      assert |t| == |multiset(t)| == 0;
    } else {
      assert s[0] in multiset(t);
      var k :| 0 <= k < |t| && t[k] == s[0];
      RemoveAt(t, k, v);
      assert s == [s[0]] + s[1..];
      assert multiset(s[1..]) == multiset(s) - multiset{s[0]};
      CountAtMostPermutation(s[1..], t[..k] + t[k + 1..], v);
    }
  }

  /** If the first `m` elements are at most `v`, at least `m` elements are. */
  lemma {:induction false} CountAtMostPrefix(s: seq<nat>, m: nat, v: nat)
    requires m <= |s|
    requires forall j :: 0 <= j < m ==> s[j] <= v
    ensures CountAtMost(s, v) >= m
  {
    if m > 0 {
      CountAtMostPrefix(s[1..], m - 1, v);
    }
  }
}
