/** Sorting by a total order, the `Itertools::sorted` step of tree building.
    The model sorts by insertion; under a total order the sorted permutation
    of a sequence is unique, so the algorithm Rust uses does not matter. */
module Sorting {

  /** `le` is a total order: total, transitive and antisymmetric. */
  ghost predicate TotalOrder<T(!new)>(le: (T, T) -> bool) {
    && (forall x, y :: le(x, y) || le(y, x))
    && (forall x, y, z :: le(x, y) && le(y, z) ==> le(x, z))
    && (forall x, y :: le(x, y) && le(y, x) ==> x == y)
  }

  predicate Sorted<T>(s: seq<T>, le: (T, T) -> bool) {
    forall i, j :: 0 <= i < j < |s| ==> le(s[i], s[j])
  }

  /** Each element is in order with the next one. */
  predicate Chain<T>(s: seq<T>, le: (T, T) -> bool) {
    |s| <= 1 || (le(s[0], s[1]) && Chain(s[1..], le))
  }

  /** Under a transitive order, neighbours in order means all pairs in order. */
  lemma {:induction false} ChainSorted<T(!new)>(s: seq<T>, le: (T, T) -> bool)
    requires TotalOrder(le)
    ensures Chain(s, le) <==> Sorted(s, le)
  {
    if |s| > 1 {
      ChainSorted(s[1..], le);
      if Chain(s, le) {
        forall i, j | 0 <= i < j < |s|
          ensures le(s[i], s[j])
        {
          if i > 0 {
            assert le(s[1..][i - 1], s[1..][j - 1]);
          } else if j > 1 {
            assert le(s[1..][0], s[1..][j - 1]);
          }
        }
      }
      if Sorted(s, le) {
        assert le(s[0], s[1]);
        assert Sorted(s[1..], le) by {
          forall i, j | 0 <= i < j < |s| - 1
            ensures le(s[1..][i], s[1..][j])
          {
            assert le(s[i + 1], s[j + 1]);
          }
        }
      }
    }
  }

  /** Places `x` before the first element it does not follow. */
  function Insert<T(!new)>(x: T, s: seq<T>, le: (T, T) -> bool): (r: seq<T>)
    requires TotalOrder(le)
    requires Sorted(s, le)
    ensures Sorted(r, le)
    ensures multiset(r) == multiset(s) + multiset{x}
  {
    if |s| == 0 || le(x, s[0]) then
      [x] + s
    else
      var tail := Insert(x, s[1..], le);
      HeadBelow(x, s, tail, le);
      assert s == [s[0]] + s[1..];
      [s[0]] + tail
  }

  /** The head of a sorted sequence is below every element of its tail with
      an element it precedes added. */
  lemma HeadBelow<T(!new)>(x: T, s: seq<T>, tail: seq<T>, le: (T, T) -> bool)
    requires TotalOrder(le)
    requires |s| > 0 && Sorted(s, le) && le(s[0], x)
    requires multiset(tail) == multiset(s[1..]) + multiset{x}
    ensures forall j | 0 <= j < |tail| :: le(s[0], tail[j])
  {
    forall j | 0 <= j < |tail|
      ensures le(s[0], tail[j])
    {
      var y := tail[j];
      assert y in multiset(tail);
      if y != x {
        assert y in multiset(s[1..]);
        var k :| 0 <= k < |s[1..]| && s[1..][k] == y;
        assert s[k + 1] == y;
      }
    }
  }

  function Sort<T(!new)>(s: seq<T>, le: (T, T) -> bool): (r: seq<T>)
    requires TotalOrder(le)
    ensures Sorted(r, le)
    ensures multiset(r) == multiset(s)
  {
    if |s| == 0 then []
    else
      assert s == [s[0]] + s[1..];
      Insert(s[0], Sort(s[1..], le), le)
  }

  lemma MultisetTail<T>(s: seq<T>)
    requires |s| > 0
    ensures multiset(s[1..]) == multiset(s) - multiset{s[0]}
  {
    assert s == [s[0]] + s[1..];
  }

  /** The least element of a sorted sequence comes first. */
  lemma SortedHead<T(!new)>(s: seq<T>, x: T, le: (T, T) -> bool)
    requires Sorted(s, le) && x in multiset(s)
    requires forall y :: le(y, y)
    ensures le(s[0], x)
  {
    var i :| 0 <= i < |s| && s[i] == x;
    if i > 0 {
      assert le(s[0], s[i]);
    }
  }

  /** Two sorted sequences with the same elements start with the same one. */
  lemma SameHead<T(!new)>(a: seq<T>, b: seq<T>, le: (T, T) -> bool)
    requires TotalOrder(le)
    requires Sorted(a, le) && Sorted(b, le)
    requires multiset(a) == multiset(b) && |a| > 0
    ensures |b| == |a| && a[0] == b[0]
  {
    assert |b| == |multiset(b)| == |multiset(a)| == |a|;
    SortedHead(b, a[0], le);
    SortedHead(a, b[0], le);
  }

  lemma SameHeadTail<T>(a: seq<T>, b: seq<T>)
    requires |a| > 0 && |b| > 0 && a[0] == b[0] && a[1..] == b[1..]
    ensures a == b
  {
    assert a == [a[0]] + a[1..] && b == [b[0]] + b[1..];
  }

  lemma SortedTail<T>(s: seq<T>, le: (T, T) -> bool)
    requires Sorted(s, le) && |s| > 0
    ensures Sorted(s[1..], le)
  {
  }

  /** Under a total order, two sorted sequences holding the same elements are
      equal: sorting does not depend on the input order. */
  lemma {:induction false} SortedUnique<T(!new)>(a: seq<T>, b: seq<T>, le: (T, T) -> bool)
    requires TotalOrder(le)
    requires Sorted(a, le) && Sorted(b, le)
    requires multiset(a) == multiset(b)
    ensures a == b
  {
    if |a| == 0 {
      assert |b| == |multiset(b)| == 0;
    } else {
      SameHead(a, b, le);
      MultisetTail(a);
      MultisetTail(b);
      SortedTail(a, le);
      SortedTail(b, le);
      SortedUnique(a[1..], b[1..], le);
      SameHeadTail(a, b);
    }
  }

  /** The sort of a sequence is the one sorted sequence with its elements. */
  lemma SortIsUnique<T(!new)>(s: seq<T>, r: seq<T>, le: (T, T) -> bool)
    requires TotalOrder(le)
    requires Sorted(r, le) && multiset(r) == multiset(s)
    ensures Sort(s, le) == r
  {
    SortedUnique(Sort(s, le), r, le);
  }

  /** Every sorted rearrangement of `s` is the sort of `s`. */
  lemma SortedPermutations<T(!new)>(s: seq<T>, le: (T, T) -> bool)
    requires TotalOrder(le)
    ensures forall r | Sorted(r, le) && multiset(r) == multiset(s) :: r == Sort(s, le)
  {
    forall r | Sorted(r, le) && multiset(r) == multiset(s)
      ensures r == Sort(s, le)
    {
      SortIsUnique(s, r, le);
    }
  }

  /** The elements of a sequence, transformed one by one. */
  function Map<T, U>(f: T -> U, s: seq<T>): (r: seq<U>)
    ensures |r| == |s|
    ensures forall i | 0 <= i < |s| :: r[i] == f(s[i])
  {
    seq(|s|, i requires 0 <= i < |s| => f(s[i]))
  }

  lemma {:induction false} MapAppend<T, U>(f: T -> U, a: seq<T>, b: seq<T>)
    ensures Map(f, a + b) == Map(f, a) + Map(f, b)
  {
  }

  /** Transforming elements commutes with rearranging them. */
  lemma {:induction false} MapMultiset<T, U>(f: T -> U, a: seq<T>, b: seq<T>)
    requires multiset(a) == multiset(b)
    ensures multiset(Map(f, a)) == multiset(Map(f, b))
    decreases |a|
  {
    if |a| > 0 {
      var x := a[0];
      assert x in multiset(b);
      var j :| 0 <= j < |b| && b[j] == x;
      var a', b' := a[1..], b[..j] + b[j + 1..];
      assert a[..0] + a[1..] == a';
      MapTake(f, a, 0, a');
      MapTake(f, b, j, b');
      MapMultiset(f, a', b');
    }
  }

  /** Taking out the element at `j` takes its image out of the map. */
  lemma MapTake<T, U>(f: T -> U, s: seq<T>, j: nat, rest: seq<T>)
    requires j < |s| && rest == s[..j] + s[j + 1..]
    ensures multiset(rest) == multiset(s) - multiset{s[j]}
    ensures multiset(Map(f, s)) == multiset(Map(f, rest)) + multiset{f(s[j])}
  {
    var l, r := s[..j], s[j + 1..];
    assert s == l + [s[j]] + r;
    MapAppend(f, l + [s[j]], r);
    MapAppend(f, l, [s[j]]);
    MapAppend(f, l, r);
    assert Map(f, [s[j]]) == [f(s[j])];
  }
}
