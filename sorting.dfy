/** In-place sorting of the probe lists. C++ `std::sort` and Python `list.sort` are both
    modelled by one insertion sort over an array, proved to leave the array sorted by the
    given order and a permutation of what it held. Which order the caller passes decides
    what is promised: a comparison on the load alone leaves equal loads in an unspecified
    order (the unstable `std::sort`), while a total order (load, then sample position, or
    Python's tuple comparison) determines the result completely (SortedUnique). */
module Sorting {

  /** le is total and transitive. */
  ghost predicate IsTotalPreorder<T(!new)>(le: (T, T) -> bool)
  {
    && (forall x, y :: le(x, y) || le(y, x))
    && (forall x, y, z :: le(x, y) && le(y, z) ==> le(x, z))
  }

  predicate SortedBy<T>(s: seq<T>, le: (T, T) -> bool)
  {
    forall i, j :: 0 <= i < j < |s| ==> le(s[i], s[j])
  }

  /** Sorts a in place by le. */
  method SortBy<T(!new)>(a: array<T>, le: (T, T) -> bool)
    requires IsTotalPreorder(le)
    modifies a
    ensures SortedBy(a[..], le)
    ensures multiset(a[..]) == multiset(old(a[..]))
  {
    for i := 0 to a.Length
      invariant SortedBy(a[..i], le)
      invariant multiset(a[..]) == multiset(old(a[..]))
    {
      Insert(a, i, le);
    }
    assert a[..a.Length] == a[..];
  }

  /** Moves a[i] left until the element before it is not greater, so that a[..i + 1],
      sorted but for a[i], becomes sorted. */
  method Insert<T(!new)>(a: array<T>, i: nat, le: (T, T) -> bool)
    requires IsTotalPreorder(le)
    requires i < a.Length && SortedBy(a[..i], le)
    modifies a
    ensures SortedBy(a[..i + 1], le)
    ensures multiset(a[..]) == multiset(old(a[..]))
  {
    var j := i;
    while j > 0 && !le(a[j - 1], a[j])
      invariant 0 <= j <= i
      invariant forall p, q :: 0 <= p < q <= i && p != j && q != j ==> le(a[p], a[q])
      invariant forall q :: j < q <= i ==> le(a[j], a[q])
      invariant multiset(a[..]) == multiset(old(a[..]))
    {
      assert le(a[j], a[j - 1]);
      Swap(a, j - 1, j);
      j := j - 1;
    }
    InsertedSorted(a[..], j, i, le);
    assert a[..][..i + 1] == a[..i + 1];
  }

  /** Exchanges a[x] and a[y]. */
  method Swap<T>(a: array<T>, x: nat, y: nat)
    requires x < y < a.Length
    modifies a
    ensures a[x] == old(a[y]) && a[y] == old(a[x])
    ensures forall k :: 0 <= k < a.Length && k != x && k != y ==> a[k] == old(a[k])
    ensures multiset(a[..]) == multiset(old(a[..]))
  {
    a[x], a[y] := a[y], a[x];
  }

  /** When the element moved left stops at j, the first i + 1 elements are sorted. */
  lemma InsertedSorted<T(!new)>(s: seq<T>, j: nat, i: nat, le: (T, T) -> bool)
    requires IsTotalPreorder(le)
    requires j <= i < |s|
    requires forall p, q :: 0 <= p < q <= i && p != j && q != j ==> le(s[p], s[q])
    requires forall q :: j < q <= i ==> le(s[j], s[q])
    requires j == 0 || le(s[j - 1], s[j])
    ensures SortedBy(s[..i + 1], le)
  {
    forall p, q | 0 <= p < q <= i
      ensures le(s[p], s[q])
    {
      if q == j && p < j - 1 {
        assert le(s[p], s[j - 1]);
      }
    }
  }

  /** The first element of a sorted sequence is below everything in it. */
  lemma HeadIsLeast<T(!new)>(s: seq<T>, le: (T, T) -> bool, x: T)
    requires SortedBy(s, le) && s != []
    requires IsTotalPreorder(le)
    requires x in multiset(s)
    ensures le(s[0], x)
  {
    var k :| 0 <= k < |s| && s[k] == x;
    if k == 0 {
      assert le(x, x) || le(x, x);
    }
  }

  /** With an order that is antisymmetric on the elements involved, there is only one
      sorted arrangement of a multiset: a stable sort's result is determined by its
      input. */
  lemma {:induction false} SortedUnique<T(!new)>(s: seq<T>, t: seq<T>, le: (T, T) -> bool)
    requires IsTotalPreorder(le)
    requires forall i, j :: 0 <= i < |s| && 0 <= j < |s| && le(s[i], s[j]) && le(s[j], s[i]) ==> s[i] == s[j]
    requires SortedBy(s, le) && SortedBy(t, le)
    requires multiset(s) == multiset(t)
    ensures s == t
    decreases |s|
  {
    assert |s| == |multiset(s)| == |multiset(t)| == |t|;
    if s != [] {
      assert s[0] in multiset(t) && t[0] in multiset(s) by {
        assert s[0] in s && t[0] in t;
      }
      HeadIsLeast(t, le, s[0]);
      HeadIsLeast(s, le, t[0]);
      var k :| 0 <= k < |s| && s[k] == t[0];
      assert le(s[0], s[k]) && le(s[k], s[0]);
      assert s[0] == t[0];
      TailsAgree(s, t);
      assert SortedBy(s[1..], le) && SortedBy(t[1..], le);
      assert forall i, j :: 0 <= i < |s[1..]| && 0 <= j < |s[1..]| && le(s[1..][i], s[1..][j]) && le(s[1..][j], s[1..][i])
               ==> s[1..][i] == s[1..][j] by {
        forall i, j | 0 <= i < |s[1..]| && 0 <= j < |s[1..]|
          ensures s[1..][i] == s[i + 1] && s[1..][j] == s[j + 1]
        {
        }
      }
      SortedUnique(s[1..], t[1..], le);
    }
  }

  /** Two sequences with the same multiset and the same head have tails with the same
      multiset. */
  lemma TailsAgree<T>(s: seq<T>, t: seq<T>)
    requires s != [] && t != [] && s[0] == t[0] && multiset(s) == multiset(t)
    ensures multiset(s[1..]) == multiset(t[1..])
  {
    assert s == [s[0]] + s[1..];
    assert t == [t[0]] + t[1..];
    assert multiset(s[1..]) == multiset(s) - multiset([s[0]]);
    assert multiset(t[1..]) == multiset(t) - multiset([t[0]]);
  }
}
