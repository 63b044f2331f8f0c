/** klib::qsort: Hoare's partition, in place, with inner loops that test no bounds. */
module Quicksort {

  ghost predicate AtMost(s: seq<int>, v: int) {
    forall i :: 0 <= i < |s| ==> s[i] <= v
  }

  ghost predicate AtLeast(s: seq<int>, v: int) {
    forall i :: 0 <= i < |s| ==> v <= s[i]
  }

  ghost predicate Sorted(s: seq<int>) {
    forall i, j :: 0 <= i < j < |s| ==> s[i] <= s[j]
  }

  /** The array outside lo to hi is as it was, and inside it holds the same elements. */
  ghost predicate Shuffled(s: seq<int>, t: seq<int>, lo: nat, hi: nat) {
    && lo <= hi <= |s| == |t|
    && t[..lo] == s[..lo] && t[hi..] == s[hi..]
    && multiset(t[lo..hi]) == multiset(s[lo..hi])
  }

  lemma ShuffledTrans(s: seq<int>, t: seq<int>, u: seq<int>, lo: nat, hi: nat)
    requires Shuffled(s, t, lo, hi) && Shuffled(t, u, lo, hi)
    ensures Shuffled(s, u, lo, hi)
  {
  }

  lemma ShuffledSwap(s: seq<int>, lo: nat, hi: nat, i: nat, j: nat)
    requires lo <= i < j < hi <= |s|
    ensures Shuffled(s, s[i := s[j]][j := s[i]], lo, hi)
  {
    var t := s[i := s[j]][j := s[i]];
    var a, b, c := s[lo..i], s[i + 1..j], s[j + 1..hi];
    assert s[lo..hi] == a + [s[i]] + b + [s[j]] + c;
    assert t[lo..hi] == a + [s[j]] + b + [s[i]] + c;
    assert t[..lo] == s[..lo] && t[hi..] == s[hi..];
  }

  /** Shuffling a part shuffles the whole. */
  lemma ShuffledWider(s: seq<int>, t: seq<int>, lo: nat, p: nat, q: nat, hi: nat)
    requires Shuffled(s, t, p, q) && lo <= p && q <= hi <= |s|
    ensures Shuffled(s, t, lo, hi)
  {
    assert s[lo..hi] == s[..p][lo..] + s[p..q] + s[q..][..hi - q];
    assert t[lo..hi] == t[..p][lo..] + t[p..q] + t[q..][..hi - q];
    assert t[..lo] == t[..p][..lo] && s[..lo] == s[..p][..lo];
    assert t[hi..] == t[q..][hi - q..] && s[hi..] == s[q..][hi - q..];
  }

  lemma SameBounds(s: seq<int>, t: seq<int>, v: int)
    requires multiset(s) == multiset(t)
    ensures AtMost(s, v) ==> AtMost(t, v)
    ensures AtLeast(s, v) ==> AtLeast(t, v)
  {
    forall i | 0 <= i < |t|
      ensures AtMost(s, v) ==> t[i] <= v
      ensures AtLeast(s, v) ==> v <= t[i]
    {
      assert t[i] in multiset(t);
      assert t[i] in multiset(s);
      assert t[i] in s;
    }
  }

  /** One part of the array, split around a value. */
  ghost predicate Split(s: seq<int>, lo: nat, p: nat, hi: nat, v: int) {
    lo < p < hi <= |s| && AtMost(s[lo..p], v) && AtLeast(s[p..hi], v)
  }

  /** The first loop runs into an element not below the pivot before it leaves the array. */
  method ScanUp(a: array<int>, from: nat, pivot: int, ghost stop: nat) returns (low: nat)
    requires from <= stop < a.Length && pivot <= a[stop]
    ensures from <= low <= stop && pivot <= a[low]
    ensures forall i :: from <= i < low ==> a[i] < pivot
  {
    low := from;
    while a[low] < pivot
      invariant from <= low <= stop
      invariant forall i :: from <= i < low ==> a[i] < pivot
      decreases stop - low
    {
      low := low + 1;
    }
  }

  /** And the second into one not above it. */
  method ScanDown(a: array<int>, from: nat, pivot: int, ghost stop: nat) returns (high: nat)
    requires stop < from <= a.Length && a[stop] <= pivot
    ensures stop <= high < from && a[high] <= pivot
    ensures forall i :: high < i < from ==> pivot < a[i]
  {
    high := from - 1;
    while pivot < a[high]
      invariant stop <= high < from
      invariant forall i :: high < i < from ==> pivot < a[i]
      decreases high
    {
      high := high - 1;
    }
  }

  /** Between two swaps: what has been passed is on its side of the pivot, and both scans have an element to stop at. */
  ghost predicate Sifted(s: seq<int>, lo: nat, low: nat, high: nat, hi: nat, middle: nat, pivot: int) {
    && lo <= low <= high <= hi <= |s| && lo < middle < hi
    && (forall i :: lo <= i < low ==> s[i] <= pivot)
    && (forall i :: high <= i < hi ==> pivot <= s[i])
    && (if low == lo then high == hi && s[middle] == pivot else high < hi)
  }

  /** The scans stop at `low` and `high`. */
  ghost predicate Stopped(s: seq<int>, low0: nat, low: nat, high: nat, high0: nat, pivot: int) {
    && low0 <= low < |s| && pivot <= s[low] && (forall i :: low0 <= i < low ==> s[i] < pivot)
    && high < high0 <= |s| && s[high] <= pivot && (forall i :: high < i < high0 ==> pivot < s[i])
  }

  lemma SiftedSwap(s: seq<int>, lo: nat, low0: nat, low: nat, high: nat, high0: nat, hi: nat, middle: nat, pivot: int)
    requires Sifted(s, lo, low0, high0, hi, middle, pivot) && Stopped(s, low0, low, high, high0, pivot) && low < high
    ensures Sifted(s[low := s[high]][high := s[low]], lo, low + 1, high, hi, middle, pivot)
  {
  }

  lemma SiftedSplit(s: seq<int>, lo: nat, low0: nat, low: nat, high: nat, high0: nat, hi: nat, middle: nat, pivot: int)
    requires Sifted(s, lo, low0, high0, hi, middle, pivot) && Stopped(s, low0, low, high, high0, pivot) && high <= low
    requires low <= if low0 == lo then middle else high0
    requires low == lo ==> middle <= high
    ensures Split(s, lo, low, hi, pivot)
  {
    forall i | 0 <= i < |s[lo..low]|
      ensures s[lo..low][i] <= pivot
    {
      assert s[lo..low][i] == s[lo + i];
    }
    forall i | 0 <= i < |s[low..hi]|
      ensures pivot <= s[low..hi][i]
    {
      assert s[low..hi][i] == s[low + i];
    }
  }

  method Swap(a: array<int>, i: nat, j: nat)
    requires i < j < a.Length
    modifies a
    ensures a[..] == old(a[..])[i := old(a[j])][j := old(a[i])]
  {
    a[i], a[j] := a[j], a[i];
  }

  /** qsort_partition: a strict split of any stretch of two elements or more. */
  method Partition(a: array<int>, lo: nat, hi: nat) returns (p: nat, ghost v: int)
    requires lo + 2 <= hi <= a.Length
    modifies a
    ensures Shuffled(old(a[..]), a[..], lo, hi) && Split(a[..], lo, p, hi, v)
  {
    var middle := lo + (hi - lo) / 2;
    var pivot := a[middle];
    v := pivot;
    var low: nat, high: nat := lo, hi;
    while true
      invariant Sifted(a[..], lo, low, high, hi, middle, pivot) && Shuffled(old(a[..]), a[..], lo, hi)
      decreases high - low
    {
      ghost var low0, high0, s := low, high, a[..];
      low := ScanUp(a, low, pivot, if low == lo then middle else high);
      high := ScanDown(a, high, pivot, if low == lo then middle else low - 1);
      assert Stopped(s, low0, low, high, high0, pivot);
      if low >= high {
        SiftedSplit(s, lo, low0, low, high, high0, hi, middle, pivot);
        return low, pivot;
      }
      SiftedSwap(s, lo, low0, low, high, high0, hi, middle, pivot);
      ShuffledSwap(s, lo, hi, low, high);
      Swap(a, low, high);
      ShuffledTrans(old(a[..]), s, a[..], lo, hi);
      low := low + 1;
    }
  }

  /** Two sorted halves of a split are sorted together. */
  lemma SortedJoin(s: seq<int>, lo: nat, p: nat, hi: nat, v: int)
    requires Split(s, lo, p, hi, v) && Sorted(s[lo..p]) && Sorted(s[p..hi])
    ensures Sorted(s[lo..hi])
  {
    var t := s[lo..hi];
    forall i, j | 0 <= i < j < |t|
      ensures t[i] <= t[j]
    {
      if j < p - lo {
        assert t[i] == s[lo..p][i] && t[j] == s[lo..p][j];
      } else if i >= p - lo {
        assert t[i] == s[p..hi][i - (p - lo)] && t[j] == s[p..hi][j - (p - lo)];
      } else {
        assert t[i] == s[lo..p][i] && t[j] == s[p..hi][j - (p - lo)];
      }
    }
  }

  lemma SplitKept(s: seq<int>, t: seq<int>, lo: nat, p: nat, hi: nat, v: int, left: bool)
    requires Split(s, lo, p, hi, v) && if left then Shuffled(s, t, lo, p) else Shuffled(s, t, p, hi)
    ensures Split(t, lo, p, hi, v)
    ensures !left ==> t[lo..p] == s[lo..p]
  {
    if left {
      SameBounds(s[lo..p], t[lo..p], v);
      assert t[p..hi] == t[p..][..hi - p] && s[p..hi] == s[p..][..hi - p];
    } else {
      SameBounds(s[p..hi], t[p..hi], v);
      assert t[lo..p] == t[..p][lo..] && s[lo..p] == s[..p][lo..];
    }
  }

  /** qsort over the elements lo to hi. */
  method Sort(a: array<int>, lo: nat, hi: nat)
    requires lo <= hi <= a.Length
    modifies a
    ensures Shuffled(old(a[..]), a[..], lo, hi) && Sorted(a[lo..hi])
    decreases hi - lo
  {
    if hi - lo < 2 {
      return;
    }
    ghost var s0 := a[..];
    ghost var v;
    var p;
    p, v := Partition(a, lo, hi);
    ghost var s1 := a[..];
    Sort(a, lo, p);
    ghost var s2 := a[..];
    SplitKept(s1, s2, lo, p, hi, v, true);
    ShuffledWider(s1, s2, lo, lo, p, hi);
    Sort(a, p, hi);
    SplitKept(s2, a[..], lo, p, hi, v, false);
    ShuffledWider(s2, a[..], lo, p, hi, hi);
    ShuffledTrans(s0, s1, s2, lo, hi);
    ShuffledTrans(s0, s2, a[..], lo, hi);
    assert a[lo..p] == a[..][lo..p] && a[p..hi] == a[..][p..hi] && a[lo..hi] == a[..][lo..hi];
    SortedJoin(a[..], lo, p, hi, v);
  }
}
