/** Selecting the median in place, with the median of three as sentinel for both scans. */
module QuickSelect {

  // ----- Permuting a range -----

  /** From pre to post only the cells lo..hi, both included, are permuted. */
  ghost predicate Within(pre: seq<int>, post: seq<int>, lo: int, hi: int) {
    && |pre| == |post|
    && (0 <= lo <= hi + 1 <= |pre| ==>
          pre[..lo] == post[..lo] && pre[hi + 1..] == post[hi + 1..]
            && multiset(pre[lo..hi + 1]) == multiset(post[lo..hi + 1]))
  }

  function Swapped(s: seq<int>, i: nat, j: nat): seq<int>
    requires i < |s| && j < |s|
  {
    s[i := s[j]][j := s[i]]
  }

  lemma SwapIsPermutation(s: seq<int>, i: nat, j: nat)
    requires i < |s| && j < |s|
    ensures multiset(Swapped(s, i, j)) == multiset(s)
  {
  }

  lemma SwapWithin(s: seq<int>, i: nat, j: nat, lo: nat, hi: nat)
    requires lo <= i <= hi < |s| && lo <= j <= hi
    ensures Within(s, Swapped(s, i, j), lo, hi)
  {
    var t := Swapped(s, i, j);
    assert t[lo..hi + 1] == Swapped(s[lo..hi + 1], i - lo, j - lo);
    SwapIsPermutation(s[lo..hi + 1], i - lo, j - lo);
  }

  lemma WithinTwice(s: seq<int>, t: seq<int>, u: seq<int>, lo: nat, hi: nat)
    requires lo <= hi < |s| && Within(s, t, lo, hi) && Within(t, u, lo, hi)
    ensures Within(s, u, lo, hi)
  {
  }

  lemma WithinIsPermutation(s: seq<int>, t: seq<int>, lo: nat, hi: nat)
    requires lo <= hi < |s| && Within(s, t, lo, hi)
    ensures multiset(s) == multiset(t)
  {
    assert s == s[..lo] + s[lo..hi + 1] + s[hi + 1..] && t == t[..lo] + t[lo..hi + 1] + t[hi + 1..];
  }

  /** Every cell of the range holds what some cell of the range held. */
  lemma WithinCell(s: seq<int>, t: seq<int>, lo: nat, hi: nat, j: nat) returns (i: nat)
    requires lo <= j <= hi < |s| && Within(s, t, lo, hi)
    ensures lo <= i <= hi && s[i] == t[j]
  {
    assert t[lo..hi + 1][j - lo] in multiset(s[lo..hi + 1]);
    var k :| 0 <= k < hi + 1 - lo && s[lo..hi + 1][k] == t[j];
    i := lo + k;
  }

  // ----- The rank of a cell -----

  /** Nothing before m is greater, nothing after m is smaller. */
  ghost predicate Settled(s: seq<int>, m: nat) {
    m < |s| && (forall i :: 0 <= i < m ==> s[i] <= s[m]) && (forall i :: m <= i < |s| ==> s[m] <= s[i])
  }

  ghost predicate Sorted(s: seq<int>) { forall i, j :: 0 <= i <= j < |s| ==> s[i] <= s[j] }

  ghost function CountBelow(s: seq<int>, x: int): nat {
    if s == [] then 0 else (if s[0] < x then 1 else 0) + CountBelow(s[1..], x)
  }

  lemma {:induction false} CountConcat(s: seq<int>, t: seq<int>, x: int)
    ensures CountBelow(s + t, x) == CountBelow(s, x) + CountBelow(t, x)
  {
    if s == [] {
      assert s + t == t;
    } else {
      CountConcat(s[1..], t, x);
      assert (s + t)[1..] == s[1..] + t;
    }
  }

  lemma CountRemoved(t: seq<int>, k: nat, x: int)
    requires k < |t|
    ensures multiset(t[..k] + t[k + 1..]) == multiset(t) - multiset{t[k]}
    ensures CountBelow(t, x) == CountBelow(t[..k] + t[k + 1..], x) + if t[k] < x then 1 else 0
  {
    assert t == t[..k] + [t[k]] + t[k + 1..];
    CountConcat(t[..k], t[k + 1..], x);
    CountConcat(t[..k] + [t[k]], t[k + 1..], x);
    CountConcat(t[..k], [t[k]], x);
  }

  lemma {:induction false} CountPermuted(s: seq<int>, t: seq<int>, x: int)
    requires multiset(s) == multiset(t)
    ensures CountBelow(s, x) == CountBelow(t, x)
    decreases |s|
  {
    if s != [] {
      assert s[0] in multiset(t);
      var k :| 0 <= k < |t| && t[k] == s[0];
      CountRemoved(s, 0, x);
      CountRemoved(t, k, x);
      CountPermuted(s[..0] + s[1..], t[..k] + t[k + 1..], x);
    } else {
      assert |multiset(t)| == |t| == 0;
    }
  }

  lemma {:induction false} CountNone(s: seq<int>, x: int)
    requires forall i :: 0 <= i < |s| ==> x <= s[i]
    ensures CountBelow(s, x) == 0
  {
    if s != [] { CountNone(s[1..], x); }
  }

  lemma {:induction false} CountAtMost(s: seq<int>, x: int)
    ensures CountBelow(s, x) <= |s|
  {
    if s != [] { CountAtMost(s[1..], x); }
  }

  lemma {:induction false} CountAll(s: seq<int>, x: int)
    requires forall i :: 0 <= i < |s| ==> s[i] < x
    ensures CountBelow(s, x) == |s|
  {
    if s != [] { CountAll(s[1..], x); }
  }

  lemma SettledCount(s: seq<int>, m: nat, x: int)
    requires Settled(s, m)
    ensures x <= s[m] ==> CountBelow(s, x) <= m
    ensures s[m] < x ==> CountBelow(s, x) > m
  {
    assert s == s[..m] + s[m..] && s == s[..m + 1] + s[m + 1..];
    CountConcat(s[..m], s[m..], x);
    CountConcat(s[..m + 1], s[m + 1..], x);
    CountAtMost(s[..m], x);
    if x <= s[m] { CountNone(s[m..], x); }
    if s[m] < x { CountAll(s[..m + 1], x); }
  }

  /** A settled cell holds what the sorted array has there. */
  lemma SettledIsRank(s: seq<int>, sorted: seq<int>, m: nat)
    requires Settled(s, m) && Sorted(sorted) && multiset(s) == multiset(sorted)
    ensures |sorted| == |s| && s[m] == sorted[m]
  {
    assert |multiset(s)| == |s| && |multiset(sorted)| == |sorted|;
    assert Settled(sorted, m);
    CountPermuted(s, sorted, s[m]);
    CountPermuted(s, sorted, sorted[m]);
    SettledCount(s, m, sorted[m]);
    SettledCount(sorted, m, s[m]);
    SettledCount(s, m, s[m]);
    SettledCount(sorted, m, sorted[m]);
  }

  // ----- The algorithm -----

  method Swap(arr: array<int>, i: nat, j: nat, ghost pre: seq<int>, ghost lo: nat, ghost hi: nat)
    requires lo <= i <= hi < arr.Length && lo <= j <= hi && Within(pre, arr[..], lo, hi)
    modifies arr
    ensures arr[i] == old(arr[j]) && arr[j] == old(arr[i]) && Within(pre, arr[..], lo, hi)
    ensures forall k :: 0 <= k < arr.Length && k != i && k != j ==> arr[k] == old(arr[k])
  {
    ghost var now := arr[..];
    SwapWithin(now, i, j, lo, hi);
    arr[i], arr[j] := arr[j], arr[i];
    assert arr[..] == Swapped(now, i, j);
    WithinTwice(pre, now, arr[..], lo, hi);
  }

  /** Puts the median of the low, middle and high cells into the low cell, the smallest of the three
      behind it: neither scan can then run out of the range. */
  method MedianOfThree(arr: array<int>, low: nat, high: nat)
    requires low + 2 <= high < arr.Length
    modifies arr
    ensures arr[low + 1] <= arr[low] <= arr[high] && Within(old(arr[..]), arr[..], low, high)
  {
    ghost var pre := arr[..];
    var middle := (low + high) / 2;
    if arr[middle] > arr[high] { Swap(arr, middle, high, pre, low, high); }
    if arr[low] > arr[high] { Swap(arr, low, high, pre, low, high); }
    if arr[middle] > arr[low] { Swap(arr, middle, low, pre, low, high); }
    Swap(arr, middle, low + 1, pre, low, high);
  }

  method ScanUp(arr: array<int>, low: nat, start: nat, ghost stop: nat) returns (ll: nat)
    requires low < start <= stop < arr.Length && arr[low] <= arr[stop]
    ensures start <= ll <= stop && arr[low] <= arr[ll] && forall i :: start <= i < ll ==> arr[i] < arr[low]
  {
    ll := start;
    while arr[low] > arr[ll]
      invariant start <= ll <= stop && forall i :: start <= i < ll ==> arr[i] < arr[low]
      decreases stop - ll
    {
      ll := ll + 1;
    }
  }

  method ScanDown(arr: array<int>, low: nat, start: nat, ghost stop: nat) returns (hh: nat)
    requires low < stop <= start < arr.Length && arr[stop] <= arr[low]
    ensures stop <= hh <= start && arr[hh] <= arr[low] && forall i :: hh < i <= start ==> arr[low] < arr[i]
  {
    hh := start;
    while arr[hh] > arr[low]
      invariant stop <= hh <= start && forall i :: hh < i <= start ==> arr[low] < arr[i]
      decreases hh
    {
      hh := hh - 1;
    }
  }

  /** Both scans towards each other.  When they cross, a cell between them can only hold the pivot. */
  method Partition(arr: array<int>, low: nat, high: nat) returns (ll: nat, hh: nat)
    requires low + 2 <= high < arr.Length && arr[low + 1] <= arr[low] <= arr[high]
    modifies arr
    ensures low < hh < ll <= high && Within(old(arr[..]), arr[..], low, high)
    ensures forall i :: low <= i <= hh ==> arr[i] <= arr[hh]
    ensures forall i :: hh < i < ll ==> arr[i] == arr[hh]
    ensures forall i :: ll <= i <= high ==> arr[hh] <= arr[i]
  {
    ghost var pre, pivot := arr[..], arr[low];
    ll, hh := low + 1, high;
    while true
      invariant low < ll <= hh <= high && (hh == ll ==> low + 1 < ll && hh < high)
      invariant arr[low] == pivot && Within(pre, arr[..], low, high)
      invariant forall i :: low < i <= ll ==> arr[i] <= pivot
      invariant forall i :: hh <= i <= high ==> pivot <= arr[i]
      decreases hh - ll
    {
      ghost var ll0 := ll;
      ll := ScanUp(arr, low, ll + 1, if ll < hh then hh else high);
      hh := ScanDown(arr, low, hh - 1, if ll0 < hh then ll0 else ll0 - 1);
      if hh < ll { break; }
      Swap(arr, ll, hh, pre, low, high);
    }
    Swap(arr, low, hh, pre, low, high);
  }

  // ----- The selection -----

  /** Everything before the range is at most, everything after it at least what the range holds. */
  ghost predicate Bracketed(s: seq<int>, low: int, high: int) {
    && (forall i, j :: 0 <= i < low <= j < |s| ==> s[i] <= s[j])
    && (forall i, j :: 0 <= i <= high < j < |s| ==> s[i] <= s[j])
  }

  lemma BracketKept(s: seq<int>, t: seq<int>, low: nat, high: nat)
    requires low <= high < |s| && Bracketed(s, low, high) && Within(s, t, low, high)
    ensures Bracketed(t, low, high)
  {
    forall i, j | 0 <= i < low <= j < |t|
      ensures t[i] <= t[j]
    {
      assert t[i] == t[..low][i] == s[i];
      if j <= high {
        var k := WithinCell(s, t, low, high, j);
      } else {
        assert t[j] == t[high + 1..][j - high - 1] == s[j];
      }
    }
    forall i, j | 0 <= i <= high < j < |t|
      ensures t[i] <= t[j]
    {
      assert t[j] == t[high + 1..][j - high - 1] == s[j];
      if low <= i {
        var k := WithinCell(s, t, low, high, i);
      } else {
        assert t[i] == t[..low][i] == s[i];
      }
    }
  }

  /** Work to the right of a settled cell leaves it settled. */
  lemma SettledKept(s: seq<int>, t: seq<int>, m: nat, low: nat, high: nat)
    requires m < low <= high < |s| && Settled(s, m) && Within(s, t, low, high)
    ensures Settled(t, m)
  {
    forall i | 0 <= i <= m ensures t[i] == s[i] { assert t[i] == t[..low][i] == s[i]; }
    forall j | m <= j < |t|
      ensures t[m] <= t[j]
    {
      if low <= j <= high {
        var k := WithinCell(s, t, low, high, j);
      } else if j > high {
        assert t[j] == t[high + 1..][j - high - 1] == s[j];
      } else {
        assert t[j] == t[..low][j] == s[j];
      }
    }
  }

  /** The range still holds the median, or the median's cell to its left is settled. */
  ghost predicate Narrowed(s: seq<int>, m: nat, low: int, high: int) {
    if low <= m <= high then Bracketed(s, low, high) else Settled(s, m) && (low <= high ==> m < low)
  }

  /** What a partition around hh makes of the range. */
  lemma NarrowedByPartition(s: seq<int>, t: seq<int>, m: nat, low: nat, high: nat, ll: nat, hh: nat)
    requires low + 2 <= high < |s| && Narrowed(s, m, low, high) && Within(s, t, low, high) && low < hh < ll <= high
             && m < |s|
    requires forall i :: low <= i <= hh ==> t[i] <= t[hh]
    requires forall i :: hh < i < ll ==> t[i] == t[hh]
    requires forall i :: ll <= i <= high ==> t[hh] <= t[i]
    ensures Narrowed(t, m, if hh <= m then ll else low, if hh >= m then hh - 1 else high)
  {
    if low <= m <= high {
      BracketKept(s, t, low, high);
    } else {
      SettledKept(s, t, m, low, high);
    }
  }

  /** One round: partitions the range and keeps the side with the median. */
  method Narrow(arr: array<int>, low: nat, high: nat, median: nat) returns (low': nat, high': int)
    requires low + 2 <= high < arr.Length && median < arr.Length && Narrowed(arr[..], median, low, high)
    modifies arr
    ensures multiset(arr[..]) == multiset(old(arr[..])) && Narrowed(arr[..], median, low', high')
    ensures low' <= arr.Length && -1 <= high' < arr.Length && high' - low' < high - low
  {
    ghost var before := arr[..];
    MedianOfThree(arr, low, high);
    ghost var mid := arr[..];
    var ll, hh := Partition(arr, low, high);
    WithinTwice(before, mid, arr[..], low, high);
    WithinIsPermutation(before, arr[..], low, high);
    NarrowedByPartition(before, arr[..], median, low, high, ll, hh);
    low', high' := low, high;
    if hh <= median { low' := ll; }
    if hh >= median { high' := hh - 1; }
  }

  method SortTwo(arr: array<int>, low: nat, ghost median: nat)
    requires low + 1 < arr.Length && median < arr.Length && Narrowed(arr[..], median, low, low + 1)
    modifies arr
    ensures multiset(arr[..]) == multiset(old(arr[..])) && Settled(arr[..], median)
  {
    ghost var before := arr[..];
    if arr[low] > arr[low + 1] {
      Swap(arr, low, low + 1, before, low, low + 1);
      WithinIsPermutation(before, arr[..], low, low + 1);
    }
    LastTwo(before, arr[..], median, low);
  }

  /** The middle element of the sorted order, for any array that is not empty; the array is only
      permuted. */
  method Select(arr: array<int>) returns (r: int)
    requires arr.Length > 0
    modifies arr
    ensures multiset(arr[..]) == multiset(old(arr[..]))
    ensures forall sorted :: Sorted(sorted) && multiset(sorted) == multiset(old(arr[..])) ==>
              |sorted| == arr.Length && r == sorted[(arr.Length - 1) / 2]
  {
    var low, high, median := 0, arr.Length - 1, (arr.Length - 1) / 2;
    while high > low + 1
      invariant 0 <= low <= arr.Length && -1 <= high < arr.Length && Narrowed(arr[..], median, low, high)
      invariant multiset(arr[..]) == multiset(old(arr[..]))
      decreases high - low
    {
      low, high := Narrow(arr, low, high, median);
    }
    if high == low + 1 { SortTwo(arr, low, median); }
    r := arr[median];
    MedianHasRank(arr[..], median);
  }

  lemma MedianHasRank(s: seq<int>, m: nat)
    requires Settled(s, m)
    ensures forall sorted :: Sorted(sorted) && multiset(sorted) == multiset(s) ==> |sorted| == |s| && s[m] == sorted[m]
  {
    forall sorted | Sorted(sorted) && multiset(sorted) == multiset(s)
      ensures |sorted| == |s| && s[m] == sorted[m]
    {
      SettledIsRank(s, sorted, m);
    }
  }

  lemma LastTwo(s: seq<int>, t: seq<int>, m: nat, low: nat)
    requires low + 1 < |s| && Narrowed(s, m, low, low + 1) && Within(s, t, low, low + 1) && t[low] <= t[low + 1]
             && m < |s|
    ensures Settled(t, m)
  {
    if low <= m <= low + 1 {
      BracketKept(s, t, low, low + 1);
    } else {
      SettledKept(s, t, m, low, low + 1);
    }
  }
}
