/** Heap sort on a heap whose root 0 has the single child 1, and where every i >= 1 has parent i / 2. */
module HeapSort {
  import opened Sorting

  /** No node below `from` (up to end) is greater than its parent. */
  ghost predicate HeapFrom(s: seq<Item>, from: int, end: int) {
    end < |s| && forall i :: 1 <= i <= end && i / 2 >= from ==> Fits(s, i)
  }

  ghost predicate Fits(s: seq<Item>, i: nat)
    requires 1 <= i < |s|
  {
    s[i].key <= s[i / 2].key
  }

  /** The child i of root is not greater than the parent of root. */
  ghost predicate Bridged(s: seq<Item>, root: nat, i: nat)
    requires i < |s| && root < |s|
  {
    i / 2 == root ==> s[i].key <= s[root / 2].key
  }

  /** As HeapFrom, except between root and its children; these are not greater than root's parent. */
  ghost predicate Sifting(s: seq<Item>, from: int, end: int, root: nat) {
    && end < |s| && root < |s|
    && (forall i :: 1 <= i <= end && i / 2 >= from && i / 2 != root ==> Fits(s, i))
    && (forall i :: 1 <= i <= end && root >= 1 && root / 2 >= from ==> Bridged(s, root, i))
  }

  function Swapped(s: seq<Item>, i: nat, j: nat): seq<Item>
    requires i < |s| && j < |s|
  {
    s[i := s[j]][j := s[i]]
  }

  ghost predicate LeastAmong(s: seq<Item>, root: nat, child: nat, i: nat)
    requires i < |s| && child < |s|
  {
    i / 2 == root ==> s[i].key <= s[child].key
  }

  lemma SiftOnce(s: seq<Item>, from: nat, end: nat, root: nat, child: nat)
    requires Sifting(s, from, end, root) && from <= root < child <= end && child / 2 == root
             && s[root].key < s[child].key
    requires forall i :: 1 <= i <= end ==> LeastAmong(s, root, child, i)
    ensures Sifting(Swapped(s, root, child), from, end, child)
  {
    var t := Swapped(s, root, child);
    forall i | 1 <= i <= end
      ensures i / 2 >= from && i / 2 != child ==> Fits(t, i)
      ensures child / 2 >= from ==> Bridged(t, child, i)
    {
      assert LeastAmong(s, root, child, i);
      if i / 2 >= from && i / 2 != root { assert Fits(s, i); }
      if root >= 1 && root / 2 >= from { assert Bridged(s, root, child); }
    }
  }

  /** The cells up to end are permuted, those after it unchanged. */
  ghost predicate Kept(s: seq<Item>, t: seq<Item>, end: int) {
    && -1 <= end < |s| == |t| && s[end + 1..] == t[end + 1..] && multiset(s[..end + 1]) == multiset(t[..end + 1])
  }

  lemma KeptIsPermutation(s: seq<Item>, t: seq<Item>, end: int)
    requires Kept(s, t, end)
    ensures multiset(s) == multiset(t)
  {
    assert s == s[..end + 1] + s[end + 1..] && t == t[..end + 1] + t[end + 1..];
  }

  lemma KeptCell(s: seq<Item>, t: seq<Item>, end: int, i: nat) returns (k: nat)
    requires Kept(s, t, end) && i <= end
    ensures k <= end && t[i] == s[k]
  {
    assert t[..end + 1][i] in multiset(s[..end + 1]);
    k :| 0 <= k < end + 1 && s[..end + 1][k] == t[i];
  }

  method Swap(dst: array<Item>, i: nat, j: nat, ghost pre: seq<Item>, ghost end: int)
    requires i <= end < dst.Length && j <= end && Kept(pre, dst[..], end)
    modifies dst
    ensures dst[..] == Swapped(old(dst[..]), i, j) && Kept(pre, dst[..], end)
  {
    ghost var now := dst[..];
    dst[i], dst[j] := dst[j], dst[i];
    assert dst[..] == Swapped(now, i, j);
    assert dst[..][..end + 1] == Swapped(now[..end + 1], i, j);
  }

  lemma Children(s: seq<Item>, root: nat, child: nat, end: int)
    requires end < |s| && root * 2 <= end
    requires child == if root * 2 < end && s[root * 2].key < s[root * 2 + 1].key then root * 2 + 1 else root * 2
    ensures forall i :: 1 <= i <= end ==> LeastAmong(s, root, child, i)
    ensures s[root].key < s[child].key ==> root < child
  {
    forall i | 1 <= i <= end
      ensures LeastAmong(s, root, child, i)
    {
      assert i / 2 == root ==> i == root * 2 || i == root * 2 + 1;
    }
  }

  lemma InPlace(s: seq<Item>, start: nat, end: int, root: nat, child: nat)
    requires root < |s| && child < |s| && Sifting(s, start, end, root) && s[child].key <= s[root].key
    requires forall i :: 1 <= i <= end ==> LeastAmong(s, root, child, i)
    ensures HeapFrom(s, start, end)
  {
    forall i | 1 <= i <= end && i / 2 >= start ensures Fits(s, i) { assert LeastAmong(s, root, child, i); }
  }

  lemma Fewer(s: seq<Item>, end: nat, t: seq<Item>)
    requires 0 < end < |s| && HeapFrom(s, 0, end) && t == Swapped(s, end, 0)
    ensures HeapFrom(t, 1, end - 1)
  {
    forall i | 1 <= i <= end - 1 && i / 2 >= 1 ensures Fits(t, i) { assert Fits(s, i); }
  }

  lemma SiftStart(s: seq<Item>, start: nat, end: int)
    requires HeapFrom(s, start + 1, end) && start <= |s|
    ensures if start < |s| then Sifting(s, start, end, start) else HeapFrom(s, start, end)
  {
  }

  lemma SiftEnd(s: seq<Item>, start: nat, end: int, root: nat)
    requires Sifting(s, start, end, root) && root * 2 > end
    ensures HeapFrom(s, start, end)
  {
    forall i | 1 <= i <= end && i / 2 >= start ensures Fits(s, i) { assert i / 2 != root; }
  }

  method SiftDown(dst: array<Item>, start: nat, end: int)
    requires -1 <= end < dst.Length && HeapFrom(dst[..], start + 1, end) && start <= dst.Length
    modifies dst
    ensures HeapFrom(dst[..], start, end) && Kept(old(dst[..]), dst[..], end)
  {
    ghost var pre := dst[..];
    var root := start;
    SiftStart(pre, start, end);
    while root * 2 <= end
      invariant start <= root && Kept(pre, dst[..], end)
      invariant if root < dst.Length then Sifting(dst[..], start, end, root)
                else root == start && HeapFrom(dst[..], start, end)
      decreases end - root
    {
      var child := root * 2;
      if child < end && Compare(dst[child], dst[child + 1]) < 0 { child := child + 1; }
      Children(dst[..], root, child, end);
      if Compare(dst[root], dst[child]) >= 0 {
        InPlace(dst[..], start, end, root, child);
        return;
      }
      SiftOnce(dst[..], start, end, root, child);
      Swap(dst, root, child, pre, end);
      root := child;
    }
    if root < dst.Length { SiftEnd(dst[..], start, end, root); }
  }

  lemma {:induction false} RootIsGreatest(s: seq<Item>, end: int, i: nat)
    requires HeapFrom(s, 0, end) && i <= end
    ensures s[i].key <= s[0].key
  {
    if i > 0 {
      RootIsGreatest(s, end, i / 2);
      assert Fits(s, i);
    }
  }

  lemma LeavesFit(s: seq<Item>, from: nat)
    requires from == |s| / 2 + 1
    ensures HeapFrom(s, from, |s| - 1)
  {
  }

  method Heapify(dst: array<Item>)
    modifies dst
    ensures HeapFrom(dst[..], 0, dst.Length - 1) && multiset(dst[..]) == multiset(old(dst[..]))
  {
    var start, last := dst.Length / 2, dst.Length - 1;
    LeavesFit(dst[..], start + 1);
    while start >= 0
      invariant -1 <= start <= dst.Length && HeapFrom(dst[..], start + 1, last)
                && multiset(dst[..]) == multiset(old(dst[..]))
      decreases start
    {
      SiftAll(dst, start, last);
      start := start - 1;
    }
  }

  method SiftAll(dst: array<Item>, start: nat, last: int)
    requires last == dst.Length - 1 && HeapFrom(dst[..], start + 1, last) && start <= dst.Length
    modifies dst
    ensures HeapFrom(dst[..], start, last) && multiset(dst[..]) == multiset(old(dst[..]))
  {
    ghost var before := dst[..];
    SiftDown(dst, start, last);
    KeptIsPermutation(before, dst[..], last);
  }

  /** The cells after end are sorted and not less than those up to end. */
  ghost predicate Tail(s: seq<Item>, end: int) {
    && -1 <= end < |s|
    && (forall i, j :: end < i <= j < |s| ==> s[i].key <= s[j].key)
    && (forall i, j :: 0 <= i <= end < j < |s| ==> s[i].key <= s[j].key)
  }

  /** Sorts, but not stably. */
  method HeapSort(dst: array<Item>)
    modifies dst
    ensures Sorted(dst[..]) && multiset(dst[..]) == multiset(old(dst[..]))
  {
    Heapify(dst);
    var end := dst.Length - 1;
    while end > 0
      invariant -1 <= end < dst.Length && (end == -1 ==> dst.Length == 0)
      invariant HeapFrom(dst[..], 0, end) && Tail(dst[..], end) && multiset(dst[..]) == multiset(old(dst[..]))
    {
      end := RemoveGreatest(dst, end);
    }
  }

  method RemoveGreatest(dst: array<Item>, end: nat) returns (end': int)
    requires 0 < end < dst.Length && HeapFrom(dst[..], 0, end) && Tail(dst[..], end)
    modifies dst
    ensures end' == end - 1 && HeapFrom(dst[..], 0, end') && Tail(dst[..], end')
            && multiset(dst[..]) == multiset(old(dst[..]))
  {
    ghost var pre := dst[..];
    Swap(dst, end, 0, pre, end);
    ghost var mid := dst[..];
    GreatestLast(pre, mid, end);
    KeptIsPermutation(pre, mid, end);
    end' := end - 1;
    SiftDown(dst, 0, end');
    KeptIsPermutation(mid, dst[..], end');
    TailGrows(mid, dst[..], end);
  }

  lemma GreatestLast(s: seq<Item>, t: seq<Item>, end: nat)
    requires 0 < end < |s| && HeapFrom(s, 0, end) && Tail(s, end) && t == Swapped(s, end, 0)
    ensures HeapFrom(t, 1, end - 1) && Tail(t, end) && forall i :: 0 <= i <= end ==> t[i].key <= t[end].key
  {
    Fewer(s, end, t);
    forall i | 0 <= i <= end ensures s[i].key <= s[0].key { RootIsGreatest(s, end, i); }
  }

  lemma TailGrows(s: seq<Item>, t: seq<Item>, end: nat)
    requires 0 < end < |s| && Kept(s, t, end - 1) && Tail(s, end)
    requires forall i :: 0 <= i <= end ==> s[i].key <= s[end].key
    ensures Tail(t, end - 1)
  {
    forall j | end <= j < |t| ensures t[j] == s[j] { assert t[j] == t[end..][j - end] == s[end..][j - end]; }
    forall i, j | 0 <= i <= end - 1 < j < |t|
      ensures t[i].key <= t[j].key
    {
      var k := KeptCell(s, t, end - 1, i);
    }
  }
}
