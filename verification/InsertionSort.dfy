/** Binary insertion sort on the cells dst[off..off + size], as timsort and merge sort use it. */
module InsertionSort {
  import opened Sorting

  /** Where x goes in the sorted range: after every element not greater than it.  The last element
      is known to be greater than x, so no scan runs past the end. */
  method BinaryInsertionFind(dst: array<Item>, off: nat, x: Item, size: nat) returns (at: nat)
    requires size >= 1 && off + size <= dst.Length && Sorted(dst[off..off + size])
    requires x.key < dst[off + size - 1].key
    ensures at < size
    ensures forall i :: off <= i < off + at ==> dst[i].key <= x.key
    ensures forall i :: off + at <= i < off + size ==> x.key < dst[i].key
  {
    SortedSlice(dst[..], off, off + size);
    assert forall i :: 0 <= i < dst.Length ==> dst[i] == dst[..][i];
    var l, r := 0, size - 1;
    var c := r / 2;
    if Compare(x, dst[off + l]) < 0 {
      return 0;
    } else if Compare(x, dst[off + l]) == 0 {
      at := SkipEqual(dst, off, x, 1, size);
      return;
    }
    while true
      invariant 0 <= l <= c <= r < size && (l < r ==> c < r) && c == l + (r - l) / 2
      invariant dst[off + l].key < x.key < dst[off + r].key
      decreases r - l
    {
      var val := Compare(x, dst[off + c]);
      if val < 0 {
        if c - l <= 1 { return c; }
        r := c;
      } else if val > 0 {
        if r - c <= 1 { return c + 1; }
        l := c;
      } else {
        at := SkipEqual(dst, off, x, c + 1, size);
        return;
      }
      c := l + (r - l) / 2;
    }
  }

  /** Steps over the elements equal to x. */
  method SkipEqual(dst: array<Item>, off: nat, x: Item, start: nat, size: nat) returns (at: nat)
    requires 1 <= start < size && off + size <= dst.Length
    requires forall i, j :: off <= i <= j < off + size ==> dst[i].key <= dst[j].key
    requires dst[off + start - 1].key == x.key < dst[off + size - 1].key
    ensures start <= at < size
    ensures forall i :: off <= i < off + at ==> dst[i].key <= x.key
    ensures forall i :: off + at <= i < off + size ==> x.key < dst[i].key
  {
    at := start;
    while Compare(x, dst[off + at]) == 0
      invariant start <= at < size && dst[off + at - 1].key == x.key
      decreases size - at
    {
      at := at + 1;
    }
  }

  /** Shifts dst[off + at .. off + i] up by one cell and puts x into the gap. */
  method InsertAt(dst: array<Item>, off: nat, at: nat, i: nat, x: Item)
    requires at <= i && off + i < dst.Length && dst[off + i] == x
    modifies dst
    ensures dst[..] == old(dst[..off + at]) + [x] + old(dst[off + at..off + i]) + old(dst[off + i + 1..])
  {
    ghost var pre := dst[..];
    var j := i;
    while j > at
      invariant at <= j <= i
      invariant dst[..off + j] == pre[..off + j]
      invariant dst[off + j + 1..off + i + 1] == pre[off + j..off + i]
      invariant dst[off + i + 1..] == pre[off + i + 1..]
    {
      dst[off + j] := dst[off + j - 1];
      j := j - 1;
      assert dst[off + j + 1..off + i + 1] == [pre[off + j]] + pre[off + j + 1..off + i];
    }
    dst[off + at] := x;
    assert dst[..] == dst[..off + at] + [x] + dst[off + at + 1..off + i + 1] + dst[off + i + 1..];
  }

  /** Inserting x after the elements not greater than it keeps the range sorted and stable. */
  lemma InsertionIsStable(p: seq<Item>, q: seq<Item>, x: Item)
    requires Sorted(p + q)
    requires forall y :: y in p ==> y.key <= x.key
    requires forall y :: y in q ==> x.key < y.key
    ensures Sorted(p + [x] + q) && Stable(p + q + [x], p + [x] + q)
  {
    var t := p + [x] + q;
    forall i, j | 0 <= i <= j < |t|
      ensures t[i].key <= t[j].key
    {
      assert i < |p| ==> t[i] in p;
      assert j > |p| ==> t[j] in q;
      var s := p + q;
      if i != |p| && j != |p| {
        var i', j' := if i < |p| then i else i - 1, if j < |p| then j else j - 1;
        assert t[i] == s[i'] && t[j] == s[j'];
      }
    }
    StableMove(q, x);
    StableConcat(p, p, q + [x], [x] + q);
    assert p + q + [x] == p + (q + [x]) && p + [x] + q == p + ([x] + q);
  }

  /** Extends the sorted range by one element. */
  method InsertNext(dst: array<Item>, off: nat, i: nat)
    requires 1 <= i && off + i < dst.Length && Sorted(dst[off..off + i])
    modifies dst
    ensures Sorted(dst[off..off + i + 1]) && Rearranged(old(dst[..]), dst[..], off, off + i + 1)
  {
    ghost var pre := dst[..];
    if Compare(dst[off + i - 1], dst[off + i]) <= 0 {
      ghost var s := dst[off..off + i];
      assert dst[off..off + i + 1] == s + [dst[off + i]] && s[i - 1] == dst[off + i - 1];
      return;
    }
    var x := dst[off + i];
    var at := BinaryInsertionFind(dst, off, x, i);
    InsertAt(dst, off, at, i, x);
    InsertedInRange(pre, dst[..], off, at, i);
  }

  lemma InsertedInRange(pre: seq<Item>, post: seq<Item>, off: nat, at: nat, i: nat)
    requires at <= i && off + i < |pre| && Sorted(pre[off..off + i])
    requires forall k :: off <= k < off + at ==> pre[k].key <= pre[off + i].key
    requires forall k :: off + at <= k < off + i ==> pre[off + i].key < pre[k].key
    requires post == pre[..off + at] + [pre[off + i]] + pre[off + at..off + i] + pre[off + i + 1..]
    ensures Sorted(post[off..off + i + 1]) && Rearranged(pre, post, off, off + i + 1)
  {
    var x, p, q := pre[off + i], pre[off..off + at], pre[off + at..off + i];
    assert pre[off..off + i] == p + q;
    forall y | y in p ensures y.key <= x.key { var k :| 0 <= k < |p| && y == p[k]; assert y == pre[off + k]; }
    forall y | y in q ensures x.key < y.key { var k :| 0 <= k < |q| && y == q[k]; assert y == pre[off + at + k]; }
    InsertionIsStable(p, q, x);
    assert pre[off..off + i + 1] == p + q + [x];
    assert post[off..off + i + 1] == p + [x] + q;
    assert post[..off] == pre[..off] && post[off + i + 1..] == pre[off + i + 1..];
  }

  /** Sorts dst[off..off + size] when its first `start` elements are sorted already. */
  method BinaryInsertionSortStart(dst: array<Item>, off: nat, start: nat, size: nat)
    requires 1 <= start && off + size <= dst.Length
    requires Sorted(dst[off..off + if start <= size then start else size])
    modifies dst
    ensures Sorted(dst[off..off + size]) && Rearranged(old(dst[..]), dst[..], off, off + size)
  {
    ghost var pre := dst[..];
    var i := start;
    while i < size
      invariant start <= i && (start <= size ==> i <= size)
      invariant Sorted(dst[off..off + if i <= size then i else size]) && Rearranged(pre, dst[..], off, off + size)
    {
      ghost var before := dst[..];
      InsertNext(dst, off, i);
      RearrangedWiden(before, dst[..], off, off + i + 1, off, off + size);
      RearrangedTwice(pre, before, dst[..], off, off + size);
      i := i + 1;
    }
  }

  method BinaryInsertionSort(dst: array<Item>, off: nat, size: nat)
    requires off + size <= dst.Length
    modifies dst
    ensures Sorted(dst[off..off + size]) && Rearranged(old(dst[..]), dst[..], off, off + size)
  {
    BinaryInsertionSortStart(dst, off, 1, size);
  }
}
