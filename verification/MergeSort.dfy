/** Merge sort: halves are sorted recursively and merged through a new array. */
module MergeSort {
  import opened Sorting
  import opened InsertionSort
  import opened Merging

  /** The merge of dst[off..off + middle] and dst[off + middle..off + size]. */
  method MergeInto(dst: array<Item>, off: nat, middle: nat, size: nat, newdst: array<Item>, ghost plan: Plan)
    requires off + size <= dst.Length && middle <= size == newdst.Length && newdst != dst && plan.Valid()
    requires plan.xs == dst[off..off + middle] && plan.ys == dst[off + middle..off + size]
    modifies newdst
    ensures newdst[..] == plan.zs
  {
    var out, i, j := 0, 0, middle;
    while out != size
      invariant 0 <= out <= size && i == plan.counts[out] && out == i + j - middle
      invariant forall n :: 0 <= n < out ==> newdst[n] == plan.zs[n]
      decreases size - out
    {
      assert plan.Up(out);
      if i < middle {
        if j < size {
          if Compare(dst[off + i], dst[off + j]) <= 0 {
            newdst[out] := dst[off + i];
            i := i + 1;
          } else {
            newdst[out] := dst[off + j];
            j := j + 1;
          }
        } else {
          newdst[out] := dst[off + i];
          i := i + 1;
        }
      } else {
        newdst[out] := dst[off + j];
        j := j + 1;
      }
      out := out + 1;
    }
  }

  /** Sorts dst[off..off + size], stably. */
  method MergeSort(dst: array<Item>, off: nat, size: nat)
    requires off + size <= dst.Length
    modifies dst
    ensures Sorted(dst[off..off + size]) && Rearranged(old(dst[..]), dst[..], off, off + size)
    decreases size
  {
    if size < 16 {
      BinaryInsertionSort(dst, off, size);
      return;
    }
    var middle := size / 2;
    ghost var pre := dst[..];
    SortHalves(dst, off, middle, size);
    ghost var mid := dst[..];
    MergeHalves(dst, off, middle, size);
    RearrangedTwice(pre, mid, dst[..], off, off + size);
  }

  method CopyBack(dst: array<Item>, off: nat, newdst: array<Item>, ghost pre: seq<Item>)
    requires off + newdst.Length <= dst.Length && dst != newdst && pre == dst[..]
    modifies dst
    ensures dst[..] == pre[..off] + newdst[..] + pre[off + newdst.Length..]
  {
    forall i | 0 <= i < newdst.Length { dst[off + i] := newdst[i]; }
  }

  method MergeHalves(dst: array<Item>, off: nat, middle: nat, size: nat)
    requires 0 < middle < size && off + size <= dst.Length
    requires Sorted(dst[..][off..off + middle]) && Sorted(dst[..][off + middle..off + size])
    modifies dst
    ensures Sorted(dst[off..off + size]) && Rearranged(old(dst[..]), dst[..], off, off + size)
  {
    ghost var mid := dst[..];
    ghost var xs, ys := mid[off..off + middle], mid[off + middle..off + size];
    var newdst := new Item[size](i => Item(0, 0));
    assert dst[off..off + middle] == xs && dst[off + middle..off + size] == ys;
    PlanIsValid(xs, ys);
    MergeInto(dst, off, middle, size, newdst, PlanOf(xs, ys));
    assert dst[..] == mid;
    CopyBack(dst, off, newdst, mid);
    assert mid[off..off + size] == xs + ys;
    MergedRange(mid, dst[..], off, off + size, xs, ys);
    assert dst[..][off..off + size] == dst[off..off + size];
  }

  method SortHalves(dst: array<Item>, off: nat, middle: nat, size: nat)
    requires 0 < middle < size && off + size <= dst.Length
    modifies dst
    ensures Sorted(dst[..][off..off + middle]) && Sorted(dst[..][off + middle..off + size])
    ensures Rearranged(old(dst[..]), dst[..], off, off + size)
    decreases size, 0
  {
    ghost var pre := dst[..];
    MergeSort(dst, off, middle);
    ghost var first := dst[..];
    assert first[off..off + middle] == dst[off..off + middle];
    RearrangedWiden(pre, first, off, off + middle, off, off + size);
    MergeSort(dst, off + middle, size - middle);
    assert dst[..off + middle] == first[..off + middle];
    assert dst[..][off..off + middle] == dst[..off + middle][off..] == first[off..off + middle];
    assert dst[..][off + middle..off + size] == dst[off + middle..off + middle + (size - middle)];
    RearrangedWiden(first, dst[..], off + middle, off + size, off, off + size);
    RearrangedTwice(pre, first, dst[..], off, off + size);
  }
}
