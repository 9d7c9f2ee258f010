/** Merging two adjacent sorted runs in place through temporary storage.  The result is described by
    how many of its first k elements come from the left run. */
module Merging {
  import opened Sorting

  /** Whether the next element comes from xs, after i elements of xs and j of ys. */
  predicate TakesLeft(xs: seq<Item>, ys: seq<Item>, i: nat, j: nat)
    requires i <= |xs| && j <= |ys|
  {
    if i < |xs| && j < |ys| then Compare(xs[i], ys[j]) <= 0 else i < |xs|
  }

  /** How many of the first k merged elements come from xs. */
  ghost function Taken(xs: seq<Item>, ys: seq<Item>, k: nat): (i: nat)
    requires k <= |xs| + |ys|
    ensures i <= k && i <= |xs| && k - i <= |ys|
  {
    if k == 0 then 0 else
      var i := Taken(xs, ys, k - 1);
      if TakesLeft(xs, ys, i, k - 1 - i) then i + 1 else i
  }

  ghost function MergedAt(xs: seq<Item>, ys: seq<Item>, k: nat): Item
    requires k < |xs| + |ys|
  {
    var i := Taken(xs, ys, k);
    if TakesLeft(xs, ys, i, k - i) then xs[i] else ys[k - i]
  }

  /** The first k elements of the stable merge. */
  ghost function Merged(xs: seq<Item>, ys: seq<Item>, k: nat): (zs: seq<Item>)
    requires k <= |xs| + |ys|
    ensures |zs| == k && forall n :: 0 <= n < k ==> zs[n] == MergedAt(xs, ys, n)
  {
    seq(k, n requires 0 <= n < k => MergedAt(xs, ys, n))
  }

  /** What has been taken comes before what has not: strictly, for ys before xs. */
  ghost predicate Cut(xs: seq<Item>, ys: seq<Item>, i: nat, j: nat)
    requires i <= |xs| && j <= |ys|
  {
    && (0 < j && i < |xs| ==> ys[j - 1].key < xs[i].key)
    && (0 < i && j < |ys| ==> xs[i - 1].key <= ys[j].key)
  }

  lemma {:induction false} TakenIsCut(xs: seq<Item>, ys: seq<Item>, k: nat)
    requires Sorted(xs) && Sorted(ys) && k <= |xs| + |ys|
    ensures Cut(xs, ys, Taken(xs, ys, k), k - Taken(xs, ys, k))
  {
    if k > 0 { TakenIsCut(xs, ys, k - 1); }
  }

  lemma SortedSnoc(s: seq<Item>, x: Item)
    requires Sorted(s) && (s != [] ==> s[|s| - 1].key <= x.key)
    ensures Sorted(s + [x])
  {
  }

  /** The last merged element is the last taken of one of the runs. */
  lemma LastMerged(xs: seq<Item>, ys: seq<Item>, k: nat)
    requires 0 < k <= |xs| + |ys|
    ensures var i := Taken(xs, ys, k);
            || (0 < i && Taken(xs, ys, k - 1) == i - 1 && MergedAt(xs, ys, k - 1) == xs[i - 1])
            || (i < k && Taken(xs, ys, k - 1) == i && MergedAt(xs, ys, k - 1) == ys[k - i - 1])
  {
  }

  lemma SortedNext(xs: seq<Item>, ys: seq<Item>, k: nat)
    requires Sorted(xs) && Sorted(ys) && k < |xs| + |ys| && Sorted(Merged(xs, ys, k))
    ensures Sorted(Merged(xs, ys, k + 1))
  {
    var zs, z := Merged(xs, ys, k), MergedAt(xs, ys, k);
    assert Merged(xs, ys, k + 1) == zs + [z];
    if k > 0 {
      LastMerged(xs, ys, k);
      TakenIsCut(xs, ys, k);
      assert zs[k - 1] == MergedAt(xs, ys, k - 1);
    }
    SortedSnoc(zs, z);
  }

  lemma {:induction false} MergedIsSorted(xs: seq<Item>, ys: seq<Item>, k: nat)
    requires Sorted(xs) && Sorted(ys) && k <= |xs| + |ys|
    ensures Sorted(Merged(xs, ys, k))
  {
    if k > 0 {
      MergedIsSorted(xs, ys, k - 1);
      SortedNext(xs, ys, k - 1);
    }
  }

  lemma LeftStable(xs: seq<Item>, ys: seq<Item>, i: nat, j: nat)
    requires i < |xs| && j <= |ys| && Sorted(ys) && Cut(xs, ys, i, j)
    ensures Stable(xs[..i] + ys[..j] + [xs[i]], xs[..i + 1] + ys[..j])
  {
    StableInsert(xs[..i], ys[..j], xs[i]);
    assert xs[..i + 1] == xs[..i] + [xs[i]];
  }

  lemma StableVia(s: seq<Item>, t: seq<Item>, u: seq<Item>)
    requires Stable(s, t) && Stable(s, u)
    ensures Stable(t, u)
  {
  }

  lemma RightTaken(left: seq<Item>, ys: seq<Item>, j: nat)
    requires j < |ys|
    ensures left + ys[..j] + [ys[j]] == left + ys[..j + 1]
  {
    assert ys[..j + 1] == ys[..j] + [ys[j]];
  }

  /** The elements taken so far, run by run, and in the order of the merge. */
  ghost predicate StableSoFar(xs: seq<Item>, ys: seq<Item>, k: nat, i: nat)
    requires k <= |xs| + |ys| && i <= |xs| && i <= k <= i + |ys|
  {
    Stable(xs[..i] + ys[..k - i], Merged(xs, ys, k))
  }

  lemma NextMerged(xs: seq<Item>, ys: seq<Item>, k: nat, i: nat, z: Item)
    requires k < |xs| + |ys| && i <= |xs| && i <= k <= i + |ys| && StableSoFar(xs, ys, k, i) && z == MergedAt(xs, ys, k)
    ensures Stable(xs[..i] + ys[..k - i] + [z], Merged(xs, ys, k + 1))
  {
    assert Merged(xs, ys, k + 1) == Merged(xs, ys, k) + [z];
    StableConcat(xs[..i] + ys[..k - i], Merged(xs, ys, k), [z], [z]);
  }

  lemma NextFromLeft(xs: seq<Item>, ys: seq<Item>, k: nat, i: nat)
    requires Sorted(ys) && k < |xs| + |ys| && i < |xs| && i <= k <= i + |ys| && StableSoFar(xs, ys, k, i)
    requires Cut(xs, ys, i, k - i) && MergedAt(xs, ys, k) == xs[i]
    ensures StableSoFar(xs, ys, k + 1, i + 1)
  {
    NextMerged(xs, ys, k, i, xs[i]);
    LeftStable(xs, ys, i, k - i);
    StableVia(xs[..i] + ys[..k - i] + [xs[i]], xs[..i + 1] + ys[..k - i], Merged(xs, ys, k + 1));
    assert k - i == (k + 1) - (i + 1);
  }

  lemma NextFromRight(xs: seq<Item>, ys: seq<Item>, k: nat, i: nat)
    requires k < |xs| + |ys| && i <= |xs| && i <= k < i + |ys| && StableSoFar(xs, ys, k, i)
             && MergedAt(xs, ys, k) == ys[k - i]
    ensures StableSoFar(xs, ys, k + 1, i)
  {
    NextMerged(xs, ys, k, i, ys[k - i]);
    RightTaken(xs[..i], ys, k - i);
    assert k - i + 1 == k + 1 - i;
  }

  lemma NextTaken(xs: seq<Item>, ys: seq<Item>, k: nat)
    requires k < |xs| + |ys|
    ensures var i := Taken(xs, ys, k);
            if TakesLeft(xs, ys, i, k - i) then i < |xs| && Taken(xs, ys, k + 1) == i + 1
              && MergedAt(xs, ys, k) == xs[i]
            else k - i < |ys| && Taken(xs, ys, k + 1) == i && MergedAt(xs, ys, k) == ys[k - i]
  {
  }

  lemma NextIsStable(xs: seq<Item>, ys: seq<Item>, k: nat, i: nat)
    requires Sorted(xs) && Sorted(ys) && k < |xs| + |ys| && i == Taken(xs, ys, k) && StableSoFar(xs, ys, k, i)
    ensures StableSoFar(xs, ys, k + 1, Taken(xs, ys, k + 1))
  {
    TakenIsCut(xs, ys, k);
    NextTaken(xs, ys, k);
    if TakesLeft(xs, ys, i, k - i) {
      NextFromLeft(xs, ys, k, i);
    } else {
      NextFromRight(xs, ys, k, i);
    }
  }

  lemma {:induction false} MergedIsStable(xs: seq<Item>, ys: seq<Item>, k: nat)
    requires Sorted(xs) && Sorted(ys) && k <= |xs| + |ys|
    ensures StableSoFar(xs, ys, k, Taken(xs, ys, k))
  {
    if k > 0 {
      MergedIsStable(xs, ys, k - 1);
      NextIsStable(xs, ys, k - 1, Taken(xs, ys, k - 1));
    }
  }

  lemma StableInsert(left: seq<Item>, right: seq<Item>, z: Item)
    requires Sorted(right) && (right != [] ==> right[|right| - 1].key < z.key)
    ensures Stable(left + right + [z], left + [z] + right)
  {
    StableMove(right, z);
    StableConcat(left, left, right + [z], [z] + right);
    assert left + (right + [z]) == left + right + [z] && left + ([z] + right) == left + [z] + right;
  }

  /** A merge as the filling methods see it: the result, and how many of its first k elements come
      from the left run. */
  datatype Plan = Plan(xs: seq<Item>, ys: seq<Item>, zs: seq<Item>, counts: seq<nat>) {

    ghost predicate Sized() {
      && |zs| == |xs| + |ys| && |counts| == |zs| + 1 && counts[0] == 0 && counts[|zs|] == |xs|
      && forall k :: 0 <= k <= |zs| ==> counts[k] <= k && counts[k] <= |xs| && k - counts[k] <= |ys|
    }

    /** Going up: element k comes from the run that TakesLeft says. */
    ghost predicate Up(k: nat)
      requires Sized() && k < |zs|
    {
      var i := counts[k];
      if TakesLeft(xs, ys, i, k - i) then i < |xs| && counts[k + 1] == i + 1 && zs[k] == xs[i]
      else k - i < |ys| && counts[k + 1] == i && zs[k] == ys[k - i]
    }

    /** From the top: element k - 1 came from xs exactly when the last taken of xs is greater than
        the last taken of ys. */
    ghost predicate Down(k: nat)
      requires Sized() && 0 < k <= |zs|
    {
      var i := counts[k];
      if (if 0 < i && i < k then Compare(xs[i - 1], ys[k - i - 1]) > 0 else 0 < i)
      then counts[k - 1] == i - 1 && zs[k - 1] == xs[i - 1]
      else i < k && counts[k - 1] == i && zs[k - 1] == ys[k - i - 1]
    }

    ghost predicate Valid() {
      Sized() && (forall k :: 0 <= k < |zs| ==> Up(k)) && forall k :: 0 < k <= |zs| ==> Down(k)
    }
  }

  ghost function PlanOf(xs: seq<Item>, ys: seq<Item>): Plan {
    var n := |xs| + |ys|;
    Plan(xs, ys, Merged(xs, ys, n), seq(n + 1, k requires 0 <= k < n + 1 => Taken(xs, ys, k)))
  }

  lemma PlanSized(xs: seq<Item>, ys: seq<Item>)
    ensures PlanOf(xs, ys).Sized()
  {
    TakenAll(xs, ys);
  }

  lemma PlanUp(xs: seq<Item>, ys: seq<Item>, k: nat)
    requires PlanOf(xs, ys).Sized() && k < |xs| + |ys|
    ensures PlanOf(xs, ys).Up(k)
  {
    assert PlanOf(xs, ys).counts[k] == Taken(xs, ys, k) && PlanOf(xs, ys).counts[k + 1] == Taken(xs, ys, k + 1);
    assert PlanOf(xs, ys).zs[k] == MergedAt(xs, ys, k);
  }

  lemma TakenFromTop(xs: seq<Item>, ys: seq<Item>, k: nat)
    requires 0 < k <= |xs| + |ys| && Sorted(xs) && Sorted(ys)
    ensures var i := Taken(xs, ys, k);
            if (if 0 < i && i < k then Compare(xs[i - 1], ys[k - i - 1]) > 0 else 0 < i)
            then Taken(xs, ys, k - 1) == i - 1 && MergedAt(xs, ys, k - 1) == xs[i - 1]
            else i < k && Taken(xs, ys, k - 1) == i && MergedAt(xs, ys, k - 1) == ys[k - i - 1]
  {
    LastMerged(xs, ys, k);
    TakenIsCut(xs, ys, k - 1);
  }

  lemma PlanDown(xs: seq<Item>, ys: seq<Item>, k: nat)
    requires PlanOf(xs, ys).Sized() && 0 < k <= |xs| + |ys| && Sorted(xs) && Sorted(ys)
    ensures PlanOf(xs, ys).Down(k)
  {
    assert PlanOf(xs, ys).counts[k] == Taken(xs, ys, k) && PlanOf(xs, ys).counts[k - 1] == Taken(xs, ys, k - 1);
    assert PlanOf(xs, ys).zs[k - 1] == MergedAt(xs, ys, k - 1);
    TakenFromTop(xs, ys, k);
  }

  lemma PlanIsValid(xs: seq<Item>, ys: seq<Item>)
    requires Sorted(xs) && Sorted(ys)
    ensures PlanOf(xs, ys).Valid()
  {
    PlanSized(xs, ys);
    forall k | 0 <= k < |xs| + |ys| ensures PlanOf(xs, ys).Up(k) { PlanUp(xs, ys, k); }
    forall k | 0 < k <= |xs| + |ys| ensures PlanOf(xs, ys).Down(k) { PlanDown(xs, ys, k); }
  }

  lemma TakenAll(xs: seq<Item>, ys: seq<Item>)
    ensures Taken(xs, ys, |xs| + |ys|) == |xs|
  {
  }

  lemma MergedAll(xs: seq<Item>, ys: seq<Item>)
    requires Sorted(xs) && Sorted(ys)
    ensures Sorted(PlanOf(xs, ys).zs) && Stable(xs + ys, PlanOf(xs, ys).zs)
  {
    var n := |xs| + |ys|;
    assert xs[..|xs|] == xs && ys[..|ys|] == ys;
    TakenAll(xs, ys);
    MergedIsSorted(xs, ys, n);
    MergedIsStable(xs, ys, n);
  }

  /** A range filled with the merge of its two sorted runs is sorted, and rearranged stably. */
  lemma MergedRange(pre: seq<Item>, post: seq<Item>, lo: nat, hi: nat, xs: seq<Item>, ys: seq<Item>)
    requires lo <= hi <= |pre| && Sorted(xs) && Sorted(ys) && pre[lo..hi] == xs + ys
    requires post == pre[..lo] + PlanOf(xs, ys).zs + pre[hi..]
    ensures Sorted(post[lo..hi]) && Rearranged(pre, post, lo, hi)
  {
    var zs := PlanOf(xs, ys).zs;
    assert |pre[lo..hi]| == |zs|;
    Middle(pre[..lo], zs, pre[hi..]);
    MergedAll(xs, ys);
  }

  lemma Middle(x: seq<Item>, y: seq<Item>, z: seq<Item>)
    ensures var s := x + y + z; s[..|x|] == x && s[|x|..|x| + |y|] == y && s[|x| + |y|..] == z
  {
  }

  method CopyRange(dst: array<Item>, from: nat, count: nat, storage: array<Item>)
    requires from + count <= dst.Length && count <= storage.Length && storage != dst
    modifies storage
    ensures forall n :: 0 <= n < count ==> storage[n] == dst[from + n]
  {
    forall n | 0 <= n < count { storage[n] := dst[from + n]; }
  }

  /** Left merge: the first run waits in temporary storage. */
  method MergeLeft(dst: array<Item>, curr: nat, A: nat, B: nat, storage: array<Item>)
    requires curr + A + B <= dst.Length && A <= storage.Length && storage != dst
    requires Sorted(dst[curr..curr + A]) && Sorted(dst[curr + A..curr + A + B])
    modifies dst, storage
    ensures Sorted(dst[curr..curr + A + B]) && Rearranged(old(dst[..]), dst[..], curr, curr + A + B)
  {
    ghost var pre, xs, ys := dst[..], dst[curr..curr + A], dst[curr + A..curr + A + B];
    assert pre[curr..curr + A + B] == xs + ys;
    CopyRange(dst, curr, A, storage);
    PlanIsValid(xs, ys);
    assert dst[..] == pre;
    FillUp(dst, curr, A, B, storage, PlanOf(xs, ys), pre);
    MergedRange(pre, dst[..], curr, curr + A + B, xs, ys);
    assert dst[curr..curr + A + B] == dst[..][curr..curr + A + B];
  }

  method FillUp(dst: array<Item>, curr: nat, A: nat, B: nat, storage: array<Item>, ghost plan: Plan,
                ghost pre: seq<Item>)
    requires pre == dst[..]
    requires curr + A + B <= dst.Length && plan.Valid() && |plan.xs| == A <= storage.Length && |plan.ys| == B
             && storage != dst
    requires forall n :: 0 <= n < A ==> storage[n] == plan.xs[n]
    requires forall n :: curr + A <= n < curr + A + B ==> dst[n] == plan.ys[n - curr - A]
    modifies dst
    ensures dst[..] == pre[..curr] + plan.zs + pre[curr + A + B..]
  {
    var end := curr + A + B;
    var i, j, k := 0, curr + A, curr;
    while k < end
      invariant curr <= k <= end && i == plan.counts[k - curr] && k == i + j - A
      invariant forall n :: j <= n < end ==> dst[n] == plan.ys[n - curr - A]
      invariant forall n :: 0 <= n < curr || end <= n < dst.Length ==> dst[n] == pre[n]
      invariant forall n :: curr <= n < k ==> dst[n] == plan.zs[n - curr]
    {
      assert plan.Up(k - curr);
      if i < A && j < end {
        if Compare(storage[i], dst[j]) <= 0 {
          dst[k] := storage[i];
          i := i + 1;
        } else {
          dst[k] := dst[j];
          j := j + 1;
        }
      } else if i < A {
        dst[k] := storage[i];
        i := i + 1;
      } else {
        dst[k] := dst[j];
        j := j + 1;
      }
      k := k + 1;
    }
  }

  /** Right merge: the second run waits in temporary storage; filled from the top. */
  method MergeRight(dst: array<Item>, curr: nat, A: nat, B: nat, storage: array<Item>)
    requires curr + A + B <= dst.Length && B <= storage.Length && storage != dst
    requires Sorted(dst[curr..curr + A]) && Sorted(dst[curr + A..curr + A + B])
    modifies dst, storage
    ensures Sorted(dst[curr..curr + A + B]) && Rearranged(old(dst[..]), dst[..], curr, curr + A + B)
  {
    ghost var pre, xs, ys := dst[..], dst[curr..curr + A], dst[curr + A..curr + A + B];
    assert pre[curr..curr + A + B] == xs + ys;
    CopyRange(dst, curr + A, B, storage);
    PlanIsValid(xs, ys);
    assert dst[..] == pre;
    FillDown(dst, curr, A, B, storage, PlanOf(xs, ys), pre);
    MergedRange(pre, dst[..], curr, curr + A + B, xs, ys);
    assert dst[curr..curr + A + B] == dst[..][curr..curr + A + B];
  }

  method FillDown(dst: array<Item>, curr: nat, A: nat, B: nat, storage: array<Item>, ghost plan: Plan,
                  ghost pre: seq<Item>)
    requires pre == dst[..]
    requires curr + A + B <= dst.Length && plan.Valid() && |plan.xs| == A && |plan.ys| == B <= storage.Length
             && storage != dst
    requires forall n :: 0 <= n < B ==> storage[n] == plan.ys[n]
    requires forall n :: curr <= n < curr + A ==> dst[n] == plan.xs[n - curr]
    modifies dst
    ensures dst[..] == pre[..curr] + plan.zs + pre[curr + A + B..]
  {
    var end := curr + A + B;
    var i, j, k := B - 1, curr + A - 1, end - 1;
    ghost var m := A + B;  // how many cells are still to be filled
    while k >= curr
      invariant 0 <= m <= A + B && k == curr + m - 1 && k == i + j + 1
      invariant j == curr + plan.counts[m] - 1
      invariant forall n :: curr <= n <= j ==> dst[n] == plan.xs[n - curr]
      invariant forall n :: 0 <= n < curr || end <= n < dst.Length ==> dst[n] == pre[n]
      invariant forall n :: k < n < end ==> dst[n] == plan.zs[n - curr]
      decreases m
    {
      assert plan.Down(m);
      m := m - 1;
      if i >= 0 && j >= curr {
        if Compare(dst[j], storage[i]) > 0 {
          dst[k] := dst[j];
          j := j - 1;
        } else {
          dst[k] := storage[i];
          i := i - 1;
        }
      } else if i >= 0 {
        dst[k] := storage[i];
        i := i - 1;
      } else {
        dst[k] := dst[j];
        j := j - 1;
      }
      k := k - 1;
    }
  }
}
