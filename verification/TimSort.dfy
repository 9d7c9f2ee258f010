/** Timsort: find or make sorted runs from left to right, keep them on a stack, and merge
    neighbours so that the lengths on the stack stay balanced. */
module TimSort {
  import opened Sorting
  import opened InsertionSort
  import opened Merging

  // ----- The minimum run length -----

  function Pow2(n: nat): (p: nat)
    ensures p >= 1
  {
    if n == 0 then 1 else 2 * Pow2(n - 1)
  }

  /** 64 minus the number of leading zeros of a 64-bit word. */
  function BitLength(n: nat): nat { if n == 0 then 0 else 1 + BitLength(n / 2) }

  lemma {:induction false} BitLengthBounds(n: nat)
    requires n > 0
    ensures BitLength(n) > 0 && Pow2(BitLength(n) - 1) <= n < Pow2(BitLength(n))
  {
    if n > 1 { BitLengthBounds(n / 2); }
  }

  lemma {:induction false} BitLengthAtLeast(n: nat, b: nat)
    requires Pow2(b) <= n
    ensures BitLength(n) > b
  {
    if b > 0 { BitLengthAtLeast(n / 2, b - 1); }
  }

  lemma {:induction false} Pow2Sum(m: nat, n: nat)
    ensures Pow2(m + n) == Pow2(m) * Pow2(n)
  {
    if m > 0 { Pow2Sum(m - 1, n); }
  }

  function ComputeMinrun(size: nat): nat {
    var topBit := BitLength(size);
    var shift := (if topBit > 6 then topBit else 6) - 6;
    var minrun := size / Pow2(shift);
    if size % Pow2(shift) != 0 then minrun + 1 else minrun
  }

  lemma DivBounds(n: nat, low: nat, high: nat, d: nat)
    requires d > 0 && low * d <= n < high * d
    ensures low <= n / d < high
  {
    var q := n / d;
    assert n == d * q + n % d && d * (q + 1) == d * q + d;
    if low > q { Scaled(q + 1, low, d); }
    if high <= q { Scaled(high, q, d); }
  }

  lemma Scaled(m: nat, n: nat, d: nat)
    requires m <= n
    ensures m * d <= n * d
  {
    assert n * d == m * d + (n - m) * d;
  }

  lemma MinrunInRange(size: nat)
    requires size >= 64
    ensures 32 <= ComputeMinrun(size) <= 64
  {
    assert Pow2(6) == 64 && Pow2(5) == 32;
    BitLengthAtLeast(size, 6);
    BitLengthBounds(size);
    var shift := BitLength(size) - 6;
    Pow2Sum(5, shift);
    Pow2Sum(6, shift);
    DivBounds(size, 32, 64, Pow2(shift));
  }

  lemma RoundedUp(n: nat, d: nat, q: nat)
    requires d > 0 && q == if n % d != 0 then n / d + 1 else n / d
    ensures n <= q * d && (q > 0 ==> (q - 1) * d < n || n == 0)
  {
    assert n == d * (n / d) + n % d;
  }

  /** Two bounds of this form fix the shift. */
  lemma {:induction false} ShiftIs(size: nat, k: nat)
    requires 32 * Pow2(k) <= size < 64 * Pow2(k)
    ensures BitLength(size) == 6 + k
    decreases k
  {
    if k == 0 {
      assert Pow2(0) == 1 && BitLength(size) == 1 + BitLength(size / 2)
             && BitLength(size / 2) == 1 + BitLength(size / 4);
      assert BitLength(size / 4) == 1 + BitLength(size / 8) && BitLength(size / 8) == 1 + BitLength(size / 16);
      assert BitLength(size / 16) == 1 + BitLength(size / 32) && size / 32 == 1 && BitLength(1) == 1 + BitLength(0);
    } else {
      ShiftIs(size / 2, k - 1);
    }
  }

  /** The minimum run length is the size divided by a power of two and rounded up: by the one that leaves
      the quotient between 32 and 64. */
  lemma MinrunIsExact(size: nat, k: nat)
    requires size >= 64 && 32 * Pow2(k) <= size < 64 * Pow2(k)
    ensures (ComputeMinrun(size) - 1) * Pow2(k) < size <= ComputeMinrun(size) * Pow2(k)
  {
    ShiftIs(size, k);
    RoundedUp(size, Pow2(k), ComputeMinrun(size));
    MinrunInRange(size);
  }

  // ----- Runs -----

  /** The run that is there at start has this length: it goes on rising, or strictly falling, up to there
      and no further, except that the last element of all only counts in the last two. */
  ghost predicate IsRun(s: seq<Item>, start: nat, len: nat)
    requires start < |s|
  {
    && 1 <= len && start + len <= |s|
    && (|s| - start <= 2 ==> len == |s| - start)
    && (|s| - start > 2 ==> 2 <= len && start + len < |s|)
    && (|s| - start > 2 && s[start].key <= s[start + 1].key ==> RisesTo(s, start + 2, start + len))
    && (|s| - start > 2 && s[start].key > s[start + 1].key ==> FallsTo(s, start + 2, start + len))
  }

  ghost predicate RisesTo(s: seq<Item>, curr: nat, end: nat)
    requires 0 < curr && 0 < end < |s|
  {
    && (forall i :: curr <= i < end ==> s[i - 1].key <= s[i].key)
    && (end == |s| - 1 || s[end - 1].key > s[end].key)
  }

  ghost predicate FallsTo(s: seq<Item>, curr: nat, end: nat)
    requires 0 < curr && 0 < end < |s|
  {
    && (forall i :: curr <= i < end ==> s[i - 1].key > s[i].key)
    && (end == |s| - 1 || s[end - 1].key <= s[end].key)
  }

  /** Reversing keys that are all different is stable. */
  function Reversed(s: seq<Item>): (r: seq<Item>)
    ensures |r| == |s| && forall i :: 0 <= i < |s| ==> r[i] == s[|s| - 1 - i]
  {
    seq(|s|, i requires 0 <= i < |s| => s[|s| - 1 - i])
  }

  ghost predicate Falling(s: seq<Item>) { forall i, j :: 0 <= i < j < |s| ==> s[i].key > s[j].key }

  lemma {:induction false} ReversedFalling(s: seq<Item>)
    requires Falling(s)
    ensures Sorted(Reversed(s)) && Stable(s, Reversed(s))
  {
    if s == [] {
    } else {
      var x, t := s[0], s[1..];
      assert s == [x] + t;
      ReversedFalling(t);
      assert Reversed(s) == Reversed(t) + [x];
      StableMove(t, x);
      StableConcat(t, Reversed(t), [x], [x]);
    }
  }

  lemma ReversedCells(pre: seq<Item>, post: seq<Item>, start: nat, end: nat)
    requires start <= end < |pre| == |post|
    requires forall n :: start <= n <= end ==> post[n] == pre[start + end - n]
    requires forall n :: 0 <= n < start || end < n < |pre| ==> post[n] == pre[n]
    ensures post[start..end + 1] == Reversed(pre[start..end + 1])
    ensures post[..start] == pre[..start] && post[end + 1..] == pre[end + 1..]
  {
  }

  method ReverseElements(dst: array<Item>, start: nat, end: nat)
    requires start <= end < dst.Length
    modifies dst
    ensures dst[start..end + 1] == Reversed(old(dst[start..end + 1]))
    ensures dst[..start] == old(dst[..start]) && dst[end + 1..] == old(dst[end + 1..])
  {
    ghost var pre := dst[..];
    var lo, hi := start, end;
    while lo < hi
      invariant start <= lo <= end + 1 && lo + hi == start + end
      invariant forall n :: lo <= n <= hi ==> dst[n] == pre[n]
      invariant forall n :: start <= n < lo || hi < n <= end ==> dst[n] == pre[start + end - n]
      invariant forall n :: 0 <= n < start || end < n < dst.Length ==> dst[n] == pre[n]
      decreases hi
    {
      dst[lo], dst[hi] := dst[hi], dst[lo];
      lo, hi := lo + 1, hi - 1;
    }
    ReversedCells(pre, dst[..], start, end);
    assert pre[start..end + 1] == old(dst[start..end + 1]);
  }

  /** Finds the run at start: rising, or strictly falling and then reversed.  The last cell of the
      array is only ever included by the case for the last two cells. */
  method CountRun(dst: array<Item>, start: nat) returns (len: nat)
    requires start < dst.Length && dst.Length >= 2
    modifies dst
    ensures 1 <= len && start + len <= dst.Length
    ensures Sorted(dst[start..start + len]) && Rearranged(old(dst[..]), dst[..], start, start + len)
    ensures IsRun(old(dst[..]), start, len)
  {
    var size := dst.Length;
    if size - start == 1 {
      len := 1;
    } else if start >= size - 2 {
      LastTwo(dst);
      len := 2;
    } else if Compare(dst[start], dst[start + 1]) <= 0 {
      len := RisingRun(dst, start);
    } else {
      len := FallingRun(dst, start);
    }
  }

  method LastTwo(dst: array<Item>)
    requires dst.Length >= 2
    modifies dst
    ensures Sorted(dst[dst.Length - 2..]) && Rearranged(old(dst[..]), dst[..], dst.Length - 2, dst.Length)
  {
    var size := dst.Length;
    ghost var pre := dst[..];
    if Compare(dst[size - 2], dst[size - 1]) > 0 {
      dst[size - 2], dst[size - 1] := dst[size - 1], dst[size - 2];
      StableMove([pre[size - 2]], pre[size - 1]);
      assert pre[size - 2..size] == [pre[size - 2]] + [pre[size - 1]];
      assert dst[size - 2..size] == [pre[size - 1]] + [pre[size - 2]];
      assert dst[..size - 2] == pre[..size - 2];
    }
    assert dst[size - 2..] == [dst[size - 2], dst[size - 1]];
  }

  method RisingRun(dst: array<Item>, start: nat) returns (len: nat)
    requires start + 2 < dst.Length && dst[start].key <= dst[start + 1].key
    ensures 2 <= len && start + len < dst.Length && Sorted(dst[start..start + len])
    ensures RisesTo(dst[..], start + 2, start + len)
  {
    var curr, size := start + 2, dst.Length;
    while curr != size - 1 && Compare(dst[curr - 1], dst[curr]) <= 0
      invariant start + 2 <= curr <= dst.Length - 1
      invariant forall i, j :: start <= i <= j < curr ==> dst[i].key <= dst[j].key
    {
      curr := curr + 1;
    }
    SortedSlice(dst[..], start, curr);
    assert dst[..][start..curr] == dst[start..curr];
    return curr - start;
  }

  method FallingRun(dst: array<Item>, start: nat) returns (len: nat)
    requires start + 2 < dst.Length && dst[start].key > dst[start + 1].key
    modifies dst
    ensures 2 <= len && start + len < dst.Length
    ensures Sorted(dst[start..start + len]) && Rearranged(old(dst[..]), dst[..], start, start + len)
    ensures FallsTo(old(dst[..]), start + 2, start + len)
  {
    ghost var pre := dst[..];
    var curr, size := start + 2, dst.Length;
    while curr != size - 1 && Compare(dst[curr - 1], dst[curr]) > 0
      invariant start + 2 <= curr <= dst.Length - 1
      invariant forall i, j :: start <= i < j < curr ==> dst[i].key > dst[j].key
    {
      curr := curr + 1;
    }
    assert pre[start..curr] == dst[start..curr];
    ReversedFalling(pre[start..curr]);
    ReverseElements(dst, start, curr - 1);
    return curr - start;
  }

  datatype Run = Run(start: nat, length: nat) {
    function End(): nat { start + length }
  }

  /** Where run i starts; one past the last run, that is the first cell not yet in a run. */
  ghost function Boundary(stack: seq<Run>, curr: nat, i: nat): nat {
    if i < |stack| then stack[i].start else curr
  }

  /** The runs on the stack are non-empty, adjacent, and cover the cells before curr. */
  ghost predicate Tiles(stack: seq<Run>, curr: nat) {
    Boundary(stack, curr, 0) == 0 && forall i :: 0 <= i < |stack| ==> TiledAt(stack, curr, i)
  }

  ghost predicate TiledAt(stack: seq<Run>, curr: nat, i: nat)
    requires i < |stack|
  {
    stack[i].length > 0 && stack[i].End() == Boundary(stack, curr, i + 1)
  }

  lemma {:induction false} TilesOrder(stack: seq<Run>, curr: nat, i: nat, j: nat)
    requires Tiles(stack, curr) && i < j < |stack|
    ensures stack[i].End() <= stack[j].start
    decreases j - i
  {
    assert TiledAt(stack, curr, i) && TiledAt(stack, curr, i + 1);
    if i + 1 < j {
      TilesOrder(stack, curr, i + 1, j);
      assert stack[i + 1].End() >= stack[i + 1].start;
    }
  }

  lemma TilesEnd(stack: seq<Run>, curr: nat, i: nat)
    requires Tiles(stack, curr) && i < |stack|
    ensures stack[i].End() <= curr
  {
    var last := |stack| - 1;
    assert TiledAt(stack, curr, last);
    if i < last { TilesOrder(stack, curr, i, last); }
  }

  // ----- Merging runs of the stack -----

  /** The stack after its runs at and at + 1 have become one. */
  function Joined(stack: seq<Run>, at: nat): seq<Run>
    requires at + 1 < |stack|
  {
    stack[..at] + [Run(stack[at].start, stack[at].length + stack[at + 1].length)] + stack[at + 2..]
  }

  lemma JoinedTiles(stack: seq<Run>, curr: nat, at: nat)
    requires Tiles(stack, curr) && at + 1 < |stack|
    ensures Tiles(Joined(stack, at), curr)
  {
    var joined := Joined(stack, at);
    assert TiledAt(stack, curr, at) && TiledAt(stack, curr, at + 1);
    forall i | 0 <= i < |joined|
      ensures TiledAt(joined, curr, i)
    {
      assert Boundary(joined, curr, i + 1) == Boundary(stack, curr, if i < at then i + 1 else i + 2);
      assert if i <= at then TiledAt(stack, curr, i) else joined[i] == stack[i + 1] && TiledAt(stack, curr, i + 1);
    }
  }

  lemma SameRun(pre: seq<Item>, post: seq<Item>, lo: nat, hi: nat, r: Run)
    requires Rearranged(pre, post, lo, hi) && (r.End() <= lo || hi <= r.start) && r.End() <= |pre|
    ensures post[r.start..r.End()] == pre[r.start..r.End()]
  {
    if r.End() <= lo {
      assert pre[r.start..r.End()] == pre[..lo][r.start..r.End()];
      assert post[r.start..r.End()] == post[..lo][r.start..r.End()];
    } else {
      assert pre[r.start..r.End()] == pre[hi..][r.start - hi..r.End() - hi];
      assert post[r.start..r.End()] == post[hi..][r.start - hi..r.End() - hi];
    }
  }

  ghost predicate RunSorted(r: Run, s: seq<Item>) { r.End() <= |s| && Sorted(s[r.start..r.End()]) }

  ghost predicate RunsSorted(stack: seq<Run>, s: seq<Item>) { forall i :: 0 <= i < |stack| ==> RunSorted(stack[i], s) }

  lemma OtherRunSorted(stack: seq<Run>, curr: nat, at: nat, pre: seq<Item>, post: seq<Item>, i: nat)
    requires Tiles(stack, curr) && i < |stack| && at + 1 < |stack| && i != at && i != at + 1
    requires RunSorted(stack[i], pre) && Rearranged(pre, post, stack[at].start, stack[at + 1].End())
    ensures RunSorted(stack[i], post)
  {
    if i < at {
      TilesOrder(stack, curr, i, at);
    } else {
      TilesOrder(stack, curr, at + 1, i);
    }
    SameRun(pre, post, stack[at].start, stack[at + 1].End(), stack[i]);
  }

  lemma JoinedSorted(stack: seq<Run>, curr: nat, at: nat, pre: seq<Item>, post: seq<Item>)
    requires Tiles(stack, curr) && RunsSorted(stack, pre) && at + 1 < |stack|
    requires Rearranged(pre, post, stack[at].start, stack[at + 1].End())
    requires Sorted(post[stack[at].start..stack[at + 1].End()])
    ensures RunsSorted(Joined(stack, at), post)
  {
    var joined := Joined(stack, at);
    assert TiledAt(stack, curr, at) && TiledAt(stack, curr, at + 1);
    forall i | 0 <= i < |joined|
      ensures RunSorted(joined[i], post)
    {
      if i < at {
        OtherRunSorted(stack, curr, at, pre, post, i);
      } else if i > at {
        OtherRunSorted(stack, curr, at, pre, post, i + 1);
      }
    }
  }

  /** The temporary storage for merges; it only ever grows. */
  class TempStorage {
    var storage: array<Item>

    constructor ()
      ensures fresh(storage) && storage.Length == 0
    {
      storage := new Item[0];
    }

    method Resize(newSize: nat)
      modifies this
      ensures storage.Length == if old(storage.Length) < newSize then newSize else old(storage.Length)
      ensures storage == old(storage) || fresh(storage)
      ensures forall i :: 0 <= i < old(storage.Length) ==> storage[i] == old(storage[i])
    {
      if storage.Length < newSize {
        var bigger := new Item[newSize];
        forall i | 0 <= i < storage.Length { bigger[i] := storage[i]; }
        storage := bigger;
      }
    }
  }

  /** What a step of the sort keeps: the stack tiles the cells before curr with sorted runs, the
      whole array is a stable rearrangement of pre, and no merge has used more than half its size. */
  ghost predicate Progress(stack: seq<Run>, curr: nat, pre: seq<Item>, now: seq<Item>, temp: nat) {
    && Tiles(stack, curr) && curr <= |now| && RunsSorted(stack, now)
    && Stable(pre, now) && |pre| == |now| && 2 * temp <= |now|
  }

  lemma JoinedProgress(stack: seq<Run>, curr: nat, at: nat, pre: seq<Item>, mid: seq<Item>, post: seq<Item>, temp: nat,
                       temp': nat)
    requires Progress(stack, curr, pre, mid, temp) && at + 1 < |stack|
    requires Rearranged(mid, post, stack[at].start, stack[at + 1].End())
    requires Sorted(post[stack[at].start..stack[at + 1].End()])
    requires temp' == temp || (temp' <= stack[at].length && temp' <= stack[at + 1].length)
    ensures Progress(Joined(stack, at), curr, pre, post, temp')
  {
    JoinedTiles(stack, curr, at);
    JoinedSorted(stack, curr, at, mid, post);
    RearrangedIsStable(mid, post, stack[at].start, stack[at + 1].End());
    TilesEnd(stack, curr, at + 1);
    assert TiledAt(stack, curr, at) && TiledAt(stack, curr, at + 1);
  }

  /** Merges two neighbouring sorted ranges, using the smaller of the two lengths as temporary cells. */
  method MergeAdjacent(dst: array<Item>, start: nat, A: nat, B: nat, store: TempStorage)
    requires start + A + B <= dst.Length && store.storage != dst
    requires Sorted(dst[..][start..start + A]) && Sorted(dst[..][start + A..start + A + B])
    modifies dst, store, store.storage
    ensures Sorted(dst[..][start..start + A + B]) && Rearranged(old(dst[..]), dst[..], start, start + A + B)
    ensures store.storage == old(store.storage) || fresh(store.storage)
    ensures var need := if A < B then A else B;
            store.storage.Length == if old(store.storage.Length) < need then need else old(store.storage.Length)
  {
    ghost var pre := dst[..];
    store.Resize(if A < B then A else B);
    assert dst[..] == pre && dst[start..start + A] == pre[start..start + A]
           && dst[start + A..start + A + B] == pre[start + A..start + A + B];
    if A < B {
      MergeLeft(dst, start, A, B, store.storage);
    } else {
      MergeRight(dst, start, A, B, store.storage);
    }
    assert dst[..][start..start + A + B] == dst[start..start + A + B];
  }

  lemma RunsFor(stack: seq<Run>, curr: nat, now: seq<Item>, at: nat)
    requires Tiles(stack, curr) && curr <= |now| && RunsSorted(stack, now) && at + 1 < |stack|
    ensures stack[at].End() == stack[at + 1].start && stack[at + 1].End() <= |now|
    ensures Sorted(now[stack[at].start..stack[at].End()]) && Sorted(now[stack[at].End()..stack[at + 1].End()])
  {
    assert TiledAt(stack, curr, at) && TiledAt(stack, curr, at + 1);
    TilesEnd(stack, curr, at + 1);
    assert RunSorted(stack[at], now) && RunSorted(stack[at + 1], now);
  }

  /** Merges the runs at and at + 1 of the stack. */
  method TimSortMerge(dst: array<Item>, runs: seq<Run>, at: nat, store: TempStorage, ghost curr: nat,
                      ghost pre: seq<Item>)
    returns (stack: seq<Run>)
    requires at + 1 < |runs| && store.storage != dst
    requires Progress(runs, curr, pre, dst[..], store.storage.Length)
    modifies dst, store, store.storage
    ensures stack == Joined(runs, at) && Progress(stack, curr, pre, dst[..], store.storage.Length)
    ensures Rearranged(old(dst[..]), dst[..], runs[at].start, runs[at + 1].End())
    ensures store.storage == old(store.storage) || fresh(store.storage)
    ensures var need := if runs[at].length < runs[at + 1].length then runs[at].length else runs[at + 1].length;
            store.storage.Length == if old(store.storage.Length) < need then need else old(store.storage.Length)
  {
    ghost var mid, temp := dst[..], store.storage.Length;
    var start, A, B := runs[at].start, runs[at].length, runs[at + 1].length;
    RunsFor(runs, curr, mid, at);
    assert Sorted(dst[..][start..start + A]) && Sorted(dst[..][start + A..start + A + B]);
    MergeAdjacent(dst, start, A, B, store);
    assert Rearranged(mid, dst[..], start, runs[at + 1].End());
    JoinedProgress(runs, curr, at, pre, mid, dst[..], temp, store.storage.Length);
    return Joined(runs, at);
  }

  /** The two topmost comparisons of run lengths. */
  predicate CheckInvariant(stack: seq<Run>) {
    var n := |stack|;
    if n < 2 then true
    else if n == 2 then stack[n - 2].length > stack[n - 1].length
    else stack[n - 3].length > stack[n - 2].length + stack[n - 1].length && stack[n - 2].length > stack[n - 1].length
  }

  /** The runs at and at + 1 have to be joined: the topmost three are out of balance, and the middle one
      joins the shorter of its neighbours; or the topmost two are; or they are the last two and make up the
      whole array. */
  ghost predicate MustJoin(stack: seq<Run>, size: nat, at: nat) {
    var n := |stack|;
    if n >= 3 then
      var A, B, C := stack[n - 3].length, stack[n - 2].length, stack[n - 1].length;
      (A <= B + C || B <= C) && at == if A <= B + C && A < C then n - 3 else n - 2
    else n == 2 && at == 0 && (stack[0].length <= stack[1].length || stack[0].length + stack[1].length == size)
  }

  /** Nothing has to be joined. */
  ghost predicate Balanced(stack: seq<Run>, size: nat) { forall at: nat :: !MustJoin(stack, size, at) }

  /** The steps lead from runs to stack, each by a join that had to be made. */
  ghost predicate JoinsOnlyIfMust(runs: seq<Run>, stack: seq<Run>, steps: seq<seq<Run>>, size: nat) {
    && steps != [] && steps[0] == runs && steps[|steps| - 1] == stack
    && forall k :: 0 <= k < |steps| - 1 ==> JoinStep(steps[k], steps[k + 1], size)
  }

  ghost predicate JoinStep(stack: seq<Run>, next: seq<Run>, size: nat) {
    exists at: nat :: at + 1 < |stack| && MustJoin(stack, size, at) && next == Joined(stack, at)
  }

  lemma JoinsNext(runs: seq<Run>, stack: seq<Run>, steps: seq<seq<Run>>, size: nat, at: nat)
    requires JoinsOnlyIfMust(runs, stack, steps, size) && at + 1 < |stack| && MustJoin(stack, size, at)
    ensures JoinsOnlyIfMust(runs, Joined(stack, at), steps + [Joined(stack, at)], size)
  {
    var more := steps + [Joined(stack, at)];
    forall k | 0 <= k < |more| - 1
      ensures JoinStep(more[k], more[k + 1], size)
    {
      if k < |steps| - 1 { assert JoinStep(steps[k], steps[k + 1], size); }
    }
  }

  /** What is to be joined next. */
  method NextJoin(stack: seq<Run>, size: nat) returns (isOff: bool, at: nat)
    ensures isOff ==> at + 1 < |stack| && MustJoin(stack, size, at)
    ensures !isOff ==> Balanced(stack, size) && CheckInvariant(stack)
  {
    var n := |stack|;
    isOff, at := false, 0;
    if n == 2 {
      isOff := stack[0].length + stack[1].length == size || stack[0].length <= stack[1].length;
    } else if n > 2 {
      var A, B, C := stack[n - 3].length, stack[n - 2].length, stack[n - 1].length;
      isOff := A <= B + C || B <= C;
      at := if A <= B + C && A < C then n - 3 else n - 2;
    }
  }

  method Collapse(dst: array<Item>, runs: seq<Run>, store: TempStorage, ghost curr: nat, ghost pre: seq<Item>)
    returns (stack: seq<Run>, ghost steps: seq<seq<Run>>)
    requires store.storage != dst
    requires Progress(runs, curr, pre, dst[..], store.storage.Length)
    modifies dst, store, store.storage
    ensures Progress(stack, curr, pre, dst[..], store.storage.Length)
    ensures store.storage == old(store.storage) || fresh(store.storage)
    ensures CheckInvariant(stack) && |stack| <= |runs| && (!CheckInvariant(runs) ==> |stack| < |runs|)
    ensures JoinsOnlyIfMust(runs, stack, steps, dst.Length) && Balanced(stack, dst.Length)
  {
    stack, steps := runs, [runs];
    while true
      invariant store.storage != dst && (store.storage == old(store.storage) || fresh(store.storage))
      invariant Progress(stack, curr, pre, dst[..], store.storage.Length)
      invariant stack == runs || |stack| < |runs|
      invariant JoinsOnlyIfMust(runs, stack, steps, dst.Length)
      decreases |stack|
    {
      var isOff, at := NextJoin(stack, dst.Length);
      if !isOff { break; }
      JoinsNext(runs, stack, steps, dst.Length, at);
      stack := TimSortMerge(dst, stack, at, store, curr, pre);
      steps := steps + [stack];
    }
  }

  // ----- Pushing the next run -----

  lemma PushedProgress(stack: seq<Run>, curr: nat, pre: seq<Item>, mid: seq<Item>, post: seq<Item>, temp: nat, len: nat)
    requires Progress(stack, curr, pre, mid, temp) && 0 < len && curr + len <= |mid|
    requires Rearranged(mid, post, curr, curr + len) && Sorted(post[curr..curr + len])
    ensures Progress(stack + [Run(curr, len)], curr + len, pre, post, temp)
  {
    var pushed := stack + [Run(curr, len)];
    RearrangedIsStable(mid, post, curr, curr + len);
    forall i | 0 <= i < |pushed|
      ensures TiledAt(pushed, curr + len, i)
      ensures RunSorted(pushed[i], post)
    {
      if i < |stack| {
        assert TiledAt(stack, curr, i);
        TilesEnd(stack, curr, i);
        SameRun(mid, post, curr, curr + len, stack[i]);
        assert pushed[i] == stack[i];
      }
    }
  }

  /** The length of the run that is there, or minrun if that is more, or what is left if that is less. */
  function RunLength(found: nat, minrun: nat, left: nat): nat {
    var least := if minrun > left then left else minrun;
    if least > found then least else found
  }

  /** Takes the run at curr and extends it to minrun elements by insertion where it is shorter. */
  method NextRun(dst: array<Item>, curr: nat, minrun: nat) returns (len: nat, ghost found: nat)
    requires dst.Length >= 2 && curr < dst.Length
    modifies dst
    ensures IsRun(old(dst[..]), curr, found) && len == RunLength(found, minrun, dst.Length - curr)
    ensures 0 < len && curr + len <= dst.Length && (len >= minrun || curr + len == dst.Length)
    ensures Sorted(dst[curr..curr + len]) && Rearranged(old(dst[..]), dst[..], curr, curr + len)
  {
    ghost var mid := dst[..];
    len := CountRun(dst, curr);
    found := len;
    var run := if minrun > dst.Length - curr then dst.Length - curr else minrun;
    if run > len {
      ghost var counted := dst[..];
      BinaryInsertionSortStart(dst, curr, len, run);
      RearrangedWiden(mid, counted, curr, curr + len, curr, curr + run);
      RearrangedTwice(mid, counted, dst[..], curr, curr + run);
      len := run;
    }
  }

  method PushRun(dst: array<Item>, runs: seq<Run>, curr: nat, minrun: nat, ghost pre: seq<Item>, ghost temp: nat)
    returns (stack: seq<Run>, next: nat, ghost found: nat)
    requires dst.Length >= 2 && curr < dst.Length && Progress(runs, curr, pre, dst[..], temp)
    modifies dst
    ensures curr < next <= dst.Length && Progress(stack, next, pre, dst[..], temp)
    ensures stack == runs + [Run(curr, next - curr)] && IsRun(old(dst[..]), curr, found)
    ensures next - curr == RunLength(found, minrun, dst.Length - curr)
  {
    ghost var mid := dst[..];
    var len;
    len, found := NextRun(dst, curr, minrun);
    assert dst[..][curr..curr + len] == dst[curr..curr + len];
    PushedProgress(runs, curr, pre, mid, dst[..], temp, len);
    return runs + [Run(curr, len)], curr + len, found;
  }

  /** When the whole array has been split into runs: merges the topmost two until one is left. */
  method FinishUp(dst: array<Item>, runs: seq<Run>, store: TempStorage, ghost pre: seq<Item>)
    requires store.storage != dst && runs != []
    requires Progress(runs, dst.Length, pre, dst[..], store.storage.Length)
    modifies dst, store, store.storage
    ensures Sorted(dst[..]) && Stable(pre, dst[..])
  {
    var stack := runs;
    while |stack| > 1
      invariant store.storage != dst && (store.storage == old(store.storage) || fresh(store.storage))
      invariant stack != [] && Progress(stack, dst.Length, pre, dst[..], store.storage.Length)
      decreases |stack|
    {
      stack := TimSortMerge(dst, stack, |stack| - 2, store, dst.Length, pre);
    }
    assert TiledAt(stack, dst.Length, 0) && RunSorted(stack[0], dst[..]);
    assert dst[..] == dst[..][stack[0].start..stack[0].End()];
  }

  /** Sorts the whole array, stably, for every size. */
  method TimSort(dst: array<Item>)
    modifies dst
    ensures Sorted(dst[..]) && Stable(old(dst[..]), dst[..])
  {
    ghost var pre := dst[..];
    if dst.Length < 64 {
      BinaryInsertionSort(dst, 0, dst.Length);
      assert dst[..] == dst[0..dst.Length];
      RearrangedIsStable(pre, dst[..], 0, dst.Length);
      return;
    }
    var minrun := ComputeMinrun(dst.Length);
    var store := new TempStorage();
    var stack: seq<Run>, curr := [], 0;
    var pushes := 0;
    while pushes < 3
      invariant fresh(store) && fresh(store.storage)
      invariant Progress(stack, curr, pre, dst[..], store.storage.Length) && curr < dst.Length && pushes <= 3
    {
      ghost var found;
      stack, curr, found := PushRun(dst, stack, curr, minrun, pre, store.storage.Length);
      if curr == dst.Length {
        FinishUp(dst, stack, store, pre);
        return;
      }
      pushes := pushes + 1;
    }
    while true
      invariant fresh(store) && fresh(store.storage)
      invariant Progress(stack, curr, pre, dst[..], store.storage.Length) && curr < dst.Length
      decreases dst.Length - curr, |stack|
    {
      if !CheckInvariant(stack) {
        ghost var steps;
        stack, steps := Collapse(dst, stack, store, curr, pre);
        continue;
      }
      ghost var found;
      stack, curr, found := PushRun(dst, stack, curr, minrun, pre, store.storage.Length);
      if curr == dst.Length {
        FinishUp(dst, stack, store, pre);
        return;
      }
    }
  }
}
