/** A minimum-heap of numbers ordered by keys that may change, with the position of each number. */
module IndexedHeap {

  function Left(i: nat): nat { i * 2 + 1 }
  function Right(i: nat): nat { (i + 1) * 2 }
  function Parent(i: nat): nat
    requires i > 0
  {
    (i - 1) / 2
  }

  // ----- Positions -----

  /** idx is the exact inverse of h, with -1 for numbers that h does not hold. */
  ghost predicate Indexed(h: seq<nat>, idx: seq<int>) {
    && (forall i :: 0 <= i < |h| ==> h[i] < |idx| && idx[h[i]] == i)
    && (forall n :: 0 <= n < |idx| ==> idx[n] == -1 || (0 <= idx[n] < |h| && h[idx[n]] == n))
  }

  ghost function Members(idx: seq<int>): set<nat> { set n: nat | n < |idx| && idx[n] >= 0 }

  /** Moving the number at j into the place i of x, and x into place j. */
  lemma MoveKeepsIndexed(h: seq<nat>, idx: seq<int>, i: nat, j: nat)
    requires i < |h| && j < |h| && i != j && Indexed(h, idx)
    ensures Indexed(h[i := h[j]][j := h[i]], idx[h[j] := i][h[i] := j])
    ensures Members(idx[h[j] := i][h[i] := j]) == Members(idx)
  {
  }

  // ----- Order -----

  type Keys = nat -> int

  ghost predicate InOrder(h: seq<nat>, key: Keys, j: nat)
    requires 0 < j < |h|
  {
    key(h[Parent(j)]) <= key(h[j])
  }

  ghost predicate Ordered(h: seq<nat>, key: Keys) { forall j :: 0 < j < |h| ==> InOrder(h, key, j) }

  /** The parent of i is not greater than the children of i. */
  ghost predicate Bridged(h: seq<nat>, key: Keys, i: nat, j: nat)
    requires 0 < j < |h| && i < |h|
  {
    Parent(j) == i && i > 0 ==> key(h[Parent(i)]) <= key(h[j])
  }

  /** Order among the nodes from `from` on, except between i and its parent and children. */
  ghost predicate Around(h: seq<nat>, key: Keys, i: nat, from: nat)
    requires i < |h|
  {
    && (forall j :: 0 < j < |h| && Parent(j) >= from && j != i && Parent(j) != i ==> InOrder(h, key, j))
    && (forall j :: 0 < j < |h| && i > 0 && Parent(i) >= from ==> Bridged(h, key, i, j))
  }

  ghost predicate OrderedFrom(h: seq<nat>, key: Keys, from: nat) {
    forall j :: 0 < j < |h| && Parent(j) >= from ==> InOrder(h, key, j)
  }

  ghost predicate AboveOk(h: seq<nat>, key: Keys, i: nat, from: nat)
    requires i < |h|
  {
    i > 0 && Parent(i) >= from ==> InOrder(h, key, i)
  }

  ghost predicate BelowOk(h: seq<nat>, key: Keys, i: nat)
    requires i < |h|
  {
    forall j :: 0 < j < |h| && Parent(j) == i ==> InOrder(h, key, j)
  }

  lemma OrderedAtAll(h: seq<nat>, key: Keys, i: nat, from: nat)
    requires i < |h| && Around(h, key, i, from) && AboveOk(h, key, i, from) && BelowOk(h, key, i)
    ensures OrderedFrom(h, key, from)
  {
    forall j | 0 < j < |h| && Parent(j) >= from
      ensures InOrder(h, key, j)
    {
    }
  }

  /** x moves up past its greater parent. */
  lemma MoveUp(h: seq<nat>, key: Keys, i: nat)
    requires 0 < i < |h| && Around(h, key, i, 0) && key(h[i]) < key(h[Parent(i)])
    ensures var up := h[i := h[Parent(i)]][Parent(i) := h[i]];
            Around(up, key, Parent(i), 0) && BelowOk(up, key, Parent(i))
  {
    var p := Parent(i);
    var up := h[i := h[p]][p := h[i]];
    forall j | 0 < j < |h|
      ensures j != p && Parent(j) != p ==> InOrder(up, key, j)
      ensures Parent(j) == p ==> InOrder(up, key, j)
      ensures p > 0 ==> Bridged(up, key, p, j)
    {
      assert Bridged(h, key, i, j);
      if j != i && Parent(j) != i { assert InOrder(h, key, j); }
      if p > 0 { assert InOrder(h, key, p); }
    }
  }

  /** x moves down past its smaller child. */
  lemma MoveDown(h: seq<nat>, key: Keys, i: nat, c: nat, from: nat)
    requires i < |h| && from <= i && Around(h, key, i, from) && AboveOk(h, key, i, from)
    requires 0 < c < |h| && Parent(c) == i && key(h[c]) < key(h[i])
    requires forall j :: 0 < j < |h| && Parent(j) == i ==> key(h[c]) <= key(h[j])
    ensures var down := h[i := h[c]][c := h[i]];
            Around(down, key, c, from) && AboveOk(down, key, c, from)
  {
    var down := h[i := h[c]][c := h[i]];
    forall j | 0 < j < |h|
      ensures Parent(j) >= from && j != c && Parent(j) != c ==> InOrder(down, key, j)
      ensures Bridged(down, key, c, j)
    {
      if i > 0 && Parent(i) >= from { assert Bridged(h, key, i, c) && Bridged(h, key, i, j); }
      if j != i && Parent(j) != i && Parent(j) >= from { assert InOrder(h, key, j); }
    }
  }

  lemma {:induction false} RootIsLeast(h: seq<nat>, key: Keys, i: nat)
    requires i < |h| && Ordered(h, key)
    ensures key(h[0]) <= key(h[i])
  {
    if i > 0 {
      RootIsLeast(h, key, Parent(i));
      assert InOrder(h, key, i);
    }
  }

  /** Moving the hole at i to c, in the arrays with the hole and in those with it filled by x. */
  lemma HoleMoved(heap: seq<nat>, indices: seq<int>, h: seq<nat>, idx: seq<int>, i: nat, c: nat, x: nat)
    requires i < |heap| && c < |heap| && i != c && h == heap[i := x] && x < |indices| && idx == indices[x := i]
             && heap[c] < |indices|
    ensures h[c] == heap[c] && h[i := h[c]][c := x] == heap[i := heap[c]][c := x]
    ensures idx[h[c] := i][x := c] == indices[heap[c] := i][x := c]
  {
  }

  lemma ChildIsLeast(heap: seq<nat>, h: seq<nat>, key: Keys, i: nat, child: nat, x: nat)
    requires i < |heap| && h == heap[i := x] && 0 < child < |heap| && Parent(child) == i
    requires forall j :: 0 < j < |heap| && Parent(j) == i ==> key(heap[child]) <= key(heap[j])
    ensures forall j :: 0 < j < |h| && Parent(j) == i ==> key(h[child]) <= key(h[j])
    ensures key(x) <= key(h[child]) ==> BelowOk(h, key, i)
  {
  }

  lemma NoChildren(h: seq<nat>, key: Keys, i: nat)
    requires i < |h| <= Left(i)
    ensures BelowOk(h, key, i)
  {
  }

  // ----- The heap -----

  class Heap {
    var heap: seq<nat>
    var indices: seq<int>
    var key: Keys

    ghost predicate Valid()
      reads this
    {
      Indexed(heap, indices)
    }

    ghost function Contents(): set<nat>
      reads this
    {
      Members(indices)
    }

    constructor (key: Keys)
      ensures Valid() && Contents() == {} && Ordered(heap, this.key) && this.key == key
    {
      heap, indices, this.key := [], [], key;
    }

    predicate InHeap(n: nat)
      reads this
      ensures InHeap(n) <==> n in Contents()
    {
      n < |indices| && indices[n] >= 0
    }

    /** Writes x, which belongs at i, into place. */
    method Place(i: nat, x: nat)
      requires i < |heap| && x < |indices|
      modifies this
      ensures heap == old(heap)[i := x] && indices == old(indices)[x := i] && key == old(key)
    {
      heap, indices := heap[i := x], indices[x := i];
    }

    /** Moves the number at i up.  Whatever is wrong between it and its parent is put right; what is
        below it stays in order if it was, and is in order if it moved. */
    method PercolateUp(start: nat)
      requires Valid() && start < |heap| && Around(heap, key, start, 0)
      modifies this
      ensures Valid() && Contents() == old(Contents()) && key == old(key) && |heap| == |old(heap)|
              && |indices| == |old(indices)|
      ensures var x := old(heap[start]);
              var i := indices[x];
              0 <= i < |heap| && heap[i] == x && Around(heap, key, i, 0) && AboveOk(heap, key, i, 0)
              && (old(BelowOk(heap, key, start)) ==> BelowOk(heap, key, i))
    {
      var x, i := heap[start], start;
      ghost var h, idx := heap, indices;
      while i != 0 && key(x) < key(heap[Parent(i)])
        invariant i < |heap| == |h| == |old(heap)| && key == old(key) && h[i] == x
                  && x < |indices| == |idx| == |old(indices)|
        invariant h == heap[i := x] && idx == indices[x := i]
        invariant Indexed(h, idx) && Members(idx) == old(Contents()) && Around(h, key, i, 0)
        invariant (i == start && h == old(heap)) || BelowOk(h, key, i)
        decreases i
      {
        var p := Parent(i);
        MoveUp(h, key, i);
        MoveKeepsIndexed(h, idx, i, p);
        HoleMoved(heap, indices, h, idx, i, p, x);
        h, idx := h[i := h[p]][p := x], idx[h[p] := i][x := p];
        heap, indices := heap[i := heap[p]], indices[heap[p] := i];
        i := p;
      }
      Place(i, x);
      assert heap == h && indices == idx;
    }

    /** Moves the number at i down, among the nodes from `from` on. */
    method PercolateDown(start: nat, ghost from: nat)
      requires Valid() && start < |heap| && from <= start && Around(heap, key, start, from)
               && AboveOk(heap, key, start, from)
      modifies this
      ensures Valid() && Contents() == old(Contents()) && key == old(key) && |heap| == |old(heap)|
              && |indices| == |old(indices)|
      ensures OrderedFrom(heap, key, from)
    {
      var x, i := heap[start], start;
      ghost var h, idx := heap, indices;
      while Left(i) < |heap|
        invariant from <= i < |heap| == |h| == |old(heap)| && key == old(key) && h[i] == x
                  && x < |indices| == |idx| == |old(indices)|
        invariant h == heap[i := x] && idx == indices[x := i]
        invariant Indexed(h, idx) && Members(idx) == old(Contents()) && Around(h, key, i, from)
                  && AboveOk(h, key, i, from)
        decreases |heap| - i
      {
        var child := SmallerChild(i);
        ChildIsLeast(heap, h, key, i, child, x);
        if !(key(heap[child]) < key(x)) { break; }
        MoveDown(h, key, i, child, from);
        MoveKeepsIndexed(h, idx, i, child);
        HoleMoved(heap, indices, h, idx, i, child, x);
        h, idx := h[i := h[child]][child := x], idx[h[child] := i][x := child];
        heap, indices := heap[i := heap[child]], indices[heap[child] := i];
        i := child;
      }
      if Left(i) >= |heap| { NoChildren(h, key, i); }
      OrderedAtAll(h, key, i, from);
      Place(i, x);
    }

    method SmallerChild(i: nat) returns (child: nat)
      requires Left(i) < |heap|
      ensures 0 < child < |heap| && Parent(child) == i
      ensures forall j :: 0 < j < |heap| && Parent(j) == i ==> key(heap[child]) <= key(heap[j])
    {
      child := if Right(i) < |heap| && key(heap[Right(i)]) < key(heap[Left(i)]) then Right(i) else Left(i);
      forall j | 0 < j < |heap| && Parent(j) == i
        ensures key(heap[child]) <= key(heap[j])
      {
        assert j == Left(i) || j == Right(i);
      }
    }

    /** Puts the heap in order after the key of n alone has changed, or inserts n. */
    method Update(n: nat)
      requires Valid() && (if InHeap(n) then Around(heap, key, indices[n], 0) else Ordered(heap, key))
      modifies this
      ensures Valid() && Ordered(heap, key) && Contents() == old(Contents()) + {n} && key == old(key)
    {
      if !InHeap(n) {
        Insert(n);
      } else {
        PercolateUp(indices[n]);
        PercolateDown(indices[n], 0);
      }
    }

    /** The key of n has become smaller. */
    method Decrease(n: nat)
      requires Valid() && InHeap(n) && Around(heap, key, indices[n], 0) && BelowOk(heap, key, indices[n])
      modifies this
      ensures Valid() && Ordered(heap, key) && Contents() == old(Contents()) && key == old(key)
    {
      PercolateUp(indices[n]);
      OrderedAtAll(heap, key, indices[n], 0);
    }

    /** The key of n has become greater. */
    method Increase(n: nat)
      requires Valid() && InHeap(n) && Around(heap, key, indices[n], 0) && AboveOk(heap, key, indices[n], 0)
      modifies this
      ensures Valid() && Ordered(heap, key) && Contents() == old(Contents()) && key == old(key)
    {
      PercolateDown(indices[n], 0);
    }

    method Grow(size: nat)
      requires Valid()
      modifies this
      ensures Valid() && heap == old(heap) && key == old(key) && Contents() == old(Contents()) && |indices| >= size
    {
      if |indices| < size { indices := indices + seq(size - |indices|, i => -1); }
    }

    method Insert(n: nat)
      requires Valid() && Ordered(heap, key) && !InHeap(n)
      modifies this
      ensures Valid() && Ordered(heap, key) && Contents() == old(Contents()) + {n} && key == old(key)
    {
      Grow(n + 1);
      indices := indices[n := |heap|];
      heap := heap + [n];
      Appended(old(heap), key, n);
      PercolateUp(indices[n]);
      OrderedAtAll(heap, key, indices[n], 0);
    }

    /** Takes out a number with the least key. */
    method RemoveMin() returns (x: nat)
      requires Valid() && Ordered(heap, key) && heap != []
      modifies this
      ensures Valid() && Ordered(heap, key) && key == old(key)
      ensures x in old(Contents()) && Contents() == old(Contents()) - {x}
      ensures forall y :: y in old(Contents()) ==> key(x) <= key(y)
    {
      forall y | y in Contents() ensures key(heap[0]) <= key(y) { RootIsLeast(heap, key, indices[y]); }
      x := heap[0];
      var last := |heap| - 1;
      heap := heap[0 := heap[last]];
      indices := indices[heap[0] := 0];
      indices := indices[x := -1];
      heap := heap[..last];
      RootRemoved(old(heap), key, heap);
      if |heap| > 1 { PercolateDown(0, 0); }
    }

    method Clear()
      requires Valid()
      modifies this
      ensures Valid() && heap == [] && Contents() == {} && key == old(key) && |indices| == |old(indices)|
    {
      for i := 0 to |heap|
        invariant heap == old(heap) && key == old(key) && |indices| == |old(indices)|
        invariant forall n ::
                  0 <= n < |indices| ==> indices[n] == if 0 <= old(indices[n]) < i then -1 else old(indices[n])
      {
        indices := indices[heap[i] := -1];
      }
      heap := [];
    }

    /** Rebuilds the heap from a list of different numbers that have a place in `indices`. */
    method Build(ns: seq<nat>)
      requires Valid() && (forall i :: 0 <= i < |ns| ==> ns[i] < |indices|) && forall i, j ::
               0 <= i < j < |ns| ==> ns[i] != ns[j]
      modifies this
      ensures Valid() && Ordered(heap, key) && key == old(key) && Contents() == set n | n in ns
    {
      Clear();
      for i := 0 to |ns|
        invariant Valid() && key == old(key) && |indices| == |old(indices)| && heap == ns[..i]
      {
        indices := indices[ns[i] := i];
        heap := heap + [ns[i]];
      }
      assert ns[..|ns|] == ns;
      HoldsList(ns, indices);
      var i := |heap| / 2;
      while i > 0
        invariant 0 <= i <= |heap| == |ns| && Valid() && key == old(key) && Contents() == set n | n in ns
        invariant OrderedFrom(heap, key, i)
      {
        i := i - 1;
        PercolateDown(i, i);
      }
    }
  }

  lemma Appended(h: seq<nat>, key: Keys, n: nat)
    requires Ordered(h, key)
    ensures Around(h + [n], key, |h|, 0) && BelowOk(h + [n], key, |h|)
  {
    forall j | 0 < j < |h| ensures InOrder(h + [n], key, j) { assert InOrder(h, key, j); }
  }

  lemma RootRemoved(h: seq<nat>, key: Keys, h': seq<nat>)
    requires h != [] && Ordered(h, key) && h' == h[0 := h[|h| - 1]][..|h| - 1]
    ensures h' != [] ==> Around(h', key, 0, 0)
    ensures |h'| <= 1 ==> Ordered(h', key)
  {
    forall j | 0 < j < |h'| && Parent(j) != 0 ensures InOrder(h', key, j) { assert InOrder(h, key, j); }
  }

  lemma HoldsList(ns: seq<nat>, idx: seq<int>)
    requires Indexed(ns, idx)
    ensures Members(idx) == set n | n in ns
  {
    forall n | n in ns ensures n in Members(idx) { var i :| 0 <= i < |ns| && ns[i] == n; }
  }

  /** A change of the key of x alone disturbs the order only around x. */
  lemma KeyChanged(h: seq<nat>, idx: seq<int>, key: Keys, key': Keys, x: nat)
    requires Indexed(h, idx) && Ordered(h, key) && x < |idx| && idx[x] >= 0 && forall n :: n != x ==> key'(n) == key(n)
    ensures Around(h, key', idx[x], 0)
    ensures key'(x) <= key(x) ==> BelowOk(h, key', idx[x])
    ensures key(x) <= key'(x) ==> AboveOk(h, key', idx[x], 0)
  {
    var i := idx[x];
    forall j | 0 < j < |h|
      ensures j != i && Parent(j) != i ==> InOrder(h, key', j)
      ensures i > 0 ==> Bridged(h, key', i, j)
      ensures key'(x) <= key(x) && Parent(j) == i ==> InOrder(h, key', j)
      ensures key(x) <= key'(x) && j == i ==> InOrder(h, key', j)
    {
      assert InOrder(h, key, j);
      if i > 0 { assert InOrder(h, key, i); }
      assert h[j] == x ==> j == i;
      assert h[Parent(j)] == x ==> Parent(j) == i;
      if i > 0 { assert h[Parent(i)] != x; }
    }
  }
}
