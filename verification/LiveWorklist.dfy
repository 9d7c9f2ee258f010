/** Solving the liveness equations with a queue of blocks over packed bitvectors, and what the
    solution means in terms of paths. */
module LiveWorklist {
  import opened BitVector
  import opened DataFlow

  // ----- What it means to be live -----

  ghost predicate IsPath<V>(fl: Flow<V>, path: seq<nat>)
    requires fl.Valid()
  {
    && path != [] && (forall k :: 0 <= k < |path| ==> path[k] < |fl.succ|)
    && (forall k :: 0 <= k < |path| - 1 ==> Follows(fl, path[k], path[k + 1]))
  }

  ghost predicate Follows<V>(fl: Flow<V>, b: nat, c: nat) { b < |fl.succ| && c in fl.succ[b] }

  /** From the start of path[0] control can reach, along the path, a block that uses v before any
      block on the way has defined it. */
  ghost predicate Reaches<V>(fl: Flow<V>, path: seq<nat>, v: V)
    requires fl.Valid()
  {
    IsPath(fl, path) && v in fl.gen[path[|path| - 1]] && forall k :: 0 <= k < |path| - 1 ==> v !in fl.kill[path[k]]
  }

  ghost predicate LiveAlong<V>(fl: Flow<V>, b: nat, v: V)
    requires fl.Valid()
  {
    exists path :: Reaches(fl, path, v) && path[0] == b
  }

  lemma {:induction false} UsedOnPathIsLive<V>(fl: Flow<V>, live: seq<set<V>>, path: seq<nat>, v: V)
    requires fl.Valid() && Solution(fl, live) && Reaches(fl, path, v)
    ensures v in live[path[0]]
  {
    assert live[path[0]] == In(fl, live, path[0]);
    if |path| > 1 {
      var rest := path[1..];
      assert Follows(fl, path[0], path[1]);
      forall k | 0 <= k < |rest| - 1
        ensures Follows(fl, rest[k], rest[k + 1]) && v !in fl.kill[rest[k]]
      {
        assert Follows(fl, path[k + 1], path[k + 2]);
        assert v !in fl.kill[path[k + 1]];
      }
      UsedOnPathIsLive(fl, live, rest, v);
    }
  }

  lemma LongerPath<V>(fl: Flow<V>, b: nat, path: seq<nat>, v: V)
    requires fl.Valid() && Reaches(fl, path, v) && Follows(fl, b, path[0]) && v !in fl.kill[b]
    ensures Reaches(fl, [b] + path, v)
  {
    var longer := [b] + path;
    forall k | 0 <= k < |longer| - 1
      ensures Follows(fl, longer[k], longer[k + 1]) && v !in fl.kill[longer[k]]
    {
      if k > 0 {
        assert Follows(fl, path[k - 1], path[k - 1 + 1]);
        assert v !in fl.kill[path[k - 1]];
      }
    }
  }

  /** In the least solution a value is live at a block start exactly when some path uses it before
      defining it. */
  lemma LiveIffUsedOnPath<V(!new)>(fl: Flow<V>, live: seq<set<V>>, b: nat, v: V)
    requires fl.Valid() && LeastSolution(fl, live) && b < |live|
    ensures v in live[b] <==> LiveAlong(fl, b, v)
  {
    if LiveAlong(fl, b, v) {
      var path :| Reaches(fl, path, v) && path[0] == b;
      UsedOnPathIsLive(fl, live, path, v);
    }
    var used := seq(|live|, c requires 0 <= c < |live| => set w | w in live[c] && LiveAlong(fl, c, w));
    forall c | 0 <= c < |used|
      ensures In(fl, used, c) <= used[c]
    {
      forall w | w in In(fl, used, c)
        ensures w in used[c]
      {
        assert live[c] == In(fl, live, c);
        if w in fl.gen[c] {
          assert Reaches(fl, [c], w);
        } else {
          var j :| 0 <= j < |fl.succ[c]| && w in used[fl.succ[c][j]];
          var path :| Reaches(fl, path, w) && path[0] == fl.succ[c][j];
          assert Follows(fl, c, path[0]);
          LongerPath(fl, c, path, w);
          assert ([c] + path)[0] == c;
        }
      }
    }
    assert Closed(fl, used);
  }

  // ----- Progress of the iteration -----

  ghost predicate Within(live: seq<set<nat>>, n: nat) { forall b :: 0 <= b < |live| ==> live[b] <= Universe(n) }

  lemma {:induction false} UniverseSize(n: nat)
    ensures |Universe(n)| == n
  {
    if n > 0 { UniverseSize(n - 1); }
  }

  lemma {:induction false} SubsetSize<T>(a: set<T>, b: set<T>)
    requires a <= b
    ensures |a| <= |b| && (a != b ==> |a| < |b|)
  {
    if a != {} {
      var x :| x in a;
      SubsetSize(a - {x}, b - {x});
      assert a == (a - {x}) + {x} && b == (b - {x}) + {x};
    }
  }

  /** How many memberships are still missing. */
  ghost function Missing(live: seq<set<nat>>, n: nat): nat
    requires Within(live, n)
  {
    if live == [] then 0 else
      (SubsetSize(live[0], Universe(n)); UniverseSize(n); assert Within(live[1..], n); n - |live[0]|)
        + Missing(live[1..], n)
  }

  lemma {:induction false} MissingDrops(live: seq<set<nat>>, n: nat, b: nat, bigger: set<nat>)
    requires Within(live, n) && b < |live| && live[b] < bigger <= Universe(n)
    ensures Within(live[b := bigger], n) && Missing(live[b := bigger], n) < Missing(live, n)
  {
    var next := live[b := bigger];
    UniverseSize(n);
    SubsetSize(bigger, Universe(n));
    if b == 0 {
      SubsetSize(live[0], bigger);
      assert next[1..] == live[1..];
    } else {
      assert Within(live[1..], n) && next[1..] == live[1..][b - 1 := bigger];
      MissingDrops(live[1..], n, b - 1, bigger);
    }
  }

  /** What holds between iterations: the sets only grow and stay below every closed assignment;
      outside the queue the equations hold. */
  ghost predicate Pending(fl: Flow<nat>, live: seq<set<nat>>, ends: seq<set<nat>>, queue: seq<nat>, n: nat) {
    && fl.Valid() && |live| == |ends| == |fl.succ| && Within(live, n)
    && (forall b {:trigger In(fl, live, b)} :: 0 <= b < |live| ==> live[b] <= In(fl, live, b))
    && (forall b {:trigger In(fl, live, b)} :: 0 <= b < |live| && b !in queue ==>
          live[b] == In(fl, live, b) && ends[b] == Out(fl, live, b))
    && (forall other :: Closed(fl, other) ==> Below(live, other))
  }

  /** Removing b from the queue after storing its new sets, with its predecessors queued again if
      the set at its start changed. */
  lemma PendingStep(fl: Flow<nat>, live: seq<set<nat>>, ends: seq<set<nat>>, queue: seq<nat>, n: nat, b: nat,
                    queue': seq<nat>)
    requires Pending(fl, live, ends, queue, n) && b < |live| && In(fl, live, b) <= Universe(n)
    requires forall q :: q in queue && q != b ==> q in queue'
    requires live[b] != In(fl, live, b) ==> forall p :: 0 <= p < |live| && b in fl.succ[p] ==> p in queue'
    ensures Pending(fl, live[b := In(fl, live, b)], ends[b := Out(fl, live, b)], queue', n)
    ensures live[b] <= In(fl, live, b)
  {
    var out, next := Out(fl, live, b), live[b := In(fl, live, b)];
    assert live[b] <= In(fl, live, b);
    forall c | 0 <= c < |live|
      ensures next[c] <= In(fl, next, c)
      ensures c !in queue' ==> next[c] == In(fl, next, c) && ends[b := out][c] == Out(fl, next, c)
    {
      OutMonotone(fl, live, next, c);
      assert live[c] <= In(fl, live, c);
      if c !in queue' {
        if b in fl.succ[c] {
          assert next == live;
        } else {
          assert Out(fl, next, c) == Out(fl, live, c);
        }
      }
    }
    forall other | Closed(fl, other)
      ensures Below(next, other)
    {
      OutMonotone(fl, live, other, b);
      assert In(fl, other, b) <= other[b];
    }
  }

  lemma VisitProgress(fl: Flow<nat>, live: seq<set<nat>>, n: nat, b: nat)
    requires fl.Valid() && |live| == |fl.succ| && Within(live, n) && b < |live|
    requires live[b] <= In(fl, live, b) <= Universe(n)
    ensures var next := live[b := In(fl, live, b)];
            if live[b] == In(fl, live, b) then next == live else Within(next, n) && Missing(next, n) < Missing(live, n)
  {
    if live[b] != In(fl, live, b) { MissingDrops(live, n, b, In(fl, live, b)); }
  }

  lemma NothingPending(fl: Flow<nat>, live: seq<set<nat>>, ends: seq<set<nat>>, n: nat)
    requires Pending(fl, live, ends, [], n)
    ensures LeastSolution(fl, live) && forall b :: 0 <= b < |ends| ==> ends[b] == Out(fl, live, b)
  {
    forall b | 0 <= b < |ends|
      ensures ends[b] == Out(fl, live, b)
    {
      assert In(fl, live, b) == live[b];
    }
  }

  // ----- The algorithm -----

  ghost function Footprint(xs: seq<BitVector>): set<object>
    reads xs
  {
    set x | x in xs :: x.data
  }

  /** The bitvectors hold these sets of numbers below n. */
  ghost predicate Packs(xs: seq<BitVector>, n: nat, sets: seq<set<nat>>)
    reads xs, Footprint(xs)
  {
    |xs| == |sets| && forall i :: 0 <= i < |xs| ==> xs[i].Valid() && xs[i].bitCount == n && xs[i].Bits() == sets[i]
  }

  ghost function OutUpTo(fl: Flow<nat>, live: seq<set<nat>>, b: nat, j: nat): set<nat>
    requires fl.Valid() && |live| == |fl.succ| && b < |live| && j <= |fl.succ[b]|
  {
    if j == 0 then {} else OutUpTo(fl, live, b, j - 1) + live[fl.succ[b][j - 1]]
  }

  lemma {:induction false} OutUpToMember(fl: Flow<nat>, live: seq<set<nat>>, b: nat, j: nat, v: nat)
    requires fl.Valid() && |live| == |fl.succ| && b < |live| && j <= |fl.succ[b]|
    ensures v in OutUpTo(fl, live, b, j) <==> exists k :: 0 <= k < j && v in live[fl.succ[b][k]]
  {
    if j > 0 { OutUpToMember(fl, live, b, j - 1, v); }
  }

  lemma OutUpToAll(fl: Flow<nat>, live: seq<set<nat>>, b: nat)
    requires fl.Valid() && |live| == |fl.succ| && b < |live|
    ensures OutUpTo(fl, live, b, |fl.succ[b]|) == Out(fl, live, b)
  {
    forall v ensures v in OutUpTo(fl, live, b, |fl.succ[b]|) <==> v in Out(fl, live, b) {
      OutUpToMember(fl, live, b, |fl.succ[b]|, v);
    }
  }

  /** The union of what is live at the starts of the successors. */
  method JoinSuccessors(n: nat, succs: seq<nat>, starts: seq<BitVector>, ghost fl: Flow<nat>, ghost b: nat,
                        ghost live: seq<set<nat>>) returns (liveOut: BitVector)
    requires fl.Valid() && Packs(starts, n, live) && |live| == |fl.succ| && b < |live| && succs == fl.succ[b]
    ensures fresh(liveOut) && fresh(liveOut.data)
    ensures liveOut.Valid() && liveOut.bitCount == n && liveOut.Bits() == Out(fl, live, b)
  {
    liveOut := new BitVector(n);
    var j := 0;
    while j < |succs|
      invariant 0 <= j <= |succs|
      invariant fresh(liveOut) && fresh(liveOut.data) && liveOut.Valid() && liveOut.bitCount == n
      invariant liveOut.Bits() == OutUpTo(fl, live, b, j)
      invariant Packs(starts, n, live)
    {
      var next := starts[succs[j]];
      assert next.Valid() && next.bitCount == n && next.Bits() == live[succs[j]];
      liveOut.OrWith(next);
      j := j + 1;
    }
    OutUpToAll(fl, live, b);
  }

  /** One visit: the union over the successors, minus kill, plus gen. */
  method Visit(n: nat, succs: seq<nat>, gen: seq<BitVector>, kill: seq<BitVector>, starts: seq<BitVector>, b: nat,
               ghost fl: Flow<nat>, ghost live: seq<set<nat>>)
    returns (liveOut: BitVector, liveIn: BitVector)
    requires fl.Valid() && Packs(gen, n, fl.gen) && Packs(kill, n, fl.kill) && Packs(starts, n, live)
    requires |live| == |fl.succ| && b < |live| && succs == fl.succ[b]
    ensures fresh(liveOut) && fresh(liveIn) && fresh(liveOut.data) && fresh(liveIn.data)
    ensures liveOut.Valid() && liveOut.bitCount == n && liveOut.Bits() == Out(fl, live, b)
    ensures liveIn.Valid() && liveIn.bitCount == n && liveIn.Bits() == In(fl, live, b)
  {
    liveOut := JoinSuccessors(n, succs, starts, fl, b, live);
    liveIn := Transfer(n, liveOut, gen[b], kill[b]);
  }

  method Transfer(n: nat, liveOut: BitVector, gen: BitVector, kill: BitVector) returns (liveIn: BitVector)
    requires liveOut.Valid() && gen.Valid() && kill.Valid() && liveOut.bitCount == gen.bitCount == kill.bitCount == n
    ensures fresh(liveIn) && fresh(liveIn.data) && liveIn.Valid() && liveIn.bitCount == n
    ensures liveIn.Bits() == (liveOut.Bits() - kill.Bits()) + gen.Bits()
  {
    liveIn := new BitVector.Copy(liveOut);
    var killCopy := new BitVector.Copy(kill);
    killCopy.Negate();
    liveIn.AndWith(killCopy);
    liveIn.OrWith(gen);
    assert liveOut.Bits() * (Universe(n) - kill.Bits()) == liveOut.Bits() - kill.Bits();
  }

  /** The queue has no duplicates, and the tracking set holds its elements. */
  ghost predicate Queued(queue: seq<nat>, inQueue: set<nat>, count: nat) {
    && (forall i, j :: 0 <= i < j < |queue| ==> queue[i] != queue[j])
    && (forall b :: b in queue <==> b in inQueue)
    && (forall b :: b in queue ==> b < count)
  }

  lemma Dequeued(queue: seq<nat>, inQueue: set<nat>, count: nat)
    requires queue != [] && Queued(queue, inQueue, count)
    ensures Queued(queue[1..], inQueue - {queue[0]}, count)
    ensures forall q :: q in queue && q != queue[0] ==> q in queue[1..]
  {
    assert queue == [queue[0]] + queue[1..];
    forall i | 0 <= i < |queue[1..]| ensures queue[1..][i] != queue[0] { assert queue[1..][i] == queue[i + 1]; }
    forall i, j | 0 <= i < j < |queue[1..]|
      ensures queue[1..][i] != queue[1..][j]
    {
      assert queue[1..][i] == queue[i + 1] && queue[1..][j] == queue[j + 1];
    }
  }

  lemma Enqueued(queue: seq<nat>, inQueue: set<nat>, count: nat, b: nat)
    requires Queued(queue, inQueue, count) && b !in inQueue && b < count
    ensures Queued(queue + [b], inQueue + {b}, count)
  {
  }

  method AllBlocks(count: nat) returns (queue: seq<nat>, inQueue: set<nat>)
    ensures Queued(queue, inQueue, count) && forall b :: 0 <= b < count ==> b in queue
  {
    queue, inQueue := [], {};
    for b := 0 to count
      invariant Queued(queue, inQueue, count)
      invariant forall c :: c in queue <==> 0 <= c < b
    {
      Enqueued(queue, inQueue, count, b);
      queue, inQueue := queue + [b], inQueue + {b};
    }
  }

  /** Queues the predecessors that are not queued yet. */
  method QueuePredecessors(preds: seq<nat>, queue: seq<nat>, inQueue: set<nat>, ghost count: nat)
    returns (queue': seq<nat>, inQueue': set<nat>)
    requires Queued(queue, inQueue, count) && forall p :: p in preds ==> p < count
    ensures Queued(queue', inQueue', count) && forall q :: q in queue' <==> q in queue || q in preds
  {
    queue', inQueue' := queue, inQueue;
    for j := 0 to |preds|
      invariant Queued(queue', inQueue', count)
      invariant forall q :: q in queue' <==> q in queue || q in preds[..j]
    {
      assert preds[j] in preds;
      if preds[j] !in inQueue' {
        Enqueued(queue', inQueue', count, preds[j]);
        queue', inQueue' := queue' + [preds[j]], inQueue' + {preds[j]};
      }
    }
    assert preds[..|preds|] == preds;
  }

  method EmptySets(n: nat, count: nat) returns (xs: seq<BitVector>)
    ensures |xs| == count && Packs(xs, n, seq(count, i => {}))
  {
    xs := [];
    while |xs| < count
      invariant |xs| <= count && Packs(xs, n, seq(|xs|, i => {}))
    {
      var x := new BitVector(n);
      xs := xs + [x];
    }
  }

  lemma PacksUpdated(xs: seq<BitVector>, n: nat, sets: seq<set<nat>>, b: nat, x: BitVector)
    requires Packs(xs, n, sets) && b < |xs| && x.Valid() && x.bitCount == n
    ensures Packs(xs[b := x], n, sets[b := x.Bits()])
  {
  }

  lemma InitiallyPending(fl: Flow<nat>, n: nat, queue: seq<nat>)
    requires fl.Valid() && forall b :: 0 <= b < |fl.succ| ==> b in queue
    ensures var none := seq(|fl.succ|, i => {});
            Pending(fl, none, none, queue, n)
  {
  }

  ghost predicate Inverse(succ: seq<seq<nat>>, preds: seq<seq<nat>>) {
    && |preds| == |succ|
    && (forall b, p {:trigger p in preds[b]} :: 0 <= b < |preds| && p in preds[b] ==> p < |succ| && b in succ[p])
    && (forall b, p {:trigger b in succ[p]} :: 0 <= b < |preds| && 0 <= p < |succ| && b in succ[p] ==> p in preds[b])
  }

  /** Takes the next block from the queue and computes its sets; when the set at its start has
      changed, queues its predecessors. */
  method VisitNext(n: nat, succ: seq<seq<nat>>, preds: seq<seq<nat>>, gen: seq<BitVector>, kill: seq<BitVector>,
                   starts: seq<BitVector>, queue: seq<nat>, inQueue: set<nat>, ghost fl: Flow<nat>,
                     ghost live: seq<set<nat>>)
    returns (b: nat, liveOut: BitVector, liveIn: BitVector, same: bool, queue': seq<nat>, inQueue': set<nat>)
    requires fl.Valid() && Packs(gen, n, fl.gen) && Packs(kill, n, fl.kill) && Packs(starts, n, live)
             && |live| == |fl.succ|
    requires fl.succ == succ && Inverse(succ, preds) && queue != [] && Queued(queue, inQueue, |fl.succ|)
    ensures fresh(liveOut) && fresh(liveIn) && fresh(liveOut.data) && fresh(liveIn.data)
    ensures b == queue[0] && b < |live| && Queued(queue', inQueue', |fl.succ|)
    ensures liveOut.Valid() && liveOut.bitCount == n && liveOut.Bits() == Out(fl, live, b)
    ensures liveIn.Valid() && liveIn.bitCount == n && liveIn.Bits() == In(fl, live, b) && In(fl, live, b) <= Universe(n)
    ensures forall q :: q in queue && q != b ==> q in queue'
    ensures same <==> In(fl, live, b) == live[b]
    ensures if same then queue' == queue[1..] else forall p :: 0 <= p < |live| && b in fl.succ[p] ==> p in queue'
  {
    b := queue[0];
    assert b in queue;
    Dequeued(queue, inQueue, |fl.succ|);
    queue', inQueue' := queue[1..], inQueue - {b};
    liveOut, liveIn := Visit(n, succ[b], gen, kill, starts, b, fl, live);
    same := liveIn.Equals(starts[b]);
    if !same {
      queue', inQueue' := QueuePredecessors(preds[b], queue', inQueue', |succ|);
    }
  }

  /** The worklist algorithm: ends with the least solution, for every flow graph. */
  method Solve(n: nat, succ: seq<seq<nat>>, preds: seq<seq<nat>>, gen: seq<BitVector>, kill: seq<BitVector>,
               ghost fl: Flow<nat>)
    returns (starts: seq<BitVector>, ends: seq<BitVector>, ghost live: seq<set<nat>>, ghost liveEnds: seq<set<nat>>)
    requires fl.Valid() && Packs(gen, n, fl.gen) && Packs(kill, n, fl.kill) && fl.succ == succ && Inverse(succ, preds)
    ensures Packs(starts, n, live) && LeastSolution(fl, live)
    ensures Packs(ends, n, liveEnds) && |live| == |liveEnds| && forall b ::
            0 <= b < |live| ==> liveEnds[b] == Out(fl, live, b)
  {
    starts := EmptySets(n, |succ|);
    ends := EmptySets(n, |succ|);
    live, liveEnds := seq(|fl.succ|, i => {}), seq(|fl.succ|, i => {});
    var queue, inQueue := AllBlocks(|succ|);
    InitiallyPending(fl, n, queue);
    while queue != []
      invariant Queued(queue, inQueue, |fl.succ|)
      invariant Pending(fl, live, liveEnds, queue, n)
      invariant Packs(starts, n, live) && Packs(ends, n, liveEnds)
      decreases Missing(live, n), |queue|
    {
      ghost var waiting := queue;
      var b, liveOut, liveIn, same;
      b, liveOut, liveIn, same, queue,
        inQueue := VisitNext(n, succ, preds, gen, kill, starts, queue, inQueue, fl, live);
      PendingStep(fl, live, liveEnds, waiting, n, b, queue);
      VisitProgress(fl, live, n, b);
      PacksUpdated(starts, n, live, b, liveIn);
      PacksUpdated(ends, n, liveEnds, b, liveOut);
      ends, liveEnds := ends[b := liveOut], liveEnds[b := Out(fl, live, b)];
      if !same { starts := starts[b := liveIn]; }
      live := live[b := In(fl, live, b)];
    }
    NothingPending(fl, live, liveEnds, n);
  }
}
