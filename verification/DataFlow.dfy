/** The equations of backward live-variable analysis over a control-flow graph, for any
    type of variable.  Block 0 is the entry block; `succ[b]` lists the successors of block b. */
module DataFlow {

  datatype Flow<V> = Flow(succ: seq<seq<nat>>, gen: seq<set<V>>, kill: seq<set<V>>) {
    predicate Valid() {
      && |gen| == |succ| == |kill|
      && forall b, j :: 0 <= b < |succ| && 0 <= j < |succ[b]| ==> succ[b][j] < |succ|
    }
  }

  /** What is live at the end of block b when `live` is what is live at the starts. */
  function Out<V(==)>(fl: Flow<V>, live: seq<set<V>>, b: nat): set<V>
    requires fl.Valid() && |live| == |fl.succ| && b < |live|
  {
    set j, v | 0 <= j < |fl.succ[b]| && v in live[fl.succ[b][j]] :: v
  }

  function In<V(==)>(fl: Flow<V>, live: seq<set<V>>, b: nat): set<V>
    requires fl.Valid() && |live| == |fl.succ| && b < |live|
  {
    (Out(fl, live, b) - fl.kill[b]) + fl.gen[b]
  }

  ghost predicate Solution<V>(fl: Flow<V>, live: seq<set<V>>)
    requires fl.Valid()
  {
    |live| == |fl.succ| && forall b {:trigger In(fl, live, b)} :: 0 <= b < |live| ==> live[b] == In(fl, live, b)
  }

  /** Closed under the equations read as inclusions. */
  ghost predicate Closed<V>(fl: Flow<V>, live: seq<set<V>>)
    requires fl.Valid()
  {
    |live| == |fl.succ| && forall b {:trigger In(fl, live, b)} :: 0 <= b < |live| ==> In(fl, live, b) <= live[b]
  }

  ghost predicate Below<V>(x: seq<set<V>>, y: seq<set<V>>) {
    |x| == |y| && forall b :: 0 <= b < |x| ==> x[b] <= y[b]
  }

  ghost predicate LeastSolution<V(!new)>(fl: Flow<V>, live: seq<set<V>>)
    requires fl.Valid()
  {
    Solution(fl, live) && forall other :: Closed(fl, other) ==> Below(live, other)
  }

  lemma OutMonotone<V>(fl: Flow<V>, x: seq<set<V>>, y: seq<set<V>>, b: nat)
    requires fl.Valid() && Below(x, y) && |x| == |fl.succ| && b < |x|
    ensures Out(fl, x, b) <= Out(fl, y, b)
    ensures In(fl, x, b) <= In(fl, y, b)
  {
  }
}
