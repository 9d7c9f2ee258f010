/** Which definitions can be dead, and what that costs: exactly the blocks that dead mallocs return. */
module DeadDefinitions {
  import opened DataFlow
  import opened PointerIR
  import opened OwnershipClauses
  import opened Execution
  import opened LiveFacts
  import opened OwnershipSoundness
  import opened OwnershipTheorem
  import opened OwnershipLimits
  import opened LostBlocks
  import opened CopySites

  // ----- Leaks -----

  /** No copy that has uses is dead. */
  ghost predicate NoDeadCopies(f: Func, a: Analysis)
    requires a.Sized(f)
  {
    forall b: nat, i: nat :: f.At(b, i) ==> CopyIsLive(f, a, b, i)
  }

  ghost predicate CopyIsLive(f: Func, a: Analysis, b: nat, i: nat)
    requires a.Sized(f) && f.At(b, i)
  {
    var inst := f.blocks[b][i];
    inst.VarStore? && f.HasUses(inst.dest) ==> inst.dest in Scan(f, a, b, i + 1)
  }

  /** In its k-th step the run executes a malloc into d, and gets a block. */
  ghost predicate MallocGets(f: Func, run: seq<State>, k: nat, d: Name)
    requires k + 1 < |run|
  {
    && run[k].pc.At? && f.At(run[k].pc.b, run[k].pc.i) && f.blocks[run[k].pc.b][run[k].pc.i] == Malloc(d)
    && Val(run[k + 1], d) != VNull
  }

  ghost predicate DeadMallocGets(f: Func, a: Analysis, run: seq<State>, k: nat)
    requires a.Sized(f) && k + 1 < |run|
  {
    exists d :: MallocGets(f, run, k, d) && d !in Scan(f, a, run[k].pc.b, run[k].pc.i + 1)
  }

  lemma TakenByMalloc(p: Program, run: seq<State>, g: Ghosts, k: nat, addr: nat)
    requires p.a.Sized(p.f) && NoDeadCopies(p.f, p.a) && k + 1 < |run| && TakesAt(p, run, g, k, addr)
    ensures DeadMallocGets(p.f, p.a, run, k)
  {
    var b, i := run[k].pc.b, run[k].pc.i;
    assert CopyIsLive(p.f, p.a, b, i);
    assert DefinesDead(p.f, p.a, b, i);
    assert MallocGets(p.f, run, k, p.f.blocks[b][i].dest);
  }

  /** Whatever a function does with dead mallocs, no run makes a memory error; and a finished run leaks
      if and only if it executed a malloc whose result is dead and that returned a block. */
  lemma LeaksIffDeadMalloc(p: Program, run: seq<State>, g: Ghosts, k: nat)
    requires p.Compliant() && NoDeadCopies(p.f, p.a)
    requires Run(p.f, run) && EntryState(p, run[0], g) && Allocated(run[0]) && k < |run|
    ensures !MemoryError(p.f, run[k])
    ensures run[k].pc.Done? ==> (Leak(run[k]) <==> exists j: nat :: j < k && DeadMallocGets(p.f, p.a, run, j))
  {
    NoRunGoesWrong(p, run, g, k);
    if run[k].pc.Done? {
      forall j: nat, addr | j < k && TakesAt(p, run, g, j, addr)
        ensures DeadMallocGets(p.f, p.a, run, j)
      {
        TakenByMalloc(p, run, g, j, addr);
      }
      if j: nat :| j < k && DeadMallocGets(p.f, p.a, run, j) {
        DeadMallocLeaks(p.f, p.a, run, j, k);
      }
    }
  }

  // ----- Where every block can be reached -----

  /** What is used later in the block without being defined in between is live. */
  lemma {:induction false} LiveUpTo(f: Func, a: Analysis, b: nat, i: nat, j: nat, v: Name)
    requires a.Sized(f) && b < |f.blocks| && i <= j <= |f.blocks[b]| && v in Scan(f, a, b, j)
    requires forall k :: i <= k < j ==> v !in f.blocks[b][k].Defs()
    ensures v in Scan(f, a, b, i)
    decreases j - i
  {
    if i < j {
      LiveBefore(f, a, b, j - 1, v);
      LiveUpTo(f, a, b, i, j - 1, v);
    }
  }

  lemma {:induction false} DefinedBefore(f: Func, b: nat, i: nat, v: Name) returns (k: nat)
    requires b < |f.blocks| && i <= |f.blocks[b]| && v in f.DefsBefore(b, i)
    ensures k < i && v in f.blocks[b][k].Defs()
    decreases i
  {
    if v in f.blocks[b][i - 1].Defs() { k := i - 1; } else { k := DefinedBefore(f, b, i - 1, v); }
  }

  /** The one definition of v. */
  ghost predicate DefinedAt(f: Func, b: nat, i: nat, v: Name) {
    f.At(b, i) && v in f.blocks[b][i].Defs() && forall c, j ::
      f.At(c, j) && v in f.blocks[c][j].Defs() ==> c == b && j == i
  }

  lemma SingleDefinition(f: Func, b: nat, i: nat, v: Name)
    requires f.SingleAssignment() && f.At(b, i) && v in f.blocks[b][i].Defs()
    ensures DefinedAt(f, b, i, v)
  {
  }

  /** From the end of the defining block back to the definition. */
  lemma LiveAtDefinition(f: Func, a: Analysis, b: nat, i: nat, j: nat, v: Name)
    requires a.Sized(f) && DefinedAt(f, b, i, v) && i < j <= |f.blocks[b]| && v in Scan(f, a, b, j)
    ensures v in Scan(f, a, b, i + 1)
  {
    forall k | i + 1 <= k < j
      ensures v !in f.blocks[b][k].Defs()
    {
      if v in f.blocks[b][k].Defs() { assert f.At(b, k); }
    }
    LiveUpTo(f, a, b, i + 1, j, v);
  }

  lemma BackOverEdge(f: Func, a: Analysis, dom: seq<set<Name>>, p: nat, c: nat, b: nat, i: nat, v: Name)
    requires Analysed(f, a, dom) && DefinedAt(f, b, i, v) && v !in f.args
    requires p < |f.blocks| && c < |f.blocks| && c in f.Term(p).Succs() && v in dom[c] && v in a.liveStart[c]
    ensures v in Scan(f, a, b, i + 1) || (v in dom[p] && v in a.liveStart[p])
  {
    var j :| 0 <= j < |f.Term(p).Succs()| && f.Term(p).Succs()[j] == c;
    assert dom[f.Term(p).Succs()[j]] <= dom[p] + f.DefsBefore(p, |f.blocks[p]|) && f.Flow().succ[p][j] == c;
    assert LiveOut(f, a, p) == Scan(f, a, p, |f.blocks[p]|) && v in LiveOut(f, a, p);
    if v in f.DefsBefore(p, |f.blocks[p]|) {
      var k := DefinedBefore(f, p, |f.blocks[p]|, v);
      assert f.At(p, k);
      LiveAtDefinition(f, a, b, i, |f.blocks[p]|, v);
    } else {
      LiveThrough(f, a, dom, p, |f.blocks[p]|, v);
    }
  }

  /** A value that is live where its definition dominates is live right after it. */
  lemma {:induction false} LiveBackToDefinition(f: Func, a: Analysis, dom: seq<set<Name>>, route: Route, b: nat, i: nat,
                                                v: Name)
    requires Analysed(f, a, dom) && route.Along(f) && DefinedAt(f, b, i, v) && v !in f.args
    requires route.End() < |f.blocks| && v in dom[route.End()] && v in a.liveStart[route.End()]
    ensures v in Scan(f, a, b, i + 1)
    decreases route
  {
    if route.Then? {
      var p := route.front.End();
      SuccInRange(f, p, route.b);
      BackOverEdge(f, a, dom, p, route.b, b, i, v);
      if v !in Scan(f, a, b, i + 1) { LiveBackToDefinition(f, a, dom, route.front, b, i, v); }
    }
  }

  /** What is live at instruction j and not defined before it in the block is live at the start. */
  lemma LiveThrough(f: Func, a: Analysis, dom: seq<set<Name>>, b: nat, j: nat, v: Name)
    requires Analysed(f, a, dom) && b < |f.blocks| && j <= |f.blocks[b]| && v in Scan(f, a, b, j)
    requires v !in f.DefsBefore(b, j) && v !in f.args
    ensures v in a.liveStart[b]
  {
    forall k: nat | k < j ensures v !in f.blocks[b][k].Defs() { DefsAreBefore(f, b, k, j); }
    LiveUpTo(f, a, b, 0, j, v);
    ScanAtStart(f, a, dom, b, v);
  }

  lemma DefsAreBefore(f: Func, b: nat, k: nat, j: nat)
    requires b < |f.blocks| && k < j <= |f.blocks[b]|
    ensures f.blocks[b][k].Defs() <= f.DefsBefore(b, j)
  {
    GenBeforeGrows(f, b, k + 1, j);
  }

  /** A use that can be reached keeps its definition live. */
  lemma UseKeepsLive(f: Func, a: Analysis, dom: seq<set<Name>>, b: nat, i: nat, c: nat, j: nat, v: Name)
    requires Analysed(f, a, dom) && DefinedAt(f, b, i, v) && v !in f.args && v != NullConst
    requires f.At(c, j) && v in f.blocks[c][j].Operands() && Reachable(f, c)
    ensures v in Scan(f, a, b, i + 1)
  {
    assert v in f.blocks[c][j].Uses() && v in Scan(f, a, c, j);
    assert f.blocks[c][j].Uses() <= dom[c] + f.DefsBefore(c, j);
    if v in f.DefsBefore(c, j) {
      var k := DefinedBefore(f, c, j, v);
      assert f.At(c, k);
      LiveAtDefinition(f, a, b, i, j, v);
    } else {
      LiveThrough(f, a, dom, c, j, v);
      var route: Route :| route.Along(f) && route.End() == c;
      LiveBackToDefinition(f, a, dom, route, b, i, v);
    }
  }

  /** Where every block can be reached, whatever has uses is live right after its definition: only
      results of malloc that nothing uses are dead. */
  lemma ReachedUsesAreLive(f: Func, a: Analysis, dom: seq<set<Name>>)
    requires Analysed(f, a, dom) && forall b: nat :: b < |f.blocks| ==> Reachable(f, b)
    ensures UsedAreLive(f, a) && NoDeadCopies(f, a)
  {
    forall b: nat, i: nat | f.At(b, i)
      ensures UsedOnceDefined(f, a, b, i)
    {
      forall d | d in f.blocks[b][i].Defs() && f.HasUses(d)
        ensures d in Scan(f, a, b, i + 1)
      {
        var c: nat, j: nat :| c < |f.blocks| && j < |f.blocks[c]| && d in f.blocks[c][j].Operands();
        SingleDefinition(f, b, i, d);
        UseKeepsLive(f, a, dom, b, i, c, j, d);
      }
    }
    forall b: nat, i: nat | f.At(b, i) ensures CopyIsLive(f, a, b, i) {
      assert UsedOnceDefined(f, a, b, i);
      assert f.blocks[b][i].VarStore? ==> f.blocks[b][i].dest in f.blocks[b][i].Defs();
    }
  }
}
