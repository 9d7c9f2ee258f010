/** Where the clauses stop protecting: a malloc whose result is dead, and a null branch whose two
    targets are the same block.  Both assumptions of the ownership theorem are needed. */
module OwnershipLimits {
  import opened DataFlow
  import opened PointerIR
  import opened OwnershipClauses
  import opened Execution
  import opened LiveFacts
  import opened OwnershipSoundness

  // ----- A block held only by dead values is never freed -----

  /** Addresses held by names have been allocated. */
  ghost predicate Allocated(s: State) {
    forall n :: n in s.env && s.env[n].VPtr? ==> s.env[n].addr in s.heap
  }

  ghost predicate LostAt(f: Func, a: Analysis, s: State, addr: nat)
    requires a.Sized(f)
  {
    && Allocated(s) && addr in s.heap && s.heap[addr] == Unfreed
    && match s.pc
       case At(b, i) => f.At(b, i) && forall n :: n in Scan(f, a, b, i) ==> Val(s, n) != VPtr(addr)
       case Done(v) => Val(s, v) != VPtr(addr)
  }

  lemma ScanStartIsLive(f: Func, a: Analysis, b: nat, i: nat, v: Name)
    requires a.Sized(f) && b < |f.blocks| && i <= |f.blocks[b]| && v in Scan(f, a, b, 0)
    ensures v in f.GenBefore(b, i) || (v in Scan(f, a, b, i) && v !in f.DefsBefore(b, i))
  {
    if i > 0 {
      ScanStartIsLive(f, a, b, i - 1, v);
    }
  }

  lemma ScanStart(f: Func, a: Analysis, b: nat)
    requires a.Sized(f) && Solution(f.Flow(), a.liveStart) && b < |f.blocks|
    ensures Scan(f, a, b, 0) <= a.liveStart[b]
  {
    forall v | v in Scan(f, a, b, 0)
      ensures v in a.liveStart[b]
    {
      ScanStartIsLive(f, a, b, |f.blocks[b]|, v);
      assert v in In(f.Flow(), a.liveStart, b);
    }
  }

  /** Which scan results carry over a step: nothing becomes live but what the step defines. */
  lemma ScanAfterStep(f: Func, a: Analysis, s: State, s': State)
    requires f.WellFormed() && a.Sized(f) && Solution(f.Flow(), a.liveStart) && Step(f, s, s') && s'.pc.At?
    ensures f.At(s'.pc.b, s'.pc.i)
    ensures Scan(f, a, s'.pc.b, s'.pc.i) <= Scan(f, a, s.pc.b, s.pc.i) + f.blocks[s.pc.b][s.pc.i].Defs()
  {
    var b, i := s.pc.b, s.pc.i;
    var inst := f.blocks[b][i];
    if inst.Terminator() {
      var c := s'.pc.b;
      var j := if c == inst.Succs()[0] then 0 else 1;
      assert f.Term(b) == inst && f.Flow().succ[b][j] == c;
      ScanStart(f, a, c);
      assert a.liveStart[c] <= LiveOut(f, a, b) == Scan(f, a, b, i + 1);
    }
  }

  /** A lost block stays lost. */
  lemma LostStays(f: Func, a: Analysis, s: State, s': State, addr: nat)
    requires f.WellFormed() && a.Sized(f) && Solution(f.Flow(), a.liveStart)
    requires LostAt(f, a, s, addr) && Step(f, s, s')
    ensures LostAt(f, a, s', addr)
  {
    var inst := f.blocks[s.pc.b][s.pc.i];
    var live := Scan(f, a, s.pc.b, s.pc.i);
    assert inst.Uses() <= live;
    assert forall n :: n in inst.Operands() ==> Val(s, n) != VPtr(addr);
    EffectOnLost(inst, live, s, s', addr);
    if s'.pc.At? { ScanAfterStep(f, a, s, s'); }
  }

  lemma EffectOnLost(inst: Instr, live: set<Name>, s: State, s': State, addr: nat)
    requires Allocated(s) && addr in s.heap && s.heap[addr] == Unfreed && Effect(inst, s, s')
    requires forall n :: n in live + inst.Operands() ==> Val(s, n) != VPtr(addr)
    ensures Allocated(s') && addr in s'.heap && s'.heap[addr] == Unfreed
    ensures forall n :: n in live + inst.Operands() + inst.Defs() ==> Val(s', n) != VPtr(addr)
  {
  }

  lemma {:induction false} LostForever(f: Func, a: Analysis, run: seq<State>, k: nat, m: nat, addr: nat)
    requires f.WellFormed() && a.Sized(f) && Solution(f.Flow(), a.liveStart) && Run(f, run) && k <= m < |run|
    requires LostAt(f, a, run[k], addr)
    ensures LostAt(f, a, run[m], addr)
  {
    if k < m {
      LostForever(f, a, run, k, m - 1, addr);
      LostStays(f, a, run[m - 1], run[m], addr);
    }
  }

  lemma AllocatedStays(f: Func, run: seq<State>, k: nat)
    requires Run(f, run) && k < |run| && Allocated(run[0])
    ensures Allocated(run[k])
  {
    if k > 0 {
      AllocatedStays(f, run, k - 1);
      assert Step(f, run[k - 1], run[k]);
    }
  }

  /** If a run executes a malloc whose result is dead, the malloc succeeds and the function later
      returns, the block is leaked: whatever the clauses say, it is not reported. */
  lemma DeadMallocLeaks(f: Func, a: Analysis, run: seq<State>, k: nat, m: nat)
    requires f.WellFormed() && a.Sized(f) && Solution(f.Flow(), a.liveStart)
    requires Run(f, run) && Allocated(run[0]) && k + 1 <= m < |run| && run[m].pc.Done?
    requires run[k].pc.At? && f.At(run[k].pc.b, run[k].pc.i) && f.blocks[run[k].pc.b][run[k].pc.i].Malloc?
    requires f.blocks[run[k].pc.b][run[k].pc.i].dest !in Scan(f, a, run[k].pc.b, run[k].pc.i + 1)
    requires Val(run[k + 1], f.blocks[run[k].pc.b][run[k].pc.i].dest) != VNull
    ensures Leak(run[m])
  {
    var b, i := run[k].pc.b, run[k].pc.i;
    var d := f.blocks[b][i].dest;
    var s, s' := run[k], run[k + 1];
    assert Step(f, run[k], run[k + 1]);
    AllocatedStays(f, run, k);
    assert d in f.blocks[b][i].Defs() && d.Local?;
    var addr := Val(s', d).addr;
    forall n | n in Scan(f, a, b, i + 1)
      ensures Val(s', n) != VPtr(addr)
    {
      assert n != d;
    }
    assert LostAt(f, a, s', addr);
    LostForever(f, a, run, k + 1, m, addr);
  }

  // ----- The smallest such function: p = malloc(n); return; -----

  function UnusedMalloc(): Func { Func({}, [[Malloc(Local(0)), ReturnVoid]]) }

  function UnusedMallocAnalysis(): Analysis { Analysis([{}], [{}], [[]], [{}]) }

  function UnusedMallocAssignment(): Assignment {
    var p := Local(0);
    {Responsible(p), Mut(p), Good(p, Post(0, 0)), Null(p, Post(0, 0)), Good(p, Pre(0, 1)), Null(p, Pre(0, 1)),
     Null(NullConst, Pre(0, 0)), Null(NullConst, Post(0, 0)), Null(NullConst, Pre(0, 1)), Null(NullConst, End)}
  }

  lemma UnusedMallocSets()
    ensures UnusedMallocAnalysis().Sized(UnusedMalloc())
    ensures UnusedMalloc().WellFormed() && !UnusedMalloc().HasUses(Local(0))
    ensures LeastSolution(UnusedMalloc().Flow(), UnusedMallocAnalysis().liveStart)
    ensures forall i :: 0 <= i <= 2 ==> Scan(UnusedMalloc(), UnusedMallocAnalysis(), 0, i) == {}
    ensures forall i :: 0 <= i <= 2 ==> CurLive(UnusedMalloc(), UnusedMallocAnalysis(), 0, i) == {}
  {
    var f, a := UnusedMalloc(), UnusedMallocAnalysis();
    var code := f.blocks[0];
    assert code == [Malloc(Local(0)), ReturnVoid];
    assert f.Term(0) == ReturnVoid;
    assert f.Flow().succ == [[]];
    assert f.GenBefore(0, 1) == {} && f.GenBefore(0, 2) == {};
    assert In(f.Flow(), a.liveStart, 0) == {};
    assert LiveOut(f, a, 0) == {};
    assert Scan(f, a, 0, 2) == {} && Scan(f, a, 0, 1) == {} && Scan(f, a, 0, 0) == {};
    assert CurLive(f, a, 0, 0) == {} && CurLive(f, a, 0, 1) == {} && CurLive(f, a, 0, 2) == {};
    forall b, i | f.At(b, i) ensures b == 0 && (i == 0 || i == 1) { }
  }

  lemma PreserveHolds(asgn: Assignment, names: set<Name>, t: Point, t': Point)
    requires forall n, st :: n in names && StatusAtom(st, n, t) in asgn ==> StatusAtom(st, n, t') in asgn
    ensures Satisfies(asgn, Preserve(names, t, t'))
  {
    forall n, st | n in names
      ensures SatisfiesClause(asgn, Implies(StatusAtom(st, n, t), StatusAtom(st, n, t')))
    {
      var x, y := StatusAtom(st, n, t), StatusAtom(st, n, t');
      assert Holds(asgn, if x in asgn then Pos(y) else Neg(x));
    }
    forall c | c in Preserve(names, t, t')
      ensures SatisfiesClause(asgn, c)
    {
      var n, st := InPreserve(names, t, t', c);
    }
  }

  lemma InPreserve(names: set<Name>, t: Point, t': Point, c: Clause) returns (n: Name, st: Status)
    requires c in Preserve(names, t, t')
    ensures n in names && c == Implies(StatusAtom(st, n, t), StatusAtom(st, n, t'))
  {
    if m :| m in names && c == Implies(StatusAtom(SGood, m, t), StatusAtom(SGood, m, t')) {
      n, st := m, SGood;
    } else if m :| m in names && c == Implies(StatusAtom(SNull, m, t), StatusAtom(SNull, m, t')) {
      n, st := m, SNull;
    } else {
      n :| n in names && c == Implies(StatusAtom(SZombie, n, t), StatusAtom(SZombie, n, t'));
      st := SZombie;
    }
  }

  lemma UnitsHold(asgn: Assignment, cs: set<Clause>)
    requires forall c :: c in cs ==> exists l :: c == {l} && Holds(asgn, l)
    ensures Satisfies(asgn, cs)
  {
  }

  /** The function and its analysis, as facts. */
  ghost predicate IsUnusedMalloc(f: Func, a: Analysis) {
    && a.Sized(f) && f.args == {} && f.blocks == [[Malloc(Local(0)), ReturnVoid]]
    && Scan(f, a, 0, 1) == {} && Scan(f, a, 0, 2) == {}
    && CurLive(f, a, 0, 0) == {} && CurLive(f, a, 0, 1) == {} && CurLive(f, a, 0, 2) == {}
  }

  lemma UnusedMallocFirst(f: Func, a: Analysis)
    requires IsUnusedMalloc(f, a)
    ensures Satisfies(UnusedMallocAssignment(), VisitClauses(f, a, 0, 0))
            && Satisfies(UnusedMallocAssignment(), FlowTo(f, a, 0, 1))
  {
    var p, asgn := Local(0), UnusedMallocAssignment();
    assert f.blocks[0][0] == Malloc(p);
    var before, after := CurLive(f, a, 0, 0) + {NullConst} - {p}, CurLive(f, a, 0, 1) + {NullConst} + {p};
    UnusedMallocFlows(before, after);
    assert LastUse(f, a, 0, 0) == {};
    assert VisitClauses(f, a, 0, 0)
        == MallocClauses(p, Post(0, 0)) + Preserve(before, Pre(0, 0), Post(0, 0)) + Killed({}, Post(0, 0)) + {};
    assert FlowTo(f, a, 0, 1) == Preserve(after, Post(0, 0), Pre(0, 1));
  }

  lemma UnusedMallocFlows(before: set<Name>, after: set<Name>)
    requires before == {NullConst} && after == {NullConst, Local(0)}
    ensures Satisfies(UnusedMallocAssignment(), Preserve(before, Pre(0, 0), Post(0, 0)))
    ensures Satisfies(UnusedMallocAssignment(), Preserve(after, Post(0, 0), Pre(0, 1)))
    ensures Satisfies(UnusedMallocAssignment(), MallocClauses(Local(0), Post(0, 0)))
  {
    PreserveHolds(UnusedMallocAssignment(), before, Pre(0, 0), Post(0, 0));
    PreserveHolds(UnusedMallocAssignment(), after, Post(0, 0), Pre(0, 1));
    UnitsHold(UnusedMallocAssignment(), MallocClauses(Local(0), Post(0, 0)));
  }

  lemma UnusedMallocSecond(f: Func, a: Analysis)
    requires IsUnusedMalloc(f, a)
    ensures Satisfies(UnusedMallocAssignment(), VisitClauses(f, a, 0, 1))
  {
    assert f.blocks[0][1] == ReturnVoid;
    PreserveHolds(UnusedMallocAssignment(), {NullConst}, Pre(0, 1), End);
    assert {} + {NullConst} == {NullConst};
  }

  lemma UnusedMallocMut(f: Func, a: Analysis)
    requires IsUnusedMalloc(f, a)
    ensures Satisfies(UnusedMallocAssignment(), MutClauses(Seen(f)))
  {
    var asgn := UnusedMallocAssignment();
    var m := Implies(Responsible(Local(0)), Mut(Local(0)));
    assert Pos(Mut(Local(0))) in m && Holds(asgn, Pos(Mut(Local(0))));
    forall c | c in MutClauses(Seen(f)) ensures c == m { }
  }

  lemma UnusedMallocWhole(f: Func, a: Analysis)
    requires IsUnusedMalloc(f, a)
    ensures Satisfies(UnusedMallocAssignment(), AllClauses(f, a))
  {
    UnusedMallocFirst(f, a);
    UnusedMallocSecond(f, a);
    UnusedMallocMut(f, a);
    UnusedMallocEntry();
    OneReturningBlock(f, a, UnusedMallocAssignment());
  }

  lemma UnusedMallocEntry()
    ensures Satisfies(UnusedMallocAssignment(), EntryClauses())
  {
    UnitsHold(UnusedMallocAssignment(), EntryClauses());
  }

  lemma OneReturningBlock(f: Func, a: Analysis, asgn: Assignment)
    requires a.Sized(f) && |f.blocks| == 1 && |f.blocks[0]| == 2 && f.blocks[0][1] == ReturnVoid
    requires Satisfies(asgn, VisitClauses(f, a, 0, 0)) && Satisfies(asgn, VisitClauses(f, a, 0, 1))
             && Satisfies(asgn, FlowTo(f, a, 0, 1))
    requires Satisfies(asgn, EntryClauses()) && Satisfies(asgn, MutClauses(Seen(f)))
    ensures Satisfies(asgn, AllClauses(f, a))
  {
    NobodyDies(f, a);
    AllParts(f, a);
  }

  lemma NobodyDies(f: Func, a: Analysis)
    requires a.Sized(f) && |f.blocks| == 1 && f.Term(0) == ReturnVoid
    ensures DeadAtStart(f, a, 0) == {}
  {
  }

  lemma AllParts(f: Func, a: Analysis)
    requires a.Sized(f) && |f.blocks| == 1 && |f.blocks[0]| == 2 && f.Term(0) == ReturnVoid
             && DeadAtStart(f, a, 0) == {}
    ensures AllClauses(f, a) == EntryClauses()
            + (VisitClauses(f, a, 0, 0) + FlowTo(f, a, 0, 1) + VisitClauses(f, a, 0, 1)) + MutClauses(Seen(f))
  {
    var parts := InstrParts(f, a, 0);
    assert FlowTo(f, a, 0, 0) == {};
    TwoParts(parts, parts[0], FlowTo(f, a, 0, 1), VisitClauses(f, a, 0, 1));
    OneBlock(f, a);
    NoEdges(f, a);
  }

  lemma TwoParts(parts: seq<set<Clause>>, u: set<Clause>, v: set<Clause>, w: set<Clause>)
    requires |parts| == 2 && parts[0] == u && parts[1] == v + w
    ensures Union(parts, 2) == u + v + w
  {
    assert Union(parts, 1) == Union(parts, 0) + parts[0];
  }

  lemma OneBlock(f: Func, a: Analysis)
    requires a.Sized(f) && |f.blocks| == 1
    ensures AllClauses(f, a) == EntryClauses() + BlockClauses(f, a, 0) + MutClauses(Seen(f))
  {
    var parts := BlockParts(f, a);
    assert Union(parts, 1) == Union(parts, 0) + parts[0];
    assert BlocksUpTo(f, a, 1) == BlockClauses(f, a, 0);
  }

  lemma NoEdges(f: Func, a: Analysis)
    requires a.Sized(f) && |f.blocks| == 1 && f.Term(0) == ReturnVoid && DeadAtStart(f, a, 0) == {}
    ensures BlockClauses(f, a, 0) == Union(InstrParts(f, a, 0), |f.blocks[0]|)
  {
    assert EdgesUpTo(f, a, 0, 0) == {};
  }

  lemma UnusedMallocRun()
    ensures exists run :: Run(UnusedMalloc(), run) && run[0] == State(At(0, 0), map[], map[]) && Leak(run[|run| - 1])
  {
    var f := UnusedMalloc();
    var s0 := State(At(0, 0), map[], map[]);
    var s1 := State(At(0, 1), map[Local(0) := VPtr(0)], map[0 := Unfreed]);
    var s2 := s1.(pc := Done(NullConst));
    assert f.blocks[0] == [Malloc(Local(0)), ReturnVoid];
    assert 0 !in s0.heap && s1.env == s0.env[Local(0) := VPtr(0)] && s1.heap == s0.heap[0 := Unfreed];
    var run := [s0, s1, s2];
    assert Step(f, run[0], run[1]) && Step(f, run[1], run[2]);
    assert 0 in s2.heap && s2.heap[0] == Unfreed && Leak(run[2]);
    assert Run(f, run);
  }

  /** The clauses of this function are satisfiable, yet it leaks whenever malloc succeeds. */
  lemma UnusedMallocAcceptedButLeaks()
    ensures UnusedMallocAnalysis().Sized(UnusedMalloc())
    ensures Satisfies(UnusedMallocAssignment(), AllClauses(UnusedMalloc(), UnusedMallocAnalysis()))
    ensures exists run :: Run(UnusedMalloc(), run) && run[0] == State(At(0, 0), map[], map[]) && Leak(run[|run| - 1])
  {
    UnusedMallocSets();
    UnusedMallocWhole(UnusedMalloc(), UnusedMallocAnalysis());
    UnusedMallocRun();
  }

  // ----- Null branches -----

  /** The clauses of edge j carry state `st` of the tested name n, when that state is possible there:
      `isNil` says whether the value is NULL, which decides both the states and the edge taken. */
  ghost predicate EdgeCarries(f: Func, a: Analysis, b: nat, n: Name, asgn: Assignment, isNil: bool, j: nat, st: Status)
    requires a.Sized(f) && b < |f.blocks| && f.Term(b).NullBranch?
  {
    && j < |f.Term(b).Succs()|
    && f.Term(b).Succs()[j] == (if isNil == f.Term(b).eq then f.Term(b).onTrue else f.Term(b).onFalse)
    && (st == SNull <==> isNil)
    && Satisfies(asgn, EdgeClauses(f, a, b, j))
    && StatusAtom(st, n, Post(b, |f.blocks[b]| - 1)) in asgn ==>
      StatusAtom(st, n, Pre(f.Term(b).Succs()[j], 0)) in asgn
  }

  ghost predicate EdgesSound(f: Func, a: Analysis, b: nat, n: Name)
    requires a.Sized(f) && b < |f.blocks| && f.Term(b).NullBranch?
  {
    forall asgn: Assignment, isNil: bool, j: nat, st: Status :: EdgeCarries(f, a, b, n, asgn, isNil, j, st)
  }

  lemma DropsGood(f: Func, a: Analysis, b: nat, n: Name, st: Status)
    requires a.Sized(f) && b < |f.blocks| && f.Term(b).NullBranch? && f.Term(b).onTrue == f.Term(b).onFalse
    requires n in a.aliases[b] && st == if f.Term(b).eq then SGood else SNull
    ensures Satisfies({StatusAtom(st, n, Post(b, |f.blocks[b]| - 1))}, EdgeClauses(f, a, b, 0))
  {
    var t := Post(b, |f.blocks[b]| - 1);
    var asgn := {StatusAtom(st, n, t)};
    forall c | c in EdgeClauses(f, a, b, 0)
      ensures SatisfiesClause(asgn, c)
    {
      forall x, y | c == Implies(x, y) && x !in asgn
        ensures SatisfiesClause(asgn, c)
      {
        assert Neg(x) in Implies(x, y) && Holds(asgn, Neg(x));
      }
    }
  }

  /** The clauses of a null branch are sound for a live tested name exactly when the branch has two
      different targets: with equal targets both edges are taken for the same side of the test. */
  lemma NullBranchSoundIff(f: Func, a: Analysis, b: nat, n: Name)
    requires a.Sized(f) && b < |f.blocks| && f.Term(b).NullBranch?
    requires n in CurLive(f, a, b, |f.blocks[b]|) && n in a.aliases[b]
    ensures EdgesSound(f, a, b, n) <==> f.Term(b).onTrue != f.Term(b).onFalse
  {
    var term := f.Term(b);
    var t := Post(b, |f.blocks[b]| - 1);
    if term.onTrue == term.onFalse {
      var st := if term.eq then SGood else SNull;
      DropsGood(f, a, b, n, st);
      assert !EdgeCarries(f, a, b, n, {StatusAtom(st, n, t)}, st == SNull, 0, st);
    } else {
      forall asgn: Assignment, isNil: bool, j: nat, st: Status
        ensures EdgeCarries(f, a, b, n, asgn, isNil, j, st)
      {
        if j < |term.Succs()| && Satisfies(asgn, EdgeClauses(f, a, b, j)) && StatusAtom(st, n, t) in asgn
           && term.Succs()[j] == (if isNil == term.eq then term.onTrue else term.onFalse) && (st == SNull <==> isNil) {
          var t' := Pre(term.Succs()[j], 0);
          assert Implies(StatusAtom(st, n, t), StatusAtom(st, n, t')) in EdgeClauses(f, a, b, j);
          Follow(asgn, EdgeClauses(f, a, b, j), StatusAtom(st, n, t), StatusAtom(st, n, t'));
        }
      }
    }
  }
}
