/** A function that keeps the discipline: p = malloc(n); free(p); return.  It meets every premise of
    the ownership theorem, so the theorem is not empty. */
module OwnershipExample {
  import opened DataFlow
  import opened PointerIR
  import opened OwnershipClauses
  import opened Execution
  import opened LiveFacts
  import opened OwnershipSoundness
  import opened OwnershipLimits
  import opened OwnershipTheorem
  import opened SettledBorrows
  import opened BorrowPasses
  import opened CopySites
  import opened ClauseMeaning
  import opened FunctionMeaning

  function MallocFree(): Func { Func({}, [[Malloc(Local(0)), Free(Local(0), false), ReturnVoid]]) }

  function MallocFreeAnalysis(): Analysis { Analysis([{}], [{}], [[]], [{}]) }

  function MallocFreeAssignment(): Assignment {
    var p := Local(0);
    {Responsible(p), Mut(p), Good(p, Post(0, 0)), Null(p, Post(0, 0)), Good(p, Pre(0, 1)), Null(p, Pre(0, 1)),
     Zombie(p, Post(0, 1)), Null(p, Post(0, 1)),
     Null(NullConst, Pre(0, 0)), Null(NullConst, Post(0, 0)), Null(NullConst, Pre(0, 1)), Null(NullConst, Post(0, 1)),
     Null(NullConst, Pre(0, 2)), Null(NullConst, End)}
  }

  ghost function MallocFreeProgram(): Program {
    Program(MallocFree(), MallocFreeAnalysis(), [{}], n => n, MallocFreeAssignment())
  }

  /** The shape of the function and its analysis. */
  ghost predicate Shape(f: Func, a: Analysis) {
    && f.args == {} && |f.blocks| == 1 && |f.blocks[0]| == 3
    && f.blocks[0][0] == Malloc(Local(0)) && f.blocks[0][1] == Free(Local(0), false) && f.blocks[0][2] == ReturnVoid
    && a.liveStart == [{}] && a.borrowStart == [{}] && a.deathOrder == [[]] && a.aliases == [{}]
  }

  lemma ShapeIsSSA(f: Func, a: Analysis)
    requires Shape(f, a)
    ensures f.WellFormed() && f.StrictSSA([{}])
  {
    assert f.Term(0) == ReturnVoid;
    assert f.DefsBefore(0, 0) == {} && f.DefsBefore(0, 1) == {Local(0)} && f.DefsBefore(0, 2) == {Local(0)};
    forall b, i | f.At(b, i) ensures b == 0 && (i == 0 || i == 1 || i == 2) { }
  }

  lemma ShapeFlow(f: Func, a: Analysis)
    requires Shape(f, a)
    ensures a.Sized(f) && f.Flow().succ == [[]] && f.Flow().gen == [{}] && LiveOut(f, a, 0) == {}
    ensures LeastSolution(f.Flow(), a.liveStart)
  {
    assert f.Term(0) == ReturnVoid;
    assert f.DefsBefore(0, 0) == {} && f.DefsBefore(0, 1) == {Local(0)} && f.DefsBefore(0, 2) == {Local(0)};
    assert f.GenBefore(0, 0) == {} && f.GenBefore(0, 1) == {} && f.GenBefore(0, 2) == {} && f.GenBefore(0, 3) == {};
    assert f.Flow().succ == [[]] && f.Flow().gen == [{}];
    assert In(f.Flow(), a.liveStart, 0) == {};
  }

  lemma ShapeScan(f: Func, a: Analysis)
    requires Shape(f, a) && a.Sized(f) && LiveOut(f, a, 0) == {}
    ensures Scan(f, a, 0, 3) == {} && Scan(f, a, 0, 2) == {} && Scan(f, a, 0, 1) == {Local(0)}
    ensures LastUse(f, a, 0, 0) == {} && LastUse(f, a, 0, 1) == {Local(0)} && LastUse(f, a, 0, 2) == {}
  {
  }

  lemma ShapeLive(f: Func, a: Analysis)
    requires Shape(f, a) && a.Sized(f)
    requires LastUse(f, a, 0, 0) == {} && LastUse(f, a, 0, 1) == {Local(0)} && LastUse(f, a, 0, 2) == {}
    ensures CurLive(f, a, 0, 0) == {} && CurLive(f, a, 0, 1) == {Local(0)} && CurLive(f, a, 0, 2) == {}
            && CurLive(f, a, 0, 3) == {}
  {
    assert Local(0) in f.blocks[0][1].Operands() && f.HasUses(Local(0));
  }

  lemma ShapeBorrows(f: Func, a: Analysis)
    requires Shape(f, a) && a.Sized(f)
    ensures BorrowsAt(f, a, 0, 0) == {} && BorrowsAt(f, a, 0, 1) == {} && BorrowsAt(f, a, 0, 2) == {}
            && BorrowsAt(f, a, 0, 3) == {}
  {
    assert BorrowsAt(f, a, 0, 0) == {};
    assert BorrowsAt(f, a, 0, 1) == {};
    assert BorrowsAt(f, a, 0, 2) == {};
  }

  // ----- The clauses hold -----

  lemma FreeHolds(asgn: Assignment)
    requires asgn == MallocFreeAssignment()
    ensures Satisfies(asgn, FreeClauses({}, Local(0), false, Pre(0, 1), Post(0, 1)))
    ensures Satisfies(asgn, Killed({Local(0)}, Post(0, 1)))
  {
    var p, pre, post := Local(0), Pre(0, 1), Post(0, 1);
    ClauseHolds(asgn, {Pos(Responsible(p))}, Pos(Responsible(p)));
    ClauseHolds(asgn, {Neg(Zombie(p, pre))}, Neg(Zombie(p, pre)));
    ClauseHolds(asgn, Implies(Good(p, pre), Zombie(p, post)), Pos(Zombie(p, post)));
    ClauseHolds(asgn, Implies(Null(p, pre), Null(p, post)), Pos(Null(p, post)));
    ClauseHolds(asgn, {Neg(Responsible(p)), Neg(Good(p, post))}, Neg(Good(p, post)));
  }

  lemma MallocHolds(asgn: Assignment)
    requires asgn == MallocFreeAssignment()
    ensures Satisfies(asgn, MallocClauses(Local(0), Post(0, 0))) && Satisfies(asgn, EntryClauses())
  {
    UnitsHold(asgn, MallocClauses(Local(0), Post(0, 0)));
    UnitsHold(asgn, EntryClauses());
  }

  lemma MutHolds(f: Func, a: Analysis, asgn: Assignment)
    requires Shape(f, a) && asgn == MallocFreeAssignment()
    ensures Satisfies(asgn, MutClauses(Seen(f)))
  {
    var m := Implies(Responsible(Local(0)), Mut(Local(0)));
    ClauseHolds(asgn, m, Pos(Mut(Local(0))));
    forall n | n in Seen(f) && n != NullConst
      ensures n == Local(0)
    {
      var b, i :| 0 <= b < |f.blocks| && 0 <= i < |f.blocks[b]| && n in SeenAt(f, f.blocks[b][i]);
      assert b == 0 && (i == 0 || i == 1 || i == 2);
    }
    forall c | c in MutClauses(Seen(f)) ensures c == m { }
  }

  lemma FlowsHold(asgn: Assignment)
    requires asgn == MallocFreeAssignment()
    ensures Satisfies(asgn, Preserve({NullConst}, Pre(0, 0), Post(0, 0)))
    ensures Satisfies(asgn, Preserve({Local(0), NullConst}, Post(0, 0), Pre(0, 1)))
    ensures Satisfies(asgn, Preserve({NullConst}, Pre(0, 1), Post(0, 1)))
    ensures Satisfies(asgn, Preserve({NullConst}, Post(0, 1), Pre(0, 2)))
    ensures Satisfies(asgn, Preserve({NullConst}, Pre(0, 2), End))
  {
    PreserveHolds(asgn, {NullConst}, Pre(0, 0), Post(0, 0));
    PreserveHolds(asgn, {Local(0), NullConst}, Post(0, 0), Pre(0, 1));
    PreserveHolds(asgn, {NullConst}, Pre(0, 1), Post(0, 1));
    PreserveHolds(asgn, {NullConst}, Post(0, 1), Pre(0, 2));
    PreserveHolds(asgn, {NullConst}, Pre(0, 2), End);
  }

  /** What the generator writes for the function. */
  ghost predicate Visited(f: Func, a: Analysis)
    requires a.Sized(f) && |f.blocks| == 1 && |f.blocks[0]| == 3
  {
    && CurLive(f, a, 0, 0) == {} && CurLive(f, a, 0, 1) == {Local(0)} && CurLive(f, a, 0, 2) == {}
      && CurLive(f, a, 0, 3) == {}
    && LastUse(f, a, 0, 0) == {} && LastUse(f, a, 0, 1) == {Local(0)} && LastUse(f, a, 0, 2) == {}
    && BorrowsAt(f, a, 0, 0) == {} && BorrowsAt(f, a, 0, 1) == {} && BorrowsAt(f, a, 0, 2) == {}
  }

  lemma FirstVisit(f: Func, a: Analysis)
    requires Shape(f, a) && a.Sized(f) && Visited(f, a)
    ensures VisitClauses(f, a, 0, 0)
            == MallocClauses(Local(0), Post(0, 0)) + Preserve({NullConst}, Pre(0, 0), Post(0, 0))
    ensures FlowTo(f, a, 0, 1) == Preserve({Local(0), NullConst}, Post(0, 0), Pre(0, 1))
  {
    assert CurLive(f, a, 0, 0) + {NullConst} - {Local(0)} == {NullConst};
    assert CurLive(f, a, 0, 1) + {NullConst} + {Local(0)} == {Local(0), NullConst};
  }

  lemma SecondVisit(f: Func, a: Analysis)
    requires Shape(f, a) && a.Sized(f) && Visited(f, a)
    ensures VisitClauses(f, a, 0, 1) ==
            FreeClauses({}, Local(0), false, Pre(0, 1), Post(0, 1)) + Preserve({NullConst}, Pre(0, 1), Post(0, 1))
              + Killed({Local(0)}, Post(0, 1))
    ensures FlowTo(f, a, 0, 2) == Preserve({NullConst}, Post(0, 1), Pre(0, 2))
  {
    assert CurLive(f, a, 0, 1) + {NullConst} - {Local(0)} == {NullConst};
    assert CurLive(f, a, 0, 2) + {NullConst} + {} == {NullConst};
  }

  lemma ThirdVisit(f: Func, a: Analysis)
    requires Shape(f, a) && a.Sized(f) && Visited(f, a)
    ensures VisitClauses(f, a, 0, 2) == Preserve({NullConst}, Pre(0, 2), End)
  {
    assert CurLive(f, a, 0, 2) + {NullConst} == {NullConst};
  }

  lemma BlockWritten(f: Func, a: Analysis)
    requires Shape(f, a) && a.Sized(f)
    ensures Union(InstrParts(f, a, 0), 3) ==
            VisitClauses(f, a, 0, 0) + FlowTo(f, a, 0, 1) + VisitClauses(f, a, 0, 1) + FlowTo(f, a, 0, 2)
              + VisitClauses(f, a, 0, 2)
  {
    var parts := InstrParts(f, a, 0);
    assert FlowTo(f, a, 0, 0) == {};
    ThreeParts(parts, parts[0], FlowTo(f, a, 0, 1), VisitClauses(f, a, 0, 1), FlowTo(f, a, 0, 2),
      VisitClauses(f, a, 0, 2));
  }

  lemma ThreeParts(parts: seq<set<Clause>>, u: set<Clause>, v: set<Clause>, w: set<Clause>, x: set<Clause>,
                   y: set<Clause>)
    requires |parts| == 3 && parts[0] == u && parts[1] == v + w && parts[2] == x + y
    ensures Union(parts, 3) == u + v + w + x + y
  {
    assert Union(parts, 1) == Union(parts, 0) + parts[0];
    assert Union(parts, 2) == Union(parts, 1) + parts[1];
  }

  lemma VisitsHold(f: Func, a: Analysis, asgn: Assignment)
    requires Shape(f, a) && a.Sized(f) && Visited(f, a) && asgn == MallocFreeAssignment()
    ensures Satisfies(asgn, VisitClauses(f, a, 0, 0)) && Satisfies(asgn, FlowTo(f, a, 0, 1))
            && Satisfies(asgn, VisitClauses(f, a, 0, 1))
    ensures Satisfies(asgn, FlowTo(f, a, 0, 2)) && Satisfies(asgn, VisitClauses(f, a, 0, 2))
  {
    MallocHolds(asgn);
    FreeHolds(asgn);
    FlowsHold(asgn);
    FirstVisit(f, a);
    SecondVisit(f, a);
    ThirdVisit(f, a);
    var free, killed := FreeClauses({}, Local(0), false, Pre(0, 1), Post(0, 1)), Killed({Local(0)}, Post(0, 1));
    BothMean(asgn, MallocClauses(Local(0), Post(0, 0)), Preserve({NullConst}, Pre(0, 0), Post(0, 0)));
    BothMean(asgn, free, Preserve({NullConst}, Pre(0, 1), Post(0, 1)));
    BothMean(asgn, free + Preserve({NullConst}, Pre(0, 1), Post(0, 1)), killed);
  }

  lemma ClausesHold(f: Func, a: Analysis, asgn: Assignment)
    requires Shape(f, a) && a.Sized(f) && Visited(f, a) && asgn == MallocFreeAssignment()
    ensures Satisfies(asgn, AllClauses(f, a))
  {
    VisitsHold(f, a, asgn);
    MallocHolds(asgn);
    MutHolds(f, a, asgn);
    var one, two := VisitClauses(f, a, 0, 0) + FlowTo(f, a, 0, 1), VisitClauses(f, a, 0, 1);
    BothMean(asgn, VisitClauses(f, a, 0, 0), FlowTo(f, a, 0, 1));
    BothMean(asgn, one, two);
    BothMean(asgn, one + two, FlowTo(f, a, 0, 2));
    BothMean(asgn, one + two + FlowTo(f, a, 0, 2), VisitClauses(f, a, 0, 2));
    BothMean(asgn, EntryClauses(), one + two + FlowTo(f, a, 0, 2) + VisitClauses(f, a, 0, 2));
    BothMean(asgn, EntryClauses() + (one + two + FlowTo(f, a, 0, 2) + VisitClauses(f, a, 0, 2)), MutClauses(Seen(f)));
    BlockWritten(f, a);
    assert f.Term(0) == ReturnVoid;
    NobodyDies(f, a);
    OneBlock(f, a);
    NoEdges(f, a);
  }

  // ----- The premises are met -----

  lemma ShapeIsVisited(f: Func, a: Analysis)
    requires Shape(f, a)
    ensures a.Sized(f) && Visited(f, a) && Scan(f, a, 0, 1) == {Local(0)}
  {
    ShapeFlow(f, a);
    ShapeScan(f, a);
    ShapeLive(f, a);
    ShapeBorrows(f, a);
  }

  lemma ShapeIsAnalysable(p: Program)
    requires Shape(p.f, p.a) && p.dom == [{}] && (forall n :: p.root(n) == n)
    ensures p.Analysable()
  {
    ShapeIsSSA(p.f, p.a);
    ShapeFlow(p.f, p.a);
    assert p.f.Term(0) == ReturnVoid;
    NobodyDies(p.f, p.a);
    forall b, i | p.f.At(b, i) ensures b == 0 && !p.f.blocks[b][i].VarStore? { assert i == 0 || i == 1 || i == 2; }
  }

  lemma ShapeIsCompliant(p: Program)
    requires Shape(p.f, p.a) && p.dom == [{}] && (forall n :: p.root(n) == n) && p.asgn == MallocFreeAssignment()
    ensures p.Compliant()
  {
    ShapeIsAnalysable(p);
    ShapeIsVisited(p.f, p.a);
    ClausesHold(p.f, p.a, p.asgn);
    forall b, i | p.f.At(b, i) ensures !p.f.blocks[b][i].NullBranch? { assert b == 0 && (i == 0 || i == 1 || i == 2); }
  }

  lemma ShapeRuns(f: Func, a: Analysis) returns (run: seq<State>)
    requires Shape(f, a)
    ensures Run(f, run) && |run| == 4 && run[0] == State(At(0, 0), map[], map[]) && run[3].pc.Done?
    ensures run[1].heap == map[0 := Unfreed] && run[3].heap == map[0 := Freed]
  {
    var s0 := State(At(0, 0), map[], map[]);
    var s1 := State(At(0, 1), map[Local(0) := VPtr(0)], map[0 := Unfreed]);
    var s2 := State(At(0, 2), s1.env, map[0 := Freed]);
    var s3 := s2.(pc := Done(NullConst));
    run := [s0, s1, s2, s3];
    assert 0 !in s0.heap && s1.env == s0.env[Local(0) := VPtr(0)] && s1.heap == s0.heap[0 := Unfreed];
    assert Step(f, s0, s1) && Step(f, s1, s2) && Step(f, s2, s3);
    assert run[0] == s0 && run[1] == s1 && run[2] == s2 && run[3] == s3;
  }

  // ----- It is what the generator works with -----

  lemma NoPredecessor(f: Func, a: Analysis, ends: seq<Borrows>)
    requires Shape(f, a) && |ends| == 1
    ensures Join(f, ends, 0) == {}
  {
    assert f.Term(0) == ReturnVoid;
  }

  /** The analysis is the one that the generator's last pass sees. */
  lemma ShapeIsSettled(f: Func, a: Analysis, order: seq<Name>)
    requires Shape(f, a)
    ensures LiveFor(f, a.liveStart) && Settled(f, a.liveStart, order) == a
  {
    ShapeFlow(f, a);
    var settled := Settled(f, a.liveStart, order);
    SettledIs(f, a.liveStart, order);
    NobodyDies(f, settled);
    assert StartsAsPassed(f, settled, 0);
    NoPredecessor(f, a, PassUpTo(f, settled, DryRuns(f, settled), 0));
    assert f.Term(0) == ReturnVoid && AliasesAt(f, settled, 0) == {};
    NoneInOrder(order);
    assert settled.borrowStart == a.borrowStart && settled.aliases == a.aliases && settled.deathOrder == a.deathOrder;
  }

  lemma {:induction false} NoneInOrder(order: seq<Name>)
    ensures InOrder(order, {}) == []
    decreases |order|
  {
    if order != [] { NoneInOrder(order[..|order| - 1]); }
  }

  lemma ShapeIsReached(f: Func, a: Analysis)
    requires Shape(f, a)
    ensures Within(f, 2) && AllReached(f)
  {
    assert Entry.Along(f) && Entry.End() == 0 && Entry.Descents() == 0;
    forall b: nat | b < |f.blocks| ensures ReachedBy(f, b, 2) && Reachable(f, b) { assert b == Entry.End(); }
  }

  lemma ShapeIsChecked(p: Program)
    requires Shape(p.f, p.a) && p.dom == [{}] && (forall n :: p.root(n) == n) && p.asgn == MallocFreeAssignment()
    ensures Checked(p, p.a.liveStart, [Local(0)])
  {
    ShapeIsCompliant(p);
    ShapeIsSettled(p.f, p.a, [Local(0)]);
    ShapeIsReached(p.f, p.a);
    forall n | n in UsedNames(p.f)
      ensures n == Local(0)
    {
      var b, i :| 0 <= b < |p.f.blocks| && 0 <= i < |p.f.blocks[b]| && n in p.f.blocks[b][i].Uses();
      assert b == 0 && (i == 0 || i == 1 || i == 2);
    }
  }

  /** There are a compliant program, and a run of it that allocates a block and frees it. */
  lemma PremisesCanBeMet() returns (p: Program, run: seq<State>, g: Ghosts)
    ensures p.Compliant() && Checked(p, p.a.liveStart, [Local(0)]) && Within(p.f, 2) && p.DistinctTargets()
    ensures Run(p.f, run) && EntryState(p, run[0], g)
    ensures |run| == 4 && run[1].heap == map[0 := Unfreed] && run[3].heap == map[0 := Freed]
  {
    p, g := MallocFreeProgram(), map[];
    HasShape(p.f, p.a);
    ShapeIsCompliant(p);
    ShapeIsChecked(p);
    ShapeIsReached(p.f, p.a);
    run := ShapeRuns(p.f, p.a);
    EntryMeans(p, run[0], g);
  }

  lemma HasShape(f: Func, a: Analysis)
    requires f == MallocFree() && a == MallocFreeAnalysis()
    ensures Shape(f, a)
  {
    assert f.blocks[0] == [Malloc(Local(0)), Free(Local(0), false), ReturnVoid];
  }

  lemma EntryMeans(p: Program, s: State, g: Ghosts)
    requires p.f.args == {} && s == State(At(0, 0), map[], map[]) && g == map[]
    ensures EntryState(p, s, g)
  {
  }
}
