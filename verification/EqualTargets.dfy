/** A null branch whose two targets are the same block.  The generator takes both edges for the NULL side
    of the test, so what the tested pointer owns is lost from the clauses: all of them can be satisfied,
    the last pass is stable, and a run leaks. */
module EqualTargets {
  import opened DataFlow
  import opened PointerIR
  import opened OwnershipClauses
  import opened Execution
  import opened LiveFacts
  import opened CopyBorrows
  import opened CopySites
  import opened BorrowPaths
  import opened SettledBorrows
  import opened ConstraintGen
  import opened ClauseMeaning
  import opened FunctionMeaning
  import OwnershipTheorem

  const P: Name := Local(0)

  /** p = malloc(n); if (p == NULL) goto next; else goto next; next: p == NULL; return. */
  function SameBlockTwice(): Func {
    Func({}, [[Malloc(P), ICmp(P), NullBranch(P, true, 1, 1)], [ICmp(P), ReturnVoid]])
  }

  ghost predicate Shape(f: Func) {
    && f.args == {} && |f.blocks| == 2
    && f.blocks[0] == [Malloc(P), ICmp(P), NullBranch(P, true, 1, 1)] && f.blocks[1] == [ICmp(P), ReturnVoid]
  }

  lemma HasShape()
    ensures Shape(SameBlockTwice())
  {
  }

  // ----- Its form -----

  lemma Places(f: Func, b: int, i: int)
    requires Shape(f) && f.At(b, i)
    ensures (b == 0 && (i == 0 || i == 1 || i == 2)) || (b == 1 && (i == 0 || i == 1))
  {
  }

  lemma ShapeIsWellFormed(f: Func)
    requires Shape(f)
    ensures f.WellFormed() && f.SingleAssignment() && f.HasUses(P)
  {
    forall b, i | f.At(b, i)
      ensures f.blocks[b][i].Terminator() <==> i == |f.blocks[b]| - 1
      ensures Ret !in f.blocks[b][i].Operands()
      ensures forall j :: 0 <= j < |f.blocks[b][i].Succs()| ==> f.blocks[b][i].Succs()[j] < |f.blocks|
      ensures f.blocks[b][i].Defs() == if b == 0 && i == 0 then {P} else {}
    {
      Places(f, b, i);
    }
    assert P in f.blocks[0][1].Operands();
  }

  lemma Successors(f: Func)
    requires Shape(f)
    ensures f.Term(0).Succs() == [1, 1] && f.Term(1).Succs() == []
  {
  }

  lemma Before(f: Func)
    requires Shape(f)
    ensures f.DefsBefore(0, 0) == {} && f.DefsBefore(0, 1) == {P} && f.DefsBefore(0, 2) == {P}
            && f.DefsBefore(0, 3) == {P}
    ensures f.DefsBefore(1, 0) == {} && f.DefsBefore(1, 1) == {} && f.DefsBefore(1, 2) == {}
    ensures f.GenBefore(0, 3) == {} && f.GenBefore(1, 2) == {P}
  {
    assert f.DefsBefore(0, 0) == {} && f.DefsBefore(0, 1) == {P} && f.DefsBefore(0, 2) == {P};
    assert f.DefsBefore(1, 0) == {} && f.DefsBefore(1, 1) == {};
    assert f.GenBefore(0, 0) == {} && f.GenBefore(0, 1) == {} && f.GenBefore(0, 2) == {};
    assert f.GenBefore(1, 0) == {} && f.GenBefore(1, 1) == {P};
  }

  function Live(): seq<set<Name>> { [{}, {P}] }

  lemma ShapeIsStrict(f: Func)
    requires Shape(f)
    ensures f.WellFormed() && f.StrictSSA(Live())
  {
    ShapeIsWellFormed(f);
    UsesDominated(f);
    EdgesDominated(f);
  }

  lemma EdgesDominated(f: Func)
    requires Shape(f)
    ensures forall b: nat, j: nat :: b < 2 && j < |f.Term(b).Succs()| ==>
              f.Term(b).Succs()[j] < 2 && Live()[f.Term(b).Succs()[j]] <= Live()[b] + f.DefsBefore(b, |f.blocks[b]|)
  {
    Successors(f);
    Before(f);
  }

  lemma UsesDominated(f: Func)
    requires Shape(f)
    ensures forall b: nat, i: nat :: f.At(b, i) ==>
              f.blocks[b][i].Uses() + (if f.blocks[b][i].NullBranch? then {f.blocks[b][i].ptr} - {NullConst} else {})
                <= Live()[b] + f.DefsBefore(b, i)
  {
    Before(f);
    forall b: nat, i: nat | f.At(b, i)
      ensures f.blocks[b][i].Uses() + (if f.blocks[b][i].NullBranch? then {f.blocks[b][i].ptr} - {NullConst} else {})
                <= Live()[b] + f.DefsBefore(b, i)
    {
      Places(f, b, i);
    }
  }

  // ----- What is live -----

  function ShapeFlow(): Flow<Name> { Flow.Flow([[1, 1], []], [{}, {P}], [{P}, {}]) }

  lemma FlowIs(f: Func)
    requires Shape(f)
    ensures f.Flow() == ShapeFlow() && f.Flow().Valid()
  {
    Successors(f);
    Before(f);
    var fl := f.Flow();
    assert fl.succ == [[1, 1], []];
    assert fl.gen == [{}, {P}];
    assert fl.kill == [{P}, {}];
  }

  function LiveEnd(b: nat): set<Name> { if b == 0 then {P} else {} }

  lemma OutIs(fl: Flow<Name>, b: nat)
    requires fl.Valid() && fl == ShapeFlow() && b < 2
    ensures Out(fl, Live(), b) == LiveEnd(b) && Live()[b] == In(fl, Live(), b)
  {
    assert b == 0 || b == 1;
    forall v ensures v in Out(fl, Live(), b) <==> v in LiveEnd(b) {
      if b == 0 && v == P { assert v in Live()[fl.succ[b][0]]; }
    }
  }

  lemma LeastIs(fl: Flow<Name>, other: seq<set<Name>>)
    requires fl.Valid() && fl == ShapeFlow() && DataFlow.Closed(fl, other)
    ensures DataFlow.Below(Live(), other)
  {
    assert In(fl, other, 1) <= other[1];
  }

  lemma IsLive(f: Func)
    requires Shape(f)
    ensures LiveFor(f, Live()) && LeastSolution(f.Flow(), Live())
    ensures forall b: nat :: b < 2 ==> Out(f.Flow(), Live(), b) == LiveEnd(b)
  {
    ShapeIsWellFormed(f);
    FlowIs(f);
    forall b: nat | b < 2
      ensures Out(f.Flow(), Live(), b) == LiveEnd(b) && Live()[b] == In(f.Flow(), Live(), b)
    {
      OutIs(f.Flow(), b);
    }
    forall other | DataFlow.Closed(f.Flow(), other) ensures DataFlow.Below(Live(), other) { LeastIs(f.Flow(), other); }
  }

  ghost predicate Given(f: Func, a: Analysis) {
    && Shape(f) && a.Sized(f) && a.liveStart == Live()
    && (forall b: nat {:trigger LiveOut(f, a, b)} :: b < 2 ==> LiveOut(f, a, b) == LiveEnd(b))
  }

  lemma Scans(f: Func, a: Analysis)
    requires Given(f, a)
    ensures Scan(f, a, 0, 1) == {P} && Scan(f, a, 0, 2) == {P} && Scan(f, a, 0, 3) == {P}
    ensures Scan(f, a, 1, 1) == {} && Scan(f, a, 1, 2) == {}
  {
    assert Scan(f, a, 0, 3) == {P} && Scan(f, a, 0, 2) == {P};
    assert Scan(f, a, 1, 2) == {};
  }

  function LiveAt(b: nat, i: nat): set<Name> { if (b == 0 && i > 0) || (b == 1 && i == 0) then {P} else {} }

  function LastAt(b: nat, i: nat): set<Name> { if b == 1 && i == 0 then {P} else {} }

  lemma Lasts(f: Func, a: Analysis, b: nat, i: nat)
    requires Given(f, a) && f.At(b, i)
    ensures LastUse(f, a, b, i) == LastAt(b, i)
  {
    Scans(f, a);
    Places(f, b, i);
  }

  lemma UsedDefsAt(f: Func, b: nat, i: nat)
    requires Shape(f) && f.At(b, i)
    ensures (set d | d in f.blocks[b][i].Defs() && f.HasUses(d)) == if b == 0 && i == 0 then {P} else {}
  {
    ShapeIsWellFormed(f);
    Places(f, b, i);
  }

  lemma {:induction false} Lives(f: Func, a: Analysis, b: nat, i: nat)
    requires Given(f, a) && b < 2 && i <= |f.blocks[b]|
    ensures CurLive(f, a, b, i) == LiveAt(b, i)
    decreases i
  {
    if i > 0 {
      Lives(f, a, b, i - 1);
      LiveNext(f, a, b, i - 1);
    }
  }

  lemma LiveNext(f: Func, a: Analysis, b: nat, i: nat)
    requires Given(f, a) && f.At(b, i) && CurLive(f, a, b, i) == LiveAt(b, i)
    ensures CurLive(f, a, b, i + 1) == LiveAt(b, i + 1)
  {
    Lasts(f, a, b, i);
    UsedDefsAt(f, b, i);
    Places(f, b, i);
  }

  lemma NobodyDies(f: Func, a: Analysis, b: nat)
    requires Given(f, a) && b < 2
    ensures DeadAtStart(f, a, b) == {}
  {
    Successors(f);
    assert a.liveStart[0] == {} && LiveOut(f, a, 0) == {P} && a.liveStart[1] == {P};
  }

  // ----- An assignment -----

  function Points(): set<Point> {
    {End} + (set b, i | 0 <= b < 2 && 0 <= i < 3 :: Pre(b, i)) + set b, i | 0 <= b < 2 && 0 <= i < 3 :: Post(b, i)
  }

  /** p is good up to the branch only; NULL it may be everywhere. */
  function UpToBranch(): Assignment {
    {Responsible(P), Mut(P)}
    + (set t | t in Points() && !t.End? && t.b == 0 :: Good(P, t))
    + set n, t | n in {P, NullConst} && t in Points() :: Null(n, t)
  }

  ghost predicate Accepting(asgn: Assignment) {
    && (forall n :: Responsible(n) in asgn <==> n == P)
    && (forall n :: Mut(n) in asgn <==> n == P)
    && (forall n, t :: Zombie(n, t) !in asgn)
    && (forall n, t :: Good(n, t) in asgn <==> n == P && t in Points() && !t.End? && t.b == 0)
    && (forall n, t :: Null(n, t) in asgn <==> n in {P, NullConst} && t in Points())
  }

  lemma AssignmentAccepts()
    ensures Accepting(UpToBranch())
  {
  }

  lemma FlowsOn(asgn: Assignment, names: set<Name>, t: Point, t': Point)
    requires Accepting(asgn) && names <= {P, NullConst} && t in Points() && t' in Points()
    requires P in names && !t.End? && t.b == 0 ==> !t'.End? && t'.b == 0
    ensures Satisfies(asgn, Preserve(names, t, t'))
  {
    forall n | n in names ensures Carried(asgn, n, t, t') { }
    PreserveMeans(asgn, names, t, t');
  }

  lemma MallocMet(f: Func, asgn: Assignment, bs: Borrows)
    requires Accepting(asgn)
    ensures Satisfies(asgn, InstrClauses(f, {}, bs, Malloc(P), Pre(0, 0), Post(0, 0)))
  {
    var t, names := Post(0, 0), {} + {NullConst} - {P};
    assert t in Points() && Pre(0, 0) in Points();
    ClauseHolds(asgn, {Pos(Responsible(P))}, Pos(Responsible(P)));
    ClauseHolds(asgn, {Pos(Good(P, t))}, Pos(Good(P, t)));
    ClauseHolds(asgn, {Pos(Null(P, t))}, Pos(Null(P, t)));
    ClauseHolds(asgn, {Neg(Zombie(P, t))}, Neg(Zombie(P, t)));
    FlowsOn(asgn, names, Pre(0, 0), t);
    BothMean(asgn, MallocClauses(P, t), Preserve(names, Pre(0, 0), t));
  }

  lemma InstrMet(f: Func, asgn: Assignment, b: nat, i: nat, bs: Borrows)
    requires Shape(f) && Accepting(asgn) && f.At(b, i)
    ensures Satisfies(asgn, InstrClauses(f, LiveAt(b, i), bs, f.blocks[b][i], Pre(b, i), PostOf(f.blocks[b][i], b, i)))
  {
    Places(f, b, i);
    if b == 0 && i == 0 {
      MallocMet(f, asgn, bs);
    } else {
      var pre, post := Pre(b, i), PostOf(f.blocks[b][i], b, i);
      assert pre in Points() && post in Points();
      FlowsOn(asgn, LiveAt(b, i) + {NullConst}, pre, post);
    }
  }

  lemma LastsMayDie(f: Func, a: Analysis, asgn: Assignment, b: nat, i: nat, t: Point)
    requires Given(f, a) && Accepting(asgn) && f.At(b, i) && t == PostOf(f.blocks[b][i], b, i)
    ensures Satisfies(asgn, Killed(LastUse(f, a, b, i), t)) && Satisfies(asgn, Killed(f.args, End))
  {
    Lasts(f, a, b, i);
    forall n | n in LastAt(b, i) ensures MayDie(asgn, n, t) { }
    KilledMeans(asgn, LastAt(b, i), t);
    KilledMeans(asgn, f.args, End);
  }

  lemma VisitMet(f: Func, a: Analysis, asgn: Assignment, b: nat, i: nat)
    requires Given(f, a) && Accepting(asgn) && f.At(b, i)
    ensures Satisfies(asgn, VisitClauses(f, a, b, i))
  {
    Lives(f, a, b, i);
    var inst, post := f.blocks[b][i], PostOf(f.blocks[b][i], b, i);
    var own := InstrClauses(f, LiveAt(b, i), BorrowsAt(f, a, b, i), inst, Pre(b, i), post);
    InstrMet(f, asgn, b, i, BorrowsAt(f, a, b, i));
    LastsMayDie(f, a, asgn, b, i, post);
    BothMean(asgn, own, Killed(LastUse(f, a, b, i), post));
    var atReturn := if inst.Return? || inst.ReturnVoid? then Killed(f.args, End) else {};
    BothMean(asgn, own + Killed(LastUse(f, a, b, i), post), atReturn);
  }

  lemma FlowMet(f: Func, a: Analysis, asgn: Assignment, b: nat, i: nat)
    requires Given(f, a) && Accepting(asgn) && f.At(b, i)
    ensures Satisfies(asgn, FlowTo(f, a, b, i))
  {
    if i > 0 {
      Lives(f, a, b, i);
      Places(f, b, i);
      var prev := f.blocks[b][i - 1];
      var names := CurLive(f, a, b, i) + {NullConst} + SeenAt(f, prev);
      assert PostOf(prev, b, i - 1) == Post(b, i - 1) && Post(b, i - 1) in Points() && Pre(b, i) in Points();
      FlowsOn(asgn, names, Post(b, i - 1), Pre(b, i));
    }
  }

  /** Both edges are taken for the NULL side. */
  lemma EdgeMet(f: Func, a: Analysis, asgn: Assignment, j: nat)
    requires Given(f, a) && Accepting(asgn) && j < 2 && |f.Term(0).Succs()| == 2 && P in a.aliases[0]
    ensures Satisfies(asgn, EdgeClauses(f, a, 0, j))
  {
    Successors(f);
    Lives(f, a, 0, 3);
    assert f.Term(0) == NullBranch(P, true, 1, 1) && |f.blocks[0]| == 3;
    var names, t, t' := {P} + {NullConst}, Post(0, 2), Pre(1, 0);
    assert t in Points() && t' in Points();
    EdgeIs(f, a, 0, j, names, a.aliases[0], true);
    forall n | n in names ensures CarriedAcross(asgn, n, a.aliases[0], true, t, t') { }
    EdgeFlowMeans(asgn, names, a.aliases[0], true, t, t');
  }

  lemma ClausesMet(f: Func, a: Analysis, asgn: Assignment)
    requires Given(f, a) && Accepting(asgn) && P in a.aliases[0]
    ensures Satisfies(asgn, AllClauses(f, a))
  {
    Successors(f);
    forall b: nat | b < |f.blocks|
      ensures BlockIsMet(f, a, asgn, b)
    {
      NobodyDies(f, a, b);
      KilledMeans(asgn, {}, Pre(b, 0));
      forall i: nat | i < |f.blocks[b]|
        ensures InstrIsMet(f, a, asgn, b, i)
      {
        VisitMet(f, a, asgn, b, i);
        FlowMet(f, a, asgn, b, i);
      }
      forall j: nat | j < |f.Term(b).Succs()| ensures EdgeIsMet(f, a, asgn, b, j) { EdgeMet(f, a, asgn, j); }
    }
    assert Pre(0, 0) in Points();
    EntryMeans(asgn);
    MutMeans(asgn, Seen(f));
    AllMet(f, a, asgn);
  }

  // ----- It is accepted -----

  ghost function Accepted(): OwnershipTheorem.Program
    requires LiveFor(SameBlockTwice(), Live())
  {
    OwnershipTheorem.Program(SameBlockTwice(), Settled(SameBlockTwice(), Live(), [P]), Live(), n => n, UpToBranch())
  }

  lemma SettledIsGiven(f: Func, a: Analysis, order: seq<Name>)
    requires f == SameBlockTwice() && LiveFor(f, Live()) && a == Settled(f, Live(), order)
    ensures Given(f, a) && IsSettled(f, a, order) && LeastSolution(f.Flow(), a.liveStart) && P in a.aliases[0]
  {
    HasShape();
    SettledIs(f, Live(), order);
    IsLive(f);
    forall b: nat | b < 2
      ensures LiveOut(f, a, b) == LiveEnd(b)
    {
      assert LiveOut(f, a, b) == Out(f.Flow(), Live(), b);
    }
    assert f.Term(0) == NullBranch(P, true, 1, 1);
    SelfIsAlias(BorrowsAt(f, a, 0, 3), P);
  }

  lemma EveryBlockReached(f: Func)
    requires Shape(f)
    ensures AllReached(f) && Within(f, 2)
  {
    Successors(f);
    var r := Then(Entry, 1);
    assert f.Term(0).Succs()[0] == 1;
    assert Entry.Along(f) && r.Along(f) && r.Descents() == 0;
    forall b: nat | b < 2
      ensures Reachable(f, b) && ReachedBy(f, b, 2)
    {
      var route := if b == 0 then Entry else r;
      assert route.Along(f) && route.End() == b && route.Descents() <= 2;
    }
  }

  lemma UsesAndRoots(f: Func, root: Name -> Name)
    requires Shape(f) && forall n :: root(n) == n
    ensures CopyRoots(f, root) && forall n :: n in UsedNames(f) ==> n in [P]
  {
    forall b: nat, i: nat | f.At(b, i)
      ensures !f.blocks[b][i].VarStore? && f.blocks[b][i].Uses() <= {P}
    {
      Places(f, b, i);
    }
  }

  lemma IsAccepted()
    ensures LiveFor(SameBlockTwice(), Live()) && Checked(Accepted(), Live(), [P]) && !Accepted().DistinctTargets()
    ensures Stable(Accepted().f, Accepted().a)
  {
    HasShape();
    var f := SameBlockTwice();
    IsLive(f);
    var p := Accepted();
    SettledIsGiven(f, p.a, [P]);
    AssignmentAccepts();
    ClausesMet(f, p.a, p.asgn);
    ShapeIsStrict(f);
    EveryBlockReached(f);
    UsesAndRoots(f, p.root);
    CheckedIsReady(p, Live(), [P]);
    WithinIsStable(f, p.a, Live());
    assert f.At(0, 2) && f.blocks[0][2] == NullBranch(P, true, 1, 1);
  }

  // ----- A run of it -----

  function Start(): State { State(Execution.At(0, 0), map[], map[]) }

  function Holding(pc: Pc): State { State(pc, map[P := VPtr(0)], map[0 := Unfreed]) }

  lemma StepsOfIt(f: Func)
    requires Shape(f)
    ensures Step(f, Start(), Holding(Execution.At(0, 1)))
    ensures Step(f, Holding(Execution.At(0, 1)), Holding(Execution.At(0, 2)))
    ensures Step(f, Holding(Execution.At(0, 2)), Holding(Execution.At(1, 0)))
    ensures Step(f, Holding(Execution.At(1, 0)), Holding(Execution.At(1, 1)))
    ensures Step(f, Holding(Execution.At(1, 1)), Holding(Done(NullConst)))
  {
    var s := Holding(Execution.At(0, 1));
    assert MallocEffect(Start(), P, s) by { assert 0 !in Start().heap && s.env == Start().env[P := VPtr(0)]
           && s.heap == Start().heap[0 := Unfreed]; }
  }

  lemma RunOfIt() returns (run: seq<State>)
    ensures Run(SameBlockTwice(), run) && run[0] == Start() && Leak(run[|run| - 1])
  {
    HasShape();
    StepsOfIt(SameBlockTwice());
    var last := Holding(Done(NullConst));
    run := [Start(), Holding(Execution.At(0, 1)), Holding(Execution.At(0, 2)), Holding(Execution.At(1, 0)),
            Holding(Execution.At(1, 1)), last];
    assert 0 in last.heap && last.heap[0] == Unfreed;
    forall k | 0 < k < |run|
      ensures Step(SameBlockTwice(), run[k - 1], run[k])
    {
      assert k == 1 || k == 2 || k == 3 || k == 4 || k == 5;
    }
  }

  lemma StartsIt(p: OwnershipTheorem.Program)
    requires p.f.args == {}
    ensures OwnershipTheorem.EntryState(p, Start(), map[])
  {
  }

  /** Acceptance with a stable last pass is not enough where a null branch has equal targets: this
      function is accepted, has no unused malloc, and leaks whenever malloc succeeds. */
  lemma AcceptedButLeaks() returns (run: seq<State>)
    ensures LiveFor(SameBlockTwice(), Live()) && Checked(Accepted(), Live(), [P]) && !Accepted().DistinctTargets()
    ensures Stable(Accepted().f, Accepted().a) && Accepted().f.HasUses(P)
    ensures Run(Accepted().f, run) && OwnershipTheorem.EntryState(Accepted(), run[0], map[]) && Leak(run[|run| - 1])
  {
    IsAccepted();
    HasShape();
    ShapeIsWellFormed(SameBlockTwice());
    run := RunOfIt();
    StartsIt(Accepted());
  }
}
