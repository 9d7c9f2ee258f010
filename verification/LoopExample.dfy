/** A function with a loop, a null test and a borrow that keeps the discipline:
    while ((q = x) != NULL) { *x; }  The test of q lets x be used because the alias search finds x among
    the borrows of the last pass. */
module LoopExample {
  import opened DataFlow
  import opened PointerIR
  import opened OwnershipClauses
  import opened Execution
  import opened LiveFacts
  import opened OwnershipSoundness
  import opened OwnershipTheorem
  import opened CopyBorrows
  import opened CopySites
  import opened BorrowPasses
  import opened BorrowPaths
  import opened SettledBorrows
  import opened ConstraintGen
  import opened ClauseMeaning
  import opened FunctionMeaning
  import OwnershipLimits

  const X: Name := Local(0)
  const Q: Name := Local(1)

  function Loop(): Func {
    Func({X}, [[Jump(1)], [VarStore(Q, X), ICmp(Q), NullBranch(Q, true, 3, 2)], [Load(X), Jump(1)], [ReturnVoid]])
  }

  ghost predicate Shape(f: Func) {
    && f.args == {X} && |f.blocks| == 4
    && f.blocks[0] == [Jump(1)] && f.blocks[1] == [VarStore(Q, X), ICmp(Q), NullBranch(Q, true, 3, 2)]
    && f.blocks[2] == [Load(X), Jump(1)] && f.blocks[3] == [ReturnVoid]
  }

  lemma HasShape()
    ensures Shape(Loop())
  {
  }

  // ----- Its form -----

  lemma Places(f: Func, b: int, i: int)
    requires Shape(f) && f.At(b, i)
    ensures (b == 0 && i == 0) || (b == 1 && (i == 0 || i == 1 || i == 2)) || (b == 2 && (i == 0 || i == 1))
            || (b == 3 && i == 0)
  {
  }

  lemma ShapeIsWellFormed(f: Func)
    requires Shape(f)
    ensures f.WellFormed() && f.SingleAssignment() && f.HasUses(Q) && f.HasUses(X)
  {
    forall b, i | f.At(b, i)
      ensures f.blocks[b][i].Terminator() <==> i == |f.blocks[b]| - 1
      ensures Ret !in f.blocks[b][i].Operands()
      ensures forall j :: 0 <= j < |f.blocks[b][i].Succs()| ==> f.blocks[b][i].Succs()[j] < |f.blocks|
      ensures f.blocks[b][i].Defs() == if b == 1 && i == 0 then {Q} else {}
    {
      Places(f, b, i);
    }
    assert Q in f.blocks[1][1].Operands() && X in f.blocks[2][0].Operands();
  }

  lemma Before(f: Func)
    requires Shape(f)
    ensures f.DefsBefore(0, 1) == {} && f.DefsBefore(1, 0) == {} && f.DefsBefore(1, 1) == {Q}
            && f.DefsBefore(1, 2) == {Q}
    ensures f.DefsBefore(1, 3) == {Q} && f.DefsBefore(2, 0) == {} && f.DefsBefore(2, 2) == {}
            && f.DefsBefore(3, 1) == {}
    ensures f.GenBefore(0, 1) == {} && f.GenBefore(1, 3) == {X} && f.GenBefore(2, 2) == {X} && f.GenBefore(3, 1) == {X}
  {
    assert f.DefsBefore(0, 0) == {} && f.DefsBefore(1, 0) == {} && f.DefsBefore(2, 0) == {} && f.DefsBefore(3, 0) == {};
    assert f.DefsBefore(1, 1) == {Q} && f.DefsBefore(1, 2) == {Q} && f.DefsBefore(2, 1) == {};
    assert f.GenBefore(0, 0) == {} && f.GenBefore(1, 0) == {} && f.GenBefore(2, 0) == {} && f.GenBefore(3, 0) == {};
    assert f.GenBefore(1, 1) == {X} && f.GenBefore(1, 2) == {X} && f.GenBefore(2, 1) == {X};
  }

  function LiveX(): seq<set<Name>> { [{X}, {X}, {X}, {X}] }

  lemma Successors(f: Func)
    requires Shape(f)
    ensures f.Term(0).Succs() == [1] && f.Term(1).Succs() == [3, 2] && f.Term(2).Succs() == [1]
            && f.Term(3).Succs() == []
  {
  }

  lemma UsesDominated(f: Func, b: nat, i: nat)
    requires Shape(f) && f.At(b, i)
    ensures f.blocks[b][i].Uses() + (if f.blocks[b][i].NullBranch? then {f.blocks[b][i].ptr} - {NullConst} else {})
              <= LiveX()[b] + f.DefsBefore(b, i)
  {
    Places(f, b, i);
    Before(f);
  }

  lemma EdgesDominated(f: Func, b: nat, j: nat)
    requires Shape(f) && b < 4 && j < |f.Term(b).Succs()|
    ensures f.Term(b).Succs()[j] < 4 && LiveX()[f.Term(b).Succs()[j]] <= LiveX()[b] + f.DefsBefore(b, |f.blocks[b]|)
  {
    Successors(f);
    assert b == 0 || b == 1 || b == 2 || b == 3;
  }

  lemma AllUsesDominated(f: Func)
    requires Shape(f)
    ensures forall b, i :: f.At(b, i) ==>
              f.blocks[b][i].Uses() + (if f.blocks[b][i].NullBranch? then {f.blocks[b][i].ptr} - {NullConst} else {})
                <= LiveX()[b] + f.DefsBefore(b, i)
  {
    forall b: nat, i: nat | f.At(b, i)
      ensures f.blocks[b][i].Uses() + (if f.blocks[b][i].NullBranch? then {f.blocks[b][i].ptr} - {NullConst} else {})
                <= LiveX()[b] + f.DefsBefore(b, i)
    {
      UsesDominated(f, b, i);
    }
  }

  lemma AllEdgesDominated(f: Func)
    requires Shape(f)
    ensures forall b, j :: 0 <= b < 4 && 0 <= j < |f.Term(b).Succs()| ==>
              f.Term(b).Succs()[j] < 4 && LiveX()[f.Term(b).Succs()[j]] <= LiveX()[b] + f.DefsBefore(b, |f.blocks[b]|)
  {
    forall b: nat, j: nat | b < 4 && j < |f.Term(b).Succs()|
      ensures f.Term(b).Succs()[j] < 4 && LiveX()[f.Term(b).Succs()[j]] <= LiveX()[b] + f.DefsBefore(b, |f.blocks[b]|)
    {
      EdgesDominated(f, b, j);
    }
  }

  lemma StrictByParts(f: Func, dom: seq<set<Name>>)
    requires f.WellFormed() && f.SingleAssignment() && |f.blocks| == 4 && f.args == {X} && dom == LiveX()
    requires forall b, i :: f.At(b, i) ==>
               f.blocks[b][i].Uses() + (if f.blocks[b][i].NullBranch? then {f.blocks[b][i].ptr} - {NullConst} else {})
                 <= dom[b] + f.DefsBefore(b, i)
    requires forall b, j :: 0 <= b < 4 && 0 <= j < |f.Term(b).Succs()| ==>
               f.Term(b).Succs()[j] < 4 && dom[f.Term(b).Succs()[j]] <= dom[b] + f.DefsBefore(b, |f.blocks[b]|)
    ensures f.StrictSSA(dom)
  {
  }

  lemma ShapeIsStrict(f: Func)
    requires Shape(f)
    ensures f.WellFormed() && f.StrictSSA(LiveX())
  {
    ShapeIsWellFormed(f);
    AllUsesDominated(f);
    AllEdgesDominated(f);
    StrictByParts(f, LiveX());
  }

  function LoopFlow(): Flow<Name> { Flow.Flow([[1], [3, 2], [1], []], [{}, {X}, {X}, {X}], [{}, {Q}, {}, {}]) }

  lemma FlowIs(f: Func)
    requires Shape(f)
    ensures f.Flow() == LoopFlow() && f.Flow().Valid()
  {
    Successors(f);
    Before(f);
    var fl := f.Flow();
    assert fl.succ == [[1], [3, 2], [1], []];
    assert fl.gen == [{}, {X}, {X}, {X}];
    assert fl.kill == [{}, {Q}, {}, {}];
  }

  lemma LeastIs(fl: Flow<Name>, other: seq<set<Name>>)
    requires fl.Valid() && fl == LoopFlow() && Closed(fl, other)
    ensures Below(LiveX(), other)
  {
    assert In(fl, other, 1) <= other[1] && In(fl, other, 2) <= other[2] && In(fl, other, 3) <= other[3];
    assert X in other[1] && X in other[2] && X in other[3];
    assert fl.succ[0][0] == 1;
    assert X in Out(fl, other, 0) && In(fl, other, 0) <= other[0];
  }

  lemma ShapeFlow(f: Func)
    requires Shape(f)
    ensures LiveFor(f, LiveX()) && LeastSolution(f.Flow(), LiveX())
    ensures forall b :: 0 <= b < 4 ==> Out(f.Flow(), LiveX(), b) == if b == 3 then {} else {X}
  {
    FlowIs(f);
    OutIs(f.Flow());
    forall other | Closed(f.Flow(), other) ensures Below(LiveX(), other) { LeastIs(f.Flow(), other); }
  }

  lemma OutIs(fl: Flow<Name>)
    requires fl.Valid() && fl.succ == [[1], [3, 2], [1], []] && fl.gen == [{}, {X}, {X}, {X}]
             && fl.kill == [{}, {Q}, {}, {}]
    ensures forall b :: 0 <= b < 4 ==> Out(fl, LiveX(), b) == if b == 3 then {} else {X}
    ensures Solution(fl, LiveX())
  {
    assert fl.succ[0][0] == 1 && fl.succ[1][0] == 3 && fl.succ[2][0] == 1 && |fl.succ[3]| == 0;
    forall b | 0 <= b < 4
      ensures Out(fl, LiveX(), b) == if b == 3 then {} else {X}
    {
      assert b == 0 || b == 1 || b == 2 || b == 3;
      if b != 3 { assert X in LiveX()[fl.succ[b][0]]; }
    }
  }

  // ----- What is live -----

  /** The analysis starts every block with x live. */
  ghost predicate Given(f: Func, a: Analysis) {
    && Shape(f) && a.Sized(f) && a.liveStart == LiveX()
    && (forall b {:trigger LiveOut(f, a, b)} :: 0 <= b < 4 ==> LiveOut(f, a, b) == if b == 3 then {} else {X})
  }

  lemma Scans(f: Func, a: Analysis)
    requires Given(f, a)
    ensures Scan(f, a, 0, 1) == {X} && Scan(f, a, 1, 1) == {X, Q} && Scan(f, a, 1, 2) == {X} && Scan(f, a, 1, 3) == {X}
    ensures Scan(f, a, 2, 1) == {X} && Scan(f, a, 2, 2) == {X} && Scan(f, a, 3, 1) == {}
  {
    assert Scan(f, a, 1, 3) == {X} && Scan(f, a, 2, 2) == {X};
    assert Scan(f, a, 1, 2) == {X} && Scan(f, a, 2, 1) == {X};
  }

  lemma Lasts(f: Func, a: Analysis)
    requires Given(f, a)
    ensures forall b: nat, i: nat {:trigger LastUse(f, a, b, i)} :: f.At(b, i) ==>
              LastUse(f, a, b, i) == if b == 1 && i == 1 then {Q} else {}
  {
    Scans(f, a);
    forall b: nat, i: nat | f.At(b, i)
      ensures LastUse(f, a, b, i) == if b == 1 && i == 1 then {Q} else {}
    {
      Places(f, b, i);
    }
  }

  function LiveAt(b: nat, i: nat): set<Name> { if b == 1 && i == 1 then {X, Q} else {X} }

  lemma UsedDefsAt(f: Func, b: nat, i: nat)
    requires Shape(f) && f.At(b, i)
    ensures (set d | d in f.blocks[b][i].Defs() && f.HasUses(d)) == if b == 1 && i == 0 then {Q} else {}
  {
    ShapeIsWellFormed(f);
    Places(f, b, i);
  }

  lemma LiveNext(f: Func, a: Analysis, b: nat, i: nat)
    requires Given(f, a) && f.At(b, i) && CurLive(f, a, b, i) == LiveAt(b, i)
    ensures CurLive(f, a, b, i + 1) == LiveAt(b, i + 1)
  {
    UsedDefsAt(f, b, i);
    Lasts(f, a);
    var last, used := LastUse(f, a, b, i), set d | d in f.blocks[b][i].Defs() && f.HasUses(d);
    assert CurLive(f, a, b, i + 1) == LiveAt(b, i) - last + used;
  }

  lemma {:induction false} Lives(f: Func, a: Analysis, b: nat, i: nat)
    requires Given(f, a) && b < 4 && i <= |f.blocks[b]|
    ensures CurLive(f, a, b, i) == LiveAt(b, i)
    decreases i
  {
    if i > 0 {
      Lives(f, a, b, i - 1);
      LiveNext(f, a, b, i - 1);
    }
  }

  lemma NobodyDies(f: Func, a: Analysis, b: nat)
    requires Given(f, a) && b < 4
    ensures DeadAtStart(f, a, b) == {}
  {
    forall p | 0 <= p < 4 ensures a.liveStart[p] + LiveOut(f, a, p) <= {X} { }
  }

  lemma NothingDead(f: Func, a: Analysis)
    requires Given(f, a)
    ensures UsedAreLive(f, a)
  {
    Scans(f, a);
    forall b: nat, i: nat | f.At(b, i) ensures UsedOnceDefined(f, a, b, i) { Places(f, b, i); }
  }

  // ----- What is borrowed at the test -----

  lemma Reached(f: Func)
    requires Shape(f)
    ensures Within(f, 2) && AllReached(f)
  {
    Successors(f);
    var r1 := Then(Entry, 1);
    var r2, r3 := Then(r1, 2), Then(r1, 3);
    assert f.Term(0).Succs()[0] == 1 && f.Term(1).Succs()[0] == 3 && f.Term(1).Succs()[1] == 2;
    assert Entry.Along(f) && r1.Along(f) && r2.Along(f) && r3.Along(f);
    assert r1.Descents() == 0 && r2.Descents() == 0 && r3.Descents() == 0;
    forall b: nat | b < 4
      ensures ReachedBy(f, b, 2) && Reachable(f, b)
    {
      var route := if b == 0 then Entry else if b == 1 then r1 else if b == 2 then r2 else r3;
      assert route.Along(f) && route.End() == b && route.Descents() <= 2;
    }
  }

  lemma QBorrows(f: Func, a: Analysis)
    requires Given(f, a)
    ensures IsCopyPair(f, Kept(f, a, 1, 3), (X, Q))
  {
    ShapeIsWellFormed(f);
    Lasts(f, a);
    Lives(f, a, 1, 3);
    assert Pending(f, a, 1, 3) == {Q};
    assert CopySite(f, 1, 0, Q, X);
    ViaStep(f, Kept(f, a, 1, 3), X, Q);
  }

  /** The last pass finds x among the aliases of q. */
  lemma TestFindsBoth(f: Func, a: Analysis, dom: seq<set<Name>>, order: seq<Name>)
    requires Given(f, a) && BorrowPasses.Ready(f, a, dom) && IsSettled(f, a, order)
    ensures X in a.aliases[1] && Q in a.aliases[1]
  {
    Reached(f);
    WithinIsStable(f, a, dom);
    StartsExactIffStable(f, a, dom, order);
    BorrowsAreExact(f, a, dom, 1, 3);
    QBorrows(f, a);
    LenderIsAlias(BorrowsAt(f, a, 1, 3), Q, X);
    assert f.Term(1) == NullBranch(Q, true, 3, 2);
  }

  // ----- An assignment -----

  function Points(): set<Point> {
    {End} + (set b, i | 0 <= b < 4 && 0 <= i < 3 :: Pre(b, i)) + set b, i | 0 <= b < 4 && 0 <= i < 3 :: Post(b, i)
  }

  /** In the body of the loop x is not NULL. */
  predicate InBody(t: Point) { !t.End? && t.b == 2 }

  predicate MayBeNull(n: Name, t: Point) { n in {X, Q, NullConst} && !(n == X && InBody(t)) }

  /** Nothing is responsible or mutable; x and q are good everywhere, and NULL too except in the body. */
  function LoopAssignment(): Assignment {
    (set n, t | n in {X, Q} && t in Points() :: Good(n, t))
    + set n, t | n in {X, Q, NullConst} && t in Points() && MayBeNull(n, t) :: Null(n, t)
  }

  ghost predicate Calm(asgn: Assignment) {
    && (forall n :: Responsible(n) !in asgn && Mut(n) !in asgn)
    && (forall n, t :: Zombie(n, t) !in asgn)
    && (forall n, t :: Good(n, t) in asgn <==> n in {X, Q} && t in Points())
    && (forall n, t :: Null(n, t) in asgn <==> MayBeNull(n, t) && t in Points())
  }

  lemma AssignmentIsCalm()
    ensures Calm(LoopAssignment())
  {
  }

  lemma CarriesOver(asgn: Assignment, names: set<Name>, t: Point, t': Point)
    requires Calm(asgn) && names <= {X, Q, NullConst} && t in Points() && t' in Points()
    requires X in names && InBody(t') ==> InBody(t)
    ensures Satisfies(asgn, Preserve(names, t, t'))
  {
    forall n | n in names ensures Carried(asgn, n, t, t') { }
    PreserveMeans(asgn, names, t, t');
  }

  lemma NegsHold(asgn: Assignment, cs: set<Clause>)
    requires Calm(asgn) && forall c :: c in cs ==> exists n :: Neg(Mut(n)) in c || Neg(Responsible(n)) in c
    ensures Satisfies(asgn, cs)
  {
    forall c | c in cs
      ensures SatisfiesClause(asgn, c)
    {
      var n :| Neg(Mut(n)) in c || Neg(Responsible(n)) in c;
      if Neg(Mut(n)) in c { ClauseHolds(asgn, c, Neg(Mut(n))); } else { ClauseHolds(asgn, c, Neg(Responsible(n))); }
    }
  }

  lemma KilledHolds(asgn: Assignment, names: set<Name>, t: Point)
    requires Calm(asgn)
    ensures Satisfies(asgn, Killed(names, t))
  {
    forall n | n in names ensures MayDie(asgn, n, t) { }
    KilledMeans(asgn, names, t);
  }

  lemma CopyHolds(asgn: Assignment, bs: Borrows, pre: Point, post: Point)
    requires Calm(asgn) && pre in Points() && post in Points() && !InBody(pre) && !InBody(post)
    ensures Satisfies(asgn, PtrCopyClauses(bs, Q, X, pre, post))
  {
    forall c | c in PtrCopyClauses(bs, Q, X, pre, post)
      ensures SatisfiesClause(asgn, c)
    {
      ImpliesMeans(asgn, Responsible(Q), Responsible(X));
      ImpliesMeans(asgn, Mut(Q), Mut(X));
      ClauseHolds(asgn, {Pos(Responsible(Q)), Neg(Zombie(X, pre))}, Neg(Zombie(X, pre)));
      ClauseHolds(asgn, {Neg(Responsible(Q)), Neg(Good(X, pre)), Pos(Zombie(X, post))}, Neg(Responsible(Q)));
      ClauseHolds(asgn, {Pos(Responsible(Q)), Neg(Good(X, pre)), Pos(Good(X, post))}, Pos(Good(X, post)));
      ImpliesMeans(asgn, Null(X, pre), Null(X, post));
      ImpliesMeans(asgn, Zombie(X, pre), Zombie(X, post));
      ImpliesMeans(asgn, Good(X, pre), Good(Q, post));
      ImpliesMeans(asgn, Null(X, pre), Null(Q, post));
      ImpliesMeans(asgn, Zombie(X, pre), Zombie(Q, post));
      if c in BorrowClauses(bs, X, Q) { ClauseHolds(asgn, c, Neg(Mut(Q))); }
    }
  }

  lemma DerefHolds(asgn: Assignment, bs: Borrows)
    requires Calm(asgn)
    ensures Satisfies(asgn, DerefClauses(X, Pre(2, 0)) + set e | e in bs && e.0 == X :: {Neg(Mut(e.1))})
  {
    ClauseHolds(asgn, {Neg(Null(X, Pre(2, 0)))}, Neg(Null(X, Pre(2, 0))));
    ClauseHolds(asgn, {Neg(Zombie(X, Pre(2, 0)))}, Neg(Zombie(X, Pre(2, 0))));
    assert Pre(2, 0) in Points();
    ClauseHolds(asgn, {Pos(Good(X, Pre(2, 0)))}, Pos(Good(X, Pre(2, 0))));
    NegsHold(asgn, set e | e in bs && e.0 == X :: {Neg(Mut(e.1))});
  }

  lemma CopyInstrHolds(f: Func, asgn: Assignment, bs: Borrows)
    requires f.HasUses(Q) && Calm(asgn)
    ensures Satisfies(asgn, InstrClauses(f, {X}, bs, VarStore(Q, X), Pre(1, 0), Post(1, 0)))
  {
    var names := {X} + {NullConst};
    assert Pre(1, 0) in Points() && Post(1, 0) in Points();
    CopyHolds(asgn, bs, Pre(1, 0), Post(1, 0));
    CarriesOver(asgn, names - {Q, X}, Pre(1, 0), Post(1, 0));
    BothMean(asgn, PtrCopyClauses(bs, Q, X, Pre(1, 0), Post(1, 0)), Preserve(names - {Q, X}, Pre(1, 0), Post(1, 0)));
  }

  lemma LoadInstrHolds(f: Func, asgn: Assignment, bs: Borrows)
    requires Calm(asgn)
    ensures Satisfies(asgn, InstrClauses(f, {X}, bs, Load(X), Pre(2, 0), Post(2, 0)))
  {
    assert Pre(2, 0) in Points() && Post(2, 0) in Points();
    DerefHolds(asgn, bs);
    CarriesOver(asgn, {X} + {NullConst}, Pre(2, 0), Post(2, 0));
    BothMean(asgn, DerefClauses(X, Pre(2, 0)) + (set e | e in bs && e.0 == X :: {Neg(Mut(e.1))}),
         Preserve({X} + {NullConst}, Pre(2, 0), Post(2, 0)));
  }

  lemma PlainHolds(f: Func, asgn: Assignment, live: set<Name>, bs: Borrows, inst: Instr, pre: Point, post: Point)
    requires inst.Jump? || inst.ICmp? || inst.NullBranch? || inst.ReturnVoid?
    requires Calm(asgn) && live <= {X, Q} && pre in Points() && post in Points() && (InBody(post) ==> InBody(pre))
    ensures Satisfies(asgn, InstrClauses(f, live, bs, inst, pre, post))
  {
    CarriesOver(asgn, live + {NullConst}, pre, post);
    assert InstrClauses(f, live, bs, inst, pre, post) == Preserve(live + {NullConst}, pre, post);
  }

  lemma InstrHolds(f: Func, asgn: Assignment, b: nat, i: nat, bs: Borrows)
    requires Shape(f) && f.HasUses(Q) && Calm(asgn) && f.At(b, i)
    ensures Satisfies(asgn, InstrClauses(f, LiveAt(b, i), bs, f.blocks[b][i], Pre(b, i), PostOf(f.blocks[b][i], b, i)))
  {
    Places(f, b, i);
    if b == 1 && i == 0 {
      CopyInstrHolds(f, asgn, bs);
    } else if b == 2 && i == 0 {
      LoadInstrHolds(f, asgn, bs);
    } else {
      var pre, post := Pre(b, i), PostOf(f.blocks[b][i], b, i);
      assert pre in Points() && post in Points();
      PlainHolds(f, asgn, LiveAt(b, i), bs, f.blocks[b][i], pre, post);
    }
  }

  lemma VisitHolds(f: Func, a: Analysis, asgn: Assignment, b: nat, i: nat)
    requires Given(f, a) && Calm(asgn) && f.At(b, i)
    ensures Satisfies(asgn, VisitClauses(f, a, b, i))
  {
    ShapeIsWellFormed(f);
    Lives(f, a, b, i);
    var inst, post := f.blocks[b][i], PostOf(f.blocks[b][i], b, i);
    var own := InstrClauses(f, LiveAt(b, i), BorrowsAt(f, a, b, i), inst, Pre(b, i), post);
    InstrHolds(f, asgn, b, i, BorrowsAt(f, a, b, i));
    KilledHolds(asgn, LastUse(f, a, b, i), post);
    KilledHolds(asgn, f.args, End);
    BothMean(asgn, own, Killed(LastUse(f, a, b, i), post));
    var atReturn := if inst.Return? || inst.ReturnVoid? then Killed(f.args, End) else {};
    BothMean(asgn, own + Killed(LastUse(f, a, b, i), post), atReturn);
  }

  lemma FlowHolds(f: Func, a: Analysis, asgn: Assignment, b: nat, i: nat)
    requires Given(f, a) && Calm(asgn) && f.At(b, i)
    ensures Satisfies(asgn, FlowTo(f, a, b, i))
  {
    if i > 0 {
      Lives(f, a, b, i);
      SeenBeforeIs(f, b, i);
      assert Post(b, i - 1) in Points() && Pre(b, i) in Points();
      CarriesOver(asgn, CurLive(f, a, b, i) + {NullConst} + SeenAt(f, f.blocks[b][i - 1]), Post(b, i - 1), Pre(b, i));
    }
  }

  lemma SeenBeforeIs(f: Func, b: nat, i: nat)
    requires Shape(f) && f.At(b, i) && i > 0
    ensures SeenAt(f, f.blocks[b][i - 1]) <= {Q} && PostOf(f.blocks[b][i - 1], b, i - 1) == Post(b, i - 1)
    ensures b < 4 && i < 3
  {
    Places(f, b, i);
  }

  /** Along an edge, with x among the tested names if it enters the body. */
  lemma CrossingHolds(asgn: Assignment, names: set<Name>, tested: set<Name>, isNull: bool, t: Point, t': Point)
    requires Calm(asgn) && names == {X, NullConst} && t in Points() && t' in Points()
    requires InBody(t') ==> X in tested && !isNull
    ensures Satisfies(asgn, EdgeFlow(names, tested, isNull, t, t'))
  {
    forall n | n in names ensures CarriedAcross(asgn, n, tested, isNull, t, t') { }
    EdgeFlowMeans(asgn, names, tested, isNull, t, t');
  }

  /** Only the edge from the test to the body enters it. */
  lemma EnteringIsTested(f: Func, a: Analysis, b: nat, j: nat, tested: set<Name>, isNull: bool)
    requires Given(f, a) && b < 4 && j < |f.Term(b).Succs()| && X in a.aliases[1]
    requires tested == if f.Term(b).NullBranch? then a.aliases[b] else {}
    requires isNull == (f.Term(b).NullBranch? && f.Term(b).eq == (f.Term(b).Succs()[j] == f.Term(b).onTrue))
    ensures InBody(Pre(f.Term(b).Succs()[j], 0)) ==> X in tested && !isNull
    ensures Post(b, |f.blocks[b]| - 1) in Points() && Pre(f.Term(b).Succs()[j], 0) in Points()
  {
    Successors(f);
    assert b == 0 || b == 1 || b == 2;
    assert f.Term(1) == NullBranch(Q, true, 3, 2);
  }

  lemma EdgeHolds(f: Func, a: Analysis, asgn: Assignment, b: nat, j: nat)
    requires Given(f, a) && Calm(asgn) && b < 4 && j < |f.Term(b).Succs()| && X in a.aliases[1]
    ensures Satisfies(asgn, EdgeClauses(f, a, b, j))
  {
    Lives(f, a, b, |f.blocks[b]|);
    var names := CurLive(f, a, b, |f.blocks[b]|) + {NullConst};
    var tested := if f.Term(b).NullBranch? then a.aliases[b] else {};
    var isNull := f.Term(b).NullBranch? && f.Term(b).eq == (f.Term(b).Succs()[j] == f.Term(b).onTrue);
    EnteringIsTested(f, a, b, j, tested, isNull);
    EdgeIs(f, a, b, j, names, tested, isNull);
    EndIsLive(f, b);
    CrossingHolds(asgn, names, tested, isNull, Post(b, |f.blocks[b]| - 1), Pre(f.Term(b).Succs()[j], 0));
  }

  lemma EndIsLive(f: Func, b: nat)
    requires Shape(f) && b < 4
    ensures LiveAt(b, |f.blocks[b]|) + {NullConst} == {X, NullConst}
  {
  }

  lemma ClausesHold(f: Func, a: Analysis, asgn: Assignment)
    requires Given(f, a) && Calm(asgn) && X in a.aliases[1]
    ensures Satisfies(asgn, AllClauses(f, a))
  {
    forall b: nat | b < |f.blocks|
      ensures BlockIsMet(f, a, asgn, b)
    {
      KilledHolds(asgn, DeadAtStart(f, a, b), Pre(b, 0));
      forall i: nat | i < |f.blocks[b]|
        ensures InstrIsMet(f, a, asgn, b, i)
      {
        VisitHolds(f, a, asgn, b, i);
        FlowHolds(f, a, asgn, b, i);
      }
      forall j: nat | j < |f.Term(b).Succs()| ensures EdgeIsMet(f, a, asgn, b, j) { EdgeHolds(f, a, asgn, b, j); }
    }
    assert Pre(0, 0) in Points();
    EntryMeans(asgn);
    MutMeans(asgn, Seen(f));
    AllMet(f, a, asgn);
  }

  // ----- The premises are met -----

  ghost function LoopProgram(): Program
    requires LiveFor(Loop(), LiveX())
  {
    Program(Loop(), Settled(Loop(), LiveX(), [X, Q]), LiveX(), n => if n == Q then X else n, LoopAssignment())
  }

  lemma SettledIsGiven(f: Func, a: Analysis, order: seq<Name>)
    requires f == Loop() && LiveFor(f, LiveX()) && a == Settled(f, LiveX(), order)
    ensures Given(f, a) && IsSettled(f, a, order) && LeastSolution(f.Flow(), a.liveStart)
  {
    HasShape();
    SettledIs(f, LiveX(), order);
    ShapeFlow(f);
    forall b | 0 <= b < 4
      ensures LiveOut(f, a, b) == if b == 3 then {} else {X}
    {
      assert LiveOut(f, a, b) == Out(f.Flow(), LiveX(), b);
    }
  }

  lemma SettledIsReady(f: Func, a: Analysis, order: seq<Name>)
    requires Given(f, a) && IsSettled(f, a, order) && LeastSolution(f.Flow(), a.liveStart)
    ensures BorrowPasses.Ready(f, a, LiveX())
  {
    ShapeIsStrict(f);
    NothingDead(f, a);
    Reached(f);
    forall b | 0 <= b < 4 ensures DeadAtStart(f, a, b) == {} { NobodyDies(f, a, b); }
    assert forall b: nat :: b < |f.blocks| ==> Reachable(f, b);
  }

  lemma UsesListed(f: Func)
    requires Shape(f)
    ensures forall n :: n in UsedNames(f) ==> n in [X, Q]
  {
    forall n | n in UsedNames(f)
      ensures n in [X, Q]
    {
      if n !in f.args {
        var b, i :| 0 <= b < |f.blocks| && 0 <= i < |f.blocks[b]| && n in f.blocks[b][i].Uses();
        Places(f, b, i);
      }
    }
  }

  lemma RootsAndTargets(p: Program)
    requires Shape(p.f) && forall n :: p.root(n) == if n == Q then X else n
    ensures CopyRoots(p.f, p.root) && p.DistinctTargets()
  {
    forall b, i | p.f.At(b, i)
      ensures !p.f.blocks[b][i].Malloc? && (p.f.blocks[b][i].VarStore? ==> p.f.blocks[b][i] == VarStore(Q, X))
      ensures p.f.blocks[b][i].NullBranch? ==> p.f.blocks[b][i] == NullBranch(Q, true, 3, 2)
    {
      Places(p.f, b, i);
    }
  }

  lemma LoopIsChecked()
    ensures LiveFor(Loop(), LiveX()) && Checked(LoopProgram(), LiveX(), [X, Q]) && LoopProgram().DistinctTargets()
    ensures Within(Loop(), 2)
  {
    HasShape();
    var f := Loop();
    ShapeFlow(f);
    var p := LoopProgram();
    SettledIsGiven(f, p.a, [X, Q]);
    SettledIsReady(f, p.a, [X, Q]);
    TestFindsBoth(f, p.a, LiveX(), [X, Q]);
    AssignmentIsCalm();
    ClausesHold(f, p.a, p.asgn);
    Reached(f);
    UsesListed(f);
    RootsAndTargets(p);
  }

  function Start(): State { State(At(0, 0), map[X := VPtr(0)], map[0 := Foreign]) }

  function Inside(b: nat, i: nat): State { State(At(b, i), map[X := VPtr(0), Q := VPtr(0)], map[0 := Foreign]) }

  lemma EnterSteps(f: Func)
    requires Shape(f)
    ensures Step(f, Start(), Start().(pc := At(1, 0))) && Step(f, Start().(pc := At(1, 0)), Inside(1, 1))
  {
    assert Inside(1, 1).env == Start().env[Q := Val(Start(), X)];
  }

  lemma RoundSteps(f: Func)
    requires Shape(f)
    ensures Step(f, Inside(1, 1), Inside(1, 2)) && Step(f, Inside(1, 2), Inside(2, 0))
    ensures Step(f, Inside(2, 0), Inside(2, 1)) && Step(f, Inside(2, 1), Inside(1, 0))
  {
    assert f.blocks[1][2] == NullBranch(Q, true, 3, 2) && Val(Inside(1, 2), Q) == VPtr(0);
  }

  /** A run that finds x not NULL, reads through it, and comes back to the test. */
  lemma LoopRuns() returns (run: seq<State>, g: Ghosts)
    requires LiveFor(Loop(), LiveX())
    ensures Run(Loop(), run) && |run| == 7 && run[4].pc == At(2, 0) && run[6].pc == At(1, 0)
    ensures EntryState(LoopProgram(), run[0], g) && OwnershipLimits.Allocated(run[0])
  {
    HasShape();
    EnterSteps(Loop());
    RoundSteps(Loop());
    run := [Start(), Start().(pc := At(1, 0)), Inside(1, 1), Inside(1, 2), Inside(2, 0), Inside(2, 1), Inside(1, 0)];
    g := map[X := SGood];
    forall k | 0 < k < |run|
      ensures Step(Loop(), run[k - 1], run[k])
    {
      assert k == 1 || k == 2 || k == 3 || k == 4 || k == 5 || k == 6;
    }
    EntryIsMet(LoopProgram(), Start(), g);
  }

  lemma EntryIsMet(p: Program, s: State, g: Ghosts)
    requires p.f.args == {X} && p.asgn == LoopAssignment()
    requires s == State(At(0, 0), map[X := VPtr(0)], map[0 := Foreign]) && g == map[X := SGood]
    ensures EntryState(p, s, g)
  {
    AssignmentIsCalm();
    assert Pre(0, 0) in Points();
  }

  lemma NoMalloc(f: Func)
    requires Shape(f)
    ensures forall b, i :: f.At(b, i) && f.blocks[b][i].Malloc? ==> f.HasUses(f.blocks[b][i].dest)
  {
    forall b, i | f.At(b, i) ensures !f.blocks[b][i].Malloc? { Places(f, b, i); }
  }

  /** The theorems about what the generator computes speak of this function and this run. */
  lemma LoopIsSafe() returns (run: seq<State>)
    ensures Run(Loop(), run) && |run| == 7 && run[4].pc == At(2, 0) && run[6].pc == At(1, 0)
    ensures forall k :: 0 <= k < |run| ==> !MemoryError(Loop(), run[k]) && !Leak(run[k])
  {
    LoopIsChecked();
    HasShape();
    NoMalloc(Loop());
    var p := LoopProgram();
    var g;
    run, g := LoopRuns();
    CheckedIsReady(p, LiveX(), [X, Q]);
    WithinIsStable(p.f, p.a, p.dom);
    forall k | 0 <= k < |run|
      ensures !MemoryError(Loop(), run[k]) && !Leak(run[k])
    {
      CheckedRunsAreSafe(p, LiveX(), [X, Q], run, g, k);
      CheckedRunsLoseNothing(p, LiveX(), [X, Q], run, g, k);
    }
  }
}
