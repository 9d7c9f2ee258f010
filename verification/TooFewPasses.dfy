/** A layout for which two dry runs are too few.  Three steps backwards lead from the entry to the block
    that frees a value while a copy of it is still in use; the last pass does not know of the borrow,
    all clauses can be satisfied, and a run reads freed memory. */
module TooFewPasses {
  import opened DataFlow
  import opened PointerIR
  import opened OwnershipClauses
  import opened Execution
  import opened LiveFacts
  import opened OwnershipSoundness
  import opened OwnershipTheorem
  import opened CopyBorrows
  import opened CopySites
  import opened BorrowPasses
  import opened BorrowPaths
  import opened SettledBorrows
  import opened ConstraintGen
  import opened ClauseMeaning
  import opened FunctionMeaning
  import OwnershipLimits

  const P: Name := Local(0)
  const Q: Name := Local(1)

  /** p = malloc(n); q = p; if (q == NULL) return; then, by way of blocks 4, 3 and 2, free(p); *q; return. */
  function LaidOutBackwards(): Func {
    Func({}, [[Malloc(P), VarStore(Q, P), ICmp(Q), NullBranch(Q, true, 5, 4)],
              [Free(P, false), Load(Q), ReturnVoid], [Jump(1)], [Jump(2)], [Jump(3)], [ReturnVoid]])
  }

  ghost predicate Shape(f: Func) {
    && f.args == {} && |f.blocks| == 6
    && f.blocks[0] == [Malloc(P), VarStore(Q, P), ICmp(Q), NullBranch(Q, true, 5, 4)]
    && f.blocks[1] == [Free(P, false), Load(Q), ReturnVoid]
    && f.blocks[2] == [Jump(1)] && f.blocks[3] == [Jump(2)] && f.blocks[4] == [Jump(3)] && f.blocks[5] == [ReturnVoid]
  }

  lemma HasShape()
    ensures Shape(LaidOutBackwards())
  {
  }

  // ----- Its form -----

  lemma Places(f: Func, b: int, i: int)
    requires Shape(f) && f.At(b, i)
    ensures (b == 0 && (i == 0 || i == 1 || i == 2 || i == 3)) || (b == 1 && (i == 0 || i == 1 || i == 2))
            || (2 <= b <= 5 && i == 0)
  {
    if b != 0 && b != 1 { assert b == 2 || b == 3 || b == 4 || b == 5; }
  }

  lemma Single(f: Func, b: nat)
    requires Shape(f) && 2 <= b <= 5
    ensures |f.blocks[b]| == 1 && f.blocks[b][0] == if b == 5 then ReturnVoid else Jump(b - 1)
  {
    assert b == 2 || b == 3 || b == 4 || b == 5;
  }

  lemma InstrForm(f: Func, b: nat, i: nat)
    requires Shape(f) && f.At(b, i)
    ensures f.blocks[b][i].Terminator() <==> i == |f.blocks[b]| - 1
    ensures Ret !in f.blocks[b][i].Operands()
    ensures forall j :: 0 <= j < |f.blocks[b][i].Succs()| ==> f.blocks[b][i].Succs()[j] < |f.blocks|
    ensures f.blocks[b][i].Defs() == if b == 0 && i == 0 then {P} else if b == 0 && i == 1 then {Q} else {}
  {
    Places(f, b, i);
    if b >= 2 { Single(f, b); }
  }

  lemma ShapeIsWellFormed(f: Func)
    requires Shape(f)
    ensures f.WellFormed() && f.SingleAssignment() && f.HasUses(P) && f.HasUses(Q)
  {
    forall b: nat | b < 6 ensures |f.blocks[b]| > 0 { if b >= 2 { Single(f, b); } }
    forall b: nat, i: nat | f.At(b, i)
      ensures f.blocks[b][i].Terminator() <==> i == |f.blocks[b]| - 1
      ensures Ret !in f.blocks[b][i].Operands()
      ensures forall j :: 0 <= j < |f.blocks[b][i].Succs()| ==> f.blocks[b][i].Succs()[j] < |f.blocks|
      ensures f.blocks[b][i].Defs() == if b == 0 && i == 0 then {P} else if b == 0 && i == 1 then {Q} else {}
    {
      InstrForm(f, b, i);
    }
    assert P in f.blocks[1][0].Operands() && Q in f.blocks[1][1].Operands();
  }

  lemma Successors(f: Func)
    requires Shape(f)
    ensures f.Term(0).Succs() == [5, 4] && f.Term(1).Succs() == [] && f.Term(5).Succs() == []
    ensures f.Term(2).Succs() == [1] && f.Term(3).Succs() == [2] && f.Term(4).Succs() == [3]
  {
  }

  lemma DefsAre(f: Func)
    requires Shape(f)
    ensures f.DefsBefore(0, 1) == {P} && f.DefsBefore(0, 2) == {P, Q} && f.DefsBefore(0, 3) == {P, Q}
    ensures f.DefsBefore(0, 4) == {P, Q}
    ensures f.DefsBefore(1, 1) == {} && f.DefsBefore(1, 2) == {} && f.DefsBefore(1, 3) == {}
  {
    assert f.DefsBefore(0, 0) == {} && f.DefsBefore(0, 1) == {P} && f.DefsBefore(0, 2) == {P, Q}
           && f.DefsBefore(0, 3) == {P, Q};
    assert f.DefsBefore(1, 0) == {} && f.DefsBefore(1, 1) == {} && f.DefsBefore(1, 2) == {};
  }

  lemma GensAre(f: Func)
    requires Shape(f)
    ensures f.GenBefore(0, 4) == {} && f.GenBefore(1, 3) == {P, Q}
  {
    DefsAre(f);
    assert f.GenBefore(0, 0) == {} && f.GenBefore(0, 1) == {} && f.GenBefore(0, 2) == {} && f.GenBefore(0, 3) == {};
    assert f.GenBefore(1, 0) == {} && f.GenBefore(1, 1) == {P} && f.GenBefore(1, 2) == {P, Q};
  }

  lemma Before(f: Func)
    requires Shape(f)
    ensures f.DefsBefore(0, 1) == {P} && f.DefsBefore(0, 2) == {P, Q} && f.DefsBefore(0, 3) == {P, Q}
    ensures f.DefsBefore(0, 4) == {P, Q} && f.DefsBefore(1, 3) == {} && f.GenBefore(0, 4) == {}
            && f.GenBefore(1, 3) == {P, Q}
    ensures forall b: nat :: 2 <= b <= 5 ==> f.DefsBefore(b, 1) == {} && f.GenBefore(b, 1) == {}
  {
    DefsAre(f);
    GensAre(f);
    forall b: nat | 2 <= b <= 5
      ensures f.DefsBefore(b, 1) == {} && f.GenBefore(b, 1) == {}
    {
      Single(f, b);
      assert f.DefsBefore(b, 0) == {} && f.GenBefore(b, 0) == {};
    }
  }

  function Live(): seq<set<Name>> { [{}, {P, Q}, {P, Q}, {P, Q}, {P, Q}, {}] }

  lemma UsesDominated(f: Func, b: nat, i: nat)
    requires Shape(f) && f.At(b, i)
    ensures f.blocks[b][i].Uses() + (if f.blocks[b][i].NullBranch? then {f.blocks[b][i].ptr} - {NullConst} else {})
              <= Live()[b] + f.DefsBefore(b, i)
  {
    Places(f, b, i);
    Before(f);
    if b >= 2 { Single(f, b); }
  }

  lemma EdgesDominated(f: Func, b: nat, j: nat)
    requires Shape(f) && b < 6 && j < |f.Term(b).Succs()|
    ensures f.Term(b).Succs()[j] < 6 && Live()[f.Term(b).Succs()[j]] <= Live()[b] + f.DefsBefore(b, |f.blocks[b]|)
  {
    Successors(f);
    Before(f);
    assert b == 0 || b == 2 || b == 3 || b == 4;
  }

  lemma StrictByParts(f: Func, dom: seq<set<Name>>)
    requires f.WellFormed() && f.SingleAssignment() && |f.blocks| == 6 && f.args == {} && dom == Live()
    requires forall b, i :: f.At(b, i) ==>
               f.blocks[b][i].Uses() + (if f.blocks[b][i].NullBranch? then {f.blocks[b][i].ptr} - {NullConst} else {})
                 <= dom[b] + f.DefsBefore(b, i)
    requires forall b, j :: 0 <= b < 6 && 0 <= j < |f.Term(b).Succs()| ==>
               f.Term(b).Succs()[j] < 6 && dom[f.Term(b).Succs()[j]] <= dom[b] + f.DefsBefore(b, |f.blocks[b]|)
    ensures f.StrictSSA(dom)
  {
  }

  lemma ShapeIsStrict(f: Func)
    requires Shape(f)
    ensures f.WellFormed() && f.StrictSSA(Live())
  {
    ShapeIsWellFormed(f);
    forall b: nat, i: nat | f.At(b, i)
      ensures f.blocks[b][i].Uses() + (if f.blocks[b][i].NullBranch? then {f.blocks[b][i].ptr} - {NullConst} else {})
                <= Live()[b] + f.DefsBefore(b, i)
    {
      UsesDominated(f, b, i);
    }
    forall b: nat, j: nat | b < 6 && j < |f.Term(b).Succs()|
      ensures f.Term(b).Succs()[j] < 6 && Live()[f.Term(b).Succs()[j]] <= Live()[b] + f.DefsBefore(b, |f.blocks[b]|)
    {
      EdgesDominated(f, b, j);
    }
    StrictByParts(f, Live());
  }

  // ----- What is live -----

  function LayoutFlow(): Flow<Name> {
    Flow.Flow([[5, 4], [], [1], [2], [3], []], [{}, {P, Q}, {}, {}, {}, {}], [{P, Q}, {}, {}, {}, {}, {}])
  }

  lemma FlowIs(f: Func)
    requires Shape(f)
    ensures f.Flow() == LayoutFlow() && f.Flow().Valid()
  {
    Successors(f);
    Before(f);
    var fl := f.Flow();
    assert fl.succ == [[5, 4], [], [1], [2], [3], []];
    assert fl.gen == [{}, {P, Q}, {}, {}, {}, {}];
    assert fl.kill == [{P, Q}, {}, {}, {}, {}, {}];
  }

  function LiveEnd(b: nat): set<Name> { if b == 1 || b == 5 then {} else {P, Q} }

  lemma OutIs(fl: Flow<Name>, b: nat)
    requires fl.Valid() && fl == LayoutFlow() && b < 6
    ensures Out(fl, Live(), b) == LiveEnd(b) && Live()[b] == In(fl, Live(), b)
  {
    assert b == 0 || b == 1 || b == 2 || b == 3 || b == 4 || b == 5;
    assert fl.succ[0][0] == 5 && fl.succ[0][1] == 4;
    if 2 <= b <= 4 { assert fl.succ[b] == [b - 1] && fl.succ[b][0] == b - 1; }
    forall v ensures v in Out(fl, Live(), b) <==> v in LiveEnd(b) {
      if b == 0 && v in {P, Q} { assert v in Live()[fl.succ[b][1]]; }
      if 2 <= b <= 4 && v in {P, Q} { assert v in Live()[fl.succ[b][0]]; }
    }
  }

  lemma LeastIs(fl: Flow<Name>, other: seq<set<Name>>)
    requires fl.Valid() && fl == LayoutFlow() && DataFlow.Closed(fl, other)
    ensures DataFlow.Below(Live(), other)
  {
    assert In(fl, other, 1) <= other[1] && {P, Q} <= other[1];
    CarriedBack(fl, other, 2);
    CarriedBack(fl, other, 3);
    CarriedBack(fl, other, 4);
  }

  lemma CarriedBack(fl: Flow<Name>, other: seq<set<Name>>, b: nat)
    requires fl.Valid() && fl == LayoutFlow() && DataFlow.Closed(fl, other) && 2 <= b <= 4 && {P, Q} <= other[b - 1]
    ensures {P, Q} <= other[b]
  {
    assert b == 2 || b == 3 || b == 4;
    assert fl.succ[b] == [b - 1] && fl.succ[b][0] == b - 1 && fl.kill[b] == {};
    forall v | v in {P, Q} ensures v in Out(fl, other, b) { assert v in other[fl.succ[b][0]]; }
    assert In(fl, other, b) <= other[b];
  }

  lemma ShapeFlow(f: Func)
    requires Shape(f)
    ensures LiveFor(f, Live()) && LeastSolution(f.Flow(), Live())
    ensures forall b: nat :: b < 6 ==> Out(f.Flow(), Live(), b) == LiveEnd(b)
  {
    ShapeIsWellFormed(f);
    FlowIs(f);
    forall b: nat | b < 6
      ensures Out(f.Flow(), Live(), b) == LiveEnd(b) && Live()[b] == In(f.Flow(), Live(), b)
    {
      OutIs(f.Flow(), b);
    }
    forall other | DataFlow.Closed(f.Flow(), other) ensures DataFlow.Below(Live(), other) { LeastIs(f.Flow(), other); }
  }

  ghost predicate Given(f: Func, a: Analysis) {
    && Shape(f) && a.Sized(f) && a.liveStart == Live()
    && (forall b: nat {:trigger LiveOut(f, a, b)} :: b < 6 ==> LiveOut(f, a, b) == LiveEnd(b))
  }

  lemma Scans(f: Func, a: Analysis)
    requires Given(f, a)
    ensures Scan(f, a, 0, 1) == {P} && Scan(f, a, 0, 2) == {P, Q} && Scan(f, a, 0, 3) == {P, Q}
            && Scan(f, a, 0, 4) == {P, Q}
    ensures Scan(f, a, 1, 1) == {Q} && Scan(f, a, 1, 2) == {} && Scan(f, a, 1, 3) == {}
    ensures forall b: nat {:trigger Scan(f, a, b, 1)} :: 2 <= b <= 5 ==> Scan(f, a, b, 1) == LiveEnd(b)
  {
    assert Scan(f, a, 0, 4) == {P, Q} && Scan(f, a, 0, 3) == {P, Q} && Scan(f, a, 0, 2) == {P, Q};
    assert Scan(f, a, 1, 3) == {} && Scan(f, a, 1, 2) == {};
    forall b: nat | 2 <= b <= 5 ensures Scan(f, a, b, 1) == LiveEnd(b) { Single(f, b); }
  }

  function LastAt(b: nat, i: nat): set<Name> {
    if b == 1 && i == 0 then {P} else if b == 1 && i == 1 then {Q} else {}
  }

  lemma Lasts(f: Func, a: Analysis, b: nat, i: nat)
    requires Given(f, a) && f.At(b, i)
    ensures LastUse(f, a, b, i) == LastAt(b, i)
  {
    Scans(f, a);
    Places(f, b, i);
    if b >= 2 { Single(f, b); }
  }

  function LiveAt(b: nat, i: nat): set<Name> {
    if b == 0 then (if i == 0 then {} else if i == 1 then {P} else {P, Q})
    else if b == 1 then (if i == 0 then {P, Q} else if i == 1 then {Q} else {})
    else LiveEnd(b)
  }

  lemma UsedDefsAt(f: Func, b: nat, i: nat)
    requires Shape(f) && f.At(b, i)
    ensures (set d | d in f.blocks[b][i].Defs() && f.HasUses(d))
            == if b == 0 && i == 0 then {P} else if b == 0 && i == 1 then {Q} else {}
  {
    InstrForm(f, b, i);
    assert P in f.blocks[1][0].Operands() && Q in f.blocks[1][1].Operands();
  }

  lemma LiveNext(f: Func, a: Analysis, b: nat, i: nat)
    requires Given(f, a) && f.At(b, i) && CurLive(f, a, b, i) == LiveAt(b, i)
    ensures CurLive(f, a, b, i + 1) == LiveAt(b, i + 1)
  {
    Lasts(f, a, b, i);
    UsedDefsAt(f, b, i);
    Places(f, b, i);
    var used := set d | d in f.blocks[b][i].Defs() && f.HasUses(d);
    assert CurLive(f, a, b, i + 1) == LiveAt(b, i) - LastAt(b, i) + used;
  }

  lemma LiveFirst(f: Func, a: Analysis, b: nat)
    requires Given(f, a) && b < 6
    ensures CurLive(f, a, b, 0) == LiveAt(b, 0)
  {
    assert b == 0 || b == 1 || b == 2 || b == 3 || b == 4 || b == 5;
  }

  lemma {:induction false} Lives(f: Func, a: Analysis, b: nat, i: nat)
    requires Given(f, a) && b < 6 && i <= |f.blocks[b]|
    ensures CurLive(f, a, b, i) == LiveAt(b, i)
    decreases i
  {
    if i == 0 {
      LiveFirst(f, a, b);
    } else {
      Lives(f, a, b, i - 1);
      LiveNext(f, a, b, i - 1);
    }
  }

  lemma Deaths(f: Func, a: Analysis, b: nat)
    requires Given(f, a) && b < 6
    ensures DeadAtStart(f, a, b) <= {P, Q} && (b != 5 ==> DeadAtStart(f, a, b) == {})
  {
    Successors(f);
    forall v | v in DeadAtStart(f, a, b)
      ensures v in {P, Q} && b == 5
    {
      var p :| 0 <= p < 6 && b in f.Term(p).Succs() && v in a.liveStart[p] + LiveOut(f, a, p);
      assert p == 0 || p == 1 || p == 2 || p == 3 || p == 4 || p == 5;
    }
  }

  // ----- What the test finds -----

  lemma StartsWithout(f: Func, a: Analysis, order: seq<Name>)
    requires Given(f, a) && IsSettled(f, a, order)
    ensures BorrowsAt(f, a, 0, 0) == {}
  {
    Successors(f);
    assert StartsAsPassed(f, a, 0);
    var ends := PassUpTo(f, a, DryRuns(f, a), 0);
    forall p: nat | p < 6
      ensures 0 !in f.Term(p).Succs()
    {
      assert p == 0 || p == 1 || p == 2 || p == 3 || p == 4 || p == 5;
    }
    assert Join(f, ends, 0) == {};
    NothingToKill(a.deathOrder[0]);
  }

  lemma BorrowsOfFirst(f: Func, a: Analysis)
    requires Given(f, a) && BorrowsAt(f, a, 0, 0) == {}
    ensures BorrowsAt(f, a, 0, 1) == {} && BorrowsAt(f, a, 0, 4) == {(P, Q)}
  {
    ShapeIsWellFormed(f);
    Lasts(f, a, 0, 1);
    assert BorrowsAt(f, a, 0, 1) == {};
    assert BorrowsAt(f, a, 0, 2) == {(P, Q)};
    assert Postponed(f, 0, 2) && BorrowsAt(f, a, 0, 3) == {(P, Q)};
  }

  /** The test of q also decides about p. */
  lemma TestFindsBoth(f: Func, a: Analysis, order: seq<Name>)
    requires Given(f, a) && IsSettled(f, a, order)
    ensures P in a.aliases[0] && Q in a.aliases[0]
  {
    StartsWithout(f, a, order);
    BorrowsOfFirst(f, a);
    assert f.Term(0) == NullBranch(Q, true, 5, 4) && |f.blocks[0]| == 4;
    LenderIsAlias(BorrowsAt(f, a, 0, 4), Q, P);
  }

  // ----- What the borrows should be, and what the passes find -----

  lemma QIsCopy(f: Func)
    requires Shape(f)
    ensures CopyOf(f, Q, P)
  {
    assert CopySite(f, 0, 1, Q, P);
    assert Q in f.blocks[1][1].Operands();
  }

  lemma ShouldBorrow(f: Func, a: Analysis)
    requires Given(f, a)
    ensures IsCopyPair(f, Kept(f, a, 1, 0), (P, Q))
  {
    QIsCopy(f);
    ViaStep(f, Kept(f, a, 1, 0), P, Q);
  }

  lemma SuccsOf(f: Func, p: nat, b: nat)
    requires Shape(f) && p < 6 && 1 <= b <= 3
    ensures b in f.Term(p).Succs() <==> p == b + 1
  {
    Successors(f);
    assert p == 0 || p == 1 || p == 5 || f.Term(p).Succs() == [p - 1];
  }

  lemma OnlyPred(f: Func, ends: seq<Borrows>, b: nat)
    requires Shape(f) && |ends| == 6 && 1 <= b <= 3
    ensures Join(f, ends, b) == ends[b + 1]
  {
    forall p: nat | p < 6 ensures b in f.Term(p).Succs() <==> p == b + 1 { SuccsOf(f, p, b); }
    var joined := Join(f, ends, b);
    forall e ensures e in joined <==> e in ends[b + 1] {
      if e in ends[b + 1] { assert b in f.Term(b + 1).Succs(); }
    }
  }

  lemma {:induction false} NothingToKill(dead: seq<Name>)
    ensures KillInOrder({}, dead) == {}
    decreases |dead|
  {
    if dead != [] {
      assert KillBorrows({}, dead[0]) == {};
      NothingToKill(dead[1..]);
    }
  }

  lemma JumpAddsNothing(f: Func, a: Analysis, b: nat)
    requires Shape(f) && a.Sized(f) && 2 <= b <= 4
    ensures EndOf(f, a, b, {}) == {}
  {
    NothingToKill(a.deathOrder[b]);
    Single(f, b);
    assert Begin(f, a, b, {}) == {} && |f.blocks[b]| == 1 && f.blocks[b][0].Jump?;
    assert Along(f, a, b, 0, {}) == {} && Along(f, a, b, 1, {}) == Next(f, a, b, 0, {}) == {};
  }

  /** If the predecessor of block b had ended without borrows, so does b in the next pass. */
  lemma StaysEmpty(f: Func, a: Analysis, prev: seq<Borrows>, b: nat)
    requires Shape(f) && a.Sized(f) && |prev| == 6 && 2 <= b <= 3 && prev[b + 1] == {}
    ensures Pass(f, a, prev)[b] == {}
  {
    PassKeeps(f, a, prev, b, 6);
    OnlyPred(f, PassUpTo(f, a, prev, b), b);
    JumpAddsNothing(f, a, b);
  }

  lemma TwoNamesSeen(f: Func)
    requires Shape(f)
    ensures |Seen(f)| != 1
  {
    assert P in SeenAt(f, f.blocks[0][0]);
    assert {NullConst, P} <= Seen(f) && |{NullConst, P}| == 2;
    Larger({NullConst, P}, Seen(f));
  }

  lemma StartIsEmpty(f: Func, a: Analysis)
    requires Shape(f) && a.Sized(f)
    ensures StartOf(f, a, DryRuns(f, a), 1) == {}
  {
    TwoNamesSeen(f);
    var none := NoBorrows(f);
    var once := Pass(f, a, none);
    StaysEmpty(f, a, none, 2);
    StaysEmpty(f, a, none, 3);
    StaysEmpty(f, a, once, 2);
    OnlyPred(f, PassUpTo(f, a, DryRuns(f, a), 1), 1);
  }

  lemma FreedWithout(f: Func, a: Analysis, order: seq<Name>)
    requires Given(f, a) && IsSettled(f, a, order)
    ensures a.borrowStart[1] == {} && BorrowsAt(f, a, 1, 0) == {}
  {
    StartIsEmpty(f, a);
    assert StartsAsPassed(f, a, 1);
    NothingToKill(a.deathOrder[1]);
  }

  lemma LoadedWithout(f: Func, a: Analysis)
    requires Given(f, a) && BorrowsAt(f, a, 1, 0) == {}
    ensures BorrowsAt(f, a, 1, 1) == {}
  {
    assert f.blocks[1][0] == Free(P, false) && KillBorrows({}, P) == {};
  }

  /** Where p is freed q borrows from it, but the last pass does not know, so the clause that forbids
      freeing a borrowed value is not written. */
  lemma BorrowIsMissed(f: Func, a: Analysis, order: seq<Name>)
    requires Given(f, a) && IsSettled(f, a, order)
    ensures IsCopyPair(f, Kept(f, a, 1, 0), (P, Q)) && BorrowsAt(f, a, 1, 0) == {} && !StartsExact(f, a)
    ensures {} !in InstrClauses(f, CurLive(f, a, 1, 0), BorrowsAt(f, a, 1, 0), f.blocks[1][0], Pre(1, 0), Post(1, 0))
    ensures {} in InstrClauses(f, CurLive(f, a, 1, 0), {(P, Q)}, f.blocks[1][0], Pre(1, 0), Post(1, 0))
  {
    ShouldBorrow(f, a);
    FreedWithout(f, a, order);
    assert (P, Q) in CopyPairs(f, Kept(f, a, 1, 0));
    assert !ExactStart(f, a, 1, a.borrowStart[1]);
    FreeIsAllowed(f, CurLive(f, a, 1, 0));
    assert (P, Q) in {(P, Q)} && Borrowed({(P, Q)}, P);
  }

  lemma FreeIsAllowed(f: Func, live: set<Name>)
    ensures {} !in InstrClauses(f, live, {}, Free(P, false), Pre(1, 0), Post(1, 0))
  {
    var cs := FreeClauses({}, P, false, Pre(1, 0), Post(1, 0));
    assert !Borrowed({}, P);
    forall c | c in cs ensures c != {} {
      assert Pos(Responsible(P)) in c || Neg(Zombie(P, Pre(1, 0))) in c || Neg(Good(P, Pre(1, 0))) in c
             || Neg(Null(P, Pre(1, 0))) in c;
    }
    forall c | c in Preserve(live + {NullConst} - {P}, Pre(1, 0), Post(1, 0)) ensures c != {} {
      var n :| n in live + {NullConst} - {P} && (c == Implies(Good(n, Pre(1, 0)), Good(n, Post(1, 0)))
        || c == Implies(Null(n, Pre(1, 0)), Null(n, Post(1, 0)))
          || c == Implies(Zombie(n, Pre(1, 0)), Zombie(n, Post(1, 0))));
      assert Neg(Good(n, Pre(1, 0))) in c || Neg(Null(n, Pre(1, 0))) in c || Neg(Zombie(n, Pre(1, 0))) in c;
    }
  }

  // ----- An assignment -----

  function Points(): set<Point> {
    {End} + (set b, i | 0 <= b < 6 && 0 <= i < 4 :: Pre(b, i)) + set b, i | 0 <= b < 6 && 0 <= i < 4 :: Post(b, i)
  }

  /** p is good until it is freed, and q all along. */
  predicate GoodAt(n: Name, t: Point) {
    !t.End? && ((n == P && (t.b in {0, 2, 3, 4} || t == Pre(1, 0))) || (n == Q && t.b <= 4))
  }

  /** Past the test p and q are NULL only where the function returns at once. */
  predicate NullAt(n: Name, t: Point) { n == NullConst || (n in {P, Q} && !t.End? && (t.b == 0 || t == Pre(5, 0))) }

  function TheAssignment(): Assignment {
    {Responsible(P), Mut(P), Zombie(P, Post(1, 0))}
    + (set n, t | n in {P, Q} && t in Points() && GoodAt(n, t) :: Good(n, t))
    + set n, t | n in {P, Q, NullConst} && t in Points() && NullAt(n, t) :: Null(n, t)
  }

  ghost predicate Accepting(asgn: Assignment) {
    && (forall n :: Responsible(n) in asgn <==> n == P)
    && (forall n :: Mut(n) in asgn <==> n == P)
    && (forall n, t :: Zombie(n, t) in asgn <==> n == P && t == Post(1, 0))
    && (forall n, t :: Good(n, t) in asgn <==> t in Points() && GoodAt(n, t))
    && (forall n, t :: Null(n, t) in asgn <==> t in Points() && NullAt(n, t))
  }

  lemma AssignmentAccepts()
    ensures Accepting(TheAssignment())
  {
  }

  /** NULL stays NULL. */
  lemma NullCarried(asgn: Assignment, names: set<Name>, t: Point, t': Point)
    requires Accepting(asgn) && names <= {NullConst} && t' in Points()
    ensures Satisfies(asgn, Preserve(names, t, t'))
  {
    forall n | n in names ensures Carried(asgn, n, t, t') { }
    PreserveMeans(asgn, names, t, t');
  }

  lemma QCarried(asgn: Assignment, names: set<Name>, t: Point, t': Point)
    requires Accepting(asgn) && names <= {Q, NullConst} && t' in Points()
    requires !t.End? && !t'.End? && t.b == 1 && t'.b == 1
    ensures Satisfies(asgn, Preserve(names, t, t'))
  {
    forall n | n in names ensures Carried(asgn, n, t, t') { }
    PreserveMeans(asgn, names, t, t');
  }

  lemma BothCarried(asgn: Assignment, names: set<Name>, t: Point, t': Point)
    requires Accepting(asgn) && names <= {P, Q, NullConst} && t' in Points()
    requires !t.End? && !t'.End? && t.b == t'.b && t.b in {0, 2, 3, 4}
    ensures Satisfies(asgn, Preserve(names, t, t'))
  {
    forall n | n in names ensures Carried(asgn, n, t, t') { }
    PreserveMeans(asgn, names, t, t');
  }

  // ----- Its instructions -----

  lemma MallocMet(f: Func, asgn: Assignment, bs: Borrows)
    requires Accepting(asgn)
    ensures Satisfies(asgn, InstrClauses(f, {}, bs, Malloc(P), Pre(0, 0), Post(0, 0)))
  {
    var t, names := Post(0, 0), {} + {NullConst} - {P};
    assert t in Points();
    ClauseHolds(asgn, {Pos(Responsible(P))}, Pos(Responsible(P)));
    ClauseHolds(asgn, {Pos(Good(P, t))}, Pos(Good(P, t)));
    ClauseHolds(asgn, {Pos(Null(P, t))}, Pos(Null(P, t)));
    ClauseHolds(asgn, {Neg(Zombie(P, t))}, Neg(Zombie(P, t)));
    NullCarried(asgn, names, Pre(0, 0), t);
    BothMean(asgn, MallocClauses(P, t), Preserve(names, Pre(0, 0), t));
  }

  lemma CopyClausesMet(asgn: Assignment, pre: Point, post: Point)
    requires Accepting(asgn) && pre == Pre(0, 1) && post == Post(0, 1)
    ensures Satisfies(asgn, PtrCopyClauses({}, Q, P, pre, post))
  {
    assert post in Points() && !Borrowed({}, P);
    forall c | c in PtrCopyClauses({}, Q, P, pre, post)
      ensures SatisfiesClause(asgn, c)
    {
      ImpliesMeans(asgn, Responsible(Q), Responsible(P));
      ImpliesMeans(asgn, Mut(Q), Mut(P));
      ClauseHolds(asgn, {Pos(Responsible(Q)), Neg(Zombie(P, pre))}, Neg(Zombie(P, pre)));
      ClauseHolds(asgn, {Neg(Responsible(Q)), Neg(Good(P, pre)), Pos(Zombie(P, post))}, Neg(Responsible(Q)));
      ClauseHolds(asgn, {Pos(Responsible(Q)), Neg(Good(P, pre)), Pos(Good(P, post))}, Pos(Good(P, post)));
      ImpliesMeans(asgn, Null(P, pre), Null(P, post));
      ImpliesMeans(asgn, Zombie(P, pre), Zombie(P, post));
      ImpliesMeans(asgn, Good(P, pre), Good(Q, post));
      ImpliesMeans(asgn, Null(P, pre), Null(Q, post));
      ImpliesMeans(asgn, Zombie(P, pre), Zombie(Q, post));
    }
  }

  lemma CopyMet(f: Func, asgn: Assignment)
    requires f.HasUses(Q) && Accepting(asgn)
    ensures Satisfies(asgn, InstrClauses(f, {P}, {}, VarStore(Q, P), Pre(0, 1), Post(0, 1)))
  {
    var names := {P} + {NullConst} - {Q, P};
    assert Post(0, 1) in Points();
    CopyClausesMet(asgn, Pre(0, 1), Post(0, 1));
    NullCarried(asgn, names, Pre(0, 1), Post(0, 1));
    BothMean(asgn, PtrCopyClauses({}, Q, P, Pre(0, 1), Post(0, 1)), Preserve(names, Pre(0, 1), Post(0, 1)));
  }

  lemma FreeMet(f: Func, asgn: Assignment)
    requires Accepting(asgn)
    ensures Satisfies(asgn, InstrClauses(f, {P, Q}, {}, Free(P, false), Pre(1, 0), Post(1, 0)))
  {
    var pre, post, names := Pre(1, 0), Post(1, 0), {P, Q} + {NullConst} - {P};
    assert post in Points() && !Borrowed({}, P);
    ClauseHolds(asgn, {Pos(Responsible(P))}, Pos(Responsible(P)));
    ClauseHolds(asgn, {Neg(Zombie(P, pre))}, Neg(Zombie(P, pre)));
    ImpliesMeans(asgn, Good(P, pre), Zombie(P, post));
    ImpliesMeans(asgn, Null(P, pre), Null(P, post));
    QCarried(asgn, names, pre, post);
    BothMean(asgn, FreeClauses({}, P, false, pre, post), Preserve(names, pre, post));
  }

  lemma LoadMet(f: Func, asgn: Assignment, bs: Borrows)
    requires Accepting(asgn) && bs == {}
    ensures Satisfies(asgn, InstrClauses(f, {Q}, bs, Load(Q), Pre(1, 1), Post(1, 1)))
  {
    var pre, post := Pre(1, 1), Post(1, 1);
    assert pre in Points() && post in Points();
    ClauseHolds(asgn, {Neg(Null(Q, pre))}, Neg(Null(Q, pre)));
    ClauseHolds(asgn, {Neg(Zombie(Q, pre))}, Neg(Zombie(Q, pre)));
    ClauseHolds(asgn, {Pos(Good(Q, pre))}, Pos(Good(Q, pre)));
    QCarried(asgn, {Q} + {NullConst}, pre, post);
    BothMean(asgn, DerefClauses(Q, pre)
      + (set e | e in bs && e.0 == Q :: {Neg(Mut(e.1))}), Preserve({Q} + {NullConst}, pre, post));
  }

  lemma PlainMet(f: Func, asgn: Assignment, live: set<Name>, bs: Borrows, inst: Instr, b: nat, i: nat)
    requires inst.Jump? || inst.ICmp? || inst.NullBranch? || inst.ReturnVoid?
    requires Accepting(asgn) && b < 6 && i < 4
    requires (live == {} && inst.ReturnVoid?) || (live <= {P, Q} && b in {0, 2, 3, 4} && !inst.ReturnVoid?)
    ensures Satisfies(asgn, InstrClauses(f, live, bs, inst, Pre(b, i), PostOf(inst, b, i)))
  {
    var pre, post := Pre(b, i), PostOf(inst, b, i);
    assert post in Points();
    if inst.ReturnVoid? { NullCarried(asgn, live + {NullConst}, pre, post); }
      else { BothCarried(asgn, live + {NullConst}, pre, post); }
    assert InstrClauses(f, live, bs, inst, pre, post) == Preserve(live + {NullConst}, pre, post);
  }

  lemma InstrMet(f: Func, asgn: Assignment, b: nat, i: nat, bs: Borrows)
    requires Shape(f) && f.HasUses(Q) && Accepting(asgn) && f.At(b, i)
    requires ((b == 0 && i == 1) || (b == 1 && i < 2)) ==> bs == {}
    ensures Satisfies(asgn, InstrClauses(f, LiveAt(b, i), bs, f.blocks[b][i], Pre(b, i), PostOf(f.blocks[b][i], b, i)))
  {
    Places(f, b, i);
    if b >= 2 { Single(f, b); }
    if b == 0 && i == 0 {
      MallocMet(f, asgn, bs);
    } else if b == 0 && i == 1 {
      CopyMet(f, asgn);
    } else if b == 1 && i == 0 {
      FreeMet(f, asgn);
    } else if b == 1 && i == 1 {
      LoadMet(f, asgn, bs);
    } else {
      PlainMet(f, asgn, LiveAt(b, i), bs, f.blocks[b][i], b, i);
    }
  }

  // ----- All its clauses -----

  lemma BorrowsWhereNeeded(f: Func, a: Analysis, b: nat, i: nat)
    requires Given(f, a) && f.At(b, i) && BorrowsAt(f, a, 0, 0) == {} && BorrowsAt(f, a, 1, 0) == {}
    ensures ((b == 0 && i == 1) || (b == 1 && i < 2)) ==> BorrowsAt(f, a, b, i) == {}
  {
    BorrowsOfFirst(f, a);
    LoadedWithout(f, a);
  }

  lemma LastsMayDie(f: Func, a: Analysis, asgn: Assignment, b: nat, i: nat, t: Point)
    requires Given(f, a) && Accepting(asgn) && f.At(b, i) && t == PostOf(f.blocks[b][i], b, i)
    ensures Satisfies(asgn, Killed(LastUse(f, a, b, i), t)) && Satisfies(asgn, Killed(f.args, End))
  {
    Lasts(f, a, b, i);
    forall n | n in LastAt(b, i) ensures MayDie(asgn, n, t) { }
    KilledMeans(asgn, LastAt(b, i), t);
    KilledMeans(asgn, f.args, End);
  }

  lemma VisitMet(f: Func, a: Analysis, asgn: Assignment, b: nat, i: nat)
    requires Given(f, a) && Accepting(asgn) && f.At(b, i)
    requires BorrowsAt(f, a, 0, 0) == {} && BorrowsAt(f, a, 1, 0) == {}
    ensures Satisfies(asgn, VisitClauses(f, a, b, i))
  {
    ShapeIsWellFormed(f);
    Lives(f, a, b, i);
    BorrowsWhereNeeded(f, a, b, i);
    var inst, post := f.blocks[b][i], PostOf(f.blocks[b][i], b, i);
    var own := InstrClauses(f, LiveAt(b, i), BorrowsAt(f, a, b, i), inst, Pre(b, i), post);
    InstrMet(f, asgn, b, i, BorrowsAt(f, a, b, i));
    LastsMayDie(f, a, asgn, b, i, post);
    BothMean(asgn, own, Killed(LastUse(f, a, b, i), post));
    var atReturn := if inst.Return? || inst.ReturnVoid? then Killed(f.args, End) else {};
    BothMean(asgn, own + Killed(LastUse(f, a, b, i), post), atReturn);
  }

  lemma SeenBefore(f: Func, b: nat, i: nat)
    requires Shape(f) && f.At(b, i) && i > 0
    ensures PostOf(f.blocks[b][i - 1], b, i - 1) == Post(b, i - 1)
    ensures b <= 1 && i < 4 && SeenAt(f, f.blocks[b][i - 1]) <= if b == 0 then {P, Q} else {}
  {
    Places(f, b, i);
  }

  lemma FlowMet(f: Func, a: Analysis, asgn: Assignment, b: nat, i: nat)
    requires Given(f, a) && Accepting(asgn) && f.At(b, i)
    ensures Satisfies(asgn, FlowTo(f, a, b, i))
  {
    if i > 0 {
      Lives(f, a, b, i);
      SeenBefore(f, b, i);
      var names := CurLive(f, a, b, i) + {NullConst} + SeenAt(f, f.blocks[b][i - 1]);
      assert Pre(b, i) in Points();
      if b == 0 { BothCarried(asgn, names, Post(b, i - 1), Pre(b, i)); }
        else { QCarried(asgn, names, Post(b, i - 1), Pre(b, i)); }
    }
  }

  /** The edges of the test, and those of the jumps. */
  lemma TestEdgeMet(asgn: Assignment, names: set<Name>, tested: set<Name>, succ: nat)
    requires Accepting(asgn) && names == {P, Q} + {NullConst} && P in tested && Q in tested && succ in {5, 4}
    ensures Satisfies(asgn, EdgeFlow(names, tested, succ == 5, Post(0, 3), Pre(succ, 0)))
  {
    assert Pre(5, 0) in Points() && Pre(4, 0) in Points();
    forall n | n in names ensures CarriedAcross(asgn, n, tested, succ == 5, Post(0, 3), Pre(succ, 0)) { }
    EdgeFlowMeans(asgn, names, tested, succ == 5, Post(0, 3), Pre(succ, 0));
  }

  lemma JumpEdgeMet(asgn: Assignment, names: set<Name>, b: nat)
    requires Accepting(asgn) && names == {P, Q} + {NullConst} && 2 <= b <= 4
    ensures Satisfies(asgn, EdgeFlow(names, {}, false, Post(b, 0), Pre(b - 1, 0)))
  {
    assert Pre(b - 1, 0) in Points();
    forall n | n in names ensures CarriedAcross(asgn, n, {}, false, Post(b, 0), Pre(b - 1, 0)) { }
    EdgeFlowMeans(asgn, names, {}, false, Post(b, 0), Pre(b - 1, 0));
  }

  lemma EdgeMet(f: Func, a: Analysis, asgn: Assignment, b: nat, j: nat)
    requires Given(f, a) && Accepting(asgn) && b < 6 && j < |f.Term(b).Succs()| && P in a.aliases[0]
             && Q in a.aliases[0]
    ensures Satisfies(asgn, EdgeClauses(f, a, b, j))
  {
    Successors(f);
    assert b == 0 || b == 2 || b == 3 || b == 4;
    Lives(f, a, b, |f.blocks[b]|);
    var names, succ := LiveEnd(b) + {NullConst}, f.Term(b).Succs()[j];
    if b == 0 {
      assert f.Term(0) == NullBranch(Q, true, 5, 4);
      EdgeIs(f, a, b, j, names, a.aliases[0], succ == 5);
      TestEdgeMet(asgn, names, a.aliases[0], succ);
    } else {
      Single(f, b);
      EdgeIs(f, a, b, j, names, {}, false);
      JumpEdgeMet(asgn, names, b);
    }
  }

  lemma DeathsMet(f: Func, a: Analysis, asgn: Assignment, b: nat)
    requires Given(f, a) && Accepting(asgn) && b < 6
    ensures Satisfies(asgn, Killed(DeadAtStart(f, a, b), Pre(b, 0)))
  {
    Deaths(f, a, b);
    forall n | n in DeadAtStart(f, a, b) ensures MayDie(asgn, n, Pre(b, 0)) { }
    KilledMeans(asgn, DeadAtStart(f, a, b), Pre(b, 0));
  }

  lemma ClausesMet(f: Func, a: Analysis, asgn: Assignment)
    requires Given(f, a) && Accepting(asgn) && P in a.aliases[0] && Q in a.aliases[0]
    requires BorrowsAt(f, a, 0, 0) == {} && BorrowsAt(f, a, 1, 0) == {}
    ensures Satisfies(asgn, AllClauses(f, a))
  {
    forall b: nat | b < |f.blocks|
      ensures BlockIsMet(f, a, asgn, b)
    {
      DeathsMet(f, a, asgn, b);
      forall i: nat | i < |f.blocks[b]|
        ensures InstrIsMet(f, a, asgn, b, i)
      {
        VisitMet(f, a, asgn, b, i);
        FlowMet(f, a, asgn, b, i);
      }
      forall j: nat | j < |f.Term(b).Succs()| ensures EdgeIsMet(f, a, asgn, b, j) { EdgeMet(f, a, asgn, b, j); }
    }
    assert Pre(0, 0) in Points();
    EntryMeans(asgn);
    MutMeans(asgn, Seen(f));
    AllMet(f, a, asgn);
  }

  // ----- It is accepted -----

  ghost function Accepted(): OwnershipTheorem.Program
    requires LiveFor(LaidOutBackwards(), Live())
  {
    OwnershipTheorem.Program(LaidOutBackwards(), Settled(LaidOutBackwards(), Live(), [P, Q]), Live(),
      n => if n == Q then P else n, TheAssignment())
  }

  lemma SettledIsGiven(f: Func, a: Analysis, order: seq<Name>)
    requires f == LaidOutBackwards() && LiveFor(f, Live()) && a == Settled(f, Live(), order)
    ensures Given(f, a) && IsSettled(f, a, order) && LeastSolution(f.Flow(), a.liveStart)
  {
    HasShape();
    SettledIs(f, Live(), order);
    ShapeFlow(f);
    forall b: nat | b < 6
      ensures LiveOut(f, a, b) == LiveEnd(b)
    {
      assert LiveOut(f, a, b) == Out(f.Flow(), Live(), b);
    }
  }

  lemma EveryBlockReached(f: Func)
    requires Shape(f)
    ensures AllReached(f)
  {
    Successors(f);
    assert f.Term(0).Succs()[0] == 5 && f.Term(0).Succs()[1] == 4;
    assert f.Term(4).Succs()[0] == 3 && f.Term(3).Succs()[0] == 2 && f.Term(2).Succs()[0] == 1;
    var r5, r4 := Then(Entry, 5), Then(Entry, 4);
    var r3 := Then(r4, 3);
    var r2 := Then(r3, 2);
    var r1 := Then(r2, 1);
    assert Entry.Along(f) && r5.Along(f) && r4.Along(f) && r3.Along(f) && r2.Along(f) && r1.Along(f);
    forall b: nat | b < 6
      ensures Reachable(f, b)
    {
      var route := if b == 0 then Entry else if b == 1 then r1 else if b == 2 then r2 else if b == 3 then r3
                   else if b == 4 then r4 else r5;
      assert route.Along(f) && route.End() == b;
    }
  }

  lemma UsesListed(f: Func)
    requires Shape(f)
    ensures forall n :: n in UsedNames(f) ==> n in [P, Q]
  {
    forall n | n in UsedNames(f)
      ensures n in [P, Q]
    {
      var b: nat, i: nat :| f.At(b, i) && n in f.blocks[b][i].Uses();
      Places(f, b, i);
      if b >= 2 { Single(f, b); }
    }
  }

  lemma RootsAndTargets(p: OwnershipTheorem.Program)
    requires Shape(p.f) && forall n :: p.root(n) == if n == Q then P else n
    ensures CopyRoots(p.f, p.root) && p.DistinctTargets()
  {
    forall b: nat, i: nat | p.f.At(b, i)
      ensures p.f.blocks[b][i].Malloc? ==> p.f.blocks[b][i] == Malloc(P)
      ensures p.f.blocks[b][i].VarStore? ==> p.f.blocks[b][i] == VarStore(Q, P)
      ensures p.f.blocks[b][i].NullBranch? ==> p.f.blocks[b][i] == NullBranch(Q, true, 5, 4)
    {
      Places(p.f, b, i);
      if b >= 2 { Single(p.f, b); }
    }
  }

  /** The generator accepts the function, although its last pass is not stable. */
  lemma IsAccepted()
    ensures LiveFor(LaidOutBackwards(), Live()) && Checked(Accepted(), Live(), [P, Q]) && Accepted().DistinctTargets()
    ensures !Stable(Accepted().f, Accepted().a)
  {
    HasShape();
    var f := LaidOutBackwards();
    ShapeFlow(f);
    var p := Accepted();
    SettledIsGiven(f, p.a, [P, Q]);
    TestFindsBoth(f, p.a, [P, Q]);
    StartsWithout(f, p.a, [P, Q]);
    FreedWithout(f, p.a, [P, Q]);
    AssignmentAccepts();
    ClausesMet(f, p.a, p.asgn);
    ShapeIsStrict(f);
    EveryBlockReached(f);
    UsesListed(f);
    RootsAndTargets(p);
    CheckedIsReady(p, Live(), [P, Q]);
    BorrowIsMissed(f, p.a, [P, Q]);
    StartsExactIffStable(f, p.a, Live(), [P, Q]);
  }

  // ----- A run of it -----

  function Start(): State { State(Execution.At(0, 0), map[], map[]) }

  function Holding(b: nat, i: nat, block: BlockState): State {
    State(Execution.At(b, i), map[P := VPtr(0), Q := VPtr(0)], map[0 := block])
  }

  lemma FirstSteps(f: Func, s: State)
    requires Shape(f) && s == State(Execution.At(0, 1), map[P := VPtr(0)], map[0 := Unfreed])
    ensures Step(f, Start(), s) && Step(f, s, Holding(0, 2, Unfreed))
    ensures Step(f, Holding(0, 2, Unfreed), Holding(0, 3, Unfreed))
    ensures Step(f, Holding(0, 3, Unfreed), Holding(4, 0, Unfreed))
  {
    assert MallocEffect(Start(), P, s) by { assert 0 !in Start().heap && s.env == Start().env[P := VPtr(0)]
           && s.heap == Start().heap[0 := Unfreed]; }
    assert Holding(0, 2, Unfreed).env == s.env[Q := Val(s, P)];
  }

  lemma LaterSteps(f: Func)
    requires Shape(f)
    ensures Step(f, Holding(4, 0, Unfreed), Holding(3, 0, Unfreed))
    ensures Step(f, Holding(3, 0, Unfreed), Holding(2, 0, Unfreed))
    ensures Step(f, Holding(2, 0, Unfreed), Holding(1, 0, Unfreed))
    ensures Step(f, Holding(1, 0, Unfreed), Holding(1, 1, Freed))
  {
    assert Holding(1, 1, Freed).heap == Holding(1, 0, Unfreed).heap[0 := Freed];
  }

  lemma StartsIt(p: OwnershipTheorem.Program)
    requires p.f.args == {}
    ensures OwnershipTheorem.EntryState(p, Start(), map[])
  {
  }

  lemma RunOfIt() returns (run: seq<State>)
    ensures Run(LaidOutBackwards(), run) && run[0] == Start() && MemoryError(LaidOutBackwards(), run[|run| - 1])
    ensures run[|run| - 1].pc == Execution.At(1, 1)
  {
    var f := LaidOutBackwards();
    HasShape();
    var s := State(Execution.At(0, 1), map[P := VPtr(0)], map[0 := Unfreed]);
    FirstSteps(f, s);
    LaterSteps(f);
    run := [Start(), s, Holding(0, 2, Unfreed), Holding(0, 3, Unfreed), Holding(4, 0, Unfreed), Holding(3, 0, Unfreed),
            Holding(2, 0, Unfreed), Holding(1, 0, Unfreed), Holding(1, 1, Freed)];
    forall k | 0 < k < |run|
      ensures Step(f, run[k - 1], run[k])
    {
      assert k == 1 || k == 2 || k == 3 || k == 4 || k == 5 || k == 6 || k == 7 || k == 8;
    }
  }

  /** Acceptance is not enough where the last pass is not stable: this function is accepted, and one of
      its runs reads through q after p has been freed. */
  lemma AcceptedUseAfterFree() returns (run: seq<State>)
    ensures LiveFor(LaidOutBackwards(), Live()) && Checked(Accepted(), Live(), [P, Q]) && Accepted().DistinctTargets()
    ensures !Stable(Accepted().f, Accepted().a)
    ensures Run(Accepted().f, run) && OwnershipTheorem.EntryState(Accepted(), run[0], map[])
    ensures MemoryError(Accepted().f, run[|run| - 1]) && run[|run| - 1].pc == Execution.At(1, 1)
  {
    IsAccepted();
    run := RunOfIt();
    StartsIt(Accepted());
  }
}
