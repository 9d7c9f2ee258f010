/** What it takes to satisfy all clauses of a function: a discipline for its instructions, the values that
    die, and its edges, in terms of the assignment, liveness, borrows and aliases. */
module FunctionMeaning {
  import opened DataFlow
  import opened PointerIR
  import opened OwnershipClauses
  import opened ClauseMeaning

  // ----- Edges -----

  /** A tested name carries over an edge only what it can be there. */
  ghost predicate CarriedAcross(asgn: Assignment, n: Name, tested: set<Name>, isNull: bool, t: Point, t': Point) {
    if n !in tested then Carried(asgn, n, t, t')
    else if isNull then Null(n, t) in asgn ==> Null(n, t') in asgn
    else (Good(n, t) in asgn ==> Good(n, t') in asgn) && (Zombie(n, t) in asgn ==> Zombie(n, t') in asgn)
  }

  function EdgeFlow(names: set<Name>, tested: set<Name>, isNil: bool, t: Point, t': Point): set<Clause> {
    Preserve(names - tested, t, t')
    + (if isNil then set n | n in names * tested :: Implies(Null(n, t), Null(n, t'))
       else (set n | n in names * tested :: Implies(Good(n, t), Good(n, t')))
            + (set n | n in names * tested :: Implies(Zombie(n, t), Zombie(n, t'))))
  }

  lemma NullFlowMeans(asgn: Assignment, names: set<Name>, t: Point, t': Point)
    ensures Satisfies(asgn, set n | n in names :: Implies(Null(n, t), Null(n, t'))) <==>
            forall n :: n in names ==> Null(n, t) in asgn ==> Null(n, t') in asgn
  {
    var cs := set n | n in names :: Implies(Null(n, t), Null(n, t'));
    forall n | n in names ensures Implies(Null(n, t), Null(n, t')) in cs { }
    forall n ensures SatisfiesClause(asgn, Implies(Null(n, t), Null(n, t')))
      <==> (Null(n, t) in asgn ==> Null(n, t') in asgn) {
      ImpliesMeans(asgn, Null(n, t), Null(n, t'));
    }
  }

  lemma GoodFlowMeans(asgn: Assignment, names: set<Name>, t: Point, t': Point)
    ensures Satisfies(asgn, set n | n in names :: Implies(Good(n, t), Good(n, t'))) <==>
            forall n :: n in names ==> Good(n, t) in asgn ==> Good(n, t') in asgn
  {
    var cs := set n | n in names :: Implies(Good(n, t), Good(n, t'));
    forall n | n in names ensures Implies(Good(n, t), Good(n, t')) in cs { }
    forall n ensures SatisfiesClause(asgn, Implies(Good(n, t), Good(n, t')))
      <==> (Good(n, t) in asgn ==> Good(n, t') in asgn) {
      ImpliesMeans(asgn, Good(n, t), Good(n, t'));
    }
  }

  lemma ZombieFlowMeans(asgn: Assignment, names: set<Name>, t: Point, t': Point)
    ensures Satisfies(asgn, set n | n in names :: Implies(Zombie(n, t), Zombie(n, t'))) <==>
            forall n :: n in names ==> Zombie(n, t) in asgn ==> Zombie(n, t') in asgn
  {
    var cs := set n | n in names :: Implies(Zombie(n, t), Zombie(n, t'));
    forall n | n in names ensures Implies(Zombie(n, t), Zombie(n, t')) in cs { }
    forall n ensures SatisfiesClause(asgn, Implies(Zombie(n, t), Zombie(n, t')))
      <==> (Zombie(n, t) in asgn ==> Zombie(n, t') in asgn) {
      ImpliesMeans(asgn, Zombie(n, t), Zombie(n, t'));
    }
  }

  lemma EdgeFlowMeans(asgn: Assignment, names: set<Name>, tested: set<Name>, isNull: bool, t: Point, t': Point)
    ensures Satisfies(asgn, EdgeFlow(names, tested, isNull, t, t')) <==>
            forall n :: n in names ==> CarriedAcross(asgn, n, tested, isNull, t, t')
  {
    var both := names * tested;
    PreserveMeans(asgn, names - tested, t, t');
    if isNull {
      NullFlowMeans(asgn, both, t, t');
      BothMean(asgn, Preserve(names - tested, t, t'), set n | n in both :: Implies(Null(n, t), Null(n, t')));
    } else {
      var goods, zombies := set n | n in both :: Implies(Good(n, t), Good(n, t')),
        set n | n in both :: Implies(Zombie(n, t), Zombie(n, t'));
      GoodFlowMeans(asgn, both, t, t');
      ZombieFlowMeans(asgn, both, t, t');
      BothMean(asgn, goods, zombies);
      BothMean(asgn, Preserve(names - tested, t, t'), goods + zombies);
    }
    assert forall n :: n in names <==> n in names - tested || n in both;
  }

  lemma EdgeIs(f: Func, a: Analysis, b: nat, j: nat, names: set<Name>, tested: set<Name>, isNull: bool)
    requires a.Sized(f) && b < |f.blocks| && j < |f.Term(b).Succs()|
    requires names == CurLive(f, a, b, |f.blocks[b]|) + {NullConst}
    requires tested == if f.Term(b).NullBranch? then a.aliases[b] else {}
    requires isNull == (f.Term(b).NullBranch? && f.Term(b).eq == (f.Term(b).Succs()[j] == f.Term(b).onTrue))
    ensures EdgeClauses(f, a, b, j) ==
            EdgeFlow(names, tested, isNull, Post(b, |f.blocks[b]| - 1), Pre(f.Term(b).Succs()[j], 0))
  {
  }

  /** Along the j-th edge out of block b everything live is carried.  Of a tested pointer and its aliases
      that is what they can be there: NULL on the edge to the first successor if the test is for
      equality, and on the other edge if not. */
  ghost predicate EdgeObeyed(f: Func, a: Analysis, asgn: Assignment, b: nat, j: nat)
    requires a.Sized(f) && b < |f.blocks| && j < |f.Term(b).Succs()|
  {
    var term, succ := f.Term(b), f.Term(b).Succs()[j];
    forall n :: n in CurLive(f, a, b, |f.blocks[b]|) + {NullConst} ==>
      CarriedAcross(asgn, n, if term.NullBranch? then a.aliases[b] else {},
        term.NullBranch? && (if term.eq then succ == term.onTrue else succ != term.onTrue),
        Post(b, |f.blocks[b]| - 1), Pre(succ, 0))
  }

  lemma EdgeMeans(f: Func, a: Analysis, asgn: Assignment, b: nat, j: nat)
    requires a.Sized(f) && b < |f.blocks| && j < |f.Term(b).Succs()|
    ensures Satisfies(asgn, EdgeClauses(f, a, b, j)) <==> EdgeObeyed(f, a, asgn, b, j)
  {
    var term, succ := f.Term(b), f.Term(b).Succs()[j];
    var names := CurLive(f, a, b, |f.blocks[b]|) + {NullConst};
    var tested := if term.NullBranch? then a.aliases[b] else {};
    var isNull := term.NullBranch? && (if term.eq then succ == term.onTrue else succ != term.onTrue);
    EdgeIs(f, a, b, j, names, tested, isNull);
    EdgeFlowMeans(asgn, names, tested, isNull, Post(b, |f.blocks[b]| - 1), Pre(succ, 0));
  }

  // ----- Deaths on entry -----

  /** n is live at the start or the end of block p. */
  ghost predicate LiveAround(f: Func, a: Analysis, p: nat, n: Name)
    requires a.Sized(f) && p < |f.blocks|
  {
    n in a.liveStart[p] || exists j :: 0 <= j < |f.Term(p).Succs()| && LiveAtSucc(f, a, p, j, n)
  }

  ghost predicate LiveAtSucc(f: Func, a: Analysis, p: nat, j: nat, n: Name)
    requires a.Sized(f) && p < |f.blocks| && j < |f.Term(p).Succs()|
  {
    f.Term(p).Succs()[j] < |f.blocks| && n in a.liveStart[f.Term(p).Succs()[j]]
  }

  /** What was live around a predecessor and is not at the start of b, and is no argument, may die there. */
  ghost predicate DeathsObeyed(f: Func, a: Analysis, asgn: Assignment, b: nat)
    requires a.Sized(f) && b < |f.blocks|
  {
    forall p: nat, n: Name {:trigger LiveAround(f, a, p, n)} ::
      p < |f.blocks| && b in f.Term(p).Succs() && LiveAround(f, a, p, n) && n !in a.liveStart[b] + f.args ==>
        MayDie(asgn, n, Pre(b, 0))
  }

  lemma LiveOutIs(f: Func, a: Analysis, p: nat, n: Name)
    requires a.Sized(f) && p < |f.blocks|
    ensures n in a.liveStart[p] + LiveOut(f, a, p) <==> LiveAround(f, a, p, n)
  {
    var fl := f.Flow();
    assert fl.succ[p] == f.Term(p).Succs();
    if n in LiveOut(f, a, p) {
      var j :| 0 <= j < |fl.succ[p]| && n in a.liveStart[fl.succ[p][j]];
      assert LiveAtSucc(f, a, p, j, n);
    }
    if j :| 0 <= j < |f.Term(p).Succs()| && LiveAtSucc(f, a, p, j, n) {
      assert n in a.liveStart[fl.succ[p][j]];
    }
  }

  lemma DeathsMean(f: Func, a: Analysis, asgn: Assignment, b: nat)
    requires a.Sized(f) && b < |f.blocks|
    ensures Satisfies(asgn, Killed(DeadAtStart(f, a, b), Pre(b, 0))) <==> DeathsObeyed(f, a, asgn, b)
  {
    KilledMeans(asgn, DeadAtStart(f, a, b), Pre(b, 0));
    forall p: nat, n: Name | p < |f.blocks| ensures n in a.liveStart[p] + LiveOut(f, a, p) <==> LiveAround(f, a, p, n) {
      LiveOutIs(f, a, p, n);
    }
    if DeathsObeyed(f, a, asgn, b) {
      forall n | n in DeadAtStart(f, a, b)
        ensures MayDie(asgn, n, Pre(b, 0))
      {
        var p :| 0 <= p < |f.blocks| && b in f.Term(p).Succs() && n in a.liveStart[p] + LiveOut(f, a, p);
        assert LiveAround(f, a, p, n);
      }
    }
  }

  // ----- One instruction in its place -----

  /** n is an operand of instruction i of block b, no argument, and not live after it. */
  ghost predicate UsedLast(f: Func, a: Analysis, b: nat, i: nat, n: Name)
    requires a.Sized(f) && f.At(b, i)
  {
    && n in f.blocks[b][i].Operands() && n != NullConst && n !in f.args
    && (n in Scan(f, a, b, i + 1) ==> n in f.blocks[b][i].Defs())
  }

  ghost predicate LastUsesObeyed(f: Func, a: Analysis, asgn: Assignment, b: nat, i: nat)
    requires a.Sized(f) && f.At(b, i)
  {
    var inst := f.blocks[b][i];
    var post := if inst.Return? || inst.ReturnVoid? then End else Post(b, i);
    && (forall n {:trigger UsedLast(f, a, b, i, n)} :: UsedLast(f, a, b, i, n) ==> MayDie(asgn, n, post))
    && (inst.Return? || inst.ReturnVoid? ==> forall n :: n in f.args ==> MayDie(asgn, n, End))
  }

  /** n is what instruction `inst` defines, if the generator takes note of it. */
  ghost predicate Defined(f: Func, inst: Instr, n: Name) {
    inst == Malloc(n) || (inst.VarStore? && inst.dest == n && f.HasUses(n))
  }

  /** The flow into instruction i: everything live, NULL, and what has just been defined. */
  ghost predicate FlowObeyed(f: Func, a: Analysis, asgn: Assignment, b: nat, i: nat)
    requires a.Sized(f) && f.At(b, i)
  {
    i > 0 ==> forall n {:trigger Carried(asgn, n, Post(b, i - 1), Pre(b, i))} ::
      n in CurLive(f, a, b, i) || n == NullConst || Defined(f, f.blocks[b][i - 1], n) ==>
        Carried(asgn, n, Post(b, i - 1), Pre(b, i))
  }

  ghost predicate PlaceObeyed(f: Func, a: Analysis, asgn: Assignment, b: nat, i: nat)
    requires a.Sized(f) && f.At(b, i)
  {
    var inst := f.blocks[b][i];
    var post := if inst.Return? || inst.ReturnVoid? then End else Post(b, i);
    && FlowObeyed(f, a, asgn, b, i)
    && InstrObeyed(f, CurLive(f, a, b, i), BorrowsAt(f, a, b, i), inst, Pre(b, i), post, asgn)
    && LastUsesObeyed(f, a, asgn, b, i)
  }

  lemma LastUsesMean(f: Func, a: Analysis, asgn: Assignment, b: nat, i: nat, atReturn: set<Clause>)
    requires a.Sized(f) && f.At(b, i)
    requires atReturn == if f.blocks[b][i].Return? || f.blocks[b][i].ReturnVoid? then Killed(f.args, End) else {}
    ensures Satisfies(asgn, Killed(LastUse(f, a, b, i), PostOf(f.blocks[b][i], b, i)) + atReturn) <==>
            LastUsesObeyed(f, a, asgn, b, i)
  {
    var inst := f.blocks[b][i];
    var post := PostOf(inst, b, i);
    KilledMeans(asgn, LastUse(f, a, b, i), post);
    KilledMeans(asgn, f.args, End);
    BothMean(asgn, Killed(LastUse(f, a, b, i), post), atReturn);
    forall n ensures n in LastUse(f, a, b, i) <==> UsedLast(f, a, b, i, n) { }
  }

  lemma FlowMeans(f: Func, a: Analysis, asgn: Assignment, b: nat, i: nat)
    requires a.Sized(f) && f.WellFormed() && f.At(b, i)
    ensures Satisfies(asgn, FlowTo(f, a, b, i)) <==> FlowObeyed(f, a, asgn, b, i)
  {
    if i > 0 {
      var prev := f.blocks[b][i - 1];
      assert f.At(b, i - 1);
      var names := CurLive(f, a, b, i) + {NullConst} + SeenAt(f, prev);
      PreserveMeans(asgn, names, Post(b, i - 1), Pre(b, i));
      forall n ensures n in SeenAt(f, prev) <==> Defined(f, prev, n) { }
    }
  }

  lemma PlaceMeans(f: Func, a: Analysis, asgn: Assignment, b: nat, i: nat)
    requires a.Sized(f) && f.WellFormed() && f.At(b, i)
    ensures Satisfies(asgn, FlowTo(f, a, b, i)) && Satisfies(asgn, VisitClauses(f, a, b, i)) <==>
            PlaceObeyed(f, a, asgn, b, i)
  {
    var inst, post := f.blocks[b][i], PostOf(f.blocks[b][i], b, i);
    var own := InstrClauses(f, CurLive(f, a, b, i), BorrowsAt(f, a, b, i), inst, Pre(b, i), post);
    var last := Killed(LastUse(f, a, b, i), post);
    var atReturn := if inst.Return? || inst.ReturnVoid? then Killed(f.args, End) else {};
    FlowMeans(f, a, asgn, b, i);
    InstrMeans(f, CurLive(f, a, b, i), BorrowsAt(f, a, b, i), inst, Pre(b, i), post, asgn);
    LastUsesMean(f, a, asgn, b, i, atReturn);
    BothMean(asgn, own, last + atReturn);
    assert VisitClauses(f, a, b, i) == own + (last + atReturn);
  }

  // ----- The whole function -----

  /** A name that the generator meets: an argument, the result of a malloc or of a copy that is used, or
      what is returned. */
  ghost predicate Met(f: Func, n: Name) { n in f.args || exists b: nat, i: nat :: MetAt(f, b, i, n) }

  ghost predicate MetAt(f: Func, b: nat, i: nat, n: Name) {
    f.At(b, i) && (Defined(f, f.blocks[b][i], n) || (f.blocks[b][i].Return? && n == Ret))
  }

  ghost predicate BlockObeyed(f: Func, a: Analysis, asgn: Assignment, b: nat)
    requires a.Sized(f) && b < |f.blocks|
  {
    && DeathsObeyed(f, a, asgn, b)
    && (forall i: nat :: i < |f.blocks[b]| ==> PlaceObeyed(f, a, asgn, b, i))
    && (forall j: nat :: j < |f.Term(b).Succs()| ==> EdgeObeyed(f, a, asgn, b, j))
  }

  /** The discipline of a whole function. */
  ghost predicate Obeyed(f: Func, a: Analysis, asgn: Assignment)
    requires a.Sized(f)
  {
    && Null(NullConst, Pre(0, 0)) in asgn && Good(NullConst, Pre(0, 0)) !in asgn
      && Zombie(NullConst, Pre(0, 0)) !in asgn
    && (forall n :: Met(f, n) && n != NullConst && Responsible(n) in asgn ==> Mut(n) in asgn)
    && (forall b: nat :: b < |f.blocks| ==> BlockObeyed(f, a, asgn, b))
  }

  lemma EntryMeans(asgn: Assignment)
    ensures Satisfies(asgn, EntryClauses()) <==>
            Null(NullConst, Pre(0, 0)) in asgn && Good(NullConst, Pre(0, 0)) !in asgn
              && Zombie(NullConst, Pre(0, 0)) !in asgn
  {
    UnitMeans(asgn, Pos(Null(NullConst, Pre(0, 0))));
    UnitMeans(asgn, Neg(Good(NullConst, Pre(0, 0))));
    UnitMeans(asgn, Neg(Zombie(NullConst, Pre(0, 0))));
    assert {Pos(Null(NullConst, Pre(0, 0)))} in EntryClauses() && {Neg(Good(NullConst, Pre(0, 0)))} in EntryClauses()
           && {Neg(Zombie(NullConst, Pre(0, 0)))} in EntryClauses();
  }

  lemma MutMeans(asgn: Assignment, names: set<Name>)
    ensures Satisfies(asgn, MutClauses(names)) <==>
            forall n :: n in names && n != NullConst && Responsible(n) in asgn ==> Mut(n) in asgn
  {
    forall n ensures SatisfiesClause(asgn, Implies(Responsible(n), Mut(n)))
      <==> (Responsible(n) in asgn ==> Mut(n) in asgn) {
      ImpliesMeans(asgn, Responsible(n), Mut(n));
    }
    forall n | n in names && n != NullConst ensures Implies(Responsible(n), Mut(n)) in MutClauses(names) { }
  }

  lemma SeenIsMet(f: Func, n: Name)
    ensures n in Seen(f) <==> n == NullConst || Met(f, n)
  {
    forall b: nat, i: nat | f.At(b, i)
      ensures n in SeenAt(f, f.blocks[b][i]) <==> MetAt(f, b, i, n)
    {
    }
    if n in Seen(f) && n !in f.args && n != NullConst {
      var b, i :| 0 <= b < |f.blocks| && 0 <= i < |f.blocks[b]| && n in SeenAt(f, f.blocks[b][i]);
      assert MetAt(f, b, i, n);
    }
  }

  lemma MetMean(f: Func, asgn: Assignment)
    ensures Satisfies(asgn, MutClauses(Seen(f))) <==>
            forall n :: Met(f, n) && n != NullConst && Responsible(n) in asgn ==> Mut(n) in asgn
  {
    MutMeans(asgn, Seen(f));
    forall n ensures n in Seen(f) <==> n == NullConst || Met(f, n) { SeenIsMet(f, n); }
  }

  // ----- Parts and whole -----

  ghost predicate InstrIsMet(f: Func, a: Analysis, asgn: Assignment, b: nat, i: nat)
    requires a.Sized(f) && f.At(b, i)
  {
    Satisfies(asgn, FlowTo(f, a, b, i)) && Satisfies(asgn, VisitClauses(f, a, b, i))
  }

  ghost predicate EdgeIsMet(f: Func, a: Analysis, asgn: Assignment, b: nat, j: nat)
    requires a.Sized(f) && b < |f.blocks| && j < |f.Term(b).Succs()|
  {
    Satisfies(asgn, EdgeClauses(f, a, b, j))
  }

  ghost predicate BlockIsMet(f: Func, a: Analysis, asgn: Assignment, b: nat)
    requires a.Sized(f) && b < |f.blocks|
  {
    && Satisfies(asgn, Killed(DeadAtStart(f, a, b), Pre(b, 0)))
    && (forall i: nat :: i < |f.blocks[b]| ==> InstrIsMet(f, a, asgn, b, i))
    && (forall j: nat :: j < |f.Term(b).Succs()| ==> EdgeIsMet(f, a, asgn, b, j))
  }

  lemma {:induction false} UnionHolds(asgn: Assignment, parts: seq<set<Clause>>, n: nat)
    requires n <= |parts| && forall i :: 0 <= i < n ==> Satisfies(asgn, parts[i])
    ensures Satisfies(asgn, Union(parts, n))
    decreases n
  {
    if n > 0 {
      UnionHolds(asgn, parts, n - 1);
      BothMean(asgn, Union(parts, n - 1), parts[n - 1]);
    }
  }

  lemma {:induction false} EdgesHold(f: Func, a: Analysis, asgn: Assignment, b: nat, j: nat)
    requires a.Sized(f) && b < |f.blocks| && j <= |f.Term(b).Succs()|
    requires forall k: nat {:trigger EdgeIsMet(f, a, asgn, b, k)} :: k < j ==> EdgeIsMet(f, a, asgn, b, k)
    ensures Satisfies(asgn, EdgesUpTo(f, a, b, j))
    decreases j
  {
    if j > 0 {
      EdgesHold(f, a, asgn, b, j - 1);
      assert EdgeIsMet(f, a, asgn, b, j - 1);
      BothMean(asgn, EdgesUpTo(f, a, b, j - 1), EdgeClauses(f, a, b, j - 1));
    }
  }

  lemma BlockHolds(f: Func, a: Analysis, asgn: Assignment, b: nat)
    requires a.Sized(f) && b < |f.blocks| && BlockIsMet(f, a, asgn, b)
    ensures Satisfies(asgn, BlockClauses(f, a, b))
  {
    var parts, dead := InstrParts(f, a, b), Killed(DeadAtStart(f, a, b), Pre(b, 0));
    forall i | 0 <= i < |parts|
      ensures Satisfies(asgn, parts[i])
    {
      assert InstrIsMet(f, a, asgn, b, i);
      BothMean(asgn, FlowTo(f, a, b, i), VisitClauses(f, a, b, i));
    }
    UnionHolds(asgn, parts, |parts|);
    EdgesHold(f, a, asgn, b, |f.Term(b).Succs()|);
    BothMean(asgn, dead, Union(parts, |parts|));
    BothMean(asgn, dead + Union(parts, |parts|), EdgesUpTo(f, a, b, |f.Term(b).Succs()|));
  }

  /** All clauses of a function hold if those of every block do. */
  lemma AllMet(f: Func, a: Analysis, asgn: Assignment)
    requires a.Sized(f) && forall b: nat :: b < |f.blocks| ==> BlockIsMet(f, a, asgn, b)
    requires Satisfies(asgn, EntryClauses()) && Satisfies(asgn, MutClauses(Seen(f)))
    ensures Satisfies(asgn, AllClauses(f, a))
  {
    var parts := BlockParts(f, a);
    forall b | 0 <= b < |parts|
      ensures Satisfies(asgn, parts[b])
    {
      assert BlockIsMet(f, a, asgn, b);
      BlockHolds(f, a, asgn, b);
    }
    UnionHolds(asgn, parts, |parts|);
    BothMean(asgn, EntryClauses(), BlocksUpTo(f, a, |f.blocks|));
    BothMean(asgn, EntryClauses() + BlocksUpTo(f, a, |f.blocks|), MutClauses(Seen(f)));
  }

  lemma PartsAreMet(f: Func, a: Analysis, asgn: Assignment, b: nat)
    requires a.Sized(f) && b < |f.blocks| && Satisfies(asgn, AllClauses(f, a))
    ensures BlockIsMet(f, a, asgn, b)
  {
    InstrIsWritten(f, a, b, 0);
    forall i: nat | i < |f.blocks[b]| ensures InstrIsMet(f, a, asgn, b, i) { InstrIsWritten(f, a, b, i); }
    forall j: nat | j < |f.Term(b).Succs()| ensures EdgeIsMet(f, a, asgn, b, j) { EdgeIsWritten(f, a, b, j); }
  }

  lemma WholeIsMet(f: Func, a: Analysis, asgn: Assignment)
    requires a.Sized(f)
    ensures Satisfies(asgn, AllClauses(f, a)) <==>
            && (forall b: nat :: b < |f.blocks| ==> BlockIsMet(f, a, asgn, b))
            && Satisfies(asgn, EntryClauses()) && Satisfies(asgn, MutClauses(Seen(f)))
  {
    if Satisfies(asgn, AllClauses(f, a)) {
      forall b: nat | b < |f.blocks| ensures BlockIsMet(f, a, asgn, b) { PartsAreMet(f, a, asgn, b); }
      BothMean(asgn, EntryClauses() + BlocksUpTo(f, a, |f.blocks|), MutClauses(Seen(f)));
      BothMean(asgn, EntryClauses(), BlocksUpTo(f, a, |f.blocks|));
    } else if (forall b: nat :: b < |f.blocks| ==> BlockIsMet(f, a, asgn, b)) && Satisfies(asgn, EntryClauses())
              && Satisfies(asgn, MutClauses(Seen(f))) {
      AllMet(f, a, asgn);
    }
  }

  lemma BlockMeans(f: Func, a: Analysis, asgn: Assignment, b: nat)
    requires a.Sized(f) && f.WellFormed() && b < |f.blocks|
    ensures BlockIsMet(f, a, asgn, b) <==> BlockObeyed(f, a, asgn, b)
  {
    DeathsMean(f, a, asgn, b);
    forall i: nat | i < |f.blocks[b]| ensures InstrIsMet(f, a, asgn, b, i) <==> PlaceObeyed(f, a, asgn, b, i) {
      PlaceMeans(f, a, asgn, b, i);
    }
    forall j: nat | j < |f.Term(b).Succs()| ensures EdgeIsMet(f, a, asgn, b, j) <==> EdgeObeyed(f, a, asgn, b, j) {
      EdgeMeans(f, a, asgn, b, j);
    }
  }

  lemma BlocksMean(f: Func, a: Analysis, asgn: Assignment)
    requires a.Sized(f) && f.WellFormed()
    ensures (forall b: nat :: b < |f.blocks| ==> BlockIsMet(f, a, asgn, b)) <==>
            (forall b: nat :: b < |f.blocks| ==> BlockObeyed(f, a, asgn, b))
  {
    forall b: nat | b < |f.blocks| ensures BlockIsMet(f, a, asgn, b) <==> BlockObeyed(f, a, asgn, b) {
      BlockMeans(f, a, asgn, b);
    }
  }

  /** An assignment satisfies the clauses of a function if and only if it obeys the discipline. */
  lemma ClausesMean(f: Func, a: Analysis, asgn: Assignment)
    requires a.Sized(f) && f.WellFormed()
    ensures Satisfies(asgn, AllClauses(f, a)) <==> Obeyed(f, a, asgn)
  {
    WholeIsMet(f, a, asgn);
    EntryMeans(asgn);
    MetMean(f, asgn);
    BlocksMean(f, a, asgn);
  }
}
