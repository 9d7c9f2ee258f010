/** What it takes to satisfy the clauses of a function, said about the assignment itself: which atoms
    have to be true, and which have to follow from which, at every instruction, death and edge. */
module ClauseMeaning {
  import opened DataFlow
  import opened PointerIR
  import opened OwnershipClauses

  // ----- Single clauses -----

  lemma ClauseHolds(asgn: Assignment, c: Clause, l: Lit)
    requires l in c && Holds(asgn, l)
    ensures SatisfiesClause(asgn, c)
  {
  }

  lemma UnitMeans(asgn: Assignment, l: Lit)
    ensures SatisfiesClause(asgn, {l}) <==> Holds(asgn, l)
  {
    if Holds(asgn, l) { assert l in {l}; }
  }

  lemma ImpliesMeans(asgn: Assignment, x: Atom, y: Atom)
    ensures SatisfiesClause(asgn, Implies(x, y)) <==> (x in asgn ==> y in asgn)
  {
    var c := Implies(x, y);
    assert Neg(x) in c && Pos(y) in c;
    if SatisfiesClause(asgn, c) { var l :| l in c && Holds(asgn, l); assert l == Neg(x) || l == Pos(y); }
    assert x !in asgn ==> Holds(asgn, Neg(x));
    assert y in asgn ==> Holds(asgn, Pos(y));
  }

  lemma PairMeans(asgn: Assignment, k: Lit, l: Lit)
    ensures SatisfiesClause(asgn, {k, l}) <==> Holds(asgn, k) || Holds(asgn, l)
  {
    assert k in {k, l} && l in {k, l};
  }

  lemma TripleMeans(asgn: Assignment, k: Lit, l: Lit, m: Lit)
    ensures SatisfiesClause(asgn, {k, l, m}) <==> Holds(asgn, k) || Holds(asgn, l) || Holds(asgn, m)
  {
    assert k in {k, l, m} && l in {k, l, m} && m in {k, l, m};
  }

  lemma EmptyMeans(asgn: Assignment)
    ensures !SatisfiesClause(asgn, {})
  {
  }

  lemma BothMean(asgn: Assignment, x: set<Clause>, y: set<Clause>)
    ensures Satisfies(asgn, x + y) <==> Satisfies(asgn, x) && Satisfies(asgn, y)
  {
    if Satisfies(asgn, x + y) {
      forall c | c in x ensures SatisfiesClause(asgn, c) { assert c in x + y; }
      forall c | c in y ensures SatisfiesClause(asgn, c) { assert c in x + y; }
    }
  }

  // ----- Flow and deaths -----

  /** What holds of n at t holds at t'. */
  ghost predicate Carried(asgn: Assignment, n: Name, t: Point, t': Point) {
    && (Good(n, t) in asgn ==> Good(n, t') in asgn)
    && (Null(n, t) in asgn ==> Null(n, t') in asgn)
    && (Zombie(n, t) in asgn ==> Zombie(n, t') in asgn)
  }

  ghost predicate AllCarried(asgn: Assignment, names: set<Name>, t: Point, t': Point) {
    forall n :: n in names ==> Carried(asgn, n, t, t')
  }

  ghost predicate OneMet(asgn: Assignment, n: Name, t: Point, t': Point) {
    && SatisfiesClause(asgn, Implies(Good(n, t), Good(n, t')))
      && SatisfiesClause(asgn, Implies(Null(n, t), Null(n, t')))
    && SatisfiesClause(asgn, Implies(Zombie(n, t), Zombie(n, t')))
  }

  lemma CarriedMeans(asgn: Assignment, n: Name, t: Point, t': Point)
    ensures Carried(asgn, n, t, t') <==> OneMet(asgn, n, t, t')
  {
    ImpliesMeans(asgn, Good(n, t), Good(n, t'));
    ImpliesMeans(asgn, Null(n, t), Null(n, t'));
    ImpliesMeans(asgn, Zombie(n, t), Zombie(n, t'));
  }

  lemma PreserveMeans(asgn: Assignment, names: set<Name>, t: Point, t': Point)
    ensures Satisfies(asgn, Preserve(names, t, t')) <==> AllCarried(asgn, names, t, t')
  {
    var cs := Preserve(names, t, t');
    forall n | n in names
      ensures Implies(Good(n, t), Good(n, t')) in cs && Implies(Null(n, t), Null(n, t')) in cs
              && Implies(Zombie(n, t), Zombie(n, t')) in cs
    {
    }
    forall n ensures Carried(asgn, n, t, t') <==> OneMet(asgn, n, t, t') { CarriedMeans(asgn, n, t, t'); }
    if AllCarried(asgn, names, t, t') {
      forall c | c in cs
        ensures SatisfiesClause(asgn, c)
      {
        var n :| n in names
          && (c == Implies(Good(n, t), Good(n, t')) || c == Implies(Null(n, t), Null(n, t'))
              || c == Implies(Zombie(n, t), Zombie(n, t')));
        assert Carried(asgn, n, t, t');
      }
    }
  }

  ghost predicate MayDie(asgn: Assignment, n: Name, t: Point) { Responsible(n) in asgn ==> Good(n, t) !in asgn }

  ghost predicate AllMayDie(asgn: Assignment, names: set<Name>, t: Point) {
    forall n :: n in names ==> MayDie(asgn, n, t)
  }

  lemma KilledMeans(asgn: Assignment, names: set<Name>, t: Point)
    ensures Satisfies(asgn, Killed(names, t)) <==> AllMayDie(asgn, names, t)
  {
    forall n ensures SatisfiesClause(asgn, {Neg(Responsible(n)), Neg(Good(n, t))}) <==> MayDie(asgn, n, t) {
      PairMeans(asgn, Neg(Responsible(n)), Neg(Good(n, t)));
    }
    forall n | n in names ensures {Neg(Responsible(n)), Neg(Good(n, t))} in Killed(names, t) { }
  }

  // ----- Instructions -----

  /** p may be dereferenced at t. */
  ghost predicate MayDeref(asgn: Assignment, p: Name, t: Point) {
    Good(p, t) in asgn && Null(p, t) !in asgn && Zombie(p, t) !in asgn
  }

  lemma DerefMeans(asgn: Assignment, p: Name, t: Point)
    ensures Satisfies(asgn, DerefClauses(p, t)) <==> MayDeref(asgn, p, t)
  {
    UnitMeans(asgn, Neg(Null(p, t)));
    UnitMeans(asgn, Neg(Zombie(p, t)));
    UnitMeans(asgn, Pos(Good(p, t)));
    assert {Neg(Null(p, t))} in DerefClauses(p, t) && {Neg(Zombie(p, t))} in DerefClauses(p, t)
           && {Pos(Good(p, t))} in DerefClauses(p, t);
  }

  /** The value is in the same state at the other point, under the other name. */
  ghost predicate StateCopied(asgn: Assignment, s: Name, t: Point, d: Name, t': Point) {
    && (Good(s, t) in asgn ==> Good(d, t') in asgn)
    && (Null(s, t) in asgn ==> Null(d, t') in asgn)
    && (Zombie(s, t) in asgn ==> Zombie(d, t') in asgn)
  }

  lemma CopyStateMeans(asgn: Assignment, s: Name, t: Point, d: Name, t': Point)
    ensures Satisfies(asgn, CopyState(s, t, d, t')) <==> StateCopied(asgn, s, t, d, t')
  {
    ImpliesMeans(asgn, Good(s, t), Good(d, t'));
    ImpliesMeans(asgn, Null(s, t), Null(d, t'));
    ImpliesMeans(asgn, Zombie(s, t), Zombie(d, t'));
    assert Implies(Good(s, t), Good(d, t')) in CopyState(s, t, d, t')
           && Implies(Null(s, t), Null(d, t')) in CopyState(s, t, d, t')
           && Implies(Zombie(s, t), Zombie(d, t')) in CopyState(s, t, d, t');
  }

  /** A value borrowed again from the same lender is not mutable. */
  ghost predicate SecondIsNotMut(asgn: Assignment, bs: Borrows, s: Name, d: Name) {
    s != d && s != NullConst && (exists e :: e in bs && e.0 == s) ==> Mut(d) !in asgn
  }

  lemma BorrowClausesMean(asgn: Assignment, bs: Borrows, s: Name, d: Name)
    ensures Satisfies(asgn, BorrowClauses(bs, s, d)) <==> SecondIsNotMut(asgn, bs, s, d)
  {
    UnitMeans(asgn, Neg(Mut(d)));
    if Satisfies(asgn, BorrowClauses(bs, s, d)) && s != d && s != NullConst && Borrowed(bs, s) {
      assert {Neg(Mut(d))} in BorrowClauses(bs, s, d);
    }
  }

  /** Nothing may borrow from p. */
  lemma NothingLentMeans(asgn: Assignment, bs: Borrows, p: Name, cs: set<Clause>)
    requires cs == if Borrowed(bs, p) then {{}} else {}
    ensures Satisfies(asgn, cs) <==> forall e :: e in bs ==> e.0 != p
  {
    EmptyMeans(asgn);
    if e :| e in bs && e.0 == p { assert Borrowed(bs, p) && {} in cs; }
  }

  /** Allocating: the result is responsible, good or null, and not a zombie. */
  lemma MallocMeans(f: Func, live: set<Name>, bs: Borrows, d: Name, pre: Point, post: Point, asgn: Assignment)
    ensures Satisfies(asgn, InstrClauses(f, live, bs, Malloc(d), pre, post)) <==>
            && Responsible(d) in asgn && Good(d, post) in asgn && Null(d, post) in asgn && Zombie(d, post) !in asgn
            && AllCarried(asgn, live + {NullConst} - {d}, pre, post)
  {
    var own, others := MallocClauses(d, post), live + {NullConst} - {d};
    UnitMeans(asgn, Pos(Responsible(d)));
    UnitMeans(asgn, Pos(Good(d, post)));
    UnitMeans(asgn, Pos(Null(d, post)));
    UnitMeans(asgn, Neg(Zombie(d, post)));
    assert {Pos(Responsible(d))} in own && {Pos(Good(d, post))} in own && {Pos(Null(d, post))} in own
           && {Neg(Zombie(d, post))} in own;
    BothMean(asgn, own, Preserve(others, pre, post));
    PreserveMeans(asgn, others, pre, post);
  }

  /** Freeing: the pointer is responsible, no zombie, and not borrowed from; good becomes a zombie. */
  ghost predicate MayFree(asgn: Assignment, bs: Borrows, p: Name, fclose: bool, pre: Point, post: Point) {
    && Responsible(p) in asgn && Zombie(p, pre) !in asgn && (fclose ==> Null(p, pre) !in asgn)
    && (Good(p, pre) in asgn ==> Zombie(p, post) in asgn) && (Null(p, pre) in asgn ==> Null(p, post) in asgn)
    && (forall e :: e in bs ==> e.0 != p)
  }

  lemma FreeClausesMean(asgn: Assignment, bs: Borrows, p: Name, fclose: bool, pre: Point, post: Point)
    ensures Satisfies(asgn, FreeClauses(bs, p, fclose, pre, post)) <==> MayFree(asgn, bs, p, fclose, pre, post)
  {
    var base := {{Pos(Responsible(p))}, {Neg(Zombie(p, pre))}, Implies(Good(p, pre), Zombie(p, post)),
      Implies(Null(p, pre), Null(p, post))};
    var notNull: set<Clause> := if fclose then {{Neg(Null(p, pre))}} else {};
    var lent: set<Clause> := if Borrowed(bs, p) then {{}} else {};
    UnitMeans(asgn, Pos(Responsible(p)));
    UnitMeans(asgn, Neg(Zombie(p, pre)));
    UnitMeans(asgn, Neg(Null(p, pre)));
    ImpliesMeans(asgn, Good(p, pre), Zombie(p, post));
    ImpliesMeans(asgn, Null(p, pre), Null(p, post));
    assert {Pos(Responsible(p))} in base && {Neg(Zombie(p, pre))} in base
           && Implies(Good(p, pre), Zombie(p, post)) in base && Implies(Null(p, pre), Null(p, post)) in base;
    assert fclose ==> {Neg(Null(p, pre))} in notNull;
    NothingLentMeans(asgn, bs, p, lent);
    BothMean(asgn, base, notNull);
    BothMean(asgn, base + notNull, lent);
  }

  lemma FreeMeans(f: Func, live: set<Name>, bs: Borrows, p: Name, fclose: bool, pre: Point, post: Point,
                  asgn: Assignment)
    ensures Satisfies(asgn, InstrClauses(f, live, bs, Free(p, fclose), pre, post)) <==>
            && MayFree(asgn, bs, p, fclose, pre, post) && AllCarried(asgn, live + {NullConst} - {p}, pre, post)
  {
    var others := live + {NullConst} - {p};
    FreeClausesMean(asgn, bs, p, fclose, pre, post);
    BothMean(asgn, FreeClauses(bs, p, fclose, pre, post), Preserve(others, pre, post));
    PreserveMeans(asgn, others, pre, post);
  }

  /** Copying: a responsible or mutable copy needs a responsible or mutable original; a responsible copy
      takes the value over, any other borrows it. */
  ghost predicate MayCopy(asgn: Assignment, bs: Borrows, d: Name, s: Name, pre: Point, post: Point) {
    && (Responsible(d) in asgn ==> Responsible(s) in asgn) && (Mut(d) in asgn ==> Mut(s) in asgn)
    && (Zombie(s, pre) in asgn ==> Responsible(d) in asgn)
    && (Good(s, pre) in asgn ==> if Responsible(d) in asgn then Zombie(s, post) in asgn else Good(s, post) in asgn)
    && (Null(s, pre) in asgn ==> Null(s, post) in asgn) && (Zombie(s, pre) in asgn ==> Zombie(s, post) in asgn)
    && StateCopied(asgn, s, pre, d, post) && SecondIsNotMut(asgn, bs, s, d)
  }

  lemma CopyOwnMeans(asgn: Assignment, own: set<Clause>, d: Name, s: Name, pre: Point, post: Point)
    requires own == {Implies(Responsible(d), Responsible(s)), Implies(Mut(d), Mut(s)),
                     {Pos(Responsible(d)), Neg(Zombie(s, pre))},
                     {Neg(Responsible(d)), Neg(Good(s, pre)), Pos(Zombie(s, post))},
                     {Pos(Responsible(d)), Neg(Good(s, pre)), Pos(Good(s, post))},
                     Implies(Null(s, pre), Null(s, post)), Implies(Zombie(s, pre), Zombie(s, post))}
    ensures Satisfies(asgn, own) <==>
            && (Responsible(d) in asgn ==> Responsible(s) in asgn) && (Mut(d) in asgn ==> Mut(s) in asgn)
            && (Zombie(s, pre) in asgn ==> Responsible(d) in asgn)
            && (Good(s, pre) in asgn
              ==> if Responsible(d) in asgn then Zombie(s, post) in asgn else Good(s, post) in asgn)
            && (Null(s, pre) in asgn ==> Null(s, post) in asgn) && (Zombie(s, pre) in asgn ==> Zombie(s, post) in asgn)
  {
    ImpliesMeans(asgn, Responsible(d), Responsible(s));
    ImpliesMeans(asgn, Mut(d), Mut(s));
    PairMeans(asgn, Pos(Responsible(d)), Neg(Zombie(s, pre)));
    TripleMeans(asgn, Neg(Responsible(d)), Neg(Good(s, pre)), Pos(Zombie(s, post)));
    TripleMeans(asgn, Pos(Responsible(d)), Neg(Good(s, pre)), Pos(Good(s, post)));
    ImpliesMeans(asgn, Null(s, pre), Null(s, post));
    ImpliesMeans(asgn, Zombie(s, pre), Zombie(s, post));
    if Satisfies(asgn, own) {
      assert Implies(Responsible(d), Responsible(s)) in own && Implies(Mut(d), Mut(s)) in own;
      assert {Pos(Responsible(d)), Neg(Zombie(s, pre))} in own;
      assert {Neg(Responsible(d)), Neg(Good(s, pre)), Pos(Zombie(s, post))} in own;
      assert {Pos(Responsible(d)), Neg(Good(s, pre)), Pos(Good(s, post))} in own;
      assert Implies(Null(s, pre), Null(s, post)) in own && Implies(Zombie(s, pre), Zombie(s, post)) in own;
    }
  }

  lemma CopyClausesMean(asgn: Assignment, bs: Borrows, d: Name, s: Name, pre: Point, post: Point)
    ensures Satisfies(asgn, PtrCopyClauses(bs, d, s, pre, post)) <==> MayCopy(asgn, bs, d, s, pre, post)
  {
    var own: set<Clause> :=
      {Implies(Responsible(d), Responsible(s)), Implies(Mut(d), Mut(s)),
       {Pos(Responsible(d)), Neg(Zombie(s, pre))},
       {Neg(Responsible(d)), Neg(Good(s, pre)), Pos(Zombie(s, post))},
       {Pos(Responsible(d)), Neg(Good(s, pre)), Pos(Good(s, post))},
       Implies(Null(s, pre), Null(s, post)), Implies(Zombie(s, pre), Zombie(s, post))};
    CopyOwnMeans(asgn, own, d, s, pre, post);
    CopyStateMeans(asgn, s, pre, d, post);
    BorrowClausesMean(asgn, bs, s, d);
    BothMean(asgn, own, CopyState(s, pre, d, post));
    BothMean(asgn, own + CopyState(s, pre, d, post), BorrowClauses(bs, s, d));
  }

  /** A copy that is never used asks for nothing. */
  lemma CopyMeans(f: Func, live: set<Name>, bs: Borrows, d: Name, s: Name, pre: Point, post: Point, asgn: Assignment)
    ensures Satisfies(asgn, InstrClauses(f, live, bs, VarStore(d, s), pre, post)) <==>
            if f.HasUses(d)
            then MayCopy(asgn, bs, d, s, pre, post) && AllCarried(asgn, live + {NullConst} - {d, s}, pre, post)
            else AllCarried(asgn, live + {NullConst}, pre, post)
  {
    var others := live + {NullConst} - {d, s};
    CopyClausesMean(asgn, bs, d, s, pre, post);
    BothMean(asgn, PtrCopyClauses(bs, d, s, pre, post), Preserve(others, pre, post));
    PreserveMeans(asgn, others, pre, post);
    PreserveMeans(asgn, live + {NullConst}, pre, post);
  }

  lemma NoneMutMeans(asgn: Assignment, bs: Borrows, p: Name)
    ensures Satisfies(asgn, set e | e in bs && e.0 == p :: {Neg(Mut(e.1))})
            <==> forall e :: e in bs && e.0 == p ==> Mut(e.1) !in asgn
  {
    var cs := set e | e in bs && e.0 == p :: {Neg(Mut(e.1))};
    forall n ensures SatisfiesClause(asgn, {Neg(Mut(n))}) <==> Mut(n) !in asgn { UnitMeans(asgn, Neg(Mut(n))); }
    forall e | e in bs && e.0 == p ensures {Neg(Mut(e.1))} in cs { }
  }

  /** Reading: the pointer may be dereferenced, and whatever borrows from it is not mutable. */
  lemma LoadMeans(f: Func, live: set<Name>, bs: Borrows, p: Name, pre: Point, post: Point, asgn: Assignment)
    ensures Satisfies(asgn, InstrClauses(f, live, bs, Load(p), pre, post)) <==>
            && MayDeref(asgn, p, pre) && (forall e :: e in bs && e.0 == p ==> Mut(e.1) !in asgn)
            && AllCarried(asgn, live + {NullConst}, pre, post)
  {
    var lent := set e | e in bs && e.0 == p :: {Neg(Mut(e.1))};
    DerefMeans(asgn, p, pre);
    NoneMutMeans(asgn, bs, p);
    BothMean(asgn, DerefClauses(p, pre), lent);
    BothMean(asgn, DerefClauses(p, pre) + lent, Preserve(live + {NullConst}, pre, post));
    PreserveMeans(asgn, live + {NullConst}, pre, post);
  }

  /** Writing: the pointer is mutable, may be dereferenced, and nothing borrows from it. */
  lemma StoreMeans(f: Func, live: set<Name>, bs: Borrows, p: Name, pre: Point, post: Point, asgn: Assignment)
    ensures Satisfies(asgn, InstrClauses(f, live, bs, Store(p), pre, post)) <==>
            && Mut(p) in asgn && MayDeref(asgn, p, pre) && (forall e :: e in bs ==> e.0 != p)
            && AllCarried(asgn, live + {NullConst}, pre, post)
  {
    var isMut: set<Clause> := {{Pos(Mut(p))}};
    var lent: set<Clause> := if Borrowed(bs, p) then {{}} else {};
    UnitMeans(asgn, Pos(Mut(p)));
    assert {Pos(Mut(p))} in isMut;
    DerefMeans(asgn, p, pre);
    NothingLentMeans(asgn, bs, p, lent);
    BothMean(asgn, isMut, DerefClauses(p, pre));
    BothMean(asgn, isMut + DerefClauses(p, pre), lent);
    BothMean(asgn, isMut + DerefClauses(p, pre) + lent, Preserve(live + {NullConst}, pre, post));
    PreserveMeans(asgn, live + {NullConst}, pre, post);
  }

  /** Returning: `func::return` is responsible exactly like the value, mutable only if it is, and in its
      state. */
  ghost predicate MayReturn(asgn: Assignment, bs: Borrows, v: Name, pre: Point) {
    && (Responsible(v) in asgn <==> Responsible(Ret) in asgn) && (Mut(Ret) in asgn ==> Mut(v) in asgn)
    && StateCopied(asgn, v, pre, Ret, End) && SecondIsNotMut(asgn, bs, v, Ret)
  }

  lemma ReturnOwnMeans(asgn: Assignment, own: set<Clause>, v: Name)
    requires own == {Implies(Responsible(v), Responsible(Ret)), Implies(Responsible(Ret), Responsible(v)),
                     Implies(Mut(Ret), Mut(v))}
    ensures Satisfies(asgn, own) <==>
            (Responsible(v) in asgn <==> Responsible(Ret) in asgn) && (Mut(Ret) in asgn ==> Mut(v) in asgn)
  {
    ImpliesMeans(asgn, Responsible(v), Responsible(Ret));
    ImpliesMeans(asgn, Responsible(Ret), Responsible(v));
    ImpliesMeans(asgn, Mut(Ret), Mut(v));
    if Satisfies(asgn, own) {
      assert Implies(Responsible(v), Responsible(Ret)) in own && Implies(Responsible(Ret), Responsible(v)) in own
             && Implies(Mut(Ret), Mut(v)) in own;
    }
  }

  lemma ReturnClausesMean(asgn: Assignment, bs: Borrows, v: Name, pre: Point)
    ensures Satisfies(asgn, ReturnClauses(bs, v, pre)) <==> MayReturn(asgn, bs, v, pre)
  {
    var own: set<Clause> := {Implies(Responsible(v), Responsible(Ret)), Implies(Responsible(Ret), Responsible(v)),
                             Implies(Mut(Ret), Mut(v))};
    ReturnOwnMeans(asgn, own, v);
    CopyStateMeans(asgn, v, pre, Ret, End);
    BorrowClausesMean(asgn, bs, v, Ret);
    BothMean(asgn, own, CopyState(v, pre, Ret, End));
    BothMean(asgn, own + CopyState(v, pre, Ret, End), BorrowClauses(bs, v, Ret));
  }

  lemma ReturnMeans(f: Func, live: set<Name>, bs: Borrows, v: Name, pre: Point, post: Point, asgn: Assignment)
    ensures Satisfies(asgn, InstrClauses(f, live, bs, Return(v), pre, post)) <==>
            && MayReturn(asgn, bs, v, pre) && AllCarried(asgn, live + {NullConst} - {v}, pre, post)
  {
    var own, others := ReturnClauses(bs, v, pre), live + {NullConst} - {v};
    assert InstrClauses(f, live, bs, Return(v), pre, post) == own + Preserve(others, pre, post);
    ReturnClausesMean(asgn, bs, v, pre);
    PreserveMeans(asgn, others, pre, post);
    BothMean(asgn, own, Preserve(others, pre, post));
  }

  /** Any other instruction only carries on. */
  lemma OtherMeans(f: Func, live: set<Name>, bs: Borrows, inst: Instr, pre: Point, post: Point, asgn: Assignment)
    requires inst.ICmp? || inst.Jump? || inst.Branch? || inst.NullBranch? || inst.ReturnVoid?
    ensures Satisfies(asgn, InstrClauses(f, live, bs, inst, pre, post)) <==>
            AllCarried(asgn, live + {NullConst}, pre, post)
  {
    PreserveMeans(asgn, live + {NullConst}, pre, post);
  }

  /** What an instruction asks of the assignment. */
  ghost predicate InstrObeyed(f: Func, live: set<Name>, bs: Borrows, inst: Instr, pre: Point, post: Point,
                              asgn: Assignment) {
    var names := live + {NullConst};
    match inst
    case Malloc(d) =>
      && Responsible(d) in asgn && Good(d, post) in asgn && Null(d, post) in asgn && Zombie(d, post) !in asgn
      && AllCarried(asgn, names - {d}, pre, post)
    case Free(p, fclose) => MayFree(asgn, bs, p, fclose, pre, post) && AllCarried(asgn, names - {p}, pre, post)
    case VarStore(d, s) =>
      if f.HasUses(d) then MayCopy(asgn, bs, d, s, pre, post) && AllCarried(asgn, names - {d, s}, pre, post)
      else AllCarried(asgn, names, pre, post)
    case Load(p) =>
      && MayDeref(asgn, p, pre) && (forall e :: e in bs && e.0 == p ==> Mut(e.1) !in asgn)
      && AllCarried(asgn, names, pre, post)
    case Store(p) =>
      && Mut(p) in asgn && MayDeref(asgn, p, pre) && (forall e :: e in bs ==> e.0 != p)
      && AllCarried(asgn, names, pre, post)
    case Return(v) => MayReturn(asgn, bs, v, pre) && AllCarried(asgn, names - {v}, pre, post)
    case _ => AllCarried(asgn, names, pre, post)
  }

  lemma InstrMeans(f: Func, live: set<Name>, bs: Borrows, inst: Instr, pre: Point, post: Point, asgn: Assignment)
    ensures Satisfies(asgn, InstrClauses(f, live, bs, inst, pre, post)) <==>
            InstrObeyed(f, live, bs, inst, pre, post, asgn)
  {
    match inst
    case Malloc(d) => MallocMeans(f, live, bs, d, pre, post, asgn);
    case Free(p, fclose) => FreeMeans(f, live, bs, p, fclose, pre, post, asgn);
    case VarStore(d, s) => CopyMeans(f, live, bs, d, s, pre, post, asgn);
    case Load(p) => LoadMeans(f, live, bs, p, pre, post, asgn);
    case Store(p) => StoreMeans(f, live, bs, p, pre, post, asgn);
    case Return(v) => ReturnMeans(f, live, bs, v, pre, post, asgn);
    case _ => OtherMeans(f, live, bs, inst, pre, post, asgn);
  }
}
