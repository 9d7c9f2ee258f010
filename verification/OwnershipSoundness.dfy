/** Soundness of the ownership clauses: whatever assignment satisfies them, no run of the function
    commits a memory error or leaks, and pointer states stay within what the assignment allows. */
module OwnershipSoundness {
  import opened DataFlow
  import opened PointerIR
  import opened OwnershipClauses
  import opened Execution
  import opened LiveFacts
  import opened CopyValues

  // ----- Using clauses -----

  lemma Unit(asgn: Assignment, cs: set<Clause>, l: Lit)
    requires Satisfies(asgn, cs) && {l} in cs
    ensures Holds(asgn, l)
  {
    assert SatisfiesClause(asgn, {l});
  }

  lemma Follow(asgn: Assignment, cs: set<Clause>, x: Atom, y: Atom)
    requires Satisfies(asgn, cs) && Implies(x, y) in cs && x in asgn
    ensures y in asgn
  {
    assert SatisfiesClause(asgn, Implies(x, y));
  }

  lemma NotBoth(asgn: Assignment, cs: set<Clause>, x: Atom, y: Atom)
    requires Satisfies(asgn, cs) && {Neg(x), Neg(y)} in cs && x in asgn
    ensures y !in asgn
  {
    assert SatisfiesClause(asgn, {Neg(x), Neg(y)});
  }

  lemma Follow2(asgn: Assignment, cs: set<Clause>, x: Lit, y: Lit, z: Lit)
    requires Satisfies(asgn, cs) && {x, y, z} in cs && !Holds(asgn, x) && !Holds(asgn, y)
    ensures Holds(asgn, z)
  {
    assert SatisfiesClause(asgn, {x, y, z});
  }

  lemma NoFalse(asgn: Assignment, cs: set<Clause>)
    requires Satisfies(asgn, cs)
    ensures {} !in cs
  {
  }

  lemma Parts(asgn: Assignment, xs: set<Clause>, ys: set<Clause>)
    requires Satisfies(asgn, xs + ys)
    ensures Satisfies(asgn, xs) && Satisfies(asgn, ys)
  {
  }

  // ----- Pointer states -----

  datatype Status = SGood | SNull | SZombie

  function StatusAtom(st: Status, n: Name, t: Point): Atom {
    match st
    case SGood => Good(n, t)
    case SNull => Null(n, t)
    case SZombie => Zombie(n, t)
  }

  type Ghosts = map<Name, Status>

  function St(g: Ghosts, n: Name): Status {
    if n == NullConst then SNull else if n in g then g[n] else SZombie
  }

  /** The state changes an instruction makes, given which names the assignment makes responsible. */
  ghost function Updated(f: Func, asgn: Assignment, inst: Instr, s': State, g: Ghosts): Ghosts {
    match inst
    case Malloc(d) => g[d := if Val(s', d) == VNull then SNull else SGood]
    case Free(p, _) => if St(g, p) == SGood then g[p := SZombie] else g
    case VarStore(d, src) => if f.HasUses(d) then CopyStatus(asgn, g, d, src) else g[d := SZombie]
    case _ => g
  }

  /** Copying from a good name into a responsible one leaves the source a zombie. */
  ghost function CopyStatus(asgn: Assignment, g: Ghosts, d: Name, src: Name): Ghosts {
    if Responsible(d) in asgn && St(g, src) == SGood then g[src := SZombie][d := SGood] else g[d := St(g, src)]
  }

  // ----- Chains of borrows -----

  ghost predicate Chain(bs: Borrows, p: seq<Name>) {
    |p| > 0 && forall k :: 0 <= k < |p| - 1 ==> (p[k], p[k + 1]) in bs
  }

  ghost predicate Reaches(bs: Borrows, o: Name, n: Name) {
    exists p :: Chain(bs, p) && p[0] == o && p[|p| - 1] == n
  }

  lemma ReachesEdge(bs: Borrows, o: Name, n: Name, d: Name)
    requires Reaches(bs, o, n) && (n, d) in bs
    ensures Reaches(bs, o, d)
  {
    var p :| Chain(bs, p) && p[0] == o && p[|p| - 1] == n;
    var q := p + [d];
    assert Chain(bs, q) && q[0] == o && q[|q| - 1] == d;
  }

  lemma ReachesOneStep(bs: Borrows, o: Name, d: Name)
    requires (o, d) in bs
    ensures Reaches(bs, o, d)
  {
    var q := [o, d];
    assert Chain(bs, q) && q[0] == o && q[|q| - 1] == d;
  }

  lemma ReachesMonotone(bs: Borrows, bs': Borrows, o: Name, n: Name)
    requires bs <= bs' && Reaches(bs, o, n)
    ensures Reaches(bs', o, n)
  {
    var p :| Chain(bs, p) && p[0] == o && p[|p| - 1] == n;
    assert Chain(bs', p);
  }

  lemma ReachesFirst(bs: Borrows, o: Name, n: Name)
    requires Reaches(bs, o, n) && o != n
    ensures Borrowed(bs, o)
  {
    var p :| Chain(bs, p) && p[0] == o && p[|p| - 1] == n;
    assert (p[0], p[1]) in bs && (p[0], p[1]).0 == o;
  }

  lemma Prepend(bs: Borrows, o: Name, p: seq<Name>)
    requires Chain(bs, p) && (o, p[0]) in bs
    ensures Reaches(bs, o, p[|p| - 1])
  {
    var q := [o] + p;
    assert Chain(bs, q) && q[0] == o && q[|q| - 1] == p[|p| - 1];
  }

  /** Splicing out a dead value keeps every chain between two other values. */
  lemma {:induction false} ChainSurvivesKill(bs: Borrows, p: seq<Name>, x: Name)
    requires Chain(bs, p) && p[0] != x && p[|p| - 1] != x
    ensures Reaches(KillBorrows(bs, x), p[0], p[|p| - 1])
    decreases |p|
  {
    var after := KillBorrows(bs, x);
    if |p| == 1 {
      assert Chain(after, p);
    } else if p[1] != x {
      ChainSurvivesKill(bs, p[1..], x);
      var q :| Chain(after, q) && q[0] == p[1] && q[|q| - 1] == p[|p| - 1];
      assert (p[0], p[1]) in bs;
      Prepend(after, p[0], q);
    } else {
      assert (p[0], p[1]) in bs && (p[1], p[2]) in bs;
      if p[2] == x {
        var shorter := [p[0]] + p[2..];
        assert forall k :: 0 < k < |shorter| - 1 ==> (shorter[k], shorter[k + 1]) == (p[k + 1], p[k + 2]);
        ChainSurvivesKill(bs, shorter, x);
      } else {
        ChainSurvivesKill(bs, p[2..], x);
        var q :| Chain(after, q) && q[0] == p[2] && q[|q| - 1] == p[|p| - 1];
        if p[0] != p[2] {
          var e, e' := (p[0], p[1]), (p[1], p[2]);
          assert e in bs && e' in bs && e.1 == x && e'.0 == x && e.0 != e'.1;
          Prepend(after, p[0], q);
        }
      }
    }
  }

  lemma ReachesAfterKill(bs: Borrows, x: Name, o: Name, n: Name)
    requires Reaches(bs, o, n) && o != x && n != x
    ensures Reaches(KillBorrows(bs, x), o, n)
  {
    var p :| Chain(bs, p) && p[0] == o && p[|p| - 1] == n;
    ChainSurvivesKill(bs, p, x);
  }

  // ----- The ownership invariant at a program point -----

  ghost predicate Owner(asgn: Assignment, s: State, g: Ghosts, n: Name, addr: nat) {
    n.Local? && Responsible(n) in asgn && St(g, n) == SGood && Val(s, n) == VPtr(addr)
  }

  /** The state of every live name is one the assignment allows at the point. */
  ghost predicate Covered(asgn: Assignment, live: set<Name>, t: Point, g: Ghosts) {
    && Null(NullConst, t) in asgn
    && forall n :: n in live ==> StatusAtom(St(g, n), n, t) in asgn
  }

  /** A live name has state null exactly when its value is NULL. */
  ghost predicate NullsAgree(live: set<Name>, s: State, g: Ghosts) {
    forall n :: n in live ==> (St(g, n) == SNull <==> Val(s, n) == VNull)
  }

  /** A good responsible name holds an unfreed block, and is live or an argument. */
  ghost predicate GoodOwners(f: Func, asgn: Assignment, live: set<Name>, s: State, g: Ghosts) {
    forall n: Name :: n.Local? && Responsible(n) in asgn && St(g, n) == SGood ==>
      && n in live + f.args
      && Val(s, n).VPtr? && Val(s, n).addr in s.heap && s.heap[Val(s, n).addr] == Unfreed
  }

  ghost predicate OneOwner(asgn: Assignment, s: State, g: Ghosts) {
    && (forall a, n, m :: Owner(asgn, s, g, n, a) && Owner(asgn, s, g, m, a) ==> n == m)
    && (forall a :: a in s.heap && s.heap[a] == Unfreed ==> exists n :: Owner(asgn, s, g, n, a))
  }

  /** A live good name without responsibility points into a block of the caller, or to an unfreed
      block from whose owner it borrows, directly or through a chain. */
  ghost predicate SafeBorrows(asgn: Assignment, live: set<Name>, bs: Borrows, s: State, g: Ghosts) {
    forall n :: n in live && Responsible(n) !in asgn && St(g, n) == SGood ==> SafeBorrow(asgn, bs, s, g, n)
  }

  ghost predicate SafeBorrow(asgn: Assignment, bs: Borrows, s: State, g: Ghosts, n: Name) {
    && Val(s, n).VPtr? && Val(s, n).addr in s.heap
    && (|| s.heap[Val(s, n).addr] == Foreign
        || (&& s.heap[Val(s, n).addr] == Unfreed
            && exists o :: Owner(asgn, s, g, o, Val(s, n).addr) && Reaches(bs, o, n)))
  }

  ghost predicate Own(f: Func, asgn: Assignment, live: set<Name>, t: Point, bs: Borrows, s: State, g: Ghosts) {
    && (forall n :: n in live ==> n.Local?)
    && Covered(asgn, live, t, g)
    && NullsAgree(live, s, g)
    && GoodOwners(f, asgn, live, s, g)
    && OneOwner(asgn, s, g)
    && SafeBorrows(asgn, live, bs, s, g)
  }

  // ----- Moving between points -----

  lemma PreserveOne(asgn: Assignment, names: set<Name>, t: Point, t': Point, n: Name, st: Status)
    requires Satisfies(asgn, Preserve(names, t, t')) && n in names && StatusAtom(st, n, t) in asgn
    ensures StatusAtom(st, n, t') in asgn
  {
    Follow(asgn, Preserve(names, t, t'), StatusAtom(st, n, t), StatusAtom(st, n, t'));
  }

  /** Flow and preservation clauses carry the invariant to the next point. */
  lemma OwnFlows(f: Func, asgn: Assignment, live: set<Name>, names: set<Name>, t: Point, t': Point,
                 bs: Borrows, s: State, g: Ghosts)
    requires Own(f, asgn, live, t, bs, s, g)
    requires live + {NullConst} <= names && Satisfies(asgn, Preserve(names, t, t'))
    ensures Own(f, asgn, live, t', bs, s, g)
  {
    PreserveOne(asgn, names, t, t', NullConst, SNull);
    forall n | n in live
      ensures StatusAtom(St(g, n), n, t') in asgn
    {
      PreserveOne(asgn, names, t, t', n, St(g, n));
    }
  }

  /** Values that die are not good owners, so nothing is lost when they leave the live set. */
  lemma OwnKills(f: Func, asgn: Assignment, live: set<Name>, live': set<Name>, dead: set<Name>, t: Point,
                 bs: Borrows, s: State, g: Ghosts)
    requires Own(f, asgn, live, t, bs, s, g) && live' <= live <= live' + dead + f.args
    requires Satisfies(asgn, Killed(dead, t))
    ensures Own(f, asgn, live', t, bs, s, g)
  {
    forall n: Name | n.Local? && Responsible(n) in asgn && St(g, n) == SGood
      ensures n in live' + f.args
    {
      if n !in live' + f.args {
        assert {Neg(Responsible(n)), Neg(Good(n, t))} in Killed(dead, t);
        NotBoth(asgn, Killed(dead, t), Responsible(n), Good(n, t));
      }
    }
  }

  /** Splicing out a value that is neither live nor an argument. */
  lemma OwnSplices(f: Func, asgn: Assignment, live: set<Name>, t: Point, bs: Borrows, s: State, g: Ghosts, x: Name)
    requires Own(f, asgn, live, t, bs, s, g) && x !in live + f.args
    ensures Own(f, asgn, live, t, KillBorrows(bs, x), s, g)
  {
    forall n | n in live && Responsible(n) !in asgn && St(g, n) == SGood
      ensures SafeBorrow(asgn, KillBorrows(bs, x), s, g, n)
    {
      assert SafeBorrow(asgn, bs, s, g, n);
      if s.heap[Val(s, n).addr] != Foreign {
        var o :| Owner(asgn, s, g, o, Val(s, n).addr) && Reaches(bs, o, n);
        ReachesAfterKill(bs, x, o, n);
      }
    }
  }

  lemma {:induction false} OwnSplicesAll(f: Func, asgn: Assignment, live: set<Name>, t: Point, bs: Borrows, s: State,
                                         g: Ghosts, xs: seq<Name>)
    requires Own(f, asgn, live, t, bs, s, g) && forall x :: x in xs ==> x !in live + f.args
    ensures Own(f, asgn, live, t, KillInOrder(bs, xs), s, g)
    decreases |xs|
  {
    if xs != [] {
      OwnSplices(f, asgn, live, t, bs, s, g, xs[0]);
      OwnSplicesAll(f, asgn, live, t, KillBorrows(bs, xs[0]), s, g, xs[1..]);
    }
  }

  lemma OwnMoreBorrows(f: Func, asgn: Assignment, live: set<Name>, t: Point, bs: Borrows, bs': Borrows, s: State,
                       g: Ghosts)
    requires Own(f, asgn, live, t, bs, s, g) && bs <= bs'
    ensures Own(f, asgn, live, t, bs', s, g)
  {
    forall n | n in live && Responsible(n) !in asgn && St(g, n) == SGood
      ensures SafeBorrow(asgn, bs', s, g, n)
    {
      assert SafeBorrow(asgn, bs, s, g, n);
      if s.heap[Val(s, n).addr] != Foreign {
        var o :| Owner(asgn, s, g, o, Val(s, n).addr) && Reaches(bs, o, n);
        ReachesMonotone(bs, bs', o, n);
      }
    }
  }

  // ----- Effect of each kind of instruction -----

  /** Coverage after an instruction: names not named in it are preserved. */
  lemma CoveredAfter(asgn: Assignment, live: set<Name>, touched: set<Name>, t: Point, t': Point, g: Ghosts, g': Ghosts)
    requires Covered(asgn, live, t, g)
    requires Satisfies(asgn, Preserve(live + {NullConst} - touched, t, t'))
    requires forall n :: n in live && n !in touched ==> St(g', n) == St(g, n)
    requires NullConst in touched ==> Null(NullConst, t') in asgn
    requires forall n :: n in live && n in touched ==> StatusAtom(St(g', n), n, t') in asgn
    ensures Covered(asgn, live, t', g')
  {
    var names := live + {NullConst} - touched;
    if NullConst !in touched { PreserveOne(asgn, names, t, t', NullConst, SNull); }
    forall n | n in live && n !in touched
      ensures StatusAtom(St(g', n), n, t') in asgn
    {
      PreserveOne(asgn, names, t, t', n, St(g, n));
    }
  }

  /** Borrows stay safe as long as every owner with borrowers keeps its block. */
  lemma BorrowsKept(asgn: Assignment, live: set<Name>, bs: Borrows, s: State, g: Ghosts,
                    live': set<Name>, bs': Borrows, s': State, g': Ghosts)
    requires SafeBorrows(asgn, live, bs, s, g) && bs <= bs'
    requires forall n :: n in live' && Responsible(n) !in asgn && St(g', n) == SGood ==>
               n in live && St(g, n) == SGood && Val(s', n) == Val(s, n)
    requires forall o, a :: Owner(asgn, s, g, o, a) && Borrowed(bs, o) ==> Owner(asgn, s', g', o, a)
    requires forall a :: a in s.heap && s.heap[a] == Foreign ==> a in s'.heap && s'.heap[a] == Foreign
    requires GoodHeap(asgn, s', g')
    ensures SafeBorrows(asgn, live', bs', s', g')
  {
    forall n | n in live' && Responsible(n) !in asgn && St(g', n) == SGood
      ensures SafeBorrow(asgn, bs', s', g', n)
    {
      assert SafeBorrow(asgn, bs, s, g, n);
      if s.heap[Val(s, n).addr] != Foreign {
        var o :| Owner(asgn, s, g, o, Val(s, n).addr) && Reaches(bs, o, n);
        ReachesFirst(bs, o, n);
        ReachesMonotone(bs, bs', o, n);
        assert Owner(asgn, s', g', o, Val(s', n).addr);
      }
    }
  }

  /** What every owner holds is an unfreed block. */
  ghost predicate GoodHeap(asgn: Assignment, s: State, g: Ghosts) {
    forall n, a :: Owner(asgn, s, g, n, a) ==> a in s.heap && s.heap[a] == Unfreed
  }

  lemma AfterMalloc(f: Func, asgn: Assignment, live: set<Name>, pre: Point, post: Point, bs: Borrows,
                    s: State, s': State, g: Ghosts, d: Name)
    requires Own(f, asgn, live, pre, bs, s, g) && d.Local? && d !in live + f.args && MallocEffect(s, d, s')
    requires Satisfies(asgn, MallocClauses(d, post) + Preserve(live + {NullConst} - {d}, pre, post))
    ensures Own(f, asgn, live + {d}, post, bs, s', g[d := if Val(s', d) == VNull then SNull else SGood])
  {
    var g' := g[d := if Val(s', d) == VNull then SNull else SGood];
    var cs := MallocClauses(d, post);
    Parts(asgn, cs, Preserve(live + {NullConst} - {d}, pre, post));
    CoveredAfter(asgn, live, {d}, pre, post, g, g');
    Unit(asgn, cs, Pos(Responsible(d)));
    Unit(asgn, cs, Pos(Good(d, post)));
    Unit(asgn, cs, Pos(Null(d, post)));
    MallocOwners(f, asgn, live, s, s', g, g', d);
    BorrowsKept(asgn, live, bs, s, g, live + {d}, bs, s', g');
  }

  lemma MallocOwners(f: Func, asgn: Assignment, live: set<Name>, s: State, s': State, g: Ghosts, g': Ghosts, d: Name)
    requires GoodOwners(f, asgn, live, s, g) && OneOwner(asgn, s, g)
    requires d.Local? && d !in live + f.args && MallocEffect(s, d, s') && Responsible(d) in asgn
    requires g' == g[d := if Val(s', d) == VNull then SNull else SGood]
    ensures GoodOwners(f, asgn, live + {d}, s', g') && OneOwner(asgn, s', g') && GoodHeap(asgn, s', g')
    ensures forall n, a :: Owner(asgn, s, g, n, a) ==> Owner(asgn, s', g', n, a)
  {
    forall n, a | Owner(asgn, s, g, n, a)
      ensures n != d && a in s.heap && s'.heap[a] == Unfreed && Owner(asgn, s', g', n, a)
    {
    }
    forall n, a | Owner(asgn, s', g', n, a) && n != d
      ensures Owner(asgn, s, g, n, a)
    {
    }
    forall a | a in s'.heap && s'.heap[a] == Unfreed
      ensures exists n :: Owner(asgn, s', g', n, a)
    {
      if a in s.heap && s.heap[a] == Unfreed {
        var n :| Owner(asgn, s, g, n, a);
        assert Owner(asgn, s', g', n, a);
      } else {
        assert Owner(asgn, s', g', d, a);
      }
    }
    forall n: Name | n.Local? && Responsible(n) in asgn && St(g', n) == SGood && n != d
      ensures n in live + f.args && Val(s', n).VPtr? && Val(s', n).addr in s'.heap
              && s'.heap[Val(s', n).addr] == Unfreed
    {
      assert Owner(asgn, s, g, n, Val(s, n).addr);
    }
  }

  lemma AfterFree(f: Func, asgn: Assignment, live: set<Name>, pre: Point, post: Point, bs: Borrows,
                  s: State, g: Ghosts, p: Name, fclose: bool, pc: Pc)
    requires Own(f, asgn, live, pre, bs, s, g) && p in live + {NullConst}
    requires Satisfies(asgn, FreeClauses(bs, p, fclose, pre, post) + Preserve(live + {NullConst} - {p}, pre, post))
    ensures Own(f, asgn, live, post, bs, State(pc, s.env, FreeEffect(s, p)), if St(g, p) == SGood then g[p := SZombie]
            else g)
    ensures Val(s, p).VPtr? ==> Val(s, p).addr in s.heap && s.heap[Val(s, p).addr] == Unfreed
    ensures fclose ==> Val(s, p) != VNull
  {
    var s' := State(pc, s.env, FreeEffect(s, p));
    var g' := if St(g, p) == SGood then g[p := SZombie] else g;
    var cs := FreeClauses(bs, p, fclose, pre, post);
    Parts(asgn, cs, Preserve(live + {NullConst} - {p}, pre, post));
    Unit(asgn, cs, Pos(Responsible(p)));
    Unit(asgn, cs, Neg(Zombie(p, pre)));
    if fclose { Unit(asgn, cs, Neg(Null(p, pre))); }
    NoFalse(asgn, cs);
    assert !Borrowed(bs, p);
    assert StatusAtom(St(g, p), p, pre) in asgn;
    if St(g, p) == SGood { Follow(asgn, cs, Good(p, pre), Zombie(p, post)); }
    if St(g, p) == SNull { Follow(asgn, cs, Null(p, pre), Null(p, post)); }
    CoveredAfter(asgn, live, {p}, pre, post, g, g');
    if St(g, p) == SGood {
      FreeOwners(f, asgn, live, s, s', g, p);
      BorrowsKept(asgn, live, bs, s, g, live, bs, s', g');
    } else {
      SameState(f, asgn, live, post, bs, s, s', g);
    }
  }

  lemma FreeOwners(f: Func, asgn: Assignment, live: set<Name>, s: State, s': State, g: Ghosts, p: Name)
    requires GoodOwners(f, asgn, live, s, g) && OneOwner(asgn, s, g)
    requires p.Local? && Responsible(p) in asgn && St(g, p) == SGood
    requires s'.env == s.env && s'.heap == FreeEffect(s, p)
    ensures GoodOwners(f, asgn, live, s', g[p := SZombie]) && OneOwner(asgn, s', g[p := SZombie])
    ensures GoodHeap(asgn, s', g[p := SZombie])
    ensures forall n, a :: Owner(asgn, s, g, n, a) && n != p ==> Owner(asgn, s', g[p := SZombie], n, a)
  {
    var g' := g[p := SZombie];
    var a := Val(s, p).addr;
    assert Owner(asgn, s, g, p, a);
    forall n, b | Owner(asgn, s, g, n, b) && n != p
      ensures b != a && Owner(asgn, s', g', n, b)
    {
    }
    forall n, b | Owner(asgn, s', g', n, b)
      ensures n != p && Owner(asgn, s, g, n, b) && b in s'.heap && s'.heap[b] == Unfreed
    {
    }
    forall b | b in s'.heap && s'.heap[b] == Unfreed
      ensures exists n :: Owner(asgn, s', g', n, b)
    {
      var n :| Owner(asgn, s, g, n, b);
      assert Owner(asgn, s', g', n, b);
    }
    forall n: Name | n.Local? && Responsible(n) in asgn && St(g', n) == SGood
      ensures Val(s', n).VPtr? && Val(s', n).addr in s'.heap && s'.heap[Val(s', n).addr] == Unfreed
    {
      assert Owner(asgn, s, g, n, Val(s, n).addr);
      assert Owner(asgn, s', g', n, Val(s, n).addr);
    }
  }

  /** A copy that is not kept track of: its destination is never used. */
  lemma AfterUnusedStore(f: Func, asgn: Assignment, live: set<Name>, pre: Point, post: Point, bs: Borrows,
                         s: State, s': State, g: Ghosts, d: Name, v: Value)
    requires Own(f, asgn, live, pre, bs, s, g) && d.Local? && d !in live + f.args
    requires Satisfies(asgn, Preserve(live + {NullConst}, pre, post))
    requires s'.env == s.env[d := v] && s'.heap == s.heap
    ensures Own(f, asgn, live, post, bs, s', g[d := SZombie])
  {
    var g' := g[d := SZombie];
    assert live + {NullConst} - {} == live + {NullConst};
    CoveredAfter(asgn, live, {}, pre, post, g, g');
    OwnersKept(f, asgn, live, s, s', g, g', d);
    BorrowsKept(asgn, live, bs, s, g, live, bs, s', g');
  }

  /** Overwriting a name that owns nothing, without making it an owner, changes no ownership. */
  lemma OwnersKept(f: Func, asgn: Assignment, live: set<Name>, s: State, s': State, g: Ghosts, g': Ghosts, d: Name)
    requires GoodOwners(f, asgn, live, s, g) && OneOwner(asgn, s, g)
    requires s'.heap == s.heap && forall n :: n != d ==> Val(s', n) == Val(s, n) && St(g', n) == St(g, n)
    requires !(d.Local? && Responsible(d) in asgn && (St(g, d) == SGood || St(g', d) == SGood))
    ensures forall n, a :: Owner(asgn, s, g, n, a) <==> Owner(asgn, s', g', n, a)
    ensures GoodOwners(f, asgn, live, s', g') && OneOwner(asgn, s', g') && GoodHeap(asgn, s', g')
  {
    forall n, a
      ensures Owner(asgn, s, g, n, a) <==> Owner(asgn, s', g', n, a)
    {
    }
    forall a | a in s'.heap && s'.heap[a] == Unfreed
      ensures exists n :: Owner(asgn, s', g', n, a)
    {
      var n :| Owner(asgn, s, g, n, a);
      assert Owner(asgn, s', g', n, a);
    }
  }

  /** The owner `src` hands its block over to `d`. */
  lemma OwnershipMoves(f: Func, asgn: Assignment, live: set<Name>, s: State, s': State, g: Ghosts, d: Name, src: Name)
    requires GoodOwners(f, asgn, live, s, g) && OneOwner(asgn, s, g)
    requires d.Local? && d !in live + f.args && src.Local? && src != d
    requires Responsible(d) in asgn && Responsible(src) in asgn && St(g, src) == SGood
    requires s'.env == s.env[d := Val(s, src)] && s'.heap == s.heap
    ensures GoodOwners(f, asgn, live + {d}, s', g[src := SZombie][d := SGood])
    ensures OneOwner(asgn, s', g[src := SZombie][d := SGood]) && GoodHeap(asgn, s', g[src := SZombie][d := SGood])
    ensures forall n, a :: Owner(asgn, s, g, n, a) && n != src ==> Owner(asgn, s', g[src := SZombie][d := SGood], n, a)
  {
    var g' := g[src := SZombie][d := SGood];
    var b := Val(s, src).addr;
    assert Owner(asgn, s, g, src, b) && Owner(asgn, s', g', d, b);
    forall n, a | Owner(asgn, s, g, n, a) && n != src
      ensures n != d && a != b && Owner(asgn, s', g', n, a)
    {
    }
    forall n, a | Owner(asgn, s', g', n, a) && n != d
      ensures Owner(asgn, s, g, n, a) && n != src
    {
    }
    forall a | a in s'.heap && s'.heap[a] == Unfreed
      ensures exists n :: Owner(asgn, s', g', n, a)
    {
      var n :| Owner(asgn, s, g, n, a);
      if n != src { assert Owner(asgn, s', g', n, a); }
    }
    forall n: Name | n.Local? && Responsible(n) in asgn && St(g', n) == SGood && n != d
      ensures n in live + f.args && Val(s', n).VPtr? && Val(s', n).addr in s'.heap
              && s'.heap[Val(s', n).addr] == Unfreed
    {
      assert Owner(asgn, s, g, n, Val(s, n).addr);
    }
  }

  /** Copying into a responsible name moves ownership and leaves the source a zombie; copying
      into another name is a borrow. */
  lemma CopyCovered(asgn: Assignment, live: set<Name>, pre: Point, post: Point, bs: Borrows, g: Ghosts, d: Name,
                    src: Name)
    requires Covered(asgn, live, pre, g) && d.Local? && d !in live && src in live + {NullConst}
    requires Satisfies(asgn, PtrCopyClauses(bs, d, src, pre, post))
    requires Satisfies(asgn, Preserve(live + {NullConst} - {d, src}, pre, post))
    ensures Covered(asgn, live + {d}, post, CopyStatus(asgn, g, d, src))
    ensures Responsible(d) in asgn ==> Responsible(src) in asgn
    ensures Responsible(d) !in asgn ==> St(g, src) != SZombie
    ensures src != d && src != NullConst && Borrowed(bs, src) ==> Mut(d) !in asgn
  {
    var g' := CopyStatus(asgn, g, d, src);
    var cs := PtrCopyClauses(bs, d, src, pre, post);
    assert StatusAtom(St(g, src), src, pre) in asgn;
    Follow(asgn, cs, StatusAtom(St(g, src), src, pre), StatusAtom(St(g, src), d, post));
    match St(g, src) {
      case SNull => Follow(asgn, cs, Null(src, pre), Null(src, post));
      case SZombie => Follow(asgn, cs, Zombie(src, pre), Zombie(src, post));
      case SGood =>
        if Responsible(d) in asgn {
          Follow2(asgn, cs, Neg(Responsible(d)), Neg(Good(src, pre)), Pos(Zombie(src, post)));
        } else {
          Follow2(asgn, cs, Pos(Responsible(d)), Neg(Good(src, pre)), Pos(Good(src, post)));
        }
    }
    CoveredAfter(asgn, live, {d, src}, pre, post, g, g');
    if Responsible(d) in asgn { Follow(asgn, cs, Responsible(d), Responsible(src)); }
    var noZombie := {Pos(Responsible(d)), Neg(Zombie(src, pre))};
    assert noZombie in cs && SatisfiesClause(asgn, noZombie);
    if src != d && src != NullConst && Borrowed(bs, src) { Unit(asgn, cs, Neg(Mut(d))); }
  }

  lemma AfterCopy(f: Func, asgn: Assignment, live: set<Name>, pre: Point, post: Point, bs: Borrows,
                  s: State, s': State, g: Ghosts, d: Name, src: Name)
    requires Own(f, asgn, live, pre, bs, s, g) && d.Local? && d !in live + f.args && src in live + {NullConst}
    requires Satisfies(asgn, PtrCopyClauses(bs, d, src, pre, post) + Preserve(live + {NullConst} - {d, src}, pre, post))
    requires Responsible(d) in asgn ==> Mut(d) in asgn
    requires s'.env == s.env[d := Val(s, src)] && s'.heap == s.heap
    ensures Own(f, asgn, live + {d}, post, AddBorrow(bs, src, d), s', CopyStatus(asgn, g, d, src))
  {
    Parts(asgn, PtrCopyClauses(bs, d, src, pre, post), Preserve(live + {NullConst} - {d, src}, pre, post));
    CopyCovered(asgn, live, pre, post, bs, g, d, src);
    CopyOwn(f, asgn, live, pre, post, bs, s, s', g, d, src);
  }

  lemma CopyOwn(f: Func, asgn: Assignment, live: set<Name>, pre: Point, post: Point, bs: Borrows,
                s: State, s': State, g: Ghosts, d: Name, src: Name)
    requires Own(f, asgn, live, pre, bs, s, g) && d.Local? && d !in live + f.args && src in live + {NullConst}
    requires Covered(asgn, live + {d}, post, CopyStatus(asgn, g, d, src))
    requires Responsible(d) in asgn ==> Responsible(src) in asgn && (src == NullConst || !Borrowed(bs, src))
    requires s'.env == s.env[d := Val(s, src)] && s'.heap == s.heap
    ensures Own(f, asgn, live + {d}, post, AddBorrow(bs, src, d), s', CopyStatus(asgn, g, d, src))
  {
    var g' := CopyStatus(asgn, g, d, src);
    CopyOwners(f, asgn, live, s, s', g, d, src);
    forall o, a | Owner(asgn, s, g, o, a) && Borrowed(bs, o)
      ensures Owner(asgn, s', g', o, a)
    {
      assert o != NullConst;
    }
    BorrowsKept(asgn, live, bs, s, g, live, AddBorrow(bs, src, d), s', g');
    if Responsible(d) !in asgn && St(g, src) == SGood { CopyBorrows(f, asgn, live, bs, s, s', g, d, src); }
  }

  lemma CopyOwners(f: Func, asgn: Assignment, live: set<Name>, s: State, s': State, g: Ghosts, d: Name, src: Name)
    requires GoodOwners(f, asgn, live, s, g) && OneOwner(asgn, s, g)
    requires d.Local? && d !in live + f.args && src in live + {NullConst} && (forall n :: n in live ==> n.Local?)
    requires Responsible(d) in asgn ==> Responsible(src) in asgn
    requires s'.env == s.env[d := Val(s, src)] && s'.heap == s.heap
    ensures GoodOwners(f, asgn, live + {d}, s', CopyStatus(asgn, g, d, src))
    ensures OneOwner(asgn, s', CopyStatus(asgn, g, d, src)) && GoodHeap(asgn, s', CopyStatus(asgn, g, d, src))
    ensures forall n, a :: Owner(asgn, s, g, n, a) && !(Responsible(d) in asgn && n == src) ==>
              Owner(asgn, s', CopyStatus(asgn, g, d, src), n, a)
  {
    if Responsible(d) in asgn && St(g, src) == SGood {
      OwnershipMoves(f, asgn, live, s, s', g, d, src);
    } else {
      OwnersKept(f, asgn, live, s, s', g, CopyStatus(asgn, g, d, src), d);
    }
  }

  lemma CopyBorrows(f: Func, asgn: Assignment, live: set<Name>, bs: Borrows, s: State, s': State, g: Ghosts, d: Name,
                    src: Name)
    requires GoodOwners(f, asgn, live, s, g) && OneOwner(asgn, s, g) && SafeBorrows(asgn, live, bs, s, g)
    requires d.Local? && d !in live + f.args && src in live + {NullConst} && (forall n :: n in live ==> n.Local?)
    requires s'.env == s.env[d := Val(s, src)] && s'.heap == s.heap
    requires Responsible(d) !in asgn && St(g, src) == SGood
    ensures SafeBorrow(asgn, AddBorrow(bs, src, d), s', CopyStatus(asgn, g, d, src), d)
  {
    var g' := CopyStatus(asgn, g, d, src);
    OwnersKept(f, asgn, live, s, s', g, g', d);
    CopyIsSafeBorrow(asgn, live, bs, s, s', g, g', d, src);
  }

  lemma CopyIsSafeBorrow(asgn: Assignment, live: set<Name>, bs: Borrows, s: State, s': State, g: Ghosts, g': Ghosts,
                         d: Name, src: Name)
    requires SafeBorrows(asgn, live, bs, s, g) && GoodHeap(asgn, s, g)
    requires src in live && src.Local? && d != src && St(g, src) == SGood
    requires Responsible(src) in asgn ==> Val(s, src).VPtr?
    requires s'.heap == s.heap && Val(s', d) == Val(s, src)
    requires forall n, a :: Owner(asgn, s, g, n, a) <==> Owner(asgn, s', g', n, a)
    ensures SafeBorrow(asgn, AddBorrow(bs, src, d), s', g', d)
  {
    var bs' := AddBorrow(bs, src, d);
    assert (src, d) in bs';
    var addr := Val(s, src).addr;
    if Responsible(src) in asgn {
      ReachesOneStep(bs', src, d);
      assert Owner(asgn, s, g, src, addr);
      assert Owner(asgn, s', g', src, addr);
    } else {
      assert SafeBorrow(asgn, bs, s, g, src);
      if s.heap[addr] != Foreign {
        var o :| Owner(asgn, s, g, o, addr) && Reaches(bs, o, src);
        ReachesMonotone(bs, bs', o, src);
        ReachesEdge(bs', o, src, d);
        assert Owner(asgn, s', g', o, addr);
      }
    }
  }

  /** The invariant does not depend on the program counter. */
  lemma SameState(f: Func, asgn: Assignment, live: set<Name>, t: Point, bs: Borrows, s: State, s': State, g: Ghosts)
    requires s'.env == s.env && s'.heap == s.heap
    ensures forall n, a :: Owner(asgn, s, g, n, a) == Owner(asgn, s', g, n, a)
    ensures NullsAgree(live, s, g) == NullsAgree(live, s', g)
    ensures GoodOwners(f, asgn, live, s, g) == GoodOwners(f, asgn, live, s', g)
    ensures OneOwner(asgn, s, g) ==> OneOwner(asgn, s', g)
    ensures SafeBorrows(asgn, live, bs, s, g) ==> SafeBorrows(asgn, live, bs, s', g)
    ensures Own(f, asgn, live, t, bs, s, g) ==> Own(f, asgn, live, t, bs, s', g)
  {
    assert forall n :: Val(s, n) == Val(s', n);
    assert forall n, a :: Owner(asgn, s, g, n, a) == Owner(asgn, s', g, n, a);
    if OneOwner(asgn, s, g) {
      forall a | a in s'.heap && s'.heap[a] == Unfreed
        ensures exists n :: Owner(asgn, s', g, n, a)
      {
        var n :| Owner(asgn, s, g, n, a);
        assert Owner(asgn, s', g, n, a);
      }
    }
    if SafeBorrows(asgn, live, bs, s, g) {
      forall n | n in live && Responsible(n) !in asgn && St(g, n) == SGood
        ensures SafeBorrow(asgn, bs, s', g, n)
      {
        assert SafeBorrow(asgn, bs, s, g, n);
        if s.heap[Val(s, n).addr] != Foreign {
          var o :| Owner(asgn, s, g, o, Val(s, n).addr) && Reaches(bs, o, n);
          assert Owner(asgn, s', g, o, Val(s', n).addr);
        }
      }
    }
  }

  // ----- One instruction -----

  /** The names an instruction sets, unless it is a copy without uses. */
  function NewNames(f: Func, inst: Instr): set<Name> {
    match inst
    case Malloc(d) => {d}
    case VarStore(d, _) => if f.HasUses(d) then {d} else {}
    case _ => {}
  }

  /** What the clauses and analyses guarantee about an instruction that is about to run. */
  ghost predicate Ready(f: Func, asgn: Assignment, live: set<Name>, bs: Borrows, inst: Instr, pre: Point, post: Point) {
    && Satisfies(asgn, InstrClauses(f, live, bs, inst, pre, post))
    && inst.Operands() <= live + {NullConst} && inst.Defs() !! live + f.args
    && (forall d :: d in inst.Defs() ==> d.Local?)
    && (inst.VarStore? && f.HasUses(inst.dest) && Responsible(inst.dest) in asgn ==> Mut(inst.dest) in asgn)
  }

  /** Each non-terminator takes the invariant from before it to after it, and is safe to run. */
  lemma AfterInstr(f: Func, asgn: Assignment, live: set<Name>, bs: Borrows, inst: Instr, pre: Point, post: Point,
                   s: State, s': State, g: Ghosts, g': Ghosts)
    requires Own(f, asgn, live, pre, bs, s, g) && Effect(inst, s, s') && !inst.Terminator()
    requires Ready(f, asgn, live, bs, inst, pre, post)
    requires g' == Updated(f, asgn, inst, s', g)
    ensures Own(f, asgn, live + NewNames(f, inst), post, BorrowStep(f, inst, bs), s', g')
    ensures !ErrorAt(inst, s)
  {
    match inst {
      case Malloc(d) =>
        assert NewNames(f, inst) == {d};
        AfterMalloc(f, asgn, live, pre, post, bs, s, s', g, d);
      case Free(ptr, fclose) =>
        assert live + NewNames(f, inst) == live;
        AfterFree(f, asgn, live, pre, post, bs, s, g, ptr, fclose, s'.pc);
      case VarStore(d, src) =>
        if f.HasUses(d) {
          assert NewNames(f, inst) == {d};
          AfterCopy(f, asgn, live, pre, post, bs, s, s', g, d, src);
        } else {
          assert live + NewNames(f, inst) == live;
          AfterUnusedStore(f, asgn, live, pre, post, bs, s, s', g, d, Val(s, src));
        }
      case Load(ptr) => AfterRead(f, asgn, live, bs, inst, pre, post, s, s', g, ptr);
      case Store(ptr) => AfterRead(f, asgn, live, bs, inst, pre, post, s, s', g, ptr);
      case ICmp(ptr) => AfterRead(f, asgn, live, bs, inst, pre, post, s, s', g, ptr);
    }
  }

  /** Instructions that change neither values nor blocks. */
  lemma AfterRead(f: Func, asgn: Assignment, live: set<Name>, bs: Borrows, inst: Instr, pre: Point, post: Point,
                  s: State, s': State, g: Ghosts, ptr: Name)
    requires Own(f, asgn, live, pre, bs, s, g) && s'.env == s.env && s'.heap == s.heap
    requires inst in {Load(ptr), Store(ptr), ICmp(ptr)} && ptr in live + {NullConst}
    requires Satisfies(asgn, InstrClauses(f, live, bs, inst, pre, post))
    ensures Own(f, asgn, live + NewNames(f, inst), post, bs, s', g)
    ensures !ErrorAt(inst, s)
  {
    assert live + NewNames(f, inst) == live;
    assert Satisfies(asgn, Preserve(live + {NullConst}, pre, post)) by {
      assert Preserve(live + {NullConst}, pre, post) <= InstrClauses(f, live, bs, inst, pre, post);
    }
    OwnFlows(f, asgn, live, live + {NullConst}, pre, post, bs, s, g);
    SameState(f, asgn, live, post, bs, s, s', g);
    if !inst.ICmp? {
      assert DerefClauses(ptr, pre) <= InstrClauses(f, live, bs, inst, pre, post);
      assert Satisfies(asgn, DerefClauses(ptr, pre));
      DerefIsSafe(f, asgn, live, pre, bs, s, g, ptr);
    }
  }

  /** A dereferenced pointer is neither NULL nor a pointer to a freed block. */
  lemma DerefIsSafe(f: Func, asgn: Assignment, live: set<Name>, pre: Point, bs: Borrows, s: State, g: Ghosts, ptr: Name)
    requires Own(f, asgn, live, pre, bs, s, g) && ptr in live + {NullConst}
    requires Satisfies(asgn, DerefClauses(ptr, pre))
    ensures Usable(s, ptr) && St(g, ptr) == SGood
  {
    var cs := DerefClauses(ptr, pre);
    Unit(asgn, cs, Neg(Null(ptr, pre)));
    Unit(asgn, cs, Neg(Zombie(ptr, pre)));
    assert StatusAtom(St(g, ptr), ptr, pre) in asgn;
    if Responsible(ptr) !in asgn {
      assert SafeBorrow(asgn, bs, s, g, ptr);
    }
  }
}
