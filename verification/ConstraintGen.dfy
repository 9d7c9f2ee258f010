/** The generator as it works: dry runs over the blocks and then a last pass that writes, each keeping
    the live values and the indexed borrows up to date from block to block. */
module ConstraintGen {
  import opened DataFlow
  import opened PointerIR
  import opened OwnershipClauses
  import opened LiveFacts
  import opened FunctionMeaning
  import opened BorrowPasses
  import opened BorrowPaths
  import opened SettledBorrows
  import BorrowGraph
  import BorrowIndex
  import BorrowAliases
  import Liveness

  lemma UsedIsSeen(f: Func, n: Name)
    requires f.WellFormed() && OperandsDefined(f) && n in UsedNames(f)
    ensures n in Seen(f)
  {
    UsedIsLocal(f, n);
    if n !in f.args {
      var b, i :| f.At(b, i) && n in f.blocks[b][i].Defs();
      assert n in SeenAt(f, f.blocks[b][i]);
    }
  }

  lemma LiveIsSeen(f: Func, a: Analysis, dom: seq<set<Name>>, b: nat, i: nat)
    requires Analysed(f, a, dom) && OperandsDefined(f) && b < |f.blocks| && i <= |f.blocks[b]|
    ensures CurLive(f, a, b, i) <= Seen(f) - {Ret, NullConst}
  {
    if i == 0 {
      LiveIsUsed(f, a, dom);
      forall n | n in a.liveStart[b] ensures n in Seen(f) - {Ret, NullConst} { UsedIsSeen(f, n); UsedIsLocal(f, n); }
    } else {
      LiveIsSeen(f, a, dom, b, i - 1);
      forall n | n in UsedDefs(f, b, i - 1) ensures n in Seen(f) - {Ret, NullConst} {
        assert f.At(b, i - 1) && n in SeenAt(f, f.blocks[b][i - 1]);
      }
    }
  }

  function PreserveName(n: Name, t: Point, t': Point): set<Clause> {
    {Implies(Good(n, t), Good(n, t')), Implies(Null(n, t), Null(n, t')), Implies(Zombie(n, t), Zombie(n, t'))}
  }

  function ClausesOver(names: set<Name>, clausesOf: Name -> set<Clause>): set<Clause> {
    set n, c | n in names && c in clausesOf(n) :: c
  }

  /** Visits the names one by one and collects the clauses of each. */
  method CollectOver(names: set<Name>, clausesOf: Name -> set<Clause>) returns (cs: set<Clause>)
    ensures cs == ClausesOver(names, clausesOf)
  {
    var todo := names;
    cs := {};
    while todo != {}
      invariant todo <= names && cs == ClausesOver(names - todo, clausesOf)
      decreases todo
    {
      var n :| n in todo;
      cs := cs + clausesOf(n);
      assert names - (todo - {n}) == (names - todo) + {n};
      todo := todo - {n};
    }
  }

  lemma PreserveOver(names: set<Name>, t: Point, t': Point)
    ensures ClausesOver(names, n => PreserveName(n, t, t')) == Preserve(names, t, t')
  {
    var over := ClausesOver(names, n => PreserveName(n, t, t'));
    forall c
      ensures c in over <==> c in Preserve(names, t, t')
    {
      if n :| n in names && c in PreserveName(n, t, t') {
        assert n in names && c in (n => PreserveName(n, t, t'))(n);
      }
      if c in over {
        var n :| n in names && c in (n => PreserveName(n, t, t'))(n);
        assert c in PreserveName(n, t, t');
      }
    }
  }

  /** The flow clauses of an edge for one name: a name under test carries only the states it can be
      in on that edge. */
  function EdgeFlowName(n: Name, tested: set<Name>, isNil: bool, t: Point, t': Point): set<Clause> {
    (if n in tested && isNil then {} else {Implies(Good(n, t), Good(n, t'))})
    + (if n in tested && !isNil then {} else {Implies(Null(n, t), Null(n, t'))})
    + (if n in tested && isNil then {} else {Implies(Zombie(n, t), Zombie(n, t'))})
  }

  lemma EdgeFlowOver(f: Func, a: Analysis, b: nat, j: nat, names: set<Name>, tested: set<Name>, isNil: bool, t: Point,
                     t': Point)
    requires a.Sized(f) && b < |f.blocks| && j < |f.Term(b).Succs()|
    requires names == CurLive(f, a, b, |f.blocks[b]|) + {NullConst}
    requires tested == names * if f.Term(b).NullBranch? then a.aliases[b] else {}
    requires isNil == (f.Term(b).NullBranch? && f.Term(b).eq == (f.Term(b).Succs()[j] == f.Term(b).onTrue))
    requires t == Post(b, |f.blocks[b]| - 1) && t' == Pre(f.Term(b).Succs()[j], 0)
    ensures ClausesOver(names, n => EdgeFlowName(n, tested, isNil, t, t')) == EdgeClauses(f, a, b, j)
  {
    var all := if f.Term(b).NullBranch? then a.aliases[b] else {};
    assert names - all == names - tested && names * all == names * tested;
    EdgeFlowIs(names, tested, isNil, t, t');
  }

  lemma EdgeFlowIs(names: set<Name>, tested: set<Name>, isNil: bool, t: Point, t': Point)
    ensures ClausesOver(names, n => EdgeFlowName(n, tested, isNil, t, t')) == EdgeFlow(names, tested, isNil, t, t')
  {
    var of := n => EdgeFlowName(n, tested, isNil, t, t');
    forall c
      ensures c in ClausesOver(names, of) <==> c in EdgeFlow(names, tested, isNil, t, t')
    {
      if c in ClausesOver(names, of) {
        var n :| n in names && c in of(n);
        EdgeFlowHas(names, tested, isNil, t, t', c, n);
      }
      if c in EdgeFlow(names, tested, isNil, t, t') {
        var n := EdgeFlowFrom(names, tested, isNil, t, t', c);
        assert c in of(n);
      }
    }
  }

  lemma EdgeFlowHas(names: set<Name>, tested: set<Name>, isNil: bool, t: Point, t': Point, c: Clause, n: Name)
    requires n in names && c in EdgeFlowName(n, tested, isNil, t, t')
    ensures c in EdgeFlow(names, tested, isNil, t, t')
  {
    if n in tested {
      assert n in names * tested;
    } else {
      assert n in names - tested;
      assert c in Preserve(names - tested, t, t');
    }
  }

  lemma EdgeFlowFrom(names: set<Name>, tested: set<Name>, isNil: bool, t: Point, t': Point, c: Clause) returns (n: Name)
    requires c in EdgeFlow(names, tested, isNil, t, t')
    ensures n in names && c in EdgeFlowName(n, tested, isNil, t, t')
  {
    if c in Preserve(names - tested, t, t') {
      n :| n in names - tested && c in PreserveName(n, t, t');
      assert EdgeFlowName(n, tested, isNil, t, t') == PreserveName(n, t, t');
    } else if isNil {
      n :| n in names * tested && c == Implies(Null(n, t), Null(n, t'));
      assert EdgeFlowName(n, tested, isNil, t, t') == {Implies(Null(n, t), Null(n, t'))};
    } else {
      n :| n in names * tested && (c == Implies(Good(n, t), Good(n, t')) || c == Implies(Zombie(n, t), Zombie(n, t')));
      assert EdgeFlowName(n, tested, isNil, t, t')
             == {Implies(Good(n, t), Good(n, t')), Implies(Zombie(n, t), Zombie(n, t'))};
    }
  }

  // ----- What a dry run leaves out -----

  /** Clauses are written in the last pass only. */
  function Gate(isDryRun: bool, cs: set<Clause>): set<Clause> { if isDryRun then {} else cs }

  lemma GateJoins(isDryRun: bool, w: set<Clause>, x: set<Clause>, y: set<Clause>)
    ensures w + Gate(isDryRun, x) + Gate(isDryRun, y) == w + Gate(isDryRun, x + y)
  {
  }

  // ----- Borrows of one value -----

  /** The operand whose borrowers an instruction asks for. */
  function Asked(inst: Instr): Name {
    match inst
    case Free(p, _) => p
    case VarStore(_, s) => s
    case Load(p) => p
    case Store(p) => p
    case Return(v) => v
    case _ => NullConst
  }

  function LentBy(bs: Borrows, p: Name): Borrows { set e | e in bs && e.0 == p }

  /** An instruction needs to know the borrows from its operand only. */
  lemma LentIsEnough(f: Func, live: set<Name>, bs: Borrows, inst: Instr, pre: Point, post: Point)
    ensures InstrClauses(f, live, LentBy(bs, Asked(inst)), inst, pre, post)
            == InstrClauses(f, live, bs, inst, pre, post)
  {
    var p, lent := Asked(inst), LentBy(bs, Asked(inst));
    assert Borrowed(lent, p) <==> Borrowed(bs, p) by {
      if Borrowed(bs, p) {
        var e :| e in bs && e.0 == p;
        assert e in lent;
      }
    }
    if inst.Load? {
      assert (set e | e in lent && e.0 == p :: {Neg(Mut(e.1))}) == (set e | e in bs && e.0 == p :: {Neg(Mut(e.1))});
    }
  }

  lemma GraphAdd(bs: Borrows, e: (Name, Name))
    ensures Graph(bs + {e}) == Graph(bs) + {BorrowOf(e)}
  {
  }

  // ----- Sets in some order -----

  /** The elements of a set, each once. */
  ghost predicate Lists(xs: seq<Name>, s: set<Name>) {
    (forall x :: x in xs <==> x in s) && forall i, j :: 0 <= i < j < |xs| ==> xs[i] != xs[j]
  }

  method InSomeOrder(s: set<Name>) returns (xs: seq<Name>)
    ensures Lists(xs, s)
  {
    xs := [];
    var todo := s;
    while todo != {}
      invariant todo <= s && Lists(xs, s - todo)
      decreases todo
    {
      var x :| x in todo;
      xs, todo := xs + [x], todo - {x};
    }
  }

  lemma {:induction false} KillInOrderNext(bs: Borrows, dead: seq<Name>, x: Name)
    ensures KillInOrder(bs, dead + [x]) == KillBorrows(KillInOrder(bs, dead), x)
    decreases |dead|
  {
    var all := dead + [x];
    if dead == [] {
      assert all[1..] == [];
    } else {
      assert all[0] == dead[0] && all[1..] == dead[1..] + [x];
      KillInOrderNext(KillBorrows(bs, dead[0]), dead[1..], x);
    }
  }

  lemma DeathsSoFar(bs: Borrows, dead: seq<Name>, k: nat)
    requires k < |dead|
    ensures KillInOrder(bs, dead[..k + 1]) == KillBorrows(KillInOrder(bs, dead[..k]), dead[k])
  {
    KillInOrderNext(bs, dead[..k], dead[k]);
    assert dead[..k + 1] == dead[..k] + [dead[k]];
  }

  lemma {:induction false} ListedOnce(xs: seq<Name>, s: set<Name>)
    requires Lists(xs, s)
    ensures |xs| == |s|
    decreases |xs|
  {
    if xs == [] {
      assert s == {};
    } else {
      var n, last := |xs| - 1, xs[|xs| - 1];
      assert xs == xs[..n] + [last];
      assert last in xs;
      ListedOnce(xs[..n], s - {last});
    }
  }

  /** An instruction of this fragment uses at most one value for the last time. */
  lemma OneDeath(inst: Instr, last: set<Name>, dying: seq<Name>, bs: Borrows)
    requires last <= inst.Uses() && Lists(dying, last)
    ensures KillInOrder(bs, dying) == KillOperand(inst, last, bs)
  {
    var x := OperandOf(inst);
    if x in last {
      assert last == {x};
      ListedOnce(dying, last);
      assert x in dying;
      assert [x][1..] == [] && KillInOrder(bs, [x]) == KillInOrder(KillBorrows(bs, x), []);
    } else {
      assert last == {};
      ListedOnce(dying, last);
    }
  }

  lemma {:induction false} InOrderNext(order: seq<Name>, dead: set<Name>, k: nat, deaths: seq<Name>)
    requires k < |order| && deaths == InOrder(order[..k], dead)
    ensures InOrder(order[..k + 1], dead) == if order[k] in dead then deaths + [order[k]] else deaths
  {
    assert order[..k + 1][..k] == order[..k];
  }

  class Generator {
    const f: Func
    const order: seq<Name>  // the order in which sets of values are visited
    const liveStart: seq<set<Name>>
    const liveEnd: seq<set<Name>>
    const lastUse: seq<seq<set<Name>>>
    ghost const met: set<Name>  // what the instructions make the generator remember
    ghost const all: set<Name>  // that, the arguments and NULL
    var isDryRun: bool
    var out: set<Clause>  // the clauses in the output file
    var seen: set<Name>
    var live: set<Name>
    var postponed: seq<Name>
    var curBI: BorrowIndex.BorrowInfo
    var endOfBlock: map<nat, BorrowIndex.BorrowInfo>

    constructor (f: Func, order: seq<Name>, liveStart: seq<set<Name>>, liveEnd: seq<set<Name>>,
                 lastUse: seq<seq<set<Name>>>)
      ensures this.f == f && this.order == order && this.liveStart == liveStart && this.liveEnd == liveEnd
              && this.lastUse == lastUse
      ensures met == Union(BlockNames(f), |f.blocks|) && all == {NullConst} + f.args + met
      ensures out == {} && seen == {} && endOfBlock == map[]
    {
      met, all := Union(BlockNames(f), |f.blocks|), {NullConst} + f.args + Union(BlockNames(f), |f.blocks|);
      this.f, this.order, this.liveStart, this.liveEnd, this.lastUse := f, order, liveStart, liveEnd, lastUse;
      isDryRun, out, seen, live, postponed, endOfBlock := true, {}, {}, {}, [], map[];
      curBI := new BorrowIndex.BorrowInfo();
    }

    // ----- What the generator is given -----

    /** The results of the liveness analysis are those that `a` stands for, and the values that can
        die at a block start are among those visited. */
    ghost predicate Works(a: Analysis) {
      && a.Sized(f) && a.liveStart == liveStart && |liveEnd| == |lastUse| == |f.blocks|
      && (forall b: nat {:trigger WorksAt(a, b)} :: b < |f.blocks| ==> WorksAt(a, b))
    }

    ghost predicate WorksAt(a: Analysis, b: nat)
      requires a.Sized(f) && |liveEnd| == |lastUse| == |f.blocks| && b < |f.blocks|
    {
      LivenessAt(a, b) && a.aliases[b] == AliasesAt(f, a, b)
    }

    ghost predicate LivenessAt(a: Analysis, b: nat)
      requires a.Sized(f) && |liveEnd| == |lastUse| == |f.blocks| && b < |f.blocks|
    {
      && liveEnd[b] == LiveOut(f, a, b) && |lastUse[b]| == |f.blocks[b]|
      && (forall i: nat {:trigger LastUsesAt(a, b, i)} :: i < |f.blocks[b]| ==> LastUsesAt(a, b, i))
      && a.deathOrder[b] == InOrder(order, DeadAtStart(f, a, b))
      && (forall x :: x in DeadAtStart(f, a, b) ==> x in order)
    }

    ghost predicate LastUsesAt(a: Analysis, b: nat, i: nat)
      requires a.Sized(f) && |lastUse| == |f.blocks| && f.At(b, i) && |lastUse[b]| == |f.blocks[b]|
    {
      lastUse[b][i] == LastUse(f, a, b, i)
    }

    /** The numbers of the names at an instruction fit into path parts. */
    ghost predicate Fits(b: nat, i: nat)
      requires f.At(b, i)
    {
      forall n :: n in f.blocks[b][i].Operands() + f.blocks[b][i].Defs() ==> Numbered(n)
    }

    /** In the last pass the names met at instruction i of block b have been seen. */
    ghost predicate NamesSeenAt(a: Analysis, b: nat, i: nat)
      requires a.Sized(f) && f.At(b, i)
    {
      && NullConst in all && SeenAt(f, f.blocks[b][i]) <= all
      && CurLive(f, a, b, i) <= all - {Ret, NullConst}
      && (i > 0 ==> SeenAt(f, f.blocks[b][i - 1]) <= all - {Ret, NullConst})
    }

    ghost predicate Prepared(a: Analysis) {
      && Works(a)
      && (forall b: nat, i: nat {:trigger Fits(b, i)} :: f.At(b, i) ==> Fits(b, i))
      && (forall b: nat, i: nat {:trigger NamesSeenAt(a, b, i)} :: f.At(b, i) ==> NamesSeenAt(a, b, i))
    }

    ghost predicate SeenEnough()
      reads this
    {
      !isDryRun ==> seen == all
    }

    /** The index holds these borrows. */
    ghost predicate Holds(bs: Borrows)
      reads this, curBI
    {
      curBI.Valid() && curBI.Contents() == Graph(bs)
    }

    // ----- Writing -----

    method Emit(cs: set<Clause>)
      modifies this`out
      ensures out == old(out) + Gate(isDryRun, cs)
    {
      if !isDryRun { out := out + cs; }
    }

    /** Preservation, for every name seen that is live or NULL and not touched by the instruction. */
    method GeneratePreservation(touched: set<Name>, pre: Point, post: Point)
      requires !isDryRun ==> live <= seen - {Ret, NullConst} && NullConst in seen
      modifies this`out
      ensures out == old(out) + Gate(isDryRun, Preserve(live + {NullConst} - touched, pre, post))
    {
      var names := set n | n in seen && n !in touched && n != Ret && (n == NullConst || n in live);
      assert !isDryRun ==> names == live + {NullConst} - touched;
      PreserveOver(names, pre, post);
      var cs := CollectOver(names, n => PreserveName(n, pre, post));
      Emit(cs);
    }

    /** Flow to the next instruction, for every name seen that is live, NULL or just defined. */
    method GenerateFlow(justDefined: set<Name>, t: Point, t': Point)
      requires !isDryRun ==> live + justDefined <= seen - {Ret, NullConst} && NullConst in seen
      modifies this`out
      ensures out == old(out) + Gate(isDryRun, Preserve(live + {NullConst} + justDefined, t, t'))
    {
      var names := set n | n in seen && n != Ret && (n == NullConst || n in live || n in justDefined);
      assert !isDryRun ==> names == live + {NullConst} + justDefined;
      PreserveOver(names, t, t');
      var cs := CollectOver(names, n => PreserveName(n, t, t'));
      Emit(cs);
    }

    // ----- Borrows -----

    /** Finds the borrows from p. */
    method BorrowsFrom(p: Name, ghost bs: Borrows) returns (lent: Borrows)
      requires Holds(bs)
      ensures lent == LentBy(bs, p)
    {
      var found := curBI.GetBorrowsBySrcRootedAt(PathOf(p));
      lent := set b | b in found && b.to != [] :: (p, NameOf(b.to[0]));
      forall e
        ensures e in lent <==> e in LentBy(bs, p)
      {
        LentIsFound(bs, p, found, e);
      }
    }

    method AddBorrowOf(s: Name, d: Name, ghost bs: Borrows)
      requires Holds(bs) && Numbered(s) && Numbered(d)
      modifies curBI
      ensures Holds(AddBorrow(bs, s, d))
    {
      if s != d && s != NullConst {
        PathIsName(s, s);
        PathIsName(d, d);
        GraphAdd(bs, (s, d));
        curBI.Add(BorrowOf((s, d)));
      }
    }

    /** A value dies. */
    method HandleDeath(x: Name, ghost bs: Borrows)
      requires Holds(bs)
      modifies curBI
      ensures Holds(KillBorrows(bs, x))
    {
      SpliceIsKill(bs, x);
      curBI.HandleCPathBecomingDead(PathOf(x), false, false, false, 1);
    }

    // ----- One instruction -----

    /** A copy that is used later is remembered, gets its clauses and a borrow; others are skipped. */
    method ProcessVarStore(d: Name, s: Name, lent: Borrows, pre: Point, post: Point, ghost bs: Borrows)
      requires Holds(bs) && Numbered(s) && Numbered(d) && lent == LentBy(bs, s)
      requires !isDryRun ==> live <= seen - {Ret, NullConst} && NullConst in seen
      modifies this`out, this`seen, curBI
      ensures out == old(out) + Gate(isDryRun, InstrClauses(f, live, lent, VarStore(d, s), pre, post))
      ensures Holds(BorrowStep(f, VarStore(d, s), bs)) && seen == old(seen) + SeenAt(f, VarStore(d, s))
    {
      if f.HasUses(d) {
        seen := seen + {d};
        Emit(PtrCopyClauses(lent, d, s, pre, post));
        AddBorrowOf(s, d, bs);
        GeneratePreservation({d, s}, pre, post);
      } else {
        GeneratePreservation({}, pre, post);
        assert live + {NullConst} - {} == live + {NullConst};
      }
    }

    /** Access through a pointer: it must be valid, and what borrows from it must not be in the way. */
    method ProcessAccess(inst: Instr, lent: Borrows, pre: Point, post: Point)
      requires (inst.Load? || inst.Store?) && lent == LentBy(lent, inst.ptr)
      requires !isDryRun ==> live <= seen - {Ret, NullConst} && NullConst in seen
      modifies this`out
      ensures out == old(out) + Gate(isDryRun, InstrClauses(f, live, lent, inst, pre, post))
    {
      var p := inst.ptr;
      if inst.Load? {
        Emit(DerefClauses(p, pre) + (set e | e in lent :: {Neg(Mut(e.1))}));
        assert (set e | e in lent && e.0 == p :: {Neg(Mut(e.1))}) == (set e | e in lent :: {Neg(Mut(e.1))});
      } else {
        assert Borrowed(lent, p) <==> lent != {} by { if e :| e in lent { assert e.0 == p; } }
        Emit({{Pos(Mut(p))}} + DerefClauses(p, pre) + (if lent != {} then {{}} else {}));
      }
      GeneratePreservation({}, pre, post);
      assert live + {NullConst} - {} == live + {NullConst};
    }

    /** The returned value is borrowed by `func::return`. */
    method ProcessReturn(v: Name, lent: Borrows, pre: Point, post: Point, ghost bs: Borrows)
      requires Holds(bs) && Numbered(v) && lent == LentBy(bs, v)
      requires !isDryRun ==> live <= seen - {Ret, NullConst} && NullConst in seen
      modifies this`out, this`seen, curBI
      ensures out == old(out) + Gate(isDryRun, InstrClauses(f, live, lent, Return(v), pre, post))
      ensures Holds(BorrowStep(f, Return(v), bs)) && seen == old(seen) + {Ret}
    {
      seen := seen + {Ret};
      Emit(ReturnClauses(lent, v, pre));
      AddBorrowOf(v, Ret, bs);
      GeneratePreservation({v}, pre, post);
    }

    /** The clauses of one instruction, and its effect on the borrows. */
    method ProcessInstruction(inst: Instr, pre: Point, post: Point, ghost bs: Borrows)
      requires Holds(bs) && (forall n :: n in inst.Operands() + inst.Defs() ==> Numbered(n))
      requires !isDryRun ==> live <= seen - {Ret, NullConst} && NullConst in seen
      modifies this`out, this`seen, curBI
      ensures out == old(out) + Gate(isDryRun, InstrClauses(f, live, bs, inst, pre, post))
      ensures Holds(BorrowStep(f, inst, bs)) && seen == old(seen) + SeenAt(f, inst)
    {
      var lent := BorrowsFrom(Asked(inst), bs);
      LentIsEnough(f, live, bs, inst, pre, post);
      assert live + {NullConst} - {} == live + {NullConst};
      match inst {
        case Malloc(d) =>
          seen := seen + {d};
          Emit(MallocClauses(d, post));
          GeneratePreservation({d}, pre, post);
        case Free(p, fclose) =>
          Emit(FreeClauses(lent, p, fclose, pre, post));
          GeneratePreservation({p}, pre, post);
        case VarStore(d, s) =>
          ProcessVarStore(d, s, lent, pre, post, bs);
        case Load(p) =>
          ProcessAccess(inst, lent, pre, post);
        case Store(p) =>
          ProcessAccess(inst, lent, pre, post);
        case Return(v) =>
          ProcessReturn(v, lent, pre, post, bs);
        case _ =>
          GeneratePreservation({}, pre, post);
      }
    }

    // ----- Deaths after an instruction -----

    method KillNext(x: Name, t: Point, waits: bool, ghost bs: Borrows)
      requires Holds(bs)
      modifies this`out, this`live, this`postponed, curBI
      ensures out == old(out) + Gate(isDryRun, Killed({x}, t)) && live == old(live) - {x}
      ensures Holds(if waits then bs else KillBorrows(bs, x))
      ensures postponed == if waits then old(postponed) + [x] else old(postponed)
    {
      if waits {
        postponed := postponed + [x];
      } else {
        HandleDeath(x, bs);
      }
      live := live - {x};
      Emit(Killed({x}, t));
    }

    /** Values used for the last time stop being live; a compare before a branch keeps them for the
        branch, any other instruction ends their borrows. */
    method KillEach(dying: seq<Name>, t: Point, waits: bool, ghost bs: Borrows)
      requires Holds(bs)
      modifies this`out, this`live, this`postponed, curBI
      ensures out == old(out) + Gate(isDryRun, Killed(Elems(dying), t)) && live == old(live) - Elems(dying)
      ensures Holds(if waits then bs else KillInOrder(bs, dying))
      ensures postponed == if waits then old(postponed) + dying else old(postponed)
    {
      ghost var now, gone: set<Name> := bs, {};
      assert Killed(gone, t) == {};
      for k := 0 to |dying|
        invariant gone == Elems(dying[..k])
        invariant out == old(out) + Gate(isDryRun, Killed(gone, t)) && live == old(live) - gone
        invariant Holds(now) && now == if waits then bs else KillInOrder(bs, dying[..k])
        invariant postponed == if waits then old(postponed) + dying[..k] else old(postponed)
      {
        var x := dying[k];
        DeathsSoFar(bs, dying, k);
        OneMoreKilled(old(out), isDryRun, gone, x, t);
        OneLess(old(live), gone, x);
        ElemsNext(dying, k);
        KillNext(x, t, waits, now);
        now, gone := if waits then now else KillBorrows(now, x), gone + {x};
      }
      assert dying[..|dying|] == dying;
    }

    method KillLastUses(b: nat, i: nat, ghost a: Analysis)
      requires Works(a) && f.WellFormed() && f.At(b, i) && Lists(postponed, Pending(f, a, b, i))
      requires Holds(BorrowStep(f, f.blocks[b][i], BorrowsAt(f, a, b, i)))
      modifies this`out, this`live, this`postponed, curBI
      ensures out == old(out) + Gate(isDryRun, Killed(LastUse(f, a, b, i), PostOf(f.blocks[b][i], b, i)))
      ensures live == old(live) - LastUse(f, a, b, i)
      ensures Holds(BorrowsAt(f, a, b, i + 1)) && Lists(postponed, Pending(f, a, b, i + 1))
    {
      var inst := f.blocks[b][i];
      var waits := inst.ICmp? && i + 1 < |f.blocks[b]|
                   && (f.blocks[b][i + 1].Jump? || f.blocks[b][i + 1].Branch? || f.blocks[b][i + 1].NullBranch?);
      assert WorksAt(a, b) && LastUsesAt(a, b, i);
      var dying := InSomeOrder(lastUse[b][i]);
      AfterDeaths(f, a, b, i, dying);
      StillWaiting(f, a, b, i, dying, postponed);
      KillEach(dying, PostOf(inst, b, i), waits, BorrowStep(f, inst, BorrowsAt(f, a, b, i)));
    }

    /** What dies after instruction i of block b, and what it defines. */
    method KillAfter(b: nat, i: nat, ghost a: Analysis)
      requires Works(a) && f.WellFormed() && f.At(b, i) && Lists(postponed, Pending(f, a, b, i))
      requires live == CurLive(f, a, b, i) && Holds(BorrowStep(f, f.blocks[b][i], BorrowsAt(f, a, b, i)))
      modifies this`out, this`live, this`postponed, curBI
      ensures out == old(out) + Gate(isDryRun, DeathClauses(f, a, b, i))
      ensures live == CurLive(f, a, b, i + 1) && Holds(BorrowsAt(f, a, b, i + 1))
              && Lists(postponed, Pending(f, a, b, i + 1))
    {
      var inst := f.blocks[b][i];
      KillLastUses(b, i, a);
      GateJoins(isDryRun, old(out), Killed(LastUse(f, a, b, i), PostOf(inst, b, i)), AtReturn(f, inst));
      if inst.Return? || inst.ReturnVoid? { Emit(Killed(f.args, End)); }
      live := live + (set d | d in inst.Defs() && f.HasUses(d));
    }

    // ----- The instructions of a block -----

    /** The walk over block b stands before instruction i, with the clauses of the deaths on entry and
        of the instructions so far written; `base` was written and `was` seen before the block. */
    ghost predicate Stands(a: Analysis, b: nat, i: nat, parts: seq<set<Clause>>, base: set<Clause>, was: set<Name>)
      reads this, curBI
      requires a.Sized(f) && b < |f.blocks| && i <= |f.blocks[b]|
    {
      && i <= |parts| && out == base + Gate(isDryRun, Union(parts, i)) && live == CurLive(f, a, b, i)
      && Holds(BorrowsAt(f, a, b, i)) && Lists(postponed, Pending(f, a, b, i))
      && SeenEnough() && seen == was + SeenBefore(f, b, i)
    }

    method FlowInto(b: nat, i: nat, ghost a: Analysis)
      requires Prepared(a) && f.At(b, i) && SeenEnough() && live == CurLive(f, a, b, i)
      modifies this`out
      ensures out == old(out) + Gate(isDryRun, FlowTo(f, a, b, i))
    {
      assert NamesSeenAt(a, b, i);
      if i > 0 {
        var prev := f.blocks[b][i - 1];
        GenerateFlow(SeenAt(f, prev), PostOf(prev, b, i - 1), Pre(b, i));
      }
    }

    method ProcessAt(b: nat, i: nat, ghost a: Analysis)
      requires Prepared(a) && f.At(b, i) && SeenEnough() && live == CurLive(f, a, b, i) && Holds(BorrowsAt(f, a, b, i))
      modifies this`out, this`seen, curBI
      ensures out == old(out) + Gate(isDryRun, FlowTo(f, a, b, i) + OwnClauses(f, a, b, i))
      ensures Holds(BorrowStep(f, f.blocks[b][i], BorrowsAt(f, a, b, i)))
              && seen == old(seen) + SeenAt(f, f.blocks[b][i])
    {
      assert Fits(b, i) && NamesSeenAt(a, b, i);
      GateJoins(isDryRun, out, FlowTo(f, a, b, i), OwnClauses(f, a, b, i));
      FlowInto(b, i, a);
      ProcessInstruction(f.blocks[b][i], Pre(b, i), PostOf(f.blocks[b][i], b, i), BorrowsAt(f, a, b, i));
    }

    /** One instruction of a block: flow into it, its clauses, and what dies after it. */
    method VisitInstruction(b: nat, i: nat, ghost a: Analysis)
      requires Prepared(a) && f.WellFormed() && f.At(b, i) && SeenEnough()
      requires live == CurLive(f, a, b, i) && Holds(BorrowsAt(f, a, b, i)) && Lists(postponed, Pending(f, a, b, i))
      modifies this`out, this`seen, this`live, this`postponed, curBI
      ensures out == old(out) + Gate(isDryRun, FlowTo(f, a, b, i) + VisitClauses(f, a, b, i))
      ensures live == CurLive(f, a, b, i + 1) && Holds(BorrowsAt(f, a, b, i + 1))
              && Lists(postponed, Pending(f, a, b, i + 1))
      ensures seen == old(seen) + SeenAt(f, f.blocks[b][i])
    {
      VisitParts(f, a, b, i);
      GateJoins(isDryRun, out, FlowTo(f, a, b, i) + OwnClauses(f, a, b, i), DeathClauses(f, a, b, i));
      ProcessAt(b, i, a);
      KillAfter(b, i, a);
    }

    method Advance(b: nat, i: nat, ghost a: Analysis, ghost parts: seq<set<Clause>>, ghost base: set<Clause>,
                   ghost was: set<Name>)
      requires Prepared(a) && f.WellFormed() && f.At(b, i) && AreParts(f, a, b, parts)
               && Stands(a, b, i, parts, base, was)
      modifies this`out, this`seen, this`live, this`postponed, curBI
      ensures Stands(a, b, i + 1, parts, base, was)
    {
      assert PartAt(f, a, b, i, parts);
      GateJoins(isDryRun, base, Union(parts, i), parts[i]);
      assert NamesSeenAt(a, b, i);
      VisitInstruction(b, i, a);
    }

    /** Every instruction of a block in turn. */
    method VisitInstructions(b: nat, ghost a: Analysis, ghost parts: seq<set<Clause>>, ghost base: set<Clause>,
                             ghost was: set<Name>)
      requires Prepared(a) && f.WellFormed() && b < |f.blocks| && AreParts(f, a, b, parts)
               && Stands(a, b, 0, parts, base, was)
      modifies this`out, this`seen, this`live, this`postponed, curBI
      ensures Stands(a, b, |f.blocks[b]|, parts, base, was)
    {
      var i := 0;
      while i < |f.blocks[b]|
        invariant i <= |f.blocks[b]| && Stands(a, b, i, parts, base, was)
      {
        Advance(b, i, a, parts, base, was);
        i := i + 1;
      }
    }

    // ----- The edges out of a block -----

    /** The names at the end of block b that are aliases of the value it tests for NULL. */
    method FindTested(b: nat, ghost a: Analysis) returns (tested: set<Name>)
      requires Works(a) && b < |f.blocks| && live == CurLive(f, a, b, |f.blocks[b]|)
               && Holds(BorrowsAt(f, a, b, |f.blocks[b]|))
      ensures tested == (live + {NullConst}) * if f.Term(b).NullBranch? then a.aliases[b] else {}
    {
      tested := {};
      if f.Term(b).NullBranch? {
        assert WorksAt(a, b);
        ghost var bs, p := BorrowsAt(f, a, b, |f.blocks[b]|), f.Term(b).ptr;
        var aliases, below := BorrowAliases.GetAliasesOf(curBI, PathOf(f.Term(b).ptr), false, {});
        forall q ensures q in below <==> q in BelowNames(bs, p) { BelowIs(bs, p, q); }
        assert below == BelowNames(bs, p);
        tested := set n | n in live + {NullConst} && PathOf(n) in aliases;
        forall n ensures n in tested <==> n in live + {NullConst} && n in a.aliases[b] { ReturnedAreNames(bs, p, n); }
      }
    }

    /** Flow along every edge leaving a block. */
    method ProcessControlFlow(b: nat, ghost a: Analysis)
      requires Works(a) && b < |f.blocks| && live == CurLive(f, a, b, |f.blocks[b]|)
               && Holds(BorrowsAt(f, a, b, |f.blocks[b]|))
      modifies this`out
      ensures out == old(out) + Gate(isDryRun, EdgesUpTo(f, a, b, |f.Term(b).Succs()|))
    {
      var term := f.Term(b);
      var j := 0;
      while j < |term.Succs()|
        invariant j <= |term.Succs()| && out == old(out) + Gate(isDryRun, EdgesUpTo(f, a, b, j))
      {
        var succ := term.Succs()[j];
        var names := live + {NullConst};
        var t, t' := Post(b, |f.blocks[b]| - 1), Pre(succ, 0);
        var tested := FindTested(b, a);
        var isNil := term.NullBranch? && term.eq == (succ == term.onTrue);
        EdgeFlowOver(f, a, b, j, names, tested, isNil, t, t');
        var cs := CollectOver(names, n => EdgeFlowName(n, tested, isNil, t, t'));
        GateJoins(isDryRun, old(out), EdgesUpTo(f, a, b, j), EdgeClauses(f, a, b, j));
        Emit(cs);
        j := j + 1;
      }
    }

    /** The deaths that waited for the branch. */
    method KillPostponed(b: nat, ghost a: Analysis)
      requires a.Sized(f) && b < |f.blocks| && Holds(BorrowsAt(f, a, b, |f.blocks[b]|))
               && Lists(postponed, Pending(f, a, b, |f.blocks[b]|))
      modifies curBI
      ensures Holds(BorrowsAtEnd(f, a, b))
    {
      ghost var bs := BorrowsAt(f, a, b, |f.blocks[b]|);
      for k := 0 to |postponed|
        invariant Holds(KillInOrder(bs, postponed[..k]))
      {
        DeathsSoFar(bs, postponed, k);
        HandleDeath(postponed[k], KillInOrder(bs, postponed[..k]));
      }
      assert postponed[..|postponed|] == postponed;
      AfterBranch(f, a, b, postponed);
    }

    method LeaveBlock(b: nat, ghost a: Analysis, ghost parts: seq<set<Clause>>, ghost base: set<Clause>,
                      ghost was: set<Name>)
      requires Works(a) && b < |f.blocks| && Stands(a, b, |f.blocks[b]|, parts, base, was)
      modifies this`out, curBI
      ensures out == base + Gate(isDryRun, Union(parts, |f.blocks[b]|) + EdgesUpTo(f, a, b, |f.Term(b).Succs()|))
      ensures Holds(BorrowsAtEnd(f, a, b))
    {
      GateJoins(isDryRun, base, Union(parts, |f.blocks[b]|), EdgesUpTo(f, a, b, |f.Term(b).Succs()|));
      ProcessControlFlow(b, a);
      KillPostponed(b, a);
    }

    // ----- The start of a block -----

    /** What the blocks ended with; a block that was never visited ended with nothing. */
    ghost predicate EndsHold(ends: seq<Borrows>)
      reads this`endOfBlock, endOfBlock.Values
    {
      |ends| == |f.blocks| && forall p: nat {:trigger EndHolds(p, ends[p])} :: p < |ends| ==> EndHolds(p, ends[p])
    }

    ghost predicate EndHolds(p: nat, end: Borrows)
      reads this`endOfBlock, endOfBlock.Values
    {
      if p in endOfBlock then endOfBlock[p].Valid() && endOfBlock[p].Contents() == Graph(end) else end == {}
    }

    method Incoming(b: nat, ghost ends: seq<Borrows>) returns (incoming: seq<BorrowIndex.BorrowInfo>)
      requires NonEmptyBlocks() && EndsHold(ends)
      ensures forall k :: 0 <= k < |incoming| ==> incoming[k].Valid() && incoming[k] in endOfBlock.Values
      ensures forall x ::
              (exists k :: 0 <= k < |incoming| && x in incoming[k].Contents()) <==> x in Graph(Join(f, ends, b))
    {
      incoming := [];
      for p := 0 to |f.blocks|
        invariant forall k :: 0 <= k < |incoming| ==> incoming[k].Valid() && incoming[k] in endOfBlock.Values
        invariant forall x ::
                  (exists k :: 0 <= k < |incoming| && x in incoming[k].Contents())
                    <==> x in Graph(JoinUpTo(f, ends, b, p))
      {
        assert EndHolds(p, ends[p]);
        ghost var before := incoming;
        JoinNext(f, ends, b, p);
        if b in f.Term(p).Succs() && p in endOfBlock {
          incoming := incoming + [endOfBlock[p]];
          forall x
            ensures (exists k :: 0 <= k < |incoming| && x in incoming[k].Contents()) <==>
                    (exists k :: 0 <= k < |before| && x in before[k].Contents()) || x in endOfBlock[p].Contents()
          {
            if k :| 0 <= k < |before| && x in before[k].Contents() { assert incoming[k] == before[k]; }
            assert incoming[|before|] == endOfBlock[p];
          }
        }
      }
      JoinIsWhole(f, ends, b);
    }

    /** The borrows at the start of a block are those at the ends of its predecessors. */
    method JoinAtStart(b: nat, ghost ends: seq<Borrows>)
      requires NonEmptyBlocks() && EndsHold(ends)
      modifies this`curBI
      ensures fresh(curBI) && Holds(Join(f, ends, b))
    {
      var incoming := Incoming(b, ends);
      curBI := new BorrowIndex.BorrowInfo();
      curBI.JoinFrom(incoming);
      assert curBI.Contents() == Graph(Join(f, ends, b));
    }

    ghost predicate NonEmptyBlocks() { forall b :: 0 <= b < |f.blocks| ==> |f.blocks[b]| > 0 }

    /** What is live at either end of a predecessor. */
    method LiveAtAnyPred(b: nat, ghost a: Analysis) returns (vs: set<Name>)
      requires Works(a)
      ensures vs == PredsLive(f, a, b, |f.blocks|)
    {
      vs := {};
      for p := 0 to |f.blocks|
        invariant vs == PredsLive(f, a, b, p)
      {
        assert WorksAt(a, p);
        PredsLiveNext(f, a, b, p);
        if b in f.Term(p).Succs() { vs := vs + (liveStart[p] + liveEnd[p]); }
      }
    }

    /** These values have died at t; `base` was written and `start` held before. */
    ghost predicate Died(deaths: seq<Name>, t: Point, base: set<Clause>, start: Borrows)
      reads this, curBI
    {
      Holds(KillInOrder(start, deaths)) && out == base + Gate(isDryRun, Killed(Elems(deaths), t))
    }

    method DieNext(x: Name, t: Point, ghost deaths: seq<Name>, ghost base: set<Clause>, ghost start: Borrows)
      requires Died(deaths, t, base, start)
      modifies this`out, curBI
      ensures Died(deaths + [x], t, base, start)
    {
      KillInOrderNext(start, deaths, x);
      OneMoreKilled(base, isDryRun, Elems(deaths), x, t);
      ElemsOneMore(deaths, x);
      HandleDeath(x, KillInOrder(start, deaths));
      Emit(Killed({x}, t));
    }

    /** Visits values in order; those of `before` that are neither live nor arguments die. */
    method DieInOrder(before: set<Name>, t: Point, ghost dead: set<Name>, ghost base: set<Clause>, ghost start: Borrows)
      requires dead == before - live - f.args && Died([], t, base, start)
      modifies this`out, curBI
      ensures Died(InOrder(order, dead), t, base, start)
    {
      ghost var deaths: seq<Name> := [];
      for k := 0 to |order|
        invariant deaths == InOrder(order[..k], dead) && Died(deaths, t, base, start)
      {
        var x := order[k];
        InOrderNext(order, dead, k, deaths);
        if x in before && x !in live && x !in f.args {
          DieNext(x, t, deaths, base, start);
          deaths := deaths + [x];
        }
      }
      assert order[..|order|] == order;
    }

    /** Values that were live in some predecessor but are not live in block b die at its start. */
    method DieAtStart(b: nat, ghost a: Analysis, ghost start: Borrows)
      requires Works(a) && b < |f.blocks| && Holds(start)
      modifies this`out, this`live, curBI
      ensures live == a.liveStart[b] && Holds(KillInOrder(start, a.deathOrder[b]))
      ensures out == old(out) + Gate(isDryRun, Killed(DeadAtStart(f, a, b), Pre(b, 0)))
    {
      var before := LiveAtAnyPred(b, a);
      live := liveStart[b];
      DeadOfPreds(f, a, b);
      assert WorksAt(a, b);
      assert Elems(InOrder(order, DeadAtStart(f, a, b))) == DeadAtStart(f, a, b);
      assert Killed(Elems([]), Pre(b, 0)) == {};
      DieInOrder(before, Pre(b, 0), DeadAtStart(f, a, b), out, start);
    }

    // ----- A block -----

    /** The borrows joined from the predecessors, and the deaths on entry. */
    method EnterBlock(b: nat, ghost a: Analysis, ghost ends: seq<Borrows>, ghost parts: seq<set<Clause>>)
      requires Works(a) && b < |f.blocks| && EndsHold(ends) && SeenEnough() && a.borrowStart[b] == Join(f, ends, b)
      modifies this`out, this`live, this`postponed, this`curBI
      ensures fresh(curBI)
      ensures Stands(a, b, 0, parts, old(out) + Gate(isDryRun, Killed(DeadAtStart(f, a, b), Pre(b, 0))), seen)
    {
      postponed := [];
      JoinAtStart(b, ends);
      DieAtStart(b, a, Join(f, ends, b));
      assert seen + SeenBefore(f, b, 0) == seen;
    }

    /** From the start of a block to its end. */
    method WalkBlock(b: nat, ghost a: Analysis, ghost ends: seq<Borrows>, ghost parts: seq<set<Clause>>)
      requires Prepared(a) && f.WellFormed() && b < |f.blocks| && AreParts(f, a, b, parts)
      requires EndsHold(ends) && SeenEnough() && a.borrowStart[b] == Join(f, ends, b)
      modifies this`out, this`seen, this`live, this`postponed, this`curBI
      ensures out == old(out) + Gate(isDryRun, Killed(DeadAtStart(f, a, b), Pre(b, 0)))
                     + Gate(isDryRun, Union(parts, |f.blocks[b]|) + EdgesUpTo(f, a, b, |f.Term(b).Succs()|))
      ensures fresh(curBI) && Holds(BorrowsAtEnd(f, a, b))
      ensures SeenEnough() && seen == old(seen) + SeenBefore(f, b, |f.blocks[b]|)
    {
      EnterBlock(b, a, ends, parts);
      VisitInstructions(b, a, parts, old(out) + Gate(isDryRun, Killed(DeadAtStart(f, a, b), Pre(b, 0))), seen);
      LeaveBlock(b, a, parts, old(out) + Gate(isDryRun, Killed(DeadAtStart(f, a, b), Pre(b, 0))), old(seen));
    }

    /** A whole block; what it ends with is kept for its successors. */
    method ProcessBlock(b: nat, ghost a: Analysis, ghost ends: seq<Borrows>)
      requires Prepared(a) && f.WellFormed() && b < |f.blocks| && EndsHold(ends) && SeenEnough()
               && a.borrowStart[b] == Join(f, ends, b)
      modifies this`out, this`seen, this`live, this`postponed, this`curBI, this`endOfBlock
      ensures out == old(out) + Gate(isDryRun, BlockClauses(f, a, b)) && EndsHold(ends[b := BorrowsAtEnd(f, a, b)])
      ensures SeenEnough() && seen == old(seen) + SeenBefore(f, b, |f.blocks[b]|)
    {
      InstrsAreParts(f, a, b);
      BlockInParts(f, a, b, isDryRun, out);
      WalkBlock(b, a, ends, InstrParts(f, a, b));
      KeepEnd(b, ends, BorrowsAtEnd(f, a, b));
    }

    method KeepEnd(b: nat, ghost ends: seq<Borrows>, ghost end: Borrows)
      requires EndsHold(ends) && b < |ends| && Holds(end)
      modifies this`endOfBlock
      ensures EndsHold(ends[b := end])
    {
      ghost var after := ends[b := end];
      assert forall p: nat :: p < |ends| ==> EndHolds(p, ends[p]);
      endOfBlock := endOfBlock[b := curBI];
      forall p: nat | p < |after| ensures EndHolds(p, after[p]) { assert p != b ==> old(EndHolds(p, ends[p])); }
    }

    // ----- A pass -----

    /** What holds of the liveness results alone. */
    ghost predicate Given(bare: Analysis) {
      && bare.Sized(f) && bare.liveStart == liveStart && |liveEnd| == |lastUse| == |f.blocks|
      && (forall b: nat {:trigger LivenessAt(bare, b)} :: b < |f.blocks| ==> LivenessAt(bare, b))
      && (forall b: nat, i: nat {:trigger Fits(b, i)} :: f.At(b, i) ==> Fits(b, i))
      && (forall b: nat, i: nat {:trigger NamesSeenAt(bare, b, i)} :: f.At(b, i) ==> NamesSeenAt(bare, b, i))
      && (forall n {:trigger Remembered(n)} :: Remembered(n))
    }

    ghost predicate Remembered(n: Name) { n in met <==> n in Union(BlockNames(f), |f.blocks|) }

    lemma PreparedForPass(bare: Analysis, prev: seq<Borrows>)
      requires Given(bare) && |prev| == |f.blocks|
      ensures Prepared(PassOver(f, bare, prev))
    {
      var a := PassOver(f, bare, prev);
      PassIsAlike(f, bare, prev);
      forall b: nat | b < |f.blocks|
        ensures WorksAt(a, b)
      {
        LivenessCarries(bare, a, b);
        AliasesOfPass(f, bare, prev, b);
      }
      forall b: nat, i: nat | f.At(b, i)
        ensures NamesSeenAt(a, b, i)
      {
        LiveAlike(f, bare, a, b, i);
        assert NamesSeenAt(bare, b, i);
      }
    }

    lemma LivenessCarries(bare: Analysis, a: Analysis, b: nat)
      requires Alike(f, bare, a) && |liveEnd| == |lastUse| == |f.blocks| && b < |f.blocks| && LivenessAt(bare, b)
      ensures LivenessAt(a, b)
    {
      DeathsAlike(f, bare, a, b);
      forall i: nat | i < |f.blocks[b]|
        ensures LastUsesAt(a, b, i)
      {
        assert LastUsesAt(bare, b, i);
        LastUsesAlike(f, bare, a, b, i);
      }
    }

    /** A pass has come to block b; `steps` is what the blocks have ended with before each block,
        `parts` and `names` what each block adds to what was written and seen before the pass. */
    ghost predicate BlocksDone(b: nat, steps: seq<seq<Borrows>>, parts: seq<set<Clause>>, names: seq<set<Name>>,
                               base: set<Clause>, was: set<Name>)
      reads this, endOfBlock.Values
      requires b < |steps| && b <= |parts| && b <= |names|
    {
      && EndsHold(steps[b]) && out == base + Gate(isDryRun, Union(parts, b))
      && SeenEnough() && seen == was + Union(names, b)
    }

    ghost predicate PassGiven(a: Analysis, steps: seq<seq<Borrows>>, parts: seq<set<Clause>>, names: seq<set<Name>>) {
      && Prepared(a) && f.WellFormed() && |steps| == |f.blocks| + 1 && |parts| == |names| == |f.blocks|
      && (forall b: nat {:trigger StepsOn(f, a, steps, b)} :: b < |f.blocks| ==> StepsOn(f, a, steps, b))
      && (forall b: nat {:trigger BlockAt(f, a, parts, b)} :: b < |f.blocks| ==> BlockAt(f, a, parts, b))
      && (forall b: nat {:trigger NamesAt(f, names, b)} :: b < |f.blocks| ==> NamesAt(f, names, b))
    }

    method NextBlock(b: nat, ghost a: Analysis, ghost steps: seq<seq<Borrows>>, ghost parts: seq<set<Clause>>,
                     ghost names: seq<set<Name>>,
                     ghost base: set<Clause>, ghost was: set<Name>)
      requires PassGiven(a, steps, parts, names) && b < |f.blocks| && BlocksDone(b, steps, parts, names, base, was)
      modifies this`out, this`seen, this`live, this`postponed, this`curBI, this`endOfBlock
      ensures BlocksDone(b + 1, steps, parts, names, base, was)
    {
      assert StepsOn(f, a, steps, b) && BlockAt(f, a, parts, b) && NamesAt(f, names, b);
      GateJoins(isDryRun, base, Union(parts, b), parts[b]);
      ProcessBlock(b, a, steps[b]);
    }

    /** The blocks in their order. */
    method RunBlocks(ghost a: Analysis, ghost steps: seq<seq<Borrows>>, ghost parts: seq<set<Clause>>,
                     ghost names: seq<set<Name>>,
                     ghost base: set<Clause>, ghost was: set<Name>)
      requires PassGiven(a, steps, parts, names) && BlocksDone(0, steps, parts, names, base, was)
      modifies this`out, this`seen, this`live, this`postponed, this`curBI, this`endOfBlock
      ensures BlocksDone(|f.blocks|, steps, parts, names, base, was)
    {
      var b := 0;
      while b < |f.blocks|
        invariant b <= |f.blocks| && BlocksDone(b, steps, parts, names, base, was)
      {
        NextBlock(b, a, steps, parts, names, base, was);
        b := b + 1;
      }
    }

    /** A pass over the blocks. */
    method RunPass(ghost bare: Analysis, ghost prev: seq<Borrows>) returns (ghost ends: seq<Borrows>)
      requires Given(bare) && f.WellFormed() && EndsHold(prev) && SeenEnough()
      modifies this`out, this`seen, this`live, this`postponed, this`curBI, this`endOfBlock
      ensures ends == Pass(f, bare, prev) && EndsHold(ends)
      ensures out == old(out) + Gate(isDryRun, BlocksUpTo(f, PassOver(f, bare, prev), |f.blocks|))
      ensures SeenEnough() && seen == old(seen) + met
    {
      forall n ensures n in met <==> n in Union(BlockNames(f), |f.blocks|) { assert Remembered(n); }
      assert met == Union(BlockNames(f), |f.blocks|);
      PreparedForPass(bare, prev);
      ghost var a, steps := PassOver(f, bare, prev), StepsOf(f, bare, prev);
      PassSteps(f, bare, prev, steps);
      BlocksArePart(f, a);
      assert out + Gate(isDryRun, {}) == out && seen + {} == seen;
      RunBlocks(a, steps, BlockParts(f, a), BlockNames(f), out, seen);
      ends := steps[|f.blocks|];
    }

    // ----- The whole function -----

    /** The number of dry runs. */
    ghost function LastRun(): nat { if |all| == 1 then 1 else 2 }

    /** Pass after pass: `runs` is what the blocks ended with before each, `writes` what each would
        write. */
    ghost predicate RunsGiven(bare: Analysis, runs: seq<seq<Borrows>>, writes: seq<set<Clause>>) {
      && Given(bare) && f.WellFormed() && all == {NullConst} + f.args + met && |runs| == 4 && |writes| == 3
      && (forall k: nat {:trigger RunAt(f, bare, runs, writes, k)} :: k < 3 ==> RunAt(f, bare, runs, writes, k))
    }

    /** Where the dry runs stand after k of them. */
    ghost predicate DryRunsDone(k: nat, runs: seq<seq<Borrows>>, prevNum: int)
      reads this, endOfBlock.Values
      requires k <= 2 < |runs|
    {
      && isDryRun && out == EntryClauses() && EndsHold(runs[k])
      && (k == 0 ==> prevNum == -1 && seen == {NullConst})
      && (k == 1 ==> prevNum == 1 && seen == all)
      && (k == 2 ==> prevNum == |seen| && seen == all && |all| != 1)
    }

    ghost predicate AllWritten(writes: seq<set<Clause>>)
      reads this
      requires |writes| == 3
    {
      !isDryRun && seen == all && out == EntryClauses() + writes[LastRun()]
    }

    method RunNext(ghost k: nat, ghost bare: Analysis, ghost runs: seq<seq<Borrows>>, ghost writes: seq<set<Clause>>)
      requires RunsGiven(bare, runs, writes) && k < 3 && EndsHold(runs[k]) && SeenEnough()
      modifies this`out, this`seen, this`live, this`postponed, this`curBI, this`endOfBlock
      ensures EndsHold(runs[k + 1]) && out == old(out) + Gate(isDryRun, writes[k])
      ensures SeenEnough() && seen == old(seen) + met
    {
      assert RunAt(f, bare, runs, writes, k);
      ghost var ends := RunPass(bare, runs[k]);
    }

    /** One more pass: a dry run as long as the one before it met new names. */
    method RunOnce(prevNum0: int, ghost k: nat, ghost bare: Analysis, ghost runs: seq<seq<Borrows>>,
                   ghost writes: seq<set<Clause>>)
      returns (prevNum: int)
      requires RunsGiven(bare, runs, writes) && k <= 2 && DryRunsDone(k, runs, prevNum0)
      modifies this`isDryRun, this`out, this`seen, this`live, this`postponed, this`curBI, this`endOfBlock
      ensures if isDryRun then k <= 1 && DryRunsDone(k + 1, runs, prevNum) else AllWritten(writes)
    {
      if prevNum0 == |seen| { isDryRun := false; }
      prevNum := |seen|;
      AllStay(all, f.args, met);
      assert |{NullConst}| == 1;
      seen := seen + f.args;
      RunNext(k, bare, runs, writes);
    }

    /** Dry runs until a pass starts with as many names as the one before it, then the last pass. */
    method RunAll(ghost bare: Analysis, ghost runs: seq<seq<Borrows>>, ghost writes: seq<set<Clause>>)
      requires RunsGiven(bare, runs, writes) && isDryRun && out == EntryClauses() && seen == {NullConst}
               && EndsHold(runs[0])
      modifies this`isDryRun, this`out, this`seen, this`live, this`postponed, this`curBI, this`endOfBlock
      ensures AllWritten(writes)
    {
      var prevNum := -1;
      ghost var k := 0;
      while isDryRun
        invariant if isDryRun then k <= 2 && DryRunsDone(k, runs, prevNum) else AllWritten(writes)
        decreases isDryRun, 3 - k
      {
        prevNum := RunOnce(prevNum, k, bare, runs, writes);
        k := k + 1;
      }
    }

    /** The whole function: what is written is exactly the clauses for the settled analysis. */
    method RunOnFunction()
      requires f.WellFormed() && LiveFor(f, liveStart) && Given(Bare(f, liveStart, order))
               && all == {NullConst} + f.args + met
      requires out == {} && endOfBlock == map[]
      modifies this
      ensures out == AllClauses(f, Settled(f, liveStart, order))
      ensures forall asgn :: Satisfies(asgn, out) <==> Obeyed(f, Settled(f, liveStart, order), asgn)
    {
      ghost var bare := Bare(f, liveStart, order);
      ghost var runs, writes := SomeRuns(f, bare);
      out := out + EntryClauses();
      seen := {NullConst};
      isDryRun := true;
      assert EndsHold(runs[0]);
      RunAll(bare, runs, writes);
      forall n ensures n in met <==> n in Union(BlockNames(f), |f.blocks|) { assert Remembered(n); }
      EverythingSeen(f, met);
      LastRunWrites(f, liveStart, order, runs, writes);
      out := out + MutClauses(seen);
      forall asgn ensures Satisfies(asgn, out) <==> Obeyed(f, Settled(f, liveStart, order), asgn) {
        ClausesMean(f, Settled(f, liveStart, order), asgn);
      }
    }
  }

  ghost predicate RunAt(f: Func, bare: Analysis, runs: seq<seq<Borrows>>, writes: seq<set<Clause>>, k: nat)
    requires bare.Sized(f) && k < 3 && |runs| == 4 && |writes| == 3
  {
    && |runs[k]| == |f.blocks| && runs[k + 1] == Pass(f, bare, runs[k])
    && writes[k] == BlocksUpTo(f, PassOver(f, bare, runs[k]), |f.blocks|)
  }

  lemma SomeRuns(f: Func, bare: Analysis) returns (runs: seq<seq<Borrows>>, writes: seq<set<Clause>>)
    requires bare.Sized(f)
    ensures |runs| == 4 && |writes| == 3 && runs[0] == NoBorrows(f)
    ensures forall k: nat {:trigger RunAt(f, bare, runs, writes, k)} :: k < 3 ==> RunAt(f, bare, runs, writes, k)
  {
    var none := NoBorrows(f);
    var once := Pass(f, bare, none);
    var twice := Pass(f, bare, once);
    runs := [none, once, twice, Pass(f, bare, twice)];
    writes := seq(3, k requires 0 <= k < 3 => BlocksUpTo(f, PassOver(f, bare, runs[k]), |f.blocks|));
  }

  /** What a pass works with, from what the blocks ended with before. */
  ghost function PassOver(f: Func, bare: Analysis, prev: seq<Borrows>): (a: Analysis)
    requires bare.Sized(f) && |prev| == |f.blocks|
    ensures a.Sized(f)
  {
    WithAliases(f, WithStarts(f, bare, prev))
  }

  lemma PassIsAlike(f: Func, bare: Analysis, prev: seq<Borrows>)
    requires bare.Sized(f) && |prev| == |f.blocks|
    ensures Alike(f, bare, PassOver(f, bare, prev))
  {
  }

  lemma AliasesOfPass(f: Func, bare: Analysis, prev: seq<Borrows>, b: nat)
    requires bare.Sized(f) && |prev| == |f.blocks| && b < |f.blocks|
    ensures PassOver(f, bare, prev).aliases[b] == AliasesAt(f, PassOver(f, bare, prev), b)
  {
    BorrowsAlike(f, WithStarts(f, bare, prev), PassOver(f, bare, prev), b, |f.blocks[b]|);
  }

  /** What the blocks have ended with before each block of a pass, and after the last. */
  ghost function StepsOf(f: Func, bare: Analysis, prev: seq<Borrows>): seq<seq<Borrows>>
    requires bare.Sized(f) && |prev| == |f.blocks|
  {
    seq(|f.blocks| + 1, b requires 0 <= b < |f.blocks| + 1 => PassUpTo(f, bare, prev, b))
  }

  /** Block b joins what stands before it, and what it ends with replaces what stood there. */
  ghost predicate StepsOn(f: Func, a: Analysis, steps: seq<seq<Borrows>>, b: nat)
    requires a.Sized(f) && b < |f.blocks| && |steps| == |f.blocks| + 1
  {
    && |steps[b]| == |f.blocks| && a.borrowStart[b] == Join(f, steps[b], b)
    && steps[b + 1] == steps[b][b := BorrowsAtEnd(f, a, b)]
  }

  ghost predicate BlockAt(f: Func, a: Analysis, parts: seq<set<Clause>>, b: nat)
    requires a.Sized(f) && b < |f.blocks| == |parts|
  {
    parts[b] == BlockClauses(f, a, b)
  }

  /** The names that each block makes the generator remember. */
  function BlockNames(f: Func): seq<set<Name>> {
    seq(|f.blocks|, b requires 0 <= b < |f.blocks| => SeenBefore(f, b, |f.blocks[b]|))
  }

  ghost predicate NamesAt(f: Func, names: seq<set<Name>>, b: nat)
    requires b < |f.blocks| == |names|
  {
    names[b] == SeenBefore(f, b, |f.blocks[b]|)
  }

  lemma BlocksArePart(f: Func, a: Analysis)
    requires a.Sized(f)
    ensures forall b: nat {:trigger NamesAt(f, BlockNames(f), b)} :: b < |f.blocks| ==> NamesAt(f, BlockNames(f), b)
    ensures forall b: nat {:trigger BlockAt(f, a, BlockParts(f, a), b)} ::
            b < |f.blocks| ==> BlockAt(f, a, BlockParts(f, a), b)
  {
  }

  /** In a pass, block after block is joined and left. */
  lemma PassSteps(f: Func, bare: Analysis, prev: seq<Borrows>, steps: seq<seq<Borrows>>)
    requires bare.Sized(f) && |prev| == |f.blocks| && steps == StepsOf(f, bare, prev)
    ensures |steps| == |f.blocks| + 1 && steps[0] == prev && steps[|f.blocks|] == Pass(f, bare, prev)
    ensures forall b: nat {:trigger StepsOn(f, PassOver(f, bare, prev), steps, b)} ::
            b < |f.blocks| ==> StepsOn(f, PassOver(f, bare, prev), steps, b)
  {
    forall b: nat | b < |f.blocks|
      ensures StepsOn(f, PassOver(f, bare, prev), steps, b)
    {
      PassStepsOn(f, bare, prev, steps, b);
    }
  }

  lemma PassStepsOn(f: Func, bare: Analysis, prev: seq<Borrows>, steps: seq<seq<Borrows>>, b: nat)
    requires bare.Sized(f) && |prev| == |f.blocks| && |steps| == |f.blocks| + 1 && b < |f.blocks|
    requires steps[b] == PassUpTo(f, bare, prev, b) && steps[b + 1] == PassUpTo(f, bare, prev, b + 1)
    ensures StepsOn(f, PassOver(f, bare, prev), steps, b)
  {
    PassStep(f, bare, prev, b, steps[b]);
  }

  lemma PassStep(f: Func, bare: Analysis, prev: seq<Borrows>, b: nat, ends: seq<Borrows>)
    requires bare.Sized(f) && |prev| == |f.blocks| && b < |f.blocks| && ends == PassUpTo(f, bare, prev, b)
    ensures PassOver(f, bare, prev).borrowStart[b] == Join(f, ends, b)
    ensures ends[b := BorrowsAtEnd(f, PassOver(f, bare, prev), b)] == PassUpTo(f, bare, prev, b + 1)
  {
    var a := PassOver(f, bare, prev);
    BorrowsAtIsAlong(f, a, b, |f.blocks[b]|);
    EndsAlike(f, bare, a, b, Join(f, ends, b));
  }

  lemma {:induction false} SeenBeforeIs(f: Func, b: nat, i: nat, n: Name)
    requires b < |f.blocks| && i <= |f.blocks[b]|
    ensures n in SeenBefore(f, b, i) <==> exists j :: 0 <= j < i && n in SeenAt(f, f.blocks[b][j])
    decreases i
  {
    if i > 0 { SeenBeforeIs(f, b, i - 1, n); }
  }

  lemma {:induction false} InUnionOf(parts: seq<set<Name>>, m: nat, n: Name)
    requires m <= |parts|
    ensures n in Union(parts, m) <==> exists b :: 0 <= b < m && n in parts[b]
    decreases m
  {
    if m > 0 { InUnionOf(parts, m - 1, n); }
  }

  lemma SeenInBlocks(f: Func, n: Name)
    ensures n in Union(BlockNames(f), |f.blocks|) <==>
            exists b, j :: 0 <= b < |f.blocks| && 0 <= j < |f.blocks[b]| && n in SeenAt(f, f.blocks[b][j])
  {
    InUnionOf(BlockNames(f), |f.blocks|, n);
    forall b | 0 <= b < |f.blocks|
      ensures n in BlockNames(f)[b] <==> exists j :: 0 <= j < |f.blocks[b]| && n in SeenAt(f, f.blocks[b][j])
    {
      SeenBeforeIs(f, b, |f.blocks[b]|, n);
    }
  }

  /** The last run is the one after the dry runs, and what it writes completes the clauses. */
  lemma LastRunWrites(f: Func, liveStart: seq<set<Name>>, order: seq<Name>, runs: seq<seq<Borrows>>,
                      writes: seq<set<Clause>>)
    requires LiveFor(f, liveStart) && |runs| == 4 && |writes| == 3 && runs[0] == NoBorrows(f)
    requires forall k: nat {:trigger RunAt(f, Bare(f, liveStart, order), runs, writes, k)} ::
             k < 3 ==> RunAt(f, Bare(f, liveStart, order), runs, writes, k)
    ensures EntryClauses() + writes[if |Seen(f)| == 1 then 1 else 2] + MutClauses(Seen(f))
            == AllClauses(f, Settled(f, liveStart, order))
  {
    var bare := Bare(f, liveStart, order);
    assert RunAt(f, bare, runs, writes, 0) && RunAt(f, bare, runs, writes, 1) && RunAt(f, bare, runs, writes, 2);
    var last := if |Seen(f)| == 1 then 1 else 2;
    assert runs[last] == DryRuns(f, bare);
    assert Settled(f, liveStart, order) == PassOver(f, bare, runs[last]);
  }

  /** After the first pass nothing new is seen. */
  lemma AllStay(all: set<Name>, args: set<Name>, met: set<Name>)
    requires all == {NullConst} + args + met
    ensures all + args == all && all + met == all
  {
  }

  lemma EverythingSeen(f: Func, met: set<Name>)
    requires forall n :: n in met <==> n in Union(BlockNames(f), |f.blocks|)
    ensures {NullConst} + f.args + met == Seen(f)
  {
    forall n ensures n in {NullConst} + f.args + met <==> n in Seen(f) { SeenInBlocks(f, n); }
  }

  lemma BlockInParts(f: Func, a: Analysis, b: nat, isDryRun: bool, w: set<Clause>)
    requires a.Sized(f) && b < |f.blocks|
    ensures w + Gate(isDryRun, Killed(DeadAtStart(f, a, b), Pre(b, 0)))
              + Gate(isDryRun, Union(InstrParts(f, a, b), |f.blocks[b]|) + EdgesUpTo(f, a, b, |f.Term(b).Succs()|))
            == w + Gate(isDryRun, BlockClauses(f, a, b))
  {
    var dead, written := Killed(DeadAtStart(f, a, b), Pre(b, 0)), Union(InstrParts(f, a, b), |f.blocks[b]|);
    var edges := EdgesUpTo(f, a, b, |f.Term(b).Succs()|);
    Regroup(dead, written, edges);
    GateJoins(isDryRun, w, dead, written + edges);
  }

  /** What is live at either end of those of the first n blocks that are predecessors of b. */
  function PredsLive(f: Func, a: Analysis, b: nat, n: nat): set<Name>
    requires a.Sized(f) && n <= |f.blocks|
  {
    set p, v | 0 <= p < n && b in f.Term(p).Succs() && v in a.liveStart[p] + LiveOut(f, a, p) :: v
  }

  lemma PredsLiveNext(f: Func, a: Analysis, b: nat, n: nat)
    requires a.Sized(f) && n < |f.blocks|
    ensures PredsLive(f, a, b, n + 1) ==
            PredsLive(f, a, b, n) + if b in f.Term(n).Succs() then a.liveStart[n] + LiveOut(f, a, n) else {}
  {
  }

  lemma DeadOfPreds(f: Func, a: Analysis, b: nat)
    requires a.Sized(f) && b < |f.blocks|
    ensures DeadAtStart(f, a, b) == PredsLive(f, a, b, |f.blocks|) - a.liveStart[b] - f.args
  {
  }

  /** What the first n blocks contribute to the join at block b. */
  function JoinUpTo(f: Func, ends: seq<Borrows>, b: nat, n: nat): Borrows
    requires |ends| == |f.blocks| && n <= |f.blocks| && forall p :: 0 <= p < |f.blocks| ==> |f.blocks[p]| > 0
  {
    set p, e | 0 <= p < n && b in f.Term(p).Succs() && e in ends[p] :: e
  }

  lemma JoinNext(f: Func, ends: seq<Borrows>, b: nat, n: nat)
    requires |ends| == |f.blocks| && n < |f.blocks| && forall p :: 0 <= p < |f.blocks| ==> |f.blocks[p]| > 0
    ensures Graph(JoinUpTo(f, ends, b, n + 1)) ==
            Graph(JoinUpTo(f, ends, b, n)) + if b in f.Term(n).Succs() then Graph(ends[n]) else {}
    ensures Graph(JoinUpTo(f, ends, b, 0)) == {}
  {
    var more := if b in f.Term(n).Succs() then ends[n] else {};
    assert JoinUpTo(f, ends, b, n + 1) == JoinUpTo(f, ends, b, n) + more;
  }

  lemma JoinIsWhole(f: Func, ends: seq<Borrows>, b: nat)
    requires |ends| == |f.blocks| && forall p :: 0 <= p < |f.blocks| ==> |f.blocks[p]| > 0
    ensures JoinUpTo(f, ends, b, |f.blocks|) == Join(f, ends, b)
  {
  }

  function OwnClauses(f: Func, a: Analysis, b: nat, i: nat): set<Clause>
    requires a.Sized(f) && f.At(b, i)
  {
    var inst := f.blocks[b][i];
    InstrClauses(f, CurLive(f, a, b, i), BorrowsAt(f, a, b, i), inst, Pre(b, i), PostOf(inst, b, i))
  }

  lemma VisitParts(f: Func, a: Analysis, b: nat, i: nat)
    requires a.Sized(f) && f.At(b, i)
    ensures FlowTo(f, a, b, i) + OwnClauses(f, a, b, i) + DeathClauses(f, a, b, i)
            == FlowTo(f, a, b, i) + VisitClauses(f, a, b, i)
  {
    var inst := f.blocks[b][i];
    Regroup(OwnClauses(f, a, b, i), Killed(LastUse(f, a, b, i), PostOf(inst, b, i)), AtReturn(f, inst));
    Regroup(FlowTo(f, a, b, i), OwnClauses(f, a, b, i), DeathClauses(f, a, b, i));
  }

  lemma Regroup(x: set<Clause>, y: set<Clause>, z: set<Clause>)
    ensures x + y + z == x + (y + z)
  {
  }

  /** What is written for a block, instruction after instruction. */
  ghost predicate AreParts(f: Func, a: Analysis, b: nat, parts: seq<set<Clause>>)
    requires a.Sized(f) && b < |f.blocks|
  {
    |parts| == |f.blocks[b]| && forall i: nat {:trigger PartAt(f, a, b, i, parts)} ::
      i < |f.blocks[b]| ==> PartAt(f, a, b, i, parts)
  }

  ghost predicate PartAt(f: Func, a: Analysis, b: nat, i: nat, parts: seq<set<Clause>>)
    requires a.Sized(f) && f.At(b, i) && |parts| == |f.blocks[b]|
  {
    parts[i] == FlowTo(f, a, b, i) + VisitClauses(f, a, b, i)
  }

  lemma InstrsAreParts(f: Func, a: Analysis, b: nat)
    requires a.Sized(f) && b < |f.blocks|
    ensures AreParts(f, a, b, InstrParts(f, a, b))
  {
  }

  /** The names that the first i instructions of block b make the generator remember. */
  function SeenBefore(f: Func, b: nat, i: nat): set<Name>
    requires b < |f.blocks| && i <= |f.blocks[b]|
  {
    if i == 0 then {} else SeenBefore(f, b, i - 1) + SeenAt(f, f.blocks[b][i - 1])
  }

  lemma AfterBranch(f: Func, a: Analysis, b: nat, postponed: seq<Name>)
    requires a.Sized(f) && b < |f.blocks| && Lists(postponed, Pending(f, a, b, |f.blocks[b]|))
    ensures KillInOrder(BorrowsAt(f, a, b, |f.blocks[b]|), postponed) == BorrowsAtEnd(f, a, b)
  {
    var n := |f.blocks[b]|;
    if Waits(f, b) {
      OneDeath(f.blocks[b][n - 2], LastUse(f, a, b, n - 2), postponed, BorrowsAt(f, a, b, n));
    } else {
      ListedOnce(postponed, {});
    }
  }

  /** The borrows after the deaths at an instruction. */
  lemma AfterDeaths(f: Func, a: Analysis, b: nat, i: nat, dying: seq<Name>)
    requires a.Sized(f) && f.At(b, i) && Lists(dying, LastUse(f, a, b, i))
    ensures Elems(dying) == LastUse(f, a, b, i)
    ensures var bs := BorrowStep(f, f.blocks[b][i], BorrowsAt(f, a, b, i));
            BorrowsAt(f, a, b, i + 1) == if Postponed(f, b, i) then bs else KillInOrder(bs, dying)
  {
    OneDeath(f.blocks[b][i], LastUse(f, a, b, i), dying, BorrowStep(f, f.blocks[b][i], BorrowsAt(f, a, b, i)));
  }

  /** The values waiting for the branch. */
  lemma StillWaiting(f: Func, a: Analysis, b: nat, i: nat, dying: seq<Name>, postponed: seq<Name>)
    requires a.Sized(f) && f.WellFormed() && f.At(b, i)
    requires Lists(dying, LastUse(f, a, b, i)) && Lists(postponed, Pending(f, a, b, i))
    ensures Lists(if Postponed(f, b, i) then postponed + dying else postponed, Pending(f, a, b, i + 1))
  {
    WaitingNext(f, a, b, i);
    if Postponed(f, b, i) {
      ListedOnce(postponed, {});
      assert postponed + dying == dying;
    }
  }

  /** A death waits only for the branch right after it. */
  lemma WaitingNext(f: Func, a: Analysis, b: nat, i: nat)
    requires a.Sized(f) && f.WellFormed() && f.At(b, i)
    ensures Postponed(f, b, i) ==> Pending(f, a, b, i) == {} && Pending(f, a, b, i + 1) == LastUse(f, a, b, i)
    ensures !Postponed(f, b, i) ==> Pending(f, a, b, i + 1) == Pending(f, a, b, i)
  {
    if Postponed(f, b, i) { BranchIsLast(f, b, i); }
  }

  function AtReturn(f: Func, inst: Instr): set<Clause> {
    if inst.Return? || inst.ReturnVoid? then Killed(f.args, End) else {}
  }

  function DeathClauses(f: Func, a: Analysis, b: nat, i: nat): set<Clause>
    requires a.Sized(f) && f.At(b, i)
  {
    Killed(LastUse(f, a, b, i), PostOf(f.blocks[b][i], b, i)) + AtReturn(f, f.blocks[b][i])
  }

  function Elems(xs: seq<Name>): set<Name> { set x | x in xs }

  lemma ElemsNext(xs: seq<Name>, k: nat)
    requires k < |xs|
    ensures xs[..k + 1] == xs[..k] + [xs[k]] && Elems(xs[..k + 1]) == Elems(xs[..k]) + {xs[k]}
  {
  }

  lemma ElemsOneMore(xs: seq<Name>, x: Name)
    ensures Elems(xs + [x]) == Elems(xs) + {x}
  {
  }

  lemma OneLess(s: set<Name>, gone: set<Name>, x: Name)
    ensures s - gone - {x} == s - (gone + {x})
  {
  }

  lemma OneMoreKilled(w: set<Clause>, isDryRun: bool, gone: set<Name>, x: Name, t: Point)
    ensures w + Gate(isDryRun, Killed(gone, t)) + Gate(isDryRun, Killed({x}, t))
            == w + Gate(isDryRun, Killed(gone + {x}, t))
  {
    assert Killed(gone + {x}, t) == Killed(gone, t) + Killed({x}, t);
    GateJoins(isDryRun, w, Killed(gone, t), Killed({x}, t));
  }

  lemma LentIsFound(bs: Borrows, p: Name, found: seq<Borrow>, e: (Name, Name))
    requires forall b :: b in found <==> b in Graph(bs) && BorrowGraph.StartsWith(b.from, PathOf(p))
    ensures e in LentBy(bs, p) <==> exists b :: b in found && b.to != [] && e == (p, NameOf(b.to[0]))
  {
    if e in LentBy(bs, p) {
      InGraph(bs, e);
      BaseStarts(e.0, p);
      NameOfId(e.1);
      assert BorrowOf(e) in found;
    }
    if b :| b in found && b.to != [] && e == (p, NameOf(b.to[0])) {
      var e' := PairOf(bs, b);
      BaseStarts(e'.0, p);
      NameOfId(e'.1);
    }
  }

  // ----- Generating the clauses of a function -----

  lemma DefIsSeen(f: Func, b: nat, i: nat)
    requires f.WellFormed() && f.At(b, i)
    ensures SeenAt(f, f.blocks[b][i]) <= Seen(f)
    ensures !f.blocks[b][i].Terminator() ==> SeenAt(f, f.blocks[b][i]) <= Seen(f) - {Ret, NullConst}
  {
  }

  /** Strict SSA form makes every name met in a walk a name that has been seen. */
  lemma NamesAreSeen(g: Generator, bare: Analysis, dom: seq<set<Name>>, b: nat, i: nat)
    requires Analysed(g.f, bare, dom) && OperandsDefined(g.f) && g.all == Seen(g.f) && g.f.At(b, i)
    ensures g.NamesSeenAt(bare, b, i)
  {
    LiveIsSeen(g.f, bare, dom, b, i);
    DefIsSeen(g.f, b, i);
    if i > 0 {
      assert g.f.At(b, i - 1);
      DefIsSeen(g.f, b, i - 1);
    }
  }

  lemma BareDeaths(f: Func, liveStart: seq<set<Name>>, order: seq<Name>, b: nat)
    requires LiveFor(f, liveStart) && b < |f.blocks|
    ensures var bare := Bare(f, liveStart, order); bare.deathOrder[b] == InOrder(order, DeadAtStart(f, bare, b))
  {
    DeathsAlike(f, Blank(f, liveStart), Bare(f, liveStart, order), b);
  }

  lemma LastUsesAreGiven(g: Generator, bare: Analysis, b: nat)
    requires bare.Sized(g.f) && bare.liveStart == g.liveStart && b < |g.f.blocks|
    requires Liveness.AreLastUses(g.f, g.liveStart, g.lastUse)
    ensures |g.lastUse| == |g.f.blocks| && |g.lastUse[b]| == |g.f.blocks[b]|
    ensures forall i: nat {:trigger g.LastUsesAt(bare, b, i)} :: i < |g.f.blocks[b]| ==> g.LastUsesAt(bare, b, i)
  {
    assert g.f.At(b, 0);
    forall i: nat | i < |g.f.blocks[b]| ensures g.LastUsesAt(bare, b, i) { assert g.f.At(b, i); }
  }

  lemma LivenessIsGiven(g: Generator, dom: seq<set<Name>>, b: nat)
    requires LiveFor(g.f, g.liveStart) && Analysed(g.f, Bare(g.f, g.liveStart, g.order), dom) && b < |g.f.blocks|
    requires |g.liveEnd| == |g.f.blocks| && g.liveEnd[b] == Out(g.f.Flow(), g.liveStart, b)
    requires Liveness.AreLastUses(g.f, g.liveStart, g.lastUse) && forall n :: n in UsedNames(g.f) ==> n in g.order
    ensures |g.lastUse| == |g.f.blocks| && g.LivenessAt(Bare(g.f, g.liveStart, g.order), b)
  {
    var bare := Bare(g.f, g.liveStart, g.order);
    BareDeaths(g.f, g.liveStart, g.order, b);
    DeadAreUsed(g.f, bare, dom, b);
    LastUsesAreGiven(g, bare, b);
  }

  /** Liveness, the dry runs and the last pass: the clauses of a function in strict SSA form, for the
      order in which its values are visited. */
  method Generate(f: Func, order: seq<Name>, ghost dom: seq<set<Name>>)
    returns (out: set<Clause>, ghost liveStart: seq<set<Name>>)
    requires f.WellFormed() && f.StrictSSA(dom) && OperandsDefined(f) && forall n :: n in UsedNames(f) ==> n in order
    requires forall b, i, n :: f.At(b, i) && n in f.blocks[b][i].Operands() + f.blocks[b][i].Defs() ==> Numbered(n)
    ensures LiveFor(f, liveStart) && LeastSolution(f.Flow(), liveStart)
    ensures out == AllClauses(f, Settled(f, liveStart, order))
    ensures forall asgn :: Satisfies(asgn, out) <==> Obeyed(f, Settled(f, liveStart, order), asgn)
  {
    var starts, ends, lastUse := Liveness.ComputeLiveness(f);
    liveStart := starts;
    var g := new Generator(f, order, starts, ends, lastUse);
    ghost var bare := Bare(f, starts, order);
    EverythingSeen(f, g.met);
    forall b: nat | b < |f.blocks| ensures g.LivenessAt(bare, b) { LivenessIsGiven(g, dom, b); }
    forall b: nat, i: nat | f.At(b, i) ensures g.NamesSeenAt(bare, b, i) { NamesAreSeen(g, bare, dom, b, i); }
    forall n ensures g.Remembered(n) { }
    g.RunOnFunction();
    out := g.out;
  }
}
