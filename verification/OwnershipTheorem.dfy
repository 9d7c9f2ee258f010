/** The ownership theorem: for whole runs of any function that meets the generator's assumptions,
    an assignment satisfying the clauses rules out memory errors, and the only blocks that leak are
    those that dead definitions have taken over. */
module OwnershipTheorem {
  import opened DataFlow
  import opened PointerIR
  import opened OwnershipClauses
  import opened Execution
  import opened LiveFacts
  import opened CopyValues
  import opened OwnershipSoundness
  import opened LostBlocks

  /** A function together with what the analyses computed for it and an assignment: `dom` and
      `root` witness strict SSA form and copy chains. */
  datatype Program = Program(f: Func, a: Analysis, dom: seq<set<Name>>, root: Name -> Name, asgn: Assignment) {

    /** The two targets of every null branch differ. */
    ghost predicate DistinctTargets() {
      forall b, i :: f.At(b, i) && f.blocks[b][i].NullBranch? ==> f.blocks[b][i].onTrue != f.blocks[b][i].onFalse
    }

    /** What is left, after the deaths at a block start, of the borrows at the end of a predecessor is
        among the borrows there. */
    ghost predicate BorrowsStable()
      requires a.Sized(f)
    {
      && (forall b, j :: 0 <= b < |f.blocks| && 0 <= j < |f.Term(b).Succs()| ==>
            ArrivesIn(f, a, b, f.Flow().succ[b][j]))
      && (forall b, x :: 0 <= b < |f.blocks| ==> (x in a.deathOrder[b] <==> x in DeadAtStart(f, a, b)))
    }

    /** Aliases found for a tested pointer come from following copies. */
    ghost predicate AliasesAreCopies()
      requires a.Sized(f)
    {
      forall b, n ::
        0 <= b < |f.blocks| && f.Term(b).NullBranch? && n in a.aliases[b] ==> root(n) == root(f.Term(b).ptr)
    }

    ghost predicate Analysable() {
      && Analysed(f, a, dom) && CopyRoots(f, root)
      && BorrowsStable() && AliasesAreCopies()
    }

    ghost predicate Compliant() {
      && Analysable()
      && DistinctTargets()
      && Satisfies(asgn, AllClauses(f, a))
    }
  }

  ghost predicate ArrivesIn(f: Func, a: Analysis, b: nat, c: nat)
    requires a.Sized(f) && b < |f.blocks| && c < |f.blocks|
  {
    KillInOrder(BorrowsAtEnd(f, a, b), a.deathOrder[c]) <= BorrowsAt(f, a, c, 0)
  }

  lemma ClausesOfInstr(p: Program, b: nat, i: nat)
    requires p.Compliant() && p.f.At(b, i)
    ensures Satisfies(p.asgn, VisitClauses(p.f, p.a, b, i))
  {
    InstrIsWritten(p.f, p.a, b, i);
  }

  lemma ClausesOfFlow(p: Program, b: nat, i: nat)
    requires p.Compliant() && p.f.At(b, i)
    ensures Satisfies(p.asgn, FlowTo(p.f, p.a, b, i))
  {
    InstrIsWritten(p.f, p.a, b, i);
  }

  lemma ClausesAtStart(p: Program, b: nat)
    requires p.Compliant() && b < |p.f.blocks|
    ensures Satisfies(p.asgn, Killed(DeadAtStart(p.f, p.a, b), Pre(b, 0)))
  {
    InstrIsWritten(p.f, p.a, b, 0);
  }

  lemma ClausesOfEdge(p: Program, b: nat, j: nat)
    requires p.Compliant() && b < |p.f.blocks| && j < |p.f.Term(b).Succs()|
    ensures Satisfies(p.asgn, EdgeClauses(p.f, p.a, b, j))
  {
    EdgeIsWritten(p.f, p.a, b, j);
  }

  lemma ResponsibleIsMut(p: Program, b: nat, i: nat, d: Name)
    requires p.Compliant() && p.f.At(b, i) && d in SeenAt(p.f, p.f.blocks[b][i]) && d != NullConst
    requires Responsible(d) in p.asgn
    ensures Mut(d) in p.asgn
  {
    assert d in Seen(p.f);
    assert Implies(Responsible(d), Mut(d)) in MutClauses(Seen(p.f));
    Follow(p.asgn, AllClauses(p.f, p.a), Responsible(d), Mut(d));
  }

  ghost predicate OwnAt(p: Program, b: nat, i: nat, s: State, g: Ghosts)
    requires p.a.Sized(p.f) && b < |p.f.blocks| && i <= |p.f.blocks[b]|
  {
    Own(p.f, p.asgn, Tracked(p.f, p.a, b, i), Pre(b, i), BorrowsAt(p.f, p.a, b, i), s, g)
  }

  // ----- The invariant along a run -----

  /** Ghost record of a run: the state of each name, the definitions executed so far, and the blocks
      taken over by dead definitions. */
  datatype Trace = Trace(status: Ghosts, defined: set<Name>, lost: set<nat>)

  /** An instruction whose definition is kept track of but is dead. */
  predicate DefinesDead(f: Func, a: Analysis, b: nat, i: nat)
    requires a.Sized(f) && f.At(b, i)
  {
    var inst := f.blocks[b][i];
    (inst.Malloc? || (inst.VarStore? && f.HasUses(inst.dest))) && inst.dest !in Scan(f, a, b, i + 1)
  }

  ghost function StatusAfter(p: Program, b: nat, i: nat, s': State, g: Ghosts): Ghosts
    requires p.a.Sized(p.f) && p.f.At(b, i)
  {
    var g' := Updated(p.f, p.asgn, p.f.blocks[b][i], s', g);
    if DefinesDead(p.f, p.a, b, i) then g'[p.f.blocks[b][i].dest := SZombie] else g'
  }

  /** The block that a dead definition takes over. */
  ghost function TakenOver(p: Program, b: nat, i: nat, s': State, g: Ghosts): set<nat>
    requires p.a.Sized(p.f) && p.f.At(b, i)
  {
    var inst := p.f.blocks[b][i];
    if DefinesDead(p.f, p.a, b, i) then Taken(p.asgn, s', Updated(p.f, p.asgn, inst, s', g), inst.dest) else {}
  }

  ghost function NextTrace(p: Program, s: State, s': State, tr: Trace): Trace
    requires p.a.Sized(p.f)
  {
    if s.pc.At? && p.f.At(s.pc.b, s.pc.i) then
      Trace(StatusAfter(p, s.pc.b, s.pc.i, s', tr.status), NowDefined(p.f, s, tr.defined),
            tr.lost + TakenOver(p, s.pc.b, s.pc.i, s', tr.status))
    else tr
  }

  /** What holds of a state from which the lost blocks are gone. */
  ghost predicate Inner(p: Program, s: State, g: Ghosts, defined: set<Name>)
    requires p.a.Sized(p.f) && |p.dom| == |p.f.blocks|
  {
    match s.pc
    case At(b, i) =>
      && p.f.At(b, i)
      && OwnAt(p, b, i, s, g)
      && CopyInv(p.f, p.dom, p.root, s, defined)
    case Done(v) => ReturnedOnly(s, v)
  }

  ghost predicate Inv(p: Program, s: State, tr: Trace)
    requires p.a.Sized(p.f) && |p.dom| == |p.f.blocks|
  {
    Inner(p, Hidden(s, tr.lost), tr.status, tr.defined) && StillThere(s, tr.lost)
  }

  /** Whatever is still unfreed is the block handed to the caller. */
  ghost predicate ReturnedOnly(s: State, v: Name) {
    forall a :: a in s.heap && s.heap[a] == Unfreed ==> Val(s, v) == VPtr(a)
  }

  /** Nothing being defined is live before its definition. */
  lemma DefinedAreNotLive(p: Program, b: nat, i: nat, s: State, g: Ghosts, defined: set<Name>)
    requires p.Compliant() && s.pc == At(b, i) && Inner(p, s, g, defined)
    ensures p.f.blocks[b][i].Defs() !! CurLive(p.f, p.a, b, i)
  {
    CurLiveIsDominated(p.f, p.a, p.dom, b, i);
    DefinitionIsFresh(p.f, p.dom, p.root, s, defined);
  }

  /** Fewer live names, fewer clauses. */
  lemma InstrClausesShrink(f: Func, asgn: Assignment, less: set<Name>, live: set<Name>, bs: Borrows, inst: Instr,
                           pre: Point, post: Point)
    requires less <= live && Satisfies(asgn, InstrClauses(f, live, bs, inst, pre, post))
    ensures Satisfies(asgn, InstrClauses(f, less, bs, inst, pre, post))
  {
    var own, touched := OwnPart(f, bs, inst, pre, post), Touched(f, inst);
    ByParts(f, live, bs, inst, pre, post);
    ByParts(f, less, bs, inst, pre, post);
    Parts(asgn, own, Preserve(live + {NullConst} - touched, pre, post));
    forall c | c in Preserve(less + {NullConst} - touched, pre, post)
      ensures SatisfiesClause(asgn, c)
    {
      assert c in Preserve(live + {NullConst} - touched, pre, post);
    }
  }

  /** The clauses of an instruction on its operands. */
  function OwnPart(f: Func, bs: Borrows, inst: Instr, pre: Point, post: Point): set<Clause> {
    match inst
    case Malloc(d) => MallocClauses(d, post)
    case Free(p, fclose) => FreeClauses(bs, p, fclose, pre, post)
    case VarStore(d, s) => if f.HasUses(d) then PtrCopyClauses(bs, d, s, pre, post) else {}
    case Load(p) => DerefClauses(p, pre) + (set e | e in bs && e.0 == p :: {Neg(Mut(e.1))})
    case Store(p) => {{Pos(Mut(p))}} + DerefClauses(p, pre) + (if Borrowed(bs, p) then {{}} else {})
    case Return(v) => ReturnClauses(bs, v, pre)
    case _ => {}
  }

  /** The names an instruction does not simply preserve. */
  function Touched(f: Func, inst: Instr): set<Name> {
    match inst
    case Malloc(d) => {d}
    case Free(p, _) => {p}
    case VarStore(d, s) => if f.HasUses(d) then {d, s} else {}
    case Return(v) => {v}
    case _ => {}
  }

  lemma ByParts(f: Func, live: set<Name>, bs: Borrows, inst: Instr, pre: Point, post: Point)
    ensures InstrClauses(f, live, bs, inst, pre, post)
            == OwnPart(f, bs, inst, pre, post) + Preserve(live + {NullConst} - Touched(f, inst), pre, post)
  {
    assert live + {NullConst} - {} == live + {NullConst};
  }

  lemma InstrIsReady(p: Program, b: nat, i: nat, s: State, g: Ghosts, defined: set<Name>)
    requires p.Compliant() && s.pc == At(b, i) && Inner(p, s, g, defined)
    requires !p.f.blocks[b][i].Terminator()
    ensures Ready(p.f, p.asgn, Tracked(p.f, p.a, b, i), BorrowsAt(p.f, p.a, b, i), p.f.blocks[b][i], Pre(b, i),
                  Post(b, i))
    ensures p.f.blocks[b][i].Uses() !! p.f.blocks[b][i].Defs()
  {
    var f := p.f;
    var inst := f.blocks[b][i];
    var live, bs := CurLive(f, p.a, b, i), BorrowsAt(f, p.a, b, i);
    ClausesOfInstr(p, b, i);
    assert InstrClauses(f, live, bs, inst, Pre(b, i), Post(b, i)) <= VisitClauses(f, p.a, b, i);
    OperandsAreTracked(f, p.a, p.dom, b, i);
    InstrClausesShrink(f, p.asgn, Tracked(f, p.a, b, i), live, bs, inst, Pre(b, i), Post(b, i));
    DefinedAreNotLive(p, b, i, s, g, defined);
    if inst.VarStore? && f.HasUses(inst.dest) && Responsible(inst.dest) in p.asgn {
      ResponsibleIsMut(p, b, i, inst.dest);
    }
  }

  /** A step to the next instruction of the block, as the machine and the ghost record see it. */
  ghost predicate Moves(p: Program, b: nat, i: nat, s: State, s': State, defined: set<Name>) {
    var f := p.f;
    && |p.dom| == |f.blocks| && f.At(b, i) && f.At(b, i + 1) && !f.blocks[b][i].Terminator()
    && s.pc == At(b, i) && s'.pc == At(b, i + 1) && Effect(f.blocks[b][i], s, s')
    && CopyInv(f, p.dom, p.root, s', defined)
  }

  lemma PrepareMove(p: Program, b: nat, i: nat, s: State, s': State, defined: set<Name>)
    requires Strict(p.f, p.dom, p.root) && p.f.At(b, i) && s.pc == At(b, i) && Step(p.f, s, s')
    requires CopyInv(p.f, p.dom, p.root, s, defined) && !p.f.blocks[b][i].Terminator()
    ensures Moves(p, b, i, s, s', NowDefined(p.f, s, defined))
  {
    CopyInvWithin(p.f, p.dom, p.root, s, s', defined);
    StepWithin(p.f, s, s');
  }

  /** What is tracked after instruction i of block b, before its last uses die. */
  function LiveAfter(f: Func, a: Analysis, b: nat, i: nat): set<Name>
    requires a.Sized(f) && f.At(b, i)
  {
    Tracked(f, a, b, i) + if DefinesDead(f, a, b, i) then {} else NewNames(f, f.blocks[b][i])
  }

  ghost predicate TracksOn(f: Func, a: Analysis, b: nat, i: nat)
    requires a.Sized(f) && f.At(b, i)
  {
    && Tracked(f, a, b, i + 1) <= LiveAfter(f, a, b, i) <= Tracked(f, a, b, i + 1) + LastUse(f, a, b, i) + f.args
    && Tracked(f, a, b, i + 1) !! LastUse(f, a, b, i)
  }

  lemma TrackingGoesOn(f: Func, a: Analysis, dom: seq<set<Name>>, b: nat, i: nat)
    requires Analysed(f, a, dom) && f.At(b, i) && f.blocks[b][i].Defs() !! CurLive(f, a, b, i)
    requires f.blocks[b][i].Uses() !! f.blocks[b][i].Defs()
    ensures TracksOn(f, a, b, i)
  {
    var inst := f.blocks[b][i];
    TrackedNext(f, a, dom, b, i);
    ScanIsUsed(f, a, dom, b, i + 1);
    forall d | d in inst.Defs() && d in Scan(f, a, b, i + 1) ensures d.Local? && f.HasUses(d) { UsedIsLocal(f, d); }
    assert LiveAfter(f, a, b, i) == Tracked(f, a, b, i) + set d | d in inst.Defs() && d in Scan(f, a, b, i + 1);
  }

  /** The clauses for the instruction, its last uses and the flow to the next one. */
  ghost predicate Cleared(p: Program, b: nat, i: nat) {
    var f, a := p.f, p.a;
    && a.Sized(f) && f.At(b, i) && f.At(b, i + 1)
    && Ready(f, p.asgn, Tracked(f, a, b, i), BorrowsAt(f, a, b, i), f.blocks[b][i], Pre(b, i), Post(b, i))
    && TracksOn(f, a, b, i)
    && Satisfies(p.asgn, VisitClauses(f, a, b, i)) && Satisfies(p.asgn, FlowTo(f, a, b, i + 1))
  }

  lemma PrepareClauses(p: Program, b: nat, i: nat, s: State, g: Ghosts, defined: set<Name>)
    requires p.Compliant() && s.pc == At(b, i) && Inner(p, s, g, defined) && p.f.At(b, i + 1)
    requires !p.f.blocks[b][i].Terminator()
    ensures Cleared(p, b, i)
  {
    InstrIsReady(p, b, i, s, g, defined);
    DefinedAreNotLive(p, b, i, s, g, defined);
    TrackingGoesOn(p.f, p.a, p.dom, b, i);
    ClausesOfInstr(p, b, i);
    ClausesOfFlow(p, b, i + 1);
  }

  /** A step inside a block: the instruction, a dead definition, last uses, and the flow to the next. */
  lemma StepWithinBlock(p: Program, b: nat, i: nat, s: State, s': State, g: Ghosts, defined: set<Name>)
    requires Moves(p, b, i, s, s', defined) && Cleared(p, b, i) && OwnAt(p, b, i, s, g)
    ensures Inner(p, Hidden(s', TakenOver(p, b, i, s', g)), StatusAfter(p, b, i, s', g), defined)
    ensures !MemoryError(p.f, s)
  {
    InstrKeepsOwn(p, b, i, s, s', g);
    CopyInvHidden(p, s', TakenOver(p, b, i, s', g), defined);
  }

  /** Copies are a matter of values. */
  lemma CopyInvHidden(p: Program, s: State, lost: set<nat>, defined: set<Name>)
    requires |p.dom| == |p.f.blocks| && CopyInv(p.f, p.dom, p.root, s, defined)
    ensures CopyInv(p.f, p.dom, p.root, Hidden(s, lost), defined)
  {
    SameValues(s, lost);
  }

  lemma StepInside(p: Program, b: nat, i: nat, s: State, s': State, g: Ghosts, defined: set<Name>)
    requires p.Compliant() && s.pc == At(b, i) && Inner(p, s, g, defined) && Step(p.f, s, s')
    requires !p.f.blocks[b][i].Terminator()
    ensures Inner(p, Hidden(s', TakenOver(p, b, i, s', g)), StatusAfter(p, b, i, s', g), NowDefined(p.f, s, defined))
    ensures !MemoryError(p.f, s)
  {
    PrepareMove(p, b, i, s, s', defined);
    PrepareClauses(p, b, i, s, g, defined);
    StepWithinBlock(p, b, i, s, s', g, NowDefined(p.f, s, defined));
  }

  /** A dead definition goes, with the block it has taken over. */
  lemma DefinitionGoes(f: Func, asgn: Assignment, live: set<Name>, bs: Borrows, inst: Instr, pre: Point, post: Point,
                       s: State, s': State, g: Ghosts, g': Ghosts)
    requires Own(f, asgn, live, pre, bs, s, g) && Effect(inst, s, s') && Ready(f, asgn, live, bs, inst, pre, post)
    requires inst.Malloc? || (inst.VarStore? && f.HasUses(inst.dest))
    requires g' == Updated(f, asgn, inst, s', g)
    requires Own(f, asgn, live + {inst.dest}, post, BorrowStep(f, inst, bs), s', g')
    ensures Own(f, asgn, live, post, BorrowStep(f, inst, bs), Hidden(s', Taken(asgn, s', g', inst.dest)),
                g'[inst.dest := SZombie])
  {
    var d := inst.dest;
    assert d in inst.Defs();
    if inst.Malloc? {
      MallocHasNone(f, asgn, live, pre, bs, s, s', g, d);
    } else {
      Parts(asgn, PtrCopyClauses(bs, d, inst.src, pre, post), Preserve(live + {NullConst} - {d, inst.src}, pre, post));
      CopyHasNone(f, asgn, live, pre, post, bs, s, s', g, d, inst.src);
    }
    OwnDrops(f, asgn, live, d, post, BorrowStep(f, inst, bs), s', g');
  }

  lemma InstrKeepsOwn(p: Program, b: nat, i: nat, s: State, s': State, g: Ghosts)
    requires Cleared(p, b, i) && !p.f.blocks[b][i].Terminator() && OwnAt(p, b, i, s, g)
    requires Effect(p.f.blocks[b][i], s, s')
    ensures OwnAt(p, b, i + 1, Hidden(s', TakenOver(p, b, i, s', g)), StatusAfter(p, b, i, s', g))
    ensures !ErrorAt(p.f.blocks[b][i], s)
  {
    var f, a, asgn, inst := p.f, p.a, p.asgn, p.f.blocks[b][i];
    var live, bs, g' := Tracked(f, a, b, i), BorrowsAt(f, a, b, i), Updated(f, asgn, inst, s', g);
    AfterInstr(f, asgn, live, bs, inst, Pre(b, i), Post(b, i), s, s', g, g');
    if DefinesDead(f, a, b, i) {
      DefinitionGoes(f, asgn, live, bs, inst, Pre(b, i), Post(b, i), s, s', g, g');
    } else {
      HiddenTwice(s', {}, {});
    }
    assert LiveAfter(f, a, b, i) == live + if DefinesDead(f, a, b, i) then {} else NewNames(f, inst);
    assert live + {} == live;
    WithinBlock(f, a, asgn, b, i, Hidden(s', TakenOver(p, b, i, s', g)), StatusAfter(p, b, i, s', g));
  }

  lemma OperandDies(f: Func, a: Analysis, asgn: Assignment, b: nat, i: nat, live: set<Name>, t: Point, bs: Borrows,
                    s: State, g: Ghosts)
    requires a.Sized(f) && f.At(b, i) && Own(f, asgn, live, t, bs, s, g) && live !! LastUse(f, a, b, i)
    ensures Own(f, asgn, live, t, KillLastUse(f, a, b, i, bs), s, g)
  {
    forall x | x in LastUse(f, a, b, i)
      ensures Own(f, asgn, live, t, KillBorrows(bs, x), s, g)
    {
      OwnSplices(f, asgn, live, t, bs, s, g, x);
    }
  }

  /** Last uses, and the flow to the next instruction. */
  lemma WithinBlock(f: Func, a: Analysis, asgn: Assignment, b: nat, i: nat, s': State, g': Ghosts)
    requires a.Sized(f) && f.At(b, i) && f.At(b, i + 1) && !f.blocks[b][i].Terminator() && TracksOn(f, a, b, i)
    requires Own(f, asgn, LiveAfter(f, a, b, i), Post(b, i),
                 BorrowStep(f, f.blocks[b][i], BorrowsAt(f, a, b, i)), s', g')
    requires Satisfies(asgn, VisitClauses(f, a, b, i)) && Satisfies(asgn, FlowTo(f, a, b, i + 1))
    ensures Own(f, asgn, Tracked(f, a, b, i + 1), Pre(b, i + 1), BorrowsAt(f, a, b, i + 1), s', g')
  {
    var inst := f.blocks[b][i];
    var bs := BorrowStep(f, inst, BorrowsAt(f, a, b, i));
    var live' := Tracked(f, a, b, i + 1);
    var names := CurLive(f, a, b, i + 1) + {NullConst} + SeenAt(f, inst);
    assert Killed(LastUse(f, a, b, i), Post(b, i)) <= VisitClauses(f, a, b, i);
    assert Preserve(names, Post(b, i), Pre(b, i + 1)) == FlowTo(f, a, b, i + 1);
    OwnKills(f, asgn, LiveAfter(f, a, b, i), live', LastUse(f, a, b, i), Post(b, i), bs, s', g');
    OwnFlows(f, asgn, live', names, Post(b, i), Pre(b, i + 1), bs, s', g');
    if !Postponed(f, b, i) {
      OperandDies(f, a, asgn, b, i, live', Pre(b, i + 1), bs, s', g');
    }
  }

  // ----- Control-flow edges -----

  ghost predicate IsNullEdge(term: Instr, succ: nat)
    requires term.NullBranch?
  {
    term.eq == (succ == term.onTrue)
  }

  ghost function Tested(f: Func, a: Analysis, b: nat): set<Name>
    requires a.Sized(f) && b < |f.blocks|
  {
    if f.Term(b).NullBranch? then a.aliases[b] else {}
  }

  /** On the edge taken, exactly the NULL case or exactly the other case holds of every alias. */
  ghost predicate TestedAgree(f: Func, a: Analysis, b: nat, c: nat, s: State)
    requires a.Sized(f) && b < |f.blocks|
  {
    forall n :: n in Tested(f, a, b) && n in CurLive(f, a, b, |f.blocks[b]|) + {NullConst} ==>
      (IsNullEdge(f.Term(b), c) <==> Val(s, n) == VNull)
  }

  /** Along an edge, the states that do not flow are states no alias can be in there. */
  lemma EdgeFlows(f: Func, a: Analysis, asgn: Assignment, b: nat, j: nat, bs: Borrows, s: State, g: Ghosts)
    requires a.Sized(f) && b < |f.blocks| && j < |f.Term(b).Succs()|
    requires Own(f, asgn, Tracked(f, a, b, |f.blocks[b]|), Post(b, |f.blocks[b]| - 1), bs, s, g)
    requires Satisfies(asgn, EdgeClauses(f, a, b, j)) && TestedAgree(f, a, b, f.Term(b).Succs()[j], s)
    ensures Own(f, asgn, Tracked(f, a, b, |f.blocks[b]|), Pre(f.Term(b).Succs()[j], 0), bs, s, g)
  {
    var succ := f.Term(b).Succs()[j];
    var names, tested := CurLive(f, a, b, |f.blocks[b]|) + {NullConst}, Tested(f, a, b);
    var t, t' := Post(b, |f.blocks[b]| - 1), Pre(succ, 0);
    var cs := EdgeClauses(f, a, b, j);
    var live := Tracked(f, a, b, |f.blocks[b]|);
    forall n | n in live || n == NullConst
      ensures StatusAtom(St(g, n), n, t') in asgn
    {
      assert n in names && StatusAtom(St(g, n), n, t) in asgn;
      if n !in tested {
        assert Preserve(names - tested, t, t') <= cs;
        PreserveOne(asgn, names - tested, t, t', n, St(g, n));
      } else {
        assert St(g, n) == SNull <==> IsNullEdge(f.Term(b), succ);
        assert n in names * tested;
        assert Implies(StatusAtom(St(g, n), n, t), StatusAtom(St(g, n), n, t')) in cs;
        Follow(asgn, cs, StatusAtom(St(g, n), n, t), StatusAtom(St(g, n), n, t'));
      }
    }
    assert StatusAtom(St(g, NullConst), NullConst, t') in asgn;
  }

  lemma TerminatorPreserves(f: Func, a: Analysis, asgn: Assignment, b: nat, i: nat)
    requires a.Sized(f) && f.At(b, i) && Cond(f.blocks[b][i])
    requires Satisfies(asgn, VisitClauses(f, a, b, i))
    ensures Satisfies(asgn, Preserve(CurLive(f, a, b, i) + {NullConst}, Pre(b, i), Post(b, i)))
  {
    var live, bs := CurLive(f, a, b, i), BorrowsAt(f, a, b, i);
    assert InstrClauses(f, live, bs, f.blocks[b][i], Pre(b, i), Post(b, i))
           == Preserve(live + {NullConst}, Pre(b, i), Post(b, i));
  }

  lemma TerminatorKeeps(f: Func, a: Analysis, asgn: Assignment, b: nat, i: nat, s: State, g: Ghosts)
    requires a.Sized(f) && f.At(b, i) && Cond(f.blocks[b][i])
    requires Own(f, asgn, Tracked(f, a, b, i), Pre(b, i), BorrowsAt(f, a, b, i), s, g)
    requires Satisfies(asgn, VisitClauses(f, a, b, i))
    ensures Own(f, asgn, Tracked(f, a, b, i + 1), Post(b, i), BorrowsAt(f, a, b, i + 1), s, g)
  {
    TerminatorFlows(f, a, asgn, b, i, s, g);
    BranchUsesNothing(f, a, b, i);
  }

  ghost predicate Cond(inst: Instr) { inst.Jump? || inst.Branch? || inst.NullBranch? }

  lemma BranchUsesNothing(f: Func, a: Analysis, b: nat, i: nat)
    requires a.Sized(f) && f.At(b, i) && Cond(f.blocks[b][i])
    ensures CurLive(f, a, b, i + 1) == CurLive(f, a, b, i) && Tracked(f, a, b, i + 1) == Tracked(f, a, b, i)
    ensures BorrowsAt(f, a, b, i + 1) == BorrowsAt(f, a, b, i)
  {
    assert Scan(f, a, b, i) == Scan(f, a, b, i + 1);
  }

  lemma TerminatorFlows(f: Func, a: Analysis, asgn: Assignment, b: nat, i: nat, s: State, g: Ghosts)
    requires a.Sized(f) && f.At(b, i) && Cond(f.blocks[b][i])
    requires Own(f, asgn, Tracked(f, a, b, i), Pre(b, i), BorrowsAt(f, a, b, i), s, g)
    requires Satisfies(asgn, VisitClauses(f, a, b, i))
    ensures Own(f, asgn, Tracked(f, a, b, i), Post(b, i), BorrowsAt(f, a, b, i), s, g)
  {
    TerminatorPreserves(f, a, asgn, b, i);
    OwnFlows(f, asgn, Tracked(f, a, b, i), CurLive(f, a, b, i) + {NullConst}, Pre(b, i), Post(b, i),
             BorrowsAt(f, a, b, i), s, g);
  }

  /** What the death postponed to after the branch does to the borrows, and that it spares what is
      still live. */
  lemma PostponedBorrows(f: Func, a: Analysis, b: nat)
    requires a.Sized(f) && b < |f.blocks| && |f.blocks[b]| >= 2 && Postponed(f, b, |f.blocks[b]| - 2)
    ensures var n := |f.blocks[b]|;
            && BorrowsAtEnd(f, a, b) == KillLastUse(f, a, b, n - 2, BorrowsAt(f, a, b, n))
            && CurLive(f, a, b, n - 1) !! LastUse(f, a, b, n - 2)
  {
    assert f.blocks[b][|f.blocks[b]| - 2].Defs() == {};
  }

  lemma PostponedDeath(f: Func, a: Analysis, asgn: Assignment, b: nat, live: set<Name>, t: Point, bs: Borrows,
                       s: State, g: Ghosts)
    requires a.Sized(f) && b < |f.blocks| && CurLive(f, a, b, |f.blocks[b]|) == CurLive(f, a, b, |f.blocks[b]| - 1)
    requires live <= CurLive(f, a, b, |f.blocks[b]|) && bs == BorrowsAt(f, a, b, |f.blocks[b]|)
    requires Own(f, asgn, live, t, bs, s, g)
    ensures Own(f, asgn, live, t, BorrowsAtEnd(f, a, b), s, g)
  {
    var n := |f.blocks[b]|;
    if n >= 2 && Postponed(f, b, n - 2) {
      PostponedBorrows(f, a, b);
      OperandDies(f, a, asgn, b, n - 2, live, t, bs, s, g);
    } else {
      assert BorrowsAtEnd(f, a, b) == bs;
    }
  }

  /** All that an edge depends on. */
  ghost predicate EdgePrepared(f: Func, a: Analysis, asgn: Assignment, b: nat, j: nat, s: State) {
    && a.Sized(f) && b < |f.blocks| && j < |f.Term(b).Succs()|
    && f.Term(b).Succs()[j] < |f.blocks|
    && EdgeMeets(f, a, asgn, b, j, f.Term(b).Succs()[j], s)
  }

  ghost predicate EdgeMeets(f: Func, a: Analysis, asgn: Assignment, b: nat, j: nat, c: nat, s: State)
    requires a.Sized(f) && b < |f.blocks| && j < |f.Term(b).Succs()| && c < |f.blocks|
  {
    && EdgeCleared(f, a, asgn, b, j, c, s)
    && Satisfies(asgn, Killed(DeadAtStart(f, a, c), Pre(c, 0)))
    && a.liveStart[c] <= Tracked(f, a, b, |f.blocks[b]|) <= a.liveStart[c] + f.args + DeadAtStart(f, a, c)
    && Tracked(f, a, c, 0) == a.liveStart[c]
    && ArrivesIn(f, a, b, c)
    && (forall x :: x in a.deathOrder[c] ==> x in DeadAtStart(f, a, c))
  }

  ghost predicate EdgeCleared(f: Func, a: Analysis, asgn: Assignment, b: nat, j: nat, c: nat, s: State)
    requires a.Sized(f) && b < |f.blocks| && j < |f.Term(b).Succs()| && c < |f.blocks|
  {
    && Satisfies(asgn, VisitClauses(f, a, b, |f.blocks[b]| - 1))
    && Satisfies(asgn, EdgeClauses(f, a, b, j))
    && TestedAgree(f, a, b, c, s)
  }

  lemma EdgeLeaves(f: Func, a: Analysis, asgn: Assignment, b: nat, j: nat, s: State, g: Ghosts)
    requires a.Sized(f) && b < |f.blocks| && j < |f.Term(b).Succs()| && f.Term(b).Succs()[j] < |f.blocks|
    requires EdgeCleared(f, a, asgn, b, j, f.Term(b).Succs()[j], s)
    requires Own(f, asgn, Tracked(f, a, b, |f.blocks[b]| - 1), Pre(b, |f.blocks[b]| - 1),
             BorrowsAt(f, a, b, |f.blocks[b]| - 1), s, g)
    ensures Own(f, asgn, Tracked(f, a, b, |f.blocks[b]|), Pre(f.Term(b).Succs()[j], 0), BorrowsAtEnd(f, a, b), s, g)
  {
    assert f.blocks[b][|f.blocks[b]| - 1] == f.Term(b);
    TerminatorKeeps(f, a, asgn, b, |f.blocks[b]| - 1, s, g);
    BranchUsesNothing(f, a, b, |f.blocks[b]| - 1);
    var live, bs := Tracked(f, a, b, |f.blocks[b]|), BorrowsAt(f, a, b, |f.blocks[b]|);
    EdgeFlows(f, a, asgn, b, j, bs, s, g);
    PostponedDeath(f, a, asgn, b, live, Pre(f.Term(b).Succs()[j], 0), bs, s, g);
  }

  lemma EdgeKeepsOwn(f: Func, a: Analysis, asgn: Assignment, b: nat, j: nat, s: State, g: Ghosts)
    requires EdgePrepared(f, a, asgn, b, j, s)
    requires Own(f, asgn, Tracked(f, a, b, |f.blocks[b]| - 1), Pre(b, |f.blocks[b]| - 1),
             BorrowsAt(f, a, b, |f.blocks[b]| - 1), s, g)
    ensures Own(f, asgn, Tracked(f, a, f.Term(b).Succs()[j], 0), Pre(f.Term(b).Succs()[j], 0),
                BorrowsAt(f, a, f.Term(b).Succs()[j], 0), s, g)
  {
    var c := f.Term(b).Succs()[j];
    var live, t := Tracked(f, a, b, |f.blocks[b]|), Pre(c, 0);
    EdgeLeaves(f, a, asgn, b, j, s, g);
    var bs := BorrowsAtEnd(f, a, b);
    OwnKills(f, asgn, live, a.liveStart[c], DeadAtStart(f, a, c), t, bs, s, g);
    OwnSplicesAll(f, asgn, a.liveStart[c], t, bs, s, g, a.deathOrder[c]);
    OwnMoreBorrows(f, asgn, a.liveStart[c], t, KillInOrder(bs, a.deathOrder[c]), BorrowsAt(f, a, c, 0), s, g);
  }

  /** The edge a step takes. */
  lemma EdgeTaken(p: Program, b: nat, s: State, s': State) returns (j: nat)
    requires p.f.WellFormed() && b < |p.f.blocks| && s.pc == At(b, |p.f.blocks[b]| - 1) && Step(p.f, s, s')
    requires p.f.Term(b).Jump? || p.f.Term(b).Branch? || p.f.Term(b).NullBranch?
    ensures j < |p.f.Term(b).Succs()| && p.f.Term(b).Succs()[j] < |p.f.blocks|
    ensures s' == s.(pc := At(p.f.Term(b).Succs()[j], 0))
    ensures p.f.Term(b).NullBranch? && p.f.Term(b).onTrue != p.f.Term(b).onFalse ==>
              (IsNullEdge(p.f.Term(b), p.f.Term(b).Succs()[j]) <==> Val(s, p.f.Term(b).ptr) == VNull)
  {
    assert p.f.At(b, |p.f.blocks[b]| - 1);
    var succs := p.f.Term(b).Succs();
    j := if s'.pc.b == succs[0] then 0 else 1;
  }

  /** The aliases found for a null test are decided by the edge. */
  lemma AliasesTested(f: Func, a: Analysis, root: Name -> Name, b: nat, c: nat, s: State)
    requires a.Sized(f) && b < |f.blocks|
    requires f.Term(b).NullBranch? ==>
      && (IsNullEdge(f.Term(b), c) <==> Val(s, f.Term(b).ptr) == VNull)
      && (forall n :: n in a.aliases[b] ==> root(n) == root(f.Term(b).ptr))
      && (forall n :: n in CurLive(f, a, b, |f.blocks[b]|) + {NullConst} && root(n) == root(f.Term(b).ptr) ==>
            Val(s, n) == Val(s, f.Term(b).ptr))
    ensures TestedAgree(f, a, b, c, s)
  {
  }

  lemma LiveIsDominating(f: Func, a: Analysis, dom: seq<set<Name>>, b: nat, i: nat)
    requires Analysed(f, a, dom) && b < |f.blocks| && i < |f.blocks[b]|
    ensures CurLive(f, a, b, i) <= Dominating(f, dom, b, i)
  {
    CurLiveIsDominated(f, a, dom, b, i);
  }

  lemma PrepareEdge(p: Program, b: nat, j: nat, s: State, g: Ghosts, defined: set<Name>)
    requires p.Compliant() && b < |p.f.blocks| && s.pc == At(b, |p.f.blocks[b]| - 1) && Inner(p, s, g, defined)
    requires j < |p.f.Term(b).Succs()| && p.f.Term(b).Succs()[j] < |p.f.blocks|
    requires TestedAgree(p.f, p.a, b, p.f.Term(b).Succs()[j], s)
    ensures EdgePrepared(p.f, p.a, p.asgn, b, j, s)
  {
    assert p.f.At(b, |p.f.blocks[b]| - 1);
    ClausesOfInstr(p, b, |p.f.blocks[b]| - 1);
    ClausesOfEdge(p, b, j);
    ClausesAtStart(p, p.f.Term(b).Succs()[j]);
    TrackedAcrossEdge(p.f, p.a, p.dom, b, j);
    TrackedAtStart(p.f, p.a, p.dom, p.f.Term(b).Succs()[j]);
    assert p.f.Flow().succ[b][j] == p.f.Term(b).Succs()[j];
  }

  /** Everything about the edge that a step takes. */
  ghost predicate Crosses(p: Program, b: nat, j: nat, s: State, s': State, g: Ghosts, defined: set<Name>) {
    && |p.dom| == |p.f.blocks|
    && EdgePrepared(p.f, p.a, p.asgn, b, j, s)
    && s.pc == At(b, |p.f.blocks[b]| - 1)
    && s' == s.(pc := At(p.f.Term(b).Succs()[j], 0)) && p.f.At(p.f.Term(b).Succs()[j], 0)
    && CopyInv(p.f, p.dom, p.root, s', defined)
  }

  lemma BranchIsDistinct(p: Program, b: nat)
    requires p.Compliant() && b < |p.f.blocks|
    ensures p.f.Term(b).NullBranch? ==> p.f.Term(b).onTrue != p.f.Term(b).onFalse
    ensures p.f.Term(b).Terminator()
  {
    assert p.f.At(b, |p.f.blocks[b]| - 1);
  }

  lemma EdgeIsTested(p: Program, b: nat, j: nat, s: State, g: Ghosts, defined: set<Name>)
    requires p.Compliant() && b < |p.f.blocks| && s.pc == At(b, |p.f.blocks[b]| - 1) && Inner(p, s, g, defined)
    requires j < |p.f.Term(b).Succs()|
    requires p.f.Term(b).NullBranch? && p.f.Term(b).onTrue != p.f.Term(b).onFalse ==>
              (IsNullEdge(p.f.Term(b), p.f.Term(b).Succs()[j]) <==> Val(s, p.f.Term(b).ptr) == VNull)
    ensures TestedAgree(p.f, p.a, b, p.f.Term(b).Succs()[j], s)
  {
    BranchIsDistinct(p, b);
    if p.f.Term(b).NullBranch? {
      BranchUsesNothing(p.f, p.a, b, |p.f.blocks[b]| - 1);
      LiveIsDominating(p.f, p.a, p.dom, b, |p.f.blocks[b]| - 1);
      AliasesAgree(p.f, p.dom, p.root, s, defined, CurLive(p.f, p.a, b, |p.f.blocks[b]|) + {NullConst});
    }
    AliasesTested(p.f, p.a, p.root, b, p.f.Term(b).Succs()[j], s);
  }

  lemma PrepareCrossing(p: Program, b: nat, s: State, s': State, g: Ghosts, defined: set<Name>) returns (j: nat)
    requires p.Compliant() && b < |p.f.blocks| && s.pc == At(b, |p.f.blocks[b]| - 1) && Inner(p, s, g, defined)
             && Step(p.f, s, s')
    requires p.f.Term(b).Jump? || p.f.Term(b).Branch? || p.f.Term(b).NullBranch?
    ensures Crosses(p, b, j, s, s', g, defined)
  {
    j := EdgeTaken(p, b, s, s');
    EdgeIsTested(p, b, j, s, g, defined);
    PrepareEdge(p, b, j, s, g, defined);
    CopyCrosses(p, b, j, s, s', g, defined);
  }

  lemma CopyCrosses(p: Program, b: nat, j: nat, s: State, s': State, g: Ghosts, defined: set<Name>)
    requires p.Compliant() && b < |p.f.blocks| && s.pc == At(b, |p.f.blocks[b]| - 1) && Inner(p, s, g, defined)
    requires j < |p.f.Term(b).Succs()| && s' == s.(pc := At(p.f.Term(b).Succs()[j], 0))
    ensures CopyInv(p.f, p.dom, p.root, s', defined) && p.f.At(p.f.Term(b).Succs()[j], 0)
  {
    BranchIsDistinct(p, b);
    CopyInvAcross(p.f, p.dom, p.root, s, s', defined, j);
  }

  lemma StepAcross(p: Program, b: nat, i: nat, j: nat, s: State, s': State, g: Ghosts, defined: set<Name>)
    requires Crosses(p, b, j, s, s', g, defined) && s.pc == At(b, i) && Inner(p, s, g, defined) && Cond(p.f.Term(b))
    ensures Inner(p, s', g, defined)
  {
    OwnAtLast(p, b, i, s, g, defined);
    OwnAcross(p, b, j, s, s', g, defined);
  }

  lemma OwnAcross(p: Program, b: nat, j: nat, s: State, s': State, g: Ghosts, defined: set<Name>)
    requires EdgePrepared(p.f, p.a, p.asgn, b, j, s) && OwnAt(p, b, |p.f.blocks[b]| - 1, s, g)
    requires s'.env == s.env && s'.heap == s.heap
    requires p.f.Term(b).Jump? || p.f.Term(b).Branch? || p.f.Term(b).NullBranch?
    ensures OwnAt(p, p.f.Term(b).Succs()[j], 0, s', g)
  {
    var c := p.f.Term(b).Succs()[j];
    EdgeKeepsOwn(p.f, p.a, p.asgn, b, j, s, g);
    SameState(p.f, p.asgn, Tracked(p.f, p.a, c, 0), Pre(c, 0), BorrowsAt(p.f, p.a, c, 0), s, s', g);
  }

  // ----- Returning -----

  /** At a return every owner but the returned value has been checked not to be good. */
  lemma OwnerIsReturned(f: Func, asgn: Assignment, live: set<Name>, dead: set<Name>, kept: set<Name>, t: Point,
                        bs: Borrows, s: State, g: Ghosts, n: Name, addr: nat)
    requires Own(f, asgn, live, t, bs, s, g) && Owner(asgn, s, g, n, addr)
    requires f.args <= live <= dead + f.args
    requires Satisfies(asgn, Preserve(kept, t, End)) && Satisfies(asgn, Killed(dead, End))
             && Satisfies(asgn, Killed(f.args, End))
    ensures n !in kept
  {
    if n in kept {
      PreserveOne(asgn, kept, t, End, n, SGood);
      var gone := if n in f.args then f.args else dead;
      assert {Neg(Responsible(n)), Neg(Good(n, End))} in Killed(gone, End);
      NotBoth(asgn, Killed(gone, End), Responsible(n), Good(n, End));
    }
  }

  ghost predicate ReturnPrepared(p: Program, b: nat, i: nat, v: Name) {
    var f, a := p.f, p.a;
    && a.Sized(f) && f.At(b, i)
    && (f.blocks[b][i] == Return(v) || (f.blocks[b][i] == ReturnVoid && v == NullConst))
    && Satisfies(p.asgn, VisitClauses(f, a, b, i))
    && f.args <= Tracked(f, a, b, i) <= LastUse(f, a, b, i) + f.args
    && v in Tracked(f, a, b, i) + {NullConst}
  }

  lemma ReturnHandsOver(p: Program, b: nat, i: nat, v: Name, s: State, g: Ghosts)
    requires ReturnPrepared(p, b, i, v) && OwnAt(p, b, i, s, g)
    ensures ReturnedOnly(s, v)
    ensures p.f.blocks[b][i].Return? ==> StatusAtom(St(g, v), Ret, End) in p.asgn
  {
    var f, a, asgn := p.f, p.a, p.asgn;
    var live, dead := Tracked(f, a, b, i), LastUse(f, a, b, i);
    var kept := live + {NullConst} - (if f.blocks[b][i].Return? then {v} else {});
    ClausesAtReturn(f, a, asgn, b, i, v, kept);
    forall addr | addr in s.heap && s.heap[addr] == Unfreed
      ensures Val(s, v) == VPtr(addr)
    {
      var n :| Owner(asgn, s, g, n, addr);
      OwnerIsReturned(f, asgn, live, dead, kept, Pre(b, i), BorrowsAt(f, a, b, i), s, g, n, addr);
    }
    if f.blocks[b][i].Return? { ReturnedState(p, b, i, v, s, g); }
  }

  lemma ClausesAtReturn(f: Func, a: Analysis, asgn: Assignment, b: nat, i: nat, v: Name, kept: set<Name>)
    requires a.Sized(f) && f.At(b, i) && (f.blocks[b][i] == Return(v) || f.blocks[b][i] == ReturnVoid)
    requires kept <= CurLive(f, a, b, i) + {NullConst} - (if f.blocks[b][i].Return? then {v} else {})
    requires Satisfies(asgn, VisitClauses(f, a, b, i))
    ensures Satisfies(asgn, Preserve(kept, Pre(b, i), End))
    ensures Satisfies(asgn, Killed(LastUse(f, a, b, i), End)) && Satisfies(asgn, Killed(f.args, End))
  {
    var cs := VisitClauses(f, a, b, i);
    assert Preserve(kept, Pre(b, i), End) <= cs && Killed(LastUse(f, a, b, i), End) <= cs && Killed(f.args, End) <= cs;
  }

  lemma ReturnedState(p: Program, b: nat, i: nat, v: Name, s: State, g: Ghosts)
    requires ReturnPrepared(p, b, i, v) && OwnAt(p, b, i, s, g) && p.f.blocks[b][i].Return?
    ensures StatusAtom(St(g, v), Ret, End) in p.asgn
  {
    var cs := VisitClauses(p.f, p.a, b, i);
    assert CopyState(v, Pre(b, i), Ret, End) <= cs;
    Follow(p.asgn, cs, StatusAtom(St(g, v), v, Pre(b, i)), StatusAtom(St(g, v), Ret, End));
  }

  lemma LiveAtReturn(f: Func, a: Analysis, dom: seq<set<Name>>, b: nat, i: nat)
    requires Analysed(f, a, dom) && f.At(b, i) && (f.blocks[b][i].Return? || f.blocks[b][i].ReturnVoid?)
    ensures f.args <= Tracked(f, a, b, i) <= LastUse(f, a, b, i) + f.args
    ensures f.blocks[b][i].Uses() <= Tracked(f, a, b, i)
  {
    OperandsAreTracked(f, a, dom, b, i);
    TerminatorIsLast(f, b, i);
    NothingTrackedAtEnd(f, a, b);
    TrackedNext(f, a, dom, b, i);
  }

  lemma ReturnedIsLive(f: Func, a: Analysis, dom: seq<set<Name>>, b: nat, i: nat, v: Name)
    requires Analysed(f, a, dom) && f.At(b, i)
    requires f.blocks[b][i] == Return(v) || (f.blocks[b][i] == ReturnVoid && v == NullConst)
    ensures f.args <= Tracked(f, a, b, i) <= LastUse(f, a, b, i) + f.args && v in Tracked(f, a, b, i) + {NullConst}
  {
    LiveAtReturn(f, a, dom, b, i);
    ReturnUses(f.blocks[b][i], v);
  }

  lemma ReturnUses(inst: Instr, v: Name)
    requires inst == Return(v) || (inst == ReturnVoid && v == NullConst)
    ensures v == NullConst || v in inst.Uses()
  {
  }

  lemma PrepareReturn(p: Program, b: nat, i: nat, v: Name)
    requires p.Compliant() && p.f.At(b, i)
    requires p.f.blocks[b][i] == Return(v) || (p.f.blocks[b][i] == ReturnVoid && v == NullConst)
    ensures ReturnPrepared(p, b, i, v)
  {
    ClausesOfInstr(p, b, i);
    ReturnedIsLive(p.f, p.a, p.dom, b, i, v);
  }

  lemma StepReturn(p: Program, b: nat, i: nat, v: Name, s: State, s': State, g: Ghosts, defined: set<Name>)
    requires ReturnPrepared(p, b, i, v) && |p.dom| == |p.f.blocks| && s.pc == At(b, i) && Inner(p, s, g, defined)
    requires Step(p.f, s, s')
    ensures ReturnedOnly(s', v) && s'.pc == Done(v) && !MemoryError(p.f, s)
  {
    ReturnHandsOver(p, b, i, v, s, g);
    assert forall n :: Val(s', n) == Val(s, n);
  }

  // ----- Runs -----

  /** A call: arguments in states the assignment allows at the start; each unfreed block belongs to
      one good responsible argument, and other good arguments point to blocks the caller keeps. */
  ghost predicate EntryState(p: Program, s: State, g: Ghosts) {
    && s.pc == At(0, 0) && s.env.Keys == p.f.args && g.Keys == p.f.args
    && (forall n :: n in p.f.args ==> StatusAtom(St(g, n), n, Pre(0, 0)) in p.asgn)
    && NullsAgree(p.f.args, s, g)
    && GoodOwners(p.f, p.asgn, p.f.args, s, g)
    && OneOwner(p.asgn, s, g)
    && (forall n :: n in p.f.args && Responsible(n) !in p.asgn && St(g, n) == SGood ==>
          Val(s, n).VPtr? && Val(s, n).addr in s.heap && s.heap[Val(s, n).addr] == Foreign)
  }

  /** The ghost record after the first k steps of a run. */
  ghost function TraceAt(p: Program, run: seq<State>, g: Ghosts, k: nat): Trace
    requires k < |run| && p.a.Sized(p.f)
  {
    if k == 0 then Trace(g, p.f.args, {}) else NextTrace(p, run[k - 1], run[k], TraceAt(p, run, g, k - 1))
  }

  lemma EntryCopies(f: Func, dom: seq<set<Name>>, root: Name -> Name, s: State)
    requires Strict(f, dom, root) && s.pc == At(0, 0)
    ensures CopyInv(f, dom, root, s, f.args)
  {
    assert f.At(0, 0);
    assert Dominating(f, dom, 0, 0) == f.args;
    forall c: nat, j: nat | f.At(c, j) ensures f.blocks[c][j].Defs() * f.args == {} { }
  }

  lemma EntryOwn(f: Func, asgn: Assignment, live: set<Name>, bs: Borrows, s: State, g: Ghosts)
    requires live <= f.args && (forall a :: a in f.args ==> a.Local?)
    requires Null(NullConst, Pre(0, 0)) in asgn && g.Keys == f.args
    requires forall n :: n in f.args ==> StatusAtom(St(g, n), n, Pre(0, 0)) in asgn
    requires NullsAgree(f.args, s, g) && GoodOwners(f, asgn, f.args, s, g) && OneOwner(asgn, s, g)
    requires forall n :: n in f.args && Responsible(n) !in asgn && St(g, n) == SGood ==>
          Val(s, n).VPtr? && Val(s, n).addr in s.heap && s.heap[Val(s, n).addr] == Foreign
    ensures Own(f, asgn, live, Pre(0, 0), bs, s, g)
  {
  }

  lemma InvAtEntry(p: Program, s: State, g: Ghosts)
    requires p.Compliant() && EntryState(p, s, g)
    ensures Inv(p, s, Trace(g, p.f.args, {}))
  {
    assert p.f.At(0, 0);
    LiveIsDominated(p.f, p.a, p.dom);
    TrackedAtStart(p.f, p.a, p.dom, 0);
    assert {Pos(Null(NullConst, Pre(0, 0)))} in EntryClauses();
    Unit(p.asgn, AllClauses(p.f, p.a), Pos(Null(NullConst, Pre(0, 0))));
    EntryCopies(p.f, p.dom, p.root, s);
    EntryOwn(p.f, p.asgn, p.a.liveStart[0], BorrowsAt(p.f, p.a, 0, 0), s, g);
    HiddenTwice(s, {}, {});
  }

  lemma TerminatorIsLast(f: Func, b: nat, i: nat)
    requires f.WellFormed() && f.At(b, i) && f.blocks[b][i].Terminator()
    ensures i == |f.blocks[b]| - 1 && f.Term(b) == f.blocks[b][i]
  {
  }

  lemma StepOver(p: Program, b: nat, i: nat, s: State, s': State, g: Ghosts, defined: set<Name>)
    requires p.Compliant() && p.f.At(b, i) && s.pc == At(b, i) && Inner(p, s, g, defined) && Step(p.f, s, s')
    requires Cond(p.f.blocks[b][i])
    ensures Inner(p, s', g, defined)
  {
    TerminatorIsLast(p.f, b, i);
    StepCrosses(p, b, i, s, s', g, defined);
  }

  lemma StepCrosses(p: Program, b: nat, i: nat, s: State, s': State, g: Ghosts, defined: set<Name>)
    requires p.Compliant() && b < |p.f.blocks| && i == |p.f.blocks[b]| - 1
    requires s.pc == At(b, i) && Inner(p, s, g, defined) && Step(p.f, s, s') && Cond(p.f.Term(b))
    ensures Inner(p, s', g, defined)
  {
    var j := PrepareCrossing(p, b, s, s', g, defined);
    StepAcross(p, b, i, j, s, s', g, defined);
  }

  lemma OwnAtLast(p: Program, b: nat, i: nat, s: State, g: Ghosts, defined: set<Name>)
    requires p.a.Sized(p.f) && |p.dom| == |p.f.blocks| && s.pc == At(b, i) && Inner(p, s, g, defined)
    ensures OwnAt(p, b, i, s, g)
  {
  }

  /** A terminator changes neither states nor blocks. */
  lemma TerminatorRecordsNothing(p: Program, b: nat, i: nat, s: State, s': State, g: Ghosts)
    requires p.a.Sized(p.f) && p.f.At(b, i) && s.pc == At(b, i) && p.f.blocks[b][i].Terminator()
    ensures StatusAfter(p, b, i, s', g) == g && TakenOver(p, b, i, s', g) == {} && !MemoryError(p.f, s)
    ensures Hidden(s', TakenOver(p, b, i, s', g)) == s'
  {
    HiddenTwice(s', {}, {});
  }

  lemma StepOut(p: Program, b: nat, i: nat, s: State, s': State, g: Ghosts, defined: set<Name>)
    requires p.Compliant() && p.f.At(b, i) && s.pc == At(b, i) && Inner(p, s, g, defined) && Step(p.f, s, s')
    requires p.f.blocks[b][i].Return? || p.f.blocks[b][i].ReturnVoid?
    ensures Inner(p, s', g, defined)
  {
    var v := if p.f.blocks[b][i].Return? then p.f.blocks[b][i].val else NullConst;
    PrepareReturn(p, b, i, v);
    StepReturn(p, b, i, v, s, s', g, defined);
  }

  lemma JumpRecordsNothing(p: Program, s: State, defined: set<Name>)
    requires s.pc.At? && p.f.At(s.pc.b, s.pc.i) && p.f.blocks[s.pc.b][s.pc.i].Terminator()
    ensures NowDefined(p.f, s, defined) == defined
  {
    assert defined + {} == defined;
  }

  /** One step keeps the invariant of the hidden state and is no memory error. */
  lemma StepKeepsInner(p: Program, b: nat, i: nat, s: State, s': State, g: Ghosts, defined: set<Name>)
    requires p.Compliant() && Step(p.f, s, s') && Inner(p, s, g, defined) && s.pc == At(b, i)
    ensures Inner(p, Hidden(s', TakenOver(p, b, i, s', g)), StatusAfter(p, b, i, s', g), NowDefined(p.f, s, defined))
    ensures !MemoryError(p.f, s)
  {
    if !p.f.blocks[b][i].Terminator() {
      StepInside(p, b, i, s, s', g, defined);
    } else {
      TerminatorRecordsNothing(p, b, i, s, s', g);
      JumpRecordsNothing(p, s, defined);
      if Cond(p.f.blocks[b][i]) { StepOver(p, b, i, s, s', g, defined); } else { StepOut(p, b, i, s, s', g, defined); }
    }
  }

  /** The record of a step does not look at blocks. */
  lemma RecordHidden(p: Program, b: nat, i: nat, s': State, lost: set<nat>, g: Ghosts)
    requires p.a.Sized(p.f) && p.f.At(b, i)
    ensures StatusAfter(p, b, i, Hidden(s', lost), g) == StatusAfter(p, b, i, s', g)
    ensures TakenOver(p, b, i, Hidden(s', lost), g) == TakenOver(p, b, i, s', g)
  {
    SameValues(s', lost);
  }

  /** One step, of the machine itself, keeps the invariant and is no memory error. */
  lemma StepKeepsInv(p: Program, s: State, s': State, tr: Trace)
    requires p.Compliant() && Step(p.f, s, s') && Inv(p, s, tr)
    ensures Inv(p, s', NextTrace(p, s, s', tr)) && !MemoryError(p.f, s)
  {
    var b, i := s.pc.b, s.pc.i;
    var h, h' := Hidden(s, tr.lost), Hidden(s', tr.lost);
    var taken := TakenOver(p, b, i, s', tr.status);
    StepHidden(p.f, s, s', tr.lost);
    StepKeepsInner(p, b, i, h, h', tr.status, tr.defined);
    RecordHidden(p, b, i, s', tr.lost, tr.status);
    HiddenTwice(s', tr.lost, taken);
    NoErrorHidden(p.f, s, tr.lost);
    LostStay(p.f, s, s', tr.lost);
    TakenIsThere(p, b, i, s, s', tr);
  }

  /** A block that is taken over is a new loss: it is there, and was not lost before. */
  lemma TakenIsThere(p: Program, b: nat, i: nat, s: State, s': State, tr: Trace)
    requires p.Compliant() && Step(p.f, s, s') && Inv(p, s, tr) && s.pc == At(b, i)
    ensures StillThere(s', TakenOver(p, b, i, s', tr.status))
  {
    if DefinesDead(p.f, p.a, b, i) {
      var h, h' := Hidden(s, tr.lost), Hidden(s', tr.lost);
      StepHidden(p.f, s, s', tr.lost);
      OwnedIsThere(p, b, i, h, h', tr.status, tr.defined);
      RecordHidden(p, b, i, s', tr.lost, tr.status);
    }
  }

  lemma OwnedIsThere(p: Program, b: nat, i: nat, s: State, s': State, g: Ghosts, defined: set<Name>)
    requires p.Compliant() && Step(p.f, s, s') && Inner(p, s, g, defined) && s.pc == At(b, i)
    requires DefinesDead(p.f, p.a, b, i)
    ensures StillThere(s', TakenOver(p, b, i, s', g))
  {
    var inst := p.f.blocks[b][i];
    InstrIsReady(p, b, i, s, g, defined);
    OwnersAreGood(p.f, p.asgn, Tracked(p.f, p.a, b, i), BorrowsAt(p.f, p.a, b, i), inst, Pre(b, i), Post(b, i), s, s',
      g);
    TakenIsGood(p, b, i, s', g);
  }

  lemma TakenIsGood(p: Program, b: nat, i: nat, s': State, g: Ghosts)
    requires p.a.Sized(p.f) && p.f.At(b, i) && GoodHeap(p.asgn, s', Updated(p.f, p.asgn, p.f.blocks[b][i], s', g))
    ensures StillThere(s', TakenOver(p, b, i, s', g))
  {
  }

  lemma OwnersAreGood(f: Func, asgn: Assignment, live: set<Name>, bs: Borrows, inst: Instr, pre: Point, post: Point,
                      s: State, s': State, g: Ghosts)
    requires Own(f, asgn, live, pre, bs, s, g) && Effect(inst, s, s') && !inst.Terminator()
    requires Ready(f, asgn, live, bs, inst, pre, post)
    ensures GoodHeap(asgn, s', Updated(f, asgn, inst, s', g))
  {
    AfterInstr(f, asgn, live, bs, inst, pre, post, s, s', g, Updated(f, asgn, inst, s', g));
    OwnIsGood(f, asgn, live + NewNames(f, inst), post, BorrowStep(f, inst, bs), s', Updated(f, asgn, inst, s', g));
  }

  lemma OwnIsGood(f: Func, asgn: Assignment, live: set<Name>, t: Point, bs: Borrows, s: State, g: Ghosts)
    requires Own(f, asgn, live, t, bs, s, g)
    ensures GoodHeap(asgn, s, g)
  {
  }

  /** In a good state the instruction about to run is safe. */
  lemma InvIsSafe(p: Program, s: State, tr: Trace)
    requires p.Compliant() && Inv(p, s, tr)
    ensures !MemoryError(p.f, s)
  {
    if s.pc.At? {
      var inst := p.f.blocks[s.pc.b][s.pc.i];
      if inst.Free? || inst.Load? || inst.Store? {
        var s' := State(At(s.pc.b, s.pc.i + 1), s.env, if inst.Free? then FreeEffect(s, inst.ptr) else s.heap);
        StepKeepsInv(p, s, s', tr);
      }
    }
  }

  /** At the end a block leaks if it has been lost and is not the one returned. */
  lemma LeakIsLost(p: Program, s: State, tr: Trace)
    requires p.a.Sized(p.f) && |p.dom| == |p.f.blocks| && Inv(p, s, tr) && s.pc.Done?
    ensures Leak(s) <==> exists a :: a in tr.lost && Val(s, s.pc.val) != VPtr(a)
  {
    SameValues(s, tr.lost);
    var h := Hidden(s, tr.lost);
    assert h.pc == s.pc && ReturnedOnly(h, s.pc.val);
    forall a | a in s.heap && s.heap[a] == Unfreed && a !in tr.lost
      ensures Val(s, s.pc.val) == VPtr(a)
    {
      assert h.heap[a] == Unfreed;
    }
  }

  lemma RunStarts(p: Program, run: seq<State>, g: Ghosts)
    requires p.Compliant() && |run| > 0 && EntryState(p, run[0], g)
    ensures Inv(p, run[0], TraceAt(p, run, g, 0))
  {
    InvAtEntry(p, run[0], g);
  }

  lemma RunContinues(p: Program, run: seq<State>, g: Ghosts, k: nat)
    requires p.Compliant() && 0 < k < |run| && Step(p.f, run[k - 1], run[k])
    requires Inv(p, run[k - 1], TraceAt(p, run, g, k - 1))
    ensures Inv(p, run[k], TraceAt(p, run, g, k))
  {
    StepKeepsInv(p, run[k - 1], run[k], TraceAt(p, run, g, k - 1));
  }

  lemma {:induction false} RunKeepsInv(p: Program, run: seq<State>, g: Ghosts, k: nat)
    requires p.Compliant() && Run(p.f, run) && EntryState(p, run[0], g) && k < |run|
    ensures Inv(p, run[k], TraceAt(p, run, g, k))
    decreases k
  {
    if k == 0 {
      RunStarts(p, run, g);
    } else {
      RunKeepsInv(p, run, g, k - 1);
      RunContinues(p, run, g, k);
    }
  }

  // ----- The theorem -----

  /** In its k-th step the run executes a definition that is dead and takes over this block. */
  ghost predicate TakesAt(p: Program, run: seq<State>, g: Ghosts, k: nat, addr: nat)
    requires p.a.Sized(p.f) && k + 1 < |run|
  {
    && run[k].pc.At? && p.f.At(run[k].pc.b, run[k].pc.i)
    && addr in TakenOver(p, run[k].pc.b, run[k].pc.i, run[k + 1], TraceAt(p, run, g, k).status)
  }

  lemma {:induction false} LostIsTaken(p: Program, run: seq<State>, g: Ghosts, k: nat, addr: nat)
    requires p.a.Sized(p.f) && k < |run|
    ensures addr in TraceAt(p, run, g, k).lost <==> exists j: nat :: j < k && TakesAt(p, run, g, j, addr)
    decreases k
  {
    if k > 0 {
      LostIsTaken(p, run, g, k - 1, addr);
      assert addr in TraceAt(p, run, g, k).lost
             <==> addr in TraceAt(p, run, g, k - 1).lost || TakesAt(p, run, g, k - 1, addr);
    }
  }

  /** Main theorem: no run frees a block twice, frees what this function does not own, or dereferences
      NULL or a freed block through any pointer; and a finished run has lost a block if and only if a
      dead definition has taken over one that is not returned. */
  lemma NoRunGoesWrong(p: Program, run: seq<State>, g: Ghosts, k: nat)
    requires p.Compliant() && Run(p.f, run) && EntryState(p, run[0], g) && k < |run|
    ensures !MemoryError(p.f, run[k])
    ensures run[k].pc.Done? ==>
              (Leak(run[k]) <==>
               exists j: nat, addr :: j < k && TakesAt(p, run, g, j, addr) && Val(run[k], run[k].pc.val) != VPtr(addr))
  {
    var tr := TraceAt(p, run, g, k);
    RunKeepsInv(p, run, g, k);
    InvIsSafe(p, run[k], tr);
    if run[k].pc.Done? {
      LeakIsLost(p, run[k], tr);
      forall addr ensures addr in tr.lost <==> exists j: nat :: j < k && TakesAt(p, run, g, j, addr) {
        LostIsTaken(p, run, g, k, addr);
      }
    }
  }

  /** Without dead definitions nothing is ever lost. */
  lemma NothingLost(p: Program, run: seq<State>, g: Ghosts, k: nat)
    requires p.Compliant() && NoDeadDefs(p.f, p.a) && Run(p.f, run) && EntryState(p, run[0], g) && k < |run|
    ensures !MemoryError(p.f, run[k]) && !Leak(run[k])
  {
    NoRunGoesWrong(p, run, g, k);
    forall j: nat, addr | j < k ensures !TakesAt(p, run, g, j, addr) {
      if run[j].pc.At? && p.f.At(run[j].pc.b, run[j].pc.i) { NotDead(p.f, p.a, run[j].pc.b, run[j].pc.i); }
    }
  }

  lemma NotDead(f: Func, a: Analysis, b: nat, i: nat)
    requires a.Sized(f) && NoDeadDefs(f, a) && f.At(b, i)
    ensures !DefinesDead(f, a, b, i)
  {
    assert LiveOnceDefined(f, a, b, i);
    var inst := f.blocks[b][i];
    assert inst.Malloc? || inst.VarStore? ==> inst.dest in inst.Defs();
  }

  /** Each name of `live` has a state the assignment allows at t, and each unfreed block has exactly
      one good responsible name, which is live or an argument. */
  ghost predicate WellOwned(f: Func, asgn: Assignment, live: set<Name>, t: Point, s: State, g: Ghosts) {
    && (forall n :: n in live ==> StatusAtom(St(g, n), n, t) in asgn)
    && (forall a ::
      a in s.heap && s.heap[a] == Unfreed ==> exists n :: OnlyOwner(asgn, s, g, n, a) && n in live + f.args)
  }

  ghost predicate OnlyOwner(asgn: Assignment, s: State, g: Ghosts, n: Name, a: nat) {
    Owner(asgn, s, g, n, a) && forall m :: Owner(asgn, s, g, m, a) ==> m == n
  }

  lemma OwnMeans(f: Func, asgn: Assignment, live: set<Name>, t: Point, bs: Borrows, s: State, g: Ghosts)
    requires Own(f, asgn, live, t, bs, s, g)
    ensures WellOwned(f, asgn, live, t, s, g)
  {
    forall a | a in s.heap && s.heap[a] == Unfreed
      ensures exists n :: OnlyOwner(asgn, s, g, n, a) && n in live + f.args
    {
      var n :| Owner(asgn, s, g, n, a);
      assert OnlyOwner(asgn, s, g, n, a);
    }
  }

  /** Along every run, pointer states are covered and blocks that are not lost are well owned. */
  lemma StatesAreCovered(p: Program, run: seq<State>, g: Ghosts, k: nat)
    requires p.Compliant() && Run(p.f, run) && EntryState(p, run[0], g) && k < |run| && run[k].pc.At?
    ensures p.f.At(run[k].pc.b, run[k].pc.i)
    ensures WellOwned(p.f, p.asgn, Tracked(p.f, p.a, run[k].pc.b, run[k].pc.i), Pre(run[k].pc.b, run[k].pc.i),
                      Hidden(run[k], TraceAt(p, run, g, k).lost), TraceAt(p, run, g, k).status)
  {
    RunKeepsInv(p, run, g, k);
    var b, i, tr := run[k].pc.b, run[k].pc.i, TraceAt(p, run, g, k);
    OwnMeans(p.f, p.asgn, Tracked(p.f, p.a, b, i), Pre(b, i), BorrowsAt(p.f, p.a, b, i), Hidden(run[k], tr.lost),
             tr.status);
  }

  /** The state of the returned pointer is one that the assignment allows for `func::return`. */
  lemma ReturnIsSummarised(p: Program, run: seq<State>, g: Ghosts, k: nat)
    requires p.Compliant() && Run(p.f, run) && EntryState(p, run[0], g) && k < |run| && run[k].pc.At?
    requires p.f.At(run[k].pc.b, run[k].pc.i) && p.f.blocks[run[k].pc.b][run[k].pc.i].Return?
    ensures var v := p.f.blocks[run[k].pc.b][run[k].pc.i].val;
            StatusAtom(St(TraceAt(p, run, g, k).status, v), Ret, End) in p.asgn
  {
    RunKeepsInv(p, run, g, k);
    var b, i := run[k].pc.b, run[k].pc.i;
    var v := p.f.blocks[b][i].val;
    PrepareReturn(p, b, i, v);
    ReturnHandsOver(p, b, i, v, Hidden(run[k], TraceAt(p, run, g, k).lost), TraceAt(p, run, g, k).status);
  }
}
