/** The borrow relation as the generator computes it: in passes over the blocks in layout order, each
    joining what the predecessors ended with, in this pass or the one before.  Every pass stays below
    the borrows that copies account for, and a pass reaches them at every block to which some path
    leads with few enough steps backwards in the layout. */
module BorrowPasses {
  import opened DataFlow
  import opened PointerIR
  import opened OwnershipClauses
  import opened LiveFacts
  import opened CopyBorrows
  import opened CopySites

  // ----- Through a block -----

  /** From the borrows joined at the start of block b to those before its first instruction. */
  function Begin(f: Func, a: Analysis, b: nat, start: Borrows): Borrows
    requires a.Sized(f) && b < |f.blocks|
  {
    KillInOrder(start, a.deathOrder[b])
  }

  /** Across instruction i of block b. */
  function Next(f: Func, a: Analysis, b: nat, i: nat, bs: Borrows): Borrows
    requires a.Sized(f) && b < |f.blocks| && i < |f.blocks[b]|
  {
    var stepped := BorrowStep(f, f.blocks[b][i], bs);
    if Postponed(f, b, i) then stepped else KillLastUse(f, a, b, i, stepped)
  }

  /** From before the first instruction of block b to before instruction i. */
  function Along(f: Func, a: Analysis, b: nat, i: nat, bs: Borrows): Borrows
    requires a.Sized(f) && b < |f.blocks| && i <= |f.blocks[b]|
  {
    if i == 0 then bs else Next(f, a, b, i - 1, Along(f, a, b, i - 1, bs))
  }

  /** The value compared just before the branch dies after it. */
  function Finish(f: Func, a: Analysis, b: nat, bs: Borrows): Borrows
    requires a.Sized(f) && b < |f.blocks|
  {
    if Waits(f, b) then KillLastUse(f, a, b, |f.blocks[b]| - 2, bs) else bs
  }

  function EndOf(f: Func, a: Analysis, b: nat, start: Borrows): Borrows
    requires a.Sized(f) && b < |f.blocks|
  {
    Through(f, a, b, Begin(f, a, b, start))
  }

  lemma {:induction false} BorrowsAtIsAlong(f: Func, a: Analysis, b: nat, i: nat)
    requires a.Sized(f) && b < |f.blocks| && i <= |f.blocks[b]|
    ensures BorrowsAt(f, a, b, i) == Along(f, a, b, i, Begin(f, a, b, a.borrowStart[b]))
    ensures i == |f.blocks[b]| ==> BorrowsAtEnd(f, a, b) == EndOf(f, a, b, a.borrowStart[b])
    decreases i
  {
    if i > 0 { BorrowsAtIsAlong(f, a, b, i - 1); }
  }

  // ----- What is kept -----

  /** A value whose death waits for the branch is still there when the branch is processed. */
  function Pending(f: Func, a: Analysis, b: nat, i: nat): set<Name>
    requires a.Sized(f) && b < |f.blocks| && i <= |f.blocks[b]|
  {
    if Waits(f, b) && i >= |f.blocks[b]| - 1 then LastUse(f, a, b, |f.blocks[b]| - 2) else {}
  }

  /** The values that borrows may be among, before instruction i of block b. */
  function Kept(f: Func, a: Analysis, b: nat, i: nat): set<Name>
    requires a.Sized(f) && b < |f.blocks| && i <= |f.blocks[b]|
  {
    CurLive(f, a, b, i) + f.args + Pending(f, a, b, i)
  }

  function EndKept(f: Func, a: Analysis, b: nat): set<Name>
    requires a.Sized(f) && b < |f.blocks|
  {
    CurLive(f, a, b, |f.blocks[b]|) + f.args
  }

  /** What the results below rest on: SSA form, liveness, used definitions live, deaths in some
      order, and every block within reach. */
  ghost predicate Ready(f: Func, a: Analysis, dom: seq<set<Name>>) {
    && Analysed(f, a, dom) && UsedAreLive(f, a)
    && (forall b, x :: 0 <= b < |f.blocks| ==> (x in a.deathOrder[b] <==> x in DeadAtStart(f, a, b)))
    && (forall b: nat :: b < |f.blocks| ==> Reachable(f, b))
  }

  lemma KeptIsDominated(f: Func, a: Analysis, dom: seq<set<Name>>, b: nat, i: nat)
    requires Analysed(f, a, dom) && b < |f.blocks| && i + 1 < |f.blocks[b]|
    ensures Kept(f, a, b, i) <= Dominating(f, dom, b, i)
  {
    CurLiveIsDominated(f, a, dom, b, i);
  }

  // ----- One instruction -----

  function UsedDefs(f: Func, b: nat, i: nat): set<Name>
    requires f.At(b, i)
  {
    set d | d in f.blocks[b][i].Defs() && f.HasUses(d)
  }

  /** Recording a copy is what keeping the new value amounts to. */
  lemma StepIsExact(f: Func, a: Analysis, dom: seq<set<Name>>, b: nat, i: nat)
    requires Ready(f, a, dom) && b < |f.blocks| && i + 1 < |f.blocks[b]|
    ensures BorrowStep(f, f.blocks[b][i], CopyPairs(f, Kept(f, a, b, i)))
            == CopyPairs(f, Kept(f, a, b, i) + UsedDefs(f, b, i))
  {
    var keep, inst := Kept(f, a, b, i), f.blocks[b][i];
    ReachedIsFresh(f, dom, b, i);
    KeptIsDominated(f, a, dom, b, i);
    if inst.Malloc? {
      DefinedIsFresh(f, dom, b, i, keep, inst.dest);
      MallocIsOriginal(f, b, i, inst.dest);
      if f.HasUses(inst.dest) { DefineOriginal(f, keep, inst.dest); }
      assert UsedDefs(f, b, i) == if f.HasUses(inst.dest) then {inst.dest} else {};
      assert keep + {} == keep;
    } else if inst.VarStore? {
      DefinedIsFresh(f, dom, b, i, keep, inst.dest);
      StoreIsExact(f, a, dom, b, i, inst.dest, inst.src);
    } else {
      assert f.At(b, i) && !inst.Terminator();
      assert UsedDefs(f, b, i) == {} && keep + {} == keep;
    }
  }

  lemma DefinedIsFresh(f: Func, dom: seq<set<Name>>, b: nat, i: nat, keep: set<Name>, d: Name)
    requires |dom| == |f.blocks| && f.At(b, i) && FreshSite(f, dom, b, i) && d in f.blocks[b][i].Defs()
             && keep <= Dominating(f, dom, b, i)
    ensures FreshFor(f, d, keep)
  {
    assert FreshFor(f, d, Dominating(f, dom, b, i));
  }

  lemma MallocIsOriginal(f: Func, b: nat, i: nat, d: Name)
    requires f.SingleAssignment() && f.At(b, i) && f.blocks[b][i] == Malloc(d)
    ensures forall s :: !CopyOf(f, d, s)
  {
    forall s ensures !CopyOf(f, d, s) { if CopyOf(f, d, s) { SiteOfCopy(f, b, i, d, s); } }
  }

  lemma StoreIsExact(f: Func, a: Analysis, dom: seq<set<Name>>, b: nat, i: nat, d: Name, s: Name)
    requires Ready(f, a, dom) && f.At(b, i) && f.blocks[b][i] == VarStore(d, s) && FreshFor(f, d, Kept(f, a, b, i))
    ensures BorrowStep(f, f.blocks[b][i], CopyPairs(f, Kept(f, a, b, i)))
            == CopyPairs(f, Kept(f, a, b, i) + UsedDefs(f, b, i))
  {
    var keep := Kept(f, a, b, i);
    OperandsAreLive(f, a, dom, b, i);
    if !f.HasUses(d) {
      assert UsedDefs(f, b, i) == {} && keep + {} == keep;
      return;
    }
    assert UsedDefs(f, b, i) == {d};
    if s == NullConst {
      forall s' ensures !CopyOf(f, d, s') { if CopyOf(f, d, s') { SiteOfCopy(f, b, i, d, s'); } }
      DefineOriginal(f, keep, d);
    } else {
      assert s in f.blocks[b][i].Uses();
      CopyIsOnly(f, b, i, d, s);
      DefineCopy(f, keep, d, s);
    }
  }

  /** Last uses die. */
  lemma OperandDies(f: Func, inst: Instr, last: set<Name>, keep: set<Name>)
    requires !inst.Return? && last <= inst.Uses()
    ensures KillOperand(inst, last, CopyPairs(f, keep)) == CopyPairs(f, keep - last)
  {
    if last == {} {
      assert keep - last == keep;
    } else {
      assert last == {OperandOf(inst)};
      KillOne(f, keep, OperandOf(inst));
    }
  }

  lemma LastUseIsExact(f: Func, a: Analysis, b: nat, i: nat, keep: set<Name>)
    requires a.Sized(f) && f.At(b, i) && !f.blocks[b][i].Return?
    ensures KillLastUse(f, a, b, i, CopyPairs(f, keep)) == CopyPairs(f, keep - LastUse(f, a, b, i))
  {
    OperandDies(f, f.blocks[b][i], LastUse(f, a, b, i), keep);
  }

  ghost function OperandOf(inst: Instr): Name {
    match inst
    case Free(p, _) => p
    case VarStore(_, s) => s
    case Load(p) => p
    case Store(p) => p
    case ICmp(p) => p
    case Return(v) => v
    case _ => NullConst
  }

  lemma KeepAsSets(live: set<Name>, args: set<Name>, used: set<Name>, last: set<Name>)
    requires last !! args && last !! used
    ensures live - last + used + args == live + args + used - last
    ensures last <= live ==> live - last + args + last == live + args
    ensures (live - last) + args + last - last == (live - last) + args
  {
  }

  /** Before the branch nothing waits for it. */
  lemma NothingPending(f: Func, a: Analysis, b: nat, i: nat)
    requires a.Sized(f) && b < |f.blocks| && i + 1 < |f.blocks[b]|
    ensures Kept(f, a, b, i) == CurLive(f, a, b, i) + f.args
    ensures !Postponed(f, b, i) ==> Kept(f, a, b, i + 1) == CurLive(f, a, b, i + 1) + f.args
  {
  }

  lemma UsedAreNotLast(f: Func, a: Analysis, dom: seq<set<Name>>, b: nat, i: nat)
    requires Ready(f, a, dom) && b < |f.blocks| && i + 1 < |f.blocks[b]|
    ensures LastUse(f, a, b, i) !! UsedDefs(f, b, i) && LastUse(f, a, b, i) <= CurLive(f, a, b, i)
  {
    ReachedIsFresh(f, dom, b, i);
    KeptIsDominated(f, a, dom, b, i);
    OperandsAreLive(f, a, dom, b, i);
    forall d | d in UsedDefs(f, b, i) ensures d !in LastUse(f, a, b, i) {
      DefinedIsFresh(f, dom, b, i, Kept(f, a, b, i), d);
    }
  }

  lemma KeptNext(f: Func, a: Analysis, dom: seq<set<Name>>, b: nat, i: nat)
    requires Ready(f, a, dom) && b < |f.blocks| && i + 1 < |f.blocks[b]| && !Postponed(f, b, i)
    ensures Kept(f, a, b, i + 1) == Kept(f, a, b, i) + UsedDefs(f, b, i) - LastUse(f, a, b, i)
  {
    UsedAreNotLast(f, a, dom, b, i);
    NothingPending(f, a, b, i);
    KeepAsSets(CurLive(f, a, b, i), f.args, UsedDefs(f, b, i), LastUse(f, a, b, i));
  }

  lemma KeptWaits(f: Func, a: Analysis, dom: seq<set<Name>>, b: nat, i: nat)
    requires Ready(f, a, dom) && b < |f.blocks| && i + 1 < |f.blocks[b]| && Postponed(f, b, i)
    ensures Kept(f, a, b, i + 1) == Kept(f, a, b, i) && i + 2 == |f.blocks[b]| && UsedDefs(f, b, i) == {}
  {
    BranchIsLast(f, b, i);
    UsedAreNotLast(f, a, dom, b, i);
    NothingPending(f, a, b, i);
    LiveAfterCompare(f, a, b, i);
    KeepAsSets(CurLive(f, a, b, i), f.args, {}, LastUse(f, a, b, i));
  }

  lemma BranchIsLast(f: Func, b: nat, i: nat)
    requires f.WellFormed() && b < |f.blocks| && i + 1 < |f.blocks[b]| && Postponed(f, b, i)
    ensures i + 2 == |f.blocks[b]| && UsedDefs(f, b, i) == {}
  {
    assert f.At(b, i + 1);
  }

  lemma LiveAfterCompare(f: Func, a: Analysis, b: nat, i: nat)
    requires a.Sized(f) && b < |f.blocks| && i + 2 == |f.blocks[b]| && Postponed(f, b, i)
    ensures CurLive(f, a, b, i + 1) == CurLive(f, a, b, i) - LastUse(f, a, b, i)
    ensures Pending(f, a, b, i + 1) == LastUse(f, a, b, i)
  {
  }

  /** Instruction i turns the borrows among the values k into those among k'. */
  ghost predicate Turns(f: Func, a: Analysis, b: nat, i: nat, k: set<Name>, k': set<Name>)
    requires a.Sized(f) && f.At(b, i)
  {
    Next(f, a, b, i, CopyPairs(f, k)) == CopyPairs(f, k')
  }

  lemma NextIsExact(f: Func, a: Analysis, dom: seq<set<Name>>, b: nat, i: nat)
    requires Ready(f, a, dom) && f.At(b, i) && !f.blocks[b][i].Return?
    ensures Turns(f, a, b, i, Kept(f, a, b, i), Kept(f, a, b, i + 1))
  {
    if i + 1 == |f.blocks[b]| {
      TerminatorKeeps(f, a, b, i);
      LastUseIsExact(f, a, b, i, Kept(f, a, b, i));
    } else {
      InnerIsExact(f, a, dom, b, i);
    }
  }

  lemma InnerIsExact(f: Func, a: Analysis, dom: seq<set<Name>>, b: nat, i: nat)
    requires Ready(f, a, dom) && b < |f.blocks| && i + 1 < |f.blocks[b]| && !f.blocks[b][i].Return?
    ensures Turns(f, a, b, i, Kept(f, a, b, i), Kept(f, a, b, i + 1))
  {
    var keep := Kept(f, a, b, i);
    StepIsExact(f, a, dom, b, i);
    if Postponed(f, b, i) {
      KeptWaits(f, a, dom, b, i);
      assert keep + {} == keep;
    } else {
      LastUseIsExact(f, a, b, i, keep + UsedDefs(f, b, i));
      KeptNext(f, a, dom, b, i);
    }
  }

  lemma TerminatorKeeps(f: Func, a: Analysis, b: nat, i: nat)
    requires a.Sized(f) && f.WellFormed() && f.At(b, i) && i + 1 == |f.blocks[b]| && !f.blocks[b][i].Return?
    ensures Kept(f, a, b, i + 1) == Kept(f, a, b, i) && LastUse(f, a, b, i) == {}
    ensures Kept(f, a, b, i) - LastUse(f, a, b, i) == Kept(f, a, b, i)
    ensures forall bs :: BorrowStep(f, f.blocks[b][i], bs) == bs && !Postponed(f, b, i)
  {
    assert f.blocks[b][i].Terminator();
  }

  /** Whether a death waits for the branch of block b. */
  predicate Waits(f: Func, b: nat)
    requires b < |f.blocks|
  {
    |f.blocks[b]| >= 2 && Postponed(f, b, |f.blocks[b]| - 2)
  }

  lemma LiveAtEnd(f: Func, a: Analysis, b: nat, i: nat)
    requires a.Sized(f) && f.WellFormed() && b < |f.blocks| && Waits(f, b) && i == |f.blocks[b]| - 2
    ensures CurLive(f, a, b, |f.blocks[b]|) == CurLive(f, a, b, i) - LastUse(f, a, b, i)
    ensures Pending(f, a, b, |f.blocks[b]|) == LastUse(f, a, b, i)
  {
    assert f.At(b, i) && f.At(b, i + 1);
    assert CurLive(f, a, b, i + 1) == CurLive(f, a, b, i) - LastUse(f, a, b, i);
  }

  lemma KeptAtEnd(f: Func, a: Analysis, b: nat, i: nat)
    requires a.Sized(f) && f.WellFormed() && b < |f.blocks| && Waits(f, b) && i == |f.blocks[b]| - 2
    ensures Kept(f, a, b, |f.blocks[b]|) - LastUse(f, a, b, i) == EndKept(f, a, b)
  {
    var live, last := CurLive(f, a, b, i), LastUse(f, a, b, i);
    LiveAtEnd(f, a, b, i);
    assert last !! f.args;
    KeepAsSets(live, f.args, {}, last);
    assert Kept(f, a, b, |f.blocks[b]|) == (live - last) + f.args + last && EndKept(f, a, b) == (live - last) + f.args;
  }

  lemma FinishByLast(f: Func, a: Analysis, b: nat, i: nat, k: set<Name>)
    requires a.Sized(f) && b < |f.blocks| && Waits(f, b) && i == |f.blocks[b]| - 2
    ensures Finish(f, a, b, CopyPairs(f, k)) == CopyPairs(f, k - LastUse(f, a, b, i))
  {
    var bs := CopyPairs(f, k);
    FinishKills(f, a, b, i, bs);
    assert f.At(b, i);
    LastUseIsExact(f, a, b, i, k);
  }

  lemma FinishKills(f: Func, a: Analysis, b: nat, i: nat, bs: Borrows)
    requires a.Sized(f) && b < |f.blocks| && Waits(f, b) && i == |f.blocks[b]| - 2
    ensures Finish(f, a, b, bs) == KillLastUse(f, a, b, i, bs)
  {
  }

  // ----- Growing -----

  lemma KillLastUseGrows(f: Func, a: Analysis, b: nat, i: nat, small: Borrows, large: Borrows)
    requires a.Sized(f) && f.At(b, i) && small <= large
    ensures KillLastUse(f, a, b, i, small) <= KillLastUse(f, a, b, i, large)
  {
    KillGrows(small, large, OperandOf(f.blocks[b][i]));
  }

  lemma {:induction false} AlongGrows(f: Func, a: Analysis, b: nat, i: nat, small: Borrows, large: Borrows)
    requires a.Sized(f) && b < |f.blocks| && i <= |f.blocks[b]| && small <= large
    ensures Along(f, a, b, i, small) <= Along(f, a, b, i, large)
    decreases i
  {
    if i > 0 {
      AlongGrows(f, a, b, i - 1, small, large);
      var s, l := Along(f, a, b, i - 1, small), Along(f, a, b, i - 1, large);
      KillLastUseGrows(f, a, b, i - 1, BorrowStep(f, f.blocks[b][i - 1], s), BorrowStep(f, f.blocks[b][i - 1], l));
    }
  }

  lemma FinishGrows(f: Func, a: Analysis, b: nat, small: Borrows, large: Borrows)
    requires a.Sized(f) && b < |f.blocks| && small <= large
    ensures Finish(f, a, b, small) <= Finish(f, a, b, large)
  {
    var n := |f.blocks[b]|;
    if n >= 2 { KillLastUseGrows(f, a, b, n - 2, small, large); }
  }

  // ----- A block -----

  /** The block does not return. */
  predicate GoesOn(f: Func, b: nat)
    requires b < |f.blocks| && |f.blocks[b]| > 0
  {
    !f.Term(b).Return?
  }

  lemma NoReturnBefore(f: Func, b: nat, j: nat)
    requires f.WellFormed() && f.At(b, j) && (j + 1 < |f.blocks[b]| || GoesOn(f, b))
    ensures !f.blocks[b][j].Return?
  {
  }

  /** Instruction after instruction, for the kept values ks before each. */
  lemma {:induction false} AlongByTurns(f: Func, a: Analysis, b: nat, i: nat, ks: seq<set<Name>>)
    requires a.Sized(f) && b < |f.blocks| && i <= |f.blocks[b]| && |ks| == |f.blocks[b]| + 1
    requires forall j :: 0 <= j < i ==> Turns(f, a, b, j, ks[j], ks[j + 1])
    ensures Along(f, a, b, i, CopyPairs(f, ks[0])) == CopyPairs(f, ks[i])
    decreases i
  {
    if i > 0 {
      AlongByTurns(f, a, b, i - 1, ks);
      assert Turns(f, a, b, i - 1, ks[i - 1], ks[i - 1 + 1]);
    }
  }

  ghost function KeptAll(f: Func, a: Analysis, b: nat): (ks: seq<set<Name>>)
    requires a.Sized(f) && b < |f.blocks|
    ensures |ks| == |f.blocks[b]| + 1 && forall i :: 0 <= i < |ks| ==> ks[i] == Kept(f, a, b, i)
  {
    seq(|f.blocks[b]| + 1, i requires 0 <= i < |f.blocks[b]| + 1 => Kept(f, a, b, i))
  }

  lemma AlongIsExact(f: Func, a: Analysis, dom: seq<set<Name>>, b: nat, i: nat)
    requires Ready(f, a, dom) && b < |f.blocks| && i <= |f.blocks[b]| && (i < |f.blocks[b]| || GoesOn(f, b))
    ensures Along(f, a, b, i, CopyPairs(f, KeptAll(f, a, b)[0])) == CopyPairs(f, KeptAll(f, a, b)[i])
  {
    var ks := KeptAll(f, a, b);
    forall j | 0 <= j < i
      ensures Turns(f, a, b, j, ks[j], ks[j + 1])
    {
      NoReturnBefore(f, b, j);
      NextIsExact(f, a, dom, b, j);
    }
    AlongByTurns(f, a, b, i, ks);
  }

  /** A whole block, between the kept values at its ends. */
  lemma BlockIsExact(f: Func, a: Analysis, dom: seq<set<Name>>, b: nat)
    requires Ready(f, a, dom) && b < |f.blocks| && GoesOn(f, b)
    ensures Through(f, a, b, CopyPairs(f, Kept(f, a, b, 0))) == CopyPairs(f, EndKept(f, a, b))
  {
    AlongIsExact(f, a, dom, b, |f.blocks[b]|);
    if Waits(f, b) {
      KeptAtEnd(f, a, b, |f.blocks[b]| - 2);
      FinishByLast(f, a, b, |f.blocks[b]| - 2, Kept(f, a, b, |f.blocks[b]|));
    } else {
      assert Kept(f, a, b, |f.blocks[b]|) == EndKept(f, a, b);
    }
  }

  function Through(f: Func, a: Analysis, b: nat, bs: Borrows): Borrows
    requires a.Sized(f) && b < |f.blocks|
  {
    Finish(f, a, b, Along(f, a, b, |f.blocks[b]|, bs))
  }

  lemma ThroughGrows(f: Func, a: Analysis, b: nat, small: Borrows, large: Borrows)
    requires a.Sized(f) && b < |f.blocks| && small <= large
    ensures Through(f, a, b, small) <= Through(f, a, b, large)
  {
    AlongGrows(f, a, b, |f.blocks[b]|, small, large);
    FinishGrows(f, a, b, Along(f, a, b, |f.blocks[b]|, small), Along(f, a, b, |f.blocks[b]|, large));
  }

  /** A block keeps borrows below those that copies account for, and exact ones exact. */
  lemma EndIsExact(f: Func, a: Analysis, dom: seq<set<Name>>, b: nat, start: Borrows)
    requires Ready(f, a, dom) && b < |f.blocks| && GoesOn(f, b)
             && Begin(f, a, b, start) <= CopyPairs(f, Kept(f, a, b, 0))
    ensures EndOf(f, a, b, start) <= CopyPairs(f, EndKept(f, a, b))
    ensures Begin(f, a, b, start) == CopyPairs(f, Kept(f, a, b, 0))
            ==> EndOf(f, a, b, start) == CopyPairs(f, EndKept(f, a, b))
  {
    BlockIsExact(f, a, dom, b);
    ThroughGrows(f, a, b, Begin(f, a, b, start), CopyPairs(f, Kept(f, a, b, 0)));
  }

  // ----- Joining -----

  /** What the predecessors of block b ended with. */
  function Join(f: Func, ends: seq<Borrows>, b: nat): Borrows
    requires |ends| == |f.blocks| && forall p :: 0 <= p < |f.blocks| ==> |f.blocks[p]| > 0
  {
    set p, e | 0 <= p < |f.blocks| && b in f.Term(p).Succs() && e in ends[p] :: e
  }

  ghost predicate Upper(f: Func, a: Analysis, ends: seq<Borrows>)
    requires a.Sized(f)
  {
    |ends| == |f.blocks| && forall p :: 0 <= p < |f.blocks| ==> UpperAt(f, a, ends, p)
  }

  ghost predicate UpperAt(f: Func, a: Analysis, ends: seq<Borrows>, p: nat)
    requires a.Sized(f) && p < |f.blocks| == |ends|
  {
    GoesOn(f, p) ==> ends[p] <= CopyPairs(f, EndKept(f, a, p))
  }

  ghost predicate Complete(f: Func, a: Analysis, ends: seq<Borrows>, p: nat)
    requires a.Sized(f)
  {
    p < |f.blocks| == |ends| && ends[p] == CopyPairs(f, EndKept(f, a, p))
  }

  lemma KeptAcross(f: Func, a: Analysis, dom: seq<set<Name>>, p: nat, b: nat)
    requires Ready(f, a, dom) && p < |f.blocks| && b in f.Term(p).Succs()
    ensures b < |f.blocks| && GoesOn(f, p)
    ensures Kept(f, a, b, 0) <= EndKept(f, a, p) <= Kept(f, a, b, 0) + DeadAtStart(f, a, b)
    ensures EndKept(f, a, p) - DeadAtStart(f, a, b) == Kept(f, a, b, 0)
  {
    SuccInRange(f, p, b);
    var j :| 0 <= j < |f.Term(p).Succs()| && f.Term(p).Succs()[j] == b;
    LiveAcrossEdge(f, a, dom, p, j);
    NoPending(f, a, b);
  }

  lemma NoPending(f: Func, a: Analysis, b: nat)
    requires a.Sized(f) && b < |f.blocks|
    ensures Kept(f, a, b, 0) == a.liveStart[b] + f.args
    ensures DeadAtStart(f, a, b) !! Kept(f, a, b, 0)
  {
  }

  lemma JoinIsUpper(f: Func, a: Analysis, dom: seq<set<Name>>, ends: seq<Borrows>, b: nat)
    requires Ready(f, a, dom) && Upper(f, a, ends) && b < |f.blocks|
    ensures Begin(f, a, b, Join(f, ends, b)) <= CopyPairs(f, Kept(f, a, b, 0))
  {
    var keep, names, dead := Kept(f, a, b, 0), Kept(f, a, b, 0) + DeadAtStart(f, a, b), a.deathOrder[b];
    var joined := Join(f, ends, b);
    forall e | e in joined
      ensures Bounded(f, keep, names, {e})
    {
      var p :| 0 <= p < |f.blocks| && b in f.Term(p).Succs() && e in ends[p];
      KeptAcross(f, a, dom, p, b);
      assert UpperAt(f, a, ends, p);
      PairsBounded(f, EndKept(f, a, p), keep, names, ends[p]);
    }
    assert Bounded(f, keep, names, joined) by {
      forall e | e in joined ensures e.0 != e.1 && e.0 in names && e.1 in names && Via(f, keep, e.0, e.1) {
        assert Bounded(f, keep, names, {e}) && e in {e};
      }
    }
    NoPending(f, a, b);
    KillAllBounded(f, keep, names, joined, dead);
    assert names - (set x | x in dead) <= keep;
    BoundedByKept(f, keep, names - (set x | x in dead), KillInOrder(joined, dead));
  }

  /** One predecessor with exact borrows is enough. */
  lemma JoinIsExact(f: Func, a: Analysis, dom: seq<set<Name>>, ends: seq<Borrows>, p: nat, b: nat)
    requires Ready(f, a, dom) && Upper(f, a, ends) && Edge(f, p, b) && Complete(f, a, ends, p)
    ensures b < |f.blocks| && Begin(f, a, b, Join(f, ends, b)) == CopyPairs(f, Kept(f, a, b, 0))
  {
    KeptAcross(f, a, dom, p, b);
    JoinIsUpper(f, a, dom, ends, b);
    EndIsJoined(f, ends, p, b);
    KillAllGrows(ends[p], Join(f, ends, b), a.deathOrder[b]);
    DeathsOf(f, a, dom, p, b);
  }

  lemma EndIsJoined(f: Func, ends: seq<Borrows>, p: nat, b: nat)
    requires |ends| == |f.blocks| && (forall p :: 0 <= p < |f.blocks| ==> |f.blocks[p]| > 0) && Edge(f, p, b)
    ensures ends[p] <= Join(f, ends, b)
  {
  }

  /** The deaths at the start of b leave, of what is kept at the end of a predecessor, what is kept. */
  lemma DeathsOf(f: Func, a: Analysis, dom: seq<set<Name>>, p: nat, b: nat)
    requires Ready(f, a, dom) && p < |f.blocks| && b < |f.blocks| && b in f.Term(p).Succs()
    ensures KillInOrder(CopyPairs(f, EndKept(f, a, p)), a.deathOrder[b]) == CopyPairs(f, Kept(f, a, b, 0))
  {
    KeptAcross(f, a, dom, p, b);
    KillAll(f, EndKept(f, a, p), a.deathOrder[b]);
    assert (set x | x in a.deathOrder[b]) == DeadAtStart(f, a, b);
  }

  lemma ArgIsNoCopy(f: Func, d: Name, s: Name)
    requires f.WellFormed() && d in f.args
    ensures !CopyOf(f, d, s)
  {
    forall b: nat, i: nat
      ensures !CopySite(f, b, i, d, s)
    {
      if f.At(b, i) { assert forall x :: x in f.blocks[b][i].Defs() ==> x !in f.args; }
    }
  }

  /** At the entry there are no borrows. */
  lemma EntryIsExact(f: Func, a: Analysis, dom: seq<set<Name>>, ends: seq<Borrows>)
    requires Ready(f, a, dom) && Upper(f, a, ends)
    ensures Begin(f, a, 0, Join(f, ends, 0)) == CopyPairs(f, Kept(f, a, 0, 0)) == {}
  {
    JoinIsUpper(f, a, dom, ends, 0);
    LiveIsDominated(f, a, dom);
    NoPending(f, a, 0);
    assert Kept(f, a, 0, 0) <= f.args;
    forall e | IsCopyPair(f, Kept(f, a, 0, 0), e)
      ensures false
    {
      var ns :| CopyChain(f, Kept(f, a, 0, 0), ns) && ns[0] == e.0 && ns[|ns| - 1] == e.1;
      assert CopyAt(f, ns, |ns| - 2);
      ArgIsNoCopy(f, e.1, ns[|ns| - 2]);
    }
  }

  // ----- Passes -----

  /** What the first n blocks end with in a pass, and what the others ended with before. */
  function PassUpTo(f: Func, a: Analysis, prev: seq<Borrows>, n: nat): (ends: seq<Borrows>)
    requires a.Sized(f) && |prev| == |f.blocks| && n <= |f.blocks|
    ensures |ends| == |prev| && forall p :: n <= p < |ends| ==> ends[p] == prev[p]
    decreases n
  {
    if n == 0 then prev else Visited(f, a, PassUpTo(f, a, prev, n - 1), n - 1)
  }

  function Pass(f: Func, a: Analysis, prev: seq<Borrows>): (ends: seq<Borrows>)
    requires a.Sized(f) && |prev| == |f.blocks|
    ensures |ends| == |prev|
  {
    PassUpTo(f, a, prev, |f.blocks|)
  }

  /** What block b joins in a pass. */
  function StartOf(f: Func, a: Analysis, prev: seq<Borrows>, b: nat): Borrows
    requires a.Sized(f) && |prev| == |f.blocks| && b < |f.blocks|
  {
    Join(f, PassUpTo(f, a, prev, b), b)
  }

  /** Visiting any block keeps borrows below those that copies account for. */
  ghost predicate VisitsKeepUpper(f: Func, a: Analysis)
    requires a.Sized(f)
  {
    forall ends, b: nat {:trigger Visited(f, a, ends, b)} ::
      Upper(f, a, ends) && b < |f.blocks| ==> Upper(f, a, Visited(f, a, ends, b))
  }

  lemma VisitsAreUpper(f: Func, a: Analysis, dom: seq<set<Name>>)
    requires Ready(f, a, dom)
    ensures VisitsKeepUpper(f, a)
  {
    forall ends, b: nat | Upper(f, a, ends) && b < |f.blocks|
      ensures Upper(f, a, Visited(f, a, ends, b))
    {
      VisitIsUpper(f, a, dom, ends, b);
    }
  }

  lemma {:induction false} UpperUpTo(f: Func, a: Analysis, prev: seq<Borrows>, n: nat) returns (ends: seq<Borrows>)
    requires a.Sized(f) && VisitsKeepUpper(f, a) && Upper(f, a, prev) && n <= |f.blocks|
    ensures ends == PassUpTo(f, a, prev, n) && Upper(f, a, ends)
    decreases n
  {
    if n == 0 {
      ends := prev;
    } else {
      var before := UpperUpTo(f, a, prev, n - 1);
      ends := Visited(f, a, before, n - 1);
    }
  }

  lemma PassIsUpper(f: Func, a: Analysis, dom: seq<set<Name>>, prev: seq<Borrows>, n: nat) returns (ends: seq<Borrows>)
    requires Ready(f, a, dom) && Upper(f, a, prev) && n <= |f.blocks|
    ensures ends == PassUpTo(f, a, prev, n) && Upper(f, a, ends)
  {
    VisitsAreUpper(f, a, dom);
    ends := UpperUpTo(f, a, prev, n);
  }

  /** One visit: block b joins, and its end replaces what was there. */
  function Visited(f: Func, a: Analysis, ends: seq<Borrows>, b: nat): (after: seq<Borrows>)
    requires a.Sized(f) && |ends| == |f.blocks| && b < |f.blocks|
    ensures |after| == |ends|
  {
    ends[b := EndOf(f, a, b, Join(f, ends, b))]
  }

  lemma VisitIsUpper(f: Func, a: Analysis, dom: seq<set<Name>>, ends: seq<Borrows>, b: nat)
    requires Ready(f, a, dom) && Upper(f, a, ends) && b < |f.blocks|
    ensures Upper(f, a, Visited(f, a, ends, b))
  {
    JoinIsUpper(f, a, dom, ends, b);
    if GoesOn(f, b) { EndIsExact(f, a, dom, b, Join(f, ends, b)); }
    UpperReplaced(f, a, ends, b, EndOf(f, a, b, Join(f, ends, b)));
  }

  lemma UpperReplaced(f: Func, a: Analysis, ends: seq<Borrows>, b: nat, end: Borrows)
    requires a.Sized(f) && Upper(f, a, ends) && b < |f.blocks|
             && (GoesOn(f, b) ==> end <= CopyPairs(f, EndKept(f, a, b)))
    ensures Upper(f, a, ends[b := end])
  {
    var after := ends[b := end];
    forall p | 0 <= p < |f.blocks| ensures UpperAt(f, a, after, p) { assert UpperAt(f, a, ends, p); }
  }

  /** What a pass leaves for a block is what it computed for it. */
  lemma {:induction false} PassKeeps(f: Func, a: Analysis, prev: seq<Borrows>, b: nat, n: nat)
    requires a.Sized(f) && |prev| == |f.blocks| && b < n <= |f.blocks|
    ensures PassUpTo(f, a, prev, n)[b] == EndOf(f, a, b, StartOf(f, a, prev, b))
    decreases n
  {
    if b + 1 < n { PassKeeps(f, a, prev, b, n - 1); }
  }

  /** Exact at the end of every block to which a path with fewer than k steps backwards leads. */
  ghost predicate CompleteWithin(f: Func, a: Analysis, ends: seq<Borrows>, k: nat)
    requires a.Sized(f)
  {
    forall path: Route :: path.Along(f) && path.Descents() < k && path.End() < |f.blocks| && GoesOn(f, path.End()) ==>
      Complete(f, a, ends, path.End())
  }

  ghost predicate ExactStart(f: Func, a: Analysis, b: nat, start: Borrows)
    requires a.Sized(f) && b < |f.blocks|
  {
    Begin(f, a, b, start) == CopyPairs(f, Kept(f, a, b, 0))
  }

  /** A block that is visited starts exactly when a path with at most k steps backwards leads to it. */
  lemma {:induction false} StartIsExact(f: Func, a: Analysis, dom: seq<set<Name>>, prev: seq<Borrows>, k: nat,
                                        path: Route)
    requires Ready(f, a, dom) && Upper(f, a, prev) && CompleteWithin(f, a, prev, k)
    requires path.Along(f) && path.Descents() <= k
    ensures path.End() < |f.blocks| && ExactStart(f, a, path.End(), StartOf(f, a, prev, path.End()))
    decreases path
  {
    match path
    case Entry =>
      EntryIsExact(f, a, dom, prev);
    case Then(front, b) =>
      var p := front.End();
      SuccInRange(f, p, b);
      KeptAcross(f, a, dom, p, b);
      if p < b {
        StartIsExact(f, a, dom, prev, k, front);
        EndOfIsComplete(f, a, dom, prev, p, b);
      }
      var ends := PassIsUpper(f, a, dom, prev, b);
      JoinIsExact(f, a, dom, ends, p, b);
  }

  lemma EndOfIsComplete(f: Func, a: Analysis, dom: seq<set<Name>>, prev: seq<Borrows>, p: nat, n: nat)
    requires Ready(f, a, dom) && Upper(f, a, prev) && p < n <= |f.blocks| && GoesOn(f, p)
    requires ExactStart(f, a, p, StartOf(f, a, prev, p))
    ensures Complete(f, a, PassUpTo(f, a, prev, n), p)
  {
    EndIsExact(f, a, dom, p, StartOf(f, a, prev, p));
    PassKeeps(f, a, prev, p, n);
  }

  /** Each pass allows for one more step backwards. */
  lemma PassReaches(f: Func, a: Analysis, dom: seq<set<Name>>, prev: seq<Borrows>, k: nat)
    requires Ready(f, a, dom) && Upper(f, a, prev) && CompleteWithin(f, a, prev, k)
    ensures Upper(f, a, Pass(f, a, prev)) && CompleteWithin(f, a, Pass(f, a, prev), k + 1)
  {
    var ends := PassIsUpper(f, a, dom, prev, |f.blocks|);
    forall path: Route | path.Along(f) && path.Descents() < k + 1 && path.End() < |f.blocks| && GoesOn(f, path.End())
      ensures Complete(f, a, Pass(f, a, prev), path.End())
    {
      StartIsExact(f, a, dom, prev, k, path);
      EndOfIsComplete(f, a, dom, prev, path.End(), |f.blocks|);
    }
  }

  // ----- When a pass works with exact borrows -----

  /** One pass more would work with the same borrows at the start of block b. */
  ghost predicate SameStart(f: Func, a: Analysis, prev: seq<Borrows>, b: nat)
    requires a.Sized(f) && |prev| == |f.blocks| && b < |f.blocks|
  {
    Begin(f, a, b, StartOf(f, a, prev, b)) == Begin(f, a, b, StartOf(f, a, Pass(f, a, prev), b))
  }

  ghost predicate AllSame(f: Func, a: Analysis, prev: seq<Borrows>)
    requires a.Sized(f) && |prev| == |f.blocks|
  {
    forall b: nat :: b < |f.blocks| ==> SameStart(f, a, prev, b)
  }

  ghost predicate AllExact(f: Func, a: Analysis, prev: seq<Borrows>)
    requires a.Sized(f) && |prev| == |f.blocks|
  {
    forall b: nat :: b < |f.blocks| ==> ExactStart(f, a, b, StartOf(f, a, prev, b))
  }

  lemma VisitIsKept(f: Func, a: Analysis, prev: seq<Borrows>, ends: seq<Borrows>, b: nat)
    requires a.Sized(f) && |prev| == |f.blocks| && b < |f.blocks| && AllSame(f, a, prev)
    requires ends == Pass(f, a, prev) && StartOf(f, a, ends, b) == Join(f, ends, b)
    ensures Visited(f, a, ends, b) == ends
  {
    assert SameStart(f, a, prev, b);
    PassKeeps(f, a, prev, b, |f.blocks|);
  }

  /** The next pass leaves every block end as it is. */
  lemma {:induction false} NextPassKeeps(f: Func, a: Analysis, prev: seq<Borrows>, ends: seq<Borrows>, n: nat)
    returns (now: seq<Borrows>)
    requires a.Sized(f) && |prev| == |f.blocks| && n <= |f.blocks| && AllSame(f, a, prev) && ends == Pass(f, a, prev)
    ensures now == PassUpTo(f, a, ends, n) && now == ends
    decreases n
  {
    if n == 0 {
      now := ends;
    } else {
      var before := NextPassKeeps(f, a, prev, ends, n - 1);
      VisitIsKept(f, a, prev, ends, n - 1);
      now := Visited(f, a, before, n - 1);
    }
  }

  /** Where a pass leaves the ends as they are, they are exact along every route. */
  lemma {:induction false} KeptIsExact(f: Func, a: Analysis, dom: seq<set<Name>>, ends: seq<Borrows>, route: Route)
    requires Ready(f, a, dom) && Upper(f, a, ends) && Keeps(f, a, ends) && route.Along(f)
    ensures route.End() < |f.blocks| && ExactStart(f, a, route.End(), Join(f, ends, route.End()))
    decreases route
  {
    match route
    case Entry =>
      EntryIsExact(f, a, dom, ends);
    case Then(front, b) =>
      var p := front.End();
      KeptIsExact(f, a, dom, ends, front);
      SuccInRange(f, p, b);
      KeptAcross(f, a, dom, p, b);
      EndIsExact(f, a, dom, p, Join(f, ends, p));
      assert KeepsAt(f, a, ends, p);
      JoinIsExact(f, a, dom, ends, p, b);
  }

  ghost predicate Keeps(f: Func, a: Analysis, ends: seq<Borrows>)
    requires a.Sized(f)
  {
    |ends| == |f.blocks| && forall b: nat :: b < |f.blocks| ==> KeepsAt(f, a, ends, b)
  }

  ghost predicate KeepsAt(f: Func, a: Analysis, ends: seq<Borrows>, b: nat)
    requires a.Sized(f) && |ends| == |f.blocks| && b < |f.blocks|
  {
    ends[b] == EndOf(f, a, b, Join(f, ends, b))
  }

  lemma KeptByNextPass(f: Func, a: Analysis, prev: seq<Borrows>, ends: seq<Borrows>, b: nat)
    requires a.Sized(f) && |prev| == |f.blocks| && b < |f.blocks| && AllSame(f, a, prev) && ends == Pass(f, a, prev)
    ensures KeepsAt(f, a, ends, b) && StartOf(f, a, ends, b) == Join(f, ends, b)
  {
    var before := NextPassKeeps(f, a, prev, ends, b);
    VisitIsKept(f, a, prev, ends, b);
  }

  lemma RouteTo(f: Func, a: Analysis, dom: seq<set<Name>>, b: nat) returns (route: Route)
    requires Ready(f, a, dom) && b < |f.blocks|
    ensures route.Along(f) && route.End() == b
  {
    assert Reachable(f, b);
    route :| route.Along(f) && route.End() == b;
  }

  lemma SameIsExact(f: Func, a: Analysis, dom: seq<set<Name>>, prev: seq<Borrows>)
    requires Ready(f, a, dom) && Upper(f, a, prev) && AllSame(f, a, prev)
    ensures AllExact(f, a, prev)
  {
    var ends := PassIsUpper(f, a, dom, prev, |f.blocks|);
    forall b: nat | b < |f.blocks| ensures KeepsAt(f, a, ends, b) { KeptByNextPass(f, a, prev, ends, b); }
    forall b: nat | b < |f.blocks|
      ensures ExactStart(f, a, b, StartOf(f, a, prev, b))
    {
      SameIsExactAt(f, a, dom, prev, ends, b);
    }
  }

  lemma SameIsExactAt(f: Func, a: Analysis, dom: seq<set<Name>>, prev: seq<Borrows>, ends: seq<Borrows>, b: nat)
    requires Ready(f, a, dom) && |prev| == |f.blocks| && AllSame(f, a, prev) && b < |f.blocks|
    requires ends == Pass(f, a, prev) && Upper(f, a, ends) && Keeps(f, a, ends)
    ensures ExactStart(f, a, b, StartOf(f, a, prev, b))
  {
    var route := RouteTo(f, a, dom, b);
    KeptIsExact(f, a, dom, ends, route);
    KeptByNextPass(f, a, prev, ends, b);
    assert SameStart(f, a, prev, b);
  }

  /** From exact ends the next pass starts exactly. */
  lemma {:induction false} ExactAgain(f: Func, a: Analysis, dom: seq<set<Name>>, ends: seq<Borrows>, b: nat)
    requires Ready(f, a, dom) && Upper(f, a, ends) && b < |f.blocks|
    requires forall p: nat :: p < |f.blocks| && GoesOn(f, p) ==> Complete(f, a, ends, p)
    ensures ExactStart(f, a, b, StartOf(f, a, ends, b))
    decreases b
  {
    var route := RouteTo(f, a, dom, b);
    var before := PassIsUpper(f, a, dom, ends, b);
    match route
    case Entry =>
      EntryIsExact(f, a, dom, before);
    case Then(front, _) =>
      var p := front.End();
      SuccInRange(f, p, b);
      KeptAcross(f, a, dom, p, b);
      if p < b {
        ExactAgain(f, a, dom, ends, p);
        EndOfIsComplete(f, a, dom, ends, p, b);
      }
      JoinIsExact(f, a, dom, before, p, b);
  }

  lemma ExactIsSame(f: Func, a: Analysis, dom: seq<set<Name>>, prev: seq<Borrows>)
    requires Ready(f, a, dom) && Upper(f, a, prev) && AllExact(f, a, prev)
    ensures AllSame(f, a, prev)
  {
    var ends := PassIsUpper(f, a, dom, prev, |f.blocks|);
    forall p: nat | p < |f.blocks| && GoesOn(f, p)
      ensures Complete(f, a, ends, p)
    {
      EndOfIsComplete(f, a, dom, prev, p, |f.blocks|);
    }
    forall b: nat | b < |f.blocks| ensures SameStart(f, a, prev, b) { ExactAgain(f, a, dom, ends, b); }
  }

  /** A pass works with exact borrows everywhere if and only if one pass more would work with the
      same. */
  lemma ExactIffSame(f: Func, a: Analysis, dom: seq<set<Name>>, prev: seq<Borrows>)
    requires Ready(f, a, dom) && Upper(f, a, prev)
    ensures AllExact(f, a, prev) <==> AllSame(f, a, prev)
  {
    if AllExact(f, a, prev) { ExactIsSame(f, a, dom, prev); }
    if AllSame(f, a, prev) { SameIsExact(f, a, dom, prev); }
  }
}
