/** What the `mut` part of an assignment means for runs: writing and freeing need a mutable origin, and
    while a pointer is written or freed nothing that was copied from it is in use. */
module Mutability {
  import opened DataFlow
  import opened PointerIR
  import opened OwnershipClauses
  import opened ClauseMeaning
  import opened FunctionMeaning
  import opened Execution
  import opened LiveFacts
  import opened CopyBorrows
  import opened CopyValues
  import opened BorrowPasses
  import opened SettledBorrows
  import OwnershipTheorem

  // ----- Origins of mutable values -----

  /** A function in strict SSA form and an assignment that satisfies its clauses. */
  ghost predicate Accepts(p: OwnershipTheorem.Program) {
    && p.f.WellFormed() && p.f.StrictSSA(p.dom) && CopyRoots(p.f, p.root) && p.a.Sized(p.f)
    && Obeyed(p.f, p.a, p.asgn)
  }

  lemma SatisfiedIsAccepted(p: OwnershipTheorem.Program)
    requires p.f.WellFormed() && p.f.StrictSSA(p.dom) && CopyRoots(p.f, p.root) && p.a.Sized(p.f)
    ensures Accepts(p) <==> Satisfies(p.asgn, AllClauses(p.f, p.a))
  {
    ClausesMean(p.f, p.a, p.asgn);
  }

  /** If n is mutable, then so is the value it was copied from in the first place. */
  ghost predicate MutFromRoot(p: OwnershipTheorem.Program, n: Name) {
    Met(p.f, n) && (Mut(n) in p.asgn ==> Mut(p.root(n)) in p.asgn)
  }

  /** Whatever is in use has been met, with a mutable origin if it is mutable. */
  ghost predicate Originates(p: OwnershipTheorem.Program, s: State) {
    forall n :: n in s.env.Keys && p.f.HasUses(n) ==> MutFromRoot(p, n)
  }

  /** Operands are there when they are needed. */
  ghost predicate Supplied(f: Func, dom: seq<set<Name>>, s: State)
    requires |dom| == |f.blocks|
  {
    s.pc.At? ==> f.At(s.pc.b, s.pc.i) && Dominating(f, dom, s.pc.b, s.pc.i) <= s.env.Keys
  }

  lemma OperandIsUsed(p: OwnershipTheorem.Program, s: State, n: Name)
    requires Accepts(p) && s.pc.At? && Supplied(p.f, p.dom, s)
    requires n in p.f.blocks[s.pc.b][s.pc.i].Operands() && n != NullConst
    ensures n in s.env.Keys && p.f.HasUses(n)
  {
    assert n in p.f.blocks[s.pc.b][s.pc.i].Uses();
  }

  lemma CopyKeepsOrigin(p: OwnershipTheorem.Program, b: nat, i: nat, s: State, d: Name, src: Name)
    requires Accepts(p) && s.pc == Execution.At(b, i) && Supplied(p.f, p.dom, s) && Originates(p, s)
    requires p.f.blocks[b][i] == VarStore(d, src) && p.f.HasUses(d)
    ensures MutFromRoot(p, d)
  {
    assert BlockObeyed(p.f, p.a, p.asgn, b) && PlaceObeyed(p.f, p.a, p.asgn, b, i);
    assert MetAt(p.f, b, i, d);
    assert p.root(d) == p.root(src);
    if src != NullConst { OperandIsUsed(p, s, src); }
  }

  lemma MallocIsOrigin(p: OwnershipTheorem.Program, b: nat, i: nat, d: Name)
    requires Accepts(p) && p.f.At(b, i) && p.f.blocks[b][i] == Malloc(d)
    ensures MutFromRoot(p, d)
  {
    assert MetAt(p.f, b, i, d);
  }

  lemma StepOriginates(p: OwnershipTheorem.Program, s: State, s': State)
    requires Accepts(p) && Step(p.f, s, s') && Supplied(p.f, p.dom, s) && Originates(p, s)
    ensures Originates(p, s')
  {
    var b, i := s.pc.b, s.pc.i;
    forall n | n in s'.env.Keys && p.f.HasUses(n)
      ensures MutFromRoot(p, n)
    {
      if n !in s.env.Keys {
        match p.f.blocks[b][i] {
          case Malloc(d) => MallocIsOrigin(p, b, i, d);
          case VarStore(d, src) => CopyKeepsOrigin(p, b, i, s, d, src);
          case _ =>
        }
      } else {
        assert MutFromRoot(p, n);
      }
    }
  }

  lemma EnvGrows(inst: Instr, s: State, s': State)
    requires Effect(inst, s, s')
    ensures s.env.Keys + inst.Defs() <= s'.env.Keys
  {
  }

  lemma StepSupplies(f: Func, dom: seq<set<Name>>, s: State, s': State)
    requires f.WellFormed() && f.StrictSSA(dom) && Step(f, s, s') && Supplied(f, dom, s)
    ensures Supplied(f, dom, s')
  {
    var b, i := s.pc.b, s.pc.i;
    var inst := f.blocks[b][i];
    EnvGrows(inst, s, s');
    DominatingNext(f, dom, b, i);
    if inst.Terminator() {
      if s'.pc.At? {
        var j := Taken(f, b, i, s, s'.pc);
        Crossed(f, dom, b, i, j, s'.pc.b);
      }
    } else {
      StepWithin(f, s, s');
    }
  }

  lemma Taken(f: Func, b: nat, i: nat, s: State, pc: Pc) returns (j: nat)
    requires f.WellFormed() && s.pc == Execution.At(b, i) && f.At(b, i) && f.blocks[b][i].Terminator() && pc.At?
    requires NextPc(f.blocks[b][i], s, pc)
    ensures j < |f.Term(b).Succs()| && f.Term(b).Succs()[j] == pc.b && pc.i == 0 && i == |f.blocks[b]| - 1
  {
    assert f.blocks[b][i] == f.Term(b);
    j := if f.Term(b).Succs()[0] == pc.b then 0 else 1;
  }

  lemma Crossed(f: Func, dom: seq<set<Name>>, b: nat, i: nat, j: nat, c: nat)
    requires f.WellFormed() && f.StrictSSA(dom) && f.At(b, i) && i == |f.blocks[b]| - 1
    requires j < |f.Term(b).Succs()| && f.Term(b).Succs()[j] == c
    ensures f.At(c, 0) && Dominating(f, dom, c, 0) <= Dominating(f, dom, b, i + 1)
  {
    assert f.blocks[b][i].Succs()[j] < |f.blocks|;
    assert dom[f.Term(b).Succs()[j]] <= dom[b] + f.DefsBefore(b, |f.blocks[b]|);
    assert f.DefsBefore(c, 0) == {};
  }

  /** A call: control is at the entry, and the arguments have values. */
  ghost predicate Entered(p: OwnershipTheorem.Program, s: State) {
    s.pc == Execution.At(0, 0) && s.env.Keys == p.f.args
  }

  lemma EntryOriginates(p: OwnershipTheorem.Program, s: State)
    requires Accepts(p) && Entered(p, s)
    ensures Supplied(p.f, p.dom, s) && Originates(p, s)
  {
    assert p.f.At(0, 0) && p.f.DefsBefore(0, 0) == {};
  }

  lemma NextOriginates(p: OwnershipTheorem.Program, s: State, s': State)
    requires Accepts(p) && Step(p.f, s, s') && Supplied(p.f, p.dom, s) && Originates(p, s)
    ensures Supplied(p.f, p.dom, s') && Originates(p, s')
  {
    StepSupplies(p.f, p.dom, s, s');
    StepOriginates(p, s, s');
  }

  lemma {:induction false} RunOriginates(p: OwnershipTheorem.Program, run: seq<State>, k: nat)
    requires Accepts(p) && Run(p.f, run) && Entered(p, run[0]) && k < |run|
    ensures Supplied(p.f, p.dom, run[k]) && Originates(p, run[k])
    decreases k
  {
    if k == 0 {
      EntryOriginates(p, run[0]);
    } else {
      RunOriginates(p, run, k - 1);
      NextOriginates(p, run[k - 1], run[k]);
    }
  }

  /** In its k-th state the run is about to write through n, or to free it. */
  ghost predicate Changes(f: Func, s: State, n: Name) {
    && s.pc.At? && f.At(s.pc.b, s.pc.i)
    && (f.blocks[s.pc.b][s.pc.i] == Store(n) || (exists fclose :: f.blocks[s.pc.b][s.pc.i] == Free(n, fclose)))
  }

  /** No run writes through a value, or frees it, unless that value and the one it was copied from in the
      first place are mutable. */
  lemma ChangesAreMutable(p: OwnershipTheorem.Program, run: seq<State>, k: nat, n: Name)
    requires Accepts(p) && Run(p.f, run) && Entered(p, run[0]) && k < |run|
    requires Changes(p.f, run[k], n) && n != NullConst
    ensures Mut(n) in p.asgn && Mut(p.root(n)) in p.asgn
  {
    RunOriginates(p, run, k);
    var b, i := run[k].pc.b, run[k].pc.i;
    OperandIsUsed(p, run[k], n);
    assert MutFromRoot(p, n);
    assert BlockObeyed(p.f, p.a, p.asgn, b) && PlaceObeyed(p.f, p.a, p.asgn, b, i);
  }

  /** In particular an argument that is not mutable is left alone: no run writes or frees it, under
      its own name or under that of a copy. */
  lemma ImmutableIsLeftAlone(p: OwnershipTheorem.Program, run: seq<State>, x: Name)
    requires Accepts(p) && Run(p.f, run) && Entered(p, run[0]) && x in p.f.args && Mut(x) !in p.asgn
    ensures forall k, n :: 0 <= k < |run| && p.root(n) == x ==> !Changes(p.f, run[k], n)
  {
    forall k: nat, n | k < |run| && p.root(n) == x
      ensures !Changes(p.f, run[k], n)
    {
      if Changes(p.f, run[k], n) { ChangesAreMutable(p, run, k, n); }
    }
  }

  // ----- Copies in use -----

  /** The first kept value on a chain of copies from q is a borrower of q. */
  lemma {:induction false} NearestKept(f: Func, keep: set<Name>, ns: seq<Name>, i: nat) returns (m: nat)
    requires CopyChain(f, {}, ns) && ns[0] in keep && ns[|ns| - 1] in keep && 0 < i < |ns|
    requires forall k :: 0 < k < i ==> ns[k] !in keep
    ensures 0 < m < |ns| && ns[m] in keep && Via(f, keep, ns[0], ns[m])
    decreases |ns| - i
  {
    if ns[i] in keep {
      m := i;
      var part := ns[..i + 1];
      forall k | 0 <= k < |part| - 1 ensures CopyAt(f, part, k) { assert CopyAt(f, ns, k); }
      assert CopyChain(f, keep, part);
    } else {
      m := NearestKept(f, keep, ns, i + 1);
    }
  }

  /** If a kept value was copied from q, directly or not, then q lends to a kept value. */
  lemma LendsOnTheWay(f: Func, keep: set<Name>, q: Name, n: Name)
    requires Via(f, {}, q, n) && q in keep && n in keep && n != q
    ensures exists m :: IsCopyPair(f, keep, (q, m))
  {
    var ns :| CopyChain(f, {}, ns) && ns[0] == q && ns[|ns| - 1] == n;
    var m := NearestAfter(f, keep, ns, LastIn(ns, q));
  }

  lemma CopyNeedsMut(f: Func, a: Analysis, asgn: Assignment, d: Name, s: Name)
    requires a.Sized(f) && Obeyed(f, a, asgn) && CopyOf(f, d, s) && Mut(d) in asgn
    ensures Mut(s) in asgn
  {
    var b: nat, i: nat :| CopySite(f, b, i, d, s);
    assert BlockObeyed(f, a, asgn, b) && PlaceObeyed(f, a, asgn, b, i);
  }

  /** A mutable copy makes everything on the way to it mutable. */
  lemma {:induction false} ChainIsMut(f: Func, a: Analysis, asgn: Assignment, ns: seq<Name>, m: nat)
    requires a.Sized(f) && Obeyed(f, a, asgn) && CopyChain(f, {}, ns) && m < |ns| && Mut(ns[|ns| - 1]) in asgn
    ensures Mut(ns[m]) in asgn
    decreases |ns| - m
  {
    if m < |ns| - 1 {
      ChainIsMut(f, a, asgn, ns, m + 1);
      assert CopyAt(f, ns, m);
      CopyNeedsMut(f, a, asgn, ns[m + 1], ns[m]);
    }
  }

  /** The nearest kept value on the way from q to a mutable copy of it is mutable. */
  lemma LendsMut(f: Func, a: Analysis, asgn: Assignment, keep: set<Name>, q: Name, n: Name)
    requires a.Sized(f) && Obeyed(f, a, asgn) && Via(f, {}, q, n) && q in keep && n in keep && n != q && Mut(n) in asgn
    ensures exists m :: IsCopyPair(f, keep, (q, m)) && Mut(m) in asgn
  {
    var ns :| CopyChain(f, {}, ns) && ns[0] == q && ns[|ns| - 1] == n;
    var last := LastIn(ns, q);
    var m := NearestAfter(f, keep, ns, last);
    ChainIsMut(f, a, asgn, ns, m);
    assert IsCopyPair(f, keep, (q, ns[m])) && Mut(ns[m]) in asgn;
  }

  lemma NearestAfter(f: Func, keep: set<Name>, ns: seq<Name>, last: nat) returns (m: nat)
    requires CopyChain(f, {}, ns) && last < |ns| - 1 && ns[last] in keep && ns[|ns| - 1] in keep
    requires forall k :: last < k < |ns| ==> ns[k] != ns[last]
    ensures last < m < |ns| && IsCopyPair(f, keep, (ns[last], ns[m]))
  {
    var part := ns[last..];
    forall k | 0 <= k < |part| - 1 ensures CopyAt(f, part, k) { assert CopyAt(f, ns, last + k); }
    assert CopyChain(f, {}, part);
    var j := NearestKept(f, keep, part, 1);
    m := last + j;
    assert part[j] == ns[m] && part[0] == ns[last];
  }

  lemma ExclusiveThere(f: Func, a: Analysis, asgn: Assignment, b: nat, i: nat, q: Name, n: Name)
    requires a.Sized(f) && f.At(b, i) && Obeyed(f, a, asgn) && q in Kept(f, a, b, i) && n in Kept(f, a, b, i)
    requires BorrowsAt(f, a, b, i) == CopyPairs(f, Kept(f, a, b, i)) && n != q && Descends(f, q, n)
    ensures f.blocks[b][i] != Store(q) && forall fclose :: f.blocks[b][i] != Free(q, fclose)
    ensures f.blocks[b][i] == Load(q) ==> Mut(n) !in asgn
  {
    var keep := Kept(f, a, b, i);
    assert BlockObeyed(f, a, asgn, b) && PlaceObeyed(f, a, asgn, b, i);
    LendsOnTheWay(f, keep, q, n);
    if Mut(n) in asgn { LendsMut(f, a, asgn, keep, q, n); }
  }

  lemma CheckedIsObeyed(p: OwnershipTheorem.Program, liveStart: seq<set<Name>>, order: seq<Name>)
    requires Checked(p, liveStart, order)
    ensures p.f.WellFormed() && p.a.Sized(p.f) && Obeyed(p.f, p.a, p.asgn)
    ensures Ready(p.f, p.a, p.dom) && IsSettled(p.f, p.a, order)
  {
    CheckedIsReady(p, liveStart, order);
    ClausesMean(p.f, p.a, p.asgn);
  }

  /** Where the borrows are exact: while a value is written or freed, no value in use was copied from it,
      directly or not; while it is read, only values that are not mutable were. */
  lemma AccessIsExclusive(p: OwnershipTheorem.Program, liveStart: seq<set<Name>>, order: seq<Name>, b: nat, i: nat,
                          q: Name, n: Name)
    requires Checked(p, liveStart, order) && Stable(p.f, p.a) && p.f.At(b, i)
    requires n in Kept(p.f, p.a, b, i) && n != q && Descends(p.f, q, n)
    ensures p.f.blocks[b][i] != Store(q) && forall fclose :: p.f.blocks[b][i] != Free(q, fclose)
    ensures p.f.blocks[b][i] == Load(q) ==> Mut(n) !in p.asgn
  {
    CheckedIsObeyed(p, liveStart, order);
    if AccessedBy(p.f.blocks[b][i], q) {
      BorrowsThere(p, order, b, i, q);
      ExclusiveThere(p.f, p.a, p.asgn, b, i, q, n);
    }
  }

  ghost predicate AccessedBy(inst: Instr, q: Name) {
    inst == Store(q) || inst == Load(q) || exists fclose :: inst == Free(q, fclose)
  }

  lemma BorrowsThere(p: OwnershipTheorem.Program, order: seq<Name>, b: nat, i: nat, q: Name)
    requires Ready(p.f, p.a, p.dom) && IsSettled(p.f, p.a, order) && Stable(p.f, p.a) && p.f.At(b, i)
    requires AccessedBy(p.f.blocks[b][i], q) && exists n :: Descends(p.f, q, n)
    ensures BorrowsAt(p.f, p.a, b, i) == CopyPairs(p.f, Kept(p.f, p.a, b, i)) && q in Kept(p.f, p.a, b, i)
  {
    StartsExactIffStable(p.f, p.a, p.dom, order);
    BorrowsAreExact(p.f, p.a, p.dom, b, i);
    AccessedIsKept(p.f, p.a, p.dom, b, i, q);
  }

  lemma AccessedIsKept(f: Func, a: Analysis, dom: seq<set<Name>>, b: nat, i: nat, q: Name)
    requires Analysed(f, a, dom) && UsedAreLive(f, a) && f.At(b, i) && AccessedBy(f.blocks[b][i], q)
    requires exists n :: Descends(f, q, n)
    ensures q in Kept(f, a, b, i)
  {
    var n :| Descends(f, q, n);
    var ns :| CopyChain(f, {}, ns) && ns[0] == q && ns[|ns| - 1] == n;
    assert CopyAt(f, ns, 0);
    assert q in f.blocks[b][i].Uses();
    OperandsAreLive(f, a, dom, b, i);
  }
}
