/** What the generator's last pass works with: the borrows joined after the dry runs, and the aliases
    that the search finds among them.  Where every block is within two steps backwards of the entry,
    both are as the ownership theorem needs them. */
module SettledBorrows {
  import opened PointerIR
  import opened OwnershipClauses
  import opened LiveFacts
  import opened CopyBorrows
  import opened CopySites
  import opened BorrowPasses
  import opened BorrowPaths
  import opened DataFlow
  import opened Execution
  import DeadDefinitions
  import Liveness
  import OwnershipLimits
  import OwnershipSoundness
  import OwnershipTheorem

  // ----- The analysis that the last pass sees -----

  /** The values of `dead` as they are visited. */
  function InOrder(order: seq<Name>, dead: set<Name>): (deaths: seq<Name>)
    ensures forall x :: x in deaths <==> x in order && x in dead
    decreases |order|
  {
    if order == [] then [] else
      var last := order[|order| - 1];
      assert order == order[..|order| - 1] + [last];
      InOrder(order[..|order| - 1], dead) + if last in dead then [last] else []
  }

  predicate LiveFor(f: Func, liveStart: seq<set<Name>>) {
    |liveStart| == |f.blocks| && (forall b :: 0 <= b < |f.blocks| ==> |f.blocks[b]| > 0) && f.Flow().Valid()
  }

  function Blank(f: Func, liveStart: seq<set<Name>>): Analysis {
    Analysis(liveStart, seq(|f.blocks|, _ => {}), seq(|f.blocks|, _ => []), seq(|f.blocks|, _ => {}))
  }

  /** Liveness, and the deaths at each block start. */
  function Bare(f: Func, liveStart: seq<set<Name>>, order: seq<Name>): (a: Analysis)
    requires LiveFor(f, liveStart)
    ensures a.Sized(f)
  {
    Blank(f, liveStart).(
      deathOrder := seq(|f.blocks|,
        b requires 0 <= b < |f.blocks| => InOrder(order, DeadAtStart(f, Blank(f, liveStart), b))))
  }

  function NoBorrows(f: Func): seq<Borrows> { seq(|f.blocks|, _ => {}) }

  /** There is one dry run if it meets no name but NULL, and otherwise a second one. */
  function DryRuns(f: Func, a: Analysis): (ends: seq<Borrows>)
    requires a.Sized(f)
    ensures |ends| == |f.blocks|
  {
    DryRunsFor(f, a, |Seen(f)|)
  }

  function DryRunsFor(f: Func, a: Analysis, names: nat): (ends: seq<Borrows>)
    requires a.Sized(f)
    ensures |ends| == |f.blocks|
  {
    var once := Pass(f, a, NoBorrows(f));
    if names == 1 then once else Pass(f, a, once)
  }

  function WithStarts(f: Func, a: Analysis, ends: seq<Borrows>): (a': Analysis)
    requires a.Sized(f) && |ends| == |f.blocks|
    ensures a'.Sized(f)
  {
    a.(borrowStart := seq(|f.blocks|, b requires 0 <= b < |f.blocks| => StartOf(f, a, ends, b)))
  }

  ghost function WithAliases(f: Func, a: Analysis): (a': Analysis)
    requires a.Sized(f)
    ensures a'.Sized(f)
  {
    a.(aliases := seq(|f.blocks|, b requires 0 <= b < |f.blocks| => AliasesAt(f, a, b)))
  }

  /** The aliases of the value tested at the end of block b. */
  ghost function AliasesAt(f: Func, a: Analysis, b: nat): set<Name>
    requires a.Sized(f) && b < |f.blocks|
  {
    if f.Term(b).NullBranch? then AliasNames(BorrowsAt(f, a, b, |f.blocks[b]|), f.Term(b).ptr) else {}
  }

  ghost function Settled(f: Func, liveStart: seq<set<Name>>, order: seq<Name>): (a: Analysis)
    requires LiveFor(f, liveStart)
    ensures a.Sized(f)
  {
    var bare := Bare(f, liveStart, order);
    WithAliases(f, WithStarts(f, bare, DryRuns(f, bare)))
  }

  // ----- Passes depend on liveness and the order of deaths only -----

  ghost predicate Alike(f: Func, a: Analysis, a': Analysis) {
    a.Sized(f) && a'.Sized(f) && a.liveStart == a'.liveStart && a.deathOrder == a'.deathOrder
  }

  lemma LastUsesAlike(f: Func, a: Analysis, a': Analysis, b: nat, i: nat)
    requires a.Sized(f) && a'.Sized(f) && a.liveStart == a'.liveStart && b < |f.blocks| && i < |f.blocks[b]|
    ensures LastUse(f, a, b, i) == LastUse(f, a', b, i)
  {
    Liveness.ScanByLiveStart(f, a, a', b, i + 1);
  }

  lemma {:induction false} LiveAlike(f: Func, a: Analysis, a': Analysis, b: nat, i: nat)
    requires a.Sized(f) && a'.Sized(f) && a.liveStart == a'.liveStart && b < |f.blocks| && i <= |f.blocks[b]|
    ensures CurLive(f, a, b, i) == CurLive(f, a', b, i)
    decreases i
  {
    if i > 0 {
      LiveAlike(f, a, a', b, i - 1);
      LastUsesAlike(f, a, a', b, i - 1);
    }
  }

  lemma DeathsAlike(f: Func, a: Analysis, a': Analysis, b: nat)
    requires a.Sized(f) && a'.Sized(f) && a.liveStart == a'.liveStart && b < |f.blocks|
    ensures DeadAtStart(f, a, b) == DeadAtStart(f, a', b)
  {
    assert forall p :: 0 <= p < |f.blocks| ==> LiveOut(f, a, p) == LiveOut(f, a', p);
  }

  lemma {:induction false} AlongAlike(f: Func, a: Analysis, a': Analysis, b: nat, i: nat, bs: Borrows)
    requires Alike(f, a, a') && b < |f.blocks| && i <= |f.blocks[b]|
    ensures Along(f, a, b, i, bs) == Along(f, a', b, i, bs)
    decreases i
  {
    if i > 0 {
      AlongAlike(f, a, a', b, i - 1, bs);
      LastUsesAlike(f, a, a', b, i - 1);
    }
  }

  lemma EndsAlike(f: Func, a: Analysis, a': Analysis, b: nat, start: Borrows)
    requires Alike(f, a, a') && b < |f.blocks|
    ensures EndOf(f, a, b, start) == EndOf(f, a', b, start)
  {
    AlongAlike(f, a, a', b, |f.blocks[b]|, Begin(f, a, b, start));
    if Waits(f, b) { LastUsesAlike(f, a, a', b, |f.blocks[b]| - 2); }
  }

  ghost predicate VisitsAlike(f: Func, a: Analysis, a': Analysis)
    requires a.Sized(f) && a'.Sized(f)
  {
    forall ends, b: nat :: |ends| == |f.blocks| && b < |f.blocks| ==> Visited(f, a, ends, b) == Visited(f, a', ends, b)
  }

  lemma AlikeVisits(f: Func, a: Analysis, a': Analysis)
    requires Alike(f, a, a')
    ensures VisitsAlike(f, a, a')
  {
    forall ends, b: nat | |ends| == |f.blocks| && b < |f.blocks|
      ensures Visited(f, a, ends, b) == Visited(f, a', ends, b)
    {
      EndsAlike(f, a, a', b, Join(f, ends, b));
    }
  }

  lemma {:induction false} PassesAlike(f: Func, a: Analysis, a': Analysis, prev: seq<Borrows>, n: nat)
    returns (ends: seq<Borrows>)
    requires a.Sized(f) && a'.Sized(f) && VisitsAlike(f, a, a') && |prev| == |f.blocks| && n <= |f.blocks|
    ensures ends == PassUpTo(f, a, prev, n) == PassUpTo(f, a', prev, n)
    decreases n
  {
    if n == 0 {
      ends := prev;
    } else {
      var before := PassesAlike(f, a, a', prev, n - 1);
      ends := Visited(f, a, before, n - 1);
    }
  }

  lemma StartsAlike(f: Func, a: Analysis, a': Analysis, prev: seq<Borrows>, b: nat)
    requires Alike(f, a, a') && |prev| == |f.blocks| && b < |f.blocks|
    ensures StartOf(f, a, prev, b) == StartOf(f, a', prev, b)
  {
    AlikeVisits(f, a, a');
    var ends := PassesAlike(f, a, a', prev, b);
  }

  lemma DryRunsAlike(f: Func, a: Analysis, a': Analysis)
    requires Alike(f, a, a')
    ensures DryRuns(f, a) == DryRuns(f, a')
  {
    AlikeVisits(f, a, a');
    var once := PassesAlike(f, a, a', NoBorrows(f), |f.blocks|);
    var twice := PassesAlike(f, a, a', once, |f.blocks|);
  }

  lemma BorrowsAlike(f: Func, a: Analysis, a': Analysis, b: nat, i: nat)
    requires Alike(f, a, a') && a.borrowStart == a'.borrowStart && b < |f.blocks| && i <= |f.blocks[b]|
    ensures BorrowsAt(f, a, b, i) == BorrowsAt(f, a', b, i)
  {
    BorrowsAtIsAlong(f, a, b, i);
    BorrowsAtIsAlong(f, a', b, i);
    AlongAlike(f, a, a', b, i, Begin(f, a, b, a.borrowStart[b]));
  }

  /** The settled analysis is the last pass over what its own dry runs end with. */
  ghost predicate IsSettled(f: Func, a: Analysis, order: seq<Name>) {
    && a.Sized(f)
    && (forall b :: 0 <= b < |f.blocks| ==> StartsAsPassed(f, a, b))
    && (forall b :: 0 <= b < |f.blocks| ==> a.aliases[b] == AliasesAt(f, a, b))
    && (forall b :: 0 <= b < |f.blocks| ==> a.deathOrder[b] == InOrder(order, DeadAtStart(f, a, b)))
  }

  ghost predicate StartsAsPassed(f: Func, a: Analysis, b: nat)
    requires a.Sized(f) && b < |f.blocks|
  {
    a.borrowStart[b] == StartOf(f, a, DryRuns(f, a), b)
  }

  lemma SettledIs(f: Func, liveStart: seq<set<Name>>, order: seq<Name>)
    requires LiveFor(f, liveStart)
    ensures IsSettled(f, Settled(f, liveStart, order), order) && Settled(f, liveStart, order).liveStart == liveStart
  {
    var bare := Bare(f, liveStart, order);
    var started := WithStarts(f, bare, DryRuns(f, bare));
    var a := Settled(f, liveStart, order);
    DryRunsAlike(f, bare, a);
    forall b | 0 <= b < |f.blocks|
      ensures StartsAsPassed(f, a, b) && a.aliases[b] == AliasesAt(f, a, b)
      ensures a.deathOrder[b] == InOrder(order, DeadAtStart(f, a, b))
    {
      StartsAlike(f, bare, a, DryRuns(f, bare), b);
      BorrowsAlike(f, started, a, b, |f.blocks[b]|);
      DeathsAlike(f, Blank(f, liveStart), a, b);
    }
  }

  // ----- What the dry runs come to -----

  ghost predicate ReachedBy(f: Func, b: nat, k: nat) {
    exists path: Route :: path.Along(f) && path.End() == b && path.Descents() <= k
  }

  /** Every block is at most k steps backwards from the entry. */
  ghost predicate Within(f: Func, k: nat) { forall b: nat :: b < |f.blocks| ==> ReachedBy(f, b, k) }

  lemma NothingCopied(f: Func, d: Name, s: Name)
    requires f.WellFormed() && |Seen(f)| == 1
    ensures !CopyOf(f, d, s)
  {
    if CopyOf(f, d, s) {
      var b: nat, i: nat :| CopySite(f, b, i, d, s);
      assert d in f.blocks[b][i].Defs() && d in SeenAt(f, f.blocks[b][i]);
      assert {NullConst, d} <= Seen(f) && |{NullConst, d}| == 2;
      Larger({NullConst, d}, Seen(f));
    }
  }

  lemma {:induction false} Larger(small: set<Name>, large: set<Name>)
    requires small <= large
    ensures |small| <= |large|
    decreases small
  {
    if x :| x in small {
      Larger(small - {x}, large - {x});
    }
  }

  lemma NoPairs(f: Func, keep: set<Name>)
    requires forall d, s :: !CopyOf(f, d, s)
    ensures CopyPairs(f, keep) == {}
  {
    forall e ensures !IsCopyPair(f, keep, e) { if IsCopyPair(f, keep, e) { var d, s := SomeCopy(f, keep, e); } }
  }

  lemma SomeCopy(f: Func, keep: set<Name>, e: (Name, Name)) returns (d: Name, s: Name)
    requires IsCopyPair(f, keep, e)
    ensures CopyOf(f, d, s)
  {
    var ns :| CopyChain(f, keep, ns) && ns[0] == e.0 && ns[|ns| - 1] == e.1;
    assert CopyAt(f, ns, 0);
    d, s := ns[1], ns[0];
  }

  /** Without copies nothing is ever borrowed, however often the blocks are visited. */
  lemma NothingToReach(f: Func, a: Analysis, ends: seq<Borrows>, k: nat)
    requires a.Sized(f) && Upper(f, a, ends) && forall d, s :: !CopyOf(f, d, s)
    ensures CompleteWithin(f, a, ends, k)
  {
    forall path: Route | path.Along(f) && path.Descents() < k && path.End() < |f.blocks| && GoesOn(f, path.End())
      ensures Complete(f, a, ends, path.End())
    {
      assert UpperAt(f, a, ends, path.End());
      NoPairs(f, EndKept(f, a, path.End()));
    }
  }

  lemma NoBorrowsIsUpper(f: Func, a: Analysis)
    requires a.Sized(f)
    ensures Upper(f, a, NoBorrows(f)) && CompleteWithin(f, a, NoBorrows(f), 0)
  {
    forall p | 0 <= p < |f.blocks| ensures UpperAt(f, a, NoBorrows(f), p) { }
  }

  lemma DryRunsReach(f: Func, a: Analysis, dom: seq<set<Name>>)
    requires Ready(f, a, dom)
    ensures Upper(f, a, DryRuns(f, a)) && CompleteWithin(f, a, DryRuns(f, a), 2)
  {
    NoBorrowsIsUpper(f, a);
    var once := Pass(f, a, NoBorrows(f));
    PassReaches(f, a, dom, NoBorrows(f), 0);
    if |Seen(f)| == 1 {
      forall d, s ensures !CopyOf(f, d, s) { NothingCopied(f, d, s); }
      NothingToReach(f, a, once, 2);
    } else {
      PassReaches(f, a, dom, once, 1);
    }
  }

  /** One pass more would work with the same borrows: what the generator's `changed_borrows` is there
      to find out. */
  ghost predicate Stable(f: Func, a: Analysis)
    requires a.Sized(f)
  {
    AllSame(f, a, DryRuns(f, a))
  }

  ghost predicate StartsExact(f: Func, a: Analysis)
    requires a.Sized(f)
  {
    forall b: nat :: b < |f.blocks| ==> ExactStart(f, a, b, a.borrowStart[b])
  }

  ghost predicate ExactAt(f: Func, a: Analysis, ends: seq<Borrows>, b: nat)
    requires a.Sized(f) && |ends| == |f.blocks| && b < |f.blocks|
  {
    ExactStart(f, a, b, StartOf(f, a, ends, b)) <==> ExactStart(f, a, b, a.borrowStart[b])
  }

  lemma StartsArePassed(f: Func, a: Analysis, ends: seq<Borrows>)
    requires a.Sized(f) && |ends| == |f.blocks|
    requires forall b: nat {:trigger ExactAt(f, a, ends, b)} :: b < |f.blocks| ==> ExactAt(f, a, ends, b)
    ensures StartsExact(f, a) <==> AllExact(f, a, ends)
  {
    forall b: nat | b < |f.blocks|
      ensures ExactStart(f, a, b, StartOf(f, a, ends, b)) <==> ExactStart(f, a, b, a.borrowStart[b])
    {
      assert ExactAt(f, a, ends, b);
    }
  }

  lemma PassedIsExact(f: Func, a: Analysis, order: seq<Name>, ends: seq<Borrows>, b: nat)
    requires IsSettled(f, a, order) && b < |f.blocks| && ends == DryRuns(f, a)
    ensures ExactAt(f, a, ends, b)
  {
    assert StartsAsPassed(f, a, b);
  }

  /** The last pass works with exactly the borrows that copies account for if and only if one pass
      more would work with the same. */
  lemma StartsExactIffStable(f: Func, a: Analysis, dom: seq<set<Name>>, order: seq<Name>)
    requires Ready(f, a, dom) && IsSettled(f, a, order)
    ensures StartsExact(f, a) <==> Stable(f, a)
  {
    DryRunsReach(f, a, dom);
    ExactIffSame(f, a, dom, DryRuns(f, a));
    var ends := DryRuns(f, a);
    forall b: nat | b < |f.blocks| ensures ExactAt(f, a, ends, b) { PassedIsExact(f, a, order, ends, b); }
    StartsArePassed(f, a, ends);
  }

  /** The fixed number of passes is enough where every block is within two steps backwards. */
  lemma WithinIsStable(f: Func, a: Analysis, dom: seq<set<Name>>)
    requires Ready(f, a, dom) && Within(f, 2)
    ensures Stable(f, a)
  {
    DryRunsReach(f, a, dom);
    forall b: nat | b < |f.blocks|
      ensures ExactStart(f, a, b, StartOf(f, a, DryRuns(f, a), b))
    {
      assert ReachedBy(f, b, 2);
      var path: Route :| path.Along(f) && path.End() == b && path.Descents() <= 2;
      StartIsExact(f, a, dom, DryRuns(f, a), 2, path);
    }
    ExactIffSame(f, a, dom, DryRuns(f, a));
  }

  /** In a stable last pass the borrows are exactly those that copies account for, everywhere. */
  lemma BorrowsAreExact(f: Func, a: Analysis, dom: seq<set<Name>>, b: nat, i: nat)
    requires Ready(f, a, dom) && StartsExact(f, a) && b < |f.blocks| && i <= |f.blocks[b]|
             && (i < |f.blocks[b]| || GoesOn(f, b))
    ensures BorrowsAt(f, a, b, i) == CopyPairs(f, Kept(f, a, b, i))
  {
    BorrowsAtIsAlong(f, a, b, i);
    AlongIsExact(f, a, dom, b, i);
  }

  lemma EndsAreExact(f: Func, a: Analysis, dom: seq<set<Name>>, b: nat)
    requires Ready(f, a, dom) && StartsExact(f, a) && b < |f.blocks| && GoesOn(f, b)
    ensures BorrowsAtEnd(f, a, b) == CopyPairs(f, EndKept(f, a, b))
  {
    BorrowsAtIsAlong(f, a, b, |f.blocks[b]|);
    EndIsExact(f, a, dom, b, a.borrowStart[b]);
  }

  // ----- What the ownership theorem asks for -----

  lemma EdgeArrives(f: Func, a: Analysis, dom: seq<set<Name>>, p: nat, b: nat)
    requires Ready(f, a, dom) && StartsExact(f, a) && p < |f.blocks| && b < |f.blocks| && b in f.Term(p).Succs()
    ensures OwnershipTheorem.ArrivesIn(f, a, p, b)
  {
    KeptAcross(f, a, dom, p, b);
    EndsAreExact(f, a, dom, p);
    BorrowsAreExact(f, a, dom, b, 0);
    DeathsOf(f, a, dom, p, b);
  }

  lemma AliasesAreCopies(f: Func, a: Analysis, dom: seq<set<Name>>, root: Name -> Name, b: nat, n: Name)
    requires Ready(f, a, dom) && StartsExact(f, a) && CopyRoots(f, root) && b < |f.blocks| && n in AliasesAt(f, a, b)
    ensures f.Term(b).NullBranch? && root(n) == root(f.Term(b).ptr)
  {
    var bs := BorrowsAt(f, a, b, |f.blocks[b]|);
    BorrowsAreExact(f, a, dom, b, |f.blocks[b]|);
    forall e | e in bs
      ensures root(e.0) == root(e.1)
    {
      PairKeepsRoot(f, root, Kept(f, a, b, |f.blocks[b]|), e);
    }
    AliasesShareRoot(bs, f.Term(b).ptr, n, root);
  }

  ghost predicate AllReached(f: Func) { forall b: nat :: b < |f.blocks| ==> Reachable(f, b) }

  /** The borrows and aliases of a stable last pass meet the premises of the ownership theorem. */
  lemma SettledIsAnalysable(p: OwnershipTheorem.Program, order: seq<Name>)
    requires Ready(p.f, p.a, p.dom) && IsSettled(p.f, p.a, order) && Stable(p.f, p.a) && CopyRoots(p.f, p.root)
    ensures p.Analysable()
  {
    StartsExactIffStable(p.f, p.a, p.dom, order);
    forall b, j | 0 <= b < |p.f.blocks| && 0 <= j < |p.f.Term(b).Succs()|
      ensures OwnershipTheorem.ArrivesIn(p.f, p.a, b, p.f.Flow().succ[b][j])
    {
      EdgeArrives(p.f, p.a, p.dom, b, p.f.Flow().succ[b][j]);
    }
    forall b, n | 0 <= b < |p.f.blocks| && p.f.Term(b).NullBranch? && n in p.a.aliases[b]
      ensures p.root(n) == p.root(p.f.Term(b).ptr)
    {
      AliasesAreCopies(p.f, p.a, p.dom, p.root, b, n);
    }
  }

  /** A function in strict SSA form whose blocks can all be reached, with the analysis that the last
      pass sees and an assignment that satisfies what it writes: what the generator accepts. */
  ghost predicate Checked(p: OwnershipTheorem.Program, liveStart: seq<set<Name>>, order: seq<Name>) {
    && p.f.WellFormed() && p.f.StrictSSA(p.dom) && CopyRoots(p.f, p.root) && AllReached(p.f)
    && LiveFor(p.f, liveStart) && LeastSolution(p.f.Flow(), liveStart) && p.a == Settled(p.f, liveStart, order)
    && (forall n :: n in UsedNames(p.f) ==> n in order)
    && Satisfies(p.asgn, AllClauses(p.f, p.a))
  }

  lemma CheckedIsAnalysed(p: OwnershipTheorem.Program, liveStart: seq<set<Name>>, order: seq<Name>)
    requires Checked(p, liveStart, order)
    ensures Analysed(p.f, p.a, p.dom) && IsSettled(p.f, p.a, order)
    ensures UsedAreLive(p.f, p.a) && DeadDefinitions.NoDeadCopies(p.f, p.a)
  {
    SettledIs(p.f, liveStart, order);
    assert forall b: nat :: b < |p.f.blocks| ==> Reachable(p.f, b);
    DeadDefinitions.ReachedUsesAreLive(p.f, p.a, p.dom);
  }

  lemma CheckedIsReady(p: OwnershipTheorem.Program, liveStart: seq<set<Name>>, order: seq<Name>)
    requires Checked(p, liveStart, order)
    ensures Ready(p.f, p.a, p.dom) && IsSettled(p.f, p.a, order)
  {
    CheckedIsAnalysed(p, liveStart, order);
    forall b | 0 <= b < |p.f.blocks|
      ensures DeadAtStart(p.f, p.a, b) <= UsedNames(p.f)
    {
      DeadAreUsed(p.f, p.a, p.dom, b);
    }
    assert forall b: nat :: b < |p.f.blocks| ==> Reachable(p.f, b);
  }

  lemma DeadAreUsed(f: Func, a: Analysis, dom: seq<set<Name>>, b: nat)
    requires Analysed(f, a, dom) && b < |f.blocks|
    ensures DeadAtStart(f, a, b) <= UsedNames(f)
  {
    LiveIsUsed(f, a, dom);
    forall p | 0 <= p < |f.blocks| ensures LiveOut(f, a, p) <= UsedNames(f) { ScanIsUsed(f, a, dom, p, |f.blocks[p]|); }
  }

  /** The premises of the ownership theorems are met if the last pass is stable and the null branches
      have two targets. */
  lemma CheckedIsCompliant(p: OwnershipTheorem.Program, liveStart: seq<set<Name>>, order: seq<Name>)
    requires Checked(p, liveStart, order) && Stable(p.f, p.a) && p.DistinctTargets()
    ensures p.Compliant()
  {
    CheckedIsReady(p, liveStart, order);
    SettledIsAnalysable(p, order);
  }

  /** Main theorem with the borrows and aliases that the generator computes: no run of an accepted
      function makes a memory error. */
  lemma CheckedRunsAreSafe(p: OwnershipTheorem.Program, liveStart: seq<set<Name>>, order: seq<Name>,
                           run: seq<State>, g: OwnershipSoundness.Ghosts, k: nat)
    requires Checked(p, liveStart, order) && Stable(p.f, p.a) && p.DistinctTargets()
    requires Run(p.f, run) && OwnershipTheorem.EntryState(p, run[0], g) && k < |run|
    ensures !MemoryError(p.f, run[k])
  {
    CheckedIsCompliant(p, liveStart, order);
    OwnershipTheorem.NoRunGoesWrong(p, run, g, k);
  }

  /** In its k-th step the run executes a malloc whose result is never used, and gets a block. */
  ghost predicate UnusedMallocGets(f: Func, run: seq<State>, k: nat)
    requires k + 1 < |run|
  {
    exists d :: DeadDefinitions.MallocGets(f, run, k, d) && !f.HasUses(d)
  }

  ghost predicate LiveIffUsedAt(f: Func, a: Analysis, b: nat, i: nat, d: Name)
    requires a.Sized(f) && f.At(b, i)
  {
    d in Scan(f, a, b, i + 1) <==> f.HasUses(d)
  }

  lemma LiveIffUsed(f: Func, a: Analysis, dom: seq<set<Name>>, b: nat, i: nat, d: Name)
    requires Analysed(f, a, dom) && UsedAreLive(f, a) && f.At(b, i) && d in f.blocks[b][i].Defs()
    ensures LiveIffUsedAt(f, a, b, i, d)
  {
    assert UsedOnceDefined(f, a, b, i);
    if d in Scan(f, a, b, i + 1) {
      ScanIsUsed(f, a, dom, b, i + 1);
      UsedIsLocal(f, d);
    }
  }

  ghost predicate LiveAsUsed(f: Func, a: Analysis, run: seq<State>, k: nat, d: Name)
    requires a.Sized(f) && k + 1 < |run|
  {
    DeadDefinitions.MallocGets(f, run, k, d) ==> LiveIffUsedAt(f, a, run[k].pc.b, run[k].pc.i, d)
  }

  lemma AllLiveAsUsed(f: Func, a: Analysis, run: seq<State>, k: nat)
    requires a.Sized(f) && k + 1 < |run|
             && forall d {:trigger LiveAsUsed(f, a, run, k, d)} :: LiveAsUsed(f, a, run, k, d)
    ensures UnusedMallocGets(f, run, k) <==> DeadDefinitions.DeadMallocGets(f, a, run, k)
  {
    if d :| DeadDefinitions.MallocGets(f, run, k, d) && !f.HasUses(d) { assert LiveAsUsed(f, a, run, k, d); }
    if d :| DeadDefinitions.MallocGets(f, run, k, d) && d !in Scan(f, a, run[k].pc.b, run[k].pc.i + 1) {
      assert LiveAsUsed(f, a, run, k, d);
    }
  }

  /** In an accepted function the dead mallocs are the unused ones. */
  lemma DeadIsUnused(f: Func, a: Analysis, dom: seq<set<Name>>, run: seq<State>, k: nat)
    requires Analysed(f, a, dom) && UsedAreLive(f, a) && k + 1 < |run|
    ensures UnusedMallocGets(f, run, k) <==> DeadDefinitions.DeadMallocGets(f, a, run, k)
  {
    forall d ensures LiveAsUsed(f, a, run, k, d) { MallocLiveAsUsed(f, a, dom, run, k, d); }
    AllLiveAsUsed(f, a, run, k);
  }

  lemma MallocLiveAsUsed(f: Func, a: Analysis, dom: seq<set<Name>>, run: seq<State>, k: nat, d: Name)
    requires Analysed(f, a, dom) && UsedAreLive(f, a) && k + 1 < |run|
    ensures LiveAsUsed(f, a, run, k, d)
  {
    if DeadDefinitions.MallocGets(f, run, k, d) {
      var b, i := run[k].pc.b, run[k].pc.i;
      assert d in f.blocks[b][i].Defs();
      LiveIffUsed(f, a, dom, b, i, d);
    }
  }

  /** Which blocks an accepted function loses: a finished run leaks if and only if it executed a malloc
      whose result is never used and that returned a block. */
  lemma CheckedRunsLeakIff(p: OwnershipTheorem.Program, liveStart: seq<set<Name>>, order: seq<Name>,
                           run: seq<State>, g: OwnershipSoundness.Ghosts, k: nat)
    requires Checked(p, liveStart, order) && Stable(p.f, p.a) && p.DistinctTargets()
    requires Run(p.f, run) && OwnershipTheorem.EntryState(p, run[0], g) && OwnershipLimits.Allocated(run[0])
    requires k < |run| && run[k].pc.Done?
    ensures Leak(run[k]) <==> exists j: nat :: j < k && UnusedMallocGets(p.f, run, j)
  {
    CheckedIsCompliant(p, liveStart, order);
    CheckedIsAnalysed(p, liveStart, order);
    DeadDefinitions.LeaksIffDeadMalloc(p, run, g, k);
    forall j: nat | j < k
      ensures UnusedMallocGets(p.f, run, j) <==> DeadDefinitions.DeadMallocGets(p.f, p.a, run, j)
    {
      DeadIsUnused(p.f, p.a, p.dom, run, j);
    }
  }

  /** Nothing is lost where every malloc result has uses. */
  lemma CheckedRunsLoseNothing(p: OwnershipTheorem.Program, liveStart: seq<set<Name>>, order: seq<Name>,
                               run: seq<State>, g: OwnershipSoundness.Ghosts, k: nat)
    requires Checked(p, liveStart, order) && Stable(p.f, p.a) && p.DistinctTargets()
    requires forall b, i :: p.f.At(b, i) && p.f.blocks[b][i].Malloc? ==> p.f.HasUses(p.f.blocks[b][i].dest)
    requires Run(p.f, run) && OwnershipTheorem.EntryState(p, run[0], g) && k < |run|
    ensures !Leak(run[k])
  {
    CheckedIsCompliant(p, liveStart, order);
    CheckedIsAnalysed(p, liveStart, order);
    forall b: nat, i: nat | p.f.At(b, i) ensures LiveOnceDefined(p.f, p.a, b, i) {
      assert UsedOnceDefined(p.f, p.a, b, i);
    }
    OwnershipTheorem.NothingLost(p, run, g, k);
  }

  /** In particular where every block is within two steps backwards of the entry. */
  lemma LaidOutRunsAreSafe(p: OwnershipTheorem.Program, liveStart: seq<set<Name>>, order: seq<Name>,
                           run: seq<State>, g: OwnershipSoundness.Ghosts, k: nat)
    requires Checked(p, liveStart, order) && Within(p.f, 2) && p.DistinctTargets()
    requires Run(p.f, run) && OwnershipTheorem.EntryState(p, run[0], g) && OwnershipLimits.Allocated(run[0])
    requires k < |run|
    ensures !MemoryError(p.f, run[k])
    ensures run[k].pc.Done? ==> (Leak(run[k]) <==> exists j: nat :: j < k && UnusedMallocGets(p.f, run, j))
  {
    CheckedIsReady(p, liveStart, order);
    WithinIsStable(p.f, p.a, p.dom);
    CheckedRunsAreSafe(p, liveStart, order, run, g, k);
    if run[k].pc.Done? { CheckedRunsLeakIff(p, liveStart, order, run, g, k); }
  }
}
