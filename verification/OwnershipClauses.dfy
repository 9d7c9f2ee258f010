/** The propositional clauses that the constraint generator emits for a function of the
    PointerIR fragment, as sets: per instruction, per last use, per control-flow edge. */
module OwnershipClauses {
  import opened DataFlow
  import opened PointerIR

  // ----- Atoms, literals, clauses -----

  /** Program points: immediately before and after an instruction; the point after a return
      instruction is the same point `end` for every return. */
  datatype Point = Pre(b: nat, i: nat) | Post(b: nat, i: nat) | End

  datatype Atom =
    | Responsible(n: Name)
    | Mut(n: Name)
    | Good(n: Name, t: Point)
    | Null(n: Name, t: Point)
    | Zombie(n: Name, t: Point)

  datatype Lit = Pos(atom: Atom) | Neg(atom: Atom)

  type Clause = set<Lit>

  /** An assignment is given by the atoms it makes true. */
  type Assignment = set<Atom>

  ghost predicate Holds(asgn: Assignment, l: Lit) {
    match l
    case Pos(a) => a in asgn
    case Neg(a) => a !in asgn
  }

  ghost predicate SatisfiesClause(asgn: Assignment, c: Clause) { exists l :: l in c && Holds(asgn, l) }

  ghost predicate Satisfies(asgn: Assignment, cs: set<Clause>) { forall c :: c in cs ==> SatisfiesClause(asgn, c) }

  function Implies(a: Atom, b: Atom): Clause { {Neg(a), Pos(b)} }

  // ----- What the analyses hand to the generator -----

  type Borrows = set<(Name, Name)>  // pairs (from, to)

  /** Per block: the values live at its start, the borrows joined from its predecessors, the
      order in which values dying on entry are visited, and the aliases of the tested pointer. */
  datatype Analysis = Analysis(
    liveStart: seq<set<Name>>,
    borrowStart: seq<Borrows>,
    deathOrder: seq<seq<Name>>,
    aliases: seq<set<Name>>)
  {
    predicate Sized(f: Func) {
      && |liveStart| == |borrowStart| == |deathOrder| == |aliases| == |f.blocks|
      && (forall b :: 0 <= b < |f.blocks| ==> |f.blocks[b]| > 0)
      && f.Flow().Valid()
    }
  }

  function LiveOut(f: Func, a: Analysis, b: nat): set<Name>
    requires a.Sized(f) && b < |f.blocks|
  {
    Out(f.Flow(), a.liveStart, b)
  }

  /** The backward scan over block b: the values it holds to be live before instruction i. */
  function Scan(f: Func, a: Analysis, b: nat, i: nat): set<Name>
    requires a.Sized(f) && b < |f.blocks| && i <= |f.blocks[b]|
    decreases |f.blocks[b]| - i
  {
    if i == |f.blocks[b]| then LiveOut(f, a, b)
    else (Scan(f, a, b, i + 1) - f.blocks[b][i].Defs()) + f.blocks[b][i].Uses()
  }

  /** Values whose last use is instruction i of block b. */
  function LastUse(f: Func, a: Analysis, b: nat, i: nat): set<Name>
    requires a.Sized(f) && b < |f.blocks| && i < |f.blocks[b]|
  {
    f.blocks[b][i].Uses() - (Scan(f, a, b, i + 1) - f.blocks[b][i].Defs()) - f.args
  }

  /** The generator's current set of live values before instruction i of block b. */
  function CurLive(f: Func, a: Analysis, b: nat, i: nat): set<Name>
    requires a.Sized(f) && b < |f.blocks| && i <= |f.blocks[b]|
  {
    if i == 0 then a.liveStart[b] else
      (CurLive(f, a, b, i - 1) - LastUse(f, a, b, i - 1))
      + (set d | d in f.blocks[b][i - 1].Defs() && f.HasUses(d))
  }

  /** Values live at a predecessor's start or end that are no longer live at the start of b. */
  function DeadAtStart(f: Func, a: Analysis, b: nat): set<Name>
    requires a.Sized(f) && b < |f.blocks|
  {
    set p, v | 0 <= p < |f.blocks| && b in f.Term(p).Succs() && v in a.liveStart[p] + LiveOut(f, a, p)
               && v !in a.liveStart[b] && v !in f.args :: v
  }

  // ----- Borrows between values (paths of length one) -----

  function AddBorrow(bs: Borrows, src: Name, dest: Name): Borrows {
    if src == dest || src == NullConst then bs else bs + {(src, dest)}
  }

  /** Splicing out a dead value: each pair of borrows through it becomes one borrow. */
  function KillBorrows(bs: Borrows, dead: Name): Borrows {
    (set e | e in bs && e.0 != dead && e.1 != dead)
    + (set e, e' | e in bs && e' in bs && e.1 == dead && e'.0 == dead && e.0 != e'.1 :: (e.0, e'.1))
  }

  function KillInOrder(bs: Borrows, dead: seq<Name>): Borrows
    decreases |dead|
  {
    if dead == [] then bs else KillInOrder(KillBorrows(bs, dead[0]), dead[1..])
  }

  /** A value last used by a comparison feeding a branch dies only after the branch. */
  predicate Postponed(f: Func, b: nat, i: nat)
    requires b < |f.blocks| && i < |f.blocks[b]|
  {
    && f.blocks[b][i].ICmp? && i + 1 < |f.blocks[b]|
    && (f.blocks[b][i + 1].Jump? || f.blocks[b][i + 1].Branch? || f.blocks[b][i + 1].NullBranch?)
  }

  /** The operand of an instruction dies if it is among the values used for the last time. */
  function KillOperand(inst: Instr, last: set<Name>, bs: Borrows): Borrows {
    match inst
    case Free(p, _) => if p in last then KillBorrows(bs, p) else bs
    case VarStore(_, s) => if s in last then KillBorrows(bs, s) else bs
    case Load(p) => if p in last then KillBorrows(bs, p) else bs
    case Store(p) => if p in last then KillBorrows(bs, p) else bs
    case ICmp(p) => if p in last then KillBorrows(bs, p) else bs
    case Return(v) => if v in last then KillBorrows(bs, v) else bs
    case _ => bs
  }

  function KillLastUse(f: Func, a: Analysis, b: nat, i: nat, bs: Borrows): Borrows
    requires a.Sized(f) && b < |f.blocks| && i < |f.blocks[b]|
  {
    KillOperand(f.blocks[b][i], LastUse(f, a, b, i), bs)
  }

  function BorrowStep(f: Func, inst: Instr, bs: Borrows): Borrows {
    match inst
    case VarStore(d, s) => if f.HasUses(d) then AddBorrow(bs, s, d) else bs
    case Return(v) => AddBorrow(bs, v, Ret)
    case _ => bs
  }

  /** The borrow relation before instruction i of block b. */
  function BorrowsAt(f: Func, a: Analysis, b: nat, i: nat): Borrows
    requires a.Sized(f) && b < |f.blocks| && i <= |f.blocks[b]|
  {
    if i == 0 then KillInOrder(a.borrowStart[b], a.deathOrder[b]) else
      var bs := BorrowStep(f, f.blocks[b][i - 1], BorrowsAt(f, a, b, i - 1));
      if Postponed(f, b, i - 1) then bs else KillLastUse(f, a, b, i - 1, bs)
  }

  function BorrowsAtEnd(f: Func, a: Analysis, b: nat): Borrows
    requires a.Sized(f) && b < |f.blocks|
  {
    var n := |f.blocks[b]|;
    var bs := BorrowsAt(f, a, b, n);
    if n >= 2 && Postponed(f, b, n - 2) then KillLastUse(f, a, b, n - 2, bs) else bs
  }

  // ----- Clauses -----

  function PostOf(inst: Instr, b: nat, i: nat): Point {
    if inst.Return? || inst.ReturnVoid? then End else Post(b, i)
  }

  /** State atoms of the given names are carried from one point to another. */
  function Preserve(names: set<Name>, t: Point, t': Point): set<Clause> {
    (set n | n in names :: Implies(Good(n, t), Good(n, t')))
    + (set n | n in names :: Implies(Null(n, t), Null(n, t')))
    + (set n | n in names :: Implies(Zombie(n, t), Zombie(n, t')))
  }

  function CopyState(src: Name, t: Point, dest: Name, t': Point): set<Clause> {
    {Implies(Good(src, t), Good(dest, t')), Implies(Null(src, t), Null(dest, t')),
     Implies(Zombie(src, t), Zombie(dest, t'))}
  }

  predicate Borrowed(bs: Borrows, p: Name) { exists e :: e in bs && e.0 == p }

  /** A second borrow of the same value must not be mutable. */
  function BorrowClauses(bs: Borrows, src: Name, dest: Name): set<Clause> {
    if src != dest && src != NullConst && Borrowed(bs, src) then {{Neg(Mut(dest))}} else {}
  }

  function DerefClauses(p: Name, t: Point): set<Clause> {
    {{Neg(Null(p, t))}, {Neg(Zombie(p, t))}, {Pos(Good(p, t))}}
  }

  function MallocClauses(d: Name, post: Point): set<Clause> {
    {{Pos(Responsible(d))}, {Pos(Good(d, post))}, {Pos(Null(d, post))}, {Neg(Zombie(d, post))}}
  }

  function FreeClauses(bs: Borrows, p: Name, fclose: bool, pre: Point, post: Point): set<Clause> {
    {{Pos(Responsible(p))}, {Neg(Zombie(p, pre))},
     Implies(Good(p, pre), Zombie(p, post)), Implies(Null(p, pre), Null(p, post))}
    + (if fclose then {{Neg(Null(p, pre))}} else {})
    + (if Borrowed(bs, p) then {{}} else {})
  }

  function PtrCopyClauses(bs: Borrows, d: Name, s: Name, pre: Point, post: Point): set<Clause> {
    {Implies(Responsible(d), Responsible(s)), Implies(Mut(d), Mut(s)),
     {Pos(Responsible(d)), Neg(Zombie(s, pre))},
     {Neg(Responsible(d)), Neg(Good(s, pre)), Pos(Zombie(s, post))},
     {Pos(Responsible(d)), Neg(Good(s, pre)), Pos(Good(s, post))},
     Implies(Null(s, pre), Null(s, post)), Implies(Zombie(s, pre), Zombie(s, post))}
    + CopyState(s, pre, d, post)
    + BorrowClauses(bs, s, d)
  }

  function ReturnClauses(bs: Borrows, v: Name, pre: Point): set<Clause> {
    {Implies(Responsible(v), Responsible(Ret)), Implies(Responsible(Ret), Responsible(v)), Implies(Mut(Ret), Mut(v))}
    + CopyState(v, pre, Ret, End)
    + BorrowClauses(bs, v, Ret)
  }

  /** Clauses of one instruction: its own, and preservation for every other live name. */
  function InstrClauses(f: Func, live: set<Name>, bs: Borrows, inst: Instr, pre: Point, post: Point): set<Clause> {
    var names := live + {NullConst};
    match inst
    case Malloc(d) => MallocClauses(d, post) + Preserve(names - {d}, pre, post)
    case Free(p, fclose) => FreeClauses(bs, p, fclose, pre, post) + Preserve(names - {p}, pre, post)
    case VarStore(d, s) =>
      if f.HasUses(d) then PtrCopyClauses(bs, d, s, pre, post) + Preserve(names - {d, s}, pre, post)
      else Preserve(names, pre, post)
    case Load(p) =>
      DerefClauses(p, pre) + (set e | e in bs && e.0 == p :: {Neg(Mut(e.1))}) + Preserve(names, pre, post)
    case Store(p) =>
      {{Pos(Mut(p))}} + DerefClauses(p, pre) + (if Borrowed(bs, p) then {{}} else {}) + Preserve(names, pre, post)
    case Return(v) => ReturnClauses(bs, v, pre) + Preserve(names - {v}, pre, post)
    case _ => Preserve(names, pre, post)
  }

  /** A responsible value must not be good where it dies. */
  function Killed(names: set<Name>, t: Point): set<Clause> {
    set n | n in names :: {Neg(Responsible(n)), Neg(Good(n, t))}
  }

  /** Clauses written when instruction i of block b is visited: its own, those for what dies after
      it and, at a return, those for arguments. */
  function VisitClauses(f: Func, a: Analysis, b: nat, i: nat): set<Clause>
    requires a.Sized(f) && b < |f.blocks| && i < |f.blocks[b]|
  {
    var inst := f.blocks[b][i];
    var post := PostOf(inst, b, i);
    InstrClauses(f, CurLive(f, a, b, i), BorrowsAt(f, a, b, i), inst, Pre(b, i), post)
    + Killed(LastUse(f, a, b, i), post)
    + (if inst.Return? || inst.ReturnVoid? then Killed(f.args, End) else {})
  }

  /** Flow from the previous instruction of block b to instruction i. */
  function FlowTo(f: Func, a: Analysis, b: nat, i: nat): set<Clause>
    requires a.Sized(f) && b < |f.blocks| && i < |f.blocks[b]|
  {
    if i == 0 then {} else
      var prev := f.blocks[b][i - 1];
      Preserve(CurLive(f, a, b, i) + {NullConst} + SeenAt(f, prev), PostOf(prev, b, i - 1), Pre(b, i))
  }

  /** Flow along the edge from the end of block b to its j-th successor.  On the edge where the
      tested pointer is NULL, good and zombie do not flow for it and its aliases; on the other
      edge null does not.  Which edge it is, is decided by comparing the target with the first
      successor of the branch. */
  function EdgeClauses(f: Func, a: Analysis, b: nat, j: nat): set<Clause>
    requires a.Sized(f) && b < |f.blocks| && j < |f.Term(b).Succs()|
  {
    var term := f.Term(b);
    var succ := term.Succs()[j];
    var names := CurLive(f, a, b, |f.blocks[b]|) + {NullConst};
    var t, t' := Post(b, |f.blocks[b]| - 1), Pre(succ, 0);
    var tested := if term.NullBranch? then a.aliases[b] else {};
    var isNull := term.NullBranch? && term.eq == (succ == term.onTrue);
    Preserve(names - tested, t, t')
    + (if isNull then set n | n in names * tested :: Implies(Null(n, t), Null(n, t'))
       else (set n | n in names * tested :: Implies(Good(n, t), Good(n, t')))
            + (set n | n in names * tested :: Implies(Zombie(n, t), Zombie(n, t'))))
  }

  function EntryClauses(): set<Clause> {
    {{Pos(Null(NullConst, Pre(0, 0)))}, {Neg(Good(NullConst, Pre(0, 0)))}, {Neg(Zombie(NullConst, Pre(0, 0)))}}
  }

  /** The names an instruction makes the generator remember. */
  function SeenAt(f: Func, inst: Instr): set<Name> {
    match inst
    case Malloc(d) => {d}
    case VarStore(d, _) => if f.HasUses(d) then {d} else {}
    case Return(_) => {Ret}
    case _ => {}
  }

  function Seen(f: Func): set<Name> {
    f.args + {NullConst}
    + (set b, i, n | 0 <= b < |f.blocks| && 0 <= i < |f.blocks[b]| && n in SeenAt(f, f.blocks[b][i]) :: n)
  }

  function MutClauses(names: set<Name>): set<Clause> {
    set n | n in names && n != NullConst :: Implies(Responsible(n), Mut(n))
  }

  /** What is written for block b: instruction after instruction. */
  function InstrParts(f: Func, a: Analysis, b: nat): seq<set<Clause>>
    requires a.Sized(f) && b < |f.blocks|
  {
    seq(|f.blocks[b]|, i requires 0 <= i < |f.blocks[b]| => FlowTo(f, a, b, i) + VisitClauses(f, a, b, i))
  }

  /** The deaths on entry, the instructions, and the edges out of the block. */
  function BlockClauses(f: Func, a: Analysis, b: nat): set<Clause>
    requires a.Sized(f) && b < |f.blocks|
  {
    Killed(DeadAtStart(f, a, b), Pre(b, 0)) + Union(InstrParts(f, a, b), |f.blocks[b]|)
      + EdgesUpTo(f, a, b, |f.Term(b).Succs()|)
  }

  function EdgesUpTo(f: Func, a: Analysis, b: nat, j: nat): set<Clause>
    requires a.Sized(f) && b < |f.blocks| && j <= |f.Term(b).Succs()|
  {
    if j == 0 then {} else EdgesUpTo(f, a, b, j - 1) + EdgeClauses(f, a, b, j - 1)
  }

  function Union<T(==)>(parts: seq<set<T>>, n: nat): set<T>
    requires n <= |parts|
  {
    if n == 0 then {} else Union(parts, n - 1) + parts[n - 1]
  }

  function BlockParts(f: Func, a: Analysis): seq<set<Clause>>
    requires a.Sized(f)
  {
    seq(|f.blocks|, b requires 0 <= b < |f.blocks| => BlockClauses(f, a, b))
  }

  function BlocksUpTo(f: Func, a: Analysis, b: nat): set<Clause>
    requires a.Sized(f) && b <= |f.blocks|
  {
    Union(BlockParts(f, a), b)
  }

  function AllClauses(f: Func, a: Analysis): set<Clause>
    requires a.Sized(f)
  {
    EntryClauses() + BlocksUpTo(f, a, |f.blocks|) + MutClauses(Seen(f))
  }

  // ----- Every part is in the whole -----

  lemma {:induction false} InUnion(parts: seq<set<Clause>>, i: nat, n: nat)
    requires i < n <= |parts|
    ensures parts[i] <= Union(parts, n)
  {
    if i + 1 < n { InUnion(parts, i, n - 1); }
  }

  lemma Joins(x: set<Clause>, y: set<Clause>)
    ensures x <= x + y && y <= x + y
  {
  }

  lemma BlockIsWritten(f: Func, a: Analysis, b: nat)
    requires a.Sized(f) && b < |f.blocks|
    ensures BlockClauses(f, a, b) <= AllClauses(f, a)
  {
    InUnion(BlockParts(f, a), b, |f.blocks|);
    Joins(EntryClauses(), BlocksUpTo(f, a, |f.blocks|));
    Joins(EntryClauses() + BlocksUpTo(f, a, |f.blocks|), MutClauses(Seen(f)));
  }

  lemma InstrIsWritten(f: Func, a: Analysis, b: nat, i: nat)
    requires a.Sized(f) && b < |f.blocks| && i < |f.blocks[b]|
    ensures VisitClauses(f, a, b, i) <= AllClauses(f, a)
    ensures FlowTo(f, a, b, i) <= AllClauses(f, a)
    ensures Killed(DeadAtStart(f, a, b), Pre(b, 0)) <= AllClauses(f, a)
  {
    var parts, dead := InstrParts(f, a, b), Killed(DeadAtStart(f, a, b), Pre(b, 0));
    InUnion(parts, i, |parts|);
    Joins(FlowTo(f, a, b, i), VisitClauses(f, a, b, i));
    Joins(dead, Union(parts, |parts|));
    Joins(dead + Union(parts, |parts|), EdgesUpTo(f, a, b, |f.Term(b).Succs()|));
    BlockIsWritten(f, a, b);
    PartsOfWhole(dead, parts[i], Union(parts, |parts|), BlockClauses(f, a, b), AllClauses(f, a));
    assert parts[i] == FlowTo(f, a, b, i) + VisitClauses(f, a, b, i);
  }

  lemma PartsOfWhole(x: set<Clause>, y: set<Clause>, written: set<Clause>, block: set<Clause>, all: set<Clause>)
    requires x + written <= block && y <= written && block <= all
    ensures x <= all && y <= all
  {
  }

  lemma EdgesGrow(f: Func, a: Analysis, b: nat, i: nat, j: nat)
    requires a.Sized(f) && b < |f.blocks| && i <= j <= |f.Term(b).Succs()|
    ensures EdgesUpTo(f, a, b, i) <= EdgesUpTo(f, a, b, j)
  {
    if i < j { EdgesGrow(f, a, b, i, j - 1); }
  }

  lemma EdgeIsWritten(f: Func, a: Analysis, b: nat, j: nat)
    requires a.Sized(f) && b < |f.blocks| && j < |f.Term(b).Succs()|
    ensures EdgeClauses(f, a, b, j) <= AllClauses(f, a)
  {
    EdgesGrow(f, a, b, j + 1, |f.Term(b).Succs()|);
    BlockIsWritten(f, a, b);
  }
}
