/** The fragment of LLVM IR that the ownership constraints are about: pointers of depth 0
    (local SSA values), heap blocks, and control flow. */
module PointerIR {
  import opened DataFlow

  /** A C-path without dereferences: the literal NULL, an SSA value, or `func::return`. */
  datatype Name = NullConst | Local(id: nat) | Ret

  /** Instructions with pointer operands; the last instruction of a block is its terminator.
      `VarStore` is a call to __pom_var_store.  `Load` and `Store` move non-pointer data
      through a pointer.  `ICmp` reads a pointer without dereferencing it; `NullBranch` is the
      conditional branch on the outcome of such a comparison with NULL (`eq` for icmp eq). */
  datatype Instr =
    | Malloc(dest: Name)
    | Free(ptr: Name, fclose: bool)
    | VarStore(dest: Name, src: Name)
    | Load(ptr: Name)
    | Store(ptr: Name)
    | ICmp(ptr: Name)
    | Jump(target: nat)
    | Branch(onTrue: nat, onFalse: nat)
    | NullBranch(ptr: Name, eq: bool, onTrue: nat, onFalse: nat)
    | Return(val: Name)
    | ReturnVoid
  {
    predicate Terminator() { Jump? || Branch? || NullBranch? || Return? || ReturnVoid? }

    /** The pointer values read as operands.  A branch reads only the i1 result of the compare. */
    function Operands(): set<Name> {
      match this
      case Free(p, _) => {p}
      case VarStore(_, s) => {s}
      case Load(p) => {p}
      case Store(p) => {p}
      case ICmp(p) => {p}
      case Return(v) => {v}
      case _ => {}
    }

    /** The SSA values among the operands. */
    function Uses(): set<Name> { Operands() - {NullConst} }

    function Defs(): set<Name> {
      match this
      case Malloc(d) => {d}
      case VarStore(d, _) => {d}
      case _ => {}
    }

    function Succs(): seq<nat> {
      match this
      case Jump(t) => [t]
      case Branch(t, f) => [t, f]
      case NullBranch(_, _, t, f) => [t, f]
      case _ => []
    }
  }

  datatype Func = Func(args: set<Name>, blocks: seq<seq<Instr>>) {

    predicate At(b: int, i: int) { 0 <= b < |blocks| && 0 <= i < |blocks[b]| }

    /** Blocks are non-empty, end in their only terminator and name existing blocks. */
    ghost predicate WellFormed() {
      && |blocks| > 0
      && (forall a :: a in args ==> a.Local?)
      && (forall b :: 0 <= b < |blocks| ==> |blocks[b]| > 0)
      && (forall b, i :: At(b, i) ==>
            && (blocks[b][i].Terminator() <==> i == |blocks[b]| - 1)
            && Ret !in blocks[b][i].Operands()
            && (forall j :: 0 <= j < |blocks[b][i].Succs()| ==> blocks[b][i].Succs()[j] < |blocks|)
            && (forall d :: d in blocks[b][i].Defs() ==> d.Local? && d !in args)
            && (blocks[b][i].NullBranch? ==> blocks[b][i].ptr != Ret))
    }

    function Term(b: nat): Instr
      requires b < |blocks| && |blocks[b]| > 0
    {
      blocks[b][|blocks[b]| - 1]
    }

    /** SSA: no value has two defining instructions. */
    ghost predicate SingleAssignment() {
      forall b, i, c, j :: At(b, i) && At(c, j) && (b != c || i != j) ==>
        blocks[b][i].Defs() !! blocks[c][j].Defs()
    }

    /** Whether a value occurs as an operand at all. */
    predicate HasUses(n: Name) {
      exists b, i | 0 <= b < |blocks| && 0 <= i < |blocks[b]| :: n in blocks[b][i].Operands()
    }

    /** Values defined by the first i instructions of block b. */
    function DefsBefore(b: nat, i: nat): set<Name>
      requires b < |blocks| && i <= |blocks[b]|
    {
      if i == 0 then {} else DefsBefore(b, i - 1) + blocks[b][i - 1].Defs()
    }

    /** Values used by the first i instructions of block b before being defined there; a return
        also counts every argument as used, which keeps arguments alive to the end. */
    function GenBefore(b: nat, i: nat): set<Name>
      requires b < |blocks| && i <= |blocks[b]|
    {
      if i == 0 then {} else
        var inst := blocks[b][i - 1];
        GenBefore(b, i - 1) + (inst.Uses() - DefsBefore(b, i - 1))
        + (if inst.Return? || inst.ReturnVoid? then args else {})
    }

    function Flow(): Flow<Name>
      requires forall b :: 0 <= b < |blocks| ==> |blocks[b]| > 0
    {
      DataFlow.Flow(
        seq(|blocks|, b requires 0 <= b < |blocks| => Term(b).Succs()),
        seq(|blocks|, b requires 0 <= b < |blocks| => GenBefore(b, |blocks[b]|)),
        seq(|blocks|, b requires 0 <= b < |blocks| => DefsBefore(b, |blocks[b]|)))
    }

    /** `dom` under-approximates the values whose definitions dominate each block start; every
        use is dominated by its definition. */
    ghost predicate StrictSSA(dom: seq<set<Name>>)
      requires WellFormed()
    {
      && SingleAssignment()
      && |dom| == |blocks|
      && dom[0] == args
      && (forall b :: 0 <= b < |blocks| ==> args <= dom[b])
      && (forall b, j :: 0 <= b < |blocks| && 0 <= j < |Term(b).Succs()| ==>
            dom[Term(b).Succs()[j]] <= dom[b] + DefsBefore(b, |blocks[b]|))
      && (forall b, i :: At(b, i) ==>
            blocks[b][i].Uses() + (if blocks[b][i].NullBranch? then {blocks[b][i].ptr} - {NullConst} else {})
              <= dom[b] + DefsBefore(b, i))
    }
  }

  /** The definitions that dominate instruction i of block b. */
  ghost function Dominating(f: Func, dom: seq<set<Name>>, b: nat, i: nat): set<Name>
    requires |dom| == |f.blocks| && b < |f.blocks| && i <= |f.blocks[b]|
  {
    dom[b] + f.DefsBefore(b, i)
  }

  /** Follows copies back to the value they start from. */
  ghost predicate CopyRoots(f: Func, root: Name -> Name) {
    && root(NullConst) == NullConst
    && (forall a :: a in f.args ==> root(a) == a)
    && (forall b, i :: f.At(b, i) && f.blocks[b][i].Malloc? ==> root(f.blocks[b][i].dest) == f.blocks[b][i].dest)
    && (forall b, i :: f.At(b, i) && f.blocks[b][i].VarStore? ==>
          root(f.blocks[b][i].dest) == root(f.blocks[b][i].src))
  }
}
