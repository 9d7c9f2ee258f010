/** What a function of the PointerIR fragment does when it runs: values of SSA names and the
    state of heap blocks, as a transition relation; and what counts as a memory error. */
module Execution {
  import opened DataFlow
  import opened PointerIR

  datatype Value = VNull | VPtr(addr: nat)

  /** Foreign blocks belong to the caller and are only borrowed by this function. */
  datatype BlockState = Unfreed | Freed | Foreign

  datatype Pc = At(b: nat, i: nat) | Done(val: Name)

  datatype State = State(pc: Pc, env: map<Name, Value>, heap: map<nat, BlockState>)

  function Val(s: State, n: Name): Value {
    if n != NullConst && n in s.env then s.env[n] else VNull
  }

  /** A malloc may fail, or return an address never used before. */
  ghost predicate MallocEffect(s: State, d: Name, s': State) {
    || (s'.env == s.env[d := VNull] && s'.heap == s.heap)
    || exists a: nat :: a !in s.heap && s'.env == s.env[d := VPtr(a)] && s'.heap == s.heap[a := Unfreed]
  }

  /** Freeing NULL does nothing; freeing anything else ends the life of the block. */
  function FreeEffect(s: State, p: Name): map<nat, BlockState> {
    match Val(s, p)
    case VNull => s.heap
    case VPtr(a) => if a in s.heap then s.heap[a := Freed] else s.heap
  }

  function Target(inst: Instr, s: State, choice: bool): nat
    requires inst.Jump? || inst.Branch? || inst.NullBranch?
  {
    match inst
    case Jump(t) => t
    case Branch(t, e) => if choice then t else e
    case NullBranch(p, eq, t, e) => if (Val(s, p) == VNull) == eq then t else e
  }

  /** What an instruction does to values and blocks. */
  ghost predicate Effect(inst: Instr, s: State, s': State) {
    match inst
    case Malloc(d) => MallocEffect(s, d, s')
    case Free(p, _) => s'.env == s.env && s'.heap == FreeEffect(s, p)
    case VarStore(d, src) => s'.env == s.env[d := Val(s, src)] && s'.heap == s.heap
    case _ => s'.env == s.env && s'.heap == s.heap
  }

  /** Where control goes next. */
  ghost predicate NextPc(inst: Instr, s: State, pc: Pc)
    requires s.pc.At?
  {
    match inst
    case Return(v) => pc == Done(v)
    case ReturnVoid => pc == Done(NullConst)
    case Jump(_) => pc == At(Target(inst, s, true), 0)
    case Branch(_, _) => exists choice: bool :: pc == At(Target(inst, s, choice), 0)
    case NullBranch(_, _, _, _) => pc == At(Target(inst, s, true), 0)
    case _ => pc == At(s.pc.b, s.pc.i + 1)
  }

  ghost predicate Step(f: Func, s: State, s': State) {
    && s.pc.At? && f.At(s.pc.b, s.pc.i)
    && Effect(f.blocks[s.pc.b][s.pc.i], s, s') && NextPc(f.blocks[s.pc.b][s.pc.i], s, s'.pc)
  }

  ghost predicate Usable(s: State, p: Name) {
    Val(s, p).VPtr? && Val(s, p).addr in s.heap && s.heap[Val(s, p).addr] != Freed
  }

  /** The instruction frees a block that is not there to be freed (twice, or not from this
      function's heap), gives NULL to fclose, or dereferences NULL or a pointer to a freed block. */
  ghost predicate ErrorAt(inst: Instr, s: State) {
    match inst
    case Free(p, fclose) =>
      || (fclose && Val(s, p) == VNull)
      || (Val(s, p).VPtr? && !(Val(s, p).addr in s.heap && s.heap[Val(s, p).addr] == Unfreed))
    case Load(p) => !Usable(s, p)
    case Store(p) => !Usable(s, p)
    case _ => false
  }

  ghost predicate MemoryError(f: Func, s: State) {
    s.pc.At? && f.At(s.pc.b, s.pc.i) && ErrorAt(f.blocks[s.pc.b][s.pc.i], s)
  }

  /** At the end some block is neither freed nor handed to the caller. */
  ghost predicate Leak(s: State) {
    s.pc.Done? && exists a :: a in s.heap && s.heap[a] == Unfreed && Val(s, s.pc.val) != VPtr(a)
  }

  ghost predicate Run(f: Func, run: seq<State>) {
    |run| > 0 && forall k :: 0 < k < |run| ==> Step(f, run[k - 1], run[k])
  }
}
