/** Expanding an indirect call into a chain of comparisons with direct calls: what the rewritten
    function can do, the original can do. */
module CallExpansion {

  // ----- Functions and their runs -----

  datatype Operand = Address(fn: nat) | Reg(reg: nat) | Const(n: int)

  /** Instructions by what they may make of pointers: `Copy` returns its first operand (casts, and
      calls to __pom_var_store), `Select` one of its operands; `Opaque` makes no pointer. */
  datatype Op = Load | IntToPtr | Select | Copy | Opaque(kind: nat)

  /** `Other` is any other instruction: what it computes is left to the environment, as is the
      result of a call.  A void call assigns no register. */
  datatype Instr =
    | Call(dest: nat, isVoid: bool, callee: Operand, args: seq<Operand>)
    | Compare(dest: nat, left: Operand, fn: nat)
    | Phi(dest: nat, incoming: map<nat, Operand>)
    | Other(dest: nat, op: Op, args: seq<Operand>)

  /** `Abort` is a call of abort() followed by unreachable. */
  datatype Terminator =
    | Jump(target: nat)
    | Branch(cond: Operand, onTrue: nat, onFalse: nat)
    | Return(val: Operand)
    | Abort

  datatype Block = Block(instrs: seq<Instr>, term: Terminator)

  type Func = seq<Block>

  datatype RunValue = FnAddr(fn: nat) | Num(n: int)

  type Env = map<nat, RunValue>

  /** `entry` are the registers at the entry of the current block, which phi instructions read. */
  datatype State = State(b: nat, i: nat, prev: nat, env: Env, entry: Env)

  /** What the environment sees, and answers. */
  datatype Event =
    | Called(fn: nat, args: seq<RunValue>, result: RunValue)
    | Did(op: Op, args: seq<RunValue>, result: RunValue)
    | Silent

  function Eval(env: Env, x: Operand): RunValue {
    match x
    case Address(f) => FnAddr(f)
    case Reg(r) => if r in env then env[r] else Num(0)
    case Const(n) => Num(n)
  }

  function EvalAll(env: Env, xs: seq<Operand>): seq<RunValue> {
    seq(|xs|, k requires 0 <= k < |xs| => Eval(env, xs[k]))
  }

  function Set(s: State, dest: nat, r: RunValue): State { s.(env := s.env[dest := r], i := s.i + 1) }

  function Goto(s: State, t: nat): State { State(t, 0, s.b, s.env, s.env) }

  ghost predicate InstrStep(inst: Instr, s: State, ev: Event, s': State) {
    match inst
    case Call(dest, isVoid, callee, args) =>
      && Eval(s.env, callee).FnAddr? && ev.Called? && ev.fn == Eval(s.env, callee).fn && ev.args == EvalAll(s.env, args)
      && s' == if isVoid then s.(i := s.i + 1) else Set(s, dest, ev.result)
    case Compare(dest, x, g) =>
      ev == Silent && s' == Set(s, dest, if Eval(s.env, x) == FnAddr(g) then Num(1) else Num(0))
    case Phi(dest, incoming) =>
      ev == Silent && s.prev in incoming && s' == Set(s, dest, Eval(s.entry, incoming[s.prev]))
    case Other(dest, op, args) =>
      ev.Did? && ev.op == op && ev.args == EvalAll(s.env, args) && s' == Set(s, dest, ev.result)
  }

  ghost predicate TermStep(t: Terminator, s: State, ev: Event, s': State) {
    match t
    case Jump(x) => ev == Silent && s' == Goto(s, x)
    case Branch(c, x, y) => ev == Silent && s' == Goto(s, if Eval(s.env, c) != Num(0) then x else y)
    case Return(_) => false
    case Abort => false
  }

  /** One step; the event tells what was called or done, and what came back. */
  ghost predicate Step(f: Func, s: State, ev: Event, s': State) {
    && s.b < |f| && s.i <= |f[s.b].instrs|
    && if s.i < |f[s.b].instrs| then InstrStep(f[s.b].instrs[s.i], s, ev, s') else TermStep(f[s.b].term, s, ev, s')
  }

  // ----- The expansion -----

  /** The call at (o, k), the listed callees, whether unknown callees are possible, and the first
      register that the function does not use. */
  datatype Site = Site(o: nat, k: nat, callees: seq<nat>, hasUnknown: bool, firstReg: nat)

  ghost predicate RegsBelow(x: Operand, n: nat) { x.Reg? ==> x.reg < n }

  ghost predicate AllBelow(xs: seq<Operand>, n: nat) { forall k :: 0 <= k < |xs| ==> RegsBelow(xs[k], n) }

  ghost predicate InstrBelow(inst: Instr, n: nat) {
    inst.dest < n &&
    match inst
    case Call(_, _, callee, args) => RegsBelow(callee, n) && AllBelow(args, n)
    case Compare(_, x, _) => RegsBelow(x, n)
    case Phi(_, incoming) => forall b :: b in incoming ==> RegsBelow(incoming[b], n)
    case Other(_, _, args) => AllBelow(args, n)
  }

  ghost predicate TermBelow(t: Terminator, n: nat) {
    match t
    case Branch(c, _, _) => RegsBelow(c, n)
    case Return(v) => RegsBelow(v, n)
    case _ => true
  }

  function Targets(t: Terminator): set<nat> {
    match t
    case Jump(x) => {x}
    case Branch(_, x, y) => {x, y}
    case _ => {}
  }

  /** Phi instructions come first in their blocks, are not in the entry block, and read only from
      existing blocks. */
  ghost predicate Expandable(f: Func, at: Site) {
    && at.o < |f| && at.k < |f[at.o].instrs| && f[at.o].instrs[at.k].Call? && f[at.o].instrs[at.k].callee.Reg?
    && at.callees != []
    && (forall b, i :: 0 <= b < |f| && 0 <= i < |f[b].instrs| ==> InstrBelow(f[b].instrs[i], at.firstReg))
    && (forall b ::
      0 <= b < |f| ==> TermBelow(f[b].term, at.firstReg) && forall t :: t in Targets(f[b].term) ==> t < |f|)
    && (forall i :: at.k < i < |f[at.o].instrs| ==> !f[at.o].instrs[i].Phi?)
    && (forall i :: 0 <= i < |f[0].instrs| ==> !f[0].instrs[i].Phi?)
    && (forall b, i ::
      0 <= b < |f| && 0 <= i < |f[b].instrs| && f[b].instrs[i].Phi? ==> forall c ::
        c in f[b].instrs[i].incoming ==> c < |f|)
  }

  function CallOf(f: Func, at: Site): Instr
    requires at.o < |f| && at.k < |f[at.o].instrs|
  {
    f[at.o].instrs[at.k]
  }

  function CheckBlock(f: Func, j: nat): nat { |f| + 2 * j }
  function CallBlock(f: Func, j: nat): nat { |f| + 2 * j + 1 }
  function ElseBlock(f: Func, at: Site): nat { |f| + 2 * |at.callees| }
  function MergeBlock(f: Func, at: Site): nat { |f| + 2 * |at.callees| + 1 }

  function CompareReg(at: Site, j: nat): nat { at.firstReg + 2 * j }

  /** The register of the direct call in call block j; the indirect one in the else block has the
      number of callees for j. */
  function ResultReg(at: Site, j: nat): nat { at.firstReg + 2 * j + 1 }

  /** Control that came from the split block now comes from the merge block. */
  function Renamed(f: Func, at: Site, inst: Instr): Instr {
    if inst.Phi? && at.o in inst.incoming
    then inst.(incoming := (inst.incoming - {at.o})[MergeBlock(f, at) := inst.incoming[at.o]])
    else inst
  }

  function RenamedAll(f: Func, at: Site, insts: seq<Instr>): (r: seq<Instr>)
    ensures |r| == |insts| && forall i :: 0 <= i < |r| ==> r[i] == Renamed(f, at, insts[i])
  {
    seq(|insts|, i requires 0 <= i < |insts| => Renamed(f, at, insts[i]))
  }

  function Incoming(f: Func, at: Site, j: nat): map<nat, Operand>
    requires j <= |at.callees|
  {
    if j == 0 then (if at.hasUnknown then map[ElseBlock(f, at) := Reg(ResultReg(at, |at.callees|))] else map[])
    else Incoming(f, at, j - 1)[CallBlock(f, j - 1) := Reg(ResultReg(at, j - 1))]
  }

  /** The blocks that are added, by number from |f| on: check and call blocks in turn, else, merge. */
  function Added(f: Func, at: Site, n: nat): Block
    requires at.o < |f| && at.k < |f[at.o].instrs| && CallOf(f, at).Call?
  {
    var m, call := |at.callees|, CallOf(f, at);
    if n < 2 * m && n % 2 == 0 then
      Block([Compare(CompareReg(at, n / 2), call.callee, at.callees[n / 2])],
            Branch(Reg(CompareReg(at, n / 2)), CallBlock(f, n / 2), if n / 2 + 1 < m then CheckBlock(f, n / 2 + 1)
              else ElseBlock(f, at)))
    else if n < 2 * m then
      Block([Call(ResultReg(at, n / 2), call.isVoid, Address(at.callees[n / 2]), call.args)], Jump(MergeBlock(f, at)))
    else if n == 2 * m then
      if at.hasUnknown then Block([Call(ResultReg(at, m), call.isVoid, call.callee, call.args)],
        Jump(MergeBlock(f, at)))
      else Block([], Abort)
    else
      Block((if call.isVoid then [] else [Phi(call.dest, Incoming(f, at, m))])
        + RenamedAll(f, at, f[at.o].instrs[at.k + 1..]), f[at.o].term)
  }

  function Expanded(f: Func, at: Site): (g: Func)
    requires at.o < |f| && at.k < |f[at.o].instrs| && CallOf(f, at).Call?
    ensures |g| == |f| + 2 * |at.callees| + 2
  {
    seq(|f| + 2 * |at.callees| + 2, b requires 0 <= b < |f| + 2 * |at.callees| + 2 =>
      if b == at.o then Block(RenamedAll(f, at, f[b].instrs[..at.k]), Jump(CheckBlock(f, 0)))
      else if b < |f| then Block(RenamedAll(f, at, f[b].instrs), f[b].term)
      else Added(f, at, b - |f|))
  }

  // ----- How states correspond -----

  /** Where the expanded function stands: at a corresponding instruction, about to compare, branching
      on the comparison, about to call directly or through the else block, having called (with the
      result in this register), or about to merge. */
  datatype Phase = Outside | Checking(j: nat) | Branching(j: nat) | Calling(j: nat) | CalledIn(j: nat) | Merging(j: nat)

  ghost predicate Agree(env: Env, env': Env, n: nat, except: set<nat>) {
    forall r :: 0 <= r < n && r !in except ==> (r in env <==> r in env') && (r in env ==> env[r] == env'[r])
  }

  /** The block that makes the call in phase j: a call block, or else the else block. */
  function CallingBlock(f: Func, at: Site, j: nat): nat {
    if j < |at.callees| then CallBlock(f, j) else ElseBlock(f, at)
  }

  ghost predicate Corresponds(f: Func, at: Site, ph: Phase, s: State, s': State)
    requires Expandable(f, at)
  {
    var call, m := CallOf(f, at), |at.callees|;
    match ph
    case Outside =>
      && s.b < |f| && s.i <= |f[s.b].instrs| && Agree(s.env, s'.env, at.firstReg, {})
      && if s.b == at.o && s.i > at.k then
           s'.b == MergeBlock(f, at) && s'.i == s.i - at.k - (if call.isVoid then 1 else 0)
         else
           s'.b == s.b && s'.i == s.i && Agree(s.entry, s'.entry, at.firstReg, {})
           && (s.b != 0 ==> s'.prev == (if s.prev == at.o then MergeBlock(f, at) else s.prev) && s.prev < |f|)
    case Checking(j) => AtCall(at, s) && Agree(s.env, s'.env, at.firstReg, {}) && j < m && NotBefore(f, at, s, j)
      && s'.b == CheckBlock(f, j) && s'.i == 0
    case Branching(j) =>
      && AtCall(at, s) && Agree(s.env, s'.env, at.firstReg, {}) && j < m && NotBefore(f, at, s, j)
        && s'.b == CheckBlock(f, j) && s'.i == 1
      && Eval(s'.env, Reg(CompareReg(at, j)))
        == (if Eval(s.env, call.callee) == FnAddr(at.callees[j]) then Num(1) else Num(0))
    case Calling(j) =>
      && AtCall(at, s) && Agree(s.env, s'.env, at.firstReg, {}) && j <= m && s'.b == CallingBlock(f, at, j) && s'.i == 0
      && (if j < m then Eval(s.env, call.callee) == FnAddr(at.callees[j]) else NotBefore(f, at, s, m))
    case CalledIn(j) =>
      && After(f, at, s) && j <= m && (j == m ==> at.hasUnknown) && Agree(s.env, s'.env, at.firstReg, Assigned(call))
      && s'.b == CallingBlock(f, at, j) && s'.i == 1
      && (!call.isVoid ==> call.dest in s.env && Eval(s.env, Reg(call.dest)) == Eval(s'.env, Reg(ResultReg(at, j))))
    case Merging(j) =>
      && After(f, at, s) && j <= m && (j == m ==> at.hasUnknown) && Agree(s.env, s'.env, at.firstReg, Assigned(call))
        && !call.isVoid
      && s'.b == MergeBlock(f, at) && s'.i == 0 && s'.prev == CallingBlock(f, at, j)
      && Eval(s.env, Reg(call.dest)) == Eval(s'.entry, Reg(ResultReg(at, j))) && call.dest in s.env
  }

  function Assigned(call: Instr): set<nat> { if call.Call? && call.isVoid then {} else {call.dest} }

  ghost predicate AtCall(at: Site, s: State) { s.b == at.o && s.i == at.k }

  ghost predicate After(f: Func, at: Site, s: State) { s.b == at.o && s.i == at.k + 1 }

  /** The callee is none of the first j listed. */
  ghost predicate NotBefore(f: Func, at: Site, s: State, j: nat)
    requires Expandable(f, at)
  {
    forall l :: 0 <= l < j && l < |at.callees| ==> Eval(s.env, CallOf(f, at).callee) != FnAddr(at.callees[l])
  }

  /** What the points-to analysis promises about the call: the callee is listed, or may be unknown. */
  ghost predicate CalleeListed(f: Func, at: Site, s: State)
    requires Expandable(f, at)
  {
    AtCall(at, s) ==> at.hasUnknown || exists l ::
      0 <= l < |at.callees| && Eval(s.env, CallOf(f, at).callee) == FnAddr(at.callees[l])
  }

  lemma EvalAgrees(env: Env, env': Env, n: nat, x: Operand)
    requires Agree(env, env', n, {}) && RegsBelow(x, n)
    ensures Eval(env, x) == Eval(env', x)
  {
  }

  lemma EvalAllAgrees(env: Env, env': Env, n: nat, xs: seq<Operand>)
    requires Agree(env, env', n, {}) && AllBelow(xs, n)
    ensures EvalAll(env, xs) == EvalAll(env', xs)
  {
    forall k | 0 <= k < |xs| ensures Eval(env, xs[k]) == Eval(env', xs[k]) { EvalAgrees(env, env', n, xs[k]); }
  }

  // ----- What the blocks of the expansion hold -----

  lemma AddedAt(f: Func, at: Site, n: nat)
    requires Expandable(f, at) && n < 2 * |at.callees| + 2
    ensures Expanded(f, at)[|f| + n] == Added(f, at, n)
  {
  }

  lemma CheckHolds(f: Func, at: Site, j: nat)
    requires Expandable(f, at) && j < |at.callees|
    ensures Expanded(f, at)[CheckBlock(f, j)] ==
            Block([Compare(CompareReg(at, j), CallOf(f, at).callee, at.callees[j])],
                  Branch(Reg(CompareReg(at, j)), CallBlock(f, j), if j + 1 < |at.callees| then CheckBlock(f, j + 1)
                    else ElseBlock(f, at)))
  {
    AddedAt(f, at, 2 * j);
    assert 2 * j / 2 == j && 2 * j % 2 == 0;
  }

  lemma CallingHolds(f: Func, at: Site, j: nat)
    requires Expandable(f, at) && j <= |at.callees|
    ensures var call := CallOf(f, at);
            Expanded(f, at)[CallingBlock(f, at, j)] ==
            if j < |at.callees| then Block([Call(ResultReg(at, j), call.isVoid, Address(at.callees[j]), call.args)],
              Jump(MergeBlock(f, at)))
            else if at.hasUnknown
              then Block([Call(ResultReg(at, j), call.isVoid, call.callee, call.args)], Jump(MergeBlock(f, at)))
            else Block([], Abort)
  {
    AddedAt(f, at, if j < |at.callees| then 2 * j + 1 else 2 * j);
    assert (2 * j + 1) / 2 == j && (2 * j + 1) % 2 == 1;
  }

  lemma {:induction false} IncomingHolds(f: Func, at: Site, n: nat, j: nat)
    requires n <= |at.callees| && (j < n || (j == |at.callees| && at.hasUnknown))
    ensures CallingBlock(f, at, j) in Incoming(f, at, n)
    ensures Incoming(f, at, n)[CallingBlock(f, at, j)] == Reg(ResultReg(at, j))
  {
    if n > 0 && j != n - 1 { IncomingHolds(f, at, n - 1, j); }
  }

  // ----- One step of the expanded function is one step of the original, or none -----

  /** The original takes the same step, or stands still while the expanded function works its way
      through the chain without being observed. */
  ghost predicate Simulates(f: Func, at: Site, s: State, ev: Event, s1': State, ph1: Phase, s1: State)
    requires Expandable(f, at)
  {
    Corresponds(f, at, ph1, s1, s1') && (Step(f, s, ev, s1) || (s1 == s && ev == Silent))
  }

  lemma FromChecking(f: Func, at: Site, j: nat, s: State, s': State, ev: Event, s1': State)
    requires Expandable(f, at) && Corresponds(f, at, Checking(j), s, s') && Step(Expanded(f, at), s', ev, s1')
    ensures Simulates(f, at, s, ev, s1', Branching(j), s)
  {
    CheckHolds(f, at, j);
    EvalAgrees(s.env, s'.env, at.firstReg, CallOf(f, at).callee);
  }

  lemma FromBranching(f: Func, at: Site, j: nat, s: State, s': State, ev: Event, s1': State) returns (ph1: Phase)
    requires Expandable(f, at) && Corresponds(f, at, Branching(j), s, s') && Step(Expanded(f, at), s', ev, s1')
    ensures Simulates(f, at, s, ev, s1', ph1, s)
    ensures ev == Silent && 0 <= Rank(f, at, ph1, s) < Rank(f, at, Branching(j), s)
  {
    CheckHolds(f, at, j);
    if Eval(s.env, CallOf(f, at).callee) == FnAddr(at.callees[j]) {
      ph1 := Calling(j);
    } else if j + 1 < |at.callees| {
      ph1 := Checking(j + 1);
    } else {
      ph1 := Calling(j + 1);
    }
  }

  /** The call, made once, of the function that the original calls, with the same arguments. */
  lemma FromCalling(f: Func, at: Site, j: nat, s: State, s': State, ev: Event, s1': State) returns (s1: State)
    requires Expandable(f, at) && Corresponds(f, at, Calling(j), s, s') && Step(Expanded(f, at), s', ev, s1')
    ensures Simulates(f, at, s, ev, s1', CalledIn(j), s1) && Step(f, s, ev, s1) && ev.Called?
  {
    CallingHolds(f, at, j);
    var call := CallOf(f, at);
    assert InstrBelow(call, at.firstReg);
    EvalAgrees(s.env, s'.env, at.firstReg, call.callee);
    EvalAllAgrees(s.env, s'.env, at.firstReg, call.args);
    assert j < |at.callees| || at.hasUnknown;
    s1 := if call.isVoid then s.(i := s.i + 1) else Set(s, call.dest, ev.result);
  }

  lemma FromCalled(f: Func, at: Site, j: nat, s: State, s': State, ev: Event, s1': State) returns (ph1: Phase)
    requires Expandable(f, at) && Corresponds(f, at, CalledIn(j), s, s') && Step(Expanded(f, at), s', ev, s1')
    ensures Simulates(f, at, s, ev, s1', ph1, s)
    ensures ev == Silent && 0 <= Rank(f, at, ph1, s) < Rank(f, at, CalledIn(j), s)
  {
    CallingHolds(f, at, j);
    ph1 := if CallOf(f, at).isVoid then Outside else Merging(j);
  }

  lemma MergeHolds(f: Func, at: Site)
    requires Expandable(f, at)
    ensures var call := CallOf(f, at);
            Expanded(f, at)[MergeBlock(f, at)] ==
            Block((if call.isVoid then [] else [Phi(call.dest, Incoming(f, at, |at.callees|))])
              + RenamedAll(f, at, f[at.o].instrs[at.k + 1..]), f[at.o].term)
  {
    AddedAt(f, at, 2 * |at.callees| + 1);
  }

  /** The merge block's phi takes up the result of whichever call was made. */
  lemma FromMerging(f: Func, at: Site, j: nat, s: State, s': State, ev: Event, s1': State)
    requires Expandable(f, at) && Corresponds(f, at, Merging(j), s, s') && Step(Expanded(f, at), s', ev, s1')
    ensures Simulates(f, at, s, ev, s1', Outside, s)
  {
    MergeHolds(f, at);
    IncomingHolds(f, at, |at.callees|, j);
  }

  // ----- Outside the chain -----

  /** The same instruction in both functions. */
  lemma SameInstr(inst: Instr, n: nat, s: State, s': State, ev: Event, s1': State) returns (s1: State)
    requires InstrBelow(inst, n) && Agree(s.env, s'.env, n, {}) && !inst.Phi? && InstrStep(inst, s', ev, s1')
    ensures InstrStep(inst, s, ev, s1) && Agree(s1.env, s1'.env, n, {}) && s1 == s.(env := s1.env, i := s.i + 1)
            && s1' == s'.(env := s1'.env, i := s'.i + 1)
  {
    match inst
    case Call(dest, isVoid, callee, args) =>
      EvalAgrees(s.env, s'.env, n, callee);
      EvalAllAgrees(s.env, s'.env, n, args);
      s1 := if isVoid then s.(i := s.i + 1) else Set(s, dest, ev.result);
    case Compare(dest, x, g) =>
      EvalAgrees(s.env, s'.env, n, x);
      s1 := Set(s, dest, if Eval(s.env, x) == FnAddr(g) then Num(1) else Num(0));
    case Other(dest, op, args) =>
      EvalAllAgrees(s.env, s'.env, n, args);
      s1 := Set(s, dest, ev.result);
  }

  /** A phi instruction, with the split block renamed to the merge block. */
  lemma SamePhi(f: Func, at: Site, inst: Instr, s: State, s': State, ev: Event, s1': State) returns (s1: State)
    requires inst.Phi? && InstrBelow(inst, at.firstReg) && (forall c :: c in inst.incoming ==> c < |f|) && at.o < |f|
             && s.prev < |f|
    requires Agree(s.env, s'.env, at.firstReg, {}) && Agree(s.entry, s'.entry, at.firstReg, {})
    requires s'.prev == if s.prev == at.o then MergeBlock(f, at) else s.prev
    requires InstrStep(Renamed(f, at, inst), s', ev, s1')
    ensures InstrStep(inst, s, ev, s1) && Agree(s1.env, s1'.env, at.firstReg, {})
    ensures s1 == s.(env := s1.env, i := s.i + 1) && s1' == s'.(env := s1'.env, i := s'.i + 1)
  {
    assert s.prev in inst.incoming && Renamed(f, at, inst).incoming[s'.prev] == inst.incoming[s.prev];
    EvalAgrees(s.entry, s'.entry, at.firstReg, inst.incoming[s.prev]);
    s1 := Set(s, inst.dest, Eval(s.entry, inst.incoming[s.prev]));
  }

  lemma SameTerm(t: Terminator, n: nat, s: State, s': State, ev: Event, s1': State) returns (s1: State)
    requires TermBelow(t, n) && Agree(s.env, s'.env, n, {}) && TermStep(t, s', ev, s1')
    ensures TermStep(t, s, ev, s1) && s1.b in Targets(t) && s1 == Goto(s, s1.b) && s1' == Goto(s', s1.b)
  {
    if t.Branch? { EvalAgrees(s.env, s'.env, n, t.cond); }
    s1 := Goto(s, s1'.b);
  }

  lemma FromCallSite(f: Func, at: Site, s: State, s': State, ev: Event, s1': State)
    requires Expandable(f, at) && Corresponds(f, at, Outside, s, s') && Step(Expanded(f, at), s', ev, s1')
             && AtCall(at, s)
    ensures Simulates(f, at, s, ev, s1', Checking(0), s)
  {
    assert Expanded(f, at)[at.o] == Block(RenamedAll(f, at, f[at.o].instrs[..at.k]), Jump(CheckBlock(f, 0)));
  }

  /** In the merge block, after the phi: the instructions that followed the call. */
  lemma FromMerged(f: Func, at: Site, s: State, s': State, ev: Event, s1': State) returns (s1: State)
    requires Expandable(f, at) && Corresponds(f, at, Outside, s, s') && Step(Expanded(f, at), s', ev, s1')
    requires s.b == at.o && s.i > at.k
    ensures Simulates(f, at, s, ev, s1', Outside, s1) && Step(f, s, ev, s1)
  {
    MergeHolds(f, at);
    if s.i < |f[at.o].instrs| {
      var inst := f[at.o].instrs[s.i];
      assert Expanded(f, at)[MergeBlock(f, at)].instrs[s'.i] == Renamed(f, at, inst) == inst;
      s1 := SameInstr(inst, at.firstReg, s, s', ev, s1');
    } else {
      s1 := SameTerm(f[at.o].term, at.firstReg, s, s', ev, s1');
    }
  }

  lemma FromElsewhere(f: Func, at: Site, s: State, s': State, ev: Event, s1': State) returns (s1: State)
    requires Expandable(f, at) && Corresponds(f, at, Outside, s, s') && Step(Expanded(f, at), s', ev, s1')
    requires !AtCall(at, s) && !(s.b == at.o && s.i > at.k)
    ensures Simulates(f, at, s, ev, s1', Outside, s1) && Step(f, s, ev, s1)
  {
    var g := Expanded(f, at);
    assert g[s.b] == if s.b == at.o then Block(RenamedAll(f, at, f[at.o].instrs[..at.k]), Jump(CheckBlock(f, 0)))
                     else Block(RenamedAll(f, at, f[s.b].instrs), f[s.b].term);
    if s.i < |f[s.b].instrs| {
      var inst := f[s.b].instrs[s.i];
      assert g[s.b].instrs[s.i] == Renamed(f, at, inst);
      if inst.Phi? {
        s1 := SamePhi(f, at, inst, s, s', ev, s1');
      } else {
        s1 := SameInstr(inst, at.firstReg, s, s', ev, s1');
      }
    } else {
      s1 := SameTerm(f[s.b].term, at.firstReg, s, s', ev, s1');
    }
  }

  /** How many silent steps of the chain may still come before the original moves. */
  ghost function Rank(f: Func, at: Site, ph: Phase, s: State): int {
    match ph
    case Outside => if AtCall(at, s) then 2 * |at.callees| + 4 else 0
    case Checking(j) => 2 * (|at.callees| - j) + 3
    case Branching(j) => 2 * (|at.callees| - j) + 2
    case Calling(j) => 3
    case CalledIn(j) => 2
    case Merging(j) => 1
  }

  /** Every step of the expanded function is matched; one that the original does not share brings
      the next shared step closer, so the chain is not endless. */
  lemma StepIsMatched(f: Func, at: Site, ph: Phase, s: State, s': State, ev: Event, s1': State)
    returns (ph1: Phase, s1: State)
    requires Expandable(f, at) && Corresponds(f, at, ph, s, s') && Step(Expanded(f, at), s', ev, s1')
    ensures Simulates(f, at, s, ev, s1', ph1, s1)
    ensures Step(f, s, ev, s1) || (s1 == s && ev == Silent && 0 <= Rank(f, at, ph1, s1) < Rank(f, at, ph, s))
  {
    s1 := s;
    match ph
    case Outside =>
      if AtCall(at, s) {
        FromCallSite(f, at, s, s', ev, s1');
        ph1 := Checking(0);
      } else {
        ph1 := Outside;
        if s.b == at.o && s.i > at.k {
          s1 := FromMerged(f, at, s, s', ev, s1');
        } else {
          s1 := FromElsewhere(f, at, s, s', ev, s1');
        }
      }
    case Checking(j) => FromChecking(f, at, j, s, s', ev, s1'); ph1 := Branching(j);
    case Branching(j) => ph1 := FromBranching(f, at, j, s, s', ev, s1');
    case Calling(j) => s1 := FromCalling(f, at, j, s, s', ev, s1'); ph1 := CalledIn(j);
    case CalledIn(j) => ph1 := FromCalled(f, at, j, s, s', ev, s1');
    case Merging(j) => FromMerging(f, at, j, s, s', ev, s1'); ph1 := Outside;
  }

  // ----- Whole runs -----

  ghost predicate Exec(f: Func, s: State, evs: seq<Event>, t: State)
    decreases |evs|
  {
    if evs == [] then s == t else exists mid :: Step(f, s, evs[0], mid) && Exec(f, mid, evs[1..], t)
  }

  function Visible(evs: seq<Event>): seq<Event> {
    if evs == [] then [] else (if evs[0] == Silent then [] else [evs[0]]) + Visible(evs[1..])
  }

  /** Every run of the expanded function calls the same functions with the same arguments, in the
      same order, as some run of the original, and ends in a corresponding state. */
  lemma {:induction false} RunsAreMatched(f: Func, at: Site, ph: Phase, s: State, s': State, evs': seq<Event>,
                                          t': State)
    returns (evs: seq<Event>, ph1: Phase, t: State)
    requires Expandable(f, at) && Corresponds(f, at, ph, s, s') && Exec(Expanded(f, at), s', evs', t')
    ensures Exec(f, s, evs, t) && Visible(evs) == Visible(evs') && Corresponds(f, at, ph1, t, t')
    decreases |evs'|
  {
    if evs' == [] {
      return [], ph, s;
    }
    var mid' :| Step(Expanded(f, at), s', evs'[0], mid') && Exec(Expanded(f, at), mid', evs'[1..], t');
    var ph2, mid := StepIsMatched(f, at, ph, s, s', evs'[0], mid');
    evs, ph1, t := RunsAreMatched(f, at, ph2, mid, mid', evs'[1..], t');
    if Step(f, s, evs'[0], mid) {
      var rest := evs;
      evs := [evs'[0]] + evs;
      assert evs[1..] == rest;
    }
  }

  // ----- The chain is neither stuck nor endless -----

  /** With the callee listed, the abort block is never entered. */
  lemma AbortUnreachable(f: Func, at: Site, ph: Phase, s: State, s': State)
    requires Expandable(f, at) && Corresponds(f, at, ph, s, s') && CalleeListed(f, at, s)
    ensures s'.b == ElseBlock(f, at) ==> at.hasUnknown
  {
  }

  /** A run of the expansion stands in the abort block only where the run of the original that it
      matches stands at the call with a callee that is not listed. */
  lemma AbortIsUnlisted(f: Func, at: Site, ph: Phase, s: State, s': State, evs': seq<Event>, t': State)
    returns (evs: seq<Event>, ph1: Phase, t: State)
    requires Expandable(f, at) && Corresponds(f, at, ph, s, s') && Exec(Expanded(f, at), s', evs', t')
    ensures Exec(f, s, evs, t) && Visible(evs) == Visible(evs') && Corresponds(f, at, ph1, t, t')
    ensures !at.hasUnknown ==> (t'.b == ElseBlock(f, at) <==> ph1 == Calling(|at.callees|) && !CalleeListed(f, at, t))
  {
    evs, ph1, t := RunsAreMatched(f, at, ph, s, s', evs', t');
  }

  lemma SameInstrGoesOn(f: Func, at: Site, inst: Instr, s: State, s': State, ev: Event, s1: State) returns (s1': State)
    requires InstrBelow(inst, at.firstReg) && Agree(s.env, s'.env, at.firstReg, {}) && InstrStep(inst, s, ev, s1)
    requires inst.Phi? ==> s'.prev == (if s.prev == at.o then MergeBlock(f, at) else s.prev)
    requires inst.Phi? ==> forall c :: c in inst.incoming ==> c < |f|
    ensures InstrStep(Renamed(f, at, inst), s', ev, s1')
  {
    match inst
    case Call(dest, isVoid, callee, args) =>
      EvalAgrees(s.env, s'.env, at.firstReg, callee);
      EvalAllAgrees(s.env, s'.env, at.firstReg, args);
      s1' := if isVoid then s'.(i := s'.i + 1) else Set(s', dest, ev.result);
    case Compare(dest, x, g) =>
      s1' := Set(s', dest, if Eval(s'.env, x) == FnAddr(g) then Num(1) else Num(0));
    case Other(dest, op, args) =>
      EvalAllAgrees(s.env, s'.env, at.firstReg, args);
      s1' := Set(s', dest, ev.result);
    case Phi(dest, incoming) =>
      s1' := Set(s', dest, Eval(s'.entry, Renamed(f, at, inst).incoming[s'.prev]));
  }

  lemma TermGoesOn(t: Terminator, s: State, ev: Event, s1: State, s': State) returns (s1': State)
    requires TermStep(t, s, ev, s1)
    ensures TermStep(t, s', ev, s1')
  {
    s1' := Goto(s', if t.Jump? then t.target else if Eval(s'.env, t.cond) != Num(0) then t.onTrue else t.onFalse);
  }

  lemma GoesOnOutside(f: Func, at: Site, s: State, s': State, ev: Event, s1: State) returns (ev': Event, s1': State)
    requires Expandable(f, at) && Corresponds(f, at, Outside, s, s') && Step(f, s, ev, s1)
    ensures Step(Expanded(f, at), s', ev', s1') && (ev' == ev || ev' == Silent)
  {
    var g := Expanded(f, at);
    ev' := ev;
    if AtCall(at, s) {
      assert g[at.o] == Block(RenamedAll(f, at, f[at.o].instrs[..at.k]), Jump(CheckBlock(f, 0)));
      ev', s1' := Silent, Goto(s', CheckBlock(f, 0));
    } else if s.b == at.o && s.i > at.k {
      MergeHolds(f, at);
      if s.i < |f[at.o].instrs| {
        assert g[MergeBlock(f, at)].instrs[s'.i] == Renamed(f, at, f[at.o].instrs[s.i]);
        s1' := SameInstrGoesOn(f, at, f[at.o].instrs[s.i], s, s', ev, s1);
      } else {
        s1' := TermGoesOn(f[at.o].term, s, ev, s1, s');
      }
    } else {
      assert g[s.b] == if s.b == at.o then Block(RenamedAll(f, at, f[at.o].instrs[..at.k]), Jump(CheckBlock(f, 0)))
                       else Block(RenamedAll(f, at, f[s.b].instrs), f[s.b].term);
      if s.i < |f[s.b].instrs| {
        assert g[s.b].instrs[s.i] == Renamed(f, at, f[s.b].instrs[s.i]);
        s1' := SameInstrGoesOn(f, at, f[s.b].instrs[s.i], s, s', ev, s1);
      } else {
        s1' := TermGoesOn(f[s.b].term, s, ev, s1, s');
      }
    }
  }

  lemma GoesOnCalling(f: Func, at: Site, j: nat, s: State, s': State, ev: Event, s1: State)
    returns (ev': Event, s1': State)
    requires Expandable(f, at) && Corresponds(f, at, Calling(j), s, s') && Step(f, s, ev, s1) && CalleeListed(f, at, s)
    ensures Step(Expanded(f, at), s', ev', s1') && ev' == ev
  {
    var call := CallOf(f, at);
    CallingHolds(f, at, j);
    AbortUnreachable(f, at, Calling(j), s, s');
    EvalAgrees(s.env, s'.env, at.firstReg, call.callee);
    EvalAllAgrees(s.env, s'.env, at.firstReg, call.args);
    ev' := ev;
    s1' := if call.isVoid then s'.(i := s'.i + 1) else Set(s', ResultReg(at, j), ev.result);
  }

  /** Wherever the original can step, with the callee listed, so can the expanded function: with the
      same event, or silently. */
  lemma NeverStuck(f: Func, at: Site, ph: Phase, s: State, s': State, ev: Event, s1: State)
    returns (ev': Event, s1': State)
    requires Expandable(f, at) && Corresponds(f, at, ph, s, s') && CalleeListed(f, at, s)
    requires Step(f, s, ev, s1) || ph.CalledIn? || ph.Merging?
    ensures Step(Expanded(f, at), s', ev', s1') && (ev' == ev || ev' == Silent)
  {
    match ph
    case Outside => ev', s1' := GoesOnOutside(f, at, s, s', ev, s1);
    case Checking(j) =>
      CheckHolds(f, at, j);
      ev', s1' := Silent, Set(s', CompareReg(at, j), if Eval(s'.env, CallOf(f, at).callee) == FnAddr(at.callees[j])
        then Num(1) else Num(0));
    case Branching(j) =>
      CheckHolds(f, at, j);
      ev', s1' := Silent, Goto(s', if Eval(s'.env, Reg(CompareReg(at, j))) != Num(0) then CallBlock(f, j)
        else if j + 1 < |at.callees| then CheckBlock(f, j + 1) else ElseBlock(f, at));
    case Calling(j) => ev', s1' := GoesOnCalling(f, at, j, s, s', ev, s1);
    case CalledIn(j) =>
      CallingHolds(f, at, j);
      ev', s1' := Silent, Goto(s', MergeBlock(f, at));
    case Merging(j) =>
      MergeHolds(f, at);
      IncomingHolds(f, at, |at.callees|, j);
      ev', s1' := Silent, Set(s', CallOf(f, at).dest, Eval(s'.entry, Reg(ResultReg(at, j))));
  }

  /** An event determines the step. */
  lemma SameEventSameStep(f: Func, s: State, ev: Event, s1: State, s2: State)
    requires Step(f, s, ev, s1) && Step(f, s, ev, s2)
    ensures s1 == s2
  {
  }

  /** Only one kind of event is possible for a step. */
  lemma SilentOrNot(f: Func, s: State, ev: Event, s1: State, s2: State)
    requires Step(f, s, ev, s1) && Step(f, s, Silent, s2)
    ensures ev == Silent
  {
  }

  /** The expanded function makes silent steps until it makes the step of the original. */
  lemma {:induction false} StepIsFollowed(f: Func, at: Site, ph: Phase, s: State, s': State, ev: Event, s1: State)
    returns (evs': seq<Event>, ph1: Phase, s1': State)
    requires Expandable(f, at) && Corresponds(f, at, ph, s, s') && CalleeListed(f, at, s) && Step(f, s, ev, s1)
    ensures Exec(Expanded(f, at), s', evs', s1') && Visible(evs') == Visible([ev]) && Corresponds(f, at, ph1, s1, s1')
    decreases Rank(f, at, ph, s)
  {
    var ev', next' := NeverStuck(f, at, ph, s, s', ev, s1);
    var ph2, next := StepIsMatched(f, at, ph, s, s', ev', next');
    if Step(f, s, ev', next) {
      if ev' == Silent { SilentOrNot(f, s, ev, s1, next); }
      SameEventSameStep(f, s, ev, s1, next);
      evs', ph1, s1' := [ev], ph2, next';
      assert Exec(Expanded(f, at), next', evs'[1..], s1');
    } else {
      var rest;
      rest, ph1, s1' := StepIsFollowed(f, at, ph2, s, next', ev, s1);
      evs' := [Silent] + rest;
      assert evs'[1..] == rest;
    }
  }

  lemma ExecPrepended(f: Func, s: State, ev: Event, mid: State, evs: seq<Event>, t: State)
    requires Step(f, s, ev, mid) && Exec(f, mid, evs, t)
    ensures Exec(f, s, [ev] + evs, t)
  {
    assert ([ev] + evs)[1..] == evs;
  }

  lemma {:induction false} ExecConcat(f: Func, s: State, evs: seq<Event>, mid: State, more: seq<Event>, t: State)
    requires Exec(f, s, evs, mid) && Exec(f, mid, more, t)
    ensures Exec(f, s, evs + more, t)
    decreases |evs|
  {
    if evs == [] {
      assert evs + more == more;
    } else {
      var next :| Step(f, s, evs[0], next) && Exec(f, next, evs[1..], mid);
      ExecConcat(f, next, evs[1..], mid, more, t);
      ExecPrepended(f, s, evs[0], next, evs[1..] + more, t);
      assert evs + more == [evs[0]] + (evs[1..] + more);
    }
  }

  lemma {:induction false} VisibleConcat(evs: seq<Event>, more: seq<Event>)
    ensures Visible(evs + more) == Visible(evs) + Visible(more)
  {
    if evs == [] {
      assert evs + more == more;
    } else {
      VisibleConcat(evs[1..], more);
      assert (evs + more)[1..] == evs[1..] + more;
    }
  }

  /** At every state that the run passes, the callee is listed. */
  ghost predicate ListedAlong(f: Func, at: Site, s: State, evs: seq<Event>)
    requires Expandable(f, at)
    decreases |evs|
  {
    CalleeListed(f, at, s) && (evs != [] ==> forall mid ::
      Step(f, s, evs[0], mid) ==> ListedAlong(f, at, mid, evs[1..]))
  }

  /** The other direction: every run of the original along which callees are listed is matched by a
      run of the expanded function with the same calls. */
  lemma {:induction false} RunsAreFollowed(f: Func, at: Site, ph: Phase, s: State, s': State, evs: seq<Event>, t: State)
    returns (evs': seq<Event>, ph1: Phase, t': State)
    requires Expandable(f, at) && Corresponds(f, at, ph, s, s') && Exec(f, s, evs, t) && ListedAlong(f, at, s, evs)
    ensures Exec(Expanded(f, at), s', evs', t') && Visible(evs') == Visible(evs) && Corresponds(f, at, ph1, t, t')
    decreases |evs|
  {
    if evs == [] {
      return [], ph, s';
    }
    var mid :| Step(f, s, evs[0], mid) && Exec(f, mid, evs[1..], t);
    var first, ph2, mid' := StepIsFollowed(f, at, ph, s, s', evs[0], mid);
    var rest;
    rest, ph1, t' := RunsAreFollowed(f, at, ph2, mid, mid', evs[1..], t);
    ExecConcat(Expanded(f, at), s', first, mid', rest, t');
    evs' := first + rest;
    VisibleConcat(first, rest);
    VisibleConcat([evs[0]], evs[1..]);
    assert evs == [evs[0]] + evs[1..];
  }

  // ----- The rewriting -----

  lemma {:induction false} IncomingElse(f: Func, at: Site, j: nat)
    requires j <= |at.callees| && at.hasUnknown
    ensures Incoming(f, at, j) == Incoming(f, at.(hasUnknown := false),
            j)[ElseBlock(f, at) := Reg(ResultReg(at, |at.callees|))]
  {
    if j > 0 { IncomingElse(f, at, j - 1); }
  }

  /** The check and call blocks, in turn, and what the phi takes from the call blocks. */
  method CheckAndCallBlocks(f: Func, at: Site) returns (added: seq<Block>, incoming: map<nat, Operand>)
    requires at.o < |f| && at.k < |f[at.o].instrs| && CallOf(f, at).Call?
    ensures |added| == 2 * |at.callees| && forall n :: 0 <= n < |added| ==> added[n] == Added(f, at, n)
    ensures incoming == Incoming(f, at.(hasUnknown := false), |at.callees|)
  {
    var call := CallOf(f, at);
    added, incoming := [], map[];
    for j := 0 to |at.callees|
      invariant |added| == 2 * j && forall n :: 0 <= n < |added| ==> added[n] == Added(f, at, n)
      invariant incoming == Incoming(f, at.(hasUnknown := false), j)
    {
      var nextCheck := if j + 1 < |at.callees| then CheckBlock(f, j + 1) else ElseBlock(f, at);
      var check := Block([Compare(CompareReg(at, j), call.callee, at.callees[j])],
        Branch(Reg(CompareReg(at, j)), CallBlock(f, j), nextCheck));
      var direct := Block([Call(ResultReg(at, j), call.isVoid, Address(at.callees[j]), call.args)],
        Jump(MergeBlock(f, at)));
      assert 2 * j / 2 == j && 2 * j % 2 == 0 && (2 * j + 1) / 2 == j && (2 * j + 1) % 2 == 1;
      added := added + [check, direct];
      incoming := incoming[CallBlock(f, j) := Reg(ResultReg(at, j))];
    }
  }

  class Function {
    var blocks: Func

    /** Expands the call unless no callee is known. */
    method ExpandIndirectCall(at: Site) returns (changed: bool)
      requires at.o < |blocks| && at.k < |blocks[at.o].instrs| && CallOf(blocks, at).Call?
      modifies this
      ensures changed <==> at.callees != []
      ensures blocks == if changed then Expanded(old(blocks), at) else old(blocks)
    {
      if at.callees == [] { return false; }
      var f, call, m := blocks, CallOf(blocks, at), |at.callees|;
      var added, incoming := CheckAndCallBlocks(f, at);
      var elseBlock := Block([], Abort);
      if at.hasUnknown {
        IncomingElse(f, at, m);
        elseBlock := Block([Call(ResultReg(at, m), call.isVoid, call.callee, call.args)], Jump(MergeBlock(f, at)));
        incoming := incoming[ElseBlock(f, at) := Reg(ResultReg(at, m))];
      }
      var phi := if call.isVoid then [] else [Phi(call.dest, incoming)];
      var merge := Block(phi + RenamedAll(f, at, f[at.o].instrs[at.k + 1..]), f[at.o].term);
      assert elseBlock == Added(f, at, 2 * m) && merge == Added(f, at, 2 * m + 1);
      var renamed := [];
      for b := 0 to |f|
        invariant |renamed| == b && forall c :: 0 <= c < b ==> renamed[c] == Expanded(f, at)[c]
      {
        if b == at.o {
          renamed := renamed + [Block(RenamedAll(f, at, f[b].instrs[..at.k]), Jump(CheckBlock(f, 0)))];
        } else {
          renamed := renamed + [Block(RenamedAll(f, at, f[b].instrs), f[b].term)];
        }
      }
      blocks := renamed + added + [elseBlock, merge];
      SameBlocks(f, at, renamed, added, elseBlock, merge);
      changed := true;
    }
  }

  lemma SameBlocks(f: Func, at: Site, renamed: seq<Block>, added: seq<Block>, elseBlock: Block, merge: Block)
    requires at.o < |f| && at.k < |f[at.o].instrs| && CallOf(f, at).Call? && |renamed| == |f|
             && |added| == 2 * |at.callees|
    requires forall c :: 0 <= c < |f| ==> renamed[c] == Expanded(f, at)[c]
    requires forall n :: 0 <= n < |added| ==> added[n] == Added(f, at, n)
    requires elseBlock == Added(f, at, 2 * |at.callees|) && merge == Added(f, at, 2 * |at.callees| + 1)
    ensures renamed + added + [elseBlock, merge] == Expanded(f, at)
  {
    var all := renamed + added + [elseBlock, merge];
    forall b | 0 <= b < |all|
      ensures all[b] == Expanded(f, at)[b]
    {
      if b >= |f| { assert Expanded(f, at)[b] == Added(f, at, b - |f|); }
    }
  }
}
