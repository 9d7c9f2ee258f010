/** The points-to analysis and the expansion together: the abort block of an expanded call is entered
    only where the original program calls something that is not one of its functions. */
module CallResolution {
  import PT = PointsTo
  import PS = PointsToSoundness
  import opened CallExpansion
  import opened ProgramRuns

  // ----- The program as the analysis sees it -----

  predicate Assigns(inst: Instr) { !(inst.Call? && inst.isVoid) }

  ghost predicate Defines(f: Func, b: nat, i: nat, r: nat) {
    b < |f| && i < |f[b].instrs| && Assigns(f[b].instrs[i]) && f[b].instrs[i].dest == r
  }

  ghost predicate HasDef(f: Func, r: nat) { exists b, i :: Defines(f, b, i, r) }

  /** The value that a register is to the analysis: a formal, or the result of the instruction that
      assigns it. */
  ghost function RegValue(g: nat, fn: Fn, r: nat): PT.Value {
    if r < fn.params then PT.Formal(g, r)
    else if HasDef(fn.body, r) then var b, i :| Defines(fn.body, b, i, r); PT.Result(g, b, i)
    else PT.Value.Other
  }

  ghost function OpValue(g: nat, fn: Fn, x: Operand): PT.Value {
    match x
    case Address(h) => PT.Address(h)
    case Reg(r) => RegValue(g, fn, r)
    case Const(_) => PT.Value.Other
  }

  ghost function OpValues(g: nat, fn: Fn, xs: seq<Operand>): (vs: seq<PT.Value>)
    ensures |vs| == |xs| && forall k {:trigger vs[k]} :: 0 <= k < |xs| ==> vs[k] == OpValue(g, fn, xs[k])
  {
    seq(|xs|, k requires 0 <= k < |xs| => OpValue(g, fn, xs[k]))
  }

  ghost function AbsInstr(g: nat, fn: Fn, inst: Instr): PT.Instr {
    match inst
    case Call(_, _, callee, args) => PT.Instr.Call(OpValue(g, fn, callee), OpValues(g, fn, args))
    case Compare(_, _, _) => PT.Instr.Opaque
    case Phi(_, incoming) => PT.Instr.Phi(map b | b in incoming :: OpValue(g, fn, incoming[b]))
    case Other(_, op, args) =>
      match op
      case Load => PT.Instr.Load
      case IntToPtr => PT.Instr.IntToPtr
      case Select =>
        if |args| == 2 then PT.Instr.Select(OpValue(g, fn, args[0]), OpValue(g, fn, args[1])) else PT.Instr.Opaque
      case Copy => if |args| >= 1 then PT.Instr.VarStore(OpValue(g, fn, args[0])) else PT.Instr.Opaque
      case Opaque(_) => PT.Instr.Opaque
  }

  ghost function AbsTerm(g: nat, fn: Fn, t: Terminator): PT.Terminator {
    match t
    case Jump(x) => PT.Terminator.Jump([x])
    case Branch(_, x, y) => PT.Terminator.Jump([x, y])
    case Return(v) => PT.Terminator.Return(OpValue(g, fn, v))
    case Abort => PT.Terminator.Jump([])
  }

  ghost function AbsBlock(g: nat, fn: Fn, block: Block): (b: PT.Block)
    ensures |b.instrs| == |block.instrs| && b.term == AbsTerm(g, fn, block.term)
    ensures forall i {:trigger b.instrs[i]} ::
            0 <= i < |block.instrs| ==> b.instrs[i] == AbsInstr(g, fn, block.instrs[i])
  {
    PT.Block(seq(|block.instrs|, i requires 0 <= i < |block.instrs| => AbsInstr(g, fn, block.instrs[i])),
      AbsTerm(g, fn, block.term))
  }

  ghost function AbsFunc(g: nat, fn: Fn): (f: PT.Func)
    ensures f.params == fn.params && |f.blocks| == |fn.body|
    ensures forall b {:trigger f.blocks[b]} :: 0 <= b < |fn.body| ==> f.blocks[b] == AbsBlock(g, fn, fn.body[b])
  {
    PT.Func(fn.params, seq(|fn.body|, b requires 0 <= b < |fn.body| => AbsBlock(g, fn, fn.body[b])))
  }

  ghost function Abs(prog: Program): (p: PT.Program)
    ensures |p| == |prog| && forall g {:trigger p[g]} :: 0 <= g < |prog| ==> p[g] == AbsFunc(g, prog[g])
  {
    seq(|prog|, g requires 0 <= g < |prog| => AbsFunc(g, prog[g]))
  }

  // ----- Runs as the analysis sees them -----

  /** Every register is assigned by one instruction, or holds a parameter; branches lead to blocks. */
  ghost predicate SingleAssignment(fn: Fn) {
    && (forall b, t :: 0 <= b < |fn.body| && t in Targets(fn.body[b].term) ==> t < |fn.body|)
    && (forall b: nat, i: nat, r: nat :: Defines(fn.body, b, i, r) ==> r >= fn.params)
    && (forall b: nat, i: nat, c: nat, j: nat, r: nat ::
      Defines(fn.body, b, i, r) && Defines(fn.body, c, j, r) ==> b == c && i == j)
  }

  function AbsVal(n: nat, v: RunValue): PS.RunValue { if v.FnAddr? && v.fn < n then PS.Fn(v.fn) else PS.Data }

  /** The registers in env hold what the analysis' machine has for their values. */
  ghost predicate EnvAgrees(prog: Program, g: nat, env: Env, pf: PS.Frame, penv: PS.Env)
    requires g < |prog|
  {
    && (forall r :: r in env ==> r < prog[g].params || HasDef(prog[g].body, r))
    && (forall x :: PS.Val(Abs(prog), pf, penv, OpValue(g, prog[g], x)) == AbsVal(|prog|, Eval(env, x)))
  }

  ghost predicate FrameAgrees(prog: Program, fr: Frame, pf: PS.Frame) {
    && fr.fn < |prog| && pf.fn == fr.fn && pf.b == fr.s.b && pf.i == fr.s.i && pf.prev == fr.s.prev
    && EnvAgrees(prog, fr.fn, fr.s.env, pf, pf.env) && EnvAgrees(prog, fr.fn, fr.s.entry, pf, pf.entry)
  }

  ghost predicate StackAgrees(prog: Program, st: Stack, ps: PS.Stack) {
    |st| == |ps| && forall k :: 0 <= k < |st| ==> FrameAgrees(prog, st[k], ps[k])
  }

  lemma RegOfDef(prog: Program, g: nat, b: nat, i: nat, r: nat, r': nat)
    requires g < |prog| && SingleAssignment(prog[g]) && Defines(prog[g].body, b, i, r)
    ensures RegValue(g, prog[g], r') == PT.Result(g, b, i) <==> r' == r
  {
    assert HasDef(prog[g].body, r);
  }

  /** Assigning a register is assigning the result of its instruction. */
  lemma AssignAgrees(prog: Program, fr: Frame, pf: PS.Frame, r: RunValue)
    requires FrameAgrees(prog, fr, pf) && SingleAssignment(prog[fr.fn]) && Running(prog, fr)
    requires fr.s.i < |prog[fr.fn].body[fr.s.b].instrs| && Assigns(prog[fr.fn].body[fr.s.b].instrs[fr.s.i])
    ensures FrameAgrees(prog, Frame(fr.fn, Set(fr.s, prog[fr.fn].body[fr.s.b].instrs[fr.s.i].dest, r)),
            PS.Finish(pf, AbsVal(|prog|, r)))
  {
    var g, dest := fr.fn, prog[fr.fn].body[fr.s.b].instrs[fr.s.i].dest;
    var pf' := PS.Finish(pf, AbsVal(|prog|, r));
    var env' := fr.s.env[dest := r];
    assert Defines(prog[g].body, fr.s.b, fr.s.i, dest);
    forall x
      ensures PS.Val(Abs(prog), pf', pf'.env, OpValue(g, prog[g], x)) == AbsVal(|prog|, Eval(env', x))
      ensures PS.Val(Abs(prog), pf', pf'.entry, OpValue(g, prog[g], x)) == AbsVal(|prog|, Eval(fr.s.entry, x))
    {
      assert PS.Val(Abs(prog), pf, pf.env, OpValue(g, prog[g], x)) == AbsVal(|prog|, Eval(fr.s.env, x));
      assert PS.Val(Abs(prog), pf, pf.entry, OpValue(g, prog[g], x)) == AbsVal(|prog|, Eval(fr.s.entry, x));
      if x.Reg? { RegOfDef(prog, g, fr.s.b, fr.s.i, dest, x.reg); }
    }
  }

  /** The result of a void call is no register's value. */
  lemma SkipAgrees(prog: Program, fr: Frame, pf: PS.Frame, r: PS.RunValue)
    requires FrameAgrees(prog, fr, pf) && SingleAssignment(prog[fr.fn]) && Running(prog, fr)
    requires fr.s.i < |prog[fr.fn].body[fr.s.b].instrs| && !Assigns(prog[fr.fn].body[fr.s.b].instrs[fr.s.i])
    ensures FrameAgrees(prog, Frame(fr.fn, fr.s.(i := fr.s.i + 1)), PS.Finish(pf, r))
  {
    var g, pf' := fr.fn, PS.Finish(pf, r);
    forall x
      ensures PS.Val(Abs(prog), pf', pf'.env, OpValue(g, prog[g], x))
              == PS.Val(Abs(prog), pf, pf.env, OpValue(g, prog[g], x))
      ensures PS.Val(Abs(prog), pf', pf'.entry, OpValue(g, prog[g], x))
              == PS.Val(Abs(prog), pf, pf.entry, OpValue(g, prog[g], x))
    {
      assert OpValue(g, prog[g], x) != PT.Result(g, fr.s.b, fr.s.i);
    }
  }

  lemma GotoAgrees(prog: Program, fr: Frame, pf: PS.Frame, t: nat)
    requires FrameAgrees(prog, fr, pf)
    ensures FrameAgrees(prog, Frame(fr.fn, Goto(fr.s, t)), pf.(entry := pf.env, prev := pf.b, b := t, i := 0))
  {
    var g, pf' := fr.fn, pf.(entry := pf.env, prev := pf.b, b := t, i := 0);
    forall x
      ensures PS.Val(Abs(prog), pf', pf.env, OpValue(g, prog[g], x))
              == PS.Val(Abs(prog), pf, pf.env, OpValue(g, prog[g], x))
    {
    }
  }

  lemma EntryAgrees(prog: Program, h: nat, args: seq<RunValue>, pargs: seq<PS.RunValue>)
    requires h < |prog| && |args| == |pargs| && forall k :: 0 <= k < |args| ==> pargs[k] == AbsVal(|prog|, args[k])
    ensures FrameAgrees(prog, Frame(h, Entry(prog[h].params, args)), PS.Frame(h, pargs, map[], map[], 0, 0, 0))
  {
    var pf, env := PS.Frame(h, pargs, map[], map[], 0, 0, 0), EntryEnv(prog[h].params, args);
    forall x
      ensures PS.Val(Abs(prog), pf, map[], OpValue(h, prog[h], x)) == AbsVal(|prog|, Eval(env, x))
    {
      if x.Reg? && x.reg >= prog[h].params { assert x.reg !in env; }
    }
  }

  // ----- A step as the analysis sees it -----

  lemma OperandAgrees(prog: Program, fr: Frame, pf: PS.Frame, x: Operand)
    requires FrameAgrees(prog, fr, pf)
    ensures PS.Val(Abs(prog), pf, pf.env, OpValue(fr.fn, prog[fr.fn], x)) == AbsVal(|prog|, Eval(fr.s.env, x))
    ensures PS.Val(Abs(prog), pf, pf.entry, OpValue(fr.fn, prog[fr.fn], x)) == AbsVal(|prog|, Eval(fr.s.entry, x))
  {
  }

  lemma InstrAgrees(prog: Program, fr: Frame, pf: PS.Frame)
    requires FrameAgrees(prog, fr, pf) && Running(prog, fr)
    ensures PS.Running(Abs(prog), pf)
    ensures PS.AtInstr(Abs(prog), pf) <==> fr.s.i < |prog[fr.fn].body[fr.s.b].instrs|
    ensures PS.AtInstr(Abs(prog), pf)
            ==> PS.InstrOf(Abs(prog), pf) == AbsInstr(fr.fn, prog[fr.fn], prog[fr.fn].body[fr.s.b].instrs[fr.s.i])
    ensures Abs(prog)[pf.fn].blocks[pf.b].term == AbsTerm(fr.fn, prog[fr.fn], prog[fr.fn].body[fr.s.b].term)
  {
  }

  lemma CallAgrees(prog: Program, st: Stack, ps: PS.Stack, st1: Stack) returns (ps1: PS.Stack)
    requires StackAgrees(prog, st, ps) && ProgramStep(prog, st, st1) && StandsAtCall(prog, st[|st| - 1])
    ensures PS.Step(Abs(prog), ps, ps1) && StackAgrees(prog, st1, ps1)
  {
    var fr, pf, call := st[|st| - 1], ps[|ps| - 1], PendingCall(prog, st[|st| - 1]);
    InstrAgrees(prog, fr, pf);
    OperandAgrees(prog, fr, pf, call.callee);
    var h := Target(prog, fr).fn;
    var entered := PS.Enter(Abs(prog), pf, OpValues(fr.fn, prog[fr.fn], call.args), h);
    ps1 := ps + [entered];
    forall k | 0 <= k < |call.args| ensures entered.args[k] == AbsVal(|prog|, EvalAll(fr.s.env, call.args)[k]) {
      OperandAgrees(prog, fr, pf, call.args[k]);
    }
    EntryAgrees(prog, h, EvalAll(fr.s.env, call.args), entered.args);
  }

  /** What an instruction that is not a call makes, the analysis' machine may make as well. */
  lemma YieldAgrees(prog: Program, fr: Frame, pf: PS.Frame, ev: Event, s1: State) returns (r: PS.RunValue)
    requires FrameAgrees(prog, fr, pf) && SingleAssignment(prog[fr.fn]) && Running(prog, fr)
    requires fr.s.i < |prog[fr.fn].body[fr.s.b].instrs| && !ev.Called? && MayAnswer(ev)
             && Step(prog[fr.fn].body, fr.s, ev, s1)
    ensures PS.AtInstr(Abs(prog), pf) && !PS.InstrOf(Abs(prog), pf).Call? && PS.MayYield(Abs(prog), pf, r)
    ensures FrameAgrees(prog, Frame(fr.fn, s1), PS.Finish(pf, r))
  {
    InstrAgrees(prog, fr, pf);
    var inst := prog[fr.fn].body[fr.s.b].instrs[fr.s.i];
    match inst
    case Compare(dest, x, g) =>
      r := PS.Data;
      AssignAgrees(prog, fr, pf, if Eval(fr.s.env, x) == FnAddr(g) then Num(1) else Num(0));
    case Phi(dest, incoming) =>
      r := AbsVal(|prog|, Eval(fr.s.entry, incoming[fr.s.prev]));
      OperandAgrees(prog, fr, pf, incoming[fr.s.prev]);
      AssignAgrees(prog, fr, pf, Eval(fr.s.entry, incoming[fr.s.prev]));
    case Other(dest, op, args) =>
      r := AbsVal(|prog|, ev.result);
      if |args| > 0 { OperandAgrees(prog, fr, pf, args[0]); }
      if |args| > 1 { OperandAgrees(prog, fr, pf, args[1]); }
      AssignAgrees(prog, fr, pf, ev.result);
  }

  lemma MoveAgrees(prog: Program, st: Stack, ps: PS.Stack, st1: Stack) returns (ps1: PS.Stack)
    requires StackAgrees(prog, st, ps) && st != [] && Running(prog, st[|st| - 1])
             && SingleAssignment(prog[st[|st| - 1].fn])
    requires Moves(prog, st, st1)
    ensures PS.Step(Abs(prog), ps, ps1) && StackAgrees(prog, st1, ps1)
  {
    var n, fr, pf := |st| - 1, st[|st| - 1], ps[|ps| - 1];
    var ev: Event, s1: State :|
      !ev.Called? && MayAnswer(ev) && Step(prog[fr.fn].body, fr.s, ev, s1) && st1 == st[..n] + [Frame(fr.fn, s1)];
    InstrAgrees(prog, fr, pf);
    if fr.s.i < |prog[fr.fn].body[fr.s.b].instrs| {
      var r := YieldAgrees(prog, fr, pf, ev, s1);
      ps1 := ps[..n] + [PS.Finish(pf, r)];
    } else {
      GotoAgrees(prog, fr, pf, s1.b);
      assert s1.b in Targets(prog[fr.fn].body[fr.s.b].term);
      ps1 := ps[..n] + [pf.(entry := pf.env, prev := pf.b, b := s1.b, i := 0)];
    }
  }

  lemma ReturnAgrees(prog: Program, st: Stack, ps: PS.Stack, st1: Stack) returns (ps1: PS.Stack)
    requires StackAgrees(prog, st, ps) && st != [] && StandsAtReturn(prog, st[|st| - 1]) && Returns(prog, st, st1)
    requires SingleAssignment(prog[st[|st| - 2].fn])
    ensures PS.Step(Abs(prog), ps, ps1) && StackAgrees(prog, st1, ps1)
  {
    var n, fr, pf := |st| - 2, st[|st| - 1], ps[|ps| - 1];
    var caller, pcaller := st[n], ps[n];
    var ev, s1 :| ReturnsBy(prog, st, st1, ev, s1);
    InstrAgrees(prog, fr, pf);
    OperandAgrees(prog, fr, pf, prog[fr.fn].body[fr.s.b].term.val);
    var r := AbsVal(|prog|, ev.result);
    var rest := ps[..n + 1];
    ps1 := rest[n := PS.Finish(pcaller, r)];
    if PendingCall(prog, caller).isVoid {
      SkipAgrees(prog, caller, pcaller, r);
    } else {
      AssignAgrees(prog, caller, pcaller, ev.result);
    }
    assert PS.Popped(rest, r, ps1);
  }

  ghost predicate InSSA(prog: Program) { forall g :: 0 <= g < |prog| ==> SingleAssignment(prog[g]) }

  lemma StepAgrees(prog: Program, st: Stack, ps: PS.Stack, st1: Stack) returns (ps1: PS.Stack)
    requires InSSA(prog) && StackAgrees(prog, st, ps) && ProgramStep(prog, st, st1)
    ensures PS.Step(Abs(prog), ps, ps1) && StackAgrees(prog, st1, ps1)
  {
    if StandsAtCall(prog, st[|st| - 1]) {
      ps1 := CallAgrees(prog, st, ps, st1);
    } else if StandsAtReturn(prog, st[|st| - 1]) {
      ps1 := ReturnAgrees(prog, st, ps, st1);
    } else {
      ps1 := MoveAgrees(prog, st, ps, st1);
    }
  }

  lemma StartAgrees(prog: Program, st: Stack) returns (ps: PS.Stack)
    requires Starts(prog, st)
    ensures PS.Starts(Abs(prog), ps) && StackAgrees(prog, st, ps)
  {
    var args: seq<RunValue> :| (forall k :: 0 <= k < |args| ==> !args[k].FnAddr?)
      && st[0].s == Entry(prog[st[0].fn].params, args);
    var pargs := seq(|args|, _ => PS.Data);
    EntryAgrees(prog, st[0].fn, args, pargs);
    ps := [PS.Frame(st[0].fn, pargs, map[], map[], 0, 0, 0)];
  }

  lemma PRunExtended(p: PT.Program, prun: seq<PS.Stack>, n: nat, ps: PS.Stack)
    requires PS.Run(p, prun) && |prun| == n + 1 && PS.Step(p, prun[n], ps)
    ensures PS.Run(p, prun + [ps])
  {
    var more := prun + [ps];
    forall k | 0 <= k < |more| - 1
      ensures PS.StepsAt(p, more, k)
    {
      if k < n { assert PS.StepsAt(p, prun, k); }
    }
  }

  lemma NextAgrees(prog: Program, p: PT.Program, st: Stack, st1: Stack, front: seq<PS.Stack>, n: nat, before: PS.Stack)
    returns (prun: seq<PS.Stack>, last: PS.Stack)
    requires InSSA(prog) && StackAgrees(prog, st, before) && ProgramStep(prog, st, st1) && p == Abs(prog)
    requires n > 0 && PS.Run(p, front) && |front| == n && front[n - 1] == before
    ensures PS.Run(p, prun) && |prun| == n + 1 && prun[n] == last && StackAgrees(prog, st1, last)
  {
    last := StepAgrees(prog, st, before, st1);
    PRunExtended(p, front, n - 1, last);
    prun := front + [last];
  }

  lemma {:induction false} PrefixAgrees(prog: Program, p: PT.Program, run: seq<Stack>, n: nat)
    returns (prun: seq<PS.Stack>, last: PS.Stack)
    requires InSSA(prog) && Run(prog, run) && n < |run| && p == Abs(prog)
    ensures PS.Run(p, prun) && |prun| == n + 1 && prun[n] == last && StackAgrees(prog, run[n], last)
    decreases n
  {
    if n == 0 {
      last := StartAgrees(prog, run[0]);
      prun := [last];
    } else {
      var front, before := PrefixAgrees(prog, p, run, n - 1);
      assert StepsAt(prog, run, n - 1);
      prun, last := NextAgrees(prog, p, run[n - 1], run[n], front, n, before);
    }
  }

  /** Every run of the program is a run of the program the analysis is about. */
  lemma RunAgrees(prog: Program, run: seq<Stack>, n: nat) returns (prun: seq<PS.Stack>)
    requires InSSA(prog) && Run(prog, run) && n < |run|
    ensures PS.Run(Abs(prog), prun) && |prun| == n + 1 && StackAgrees(prog, run[n], prun[n])
  {
    var last;
    prun, last := PrefixAgrees(prog, Abs(prog), run, n);
  }

  // ----- The expanded call -----

  /** The site carries what the analysis found for the value that is called. */
  ghost predicate Annotated(prog: Program, g: nat, at: Site, facts: set<PT.Fact>)
    requires g < |prog| && at.o < |prog[g].body| && at.k < |prog[g].body[at.o].instrs| && CallOf(prog[g].body, at).Call?
  {
    var a := PT.AnnotationOf(facts, OpValue(g, prog[g], CallOf(prog[g].body, at).callee));
    a.PossibleCallees? && (forall h :: h in at.callees <==> h in a.known) && at.hasUnknown == a.unknown
  }

  lemma PendingAgrees(prog: Program, fr: Frame, pf: PS.Frame)
    requires FrameAgrees(prog, fr, pf) && StandsAtCall(prog, fr)
    ensures PS.AtInstr(Abs(prog), pf) && PS.InstrOf(Abs(prog), pf).Call?
    ensures PS.InstrOf(Abs(prog), pf).callee == OpValue(fr.fn, prog[fr.fn], PendingCall(prog, fr).callee)
    ensures PS.Val(Abs(prog), pf, pf.env, PS.InstrOf(Abs(prog), pf).callee) == AbsVal(|prog|, Target(prog, fr))
  {
    InstrAgrees(prog, fr, pf);
    OperandAgrees(prog, fr, pf, PendingCall(prog, fr).callee);
  }

  /** The analysis is closed, and calls through flagged values are covered. */
  ghost predicate Analysed(prog: Program, facts: set<PT.Fact>) {
    PT.Closed(Abs(prog), facts) && PS.FlaggedCovered(Abs(prog), facts)
  }

  /** h is listed in the annotation for the value, or the annotation has the unknown mark. */
  ghost predicate InAnnotation(facts: set<PT.Fact>, callee: PT.Value, h: nat) {
    var a := PT.AnnotationOf(facts, callee);
    a.PossibleCallees? && (h in a.known || a.unknown)
  }

  lemma KnownInRun(p: PT.Program, facts: set<PT.Fact>, prun: seq<PS.Stack>, callee: PT.Value, h: nat)
    requires PT.Closed(p, facts) && PS.FlaggedCovered(p, facts) && PS.Run(p, prun)
    requires prun[|prun| - 1] != [] && AboutToCall(p, Top(prun[|prun| - 1]), callee, h)
    ensures InAnnotation(facts, callee, h)
  {
    var n := |prun| - 1;
    forall j | 0 <= j < n ensures PS.Resolved(p, facts, prun[j]) { PS.CoveredIsResolved(p, facts, prun[j]); }
    PS.CalleeIsAnnotated(p, facts, prun, n, h);
  }

  lemma LastAgrees(prog: Program, st: Stack, ps: PS.Stack)
    requires StackAgrees(prog, st, ps) && st != []
    ensures ps != [] && FrameAgrees(prog, st[|st| - 1], ps[|ps| - 1])
  {
  }

  ghost function Top(ps: PS.Stack): PS.Frame
    requires ps != []
  {
    ps[|ps| - 1]
  }

  ghost predicate AboutToCall(p: PT.Program, pf: PS.Frame, callee: PT.Value, h: nat) {
    PS.AtInstr(p, pf) && PS.InstrOf(p, pf).Call? && PS.InstrOf(p, pf).callee == callee
      && PS.Val(p, pf, pf.env, callee) == PS.Fn(h)
  }

  lemma PendingInRun(prog: Program, run: seq<Stack>, fr: Frame) returns (prun: seq<PS.Stack>)
    requires InSSA(prog) && Run(prog, run) && run[|run| - 1] != [] && fr == run[|run| - 1][|run[|run| - 1]| - 1]
    requires StandsAtCall(prog, fr) && AbsVal(|prog|, Target(prog, fr)).Fn?
    ensures PS.Run(Abs(prog), prun) && prun[|prun| - 1] != []
    ensures AboutToCall(Abs(prog), Top(prun[|prun| - 1]), OpValue(fr.fn, prog[fr.fn], PendingCall(prog, fr).callee),
            Target(prog, fr).fn)
  {
    prun := RunAgrees(prog, run, |run| - 1);
    LastAgrees(prog, run[|run| - 1], prun[|prun| - 1]);
    PendingAgrees(prog, fr, Top(prun[|prun| - 1]));
  }

  /** A function about to be called is in the annotation of the value that is called. */
  ghost predicate KnownAtEnd(prog: Program, facts: set<PT.Fact>, st: Stack) {
    st != [] && StandsAtCall(prog, st[|st| - 1]) && AbsVal(|prog|, Target(prog, st[|st| - 1])).Fn? ==>
      var fr := st[|st| - 1];
      InAnnotation(facts, OpValue(fr.fn, prog[fr.fn], PendingCall(prog, fr).callee), Target(prog, fr).fn)
  }

  lemma CalleeIsKnown(prog: Program, facts: set<PT.Fact>, run: seq<Stack>)
    requires InSSA(prog) && Analysed(prog, facts) && Run(prog, run)
    ensures KnownAtEnd(prog, facts, run[|run| - 1])
  {
    var st := run[|run| - 1];
    if st != [] && StandsAtCall(prog, st[|st| - 1]) && AbsVal(|prog|, Target(prog, st[|st| - 1])).Fn? {
      var fr := st[|st| - 1];
      var prun := PendingInRun(prog, run, fr);
      KnownInRun(Abs(prog), facts, prun, OpValue(fr.fn, prog[fr.fn], PendingCall(prog, fr).callee),
        Target(prog, fr).fn);
    }
  }

  /** A program in SSA form, what the analysis found for it, and a call that carries it. */
  ghost predicate Setting(prog: Program, g: nat, at: Site, facts: set<PT.Fact>) {
    && InSSA(prog) && Analysed(prog, facts)
    && g < |prog| && Expandable(prog[g].body, at) && Annotated(prog, g, at, facts)
  }

  /** The expanded function stands in the abort block: the original is at the call, with none of the
      listed callees. */
  lemma InAbort(prog: Program, g: nat, at: Site, fr: Frame, fr': Frame)
    requires g < |prog| && Expandable(prog[g].body, at) && FrameMatches(prog, g, at, fr, fr') && !at.hasUnknown
    requires fr'.fn == g && fr'.s.b == ElseBlock(prog[g].body, at)
    ensures fr.fn == g && StandsAtCall(prog, fr) && AtCall(at, fr.s) && !CalleeListed(prog[g].body, at, fr.s)
  {
    var ph :| Corresponds(prog[g].body, at, ph, fr.s, fr'.s);
    if CalleeListed(prog[g].body, at, fr.s) { AbortUnreachable(prog[g].body, at, ph, fr.s, fr'.s); }
  }

  ghost predicate StandsInAbort(prog: Program, g: nat, at: Site, st': Stack)
    requires g < |prog|
  {
    st' != [] && st'[|st'| - 1].fn == g && st'[|st'| - 1].s.b == ElseBlock(prog[g].body, at)
  }

  /** The program is about to call something that is none of its functions. */
  ghost predicate CallsNoFunction(prog: Program, g: nat, at: Site, st: Stack)
    requires st != []
  {
    var fr := st[|st| - 1];
    fr.fn == g && AtCall(at, fr.s) && StandsAtCall(prog, fr) && AbsVal(|prog|, Target(prog, fr)) == PS.Data
  }

  /** Whenever a run stands at the call with a function of the program to call, it is listed. */
  ghost predicate AlwaysListed(prog: Program, g: nat, at: Site)
    requires g < |prog| && Expandable(prog[g].body, at)
  {
    forall run: seq<Stack> :: Run(prog, run) ==> ListedAtEnd(prog, g, at, run[|run| - 1])
  }

  ghost predicate ListedAtEnd(prog: Program, g: nat, at: Site, st: Stack)
    requires g < |prog| && Expandable(prog[g].body, at)
  {
    st != [] && st[|st| - 1].fn == g && AtCall(at, st[|st| - 1].s) && AbsVal(|prog|, Target(prog, st[|st| - 1])).Fn? ==>
      CalleeListed(prog[g].body, at, st[|st| - 1].s)
  }

  lemma KnownIsListed(prog: Program, g: nat, at: Site, facts: set<PT.Fact>, st: Stack)
    requires g < |prog| && Expandable(prog[g].body, at) && Annotated(prog, g, at, facts) && KnownAtEnd(prog, facts, st)
    ensures ListedAtEnd(prog, g, at, st)
  {
    if st != [] && st[|st| - 1].fn == g && AtCall(at, st[|st| - 1].s)
      && AbsVal(|prog|, Target(prog, st[|st| - 1])).Fn? {
      var fr := st[|st| - 1];
      assert PendingCall(prog, fr) == CallOf(prog[g].body, at);
      var h := Target(prog, fr).fn;
      if !at.hasUnknown {
        assert h in at.callees;
        var l :| 0 <= l < |at.callees| && at.callees[l] == h;
      }
    }
  }

  /** The analysis lists all callees. */
  lemma AnalysisListsCallees(prog: Program, g: nat, at: Site, facts: set<PT.Fact>)
    requires Setting(prog, g, at, facts)
    ensures AlwaysListed(prog, g, at)
  {
    forall run: seq<Stack> | Run(prog, run)
      ensures ListedAtEnd(prog, g, at, run[|run| - 1])
    {
      CalleeIsKnown(prog, facts, run);
      KnownIsListed(prog, g, at, facts, run[|run| - 1]);
    }
  }

  /** With all callees listed, every run of the expanded program matches a run of the original, and it
      stands in the abort block only if the original stands at the call without a function of the
      program to call. */
  lemma AbortMeans(prog: Program, g: nat, at: Site, run': seq<Stack>) returns (run: seq<Stack>)
    requires g < |prog| && Expandable(prog[g].body, at) && AlwaysListed(prog, g, at) && !at.hasUnknown
    requires Run(WithExpansion(prog, g, at), run')
    ensures Run(prog, run) && StackMatches(prog, g, at, run[|run| - 1], run'[|run'| - 1])
    ensures StandsInAbort(prog, g, at, run'[|run'| - 1])
            ==> run[|run| - 1] != [] && CallsNoFunction(prog, g, at, run[|run| - 1])
  {
    run := ProgramRunsAreMatched(prog, g, at, run');
    assert ListedAtEnd(prog, g, at, run[|run| - 1]);
    TopInAbort(prog, g, at, run[|run| - 1], run'[|run'| - 1]);
  }

  lemma TopInAbort(prog: Program, g: nat, at: Site, st: Stack, st': Stack)
    requires g < |prog| && Expandable(prog[g].body, at) && !at.hasUnknown && StackMatches(prog, g, at, st, st')
    requires ListedAtEnd(prog, g, at, st)
    ensures StandsInAbort(prog, g, at, st') ==> st != [] && CallsNoFunction(prog, g, at, st)
  {
    if StandsInAbort(prog, g, at, st') {
      assert FrameMatches(prog, g, at, st[|st| - 1], st'[|st'| - 1]);
      InAbort(prog, g, at, st[|st| - 1], st'[|st'| - 1]);
    }
  }

  /** The whole way: with the callees that the analysis found, and no unknown mark, no run of the
      expanded program enters the abort block while the original calls functions of the program. */
  lemma AbortNeverEntered(prog: Program, g: nat, at: Site, facts: set<PT.Fact>, run': seq<Stack>)
    returns (run: seq<Stack>)
    requires Setting(prog, g, at, facts) && !at.hasUnknown
    requires Run(WithExpansion(prog, g, at), run')
    ensures Run(prog, run) && StackMatches(prog, g, at, run[|run| - 1], run'[|run'| - 1])
    ensures StandsInAbort(prog, g, at, run'[|run'| - 1])
            ==> run[|run| - 1] != [] && CallsNoFunction(prog, g, at, run[|run| - 1])
  {
    AnalysisListsCallees(prog, g, at, facts);
    run := AbortMeans(prog, g, at, run');
  }

  lemma PrefixIsRun(prog: Program, run: seq<Stack>, n: nat)
    requires Run(prog, run) && n < |run|
    ensures Run(prog, run[..n + 1])
  {
    var front := run[..n + 1];
    forall k | 0 <= k < n
      ensures StepsAt(prog, front, k)
    {
      assert StepsAt(prog, run, k);
    }
  }

  lemma ListedEverywhere(prog: Program, g: nat, at: Site, run: seq<Stack>)
    requires g < |prog| && Expandable(prog[g].body, at) && AlwaysListed(prog, g, at) && Run(prog, run)
    ensures ListedThroughout(prog, g, at, run)
  {
    forall n | 0 <= n < |run| - 1
      ensures ListedHere(prog, g, at, run[n])
    {
      PrefixIsRun(prog, run, n);
      assert run[..n + 1][n] == run[n] && ListedAtEnd(prog, g, at, run[n]);
    }
  }

  /** With the callees that the analysis found, expanding the call loses no run of the program. */
  lemma NoRunIsLost(prog: Program, g: nat, at: Site, facts: set<PT.Fact>, run: seq<Stack>) returns (run': seq<Stack>)
    requires Setting(prog, g, at, facts) && Run(prog, run)
    ensures Run(WithExpansion(prog, g, at), run') && StackMatches(prog, g, at, run[|run| - 1], run'[|run'| - 1])
  {
    AnalysisListsCallees(prog, g, at, facts);
    ListedEverywhere(prog, g, at, run);
    run' := ProgramRunsAreFollowed(prog, g, at, run);
  }
}
