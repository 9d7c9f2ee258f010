/** Whole programs: a stack of active calls, where the environment of a function is the rest of the
    program.  Expanding a call of one function changes no run of the program. */
module ProgramRuns {
  import opened CallExpansion

  datatype Fn = Fn(params: nat, body: Func)

  type Program = seq<Fn>

  datatype Frame = Frame(fn: nat, s: State)

  type Stack = seq<Frame>

  // ----- Runs -----

  function EntryEnv(params: nat, args: seq<RunValue>): Env { map k: nat | 0 <= k < params && k < |args| :: args[k] }

  function Entry(params: nat, args: seq<RunValue>): State {
    State(0, 0, 0, EntryEnv(params, args), EntryEnv(params, args))
  }

  predicate Running(prog: Program, fr: Frame) {
    fr.fn < |prog| && fr.s.b < |prog[fr.fn].body| && fr.s.i <= |prog[fr.fn].body[fr.s.b].instrs|
  }

  predicate StandsAtCall(prog: Program, fr: Frame) {
    && Running(prog, fr) && fr.s.i < |prog[fr.fn].body[fr.s.b].instrs|
    && prog[fr.fn].body[fr.s.b].instrs[fr.s.i].Call?
  }

  function PendingCall(prog: Program, fr: Frame): Instr
    requires StandsAtCall(prog, fr)
  {
    prog[fr.fn].body[fr.s.b].instrs[fr.s.i]
  }

  function Target(prog: Program, fr: Frame): RunValue
    requires StandsAtCall(prog, fr)
  {
    Eval(fr.s.env, PendingCall(prog, fr).callee)
  }

  predicate StandsAtReturn(prog: Program, fr: Frame) {
    && Running(prog, fr) && fr.s.i == |prog[fr.fn].body[fr.s.b].instrs|
    && prog[fr.fn].body[fr.s.b].term.Return?
  }

  function ReturnValue(prog: Program, fr: Frame): RunValue
    requires StandsAtReturn(prog, fr)
  {
    Eval(fr.s.env, prog[fr.fn].body[fr.s.b].term.val)
  }

  /** What an instruction that is not a call may make of its operands.  Memory may hold anything. */
  predicate MayAnswer(ev: Event) {
    ev.Did? ==>
      match ev.op
      case Load => true
      case IntToPtr => true
      case Select => |ev.args| == 2 && (ev.result == ev.args[0] || ev.result == ev.args[1])
      case Copy => |ev.args| >= 1 && ev.result == ev.args[0]
      case Opaque(_) => !ev.result.FnAddr?
  }

  predicate Defined(prog: Program, v: RunValue) { v.FnAddr? && v.fn < |prog| && prog[v.fn].body != [] }

  ghost predicate Calls(prog: Program, st: Stack, st': Stack)
    requires st != [] && StandsAtCall(prog, st[|st| - 1])
  {
    var fr := st[|st| - 1];
    Defined(prog, Target(prog, fr)) &&
    var h := Target(prog, fr).fn;
    st' == st + [Frame(h, Entry(prog[h].params, EvalAll(fr.s.env, PendingCall(prog, fr).args)))]
  }

  /** The caller's call instruction takes the returned value. */
  ghost predicate Returns(prog: Program, st: Stack, st': Stack)
    requires st != [] && StandsAtReturn(prog, st[|st| - 1])
  {
    |st| >= 2 && StandsAtCall(prog, st[|st| - 2]) &&
    exists ev, s1 :: ReturnsBy(prog, st, st', ev, s1)
  }

  ghost predicate ReturnsBy(prog: Program, st: Stack, st': Stack, ev: Event, s1: State)
    requires |st| >= 2 && StandsAtReturn(prog, st[|st| - 1]) && StandsAtCall(prog, st[|st| - 2])
  {
    var n, caller := |st| - 2, st[|st| - 2];
    && ev.Called? && ev.result == ReturnValue(prog, st[n + 1]) && Step(prog[caller.fn].body, caller.s, ev, s1)
    && st' == st[..n] + [Frame(caller.fn, s1)]
  }

  ghost predicate Moves(prog: Program, st: Stack, st': Stack)
    requires st != [] && Running(prog, st[|st| - 1])
  {
    var n, fr := |st| - 1, st[|st| - 1];
    exists ev: Event, s1: State ::
      !ev.Called? && MayAnswer(ev) && Step(prog[fr.fn].body, fr.s, ev, s1) && st' == st[..n] + [Frame(fr.fn, s1)]
  }

  datatype Standing = Calling | Returning | Moving | Ended

  function Stands(prog: Program, st: Stack): Standing {
    if st == [] || !Running(prog, st[|st| - 1]) then Ended
    else if StandsAtCall(prog, st[|st| - 1]) then Standing.Calling
    else if StandsAtReturn(prog, st[|st| - 1]) then Returning
    else Moving
  }

  ghost predicate ProgramStep(prog: Program, st: Stack, st': Stack) {
    match Stands(prog, st)
    case Calling => Calls(prog, st, st')
    case Returning => Returns(prog, st, st')
    case Moving => Moves(prog, st, st')
    case Ended => false
  }

  ghost predicate Starts(prog: Program, st: Stack) {
    |st| == 1 && Running(prog, st[0]) &&
    exists args: seq<RunValue> ::
      (forall k :: 0 <= k < |args| ==> !args[k].FnAddr?) && st[0].s == Entry(prog[st[0].fn].params, args)
  }

  ghost predicate Run(prog: Program, run: seq<Stack>) {
    run != [] && Starts(prog, run[0]) && forall n :: 0 <= n < |run| - 1 ==> StepsAt(prog, run, n)
  }

  ghost predicate StepsAt(prog: Program, run: seq<Stack>, n: nat)
    requires n + 1 < |run|
  {
    ProgramStep(prog, run[n], run[n + 1])
  }

  lemma RunExtended(prog: Program, run: seq<Stack>, st: Stack)
    requires Run(prog, run) && ProgramStep(prog, run[|run| - 1], st)
    ensures Run(prog, run + [st])
  {
    var more := run + [st];
    forall n | 0 <= n < |more| - 1
      ensures StepsAt(prog, more, n)
    {
      if n < |run| - 1 { assert StepsAt(prog, run, n); }
    }
  }

  // ----- Expanding a call of function g -----

  function WithExpansion(prog: Program, g: nat, at: Site): Program
    requires g < |prog| && at.o < |prog[g].body| && at.k < |prog[g].body[at.o].instrs| && CallOf(prog[g].body, at).Call?
  {
    prog[g := Fn(prog[g].params, Expanded(prog[g].body, at))]
  }

  /** The frames are the same, or, for the function with the expansion, correspond in some phase. */
  ghost predicate FrameMatches(prog: Program, g: nat, at: Site, fr: Frame, fr': Frame)
    requires g < |prog| && Expandable(prog[g].body, at)
  {
    fr.fn == fr'.fn && if fr.fn == g then exists ph :: Corresponds(prog[g].body, at, ph, fr.s, fr'.s) else fr == fr'
  }

  ghost predicate StackMatches(prog: Program, g: nat, at: Site, st: Stack, st': Stack)
    requires g < |prog| && Expandable(prog[g].body, at)
  {
    |st| == |st'| && forall k :: 0 <= k < |st| ==> FrameMatches(prog, g, at, st[k], st'[k])
  }

  lemma EntryMatches(prog: Program, g: nat, at: Site, h: nat, s: State)
    requires g < |prog| && Expandable(prog[g].body, at) && h < |prog| && s.b == 0 && s.i == 0 && |prog[g].body| > 0
    ensures FrameMatches(prog, g, at, Frame(h, s), Frame(h, s))
  {
    if h == g { assert Corresponds(prog[g].body, at, Outside, s, s); }
  }

  /** A call that the expanded function is about to make, the original is about to make as well. */
  lemma CallMatched(f: Func, at: Site, ph: Phase, s: State, s': State)
    requires Expandable(f, at) && Corresponds(f, at, ph, s, s')
    requires s'.b < |Expanded(f, at)| && s'.i < |Expanded(f, at)[s'.b].instrs|
             && Expanded(f, at)[s'.b].instrs[s'.i].Call?
    requires Eval(s'.env, Expanded(f, at)[s'.b].instrs[s'.i].callee).FnAddr?
    ensures s.b < |f| && s.i < |f[s.b].instrs| && f[s.b].instrs[s.i].Call?
    ensures var call, call' := f[s.b].instrs[s.i], Expanded(f, at)[s'.b].instrs[s'.i];
            Eval(s.env, call.callee) == Eval(s'.env, call'.callee)
              && EvalAll(s.env, call.args) == EvalAll(s'.env, call'.args)
  {
    var call := Expanded(f, at)[s'.b].instrs[s'.i];
    var ev := Called(Eval(s'.env, call.callee).fn, EvalAll(s'.env, call.args), Num(0));
    var s1' := if call.isVoid then s'.(i := s'.i + 1) else Set(s', call.dest, Num(0));
    assert Step(Expanded(f, at), s', ev, s1');
    var ph1, s1 := StepIsMatched(f, at, ph, s, s', ev, s1');
  }

  /** The expanded function returns where the original does, and what it returns. */
  lemma ReturnMatched(f: Func, at: Site, ph: Phase, s: State, s': State)
    requires Expandable(f, at) && Corresponds(f, at, ph, s, s')
    requires s'.b < |Expanded(f, at)| && s'.i == |Expanded(f, at)[s'.b].instrs| && Expanded(f, at)[s'.b].term.Return?
    ensures s.b < |f| && s.i == |f[s.b].instrs| && f[s.b].term.Return?
    ensures Eval(s.env, f[s.b].term.val) == Eval(s'.env, Expanded(f, at)[s'.b].term.val)
  {
    match ph
    case Outside =>
      var g := Expanded(f, at);
      if s.b == at.o && s.i > at.k { MergeHolds(f, at); }
      assert f[s.b].term == g[s'.b].term;
      EvalAgrees(s.env, s'.env, at.firstReg, f[s.b].term.val);
    case Checking(j) => CheckHolds(f, at, j);
    case Branching(j) => CheckHolds(f, at, j);
    case Calling(j) => CallingHolds(f, at, j);
    case CalledIn(j) => CallingHolds(f, at, j);
    case Merging(j) => MergeHolds(f, at);
  }

  // ----- One step of the program -----

  lemma CallsMatched(prog: Program, g: nat, at: Site, st: Stack, st': Stack, st1': Stack) returns (st1: Stack)
    requires g < |prog| && Expandable(prog[g].body, at) && StackMatches(prog, g, at, st, st')
    requires ProgramStep(WithExpansion(prog, g, at), st', st1')
             && StandsAtCall(WithExpansion(prog, g, at), st'[|st'| - 1])
    ensures ProgramStep(prog, st, st1) && StackMatches(prog, g, at, st1, st1')
  {
    var n, prog' := |st| - 1, WithExpansion(prog, g, at);
    assert FrameMatches(prog, g, at, st[n], st'[n]);
    if st[n].fn == g {
      var ph :| Corresponds(prog[g].body, at, ph, st[n].s, st'[n].s);
      CallMatched(prog[g].body, at, ph, st[n].s, st'[n].s);
    }
    var h := Target(prog, st[n]).fn;
    var entered := Frame(h, Entry(prog[h].params, EvalAll(st[n].s.env, PendingCall(prog, st[n]).args)));
    st1 := st + [entered];
    assert st1'[n + 1] == entered;
    EntryMatches(prog, g, at, h, entered.s);
  }

  lemma StepMatched(prog: Program, g: nat, at: Site, fr: Frame, fr': Frame, ev: Event, s1': State)
    returns (moved: bool, s1: State)
    requires g < |prog| && Expandable(prog[g].body, at) && FrameMatches(prog, g, at, fr, fr') && fr'.fn < |prog|
    requires Step(WithExpansion(prog, g, at)[fr'.fn].body, fr'.s, ev, s1')
    ensures FrameMatches(prog, g, at, Frame(fr.fn, s1), Frame(fr'.fn, s1'))
    ensures if moved then Step(prog[fr.fn].body, fr.s, ev, s1) else s1 == fr.s && ev == Silent
  {
    if fr.fn == g {
      var ph :| Corresponds(prog[g].body, at, ph, fr.s, fr'.s);
      var ph1;
      ph1, s1 := StepIsMatched(prog[g].body, at, ph, fr.s, fr'.s, ev, s1');
      moved := Step(prog[g].body, fr.s, ev, s1);
    } else {
      moved, s1 := true, s1';
    }
  }

  lemma ReturnsMatched(prog: Program, g: nat, at: Site, st: Stack, st': Stack, st1': Stack) returns (st1: Stack)
    requires g < |prog| && Expandable(prog[g].body, at) && StackMatches(prog, g, at, st, st')
    requires st' != [] && StandsAtReturn(WithExpansion(prog, g, at), st'[|st'| - 1])
             && Returns(WithExpansion(prog, g, at), st', st1')
    ensures ProgramStep(prog, st, st1) && StackMatches(prog, g, at, st1, st1')
  {
    var n, prog' := |st| - 2, WithExpansion(prog, g, at);
    assert FrameMatches(prog, g, at, st[n], st'[n]) && FrameMatches(prog, g, at, st[n + 1], st'[n + 1]);
    TopReturnMatched(prog, g, at, st[n + 1], st'[n + 1]);
    var ev, s1' :| ReturnsBy(prog', st', st1', ev, s1');
    var moved, s1 := StepMatched(prog, g, at, st[n], st'[n], ev, s1');
    st1 := st[..n] + [Frame(st[n].fn, s1)];
    ReturnGoesOn(prog, st, ev, s1);
    Replaced(prog, g, at, st, st', n, Frame(st[n].fn, s1), Frame(st'[n].fn, s1'));
  }

  lemma TopReturnMatched(prog: Program, g: nat, at: Site, fr: Frame, fr': Frame)
    requires g < |prog| && Expandable(prog[g].body, at) && FrameMatches(prog, g, at, fr, fr')
    requires StandsAtReturn(WithExpansion(prog, g, at), fr')
    ensures StandsAtReturn(prog, fr) && ReturnValue(prog, fr) == ReturnValue(WithExpansion(prog, g, at), fr')
  {
    if fr.fn == g {
      var ph :| Corresponds(prog[g].body, at, ph, fr.s, fr'.s);
      ReturnMatched(prog[g].body, at, ph, fr.s, fr'.s);
    }
  }

  lemma ReturnGoesOn(prog: Program, st: Stack, ev: Event, s1: State)
    requires |st| >= 2 && StandsAtReturn(prog, st[|st| - 1]) && st[|st| - 2].fn < |prog|
    requires ev.Called? && ev.result == ReturnValue(prog, st[|st| - 1])
    requires Step(prog[st[|st| - 2].fn].body, st[|st| - 2].s, ev, s1)
    ensures ProgramStep(prog, st, st[..|st| - 2] + [Frame(st[|st| - 2].fn, s1)])
  {
    assert StandsAtCall(prog, st[|st| - 2]);
    assert ReturnsBy(prog, st, st[..|st| - 2] + [Frame(st[|st| - 2].fn, s1)], ev, s1);
  }

  /** The first n frames with a new one on top. */
  lemma Replaced(prog: Program, g: nat, at: Site, st: Stack, st': Stack, n: nat, fr: Frame, fr': Frame)
    requires g < |prog| && Expandable(prog[g].body, at) && StackMatches(prog, g, at, st, st') && n <= |st|
    requires FrameMatches(prog, g, at, fr, fr')
    ensures StackMatches(prog, g, at, st[..n] + [fr], st'[..n] + [fr'])
  {
  }

  lemma MovesMatched(prog: Program, g: nat, at: Site, st: Stack, st': Stack, st1': Stack)
    returns (moved: bool, st1: Stack)
    requires g < |prog| && Expandable(prog[g].body, at) && StackMatches(prog, g, at, st, st')
    requires st' != [] && Running(WithExpansion(prog, g, at), st'[|st'| - 1])
             && Moves(WithExpansion(prog, g, at), st', st1')
    ensures if moved then ProgramStep(prog, st, st1) else st1 == st
    ensures StackMatches(prog, g, at, st1, st1')
  {
    var n, prog' := |st| - 1, WithExpansion(prog, g, at);
    assert FrameMatches(prog, g, at, st[n], st'[n]);
    var ev: Event, s1': State :| !ev.Called? && MayAnswer(ev) && Step(prog'[st'[n].fn].body, st'[n].s, ev, s1')
      && st1' == st'[..n] + [Frame(st'[n].fn, s1')];
    var s1;
    moved, s1 := StepMatched(prog, g, at, st[n], st'[n], ev, s1');
    st1 := st[..n] + [Frame(st[n].fn, s1)];
    Replaced(prog, g, at, st, st', n, Frame(st[n].fn, s1), Frame(st'[n].fn, s1'));
    if !moved { assert st1 == st; }
  }

  /** A step of the expanded program is a step of the original, or none. */
  lemma ProgramStepMatched(prog: Program, g: nat, at: Site, st: Stack, st': Stack, st1': Stack)
    returns (moved: bool, st1: Stack)
    requires g < |prog| && Expandable(prog[g].body, at) && StackMatches(prog, g, at, st, st')
    requires ProgramStep(WithExpansion(prog, g, at), st', st1')
    ensures if moved then ProgramStep(prog, st, st1) else st1 == st
    ensures StackMatches(prog, g, at, st1, st1')
  {
    if StandsAtCall(WithExpansion(prog, g, at), st'[|st'| - 1]) {
      moved := true;
      st1 := CallsMatched(prog, g, at, st, st', st1');
    } else if StandsAtReturn(WithExpansion(prog, g, at), st'[|st'| - 1]) {
      moved := true;
      st1 := ReturnsMatched(prog, g, at, st, st', st1');
    } else {
      moved, st1 := MovesMatched(prog, g, at, st, st', st1');
    }
  }

  lemma StartMatched(prog: Program, g: nat, at: Site, st: Stack)
    requires g < |prog| && Expandable(prog[g].body, at) && Starts(WithExpansion(prog, g, at), st)
    ensures Run(prog, [st]) && StackMatches(prog, g, at, st, st)
  {
    var fr := st[0];
    assert WithExpansion(prog, g, at)[fr.fn].params == prog[fr.fn].params;
    EntryMatches(prog, g, at, fr.fn, fr.s);
    if fr.fn == g { assert |prog[g].body| > 0; }
  }

  lemma {:induction false} PrefixMatched(prog: Program, g: nat, at: Site, run': seq<Stack>, n: nat)
    returns (run: seq<Stack>, st: Stack)
    requires g < |prog| && Expandable(prog[g].body, at) && Run(WithExpansion(prog, g, at), run') && n < |run'|
    ensures Run(prog, run) && st == run[|run| - 1] && StackMatches(prog, g, at, st, run'[n])
  {
    if n == 0 {
      StartMatched(prog, g, at, run'[0]);
      run, st := [run'[0]], run'[0];
    } else {
      var front, last := PrefixMatched(prog, g, at, run', n - 1);
      assert StepsAt(WithExpansion(prog, g, at), run', n - 1);
      var moved, next := ProgramStepMatched(prog, g, at, last, run'[n - 1], run'[n]);
      if moved { RunExtended(prog, front, next); }
      run, st := if moved then front + [next] else front, next;
    }
  }

  /** Every run of the program with the call expanded is matched by a run of the program as it was. */
  lemma ProgramRunsAreMatched(prog: Program, g: nat, at: Site, run': seq<Stack>) returns (run: seq<Stack>)
    requires g < |prog| && Expandable(prog[g].body, at) && Run(WithExpansion(prog, g, at), run')
    ensures Run(prog, run) && StackMatches(prog, g, at, run[|run| - 1], run'[|run'| - 1])
  {
    var st;
    run, st := PrefixMatched(prog, g, at, run', |run'| - 1);
  }

  // ----- The other direction -----

  /** The frame waits for the call of a function to come back. */
  predicate Waits(prog: Program, fr: Frame) { StandsAtCall(prog, fr) && Target(prog, fr).FnAddr? }

  /** The stacks match, and below the top the expanded program waits in its calls too. */
  ghost predicate Follows(prog: Program, g: nat, at: Site, st: Stack, st': Stack)
    requires g < |prog| && Expandable(prog[g].body, at)
  {
    StackMatches(prog, g, at, st, st') && forall k :: 0 <= k < |st'| - 1 ==> Waits(WithExpansion(prog, g, at), st'[k])
  }

  /** If the top of the stack is about to make the expanded call, the callee is listed. */
  ghost predicate ListedHere(prog: Program, g: nat, at: Site, st: Stack)
    requires g < |prog| && Expandable(prog[g].body, at)
  {
    st != [] ==> ListedIn(prog, g, at, st[|st| - 1])
  }

  ghost predicate ListedIn(prog: Program, g: nat, at: Site, fr: Frame)
    requires g < |prog| && Expandable(prog[g].body, at)
  {
    fr.fn == g && AtCall(at, fr.s) && StandsAtCall(prog, fr) && Defined(prog, Target(prog, fr)) ==>
      CalleeListed(prog[g].body, at, fr.s)
  }

  // ----- Catching up -----

  /** n silent steps lead from s to t. */
  ghost predicate Silently(f: Func, s: State, t: State, n: nat)
    decreases n
  {
    if n == 0 then s == t else exists mid :: Step(f, s, Silent, mid) && Silently(f, mid, t, n - 1)
  }

  lemma SilentlyFirst(f: Func, s: State, mid: State, t: State, n: nat)
    requires Step(f, s, Silent, mid) && Silently(f, mid, t, n)
    ensures Silently(f, s, t, n + 1)
  {
  }

  /** The expanded function makes the step of the original, or a silent one that brings it closer. */
  lemma OneStepCloser(f: Func, at: Site, ph: Phase, s: State, s': State, ev: Event, s1: State)
    returns (shared: bool, ph1: Phase, s1': State)
    requires Expandable(f, at) && Corresponds(f, at, ph, s, s') && CalleeListed(f, at, s) && Step(f, s, ev, s1)
    ensures shared ==> Step(Expanded(f, at), s', ev, s1') && Corresponds(f, at, ph1, s1, s1')
    ensures !shared ==> Step(Expanded(f, at), s', Silent, s1') && Corresponds(f, at, ph1, s, s1')
    ensures !shared ==> 0 <= Rank(f, at, ph1, s) < Rank(f, at, ph, s)
  {
    var ev';
    ev', s1' := NeverStuck(f, at, ph, s, s', ev, s1);
    var next;
    ph1, next := StepIsMatched(f, at, ph, s, s', ev', s1');
    shared := Step(f, s, ev', next);
    if shared {
      if ev' == Silent { SilentOrNot(f, s, ev, s1, next); }
      SameEventSameStep(f, s, ev, s1, next);
    }
  }

  /** The expanded function makes silent steps until it can make the step of the original. */
  lemma {:induction false} CatchUp(f: Func, at: Site, ph: Phase, s: State, s': State, ev: Event, s1: State)
    returns (n: nat, now: Phase, t': State, ph1: Phase, s1': State)
    requires Expandable(f, at) && Corresponds(f, at, ph, s, s') && CalleeListed(f, at, s) && Step(f, s, ev, s1)
    ensures Silently(Expanded(f, at), s', t', n) && Corresponds(f, at, now, s, t')
    ensures Step(Expanded(f, at), t', ev, s1') && Corresponds(f, at, ph1, s1, s1')
    decreases Rank(f, at, ph, s)
  {
    var shared;
    shared, ph1, s1' := OneStepCloser(f, at, ph, s, s', ev, s1);
    if shared {
      n, now, t' := 0, ph, s';
    } else {
      var next' := s1';
      var m;
      m, now, t', ph1, s1' := CatchUp(f, at, ph1, s, next', ev, s1);
      n := m + 1;
      SilentlyFirst(Expanded(f, at), s', next', t', m);
    }
  }

  lemma CloserToReturn(f: Func, at: Site, ph: Phase, s: State, s': State) returns (ph1: Phase, s1': State)
    requires Expandable(f, at) && Corresponds(f, at, ph, s, s') && !ph.Outside?
    requires s.b < |f| && s.i == |f[s.b].instrs| && f[s.b].term.Return?
    ensures Step(Expanded(f, at), s', Silent, s1') && Corresponds(f, at, ph1, s, s1')
    ensures 0 <= Rank(f, at, ph1, s) < Rank(f, at, ph, s)
  {
    assert !AtCall(at, s);
    var ev';
    ev', s1' := NeverStuck(f, at, ph, s, s', Silent, s);
    var next;
    ph1, next := StepIsMatched(f, at, ph, s, s', ev', s1');
    assert !Step(f, s, ev', next);
  }

  /** The expanded function makes silent steps until it stands at the return. */
  lemma {:induction false} CatchUpToReturn(f: Func, at: Site, ph: Phase, s: State, s': State)
    returns (n: nat, t': State)
    requires Expandable(f, at) && Corresponds(f, at, ph, s, s')
    requires s.b < |f| && s.i == |f[s.b].instrs| && f[s.b].term.Return?
    ensures Silently(Expanded(f, at), s', t', n) && Corresponds(f, at, Outside, s, t')
    decreases Rank(f, at, ph, s)
  {
    if ph.Outside? {
      n, t' := 0, s';
    } else {
      var ph1, next' := CloserToReturn(f, at, ph, s, s');
      var m;
      m, t' := CatchUpToReturn(f, at, ph1, s, next');
      n := m + 1;
      SilentlyFirst(Expanded(f, at), s', next', t', m);
    }
  }

  lemma ReturnOutside(f: Func, at: Site, s: State, s': State)
    requires Expandable(f, at) && Corresponds(f, at, Outside, s, s') && s.i == |f[s.b].instrs| && f[s.b].term.Return?
    ensures s'.b < |Expanded(f, at)| && s'.i == |Expanded(f, at)[s'.b].instrs| && Expanded(f, at)[s'.b].term.Return?
  {
    if s.b == at.o { MergeHolds(f, at); }
  }

  // ----- Frames that step together -----

  /** The frames can make the same step. */
  ghost predicate StepTogether(prog: Program, g: nat, at: Site, fr: Frame, fr': Frame, ev: Event, s1: State)
    requires g < |prog| && Expandable(prog[g].body, at) && fr'.fn < |prog|
  {
    exists s1' :: StepsAlong(prog, g, at, fr, fr', ev, s1, s1')
  }

  ghost predicate StepsAlong(prog: Program, g: nat, at: Site, fr: Frame, fr': Frame, ev: Event, s1: State, s1': State)
    requires g < |prog| && Expandable(prog[g].body, at) && fr'.fn < |prog|
  {
    Step(WithExpansion(prog, g, at)[fr'.fn].body, fr'.s, ev, s1')
    && FrameMatches(prog, g, at, Frame(fr.fn, s1), Frame(fr'.fn, s1'))
  }

  lemma FrameCatchesUp(prog: Program, g: nat, at: Site, fr: Frame, fr': Frame, ev: Event, s1: State)
    returns (n: nat, t': State)
    requires g < |prog| && Expandable(prog[g].body, at) && FrameMatches(prog, g, at, fr, fr') && fr.fn < |prog|
    requires Step(prog[fr.fn].body, fr.s, ev, s1) && (fr.fn == g ==> CalleeListed(prog[g].body, at, fr.s))
    ensures Silently(WithExpansion(prog, g, at)[fr.fn].body, fr'.s, t', n)
    ensures FrameMatches(prog, g, at, fr, Frame(fr.fn, t')) && StepTogether(prog, g, at, fr, Frame(fr.fn, t'), ev, s1)
  {
    if fr.fn == g {
      var ph :| Corresponds(prog[g].body, at, ph, fr.s, fr'.s);
      var now, ph1, s1';
      n, now, t', ph1, s1' := CatchUp(prog[g].body, at, ph, fr.s, fr'.s, ev, s1);
      assert StepsAlong(prog, g, at, fr, Frame(g, t'), ev, s1, s1');
    } else {
      n, t' := 0, fr'.s;
      assert StepsAlong(prog, g, at, fr, fr', ev, s1, s1);
    }
  }

  lemma FrameComesToReturn(prog: Program, g: nat, at: Site, fr: Frame, fr': Frame) returns (n: nat, t': State)
    requires g < |prog| && Expandable(prog[g].body, at) && FrameMatches(prog, g, at, fr, fr')
             && StandsAtReturn(prog, fr)
    ensures Silently(WithExpansion(prog, g, at)[fr.fn].body, fr'.s, t', n)
    ensures FrameMatches(prog, g, at, fr, Frame(fr.fn, t'))
            && StandsAtReturn(WithExpansion(prog, g, at), Frame(fr.fn, t'))
  {
    if fr.fn == g {
      var ph :| Corresponds(prog[g].body, at, ph, fr.s, fr'.s);
      n, t' := CatchUpToReturn(prog[g].body, at, ph, fr.s, fr'.s);
      ReturnOutside(prog[g].body, at, fr.s, t');
    } else {
      n, t' := 0, fr'.s;
    }
  }

  /** A caller that waits takes the same result. */
  lemma CallerGoesOn(prog: Program, g: nat, at: Site, fr: Frame, fr': Frame, ev: Event, s1: State) returns (s1': State)
    requires g < |prog| && Expandable(prog[g].body, at) && FrameMatches(prog, g, at, fr, fr') && fr.fn < |prog|
    requires Waits(WithExpansion(prog, g, at), fr') && ev.Called? && Step(prog[fr.fn].body, fr.s, ev, s1)
    ensures StepsAlong(prog, g, at, fr, fr', ev, s1, s1')
  {
    if fr.fn == g {
      var f, prog' := prog[g].body, WithExpansion(prog, g, at);
      var ph :| Corresponds(f, at, ph, fr.s, fr'.s);
      var call' := PendingCall(prog', fr');
      var ev' := Called(Target(prog', fr').fn, EvalAll(fr'.s.env, call'.args), ev.result);
      s1' := if call'.isVoid then fr'.s.(i := fr'.s.i + 1) else Set(fr'.s, call'.dest, ev.result);
      var ph1, next := StepIsMatched(f, at, ph, fr.s, fr'.s, ev', s1');
      SameResult(f, fr.s, ev, s1, ev', next);
    } else {
      s1' := s1;
    }
  }

  lemma SameResult(f: Func, s: State, ev: Event, s1: State, ev': Event, s2: State)
    requires Step(f, s, ev, s1) && Step(f, s, ev', s2) && ev.Called? && ev'.Called? && ev.result == ev'.result
    ensures ev == ev' && s1 == s2
  {
  }

  // ----- A step of the original program -----

  function WithTop(st: Stack, fr: Frame): Stack
    requires st != []
  {
    st[..|st| - 1] + [fr]
  }

  /** Before the expanded program follows, the frame on top may make silent steps. */
  ghost predicate CanFollow(prog: Program, g: nat, at: Site, st': Stack, n: nat, now': Stack)
    requires g < |prog| && Expandable(prog[g].body, at)
  {
    && st' != [] && now' != [] && st'[|st'| - 1].fn < |prog| && now' == WithTop(st', now'[|now'| - 1])
    && now'[|now'| - 1].fn == st'[|st'| - 1].fn
    && Silently(WithExpansion(prog, g, at)[st'[|st'| - 1].fn].body, st'[|st'| - 1].s, now'[|now'| - 1].s, n)
  }

  lemma TopReplaced(prog: Program, g: nat, at: Site, st: Stack, st': Stack, fr': Frame)
    requires g < |prog| && Expandable(prog[g].body, at) && Follows(prog, g, at, st, st') && st != []
    requires FrameMatches(prog, g, at, st[|st| - 1], fr')
    ensures Follows(prog, g, at, st, WithTop(st', fr'))
  {
  }

  lemma TopCatchesUp(prog: Program, g: nat, at: Site, st: Stack, st': Stack, ev: Event, s1: State)
    returns (n: nat, now': Stack)
    requires g < |prog| && Expandable(prog[g].body, at) && Follows(prog, g, at, st, st')
    requires st != [] && st[|st| - 1].fn < |prog| && Step(prog[st[|st| - 1].fn].body, st[|st| - 1].s, ev, s1)
    requires st[|st| - 1].fn == g ==> CalleeListed(prog[g].body, at, st[|st| - 1].s)
    ensures CanFollow(prog, g, at, st', n, now') && Follows(prog, g, at, st, now')
    ensures StepTogether(prog, g, at, st[|st| - 1], now'[|now'| - 1], ev, s1)
  {
    var fr, fr' := st[|st| - 1], st'[|st'| - 1];
    assert FrameMatches(prog, g, at, fr, fr');
    var t';
    n, t' := FrameCatchesUp(prog, g, at, fr, fr', ev, s1);
    now' := WithTop(st', Frame(fr.fn, t'));
    TopReplaced(prog, g, at, st, st', Frame(fr.fn, t'));
  }

  lemma TopComesToReturn(prog: Program, g: nat, at: Site, st: Stack, st': Stack) returns (n: nat, now': Stack)
    requires g < |prog| && Expandable(prog[g].body, at) && Follows(prog, g, at, st, st')
    requires st != [] && StandsAtReturn(prog, st[|st| - 1])
    ensures CanFollow(prog, g, at, st', n, now') && Follows(prog, g, at, st, now')
    ensures StandsAtReturn(WithExpansion(prog, g, at), now'[|now'| - 1])
  {
    var fr, fr' := st[|st| - 1], st'[|st'| - 1];
    assert FrameMatches(prog, g, at, fr, fr');
    var t';
    n, t' := FrameComesToReturn(prog, g, at, fr, fr');
    now' := WithTop(st', Frame(fr.fn, t'));
    TopReplaced(prog, g, at, st, st', Frame(fr.fn, t'));
  }

  /** The step itself, made by both. */
  ghost predicate Followed(prog: Program, g: nat, at: Site, st1: Stack, now': Stack, st1': Stack)
    requires g < |prog| && Expandable(prog[g].body, at)
  {
    ProgramStep(WithExpansion(prog, g, at), now', st1') && Follows(prog, g, at, st1, st1')
  }

  lemma MoveOf(prog: Program, st: Stack, ev: Event, s1: State)
    requires st != [] && st[|st| - 1].fn < |prog| && !ev.Called? && MayAnswer(ev)
    requires Step(prog[st[|st| - 1].fn].body, st[|st| - 1].s, ev, s1)
    ensures ProgramStep(prog, st, st[..|st| - 1] + [Frame(st[|st| - 1].fn, s1)])
  {
    var fr := st[|st| - 1];
    assert Running(prog, fr) && !StandsAtCall(prog, fr) && !StandsAtReturn(prog, fr);
  }

  lemma BothMove(prog: Program, g: nat, at: Site, st: Stack, st': Stack, ev: Event, s1: State) returns (st1': Stack)
    requires g < |prog| && Expandable(prog[g].body, at) && Follows(prog, g, at, st, st') && st != []
    requires st'[|st'| - 1].fn < |prog| && StepTogether(prog, g, at, st[|st| - 1], st'[|st'| - 1], ev, s1)
    requires !ev.Called? && MayAnswer(ev)
    ensures Followed(prog, g, at, WithTop(st, Frame(st[|st| - 1].fn, s1)), st', st1')
  {
    var n, fr, fr' := |st| - 1, st[|st| - 1], st'[|st'| - 1];
    var s1' :| StepsAlong(prog, g, at, fr, fr', ev, s1, s1');
    st1' := st'[..n] + [Frame(fr'.fn, s1')];
    MoveOf(WithExpansion(prog, g, at), st', ev, s1');
    Replaced(prog, g, at, st, st', n, Frame(fr.fn, s1), Frame(fr'.fn, s1'));
  }

  lemma NotAtCall(prog: Program, g: nat, at: Site, fr: Frame)
    requires g < |prog| && Expandable(prog[g].body, at) && Running(prog, fr) && !StandsAtCall(prog, fr)
    ensures fr.fn == g ==> CalleeListed(prog[g].body, at, fr.s)
  {
  }

  lemma MoveFollowed(prog: Program, g: nat, at: Site, st: Stack, st1: Stack, st': Stack)
    returns (n: nat, now': Stack, st1': Stack)
    requires g < |prog| && Expandable(prog[g].body, at) && Follows(prog, g, at, st, st')
    requires Stands(prog, st) == Moving && ProgramStep(prog, st, st1)
    ensures CanFollow(prog, g, at, st', n, now') && Followed(prog, g, at, st1, now', st1')
  {
    var fr := st[|st| - 1];
    var ev: Event, s1: State :| !ev.Called? && MayAnswer(ev) && Step(prog[fr.fn].body, fr.s, ev, s1)
      && st1 == st[..|st| - 1] + [Frame(fr.fn, s1)];
    NotAtCall(prog, g, at, fr);
    n, now' := TopCatchesUp(prog, g, at, st, st', ev, s1);
    st1' := BothMove(prog, g, at, st, now', ev, s1);
  }

  /** The event of the call that the frame is about to make, if it came back with 0. */
  function CallEvent(prog: Program, fr: Frame): Event
    requires Waits(prog, fr)
  {
    Called(Target(prog, fr).fn, EvalAll(fr.s.env, PendingCall(prog, fr).args), Num(0))
  }

  lemma CallCanStep(prog: Program, fr: Frame) returns (s1: State)
    requires Waits(prog, fr)
    ensures Step(prog[fr.fn].body, fr.s, CallEvent(prog, fr), s1)
  {
    s1 := if PendingCall(prog, fr).isVoid then fr.s.(i := fr.s.i + 1)
      else Set(fr.s, PendingCall(prog, fr).dest, Num(0));
  }

  /** A frame that can step by a call event stands at that call. */
  lemma CalledStands(prog: Program, fr: Frame, ev: Event, s1: State)
    requires fr.fn < |prog| && ev.Called? && Step(prog[fr.fn].body, fr.s, ev, s1)
    ensures Waits(prog, fr) && Target(prog, fr) == FnAddr(ev.fn)
    ensures EvalAll(fr.s.env, PendingCall(prog, fr).args) == ev.args
  {
  }

  /** Both programs enter the same function with the same arguments. */
  lemma BothEnter(prog: Program, g: nat, at: Site, st: Stack, st1: Stack, st': Stack) returns (st1': Stack)
    requires g < |prog| && Expandable(prog[g].body, at) && Follows(prog, g, at, st, st') && st != []
    requires StandsAtCall(prog, st[|st| - 1]) && Calls(prog, st, st1)
             && Waits(WithExpansion(prog, g, at), st'[|st'| - 1])
    requires Target(WithExpansion(prog, g, at), st'[|st'| - 1]) == Target(prog, st[|st| - 1])
    requires EvalAll(st'[|st'| - 1].s.env, PendingCall(WithExpansion(prog, g, at), st'[|st'| - 1]).args)
             == EvalAll(st[|st| - 1].s.env, PendingCall(prog, st[|st| - 1]).args)
    ensures Followed(prog, g, at, st1, st', st1')
  {
    var fr, prog' := st[|st| - 1], WithExpansion(prog, g, at);
    var h := Target(prog, fr).fn;
    var entered := Frame(h, Entry(prog[h].params, EvalAll(fr.s.env, PendingCall(prog, fr).args)));
    assert prog'[h].params == prog[h].params && prog'[h].body != [];
    st1' := st' + [entered];
    EntryMatches(prog, g, at, h, entered.s);
  }

  lemma BothCall(prog: Program, g: nat, at: Site, st: Stack, st1: Stack, st': Stack, s1: State) returns (st1': Stack)
    requires g < |prog| && Expandable(prog[g].body, at) && Follows(prog, g, at, st, st') && st != []
    requires StandsAtCall(prog, st[|st| - 1]) && Calls(prog, st, st1) && st'[|st'| - 1].fn < |prog|
    requires StepTogether(prog, g, at, st[|st| - 1], st'[|st'| - 1], CallEvent(prog, st[|st| - 1]), s1)
    ensures Followed(prog, g, at, st1, st', st1')
  {
    var ev := CallEvent(prog, st[|st| - 1]);
    var s1' :| StepsAlong(prog, g, at, st[|st| - 1], st'[|st'| - 1], ev, s1, s1');
    CalledStands(WithExpansion(prog, g, at), st'[|st'| - 1], ev, s1');
    st1' := BothEnter(prog, g, at, st, st1, st');
  }

  lemma CallFollowed(prog: Program, g: nat, at: Site, st: Stack, st1: Stack, st': Stack)
    returns (n: nat, now': Stack, st1': Stack)
    requires g < |prog| && Expandable(prog[g].body, at) && Follows(prog, g, at, st, st') && ListedHere(prog, g, at, st)
    requires Stands(prog, st) == Standing.Calling && ProgramStep(prog, st, st1)
    ensures CanFollow(prog, g, at, st', n, now') && Followed(prog, g, at, st1, now', st1')
  {
    var fr := st[|st| - 1];
    var s1 := CallCanStep(prog, fr);
    n, now' := TopCatchesUp(prog, g, at, st, st', CallEvent(prog, fr), s1);
    st1' := BothCall(prog, g, at, st, st1, now', s1);
  }

  lemma BothReturn(prog: Program, g: nat, at: Site, st: Stack, st1: Stack, st': Stack) returns (st1': Stack)
    requires g < |prog| && Expandable(prog[g].body, at) && Follows(prog, g, at, st, st')
    requires Stands(prog, st) == Returning && ProgramStep(prog, st, st1)
    requires StandsAtReturn(WithExpansion(prog, g, at), st'[|st'| - 1])
    ensures Followed(prog, g, at, st1, st', st1')
  {
    var n, prog' := |st| - 2, WithExpansion(prog, g, at);
    assert FrameMatches(prog, g, at, st[n], st'[n]) && FrameMatches(prog, g, at, st[n + 1], st'[n + 1]);
    assert Waits(prog', st'[n]);
    TopReturnMatched(prog, g, at, st[n + 1], st'[n + 1]);
    var ev, s1 :| ReturnsBy(prog, st, st1, ev, s1);
    var s1' := CallerGoesOn(prog, g, at, st[n], st'[n], ev, s1);
    st1' := st'[..n] + [Frame(st'[n].fn, s1')];
    ReturnGoesOn(prog', st', ev, s1');
    Replaced(prog, g, at, st, st', n, Frame(st[n].fn, s1), Frame(st'[n].fn, s1'));
  }

  lemma ReturnFollowed(prog: Program, g: nat, at: Site, st: Stack, st1: Stack, st': Stack)
    returns (n: nat, now': Stack, st1': Stack)
    requires g < |prog| && Expandable(prog[g].body, at) && Follows(prog, g, at, st, st')
    requires Stands(prog, st) == Returning && ProgramStep(prog, st, st1)
    ensures CanFollow(prog, g, at, st', n, now') && Followed(prog, g, at, st1, now', st1')
  {
    n, now' := TopComesToReturn(prog, g, at, st, st');
    st1' := BothReturn(prog, g, at, st, st1, now');
  }

  /** A step of the original program, if it is no call of an unlisted function, is made by the expanded
      program too, after silent steps. */
  lemma ProgramStepFollowed(prog: Program, g: nat, at: Site, st: Stack, st1: Stack, st': Stack)
    returns (n: nat, now': Stack, st1': Stack)
    requires g < |prog| && Expandable(prog[g].body, at) && Follows(prog, g, at, st, st') && ListedHere(prog, g, at, st)
    requires ProgramStep(prog, st, st1)
    ensures CanFollow(prog, g, at, st', n, now') && Followed(prog, g, at, st1, now', st1')
  {
    match Stands(prog, st)
    case Calling => n, now', st1' := CallFollowed(prog, g, at, st, st1, st');
    case Returning => n, now', st1' := ReturnFollowed(prog, g, at, st, st1, st');
    case Moving => n, now', st1' := MoveFollowed(prog, g, at, st, st1, st');
  }

  // ----- A run of the original program -----

  /** Silent steps of the frame on top are steps of the program. */
  lemma {:induction false} SilentRun(prog: Program, run: seq<Stack>, st: Stack, t: State, n: nat)
    returns (more: seq<Stack>)
    requires Run(prog, run) && st == run[|run| - 1] && st != [] && st[|st| - 1].fn < |prog|
    requires Silently(prog[st[|st| - 1].fn].body, st[|st| - 1].s, t, n)
    ensures Run(prog, more) && more[|more| - 1] == WithTop(st, Frame(st[|st| - 1].fn, t))
    decreases n
  {
    if n == 0 {
      more := run;
    } else {
      var fr := st[|st| - 1];
      var mid :| Step(prog[fr.fn].body, fr.s, Silent, mid) && Silently(prog[fr.fn].body, mid, t, n - 1);
      var next := WithTop(st, Frame(fr.fn, mid));
      MoveOf(prog, st, Silent, mid);
      RunExtended(prog, run, next);
      more := SilentRun(prog, run + [next], next, t, n - 1);
    }
  }

  lemma StartFollowed(prog: Program, g: nat, at: Site, st: Stack)
    requires g < |prog| && Expandable(prog[g].body, at) && Starts(prog, st)
    ensures Run(WithExpansion(prog, g, at), [st]) && Follows(prog, g, at, st, st)
  {
    var fr := st[0];
    assert WithExpansion(prog, g, at)[fr.fn].params == prog[fr.fn].params;
    EntryMatches(prog, g, at, fr.fn, fr.s);
  }

  lemma RunFollowed(prog: Program, run: seq<Stack>, st: Stack, n: nat, now: Stack, next: Stack)
    returns (more: seq<Stack>)
    requires Run(prog, run) && st == run[|run| - 1] && st != [] && st[|st| - 1].fn < |prog| && now != []
    requires Silently(prog[st[|st| - 1].fn].body, st[|st| - 1].s, now[|now| - 1].s, n)
    requires now == WithTop(st, Frame(st[|st| - 1].fn, now[|now| - 1].s)) && ProgramStep(prog, now, next)
    ensures Run(prog, more) && more[|more| - 1] == next
  {
    var upTo := SilentRun(prog, run, st, now[|now| - 1].s, n);
    RunExtended(prog, upTo, next);
    more := upTo + [next];
  }

  lemma NextFollowed(prog: Program, g: nat, at: Site, st: Stack, st1: Stack, front': seq<Stack>, st': Stack)
    returns (run': seq<Stack>, st1': Stack)
    requires g < |prog| && Expandable(prog[g].body, at) && Follows(prog, g, at, st, st') && ListedHere(prog, g, at, st)
    requires ProgramStep(prog, st, st1) && Run(WithExpansion(prog, g, at), front') && st' == front'[|front'| - 1]
    ensures Run(WithExpansion(prog, g, at), run') && st1' == run'[|run'| - 1] && Follows(prog, g, at, st1, st1')
  {
    var n, now';
    n, now', st1' := ProgramStepFollowed(prog, g, at, st, st1, st');
    run' := RunFollowed(WithExpansion(prog, g, at), front', st', n, now', st1');
  }

  /** Along the run the expanded call is made to listed functions only. */
  ghost predicate ListedThroughout(prog: Program, g: nat, at: Site, run: seq<Stack>)
    requires g < |prog| && Expandable(prog[g].body, at)
  {
    forall n :: 0 <= n < |run| - 1 ==> ListedHere(prog, g, at, run[n])
  }

  lemma {:induction false} PrefixFollowed(prog: Program, g: nat, at: Site, run: seq<Stack>, n: nat)
    returns (run': seq<Stack>, st': Stack)
    requires g < |prog| && Expandable(prog[g].body, at) && Run(prog, run) && n < |run|
    requires ListedThroughout(prog, g, at, run)
    ensures Run(WithExpansion(prog, g, at), run') && st' == run'[|run'| - 1] && Follows(prog, g, at, run[n], st')
    decreases n
  {
    if n == 0 {
      StartFollowed(prog, g, at, run[0]);
      run', st' := [run[0]], run[0];
    } else {
      var front', last' := PrefixFollowed(prog, g, at, run, n - 1);
      assert StepsAt(prog, run, n - 1) && ListedHere(prog, g, at, run[n - 1]);
      run', st' := NextFollowed(prog, g, at, run[n - 1], run[n], front', last');
    }
  }

  /** Every run of the program that makes the expanded call to listed functions only is a run of the
      program with the call expanded. */
  lemma ProgramRunsAreFollowed(prog: Program, g: nat, at: Site, run: seq<Stack>) returns (run': seq<Stack>)
    requires g < |prog| && Expandable(prog[g].body, at) && Run(prog, run) && ListedThroughout(prog, g, at, run)
    ensures Run(WithExpansion(prog, g, at), run') && StackMatches(prog, g, at, run[|run| - 1], run'[|run'| - 1])
  {
    var st';
    run', st' := PrefixFollowed(prog, g, at, run, |run| - 1);
  }
}
