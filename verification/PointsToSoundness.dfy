/** What a closed set of facts says about runs: a value that holds a function points to it or is
    flagged unknown, as long as no call goes through a flagged value to a function outside its set. */
module PointsToSoundness {
  import opened PointsTo

  // ----- Runs -----

  /** A run-time value is the address of a function or anything else. */
  datatype RunValue = Fn(f: nat) | Data

  type Env = map<(nat, nat), RunValue>

  /** An active call: `entry` are the values at the entry of the current block, which phi
      instructions read, and `prev` the block control came from. */
  datatype Frame = Frame(fn: nat, args: seq<RunValue>, env: Env, entry: Env, prev: nat, b: nat, i: nat)

  type Stack = seq<Frame>

  function Val(p: Program, fr: Frame, env: Env, v: Value): RunValue {
    match v
    case Address(f) => if f < |p| then Fn(f) else Data
    case Formal(g, k) => if g == fr.fn && g < |p| && k < p[g].params && k < |fr.args| then fr.args[k] else Data
    case Result(g, b, i) => if g == fr.fn && (b, i) in env then env[(b, i)] else Data
    case Other => Data
  }

  predicate Running(p: Program, fr: Frame) {
    fr.fn < |p| && fr.b < |p[fr.fn].blocks| && fr.i <= |p[fr.fn].blocks[fr.b].instrs|
  }

  predicate AtInstr(p: Program, fr: Frame) { Running(p, fr) && fr.i < |p[fr.fn].blocks[fr.b].instrs| }

  function InstrOf(p: Program, fr: Frame): Instr
    requires AtInstr(p, fr)
  {
    p[fr.fn].blocks[fr.b].instrs[fr.i]
  }

  function Finish(fr: Frame, r: RunValue): Frame { fr.(env := fr.env[(fr.b, fr.i) := r], i := fr.i + 1) }

  function Enter(p: Program, fr: Frame, args: seq<Value>, h: nat): Frame {
    Frame(h, seq(|args|, k requires 0 <= k < |args| => Val(p, fr, fr.env, args[k])), map[], map[], 0, 0, 0)
  }

  /** The results an instruction other than a call may have.  Memory may hold anything. */
  ghost predicate MayYield(p: Program, fr: Frame, r: RunValue)
    requires AtInstr(p, fr)
  {
    match InstrOf(p, fr)
    case Load => true
    case IntToPtr => true
    case Phi(incoming) => fr.prev in incoming && r == Val(p, fr, fr.entry, incoming[fr.prev])
    case Select(t, f) => r == Val(p, fr, fr.env, t) || r == Val(p, fr, fr.env, f)
    case VarStore(s) => r == Val(p, fr, fr.env, s)
    case BitCast(s) => r == Val(p, fr, fr.env, s)
    case PtrToInt(s) => r == Val(p, fr, fr.env, s)
    case Opaque => r == Data
    case Call(_, _) => false
  }

  ghost predicate Step(p: Program, s: Stack, s': Stack) {
    s != [] && Running(p, s[|s| - 1]) &&
    var rest, fr := s[..|s| - 1], s[|s| - 1];
    if AtInstr(p, fr) then
      if InstrOf(p, fr).Call? then
        var call := InstrOf(p, fr);
        var target := Val(p, fr, fr.env, call.callee);
        target.Fn? && target.f < |p| && |p[target.f].blocks| > 0 && s' == s + [Enter(p, fr, call.args, target.f)]
      else
        exists r :: MayYield(p, fr, r) && s' == rest + [Finish(fr, r)]
    else
      match p[fr.fn].blocks[fr.b].term
      case Jump(targets) =>
        exists t :: t in targets && t < |p[fr.fn].blocks|
          && s' == rest + [fr.(entry := fr.env, prev := fr.b, b := t, i := 0)]
      case Return(v) => Popped(rest, Val(p, fr, fr.env, v), s')
      case ReturnVoid => Popped(rest, Data, s')
  }

  /** The caller goes on with the returned value. */
  ghost predicate Popped(rest: Stack, r: RunValue, s': Stack) {
    rest != [] && s' == rest[|rest| - 1 := Finish(rest[|rest| - 1], r)]
  }

  ghost predicate Starts(p: Program, s: Stack) {
    |s| == 1 && s[0].env == map[] && s[0].entry == map[] && (forall k :: 0 <= k < |s[0].args| ==> s[0].args[k] == Data)
      && Running(p, s[0])
  }

  ghost predicate Run(p: Program, run: seq<Stack>) {
    run != [] && Starts(p, run[0]) && forall k :: 0 <= k < |run| - 1 ==> StepsAt(p, run, k)
  }

  ghost predicate StepsAt(p: Program, run: seq<Stack>, k: nat)
    requires k + 1 < |run|
  {
    Step(p, run[k], run[k + 1])
  }

  // ----- Soundness -----

  ghost predicate Tracked(facts: set<Fact>, v: Value, r: RunValue) {
    r.Fn? ==> Points(v, r.f) in facts || Unknown(v) in facts
  }

  ghost predicate FrameSound(p: Program, facts: set<Fact>, fr: Frame) {
    forall v :: Tracked(facts, v, Val(p, fr, fr.env, v)) && Tracked(facts, v, Val(p, fr, fr.entry, v))
  }

  /** Frame k waits for the call that frame k + 1 executes: what passes between them is copied. */
  ghost predicate Waiting(p: Program, facts: set<Fact>, caller: Frame, callee: Frame) {
    AtInstr(p, caller) && InstrOf(p, caller).Call? && Covered(p, facts, caller, callee.fn)
  }

  /** The arguments and results of a call of h by this instruction are copied. */
  ghost predicate Covered(p: Program, facts: set<Fact>, fr: Frame, h: nat)
    requires AtInstr(p, fr) && InstrOf(p, fr).Call?
  {
    h < |p| && CalleeCopied(p, facts, InstrOf(p, fr).args, fr.fn, fr.b, fr.i, h)
  }

  ghost predicate StackSound(p: Program, facts: set<Fact>, s: Stack) {
    && (forall k :: 0 <= k < |s| ==> FrameSound(p, facts, s[k]))
    && (forall k :: 0 <= k < |s| - 1 ==> Waiting(p, facts, s[k], s[k + 1]))
  }

  /** A call about to be made through a flagged value goes to a function for which arguments and
      results are copied, as they are for every function in the value's set. */
  ghost predicate Resolved(p: Program, facts: set<Fact>, s: Stack) {
    s != [] && AtInstr(p, s[|s| - 1]) && InstrOf(p, s[|s| - 1]).Call? ==>
      var fr := s[|s| - 1];
      var target := Val(p, fr, fr.env, InstrOf(p, fr).callee);
      Unknown(InstrOf(p, fr).callee) in facts && target.Fn? && target.f < |p| && p[target.f].blocks != [] ==>
        Covered(p, facts, fr, target.f)
  }

  lemma ReachedIsCovered(p: Program, facts: set<Fact>, fr: Frame, h: nat)
    requires Closed(p, facts) && AtInstr(p, fr) && InstrOf(p, fr).Call? && Reaches(p, facts, InstrOf(p, fr).callee, h)
    ensures Covered(p, facts, fr, h)
  {
    assert At(p, fr.fn, fr.b, fr.i) && Satisfied(p, facts, fr.fn, fr.b, fr.i);
    forall dest, src | FlowsByCall(p, InstrOf(p, fr).args, fr.fn, fr.b, fr.i, h, dest, src)
      ensures Copied(facts, dest, src)
    {
      assert Flows(p, facts, fr.fn, fr.b, fr.i, dest, src);
    }
  }

  lemma CalleeCovered(p: Program, facts: set<Fact>, fr: Frame, h: nat)
    requires Closed(p, facts) && FrameSound(p, facts, fr) && AtInstr(p, fr) && InstrOf(p, fr).Call?
             && Resolved(p, facts, [fr])
    requires Val(p, fr, fr.env, InstrOf(p, fr).callee) == Fn(h) && h < |p| && p[h].blocks != []
    ensures Covered(p, facts, fr, h)
  {
    assert Tracked(facts, InstrOf(p, fr).callee, Val(p, fr, fr.env, InstrOf(p, fr).callee));
    if Unknown(InstrOf(p, fr).callee) !in facts { ReachedIsCovered(p, facts, fr, h); }
  }

  lemma FinishSound(p: Program, facts: set<Fact>, fr: Frame, r: RunValue)
    requires FrameSound(p, facts, fr) && Tracked(facts, Result(fr.fn, fr.b, fr.i), r)
    ensures FrameSound(p, facts, Finish(fr, r))
  {
    var fr' := Finish(fr, r);
    forall v
      ensures Tracked(facts, v, Val(p, fr', fr'.env, v)) && Tracked(facts, v, Val(p, fr', fr'.entry, v))
    {
      assert Tracked(facts, v, Val(p, fr, fr.env, v)) && Tracked(facts, v, Val(p, fr, fr.entry, v));
      if v != Result(fr.fn, fr.b, fr.i) { assert Val(p, fr', fr'.env, v) == Val(p, fr, fr.env, v); }
    }
  }

  lemma TrackedAlong(facts: set<Fact>, dest: Value, src: Value, r: RunValue)
    requires Copied(facts, dest, src) && Tracked(facts, src, r)
    ensures Tracked(facts, dest, r)
  {
  }

  lemma YieldSound(p: Program, facts: set<Fact>, fr: Frame, r: RunValue)
    requires Closed(p, facts) && FrameSound(p, facts, fr) && AtInstr(p, fr) && MayYield(p, fr, r)
    ensures FrameSound(p, facts, Finish(fr, r))
  {
    var dest := Result(fr.fn, fr.b, fr.i);
    assert At(p, fr.fn, fr.b, fr.i) && Satisfied(p, facts, fr.fn, fr.b, fr.i);
    if InstrOf(p, fr).Phi? {
      var src := InstrOf(p, fr).incoming[fr.prev];
      assert Flows(p, facts, fr.fn, fr.b, fr.i, dest, src);
      TrackedAlong(facts, dest, src, r);
    } else if !InstrOf(p, fr).Load? && !InstrOf(p, fr).IntToPtr? && !InstrOf(p, fr).Opaque? {
      var src :| Flows(p, facts, fr.fn, fr.b, fr.i, dest, src) && r == Val(p, fr, fr.env, src);
      TrackedAlong(facts, dest, src, r);
    }
    FinishSound(p, facts, fr, r);
  }

  lemma EnterSound(p: Program, facts: set<Fact>, fr: Frame, h: nat)
    requires Closed(p, facts) && FrameSound(p, facts, fr) && AtInstr(p, fr) && InstrOf(p, fr).Call?
             && Covered(p, facts, fr, h)
    ensures FrameSound(p, facts, Enter(p, fr, InstrOf(p, fr).args, h))
  {
    var args := InstrOf(p, fr).args;
    forall k | 0 <= k < |args| && k < p[h].params
      ensures Tracked(facts, Formal(h, k), Val(p, fr, fr.env, args[k]))
    {
      assert Tracked(facts, args[k], Val(p, fr, fr.env, args[k]));
      assert FlowsByCall(p, args, fr.fn, fr.b, fr.i, h, Formal(h, k), args[k]);
      TrackedAlong(facts, Formal(h, k), args[k], Val(p, fr, fr.env, args[k]));
    }
    CallSoundIff(p, facts, fr, h);
  }

  /** Every value passed to h is tracked at its formal. */
  ghost predicate ArgsTracked(p: Program, facts: set<Fact>, fr: Frame, args: seq<Value>, h: nat)
    requires h < |p|
  {
    forall k :: 0 <= k < |args| && k < p[h].params ==> Tracked(facts, Formal(h, k), Val(p, fr, fr.env, args[k]))
  }

  /** The frame that a call enters is sound exactly when every value passed is tracked at its formal,
      whether or not the analysis resolved the call. */
  lemma CallSoundIff(p: Program, facts: set<Fact>, fr: Frame, h: nat)
    requires Closed(p, facts) && FrameSound(p, facts, fr) && AtInstr(p, fr) && InstrOf(p, fr).Call? && h < |p|
    ensures FrameSound(p, facts, Enter(p, fr, InstrOf(p, fr).args, h))
            <==> ArgsTracked(p, facts, fr, InstrOf(p, fr).args, h)
  {
    var args := InstrOf(p, fr).args;
    var fr' := Enter(p, fr, args, h);
    if ArgsTracked(p, facts, fr, args, h) {
      forall v
        ensures Tracked(facts, v, Val(p, fr', fr'.env, v)) && Tracked(facts, v, Val(p, fr', fr'.entry, v))
      {
        assert Val(p, fr', fr'.entry, v) == Val(p, fr', fr'.env, v);
        if v.Address? { assert Val(p, fr, fr.env, v) == Val(p, fr', fr'.env, v); }
      }
    }
    if FrameSound(p, facts, fr') {
      forall k | 0 <= k < |args| && k < p[h].params
        ensures Tracked(facts, Formal(h, k), Val(p, fr, fr.env, args[k]))
      {
        assert Val(p, fr', fr'.env, Formal(h, k)) == Val(p, fr, fr.env, args[k]);
      }
    }
  }

  /** The frame that a call, or another instruction, goes on in is sound exactly when the result is
      tracked. */
  lemma FinishSoundIff(p: Program, facts: set<Fact>, fr: Frame, r: RunValue)
    requires FrameSound(p, facts, fr)
    ensures FrameSound(p, facts, Finish(fr, r)) <==> Tracked(facts, Result(fr.fn, fr.b, fr.i), r)
  {
    if Tracked(facts, Result(fr.fn, fr.b, fr.i), r) { FinishSound(p, facts, fr, r); }
    assert Val(p, Finish(fr, r), Finish(fr, r).env, Result(fr.fn, fr.b, fr.i)) == r;
  }

  lemma ReturnSound(p: Program, facts: set<Fact>, caller: Frame, callee: Frame, r: RunValue)
    requires Closed(p, facts) && FrameSound(p, facts, caller) && FrameSound(p, facts, callee)
             && Waiting(p, facts, caller, callee)
    requires Running(p, callee)
    requires var term := p[callee.fn].blocks[callee.b].term;
             if term.Return? then r == Val(p, callee, callee.env, term.val) else r == Data
    ensures FrameSound(p, facts, Finish(caller, r))
  {
    var dest, term := Result(caller.fn, caller.b, caller.i), p[callee.fn].blocks[callee.b].term;
    if term.Return? {
      assert Returns(p[callee.fn], term.val);
      assert FlowsByCall(p, InstrOf(p, caller).args, caller.fn, caller.b, caller.i, callee.fn, dest, term.val);
      TrackedAlong(facts, dest, term.val, r);
    }
    FinishSound(p, facts, caller, r);
  }

  lemma JumpSound(p: Program, facts: set<Fact>, fr: Frame, t: nat)
    requires FrameSound(p, facts, fr)
    ensures FrameSound(p, facts, fr.(entry := fr.env, prev := fr.b, b := t, i := 0))
  {
    var fr' := fr.(entry := fr.env, prev := fr.b, b := t, i := 0);
    forall v
      ensures Tracked(facts, v, Val(p, fr', fr'.env, v)) && Tracked(facts, v, Val(p, fr', fr'.entry, v))
    {
      assert Tracked(facts, v, Val(p, fr, fr.env, v));
      assert Val(p, fr', fr'.env, v) == Val(p, fr, fr.env, v) == Val(p, fr', fr'.entry, v);
    }
  }

  /** Replacing the top frame by another of the same function. */
  lemma TopReplaced(p: Program, facts: set<Fact>, s: Stack, fr: Frame)
    requires s != [] && StackSound(p, facts, s) && FrameSound(p, facts, fr) && fr.fn == s[|s| - 1].fn
    ensures StackSound(p, facts, s[..|s| - 1] + [fr])
  {
    var s' := s[..|s| - 1] + [fr];
    forall k | 0 <= k < |s'| - 1
      ensures Waiting(p, facts, s'[k], s'[k + 1])
    {
      assert Waiting(p, facts, s[k], s[k + 1]);
    }
  }

  lemma PopSound(p: Program, facts: set<Fact>, s: Stack, s': Stack, r: RunValue)
    requires s != [] && StackSound(p, facts, s) && Popped(s[..|s| - 1], r, s')
    requires FrameSound(p, facts, Finish(s[..|s| - 1][|s| - 2], r))
    ensures StackSound(p, facts, s')
  {
    forall k | 0 <= k < |s'| - 1
      ensures Waiting(p, facts, s'[k], s'[k + 1])
    {
      assert Waiting(p, facts, s[k], s[k + 1]);
    }
  }

  lemma StepSound(p: Program, facts: set<Fact>, s: Stack, s': Stack)
    requires Closed(p, facts) && StackSound(p, facts, s) && Step(p, s, s') && Resolved(p, facts, s)
    ensures StackSound(p, facts, s')
  {
    var rest, fr := s[..|s| - 1], s[|s| - 1];
    if AtInstr(p, fr) {
      if InstrOf(p, fr).Call? {
        var h := Val(p, fr, fr.env, InstrOf(p, fr).callee).f;
        CalleeCovered(p, facts, fr, h);
        EnterSound(p, facts, fr, h);
        forall k | 0 <= k < |s'| - 1
          ensures Waiting(p, facts, s'[k], s'[k + 1])
        {
          if k < |s| - 1 { assert Waiting(p, facts, s[k], s[k + 1]); }
        }
      } else {
        var r :| MayYield(p, fr, r) && s' == rest + [Finish(fr, r)];
        YieldSound(p, facts, fr, r);
        TopReplaced(p, facts, s, Finish(fr, r));
      }
    } else {
      match p[fr.fn].blocks[fr.b].term
      case Jump(targets) =>
        var t :| t in targets && t < |p[fr.fn].blocks|
          && s' == rest + [fr.(entry := fr.env, prev := fr.b, b := t, i := 0)];
        JumpSound(p, facts, fr, t);
        TopReplaced(p, facts, s, fr.(entry := fr.env, prev := fr.b, b := t, i := 0));
      case Return(v) => ReturnPops(p, facts, s, s', Val(p, fr, fr.env, v));
      case ReturnVoid => ReturnPops(p, facts, s, s', Data);
    }
  }

  lemma ReturnPops(p: Program, facts: set<Fact>, s: Stack, s': Stack, r: RunValue)
    requires Closed(p, facts) && s != [] && StackSound(p, facts, s) && Popped(s[..|s| - 1], r, s')
    requires Running(p, s[|s| - 1]) && !AtInstr(p, s[|s| - 1])
    requires var fr := s[|s| - 1];
             var term := p[fr.fn].blocks[fr.b].term;
             if term.Return? then r == Val(p, fr, fr.env, term.val) else r == Data
    ensures StackSound(p, facts, s')
  {
    assert Waiting(p, facts, s[|s| - 2], s[|s| - 2 + 1]);
    ReturnSound(p, facts, s[|s| - 2], s[|s| - 1], r);
    PopSound(p, facts, s, s', r);
  }

  lemma {:induction false} RunSound(p: Program, facts: set<Fact>, run: seq<Stack>, n: nat)
    requires Closed(p, facts) && Run(p, run) && n < |run|
    requires forall k :: 0 <= k < n ==> Resolved(p, facts, run[k])
    ensures StackSound(p, facts, run[n])
  {
    if n == 0 {
      StartIsSound(p, facts, run[0]);
    } else {
      RunSound(p, facts, run, n - 1);
      assert StepsAt(p, run, n - 1);
      StepSound(p, facts, run[n - 1], run[n]);
    }
  }

  /** For every call through a flagged value and every function with a body, arguments and results
      are copied. */
  ghost predicate FlaggedCovered(p: Program, facts: set<Fact>) {
    forall g: nat, b: nat, i: nat, h: nat :: FlaggedCall(p, facts, g, b, i) && h < |p| && p[h].blocks != [] ==>
      CalleeCopied(p, facts, p[g].blocks[b].instrs[i].args, g, b, i, h)
  }

  ghost predicate FlaggedCall(p: Program, facts: set<Fact>, g: nat, b: nat, i: nat) {
    At(p, g, b, i) && p[g].blocks[b].instrs[i].Call? && Unknown(p[g].blocks[b].instrs[i].callee) in facts
  }

  lemma CoveredIsResolved(p: Program, facts: set<Fact>, s: Stack)
    requires FlaggedCovered(p, facts)
    ensures Resolved(p, facts, s)
  {
    if s != [] && AtInstr(p, s[|s| - 1]) && InstrOf(p, s[|s| - 1]).Call? {
      var fr := s[|s| - 1];
      if Unknown(InstrOf(p, fr).callee) in facts { assert FlaggedCall(p, facts, fr.fn, fr.b, fr.i); }
    }
  }

  /** When the calls through flagged values are covered, in particular when there are none, every
      value in every run holds only functions of its set, or is flagged. */
  lemma EveryRunIsTracked(p: Program, facts: set<Fact>, run: seq<Stack>, n: nat, k: nat, v: Value, f: nat)
    requires Closed(p, facts) && FlaggedCovered(p, facts) && Run(p, run) && n < |run| && k < |run[n]|
    requires Val(p, run[n][k], run[n][k].env, v) == Fn(f)
    ensures Points(v, f) in facts || Unknown(v) in facts
  {
    forall j | 0 <= j < n ensures Resolved(p, facts, run[j]) { CoveredIsResolved(p, facts, run[j]); }
    RunSound(p, facts, run, n);
    assert FrameSound(p, facts, run[n][k]);
    assert Tracked(facts, v, Fn(f));
  }

  // ----- Exactly when a run is tracked -----

  ghost predicate AllSound(p: Program, facts: set<Fact>, s: Stack) {
    forall k :: 0 <= k < |s| ==> FrameSound(p, facts, s[k])
  }

  /** What a step passes from one function to another is tracked where it arrives. */
  ghost predicate PassedTracked(p: Program, facts: set<Fact>, s: Stack, s': Stack)
    requires Step(p, s, s')
  {
    var fr := s[|s| - 1];
    if AtInstr(p, fr) then
      InstrOf(p, fr).Call? ==> ArgsTracked(p, facts, fr, InstrOf(p, fr).args,
        Val(p, fr, fr.env, InstrOf(p, fr).callee).f)
    else
      match p[fr.fn].blocks[fr.b].term
      case Jump(_) => true
      case Return(v) =>
        var caller := s[|s| - 2]; Tracked(facts, Result(caller.fn, caller.b, caller.i), Val(p, fr, fr.env, v))
      case ReturnVoid => true
  }

  ghost predicate PassedAt(p: Program, facts: set<Fact>, run: seq<Stack>, k: nat)
    requires k + 1 < |run|
  {
    Step(p, run[k], run[k + 1]) && PassedTracked(p, facts, run[k], run[k + 1])
  }

  lemma PoppedSoundIff(p: Program, facts: set<Fact>, s: Stack, s': Stack, r: RunValue)
    requires s != [] && AllSound(p, facts, s) && Popped(s[..|s| - 1], r, s')
    ensures |s| >= 2 && (AllSound(p, facts, s')
            <==> Tracked(facts, Result(s[|s| - 2].fn, s[|s| - 2].b, s[|s| - 2].i), r))
  {
    FinishSoundIff(p, facts, s[|s| - 2], r);
    assert s'[|s| - 2] == Finish(s[|s| - 2], r);
  }

  /** A step from a sound stack leads to a sound one exactly when what it passes between functions is
      tracked. */
  lemma StepSoundIff(p: Program, facts: set<Fact>, s: Stack, s': Stack)
    requires Closed(p, facts) && AllSound(p, facts, s) && Step(p, s, s')
    ensures AllSound(p, facts, s') <==> PassedTracked(p, facts, s, s')
  {
    var rest, fr := s[..|s| - 1], s[|s| - 1];
    if AtInstr(p, fr) {
      if InstrOf(p, fr).Call? {
        var h := Val(p, fr, fr.env, InstrOf(p, fr).callee).f;
        CallSoundIff(p, facts, fr, h);
        assert s'[|s|] == Enter(p, fr, InstrOf(p, fr).args, h);
      } else {
        var r :| MayYield(p, fr, r) && s' == rest + [Finish(fr, r)];
        YieldSound(p, facts, fr, r);
      }
    } else {
      match p[fr.fn].blocks[fr.b].term
      case Jump(targets) =>
        var t :| t in targets && t < |p[fr.fn].blocks|
          && s' == rest + [fr.(entry := fr.env, prev := fr.b, b := t, i := 0)];
        JumpSound(p, facts, fr, t);
      case Return(v) => PoppedSoundIff(p, facts, s, s', Val(p, fr, fr.env, v));
      case ReturnVoid => PoppedSoundIff(p, facts, s, s', Data);
    }
  }

  lemma StartIsSound(p: Program, facts: set<Fact>, s: Stack)
    requires Closed(p, facts) && Starts(p, s)
    ensures AllSound(p, facts, s)
  {
    var fr := s[0];
    forall v
      ensures Tracked(facts, v, Val(p, fr, fr.env, v)) && Tracked(facts, v, Val(p, fr, fr.entry, v))
    {
      if v.Address? && v.fn < |p| { assert Points(v, v.fn) in Initial(p); }
    }
  }

  lemma {:induction false} PassedIsSound(p: Program, facts: set<Fact>, run: seq<Stack>, n: nat)
    requires Closed(p, facts) && Run(p, run) && n < |run|
    requires forall k :: 0 <= k < n ==> PassedAt(p, facts, run, k)
    ensures AllSound(p, facts, run[n])
  {
    if n == 0 {
      StartIsSound(p, facts, run[0]);
    } else {
      PassedIsSound(p, facts, run, n - 1);
      assert PassedAt(p, facts, run, n - 1);
      StepSoundIff(p, facts, run[n - 1], run[n]);
    }
  }

  /** A run is tracked throughout exactly when everything passed to and returned from a function is
      tracked where it arrives: only calls and returns can go wrong. */
  lemma RunIsTrackedIff(p: Program, facts: set<Fact>, run: seq<Stack>)
    requires Closed(p, facts) && Run(p, run)
    ensures (forall n :: 0 <= n < |run| ==> AllSound(p, facts, run[n])) <==>
            forall k :: 0 <= k < |run| - 1 ==> PassedAt(p, facts, run, k)
  {
    if forall n :: 0 <= n < |run| ==> AllSound(p, facts, run[n]) {
      forall k | 0 <= k < |run| - 1
        ensures PassedAt(p, facts, run, k)
      {
        assert StepsAt(p, run, k);
        StepSoundIff(p, facts, run[k], run[k + 1]);
      }
    } else {
      var n :| 0 <= n < |run| && !AllSound(p, facts, run[n]);
      if forall k :: 0 <= k < |run| - 1 ==> PassedAt(p, facts, run, k) {
        PassedIsSound(p, facts, run, n);
      }
    }
  }

  // ----- Annotations -----

  /** An indirect call that is executed is annotated, and goes to one of the listed callees or is
      marked unknown. */
  lemma CalleeIsAnnotated(p: Program, facts: set<Fact>, run: seq<Stack>, n: nat, f: nat)
    requires Closed(p, facts) && Run(p, run) && n < |run| && run[n] != []
    requires forall j :: 0 <= j < n ==> Resolved(p, facts, run[j])
    requires var fr := run[n][|run[n]| - 1];
             AtInstr(p, fr) && InstrOf(p, fr).Call? && Val(p, fr, fr.env, InstrOf(p, fr).callee) == Fn(f)
    ensures var fr := run[n][|run[n]| - 1];
            var a := AnnotationOf(facts, InstrOf(p, fr).callee);
            a.PossibleCallees? && (f in a.known || a.unknown)
  {
    var k := |run[n]| - 1;
    var fr := run[n][k];
    RunSound(p, facts, run, n);
    assert FrameSound(p, facts, fr);
    var callee := InstrOf(p, fr).callee;
    assert Tracked(facts, callee, Val(p, fr, fr.env, callee));
  }

  // ----- What flagged callees cost -----

  /** main loads a pointer and calls it with the address of function 1. */
  function LoadAndCall(): Program {
    [Func(0, [Block([Load, Call(Result(0, 0, 0), [Address(1)])], ReturnVoid)]), Func(1, [Block([], ReturnVoid)])]
  }

  function LoadAndCallFacts(): set<Fact> { {Points(Address(0), 0), Points(Address(1), 1), Unknown(Result(0, 0, 0))} }

  lemma LoadAndCallIsLeast()
    ensures Least(LoadAndCall(), LoadAndCallFacts())
  {
    var p, facts := LoadAndCall(), LoadAndCallFacts();
    forall other | Closed(p, other)
      ensures facts <= other
    {
      assert At(p, 0, 0, 0) && Satisfied(p, other, 0, 0, 0);
      assert Points(Address(0), 0) in Initial(p) && Points(Address(1), 1) in Initial(p);
    }
    forall g, b, i | At(p, g, b, i)
      ensures Satisfied(p, facts, g, b, i)
    {
      assert g == 0 && b == 0;
    }
  }

  /** The load finds the address of function 1 itself: its formal then holds a function that is
      neither in the formal's set nor excused by a flag. */
  lemma FlaggedCalleeEscapes() returns (run: seq<Stack>)
    ensures Least(LoadAndCall(), LoadAndCallFacts()) && Run(LoadAndCall(), run) && |run| == 3 && |run[2]| == 2
    ensures Val(LoadAndCall(), run[2][1], run[2][1].env, Formal(1, 0)) == Fn(1)
    ensures Points(Formal(1, 0), 1) !in LoadAndCallFacts() && Unknown(Formal(1, 0)) !in LoadAndCallFacts()
  {
    LoadAndCallIsLeast();
    var p := LoadAndCall();
    var start := Frame(0, [], map[], map[], 0, 0, 0);
    var loaded := Finish(start, Fn(1));
    var called := Enter(p, loaded, [Address(1)], 1);
    run := [[start], [loaded], [loaded, called]];
    assert MayYield(p, start, Fn(1)) && [start][..0] + [loaded] == [loaded];
    assert StepsAt(p, run, 0);
    assert InstrOf(p, loaded).Call? && Val(p, loaded, loaded.env, Result(0, 0, 0)) == Fn(1);
    assert StepsAt(p, run, 1);
  }
}
