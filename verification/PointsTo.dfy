/** Which functions a value may hold: inclusion constraints over the instructions of a program,
    where the constraints of an indirect call appear as its callees are discovered. */
module PointsTo {

  // ----- Programs -----

  /** `Address` is a function used as a value, `Result` the value of an instruction (function,
      block, index), `Other` any constant that is not a function. */
  datatype Value = Address(fn: nat) | Formal(fn: nat, index: nat) | Result(fn: nat, block: nat, index: nat) | Other

  /** `VarStore` is a call to __pom_var_store, which returns its first argument.  `Opaque` stands
      for instructions whose result is not a pointer. */
  datatype Instr =
    | Load
    | Phi(incoming: map<nat, Value>)
    | Select(onTrue: Value, onFalse: Value)
    | VarStore(src: Value)
    | Call(callee: Value, args: seq<Value>)
    | BitCast(src: Value)
    | IntToPtr
    | PtrToInt(src: Value)
    | Opaque

  datatype Terminator = Jump(targets: seq<nat>) | Return(val: Value) | ReturnVoid

  datatype Block = Block(instrs: seq<Instr>, term: Terminator)

  datatype Func = Func(params: nat, blocks: seq<Block>)

  type Program = seq<Func>

  predicate At(p: Program, g: int, b: int, i: int) {
    0 <= g < |p| && 0 <= b < |p[g].blocks| && 0 <= i < |p[g].blocks[b].instrs|
  }

  /** Only functions of the program have their address taken. */
  ghost predicate AddressesExist(p: Program, v: Value) { v.Address? ==> v.fn < |p| }

  ghost predicate WellFormed(p: Program) {
    forall g, b, i ::
      At(p, g, b, i) && p[g].blocks[b].instrs[i].Call? ==> AddressesExist(p, p[g].blocks[b].instrs[i].callee)
  }

  // ----- Constraints -----

  datatype Fact = Points(v: Value, fn: nat) | Unknown(v: Value)

  /** Everything known of src is known of dest. */
  ghost predicate Copied(facts: set<Fact>, dest: Value, src: Value) {
    && (forall f :: Points(src, f) in facts ==> Points(dest, f) in facts)
    && (Unknown(src) in facts ==> Unknown(dest) in facts)
  }

  /** The functions a call may reach: the one it names, or those its operand points to. */
  ghost predicate Reaches(p: Program, facts: set<Fact>, callee: Value, g: nat) {
    g < |p| && if callee.Address? then g == callee.fn else Points(callee, g) in facts
  }

  /** src flows to dest by the instruction at (g, b, i). */
  ghost predicate Flows(p: Program, facts: set<Fact>, g: nat, b: nat, i: nat, dest: Value, src: Value)
    requires At(p, g, b, i)
  {
    match p[g].blocks[b].instrs[i]
    case Phi(incoming) => dest == Result(g, b, i) && src in incoming.Values
    case Select(t, f) => dest == Result(g, b, i) && (src == t || src == f)
    case VarStore(s) => dest == Result(g, b, i) && src == s
    case BitCast(s) => dest == Result(g, b, i) && src == s
    case PtrToInt(s) => dest == Result(g, b, i) && src == s
    case Call(callee, args) => exists h :: Reaches(p, facts, callee, h) && FlowsByCall(p, args, g, b, i, h, dest, src)
    case _ => false
  }

  /** Arguments to formals, returned values to the result. */
  ghost predicate FlowsByCall(p: Program, args: seq<Value>, g: nat, b: nat, i: nat, h: nat, dest: Value, src: Value)
    requires h < |p|
  {
    || (exists k :: 0 <= k < |args| && k < p[h].params && dest == Formal(h, k) && src == args[k])
    || (dest == Result(g, b, i) && Returns(p[h], src))
  }

  ghost predicate Returns(f: Func, v: Value) { exists b :: 0 <= b < |f.blocks| && f.blocks[b].term == Return(v) }

  ghost predicate Satisfied(p: Program, facts: set<Fact>, g: nat, b: nat, i: nat)
    requires At(p, g, b, i)
  {
    && (forall dest, src :: Flows(p, facts, g, b, i, dest, src) ==> Copied(facts, dest, src))
    && (p[g].blocks[b].instrs[i].Load? || p[g].blocks[b].instrs[i].IntToPtr? ==> Unknown(Result(g, b, i)) in facts)
  }

  ghost function Initial(p: Program): set<Fact> { set f | 0 <= f < |p| :: Points(Address(f), f) }

  ghost predicate Closed(p: Program, facts: set<Fact>) {
    Initial(p) <= facts && forall g, b, i :: At(p, g, b, i) ==> Satisfied(p, facts, g, b, i)
  }

  /** Closed, and contained in everything that is. */
  ghost predicate Least(p: Program, facts: set<Fact>) {
    Closed(p, facts) && forall other :: Closed(p, other) ==> facts <= other
  }

  lemma FlowsGrow(p: Program, small: set<Fact>, large: set<Fact>, g: nat, b: nat, i: nat, dest: Value, src: Value)
    requires At(p, g, b, i) && small <= large && Flows(p, small, g, b, i, dest, src)
    ensures Flows(p, large, g, b, i, dest, src)
  {
    if p[g].blocks[b].instrs[i].Call? {
      var call := p[g].blocks[b].instrs[i];
      var h :| Reaches(p, small, call.callee, h) && FlowsByCall(p, call.args, g, b, i, h, dest, src);
      assert Reaches(p, large, call.callee, h);
    }
  }

  // ----- A bound on what can be derived -----

  ghost function Everything(p: Program): set<Fact> {
    Initial(p)
    + (set g, k, f | 0 <= g < |p| && 0 <= k < p[g].params && 0 <= f < |p| :: Points(Formal(g, k), f))
    + (set g, k | 0 <= g < |p| && 0 <= k < p[g].params :: Unknown(Formal(g, k)))
    + (set g, b, i, f | 0 <= g < |p| && 0 <= b < |p[g].blocks| && 0 <= i < |p[g].blocks[b].instrs|
      && 0 <= f < |p| :: Points(Result(g, b, i), f))
    + (set g, b, i | 0 <= g < |p| && 0 <= b < |p[g].blocks|
      && 0 <= i < |p[g].blocks[b].instrs| :: Unknown(Result(g, b, i)))
  }

  lemma EverythingIsClosed(p: Program)
    ensures Closed(p, Everything(p))
  {
    var all := Everything(p);
    forall g, b, i | At(p, g, b, i)
      ensures Satisfied(p, all, g, b, i)
    {
      forall dest, src | Flows(p, all, g, b, i, dest, src)
        ensures Copied(all, dest, src)
      {
        assert dest == Result(g, b, i) || (dest.Formal? && dest.fn < |p| && dest.index < p[dest.fn].params);
        assert forall f: nat :: Points(src, f) in all ==> f < |p|;
      }
    }
  }

  // ----- The iteration -----

  /** A step of the iteration adds only what every closed set contains. */
  ghost predicate Grown(p: Program, before: set<Fact>, after: set<Fact>, changed: bool) {
    && before <= after && (changed <==> before != after)
    && forall other :: Closed(p, other) && before <= other ==> after <= other
  }

  lemma GrownTwice(p: Program, a: set<Fact>, b: set<Fact>, c: set<Fact>, changed1: bool, changed2: bool)
    requires Grown(p, a, b, changed1) && Grown(p, b, c, changed2)
    ensures Grown(p, a, c, changed1 || changed2)
  {
  }

  ghost function Moved(facts: set<Fact>, dest: Value, src: Value): set<Fact> {
    (set x | x in facts && x.Points? && x.v == src :: Points(dest, x.fn))
      + (if Unknown(src) in facts then {Unknown(dest)} else {})
  }

  ghost function PointsAll(dest: Value, fs: set<nat>): set<Fact> { set f | f in fs :: Points(dest, f) }

  lemma MovedInParts(facts: set<Fact>, dest: Value, src: Value, fs: set<nat>)
    requires forall f :: f in fs <==> Points(src, f) in facts
    ensures Moved(facts, dest, src) == PointsAll(dest, fs) + if Unknown(src) in facts then {Unknown(dest)} else {}
  {
    forall x | x in facts && x.Points? && x.v == src
      ensures Points(dest, x.fn) in PointsAll(dest, fs)
    {
      assert Points(src, x.fn) in facts;
    }
  }

  lemma MovedIsGrown(p: Program, facts: set<Fact>, g: nat, b: nat, i: nat, dest: Value, src: Value)
    requires At(p, g, b, i) && Flows(p, facts, g, b, i, dest, src)
    ensures Grown(p, facts, facts + Moved(facts, dest, src), facts != facts + Moved(facts, dest, src))
    ensures Copied(facts + Moved(facts, dest, src), dest, src)
  {
    forall other | Closed(p, other) && facts <= other
      ensures facts + Moved(facts, dest, src) <= other
    {
      FlowsGrow(p, facts, other, g, b, i, dest, src);
      assert Satisfied(p, other, g, b, i);
      assert Copied(other, dest, src);
    }
  }

  // ----- Annotations -----

  /** The callees a call is annotated with; `unknown` stands for the entry "???". */
  datatype Annotation = None | PossibleCallees(known: set<nat>, unknown: bool)

  /** What is known of a called value: nothing at all, or exactly the functions it points to, with the
      mark if it is flagged. */
  ghost function AnnotationOf(facts: set<Fact>, callee: Value): (a: Annotation)
    ensures a.None? <==> (forall h :: Points(callee, h) !in facts) && Unknown(callee) !in facts
    ensures a.PossibleCallees? ==> (a.unknown <==> Unknown(callee) in facts)
    ensures a.PossibleCallees? ==> forall h :: h in a.known <==> Points(callee, h) in facts
  {
    var known := set x | x in facts && x.Points? && x.v == callee :: x.fn;
    assert forall h :: Points(callee, h) in facts ==> Points(callee, h).fn in known;
    if known == {} && Unknown(callee) !in facts then None else PossibleCallees(known, Unknown(callee) in facts)
  }

  predicate IsCast(p: Program, v: Value) {
    v.Result? && At(p, v.fn, v.block, v.index) && p[v.fn].blocks[v.block].instrs[v.index].BitCast?
  }

  function CastOf(p: Program, v: Value): Value
    requires IsCast(p, v)
  {
    p[v.fn].blocks[v.block].instrs[v.index].src
  }

  /** Back from v through at most k casts. */
  ghost function Back(p: Program, v: Value, k: nat): Value
    decreases k
  {
    if k == 0 then v else
      var w := Back(p, v, k - 1);
      if IsCast(p, w) then CastOf(p, w) else w
  }

  /** v is a function, seen through casts of pointers. */
  ghost predicate IsFunction(p: Program, v: Value) { exists k: nat :: Back(p, v, k).Address? }

  lemma {:induction false} StaysPut(p: Program, v: Value, n: nat, k: nat)
    requires n <= k && !IsCast(p, Back(p, v, n))
    ensures Back(p, v, k) == Back(p, v, n)
    decreases k
  {
    if n < k { StaysPut(p, v, n, k - 1); }
  }

  /** In a circle of casts there is no function. */
  lemma {:induction false} CircleStays(p: Program, circle: set<Value>, v: Value, k: nat)
    requires v in circle && forall x :: x in circle ==> IsCast(p, x) && CastOf(p, x) in circle
    ensures Back(p, v, k) in circle
    decreases k
  {
    if k > 0 { CircleStays(p, circle, v, k - 1); }
  }

  /** Going back from v has passed the casts in `seen` in n steps. */
  ghost predicate Passed(p: Program, v: Value, seen: set<Value>, n: nat) {
    && (forall k: nat :: k < n ==> Back(p, v, k) in seen)
    && (forall x :: x in seen ==> IsCast(p, x) && (CastOf(p, x) in seen || CastOf(p, x) == Back(p, v, n)))
  }

  lemma PassedNext(p: Program, v: Value, seen: set<Value>, n: nat)
    requires Passed(p, v, seen, n) && IsCast(p, Back(p, v, n))
    ensures Passed(p, v, seen + {Back(p, v, n)}, n + 1) && Back(p, v, n + 1) == CastOf(p, Back(p, v, n))
    ensures Back(p, v, n) in Places(p)
  {
  }

  lemma PassedDecides(p: Program, v: Value, seen: set<Value>, n: nat)
    requires Passed(p, v, seen, n) && (!IsCast(p, Back(p, v, n)) || Back(p, v, n) in seen)
    ensures Back(p, v, n).Address? <==> IsFunction(p, v)
  {
    if k: nat :| Back(p, v, k).Address? {
      if Back(p, v, n) in seen {
        CircleStays(p, seen, v, k);
      } else if n <= k {
        StaysPut(p, v, n, k);
      }
    }
  }

  ghost function Places(p: Program): set<Value> {
    set g, b, i | 0 <= g < |p| && 0 <= b < |p[g].blocks| && 0 <= i < |p[g].blocks[b].instrs| :: Result(g, b, i)
  }

  /** A call of a function by its name gets no annotation. */
  ghost function CallAnnotation(p: Program, facts: set<Fact>, callee: Value): Annotation {
    if IsFunction(p, callee) then None else AnnotationOf(facts, callee)
  }

  /** The call at this place is annotated: it does not name its function, and something is known. */
  ghost predicate Annotated(p: Program, facts: set<Fact>, k: (nat, nat, nat)) {
    && At(p, k.0, k.1, k.2) && p[k.0].blocks[k.1].instrs[k.2].Call?
    && var callee := p[k.0].blocks[k.1].instrs[k.2].callee;
    !IsFunction(p, callee) && ((exists h :: Points(callee, h) in facts) || Unknown(callee) in facts)
  }

  ghost function NoteAt(p: Program, facts: set<Fact>, k: (nat, nat, nat)): (a: Annotation)
    requires Annotated(p, facts, k)
    ensures a == CallAnnotation(p, facts, p[k.0].blocks[k.1].instrs[k.2].callee) && a.PossibleCallees?
  {
    AnnotationOf(facts, p[k.0].blocks[k.1].instrs[k.2].callee)
  }

  /** What is still satisfied at (g, b, i) for the flows of one callee. */
  ghost predicate CalleeCopied(p: Program, facts: set<Fact>, args: seq<Value>, g: nat, b: nat, i: nat, h: nat)
    requires h < |p|
  {
    forall dest, src :: FlowsByCall(p, args, g, b, i, h, dest, src) ==> Copied(facts, dest, src)
  }

  class FuncPtrPass {
    const p: Program
    var pointsToSets: map<Value, set<nat>>
    var hasUnknownSource: set<Value>

    ghost function Facts(): set<Fact>
      reads this
    {
      (set v, f | v in pointsToSets && f in pointsToSets[v] :: Points(v, f))
        + (set v | v in hasUnknownSource :: Unknown(v))
    }

    constructor (p: Program)
      ensures this.p == p && Facts() == {}
    {
      this.p := p;
      pointsToSets, hasUnknownSource := map[], {};
    }

    function PointsToSet(v: Value): (fs: set<nat>)
      reads this
      ensures forall f :: f in fs <==> Points(v, f) in Facts()
    {
      if v in pointsToSets then pointsToSets[v] else {}
    }

    method AddPoints(v: Value, f: nat) returns (changed: bool)
      modifies this
      ensures Facts() == old(Facts()) + {Points(v, f)} && (changed <==> Points(v, f) !in old(Facts()))
      ensures hasUnknownSource == old(hasUnknownSource)
    {
      changed := f !in PointsToSet(v);
      if changed { pointsToSets := pointsToSets[v := PointsToSet(v) + {f}]; }
    }

    method AddUnknown(v: Value) returns (changed: bool)
      modifies this
      ensures Facts() == old(Facts()) + {Unknown(v)} && (changed <==> Unknown(v) !in old(Facts()))
    {
      changed := v !in hasUnknownSource;
      hasUnknownSource := hasUnknownSource + {v};
    }

    /** dest gets everything from src. */
    method MoveAll(dest: Value, src: Value) returns (changed: bool)
      modifies this
      ensures Facts() == old(Facts()) + Moved(old(Facts()), dest, src) && (changed <==> Facts() != old(Facts()))
    {
      MovedInParts(Facts(), dest, src, PointsToSet(src));
      var unknown := src in hasUnknownSource;
      changed := AddAllPoints(dest, PointsToSet(src));
      if unknown {
        var added := AddUnknown(dest);
        changed := changed || added;
      }
    }

    method AddAllPoints(dest: Value, fs: set<nat>) returns (changed: bool)
      modifies this
      ensures Facts() == old(Facts()) + PointsAll(dest, fs) && (changed <==> Facts() != old(Facts()))
      ensures hasUnknownSource == old(hasUnknownSource)
    {
      changed := false;
      var rest, done: set<nat> := fs, {};
      while rest != {}
        invariant done + rest == fs && hasUnknownSource == old(hasUnknownSource)
        invariant Facts() == old(Facts()) + PointsAll(dest, done)
        invariant changed <==> Facts() != old(Facts())
      {
        var f :| f in rest;
        assert PointsAll(dest, done + {f}) == PointsAll(dest, done) + {Points(dest, f)};
        var added := AddPoints(dest, f);
        changed := changed || added;
        rest, done := rest - {f}, done + {f};
      }
      assert done == fs;
    }

    method Merge(dest: Value, src: Value, ghost g: nat, ghost b: nat, ghost i: nat) returns (changed: bool)
      requires At(p, g, b, i) && Flows(p, Facts(), g, b, i, dest, src)
      modifies this
      ensures Grown(p, old(Facts()), Facts(), changed) && Copied(Facts(), dest, src)
    {
      MovedIsGrown(p, Facts(), g, b, i, dest, src);
      changed := MoveAll(dest, src);
    }

    /** Merges every one of srcs into the result of the instruction. */
    method MergeAll(g: nat, b: nat, i: nat, srcs: set<Value>) returns (changed: bool)
      requires At(p, g, b, i) && p[g].blocks[b].instrs[i].Phi? && srcs == p[g].blocks[b].instrs[i].incoming.Values
      modifies this
      ensures Grown(p, old(Facts()), Facts(), changed) && (!changed ==> Satisfied(p, Facts(), g, b, i))
    {
      changed := false;
      var rest := srcs;
      while rest != {}
        invariant rest <= srcs && Grown(p, old(Facts()), Facts(), changed)
        invariant !changed ==> forall src :: src in srcs - rest ==> Copied(Facts(), Result(g, b, i), src)
      {
        var src :| src in rest;
        ghost var before := Facts();
        var merged := Merge(Result(g, b, i), src, g, b, i);
        GrownTwice(p, old(Facts()), before, Facts(), changed, merged);
        changed, rest := changed || merged, rest - {src};
      }
    }

    /** Propagates actual arguments to formal parameters. */
    method PropagateArguments(g: nat, b: nat, i: nat, callee: Value, args: seq<Value>, h: nat) returns (changed: bool)
      requires At(p, g, b, i) && p[g].blocks[b].instrs[i] == Call(callee, args) && Reaches(p, Facts(), callee, h)
      modifies this
      ensures Grown(p, old(Facts()), Facts(), changed)
      ensures !changed ==> forall k :: 0 <= k < |args| && k < p[h].params ==> Copied(Facts(), Formal(h, k), args[k])
    {
      changed := false;
      var limit := if |args| < p[h].params then |args| else p[h].params;
      for k := 0 to limit
        invariant Grown(p, old(Facts()), Facts(), changed)
        invariant !changed ==> forall j :: 0 <= j < k ==> Copied(Facts(), Formal(h, j), args[j])
      {
        ghost var before := Facts();
        assert Reaches(p, Facts(), callee, h) && FlowsByCall(p, args, g, b, i, h, Formal(h, k), args[k]);
        var merged := Merge(Formal(h, k), args[k], g, b, i);
        GrownTwice(p, old(Facts()), before, Facts(), changed, merged);
        changed := changed || merged;
      }
    }

    /** Propagates the values that the callee returns to the call. */
    method PropagateReturn(g: nat, b: nat, i: nat, callee: Value, args: seq<Value>, h: nat) returns (changed: bool)
      requires At(p, g, b, i) && p[g].blocks[b].instrs[i] == Call(callee, args) && Reaches(p, Facts(), callee, h)
      modifies this
      ensures Grown(p, old(Facts()), Facts(), changed)
      ensures !changed ==> forall src :: Returns(p[h], src) ==> Copied(Facts(), Result(g, b, i), src)
    {
      changed := false;
      for c := 0 to |p[h].blocks|
        invariant Grown(p, old(Facts()), Facts(), changed)
        invariant !changed ==> forall d ::
                  0 <= d < c && p[h].blocks[d].term.Return? ==>
                    Copied(Facts(), Result(g, b, i), p[h].blocks[d].term.val)
      {
        if p[h].blocks[c].term.Return? {
          ghost var before := Facts();
          assert Returns(p[h], p[h].blocks[c].term.val);
          assert Reaches(p, Facts(), callee, h)
                 && FlowsByCall(p, args, g, b, i, h, Result(g, b, i), p[h].blocks[c].term.val);
          var merged := Merge(Result(g, b, i), p[h].blocks[c].term.val, g, b, i);
          GrownTwice(p, old(Facts()), before, Facts(), changed, merged);
          changed := changed || merged;
        }
      }
    }

    method PropagateCallee(g: nat, b: nat, i: nat, callee: Value, args: seq<Value>, h: nat) returns (changed: bool)
      requires At(p, g, b, i) && p[g].blocks[b].instrs[i] == Call(callee, args) && Reaches(p, Facts(), callee, h)
      modifies this
      ensures Grown(p, old(Facts()), Facts(), changed) && (!changed ==> CalleeCopied(p, Facts(), args, g, b, i, h))
    {
      var c1 := PropagateArguments(g, b, i, callee, args, h);
      ghost var before := Facts();
      var c2 := PropagateReturn(g, b, i, callee, args, h);
      GrownTwice(p, old(Facts()), before, Facts(), c1, c2);
      changed := c1 || c2;
    }

    method PropagateCall(g: nat, b: nat, i: nat) returns (changed: bool)
      requires At(p, g, b, i) && p[g].blocks[b].instrs[i].Call? && Initial(p) <= Facts() <= Everything(p)
               && WellFormed(p)
      modifies this
      ensures Grown(p, old(Facts()), Facts(), changed) && (!changed ==> Satisfied(p, Facts(), g, b, i))
    {
      var callee, args := p[g].blocks[b].instrs[i].callee, p[g].blocks[b].instrs[i].args;
      var callees := if callee.Address? then {callee.fn} else PointsToSet(callee);
      assert forall h :: h in callees <==> Reaches(p, Facts(), callee, h);
      changed := false;
      var rest := callees;
      while rest != {}
        invariant rest <= callees && Grown(p, old(Facts()), Facts(), changed)
        invariant !changed ==> forall h :: h in callees - rest ==> CalleeCopied(p, Facts(), args, g, b, i, h)
      {
        var h :| h in rest;
        ghost var before := Facts();
        var c := PropagateCallee(g, b, i, callee, args, h);
        GrownTwice(p, old(Facts()), before, Facts(), changed, c);
        changed, rest := changed || c, rest - {h};
      }
      if !changed { AllCalleesCopied(p, Facts(), g, b, i); }
    }

    method PropagateInstruction(g: nat, b: nat, i: nat) returns (changed: bool)
      requires At(p, g, b, i) && Initial(p) <= Facts() <= Everything(p) && WellFormed(p)
      modifies this
      ensures Grown(p, old(Facts()), Facts(), changed) && (!changed ==> Satisfied(p, Facts(), g, b, i))
    {
      match p[g].blocks[b].instrs[i]
      case Load =>
        UnknownIsGrown(p, Facts(), g, b, i);
        changed := AddUnknown(Result(g, b, i));
      case IntToPtr =>
        UnknownIsGrown(p, Facts(), g, b, i);
        changed := AddUnknown(Result(g, b, i));
      case Phi(incoming) =>
        changed := MergeAll(g, b, i, incoming.Values);
      case Select(t, f) =>
        var c1 := Merge(Result(g, b, i), t, g, b, i);
        ghost var before := Facts();
        var c2 := Merge(Result(g, b, i), f, g, b, i);
        GrownTwice(p, old(Facts()), before, Facts(), c1, c2);
        changed := c1 || c2;
      case VarStore(s) => changed := Merge(Result(g, b, i), s, g, b, i);
      case BitCast(s) => changed := Merge(Result(g, b, i), s, g, b, i);
      case PtrToInt(s) => changed := Merge(Result(g, b, i), s, g, b, i);
      case Call(_, _) => changed := PropagateCall(g, b, i);
      case Opaque => changed := false;
    }

    method VisitBlock(g: nat, b: nat) returns (changed: bool)
      requires g < |p| && b < |p[g].blocks| && Initial(p) <= Facts() <= Everything(p) && WellFormed(p)
      modifies this
      ensures Grown(p, old(Facts()), Facts(), changed) && Facts() <= Everything(p)
      ensures !changed ==> forall i :: At(p, g, b, i) ==> Satisfied(p, Facts(), g, b, i)
    {
      changed := false;
      EverythingIsClosed(p);
      for i := 0 to |p[g].blocks[b].instrs|
        invariant Grown(p, old(Facts()), Facts(), changed) && Facts() <= Everything(p)
        invariant !changed ==> forall j :: 0 <= j < i ==> Satisfied(p, Facts(), g, b, j)
      {
        ghost var before := Facts();
        var c := PropagateInstruction(g, b, i);
        GrownTwice(p, old(Facts()), before, Facts(), changed, c);
        changed := changed || c;
      }
    }

    method VisitFunction(g: nat) returns (changed: bool)
      requires g < |p| && Initial(p) <= Facts() <= Everything(p) && WellFormed(p)
      modifies this
      ensures Grown(p, old(Facts()), Facts(), changed) && Facts() <= Everything(p)
      ensures !changed ==> forall b, i :: At(p, g, b, i) ==> Satisfied(p, Facts(), g, b, i)
    {
      changed := false;
      for b := 0 to |p[g].blocks|
        invariant Grown(p, old(Facts()), Facts(), changed) && Facts() <= Everything(p)
        invariant !changed ==> forall c, i :: c < b && At(p, g, c, i) ==> Satisfied(p, Facts(), g, c, i)
      {
        ghost var before := Facts();
        var c := VisitBlock(g, b);
        GrownTwice(p, old(Facts()), before, Facts(), changed, c);
        changed := changed || c;
      }
    }

    method OneRound() returns (changed: bool)
      requires Initial(p) <= Facts() <= Everything(p) && WellFormed(p)
      modifies this
      ensures Grown(p, old(Facts()), Facts(), changed) && Facts() <= Everything(p)
      ensures !changed ==> Closed(p, Facts())
    {
      changed := false;
      for g := 0 to |p|
        invariant Grown(p, old(Facts()), Facts(), changed) && Facts() <= Everything(p)
        invariant !changed ==> forall h, b, i :: h < g && At(p, h, b, i) ==> Satisfied(p, Facts(), h, b, i)
      {
        ghost var before := Facts();
        var c := VisitFunction(g);
        GrownTwice(p, old(Facts()), before, Facts(), changed, c);
        changed := changed || c;
      }
    }

    /** Function addresses point to themselves. */
    method Initialize()
      requires Facts() == {}
      modifies this
      ensures Facts() == Initial(p)
    {
      for f := 0 to |p|
        invariant Facts() == set g | 0 <= g < f :: Points(Address(g), g)
      {
        var added := AddPoints(Address(f), f);
      }
    }

    // ----- Annotations -----

    /** Goes back through casts, until there is none or a value comes up again. */
    method StripPointerCasts(v: Value) returns (w: Value)
      ensures w.Address? <==> IsFunction(p, v)
    {
      w := v;
      var seen: set<Value> := {};
      ghost var n: nat := 0;
      while IsCast(p, w) && w !in seen
        invariant w == Back(p, v, n) && Passed(p, v, seen, n)
        decreases |Places(p) - seen|
      {
        PassedNext(p, v, seen, n);
        OnePlaceLess(Places(p), seen, w);
        seen := seen + {w};
        w, n := CastOf(p, w), n + 1;
      }
      PassedDecides(p, v, seen, n);
    }

    /** Only calls that do not name their function are annotated. */
    method AnnotateCall(g: nat, b: nat, i: nat) returns (a: Annotation)
      requires At(p, g, b, i) && p[g].blocks[b].instrs[i].Call?
      ensures a == CallAnnotation(p, Facts(), p[g].blocks[b].instrs[i].callee)
    {
      var callee := p[g].blocks[b].instrs[i].callee;
      var called := StripPointerCasts(callee);
      if called.Address? { return None; }
      var hasKnownTargets := callee in pointsToSets && pointsToSets[callee] != {};
      var hasUnknown := callee in hasUnknownSource;
      assert forall h :: h in PointsToSet(callee) <==> Points(callee, h) in Facts();
      assert hasUnknown <==> Unknown(callee) in Facts();
      if !hasKnownTargets && !hasUnknown { return None; }
      a := PossibleCallees(if hasKnownTargets then pointsToSets[callee] else {}, hasUnknown);
      assert a.known == PointsToSet(callee);
    }

    /** The calls of block b of function g get their annotations. */
    method AnnotateBlock(g: nat, b: nat, notes0: map<(nat, nat, nat), Annotation>)
      returns (notes: map<(nat, nat, nat), Annotation>)
      requires g < |p| && b < |p[g].blocks|
      requires forall k :: k in notes0 ==> k.0 < g || (k.0 == g && k.1 < b)
      ensures forall k :: k in notes <==> k in notes0 || (k.0 == g && k.1 == b && Annotated(p, Facts(), k))
      ensures forall k :: k in notes ==>
                notes[k] == if k in notes0 then notes0[k] else NoteAt(p, Facts(), k)
    {
      notes := notes0;
      for i := 0 to |p[g].blocks[b].instrs|
        invariant forall k ::
                  k in notes <==> k in notes0 || (k.0 == g && k.1 == b && k.2 < i && Annotated(p, Facts(), k))
        invariant forall k :: k in notes ==> notes[k] == if k in notes0 then notes0[k] else NoteAt(p, Facts(), k)
      {
        if p[g].blocks[b].instrs[i].Call? {
          var a := AnnotateCall(g, b, i);
          if a.PossibleCallees? { notes := notes[(g, b, i) := a]; }
        }
      }
    }

    /** Every call of the program that is not of a function by name, and of which anything is known, is
        annotated with what is known. */
    method Annotate() returns (notes: map<(nat, nat, nat), Annotation>, changed: bool)
      ensures forall k :: k in notes <==> Annotated(p, Facts(), k)
      ensures forall k :: k in notes ==> notes[k] == NoteAt(p, Facts(), k)
      ensures changed <==> notes != map[]
    {
      notes := map[];
      for g := 0 to |p|
        invariant forall k :: k in notes <==> k.0 < g && Annotated(p, Facts(), k)
        invariant forall k :: k in notes ==> notes[k] == NoteAt(p, Facts(), k)
      {
        for b := 0 to |p[g].blocks|
          invariant forall k :: k in notes <==> (k.0 < g || (k.0 == g && k.1 < b)) && Annotated(p, Facts(), k)
          invariant forall k :: k in notes ==> notes[k] == NoteAt(p, Facts(), k)
        {
          notes := AnnotateBlock(g, b, notes);
        }
      }
      changed := notes != map[];
    }

    /** Ends with the least solution. */
    method RunOnModule()
      requires Facts() == {} && WellFormed(p)
      modifies this
      ensures Least(p, Facts())
    {
      Initialize();
      var iterationChanged := true;
      while iterationChanged
        invariant Initial(p) <= Facts() <= Everything(p)
        invariant forall other :: Closed(p, other) ==> Facts() <= other
        invariant !iterationChanged ==> Closed(p, Facts())
        decreases iterationChanged, |Everything(p) - Facts()|
      {
        ghost var before := Facts();
        iterationChanged := OneRound();
        if iterationChanged { FewerMissing(Everything(p), before, Facts()); }
      }
    }
  }

  lemma OnePlaceLess(places: set<Value>, seen: set<Value>, v: Value)
    requires v in places && v !in seen
    ensures |places - (seen + {v})| < |places - seen|
  {
    assert v in places - seen && v !in places - (seen + {v});
    StrictlyFewer(places - (seen + {v}), places - seen);
  }

  lemma FewerMissing<T>(all: set<T>, before: set<T>, after: set<T>)
    requires before < after <= all
    ensures |all - after| < |all - before|
  {
    StrictlyFewer(all - after, all - before);
  }

  lemma {:induction false} StrictlyFewer<T>(a: set<T>, b: set<T>)
    requires a < b
    ensures |a| < |b|
  {
    var x :| x in b && x !in a;
    if a == {} {
    } else {
      var y :| y in a;
      StrictlyFewer(a - {y}, b - {y});
      assert a == (a - {y}) + {y} && b == (b - {y}) + {y};
    }
  }

  lemma AllCalleesCopied(p: Program, facts: set<Fact>, g: nat, b: nat, i: nat)
    requires At(p, g, b, i) && p[g].blocks[b].instrs[i].Call?
    requires forall h :: Reaches(p, facts, p[g].blocks[b].instrs[i].callee, h) ==>
               CalleeCopied(p, facts, p[g].blocks[b].instrs[i].args, g, b, i, h)
    ensures Satisfied(p, facts, g, b, i)
  {
    var call := p[g].blocks[b].instrs[i];
    forall dest, src | Flows(p, facts, g, b, i, dest, src)
      ensures Copied(facts, dest, src)
    {
      var h :| Reaches(p, facts, call.callee, h) && FlowsByCall(p, call.args, g, b, i, h, dest, src);
      assert CalleeCopied(p, facts, call.args, g, b, i, h);
    }
  }

  lemma UnknownIsGrown(p: Program, facts: set<Fact>, g: nat, b: nat, i: nat)
    requires At(p, g, b, i) && (p[g].blocks[b].instrs[i].Load? || p[g].blocks[b].instrs[i].IntToPtr?)
    ensures Grown(p, facts, facts + {Unknown(Result(g, b, i))}, Unknown(Result(g, b, i)) !in facts)
  {
    forall other | Closed(p, other) && facts <= other
      ensures Unknown(Result(g, b, i)) in other
    {
      assert Satisfied(p, other, g, b, i);
    }
  }
}
