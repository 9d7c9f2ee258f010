/** The other side of the points-to analysis: nothing is in a set, and nothing is flagged, without a chain of
    flows that brings it there, and each flow is one that an execution can make. */
module PointsToPrecision {
  import opened PointsTo
  import opened PointsToSoundness

  // ----- Chains of flows -----

  ghost predicate FlowStep(p: Program, facts: set<Fact>, src: Value, dest: Value) {
    exists g, b, i :: At(p, g, b, i) && Flows(p, facts, g, b, i, dest, src)
  }

  ghost predicate FlowPath(p: Program, facts: set<Fact>, vs: seq<Value>) {
    vs != [] && forall k :: 0 <= k < |vs| - 1 ==> FlowStep(p, facts, vs[k], vs[k + 1])
  }

  ghost predicate FlowsAll(p: Program, facts: set<Fact>, src: Value, dest: Value) {
    exists vs :: FlowPath(p, facts, vs) && vs[0] == src && vs[|vs| - 1] == dest
  }

  lemma FlowsOn(p: Program, facts: set<Fact>, v: Value, src: Value, dest: Value)
    requires FlowsAll(p, facts, v, src) && FlowStep(p, facts, src, dest)
    ensures FlowsAll(p, facts, v, dest)
  {
    var vs :| FlowPath(p, facts, vs) && vs[0] == v && vs[|vs| - 1] == src;
    assert FlowPath(p, facts, vs + [dest]);
  }

  lemma FlowsToItself(p: Program, facts: set<Fact>, v: Value)
    ensures FlowsAll(p, facts, v, v)
  {
    assert FlowPath(p, facts, [v]);
  }

  /** The result of an instruction that may come up with any function. */
  ghost predicate Origin(p: Program, v: Value) {
    && v.Result? && At(p, v.fn, v.block, v.index)
    && (p[v.fn].blocks[v.block].instrs[v.index].Load? || p[v.fn].blocks[v.block].instrs[v.index].IntToPtr?)
  }

  /** The fact has a source, and a chain of flows from there. */
  ghost predicate Derived(p: Program, facts: set<Fact>, x: Fact) {
    match x
    case Points(v, f) => f < |p| && FlowsAll(p, facts, Address(f), v)
    case Unknown(v) => exists o :: Origin(p, o) && FlowsAll(p, facts, o, v)
  }

  // ----- Everything that is derived holds -----

  lemma {:induction false} CarriedAlong(p: Program, facts: set<Fact>, vs: seq<Value>, k: nat)
    requires Closed(p, facts) && FlowPath(p, facts, vs) && k < |vs|
    ensures Copied(facts, vs[k], vs[0])
    decreases k
  {
    if k > 0 {
      CarriedAlong(p, facts, vs, k - 1);
      assert FlowStep(p, facts, vs[k - 1], vs[k]);
      var g, b, i :| At(p, g, b, i) && Flows(p, facts, g, b, i, vs[k], vs[k - 1]);
      assert Satisfied(p, facts, g, b, i);
    }
  }

  lemma DerivedHolds(p: Program, facts: set<Fact>, x: Fact)
    requires Closed(p, facts) && Derived(p, facts, x)
    ensures x in facts
  {
    match x
    case Points(v, f) =>
      var vs :| FlowPath(p, facts, vs) && vs[0] == Address(f) && vs[|vs| - 1] == v;
      assert Points(Address(f), f) in Initial(p);
      CarriedAlong(p, facts, vs, |vs| - 1);
    case Unknown(v) =>
      var o :| Origin(p, o) && FlowsAll(p, facts, o, v);
      var vs :| FlowPath(p, facts, vs) && vs[0] == o && vs[|vs| - 1] == v;
      assert Satisfied(p, facts, o.fn, o.block, o.index);
      CarriedAlong(p, facts, vs, |vs| - 1);
  }

  // ----- Nothing else does -----

  ghost function AllDerived(p: Program, facts: set<Fact>): (ds: set<Fact>)
    ensures forall x :: x in ds <==> x in facts && Derived(p, facts, x)
  {
    set x | x in facts && Derived(p, facts, x)
  }

  lemma DerivedNext(p: Program, facts: set<Fact>, g: nat, b: nat, i: nat, dest: Value, src: Value)
    requires Closed(p, facts) && At(p, g, b, i) && Flows(p, facts, g, b, i, dest, src)
    ensures Copied(AllDerived(p, facts), dest, src)
  {
    assert Satisfied(p, facts, g, b, i) && FlowStep(p, facts, src, dest);
    forall f | Points(src, f) in AllDerived(p, facts)
      ensures Points(dest, f) in AllDerived(p, facts)
    {
      assert Derived(p, facts, Points(src, f));
      FlowsOn(p, facts, Address(f), src, dest);
    }
    if Unknown(src) in AllDerived(p, facts) {
      assert Derived(p, facts, Unknown(src));
      var o :| Origin(p, o) && FlowsAll(p, facts, o, src);
      FlowsOn(p, facts, o, src, dest);
    }
  }

  lemma DerivedIsClosed(p: Program, facts: set<Fact>)
    requires Closed(p, facts)
    ensures Closed(p, AllDerived(p, facts))
  {
    var ds := AllDerived(p, facts);
    forall x | x in Initial(p)
      ensures x in ds
    {
      FlowsToItself(p, facts, Address(x.fn));
    }
    forall g, b, i | At(p, g, b, i)
      ensures Satisfied(p, ds, g, b, i)
    {
      forall dest, src | Flows(p, ds, g, b, i, dest, src)
        ensures Copied(ds, dest, src)
      {
        FlowsGrow(p, ds, facts, g, b, i, dest, src);
        DerivedNext(p, facts, g, b, i, dest, src);
      }
      if p[g].blocks[b].instrs[i].Load? || p[g].blocks[b].instrs[i].IntToPtr? {
        assert Satisfied(p, facts, g, b, i) && Origin(p, Result(g, b, i));
        FlowsToItself(p, facts, Result(g, b, i));
        assert Derived(p, facts, Unknown(Result(g, b, i)));
      }
    }
  }

  /** The result of the analysis is what flows from somewhere: a function is in the set of a value if and
      only if a chain of flows leads there from its address, and a value is flagged if and only if one
      leads there from a load or from an integer. */
  lemma LeastIsDerived(p: Program, facts: set<Fact>, x: Fact)
    requires Least(p, facts)
    ensures x in facts <==> Derived(p, facts, x)
  {
    DerivedIsClosed(p, facts);
    if Derived(p, facts, x) { DerivedHolds(p, facts, x); }
  }

  // ----- Flows are possible -----

  ghost predicate StandsAt(p: Program, fr: Frame, g: nat, b: nat, i: nat) {
    fr.fn == g && fr.b == b && fr.i == i && AtInstr(p, fr)
  }

  /** Every execution of the instruction, coming from block `prev`, may yield what src holds. */
  ghost predicate MayPass(p: Program, g: nat, b: nat, i: nat, prev: nat, src: Value)
    requires At(p, g, b, i)
  {
    forall fr: Frame :: StandsAt(p, fr, g, b, i) && fr.prev == prev && fr.entry == fr.env ==>
      MayYield(p, fr, Val(p, fr, fr.env, src))
  }

  /** Every call of h by the instruction hands what src holds to dest. */
  ghost predicate Hands(p: Program, g: nat, b: nat, i: nat, h: nat, dest: Value, src: Value)
    requires At(p, g, b, i) && p[g].blocks[b].instrs[i].Call?
  {
    forall fr: Frame :: StandsAt(p, fr, g, b, i) ==>
      var entered := Enter(p, fr, p[g].blocks[b].instrs[i].args, h);
      Val(p, entered, entered.env, dest) == Val(p, fr, fr.env, src)
  }

  /** A flow by an instruction other than a call is one that executions make, whatever the values. */
  lemma FlowIsPossible(p: Program, facts: set<Fact>, g: nat, b: nat, i: nat, dest: Value, src: Value)
    requires At(p, g, b, i) && Flows(p, facts, g, b, i, dest, src) && !p[g].blocks[b].instrs[i].Call?
    ensures dest == Result(g, b, i) && exists prev: nat :: MayPass(p, g, b, i, prev, src)
  {
    var inst := p[g].blocks[b].instrs[i];
    var prev: nat := 0;
    if inst.Phi? { prev :| prev in inst.incoming && inst.incoming[prev] == src; }
    assert MayPass(p, g, b, i, prev, src);
  }

  /** A flow by a call goes to a formal of a function that the call may reach, from the argument in its
      place, or to the result, from what that function returns. */
  lemma CallFlowIsPossible(p: Program, facts: set<Fact>, g: nat, b: nat, i: nat, dest: Value, src: Value)
    requires At(p, g, b, i) && Flows(p, facts, g, b, i, dest, src) && p[g].blocks[b].instrs[i].Call?
    ensures exists h: nat :: Reaches(p, facts, p[g].blocks[b].instrs[i].callee, h) &&
              ((dest.Formal? && dest.fn == h && Hands(p, g, b, i, h, dest, src))
                || (dest == Result(g, b, i) && exists c ::
                  0 <= c < |p[h].blocks| && p[h].blocks[c].term == Return(src)))
  {
    var call := p[g].blocks[b].instrs[i];
    var h: nat :| Reaches(p, facts, call.callee, h) && FlowsByCall(p, call.args, g, b, i, h, dest, src);
    if dest.Formal? { assert Hands(p, g, b, i, h, dest, src); }
  }

  /** What is flagged to begin with may be any function. */
  lemma OriginYieldsAnything(p: Program, fr: Frame, r: RunValue)
    requires AtInstr(p, fr) && Origin(p, Result(fr.fn, fr.b, fr.i))
    ensures MayYield(p, fr, r)
  {
  }
}
