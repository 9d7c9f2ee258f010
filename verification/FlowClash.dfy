/** Two chains between the same two variables, in opposite directions: their implications are filed
    under the same literals, so one of the chains is lost when the result is read back. */
module FlowClash {
  import opened FlowClauses
  import opened CollapseFlow

  datatype Vars = Vars(a: string, b: string, z: string, c: string) {
    predicate Distinct() { a != b && a != z && a != c && b != z && b != c && z != c }

    /** a -> b, b -> z, z -> c, c -> a, a, !z. */
    function Core(): seq<Clause> { [Flow(a, b), Flow(b, z), Flow(z, c), Flow(c, a), Unit(a, true), Unit(z, false)] }

    function CoreInfo(): Info {
      map[Key(Flow(a, b)) := Flow(a, b), Key(Flow(b, z)) := Flow(b, z), Key(Flow(z, c)) := Flow(z, c),
        Key(Flow(c, a)) := Flow(c, a)]
    }

    function Chains(): seq<seq<Clause>> { [[Flow(a, b), Flow(b, z)], [Flow(z, c), Flow(c, a)]] }
  }

  function Unit(v: string, sign: bool): Clause { Other(multiset{(v, sign)}) }

  lemma FlowKeys(a: string, b: string, c: string, d: string)
    requires a != c
    ensures Key(Flow(a, b)) != Key(Flow(c, d))
  {
    assert (a, false) in Key(Flow(a, b)) && (a, false) !in Key(Flow(c, d));
  }

  lemma UnitKey(v: string, sign: bool, c: Clause)
    requires !c.Other?
    ensures Key(Unit(v, sign)) != Key(c)
  {
    assert |Key(Unit(v, sign))| == 1 && |Key(c)| == 2;
  }

  lemma InfoIsProper(x: Vars)
    requires x.Distinct()
    ensures Proper(x.CoreInfo())
  {
    FlowKeys(x.a, x.b, x.b, x.z);
    FlowKeys(x.a, x.b, x.z, x.c);
    FlowKeys(x.a, x.b, x.c, x.a);
    FlowKeys(x.b, x.z, x.z, x.c);
    FlowKeys(x.b, x.z, x.c, x.a);
    FlowKeys(x.z, x.c, x.c, x.a);
  }

  lemma FlowIsTyped(x: Vars, c: Clause)
    requires x.Distinct() && Key(c) in x.CoreInfo() && c.Flow?
    ensures Typed(x.CoreInfo(), Key(c)) == c
  {
    InfoIsProper(x);
    var d := x.CoreInfo()[Key(c)];
    assert d.Flow?;
    FlowKeyMeans(d, c);
  }

  lemma UnitIsTyped(x: Vars, v: string, sign: bool)
    requires x.Distinct()
    ensures Typed(x.CoreInfo(), Key(Unit(v, sign))) == Unit(v, sign)
  {
    UnitKey(v, sign, Flow(x.a, x.b));
    UnitKey(v, sign, Flow(x.b, x.z));
    UnitKey(v, sign, Flow(x.z, x.c));
    UnitKey(v, sign, Flow(x.c, x.a));
  }

  lemma CoreIsTyped(x: Vars)
    requires x.Distinct()
    ensures TypedAll(x.CoreInfo(), KeysOf(x.Core())) == x.Core()
  {
    FlowIsTyped(x, Flow(x.a, x.b));
    FlowIsTyped(x, Flow(x.b, x.z));
    FlowIsTyped(x, Flow(x.z, x.c));
    FlowIsTyped(x, Flow(x.c, x.a));
    UnitIsTyped(x, x.a, true);
    UnitIsTyped(x, x.z, false);
  }

  lemma FlowKeyMeans(c: Clause, d: Clause)
    requires c.Flow? && d.Flow? && Key(c) == Key(d)
    ensures c == d
  {
    assert (c.a, false) in Key(d) && (c.b, true) in Key(d);
  }

  lemma TwoOthers(all: seq<Clause>, c: Clause, fwd: bool, d: Clause, e: Clause)
    requires c.Flow? && d in Others(all, c, End(c, fwd)) && e in Others(all, c, End(c, fwd)) && d != e
    ensures Step(all, c, fwd) == Stop
  {
    if |Others(all, c, End(c, fwd))| == 1 { Singleton(Others(all, c, End(c, fwd)), d, e); }
  }

  lemma UnitContains(v: string, sign: bool)
    ensures forall w :: Contains(Unit(v, sign), w) <==> v == w
  {
    assert (v, sign) in Unit(v, sign).lits;
  }

  lemma ThereLinks(x: Vars)
    requires x.Distinct()
    ensures var core := x.Core(); Step(core, core[0], true) == Go(core[1]) && Step(core, core[1], false) == Go(core[0])
    ensures var core := x.Core(); Step(core, core[0], false) == Stop && Step(core, core[1], true) == Stop
  {
    var core := x.Core();
    UnitContains(x.a, true);
    UnitContains(x.z, false);
    StepMeans(core, core[0], true, core[1]);
    StepMeans(core, core[1], false, core[0]);
    assert core[3] in core && core[4] in core && core[2] in core && core[5] in core;
    TwoOthers(core, core[0], false, core[3], core[4]);
    TwoOthers(core, core[1], true, core[2], core[5]);
  }

  lemma BackLinks(x: Vars)
    requires x.Distinct()
    ensures var core := x.Core(); Step(core, core[2], true) == Go(core[3]) && Step(core, core[3], false) == Go(core[2])
    ensures var core := x.Core(); Step(core, core[2], false) == Stop && Step(core, core[3], true) == Stop
  {
    var core := x.Core();
    UnitContains(x.a, true);
    UnitContains(x.z, false);
    StepMeans(core, core[2], true, core[3]);
    StepMeans(core, core[3], false, core[2]);
    assert core[0] in core && core[4] in core && core[1] in core && core[5] in core;
    TwoOthers(core, core[2], false, core[1], core[5]);
    TwoOthers(core, core[3], true, core[0], core[4]);
  }

  lemma CoreDeleted(x: Vars)
    requires x.Distinct()
    ensures Deleted(x.Chains()) == {Flow(x.a, x.b), Flow(x.b, x.z), Flow(x.z, x.c), Flow(x.c, x.a)}
  {
    var chains := x.Chains();
    assert chains[0][0] in Deleted(chains) && chains[0][1] in Deleted(chains);
    assert chains[1][0] in Deleted(chains) && chains[1][1] in Deleted(chains);
  }

  lemma PairIsChain(all: seq<Clause>, c: Clause, d: Clause)
    requires c in all && d in all && c.Flow? && d.Flow? && c.a != c.b && d.a != d.b
    requires Step(all, c, true) == Go(d) && Step(all, d, false) == Go(c) && Step(all, c, false) == Stop
             && Step(all, d, true) == Stop
    ensures Chain(all, [c, d])
  {
    assert LinkedAt(all, [c, d], 0);
  }

  lemma ThereIsChain(x: Vars)
    requires x.Distinct()
    ensures Chain(x.Core(), x.Chains()[0])
  {
    ThereLinks(x);
    assert x.Core()[0] in x.Core() && x.Core()[1] in x.Core();
    PairIsChain(x.Core(), x.Core()[0], x.Core()[1]);
  }

  lemma BackIsChain(x: Vars)
    requires x.Distinct()
    ensures Chain(x.Core(), x.Chains()[1])
  {
    BackLinks(x);
    assert x.Core()[2] in x.Core() && x.Core()[3] in x.Core();
    PairIsChain(x.Core(), x.Core()[2], x.Core()[3]);
  }

  lemma CoreChains(x: Vars)
    requires x.Distinct()
    ensures AllChains(x.Core(), x.Chains()) && !Trips(x.Core())
  {
    ThereIsChain(x);
    BackIsChain(x);
    AllAreSettled(x);
    forall k | 0 <= k < |x.Chains()| ensures Chain(x.Core(), x.Chains()[k]) { assert k == 0 || k == 1; }
    AllFoundIsNoTrip(x.Core(), x.Chains());
  }

  lemma AllAreSettled(x: Vars)
    requires x.Distinct()
    ensures Settled(x.Core(), |x.Core()|, Deleted(x.Chains()))
  {
    var core := x.Core();
    CoreDeleted(x);
    forall k | 0 <= k < |core| ensures SettledAt(core, core[k], Deleted(x.Chains())) { assert k < 4 || core[k].Other?; }
  }

  lemma CoreIsUnsat(x: Vars, m: Model)
    ensures !Satisfies(m, x.Core())
  {
    var core := x.Core();
    var bad := if x.a !in m then core[4] else if x.z in m then core[5] else if x.b in m then core[1] else core[0];
    assert bad in core && !Holds(m, bad);
  }

  lemma Peel(c: Clause, rest: seq<Clause>, del: set<Clause>)
    ensures Without([c] + rest, del) == (if c in del then [] else [c]) + Without(rest, del)
  {
    assert ([c] + rest)[1..] == rest;
  }

  lemma UnitsAreLeft(x: Vars)
    requires x.Distinct()
    ensures Without(x.Core(), Deleted(x.Chains())) == [Unit(x.a, true), Unit(x.z, false)]
  {
    var core, del := x.Core(), Deleted(x.Chains());
    CoreDeleted(x);
    Peel(core[5], [], del);
    Peel(core[4], [core[5]], del);
    Peel(core[3], core[4..], del);
    Peel(core[2], core[3..], del);
    Peel(core[1], core[2..], del);
    Peel(core[0], core[1..], del);
    assert [core[5]] + [] == [core[5]] && core[4..] == [core[4]] + [core[5]] && core[3..] == [core[3]] + core[4..];
    assert core[2..] == [core[2]] + core[3..] && core[1..] == [core[1]] + core[2..] && core == [core[0]] + core[1..];
  }

  lemma ReadsBackward(x: Vars, ms: seq<Clause>)
    requires x.Distinct() && ms == [Meta(x.a, x.z), Meta(x.z, x.a)]
    ensures var info := Filed(x.CoreInfo(), ms);
            && Typed(info, Key(Unit(x.a, true))) == Unit(x.a, true)
              && Typed(info, Key(Unit(x.z, false))) == Unit(x.z, false)
            && Typed(info, Key(ms[0])) == ms[1] && Typed(info, Key(ms[1])) == ms[1]
  {
    SameEnds(ms[0], ms[1]);
    assert ms == [ms[0]] + [ms[1]];
    FiledNext(x.CoreInfo(), [ms[0]], ms[1]);
    UnitIsKept(x, x.a, true, ms);
    UnitIsKept(x, x.z, false, ms);
  }

  lemma UnitIsKept(x: Vars, v: string, sign: bool, ms: seq<Clause>)
    requires x.Distinct() && ms == [Meta(x.a, x.z), Meta(x.z, x.a)]
    ensures Typed(Filed(x.CoreInfo(), ms), Key(Unit(v, sign))) == Unit(v, sign)
  {
    FiledMeans(x.CoreInfo(), ms, Key(Unit(v, sign)));
    UnitKey(v, sign, ms[0]);
    UnitKey(v, sign, ms[1]);
    UnitIsTyped(x, v, sign);
  }

  lemma ReadBack(x: Vars, ms: seq<Clause>)
    requires x.Distinct() && ms == [Meta(x.a, x.z), Meta(x.z, x.a)]
    ensures var read := TypedAll(Filed(x.CoreInfo(), ms), KeysOf([Unit(x.a, true), Unit(x.z, false)] + ms));
            read == [Unit(x.a, true), Unit(x.z, false), ms[1], ms[1]] && Satisfies({x.a}, read)
  {
    ReadsBackward(x, ms);
    UnitsHold(x);
    assert [Unit(x.a, true), Unit(x.z, false)] + ms == [Unit(x.a, true), Unit(x.z, false), ms[0], ms[1]];
  }

  /** The clauses cannot be satisfied and no assertion trips, but what is read back is satisfied by
      the model that makes only a true: of z -> a and a -> z only the former is left. */
  lemma OppositeChainIsLost(x: Vars) returns (result: seq<Lits>, info: Info)
    requires x.Distinct()
    ensures Proper(x.CoreInfo()) && TypedAll(x.CoreInfo(), KeysOf(x.Core())) == x.Core()
    ensures Returned(x.CoreInfo(), KeysOf(x.Core()), x.Chains(), result, info)
    ensures !Trips(x.Core()) && (forall m :: !Satisfies(m, x.Core()))
    ensures Satisfies({x.a}, TypedAll(info, result))
  {
    InfoIsProper(x);
    CoreIsTyped(x);
    CoreChains(x);
    var ms := MetasOf(x.Core(), x.Chains());
    TwoMetas(x, ms);
    info, result := Filed(x.CoreInfo(), ms), KeysOf(Ideal(x.Core(), Deleted(x.Chains()), ms));
    forall m ensures !Satisfies(m, x.Core()) { CoreIsUnsat(x, m); }
    UnitsAreLeft(x);
    ReadBack(x, ms);
  }

  lemma TwoMetas(x: Vars, ms: seq<Clause>)
    requires |ms| == 2 && ms[0] == MetaOf(x.Chains()[0]) && ms[1] == MetaOf(x.Chains()[1])
    ensures ms == [Meta(x.a, x.z), Meta(x.z, x.a)]
  {
  }

  lemma UnitsHold(x: Vars)
    requires x.Distinct()
    ensures Holds({x.a}, Unit(x.a, true)) && Holds({x.a}, Unit(x.z, false))
  {
    assert (x.a, true) in Unit(x.a, true).lits && (x.z, false) in Unit(x.z, false).lits;
  }
}
