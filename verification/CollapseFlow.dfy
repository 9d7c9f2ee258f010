/** Collapsing chains of flow and preservation clauses a -> b -> ... -> z into a -> z when the
    variables in between occur nowhere else. */
module CollapseFlow {

  import opened FlowClauses

  // ----- One step along a chain -----

  datatype Outcome = Stop | Trip | Go(d: Clause)

  /** The clauses that contain v, other than c. */
  function Others(all: seq<Clause>, c: Clause, v: string): set<Clause> { set e | e in all && Contains(e, v) && e != c }

  function End(c: Clause, fwd: bool): string
    requires c.Flow?
  {
    if fwd then c.b else c.a
  }

  /** d takes up where c ends. */
  predicate Follows(d: Clause, v: string, fwd: bool) { d.Flow? && End(d, !fwd) == v && End(d, fwd) != v }

  /** The next clause of the chain, if the variable at this end of c occurs in exactly one other
      clause and that one is a flow clause.  The code's assertions trip where the two do not line up. */
  ghost function Step(all: seq<Clause>, c: Clause, fwd: bool): Outcome
    requires c.Flow?
  {
    var v := End(c, fwd);
    if |Others(all, c, v)| != 1 then Stop
    else
      var d :| d in Others(all, c, v);
      if !d.Flow? then Stop else if Follows(d, v, fwd) then Go(d) else Trip
  }

  lemma {:induction false} Singleton<T>(s: set<T>, x: T, y: T)
    requires |s| == 1 && x in s && y in s
    ensures x == y
  {
    var rest := s - {x};
    assert |rest| == 0;
    assert y !in rest;
  }

  lemma OneElement<T>(s: set<T>, x: T)
    requires x in s && forall y :: y in s ==> y == x
    ensures |s| == 1
  {
    assert s == {x};
  }

  /** What a step says: the end of c occurs in c and d only. */
  lemma StepMeans(all: seq<Clause>, c: Clause, fwd: bool, d: Clause)
    requires c.Flow? && c in all
    ensures Step(all, c, fwd) == Go(d) <==>
            && d in all && d != c && Contains(d, End(c, fwd)) && Follows(d, End(c, fwd), fwd)
            && forall e :: e in all && Contains(e, End(c, fwd)) ==> e == c || e == d
  {
    var v := End(c, fwd);
    var others := Others(all, c, v);
    if Step(all, c, fwd) == Go(d) {
      forall e | e in all && Contains(e, v) && e != c ensures e == d { Singleton(others, e, d); }
    }
    if d in others && forall e :: e in others ==> e == d {
      OneElement(others, d);
    }
  }

  /** Stepping back from where a step leads returns, or trips where c is a -> a. */
  lemma StepBack(all: seq<Clause>, c: Clause, fwd: bool, d: Clause)
    requires c.Flow? && c in all && Step(all, c, fwd) == Go(d)
    ensures Step(all, d, !fwd) == if c.a != c.b then Go(c) else Trip
  {
    StepMeans(all, c, fwd, d);
    var v := End(c, fwd);
    var others := Others(all, d, v);
    assert c in others && forall e :: e in others ==> e == c;
    OneElement(others, c);
  }

  // ----- Chains -----

  /** Consecutive clauses are linked by a step in both directions; nothing continues the chain. */
  ghost predicate Chain(all: seq<Clause>, ch: seq<Clause>) {
    && |ch| >= 2
    && (forall i :: 0 <= i < |ch| ==> ch[i].Flow? && ch[i] in all && ch[i].a != ch[i].b)
    && (forall i :: 0 <= i < |ch| - 1 ==> LinkedAt(all, ch, i))
    && Step(all, ch[0], false) == Stop && Step(all, ch[|ch| - 1], true) == Stop
  }

  ghost predicate LinkedAt(all: seq<Clause>, ch: seq<Clause>, i: nat)
    requires i + 1 < |ch|
  {
    ch[i].Flow? && ch[i + 1].Flow? && Step(all, ch[i], true) == Go(ch[i + 1])
      && Step(all, ch[i + 1], false) == Go(ch[i])
  }

  /** Chains that share a clause are the same chain. */
  lemma {:induction false} SharedPosition(all: seq<Clause>, ch: seq<Clause>, ch': seq<Clause>, i: nat, j: nat)
    requires Chain(all, ch) && Chain(all, ch') && i < |ch| && j < |ch'| && ch[i] == ch'[j]
    ensures i == j
  {
    if i > 0 { assert LinkedAt(all, ch, i - 1); }
    if j > 0 { assert LinkedAt(all, ch', j - 1); }
    if i > 0 && j > 0 { SharedPosition(all, ch, ch', i - 1, j - 1); }
  }

  lemma {:induction false} SharedStart(all: seq<Clause>, ch: seq<Clause>, ch': seq<Clause>, i: nat)
    requires Chain(all, ch) && Chain(all, ch') && i < |ch| && i < |ch'| && ch[i] == ch'[i]
    ensures ch[..i + 1] == ch'[..i + 1]
  {
    if i > 0 {
      assert LinkedAt(all, ch, i - 1) && LinkedAt(all, ch', i - 1);
      SharedStart(all, ch, ch', i - 1);
      assert ch[..i + 1] == ch[..i] + [ch[i]] && ch'[..i + 1] == ch'[..i] + [ch'[i]];
    } else {
      assert ch[..1] == [ch[0]] && ch'[..1] == [ch'[0]];
    }
  }

  lemma {:induction false} SharedRest(all: seq<Clause>, ch: seq<Clause>, ch': seq<Clause>, i: nat)
    requires Chain(all, ch) && Chain(all, ch') && i < |ch| && i < |ch'| && ch[i] == ch'[i]
    ensures |ch| == |ch'| && ch[i..] == ch'[i..]
    decreases |ch| - i
  {
    if i + 1 < |ch| { assert LinkedAt(all, ch, i); }
    if i + 1 < |ch'| { assert LinkedAt(all, ch', i); }
    if i + 1 < |ch| && i + 1 < |ch'| {
      SharedRest(all, ch, ch', i + 1);
      assert ch[i..] == [ch[i]] + ch[i + 1..] && ch'[i..] == [ch'[i]] + ch'[i + 1..];
    }
  }

  lemma SharedIsSame(all: seq<Clause>, ch: seq<Clause>, ch': seq<Clause>, c: Clause)
    requires Chain(all, ch) && Chain(all, ch') && c in ch && c in ch'
    ensures ch == ch'
  {
    var i :| 0 <= i < |ch| && ch[i] == c;
    var j :| 0 <= j < |ch'| && ch'[j] == c;
    SharedPosition(all, ch, ch', i, j);
    SharedStart(all, ch, ch', i);
    SharedRest(all, ch, ch', i);
    assert ch == ch[..i] + ch[i..] && ch' == ch'[..i] + ch'[i..];
    assert ch[..i] == ch[..i + 1][..i] && ch'[..i] == ch'[..i + 1][..i];
  }

  // ----- Meaning -----

  ghost predicate Chains(all: seq<Clause>, chains: seq<seq<Clause>>) {
    forall k :: 0 <= k < |chains| ==> Chain(all, chains[k])
  }

  ghost function Deleted(chains: seq<seq<Clause>>): set<Clause> {
    set k, i | 0 <= k < |chains| && 0 <= i < |chains[k]| :: chains[k][i]
  }

  function MetaOf(ch: seq<Clause>): Clause
    requires |ch| > 0 && ch[0].Flow? && ch[|ch| - 1].Flow?
  {
    Meta(ch[0].a, ch[|ch| - 1].b)
  }

  /** What the collapse leaves: the clauses outside the chains, and one implication for each chain. */
  ghost predicate Collapsed(all: seq<Clause>, chains: seq<seq<Clause>>, result: seq<Clause>) {
    && Chains(all, chains)
    && forall c ::
      c in result <==> (c in all && c !in Deleted(chains)) || exists k :: 0 <= k < |chains| && c == MetaOf(chains[k])
  }

  lemma {:induction false} AlongChain(all: seq<Clause>, ch: seq<Clause>, m: Model, i: nat)
    requires Chain(all, ch) && i < |ch| && ch[0].a in m && forall j :: 0 <= j < |ch| ==> Holds(m, ch[j])
    ensures ch[i].b in m
  {
    if i > 0 {
      AlongChain(all, ch, m, i - 1);
      assert LinkedAt(all, ch, i - 1);
      StepMeans(all, ch[i - 1], true, ch[i]);
    }
    assert Holds(m, ch[i]);
  }

  lemma MetaIsImplied(all: seq<Clause>, ch: seq<Clause>, m: Model)
    requires Chain(all, ch) && Satisfies(m, all)
    ensures Holds(m, MetaOf(ch))
  {
    forall j | 0 <= j < |ch| ensures Holds(m, ch[j]) { assert ch[j] in all; }
    if ch[0].a in m { AlongChain(all, ch, m, |ch| - 1); }
  }

  /** Every model of the clauses is a model of the result. */
  lemma CollapseIsImplied(all: seq<Clause>, chains: seq<seq<Clause>>, result: seq<Clause>, m: Model)
    requires Collapsed(all, chains, result) && Satisfies(m, all)
    ensures Satisfies(m, result)
  {
    forall k | 0 <= k < |chains| ensures Holds(m, MetaOf(chains[k])) { MetaIsImplied(all, chains[k], m); }
  }

  /** v links clauses i and i + 1 of chain k. */
  ghost predicate Inner(chains: seq<seq<Clause>>, k: int, i: int, v: string) {
    0 <= k < |chains| && 0 <= i < |chains[k]| - 1 && chains[k][i].Flow? && chains[k][i].b == v
  }

  ghost predicate IsInner(chains: seq<seq<Clause>>, v: string) { exists k, i :: Inner(chains, k, i, v) }

  /** An inner variable occurs only in its two clauses. */
  lemma InnerOccurs(all: seq<Clause>, chains: seq<seq<Clause>>, k: nat, i: nat, v: string, e: Clause)
    requires Chains(all, chains) && Inner(chains, k, i, v) && e in all && Contains(e, v)
    ensures e == chains[k][i] || e == chains[k][i + 1]
  {
    assert Chain(all, chains[k]) && LinkedAt(all, chains[k], i);
    StepMeans(all, chains[k][i], true, chains[k][i + 1]);
  }

  lemma EndIsOuter(all: seq<Clause>, chains: seq<seq<Clause>>, k: nat, e: nat, v: string)
    requires Chains(all, chains) && k < |chains| && |chains[k]| >= 2 && e < |chains[k]| && chains[k][e].Flow?
    requires (e == 0 && v == chains[k][e].a) || (e == |chains[k]| - 1 && v == chains[k][e].b)
    ensures !IsInner(chains, v)
  {
    var ch := chains[k];
    if IsInner(chains, v) {
      var k', i :| Inner(chains, k', i, v);
      InnerOccurs(all, chains, k', i, v, ch[e]);
      SharedIsSame(all, ch, chains[k'], ch[e]);
      SharedPosition(all, ch, ch, e, if ch[e] == ch[i] then i else i + 1);
      assert LinkedAt(all, ch, i);
      StepMeans(all, ch[i], true, ch[i + 1]);
    }
  }

  // ----- Extending a model -----

  /** The variable that the chain of an inner variable starts from. */
  ghost function StartOf(chains: seq<seq<Clause>>, v: string): string
    requires IsInner(chains, v)
  {
    InnerChain(chains, v);
    var k :| 0 <= k < |chains| && InnerOf(chains[k], v);
    if chains[k][0].Flow? then chains[k][0].a else v
  }

  ghost predicate InnerOf(ch: seq<Clause>, v: string) { exists i :: 0 <= i < |ch| - 1 && ch[i].Flow? && ch[i].b == v }

  lemma InnerChain(chains: seq<seq<Clause>>, v: string)
    requires IsInner(chains, v)
    ensures exists k :: 0 <= k < |chains| && InnerOf(chains[k], v)
  {
    var k, i :| Inner(chains, k, i, v);
    assert InnerOf(chains[k], v);
  }

  lemma StartIsUnique(all: seq<Clause>, chains: seq<seq<Clause>>, k: nat, i: nat, v: string)
    requires Chains(all, chains) && Inner(chains, k, i, v)
    ensures chains[k][0].Flow? && StartOf(chains, v) == chains[k][0].a
  {
    forall k' | 0 <= k' < |chains| && InnerOf(chains[k'], v)
      ensures chains[k'] == chains[k]
    {
      var i' :| 0 <= i' < |chains[k']| - 1 && chains[k'][i'].Flow? && chains[k'][i'].b == v;
      assert Chain(all, chains[k]) && Chain(all, chains[k']) && Inner(chains, k', i', v);
      InnerOccurs(all, chains, k', i', v, chains[k][i]);
      SharedIsSame(all, chains[k], chains[k'], chains[k][i]);
    }
    assert Chain(all, chains[k]);
  }

  /** Inner variables take the value of the start of their chain, all others keep theirs. */
  ghost predicate Extends(chains: seq<seq<Clause>>, m: Model, m': Model) {
    forall v :: v in m' <==> if IsInner(chains, v) then StartOf(chains, v) in m else v in m
  }

  ghost function InnerVars(chains: seq<seq<Clause>>): set<string> {
    set k, i | 0 <= k < |chains| && 0 <= i < |chains[k]| && chains[k][i].Flow? :: chains[k][i].b
  }

  ghost function Extension(chains: seq<seq<Clause>>, m: Model): (m': Model)
    ensures Extends(chains, m, m')
  {
    set v | v in m + InnerVars(chains) && (if IsInner(chains, v) then StartOf(chains, v) in m else v in m)
  }

  /** Clause i of chain k holds in the extension. */
  lemma ChainHolds(all: seq<Clause>, chains: seq<seq<Clause>>, m: Model, m': Model, k: nat, i: nat)
    requires Chains(all, chains) && Extends(chains, m, m') && k < |chains| && i < |chains[k]|
    requires Chain(all, chains[k]) && Holds(m, MetaOf(chains[k]))
    ensures Holds(m', chains[k][i])
  {
    var ch, last := chains[k], |chains[k]| - 1;
    if i == 0 {
      EndIsOuter(all, chains, k, 0, ch[0].a);
    } else {
      assert LinkedAt(all, ch, i - 1);
      StepMeans(all, ch[i - 1], true, ch[i]);
      assert Inner(chains, k, i - 1, ch[i].a);
      StartIsUnique(all, chains, k, i - 1, ch[i].a);
    }
    assert ch[i].a in m' <==> ch[0].a in m;
    if i == last {
      EndIsOuter(all, chains, k, last, ch[last].b);
    } else {
      assert Inner(chains, k, i, ch[i].b);
      StartIsUnique(all, chains, k, i, ch[i].b);
    }
  }

  /** A clause outside the chains has no inner variable. */
  lemma OuterHolds(all: seq<Clause>, chains: seq<seq<Clause>>, m: Model, m': Model, c: Clause)
    requires Chains(all, chains) && Extends(chains, m, m') && c in all && c !in Deleted(chains) && Holds(m, c)
    ensures Holds(m', c)
  {
    forall v | Contains(c, v)
      ensures !IsInner(chains, v)
    {
      if IsInner(chains, v) {
        var k, i :| Inner(chains, k, i, v);
        InnerOccurs(all, chains, k, i, v, c);
      }
    }
    if c.Other? {
      var l :| l in c.lits && ((l.0 in m) == l.1);
      assert Contains(c, l.0);
    }
  }

  /** Every model of the result, changed on inner variables only, is a model of the clauses. */
  lemma CollapseExtends(all: seq<Clause>, chains: seq<seq<Clause>>, result: seq<Clause>, m: Model)
    requires Collapsed(all, chains, result) && Satisfies(m, result)
    ensures Satisfies(Extension(chains, m), all)
    ensures forall v :: !IsInner(chains, v) ==> (v in Extension(chains, m) <==> v in m)
  {
    var m' := Extension(chains, m);
    forall c | c in all
      ensures Holds(m', c)
    {
      if c in Deleted(chains) {
        var k, i :| 0 <= k < |chains| && 0 <= i < |chains[k]| && c == chains[k][i];
        assert Chain(all, chains[k]) && MetaOf(chains[k]) in result;
        ChainHolds(all, chains, m, m', k, i);
      } else {
        OuterHolds(all, chains, m, m', c);
      }
    }
  }

  /** The collapse keeps satisfiability in both directions. */
  lemma CollapseIsEquisatisfiable(all: seq<Clause>, chains: seq<seq<Clause>>, result: seq<Clause>)
    requires Collapsed(all, chains, result)
    ensures (exists m :: Satisfies(m, all)) <==> (exists m :: Satisfies(m, result))
  {
    if m :| Satisfies(m, all) { CollapseIsImplied(all, chains, result, m); }
    if m :| Satisfies(m, result) { CollapseExtends(all, chains, result, m); }
  }

  // ----- The algorithm -----

  type Index = map<string, set<Clause>>

  function VarsOf(c: Clause): set<string> {
    match c
    case Flow(a, b) => {a, b}
    case Meta(a, b) => {a, b}
    case Other(lits) => set l | l in lits :: l.0
  }

  function Lookup(containing: Index, v: string): set<Clause> { if v in containing then containing[v] else {} }

  /** The clauses that contain each variable. */
  ghost predicate Indexes(all: seq<Clause>, containing: Index) {
    forall v, c :: c in Lookup(containing, v) <==> c in all && Contains(c, v)
  }

  method AddToIndex(containing0: Index, c: Clause, vs: set<string>) returns (containing: Index)
    ensures forall v :: Lookup(containing, v) == Lookup(containing0, v) + if v in vs then {c} else {}
  {
    containing := containing0;
    var rest, done: set<string> := vs, {};
    while rest != {}
      invariant done + rest == vs
      invariant forall v :: Lookup(containing, v) == Lookup(containing0, v) + if v in done then {c} else {}
    {
      var v :| v in rest;
      ghost var before := containing;
      containing := containing[v := Lookup(containing, v) + {c}];
      assert forall u :: Lookup(containing, u) == Lookup(before, u) + if u == v then {c} else {};
      rest, done := rest - {v}, done + {v};
    }
    assert done == vs;
  }

  lemma VarsAreContained(c: Clause, v: string)
    ensures v in VarsOf(c) <==> Contains(c, v)
  {
  }

  method BuildIndex(all: seq<Clause>) returns (containing: Index)
    ensures Indexes(all, containing)
  {
    containing := map[];
    for i := 0 to |all|
      invariant Indexes(all[..i], containing)
    {
      assert all[..i + 1] == all[..i] + [all[i]];
      ghost var before := containing;
      containing := AddToIndex(containing, all[i], VarsOf(all[i]));
      forall v, c
        ensures c in Lookup(containing, v) <==> c in all[..i + 1] && Contains(c, v)
      {
        VarsAreContained(all[i], v);
        assert c in Lookup(before, v) <==> c in all[..i] && Contains(c, v);
      }
    }
    assert all[..|all|] == all;
  }

  method NextStepClause(ghost all: seq<Clause>, containing: Index, c: Clause, fwd: bool) returns (o: Outcome)
    requires Indexes(all, containing) && c in all && c.Flow?
    ensures o == Step(all, c, fwd)
  {
    var v := End(c, fwd);
    var others := Lookup(containing, v) - {c};
    assert others == Others(all, c, v);
    if |others| != 1 { return Stop; }
    var d :| d in others;
    forall e | e in others ensures e == d { Singleton(others, e, d); }
    if !d.Flow? { return Stop; }
    return if Follows(d, v, fwd) then Go(d) else Trip;
  }

  /** The steps from c in one direction, up to where they stop. */
  ghost predicate Steps(all: seq<Clause>, c: Clause, fwd: bool, ds: seq<Clause>) {
    && (forall i :: 0 <= i < |ds| ==> ds[i].Flow? && ds[i] in all && ds[i].a != ds[i].b)
    && (forall i :: 0 <= i < |ds| ==> StepAt(all, c, fwd, ds, i))
  }

  ghost predicate StepAt(all: seq<Clause>, c: Clause, fwd: bool, ds: seq<Clause>, i: nat)
    requires i < |ds|
  {
    var from := if i == 0 then c else ds[i - 1];
    from.Flow? && Step(all, from, fwd) == Go(ds[i])
  }

  /** Nothing continues the steps. */
  ghost predicate StopsAt(all: seq<Clause>, c: Clause, fwd: bool, ds: seq<Clause>) {
    c.Flow? && Steps(all, c, fwd, ds) && Step(all, LastOf(c, ds), fwd) == Stop
  }

  /** A walk from a clause of a chain stays on the chain. */
  lemma {:induction false} WalkOnChain(all: seq<Clause>, ch: seq<Clause>, i: nat, fwd: bool, ds: seq<Clause>, k: nat)
    requires Chain(all, ch) && i < |ch| && Steps(all, ch[i], fwd, ds) && k < |ds|
    ensures if fwd then i + 1 + k < |ch| && ds[k] == ch[i + 1 + k] else k < i && ds[k] == ch[i - 1 - k]
  {
    if k > 0 { WalkOnChain(all, ch, i, fwd, ds, k - 1); }
    assert StepAt(all, ch[i], fwd, ds, k);
    if fwd && i + k + 1 < |ch| { assert LinkedAt(all, ch, i + k); }
    if !fwd && k < i { assert LinkedAt(all, ch, i - 1 - k); }
  }

  /** On a chain there is nothing to trip over. */
  lemma NoTripOnChain(all: seq<Clause>, ch: seq<Clause>, c: Clause, fwd: bool, ds: seq<Clause>, back: seq<Clause>,
                      chains: seq<seq<Clause>>)
    requires Chain(all, ch) && c in ch && c.Flow? && Steps(all, c, fwd, ds) && Steps(all, c, !fwd, back)
    requires Chains(all, chains) && c !in Deleted(chains)
    ensures var o := Step(all, LastOf(c, ds), fwd);
            o == Stop || (o.Go? && o.d !in ds && o.d !in back && o.d !in Deleted(chains))
  {
    var i :| 0 <= i < |ch| && ch[i] == c;
    var j := if fwd then i + |ds| else i - |ds|;
    forall k | 0 <= k < |ds| ensures ds[k] in ch { WalkOnChain(all, ch, i, fwd, ds, k); }
    if ds != [] { WalkOnChain(all, ch, i, fwd, ds, |ds| - 1); }
    assert ch[j] == LastOf(c, ds);
    if fwd && j < |ch| - 1 { assert LinkedAt(all, ch, j); }
    if !fwd && j > 0 { assert LinkedAt(all, ch, j - 1); }
    var o := Step(all, LastOf(c, ds), fwd);
    if o != Stop {
      var next := if fwd then j + 1 else j - 1;
      assert o == Go(ch[next]);
      NotBefore(all, ch, i, fwd, ds, next);
      NotBefore(all, ch, i, !fwd, back, next);
      if o.d in Deleted(chains) {
        var k, l :| 0 <= k < |chains| && 0 <= l < |chains[k]| && chains[k][l] == o.d;
        SharedIsSame(all, ch, chains[k], o.d);
      }
    }
  }

  /** Further along a chain than a walk has come, or on its other side, lies nothing it has met. */
  lemma NotBefore(all: seq<Clause>, ch: seq<Clause>, i: nat, fwd: bool, ds: seq<Clause>, next: nat)
    requires Chain(all, ch) && i < |ch| && next < |ch| && Steps(all, ch[i], fwd, ds)
    requires if fwd then next <= i || next > i + |ds| else next >= i || next < i - |ds|
    ensures ch[next] !in ds
  {
    forall k | 0 <= k < |ds|
      ensures ds[k] != ch[next]
    {
      WalkOnChain(all, ch, i, fwd, ds, k);
      if ds[k] == ch[next] { SharedPosition(all, ch, ch, next, if fwd then i + 1 + k else i - 1 - k); }
    }
  }

  ghost predicate InChain(all: seq<Clause>, c: Clause) { exists ch :: Chain(all, ch) && c in ch }

  /** After the steps ds from c, what comes next does not line up or has come up before. */
  ghost predicate TripsAt(all: seq<Clause>, c: Clause, fwd: bool, hit0: set<Clause>, del: set<Lits>, ds: seq<Clause>) {
    c.Flow? && Steps(all, c, fwd, ds) &&
    var o := Step(all, LastOf(c, ds), fwd);
    o.Trip? || (ds != [] && o.Go? && (o.d in hit0 + ToSet(ds) || Key(o.d) in del))
  }

  /** Walks to the end of the chain, or trips. */
  method EndOfFlowChain(ghost all: seq<Clause>, containing: Index, c: Clause, fwd: bool, hit0: set<Clause>,
                        del: set<Lits>)
    returns (tripped: bool, ds: seq<Clause>, hit: set<Clause>)
    requires Indexes(all, containing) && c in all && c.Flow?
    ensures if tripped then TripsAt(all, c, fwd, hit0, del, ds)
            else Steps(all, c, fwd, ds) && StopsAt(all, c, fwd, ds) && hit == hit0 + ToSet(ds)
  {
    ds, hit := [], hit0;
    var next := NextStepClause(all, containing, c, fwd);
    while next.Go?
      invariant Steps(all, c, fwd, ds) && hit == hit0 + ToSet(ds) && next == Step(all, LastOf(c, ds), fwd)
      decreases ds == [], |ToSet(all) - hit|
    {
      var d := next.d;
      if ds != [] && (d in hit || Key(d) in del) { return true, ds, hit; }
      StepsNext(all, c, fwd, ds, d);
      StepSeen(all, hit0, hit, ds, d);
      ds, hit := ds + [d], hit + {d};
      next := NextStepClause(all, containing, d, fwd);
    }
    tripped := next.Trip?;
  }

  /** Clauses with the same literals are the same. */
  ghost predicate Keyed(all: seq<Clause>) { forall c, d :: c in all && d in all && Key(c) == Key(d) ==> c == d }

  /** What a walk from c may rely on. */
  ghost predicate Walkable(all: seq<Clause>, c: Clause, fwd: bool, hit0: set<Clause>, del: set<Lits>,
                           back: seq<Clause>, chains: seq<seq<Clause>>)
  {
    c.Flow? && Steps(all, c, !fwd, back) && hit0 == ToSet(back) && Chains(all, chains)
    && Keyed(all) && c in all && del == KeySet(Deleted(chains)) && Key(c) !in del
  }

  lemma NoTripOnChains(all: seq<Clause>, c: Clause, fwd: bool, hit0: set<Clause>, del: set<Lits>, ds: seq<Clause>,
                       back: seq<Clause>, chains: seq<seq<Clause>>)
    requires Walkable(all, c, fwd, hit0, del, back, chains) && TripsAt(all, c, fwd, hit0, del, ds)
    ensures Step(all, c, fwd) != Stop && !InChain(all, c)
  {
    if ds != [] { assert StepAt(all, c, fwd, ds, 0); }
    if InChain(all, c) {
      var ch :| Chain(all, ch) && c in ch;
      NoTripOnChain(all, ch, c, fwd, ds, back, chains);
    }
  }

  function LastOf(c: Clause, ds: seq<Clause>): (d: Clause)
    requires c.Flow? && forall i :: 0 <= i < |ds| ==> ds[i].Flow?
    ensures d.Flow?
  {
    if ds == [] then c else ds[|ds| - 1]
  }

  lemma StepSeen(all: seq<Clause>, hit0: set<Clause>, hit: set<Clause>, ds: seq<Clause>, d: Clause)
    requires hit == hit0 + ToSet(ds) && d in all
    ensures hit + {d} == hit0 + ToSet(ds + [d])
    ensures d !in hit ==> |ToSet(all) - (hit + {d})| < |ToSet(all) - hit|
  {
    if d !in hit { Fewer(ToSet(all) - (hit + {d}), ToSet(all) - hit, d); }
  }

  lemma {:induction false} Fewer(a: set<Clause>, b: set<Clause>, x: Clause)
    requires a <= b && x in b && x !in a
    ensures |a| < |b|
  {
    if a != {} {
      var y :| y in a;
      Fewer(a - {y}, b - {y}, x);
      assert a == (a - {y}) + {y} && b == (b - {y}) + {y};
    }
  }

  lemma StepsNext(all: seq<Clause>, c: Clause, fwd: bool, ds: seq<Clause>, d: Clause)
    requires c.Flow? && c in all && Steps(all, c, fwd, ds) && Step(all, LastOf(c, ds), fwd) == Go(d)
    ensures d.Flow? && d in all && Steps(all, c, fwd, ds + [d])
  {
    StepMeans(all, LastOf(c, ds), fwd, d);
    forall i | 0 <= i < |ds| + 1
      ensures StepAt(all, c, fwd, ds + [d], i)
    {
      if i < |ds| { assert StepAt(all, c, fwd, ds, i); }
    }
  }

  function Reversed(ds: seq<Clause>): (r: seq<Clause>)
    ensures |r| == |ds| && forall i :: 0 <= i < |ds| ==> r[i] == ds[|ds| - 1 - i]
  {
    seq(|ds|, i requires 0 <= i < |ds| => ds[|ds| - 1 - i])
  }

  /** The two walks from c together are a whole chain. */
  lemma WalksMakeChain(all: seq<Clause>, c: Clause, front: seq<Clause>, rear: seq<Clause>)
    requires c in all && c.Flow? && rear != []
    requires Steps(all, c, false, front) && StopsAt(all, c, false, front)
    requires Steps(all, c, true, rear) && StopsAt(all, c, true, rear)
    ensures Chain(all, Reversed(front) + [c] + rear)
  {
    var ch := Reversed(front) + [c] + rear;
    assert StepAt(all, c, true, rear, 0);
    StepBack(all, c, true, rear[0]);
    NotToItself(all, c, front, rear);
    forall i | 0 <= i < |ch| - 1
      ensures LinkedAt(all, ch, i)
    {
      if i < |front| {
        var k := |front| - 1 - i;
        assert StepAt(all, c, false, front, k);
        StepBack(all, ch[i + 1], false, ch[i]);
      } else {
        var k := i - |front|;
        assert StepAt(all, c, true, rear, k);
        StepBack(all, ch[i], true, ch[i + 1]);
      }
    }
  }

  /** A clause a -> a is never part of a chain: the walk back from it trips. */
  lemma NotToItself(all: seq<Clause>, c: Clause, front: seq<Clause>, rear: seq<Clause>)
    requires c in all && c.Flow? && rear != []
    requires Steps(all, c, false, front) && StopsAt(all, c, false, front) && Steps(all, c, true, rear)
    ensures c.a != c.b
  {
    assert StepAt(all, c, true, rear, 0);
    StepMeans(all, c, true, rear[0]);
    if c.a == c.b {
      if front != [] {
        assert StepAt(all, c, false, front, 0);
        StepMeans(all, c, false, front[0]);
      }
    }
  }

  lemma DeletedNext(chains: seq<seq<Clause>>, ch: seq<Clause>)
    ensures Deleted(chains + [ch]) == Deleted(chains) + ToSet(ch)
  {
    var more := chains + [ch];
    forall c | c in ToSet(ch)
      ensures c in Deleted(more)
    {
      var i :| 0 <= i < |ch| && ch[i] == c;
      assert more[|chains|][i] == c;
    }
    forall c | c in Deleted(chains)
      ensures c in Deleted(more)
    {
      var k, i :| 0 <= k < |chains| && 0 <= i < |chains[k]| && chains[k][i] == c;
      assert more[k][i] == c;
    }
  }

  /** One round for a clause that is not deleted: the chain it is in the middle or at the start of. */
  method CollapseFrom(all: seq<Clause>, containing: Index, c: Clause, del: set<Lits>, ghost chains: seq<seq<Clause>>)
    returns (tripped: bool, ch: seq<Clause>)
    requires Indexes(all, containing) && Walkable(all, c, true, {}, del, [], chains)
    ensures !tripped && ch == [] ==> Step(all, c, true) == Stop
    ensures !tripped && ch != [] ==> Chain(all, ch) && c in ch
    ensures tripped ==> Step(all, c, true) != Stop && !InChain(all, c)
  {
    var rear, front, hit;
    tripped, rear, hit := EndOfFlowChain(all, containing, c, true, {}, del);
    if tripped {
      NoTripOnChains(all, c, true, {}, del, rear, [], chains);
      return true, [];
    }
    if rear == [] { return false, []; }
    assert StepAt(all, c, true, rear, 0);
    tripped, front, hit := EndOfFlowChain(all, containing, c, false, hit, del);
    if tripped {
      NoTripOnChains(all, c, false, ToSet(rear), del, front, rear, chains);
      return true, [];
    }
    WalksMakeChain(all, c, front, rear);
    ch := Reversed(front) + [c] + rear;
    assert ch[|front|] == c;
  }

  /** Some clause can be joined to a next one but is in no chain: the walk from it trips. */
  ghost predicate Trips(all: seq<Clause>) {
    exists c :: c in all && c.Flow? && Step(all, c, true) != Stop && !InChain(all, c)
  }

  ghost predicate SettledAt(all: seq<Clause>, c: Clause, del: set<Clause>) {
    c.Flow? && c !in del ==> Step(all, c, true) == Stop
  }

  /** None of the first n clauses that are left can be joined to a next one. */
  ghost predicate Settled(all: seq<Clause>, n: nat, del: set<Clause>) {
    n <= |all| && forall k :: 0 <= k < n ==> SettledAt(all, all[k], del)
  }

  lemma SettledNext(all: seq<Clause>, n: nat, before: set<Clause>, after: set<Clause>)
    requires n < |all| && Settled(all, n, before) && before <= after && SettledAt(all, all[n], after)
    ensures Settled(all, n + 1, after)
  {
    forall k | 0 <= k < n ensures SettledAt(all, all[k], after) { assert SettledAt(all, all[k], before); }
  }

  /** Every chain has been found, and no clause outside them can be joined to a next one. */
  ghost predicate AllChains(all: seq<Clause>, chains: seq<seq<Clause>>) {
    Chains(all, chains) && Settled(all, |all|, Deleted(chains))
  }

  lemma AllFoundIsNoTrip(all: seq<Clause>, chains: seq<seq<Clause>>)
    requires AllChains(all, chains)
    ensures !Trips(all)
  {
    forall c | c in all && c.Flow? && Step(all, c, true) != Stop
      ensures InChain(all, c)
    {
      var n :| 0 <= n < |all| && all[n] == c;
      assert SettledAt(all, all[n], Deleted(chains));
      var k, i :| 0 <= k < |chains| && 0 <= i < |chains[k]| && chains[k][i] == c;
      assert Chain(all, chains[k]);
    }
  }

  ghost function MetaAt(all: seq<Clause>, chains: seq<seq<Clause>>, k: nat): (m: Clause)
    requires Chains(all, chains) && k < |chains|
    ensures m.Meta?
  {
    assert Chain(all, chains[k]);
    MetaOf(chains[k])
  }

  /** The implications that stand for the chains. */
  ghost function MetasOf(all: seq<Clause>, chains: seq<seq<Clause>>): (ms: seq<Clause>)
    requires Chains(all, chains)
    ensures AllMetas(ms) && |ms| == |chains| && forall k :: 0 <= k < |ms| ==> ms[k] == MetaOf(chains[k])
  {
    seq(|chains|, k requires 0 <= k < |chains| => MetaAt(all, chains, k))
  }

  lemma MetasNext(all: seq<Clause>, chains: seq<seq<Clause>>, ch: seq<Clause>)
    requires Chains(all, chains) && Chain(all, ch)
    ensures Chains(all, chains + [ch]) && MetasOf(all, chains + [ch]) == MetasOf(all, chains) + [MetaOf(ch)]
  {
    var more := chains + [ch];
    forall k | 0 <= k < |more| ensures Chain(all, more[k]) { if k < |chains| { assert more[k] == chains[k]; } }
  }

  lemma DeletedIsFlow(info: Info, keys: seq<Lits>, chains: seq<seq<Clause>>)
    requires Proper(info) && Chains(TypedAll(info, keys), chains)
    ensures Replaced(info, TypedAll(info, keys), Deleted(chains), MetasOf(TypedAll(info, keys), chains))
  {
    TypedIsKnown(info, keys);
    forall c | c in Deleted(chains)
      ensures c.Flow? && Known(info, c)
    {
      var k, i :| 0 <= k < |chains| && 0 <= i < |chains[k]| && chains[k][i] == c;
      assert Chain(TypedAll(info, keys), chains[k]);
    }
  }

  /** What is returned: the literals outside the chains and those of one implication a chain, in
      order, and the information as it is then. */
  ghost predicate Returned(info0: Info, keys: seq<Lits>, chains: seq<seq<Clause>>, result: seq<Lits>, info: Info) {
    var all := TypedAll(info0, keys);
    AllChains(all, chains) &&
    var ms := MetasOf(all, chains);
    result == KeysOf(Ideal(all, Deleted(chains), ms)) && info == Filed(info0, ms)
  }

  lemma FewerLeft(all: seq<Clause>, chains: seq<seq<Clause>>, ch: seq<Clause>, c: Clause)
    requires Chain(all, ch) && c in ch && c !in Deleted(chains)
    ensures Deleted(chains + [ch]) == Deleted(chains) + ToSet(ch) && c in ToSet(ch)
    ensures |ToSet(all) - Deleted(chains + [ch])| < |ToSet(all) - Deleted(chains)|
  {
    DeletedNext(chains, ch);
    Fewer(ToSet(all) - Deleted(chains + [ch]), ToSet(all) - Deleted(chains), c);
  }

  /** Taken out by its literals is taken out. */
  lemma TakenOut(info: Info, keys: seq<Lits>, chains: seq<seq<Clause>>, c: Clause)
    requires Proper(info) && Chains(TypedAll(info, keys), chains) && c in TypedAll(info, keys)
    ensures Key(c) in KeySet(Deleted(chains)) <==> c in Deleted(chains)
  {
    DeletedIsFlow(info, keys, chains);
    if Key(c) in KeySet(Deleted(chains)) {
      var d :| d in Deleted(chains) && Key(d) == Key(c);
      assert Known(info, d) && Known(info, c);
    }
  }

  /** One round: the clause at a place of the list, and the chain it is in. */
  method CollapseAt(ghost info0: Info, ghost keys: seq<Lits>, all: seq<Clause>, containing: Index, c: Clause,
                    delKeys: set<Lits>,
                    ghost chains: seq<seq<Clause>>)
    returns (tripped: bool, ch: seq<Clause>)
    requires Proper(info0) && all == TypedAll(info0, keys) && Indexes(all, containing) && Chains(all, chains)
    requires delKeys == KeySet(Deleted(chains)) && (c.Flow? ==> c in all)
    ensures tripped ==> Trips(all)
    ensures !tripped && ch != [] ==> Chain(all, ch) && c in ch && c !in Deleted(chains)
    ensures !tripped && ch == [] && c in all ==> SettledAt(all, c, Deleted(chains))
  {
    if Key(c) in delKeys || !c.Flow? {
      if c in all { TakenOut(info0, keys, chains, c); }
      return false, [];
    }
    TakenOut(info0, keys, chains, c);
    TypedIsKnown(info0, keys);
    assert Steps(all, c, false, []);
    tripped, ch := CollapseFrom(all, containing, c, delKeys, chains);
  }

  /** Collapses every chain, or trips; the list of clauses grows while it is walked. */
  method CollapseFlow(keys: seq<Lits>, info0: Info)
    returns (tripped: bool, result: seq<Lits>, info: Info, ghost chains: seq<seq<Clause>>)
    requires Proper(info0)
    ensures tripped <==> Trips(TypedAll(info0, keys))
    ensures !tripped ==> Returned(info0, keys, chains, result, info)
  {
    var all := TypedAll(info0, keys);
    var containing := BuildIndex(all);
    var list, delKeys := keys, {};
    ghost var ms: seq<Clause> := [];
    info, chains, result := info0, [], [];
    var i := 0;
    while i < |list|
      invariant i <= |list| && Chains(all, chains) && ms == MetasOf(all, chains)
      invariant Progress(info0, keys, ms, Deleted(chains), list, info, delKeys)
      invariant Settled(all, if i <= |keys| then i else |keys|, Deleted(chains))
      decreases |ToSet(all) - Deleted(chains)|, |list| - i
    {
      AtPlace(info0, keys, ms, Deleted(chains), list, info, delKeys, i);
      ghost var before := Deleted(chains);
      var c := Typed(info, list[i]);
      var ch;
      tripped, ch := CollapseAt(info0, keys, all, containing, c, delKeys, chains);
      if tripped { return; }
      if ch != [] {
        FewerLeft(all, chains, ch, c);
        MetasNext(all, chains, ch);
        ProgressNext(info0, keys, ms, Deleted(chains), list, info, delKeys, MetaOf(ch), ch);
        list, info, delKeys := list + [Key(MetaOf(ch))], info[Key(MetaOf(ch)) := MetaOf(ch)], delKeys + KeySetOf(ch);
        ms, chains := ms + [MetaOf(ch)], chains + [ch];
      }
      if i < |keys| {
        assert all[i].Flow? ==> all[i] == c;
        SettledNext(all, i, before, Deleted(chains));
      }
      i := i + 1;
    }
    DeletedIsFlow(info0, keys, chains);
    ProgressIsReturned(info0, keys, all, ms, Deleted(chains), list, info, delKeys);
    AllFoundIsNoTrip(all, chains);
    tripped, result := false, WithoutKeys(list, delKeys);
  }

  // ----- Reading the result back -----

  /** What is read back is the collapsed clauses exactly when no two chains have swapped ends and no
      kept clause consists of the two positive literals of a chain's ends. */
  lemma ReadBackIsCollapsedIff(info0: Info, keys: seq<Lits>, chains: seq<seq<Clause>>, result: seq<Lits>, info: Info)
    requires Proper(info0) && Returned(info0, keys, chains, result, info)
    ensures var all := TypedAll(info0, keys);
            var ms := MetasOf(all, chains);
            (TypedAll(info, result) == Ideal(all, Deleted(chains), ms) <==> NoClash(all, Deleted(chains), ms))
            && Collapsed(all, chains, Ideal(all, Deleted(chains), ms))
  {
    var all := TypedAll(info0, keys);
    DeletedIsFlow(info0, keys, chains);
    ReadBackIff(info0, all, Deleted(chains), MetasOf(all, chains));
    WithoutHolds(all, Deleted(chains));
    forall k | 0 <= k < |chains|
      ensures MetaOf(chains[k]) in MetasOf(all, chains)
    {
      assert MetasOf(all, chains)[k] == MetaOf(chains[k]);
    }
  }

  /** Then the result, read back, is satisfiable exactly when the clauses are, and its models extend
      to theirs. */
  lemma ReadBackIsEquisatisfiable(info0: Info, keys: seq<Lits>, chains: seq<seq<Clause>>, result: seq<Lits>, info: Info)
    requires Proper(info0) && Returned(info0, keys, chains, result, info)
    requires NoClash(TypedAll(info0, keys), Deleted(chains), MetasOf(TypedAll(info0, keys), chains))
    ensures (exists m :: Satisfies(m, TypedAll(info0, keys))) <==> (exists m :: Satisfies(m, TypedAll(info, result)))
    ensures forall m :: Satisfies(m, TypedAll(info, result)) ==> Satisfies(Extension(chains, m), TypedAll(info0, keys))
  {
    var all, read := TypedAll(info0, keys), TypedAll(info, result);
    ReadBackIsCollapsedIff(info0, keys, chains, result, info);
    CollapseIsEquisatisfiable(all, chains, read);
    forall m | Satisfies(m, read)
      ensures Satisfies(Extension(chains, m), all)
    {
      CollapseExtends(all, chains, read, m);
    }
  }
}
