/** Explaining an unsatisfiable core: unit propagation that always takes the first unit clause of the
    smallest priority level that has one. */
module UnitPropagation {

  datatype Lit = Pos(name: string) | Neg(name: string) {
    function Negated(): Lit { if Pos? then Neg(name) else Pos(name) }
  }

  datatype Clause = Clause(lits: seq<Lit>, priority: nat, comment: string)

  /** Both literals of a variable are entered. */
  type Assignment = map<Lit, bool>

  datatype Reduced = Satisfied | Falsified | Open(lits: seq<Lit>)

  // ----- Meaning -----

  /** A model is given by the variables it makes true. */
  ghost predicate Holds(model: set<string>, l: Lit) { if l.Pos? then l.name in model else l.name !in model }

  ghost predicate HoldsClause(model: set<string>, c: Clause) { exists l :: l in c.lits && Holds(model, l) }

  ghost predicate Models(model: set<string>, core: seq<Clause>) { forall c :: c in core ==> HoldsClause(model, c) }

  ghost predicate Satisfiable(core: seq<Clause>) { exists model :: Models(model, core) }

  ghost predicate Consistent(asgn: Assignment) { forall l :: Opposed(asgn, l) }

  /** A literal is assigned when its negation is, and oppositely. */
  ghost predicate Opposed(asgn: Assignment, l: Lit) {
    (l in asgn <==> l.Negated() in asgn) && (l in asgn ==> asgn[l.Negated()] == !asgn[l])
  }

  // ----- Reducing a clause -----

  /** The literals that are not assigned. */
  function Unassigned(lits: seq<Lit>, asgn: Assignment): seq<Lit> {
    if lits == [] then [] else (if lits[0] in asgn then [] else [lits[0]]) + Unassigned(lits[1..], asgn)
  }

  ghost predicate HasTrue(lits: seq<Lit>, asgn: Assignment) { exists l :: l in lits && l in asgn && asgn[l] }

  lemma {:induction false} UnassignedMember(lits: seq<Lit>, asgn: Assignment, l: Lit)
    ensures l in Unassigned(lits, asgn) <==> l in lits && l !in asgn
  {
    if lits != [] { UnassignedMember(lits[1..], asgn, l); }
  }

  lemma {:induction false} UnassignedConcat(xs: seq<Lit>, ys: seq<Lit>, asgn: Assignment)
    ensures Unassigned(xs + ys, asgn) == Unassigned(xs, asgn) + Unassigned(ys, asgn)
  {
    if xs == [] {
      assert xs + ys == ys;
    } else {
      UnassignedConcat(xs[1..], ys, asgn);
      assert (xs + ys)[1..] == xs[1..] + ys;
    }
  }

  method SubstUnderAsgn(lits: seq<Lit>, asgn: Assignment) returns (r: Reduced)
    ensures r.Satisfied? <==> HasTrue(lits, asgn)
    ensures r.Falsified? <==> !HasTrue(lits, asgn) && Unassigned(lits, asgn) == []
    ensures r.Open? ==> r.lits == Unassigned(lits, asgn)
  {
    var ret := [];
    for i := 0 to |lits|
      invariant ret == Unassigned(lits[..i], asgn) && !HasTrue(lits[..i], asgn)
    {
      assert lits[..i + 1] == lits[..i] + [lits[i]];
      UnassignedConcat(lits[..i], [lits[i]], asgn);
      if lits[i] in asgn {
        if asgn[lits[i]] { return Satisfied; }
      } else {
        ret := ret + [lits[i]];
      }
    }
    assert lits[..|lits|] == lits;
    return if ret == [] then Falsified else Open(ret);
  }

  // ----- Explanations -----

  /** A line of an explanation: a clause forced a literal, or all its literals are false. */
  datatype Line = Forced(clause: Clause, lit: Lit) | Broken(clause: Clause)

  ghost predicate Forces(line: Line, l: Lit) { line.Forced? && line.lit == l }

  ghost predicate FalseBefore(lines: seq<Line>, n: nat, l: Lit) {
    exists k :: 0 <= k < n && k < |lines| && Forces(lines[k], l.Negated())
  }

  /** The clause is in the core, and its literals, other than the one it forces, are false by
      earlier lines. */
  ghost predicate Justified(core: seq<Clause>, lines: seq<Line>, n: nat)
    requires n < |lines|
  {
    && lines[n].clause in core && (lines[n].Forced? ==> lines[n].lit in lines[n].clause.lits)
    && forall l :: l in lines[n].clause.lits && !Forces(lines[n], l) ==> FalseBefore(lines, n, l)
  }

  ghost predicate Explanation(core: seq<Clause>, lines: seq<Line>) {
    forall n :: 0 <= n < |lines| ==> Justified(core, lines, n)
  }

  /** What an explanation forces holds in every model. */
  lemma {:induction false} ForcedIsEntailed(core: seq<Clause>, lines: seq<Line>, model: set<string>, n: nat)
    requires Explanation(core, lines) && Models(model, core) && n < |lines|
    ensures lines[n].Forced? && Holds(model, lines[n].lit)
    decreases n
  {
    var c := lines[n].clause;
    assert Justified(core, lines, n) && HoldsClause(model, c);
    var l :| l in c.lits && Holds(model, l);
    if !Forces(lines[n], l) {
      var k :| 0 <= k < n && k < |lines| && Forces(lines[k], l.Negated());
      ForcedIsEntailed(core, lines, model, k);
    }
  }

  /** A line with a broken clause refutes the core. */
  lemma BrokenRefutes(core: seq<Clause>, lines: seq<Line>, n: nat)
    requires Explanation(core, lines) && n < |lines| && lines[n].Broken?
    ensures !Satisfiable(core)
  {
    forall model ensures !Models(model, core) {
      if Models(model, core) { ForcedIsEntailed(core, lines, model, n); }
    }
  }

  // ----- The loop -----

  ghost predicate IsUnit(c: Clause, asgn: Assignment) { !HasTrue(c.lits, asgn) && |Unassigned(c.lits, asgn)| == 1 }

  ghost predicate IsFalsified(c: Clause, asgn: Assignment) { !HasTrue(c.lits, asgn) && Unassigned(c.lits, asgn) == [] }

  /** A clause that ends the scan: a unit clause, or a falsified one unless a whole assignment is
      asked for. */
  ghost predicate Stops(c: Clause, asgn: Assignment, writeAsgn: bool) {
    IsUnit(c, asgn) || (!writeAsgn && IsFalsified(c, asgn))
  }

  /** The clause at j is scanned before the one at i: its priority is a smaller one, or the same and it
      comes earlier in the core.  Priorities run from 1 to levels. */
  ghost predicate Sooner(core: seq<Clause>, levels: nat, j: nat, i: nat) {
    && j < |core| && i < |core| && 1 <= core[j].priority <= levels
    && (core[j].priority < core[i].priority || (core[j].priority == core[i].priority && j < i))
  }

  /** Where the clauses of one level are in the core. */
  ghost function Positions(core: seq<Clause>, pri: nat): (ps: seq<nat>)
    ensures forall j :: j in ps <==> 0 <= j < |core| && core[j].priority == pri
    ensures forall m :: 0 <= m < |ps| ==> ps[m] < |core|
    ensures forall m, n :: 0 <= m < n < |ps| ==> ps[m] < ps[n]
    decreases |core|
  {
    if core == [] then [] else
      var last := |core| - 1;
      assert forall j :: 0 <= j < last ==> core[..last][j] == core[j];
      Positions(core[..last], pri) + if core[last].priority == pri then [last] else []
  }

  /** The clauses of one level, as they are collected. */
  ghost predicate IsLevel(core: seq<Clause>, pri: nat, level: seq<Clause>) {
    |level| == |Positions(core, pri)| && forall m :: 0 <= m < |level| ==> level[m] == core[Positions(core, pri)[m]]
  }

  function Level(groups: map<nat, seq<Clause>>, pri: nat): seq<Clause> { if pri in groups then groups[pri] else [] }

  lemma LevelGrows(core: seq<Clause>, c: Clause, pri: nat, level: seq<Clause>)
    requires IsLevel(core, pri, level)
    ensures IsLevel(core + [c], pri, if c.priority == pri then level + [c] else level)
  {
    assert (core + [c])[..|core|] == core;
  }

  ghost predicate Grouped(core: seq<Clause>, groups: map<nat, seq<Clause>>) {
    forall pri: nat :: IsLevel(core, pri, Level(groups, pri))
  }

  lemma GroupedNext(core: seq<Clause>, groups: map<nat, seq<Clause>>, c: Clause)
    requires Grouped(core, groups)
    ensures Grouped(core + [c], groups[c.priority := Level(groups, c.priority) + [c]])
  {
    var more := groups[c.priority := Level(groups, c.priority) + [c]];
    forall pri: nat
      ensures IsLevel(core + [c], pri, Level(more, pri))
    {
      LevelGrows(core, c, pri, Level(groups, pri));
      assert Level(more, pri) == if c.priority == pri then Level(groups, pri) + [c] else Level(groups, pri);
    }
  }

  /** Files the clauses under their priorities, in the order of the core. */
  method GroupByPriority(core: seq<Clause>) returns (groups: map<nat, seq<Clause>>)
    ensures Grouped(core, groups)
  {
    groups := map[];
    assert core[..0] == [];
    for i := 0 to |core|
      invariant Grouped(core[..i], groups)
    {
      GroupedNext(core[..i], groups, core[i]);
      assert core[..i + 1] == core[..i] + [core[i]];
      groups := groups[core[i].priority := Level(groups, core[i].priority) + [core[i]]];
    }
    assert core[..|core|] == core;
  }

  /** The assignment and the line numbers say what the lines forced. */
  ghost predicate Records(lines: seq<Line>, asgn: Assignment, forcedBy: map<Lit, nat>) {
    && Consistent(asgn) && forcedBy.Keys == asgn.Keys
    && (forall l :: NumberedBy(lines, asgn, forcedBy, l))
    && (forall k :: 0 <= k < |lines| && lines[k].Forced? ==> lines[k].lit in asgn && asgn[lines[k].lit])
  }

  /** The number of an assigned literal is that of the line that forced it or its negation. */
  ghost predicate NumberedBy(lines: seq<Line>, asgn: Assignment, forcedBy: map<Lit, nat>, l: Lit)
    requires forcedBy.Keys == asgn.Keys
  {
    l in asgn ==> 1 <= forcedBy[l] <= |lines| && Forces(lines[forcedBy[l] - 1], if asgn[l] then l else l.Negated())
  }

  /** What ends a scan. */
  datatype Found = Nothing | FoundUnit(clause: Clause, lit: Lit) | FoundBroken(clause: Clause)

  /** What is found is a unit clause, with the literal that is left, or a falsified one. */
  ghost predicate Fits(asgn: Assignment, writeAsgn: bool, found: Found) {
    match found
    case Nothing => true
    case FoundUnit(c, l) => Unassigned(c.lits, asgn) == [l] && !HasTrue(c.lits, asgn)
    case FoundBroken(c) => !writeAsgn && IsFalsified(c, asgn)
  }

  /** The clause at k has been scanned when the scan ends. */
  ghost predicate Scanned(core: seq<Clause>, levels: nat, found: Found, place: nat, k: nat) {
    k < |core| && 1 <= core[k].priority <= levels && (found.Nothing? || Sooner(core, levels, k, place))
  }

  /** The scan over the core stops at the clause at `place`, and no clause scanned sooner would have
      stopped it; or nothing stops it. */
  ghost predicate StopsFirst(core: seq<Clause>, levels: nat, asgn: Assignment, writeAsgn: bool, found: Found,
                             place: nat) {
    && Fits(asgn, writeAsgn, found)
    && (!found.Nothing? ==> place < |core| && core[place] == found.clause && 1 <= core[place].priority <= levels)
    && forall j: nat :: Scanned(core, levels, found, place, j) ==> !Stops(core[j], asgn, writeAsgn)
  }

  /** The positions of the falsified clauses that a scan for a whole assignment passes over, in the order
      of the scan. */
  ghost predicate PassedOver(core: seq<Clause>, levels: nat, asgn: Assignment, writeAsgn: bool, found: Found,
                             place: nat,
                             ks: seq<nat>) {
    && (forall k: nat :: k in ks <==> writeAsgn && Scanned(core, levels, found, place, k) && IsFalsified(core[k], asgn))
    && (forall m: nat, n: nat :: m < n < |ks| ==> Sooner(core, levels, ks[m], ks[n]))
  }

  ghost predicate TakenFrom(core: seq<Clause>, ks: seq<nat>, cs: seq<Clause>) {
    |cs| == |ks| && forall m :: 0 <= m < |ks| ==> ks[m] < |core| && core[ks[m]] == cs[m]
  }

  /** The positions of the falsified clauses among the first i, and the clauses there. */
  ghost predicate NotedIn(clauses: seq<Clause>, asgn: Assignment, writeAsgn: bool, i: nat, ns: seq<nat>,
                          broken: seq<Clause>)
    requires i <= |clauses|
  {
    && (forall m: nat :: m in ns <==> m < i && writeAsgn && IsFalsified(clauses[m], asgn))
    && (forall m: nat, n: nat :: m < n < |ns| ==> ns[m] < ns[n])
    && TakenFrom(clauses, ns, broken)
  }

  lemma NotedMore(clauses: seq<Clause>, asgn: Assignment, writeAsgn: bool, i: nat, ns: seq<nat>, broken: seq<Clause>)
    requires i < |clauses| && NotedIn(clauses, asgn, writeAsgn, i, ns, broken)
    ensures writeAsgn && IsFalsified(clauses[i], asgn) ==>
              NotedIn(clauses, asgn, writeAsgn, i + 1, ns + [i], broken + [clauses[i]])
    ensures !(writeAsgn && IsFalsified(clauses[i], asgn)) ==> NotedIn(clauses, asgn, writeAsgn, i + 1, ns, broken)
  {
    assert forall m :: 0 <= m < |ns| ==> ns[m] in ns;
  }

  /** Scans one priority level; with a whole assignment asked for, falsified clauses are only noted. */
  method ScanLevel(clauses: seq<Clause>, asgn: Assignment, writeAsgn: bool)
    returns (found: Found, broken: seq<Clause>, ghost at: nat, ghost ns: seq<nat>)
    ensures Fits(asgn, writeAsgn, found) && at <= |clauses| && (found.Nothing? <==> at == |clauses|)
    ensures !found.Nothing? ==> clauses[at] == found.clause
    ensures forall m :: 0 <= m < at ==> !Stops(clauses[m], asgn, writeAsgn)
    ensures NotedIn(clauses, asgn, writeAsgn, at, ns, broken)
  {
    broken, ns := [], [];
    for i := 0 to |clauses|
      invariant forall m :: 0 <= m < i ==> !Stops(clauses[m], asgn, writeAsgn)
      invariant NotedIn(clauses, asgn, writeAsgn, i, ns, broken)
    {
      var c := clauses[i];
      var reduced := SubstUnderAsgn(c.lits, asgn);
      if reduced.Falsified? && !writeAsgn { return FoundBroken(c), broken, i, ns; }
      if reduced.Open? && |reduced.lits| == 1 {
        assert reduced.lits == [reduced.lits[0]];
        return FoundUnit(c, reduced.lits[0]), broken, i, ns;
      }
      NotedMore(clauses, asgn, writeAsgn, i, ns, broken);
      if reduced.Falsified? { broken, ns := broken + [c], ns + [i]; }
    }
    found, at := Nothing, |clauses|;
  }

  /** Where a level's own positions are in the core. */
  ghost function InCore(ps: seq<nat>, ns: seq<nat>): (ks: seq<nat>)
    requires forall m :: 0 <= m < |ns| ==> ns[m] < |ps|
    ensures |ks| == |ns| && forall m :: 0 <= m < |ns| ==> ks[m] == ps[ns[m]]
  {
    seq(|ns|, m requires 0 <= m < |ns| => ps[ns[m]])
  }

  /** The clauses of one level that have been scanned are those before `at`. */
  lemma ScannedOfLevel(core: seq<Clause>, levels: nat, pri: nat, level: seq<Clause>, found: Found, at: nat, place: nat,
                       k: nat)
    requires 1 <= pri <= levels && IsLevel(core, pri, level) && at <= |level| && (found.Nothing? <==> at == |level|)
    requires !found.Nothing? ==> place == Positions(core, pri)[at]
    ensures Scanned(core, if found.Nothing? then pri else levels, found, place, k) <==>
            k < |core| && 1 <= core[k].priority <= pri
              && (core[k].priority == pri ==> exists m :: 0 <= m < at && Positions(core, pri)[m] == k)
  {
    var ps := Positions(core, pri);
    if !found.Nothing? { assert ps[at] in ps && core[place].priority == pri; }
    if k < |core| && core[k].priority == pri {
      assert k in ps;
      var m :| 0 <= m < |ps| && ps[m] == k;
      if m < at {
        assert Positions(core, pri)[m] == k;
        if !found.Nothing? { assert ps[m] < ps[at]; }
      } else {
        assert forall n :: 0 <= n < at ==> ps[n] < ps[m];
        assert ps[at] <= ps[m];
      }
    }
  }

  /** What a scan of the levels before and one of the level itself come to. */
  lemma LevelScanned(core: seq<Clause>, levels: nat, pri: nat, level: seq<Clause>, asgn: Assignment, writeAsgn: bool,
                     found: Found, at: nat, place: nat)
    requires 1 <= pri <= levels && IsLevel(core, pri, level) && StopsFirst(core, pri - 1, asgn, writeAsgn, Nothing, 0)
    requires Fits(asgn, writeAsgn, found) && at <= |level| && (found.Nothing? <==> at == |level|)
    requires !found.Nothing? ==> level[at] == found.clause && place == Positions(core, pri)[at]
    requires forall m :: 0 <= m < at ==> !Stops(level[m], asgn, writeAsgn)
    ensures StopsFirst(core, if found.Nothing? then pri else levels, asgn, writeAsgn, found, place)
  {
    var ps, upTo := Positions(core, pri), if found.Nothing? then pri else levels;
    if !found.Nothing? { assert place in ps; }
    forall j: nat | Scanned(core, upTo, found, place, j)
      ensures !Stops(core[j], asgn, writeAsgn)
    {
      ScannedOfLevel(core, levels, pri, level, found, at, place, j);
      if core[j].priority < pri { assert Scanned(core, pri - 1, Nothing, 0, j); }
    }
  }

  lemma LevelPassed(core: seq<Clause>, levels: nat, pri: nat, level: seq<Clause>, asgn: Assignment, writeAsgn: bool,
                    found: Found, at: nat, place: nat, ks: seq<nat>, ns: seq<nat>, more: seq<Clause>)
    requires 1 <= pri <= levels && IsLevel(core, pri, level) && at <= |level| && (found.Nothing? <==> at == |level|)
    requires !found.Nothing? ==> place == Positions(core, pri)[at]
    requires PassedOver(core, pri - 1, asgn, writeAsgn, Nothing, 0, ks)
    requires NotedIn(level, asgn, writeAsgn, at, ns, more)
    ensures forall m :: 0 <= m < |ns| ==> ns[m] < |Positions(core, pri)|
    ensures PassedOver(core, if found.Nothing? then pri else levels, asgn, writeAsgn, found, place,
                       ks + InCore(Positions(core, pri), ns))
  {
    var ps := Positions(core, pri);
    assert forall m :: 0 <= m < |ns| ==> ns[m] in ns;
    var all, upTo := ks + InCore(ps, ns), if found.Nothing? then pri else levels;
    forall k: nat
      ensures k in all <==> writeAsgn && Scanned(core, upTo, found, place, k) && IsFalsified(core[k], asgn)
    {
      ScannedOfLevel(core, levels, pri, level, found, at, place, k);
      PassedInLevel(core, pri, level, asgn, writeAsgn, at, ks, ns, k);
    }
    LaterInLevel(core, pri, upTo, ks, ns);
  }

  lemma PassedInLevel(core: seq<Clause>, pri: nat, level: seq<Clause>, asgn: Assignment, writeAsgn: bool, at: nat,
                      ks: seq<nat>, ns: seq<nat>, k: nat)
    requires 1 <= pri && IsLevel(core, pri, level) && at <= |level|
    requires PassedOver(core, pri - 1, asgn, writeAsgn, Nothing, 0, ks)
    requires forall m: nat :: m in ns <==> m < at && writeAsgn && IsFalsified(level[m], asgn)
    requires forall m :: 0 <= m < |ns| ==> ns[m] < |Positions(core, pri)|
    ensures k in ks + InCore(Positions(core, pri), ns) <==>
            writeAsgn && k < |core| && 1 <= core[k].priority <= pri && IsFalsified(core[k], asgn)
              && (core[k].priority == pri ==> exists m :: 0 <= m < at && Positions(core, pri)[m] == k)
  {
    var ps, more := Positions(core, pri), InCore(Positions(core, pri), ns);
    assert k in ks ==> Scanned(core, pri - 1, Nothing, 0, k);
    if k in more {
      var m :| 0 <= m < |more| && more[m] == k;
      assert ns[m] in ns && ps[ns[m]] == k && k in ps;
    }
    if k < |core| && core[k].priority == pri && writeAsgn && IsFalsified(core[k], asgn) {
      if m :| 0 <= m < at && ps[m] == k {
        assert m in ns;
        var n :| 0 <= n < |ns| && ns[n] == m;
        assert more[n] == k;
      }
    }
    if k < |core| && 1 <= core[k].priority < pri { assert Scanned(core, pri - 1, Nothing, 0, k); }
  }

  lemma LaterInLevel(core: seq<Clause>, pri: nat, levels: nat, ks: seq<nat>, ns: seq<nat>)
    requires 1 <= pri <= levels && forall m :: 0 <= m < |ns| ==> ns[m] < |Positions(core, pri)|
    requires forall m: nat, n: nat :: m < n < |ns| ==> ns[m] < ns[n]
    requires forall m: nat, n: nat :: m < n < |ks| ==> Sooner(core, pri - 1, ks[m], ks[n])
    requires forall k :: k in ks ==> k < |core| && 1 <= core[k].priority < pri
    ensures var all := ks + InCore(Positions(core, pri), ns);
            forall m: nat, n: nat :: m < n < |all| ==> Sooner(core, levels, all[m], all[n])
  {
    var ps, more := Positions(core, pri), InCore(Positions(core, pri), ns);
    var all := ks + more;
    forall m: nat, n: nat | m < n < |all|
      ensures Sooner(core, levels, all[m], all[n])
    {
      if n >= |ks| { assert all[n] == ps[ns[n - |ks|]] && all[n] in ps; }
      if m >= |ks| { assert all[m] == ps[ns[m - |ks|]] && all[m] in ps; } else { assert all[m] in ks; }
      if n < |ks| { assert Sooner(core, pri - 1, ks[m], ks[n]); }
    }
  }

  lemma TakenInLevel(core: seq<Clause>, pri: nat, level: seq<Clause>, ks: seq<nat>, broken: seq<Clause>, ns: seq<nat>,
                     more: seq<Clause>)
    requires IsLevel(core, pri, level) && TakenFrom(core, ks, broken) && TakenFrom(level, ns, more)
    ensures forall m :: 0 <= m < |ns| ==> ns[m] < |Positions(core, pri)|
    ensures TakenFrom(core, ks + InCore(Positions(core, pri), ns), broken + more)
  {
    var all := ks + InCore(Positions(core, pri), ns);
    forall m | 0 <= m < |all|
      ensures all[m] < |core| && core[all[m]] == (broken + more)[m]
    {
      if m >= |ks| { assert Positions(core, pri)[ns[m - |ks|]] in Positions(core, pri); }
    }
  }

  /** The scan has come past all levels up to this one, or has stopped in it. */
  ghost predicate ScanState(core: seq<Clause>, levels: nat, asgn: Assignment, writeAsgn: bool, found: Found, place: nat,
                            broken: seq<Clause>, ks: seq<nat>) {
    && StopsFirst(core, levels, asgn, writeAsgn, found, place)
    && PassedOver(core, levels, asgn, writeAsgn, found, place, ks) && TakenFrom(core, ks, broken)
  }

  lemma LevelDone(core: seq<Clause>, levels: nat, pri: nat, level: seq<Clause>, asgn: Assignment, writeAsgn: bool,
                  found: Found, at: nat, broken: seq<Clause>, ks: seq<nat>, ns: seq<nat>, more: seq<Clause>)
    returns (place: nat, ks': seq<nat>)
    requires 1 <= pri <= levels && IsLevel(core, pri, level)
    requires ScanState(core, pri - 1, asgn, writeAsgn, Nothing, 0, broken, ks)
    requires Fits(asgn, writeAsgn, found) && at <= |level| && (found.Nothing? <==> at == |level|)
    requires !found.Nothing? ==> level[at] == found.clause
    requires forall m :: 0 <= m < at ==> !Stops(level[m], asgn, writeAsgn)
    requires NotedIn(level, asgn, writeAsgn, at, ns, more)
    ensures ScanState(core, if found.Nothing? then pri else levels, asgn, writeAsgn, found, place, broken + more, ks')
    ensures found.Nothing? ==> place == 0
  {
    place := if found.Nothing? then 0 else Positions(core, pri)[at];
    LevelScanned(core, levels, pri, level, asgn, writeAsgn, found, at, place);
    LevelPassed(core, levels, pri, level, asgn, writeAsgn, found, at, place, ks, ns, more);
    TakenInLevel(core, pri, level, ks, broken, ns, more);
    ks' := ks + InCore(Positions(core, pri), ns);
  }

  /** Scans level after level. */
  method ScanAll(ghost core: seq<Clause>, groups: map<nat, seq<Clause>>, levels: nat, asgn: Assignment, writeAsgn: bool)
    returns (found: Found, broken: seq<Clause>, ghost place: nat, ghost ks: seq<nat>)
    requires Grouped(core, groups)
    ensures ScanState(core, levels, asgn, writeAsgn, found, place, broken, ks)
  {
    broken, ks, found, place := [], [], Nothing, 0;
    for pri: nat := 1 to levels + 1
      invariant ScanState(core, pri - 1, asgn, writeAsgn, Nothing, 0, broken, ks)
    {
      ghost var at, ns;
      var more;
      var level := Level(groups, pri);
      found, more, at, ns := ScanLevel(level, asgn, writeAsgn);
      place, ks := LevelDone(core, levels, pri, level, asgn, writeAsgn, found, at, broken, ks, ns, more);
      broken := broken + more;
      if !found.Nothing? { return; }
    }
    found, place := Nothing, 0;
  }

  function Assign(asgn: Assignment, l: Lit): Assignment { asgn[l := true][l.Negated() := false] }

  /** The assignment in effect before line n. */
  ghost function AsgnBefore(lines: seq<Line>, n: nat): Assignment
    requires n <= |lines|
  {
    if n == 0 then map[] else
      var before := AsgnBefore(lines, n - 1);
      if lines[n - 1].Forced? then Assign(before, lines[n - 1].lit) else before
  }

  lemma {:induction false} AsgnBeforePrefix(lines: seq<Line>, line: Line, n: nat)
    requires n <= |lines|
    ensures AsgnBefore(lines + [line], n) == AsgnBefore(lines, n)
  {
    if n > 0 { AsgnBeforePrefix(lines, line, n - 1); }
  }

  /** The literals of the clause have been reported before line n. */
  ghost predicate NotedBefore(lines: seq<Line>, n: nat, lits: seq<Lit>) {
    exists k :: 0 <= k < n && k < |lines| && lines[k].Broken? && lines[k].clause.lits == lits
  }

  /** Every clause that is falsified before line n and scanned before the one at `place` is noted before. */
  ghost predicate EarlierNoted(core: seq<Clause>, levels: nat, lines: seq<Line>, n: nat, place: nat)
    requires n <= |lines|
  {
    forall j: nat :: Sooner(core, levels, j, place) && IsFalsified(core[j], AsgnBefore(lines, n)) ==>
      NotedBefore(lines, n, core[j].lits)
  }

  /** Line n comes from the clause at `place`.  It forces by the first unit clause there is, or ends with a
      falsified one before any; with a whole assignment asked for, falsified clauses are noted on the
      way, each once and in the order of the scan. */
  ghost predicate TakenAt(core: seq<Clause>, levels: nat, writeAsgn: bool, lines: seq<Line>, n: nat, place: nat)
    requires n < |lines|
  {
    var asgn := AsgnBefore(lines, n);
    if lines[n].Forced? then
      && StopsFirst(core, levels, asgn, writeAsgn, FoundUnit(lines[n].clause, lines[n].lit), place)
      && (writeAsgn ==> EarlierNoted(core, levels, lines, n, place))
    else if !writeAsgn then StopsFirst(core, levels, asgn, writeAsgn, FoundBroken(lines[n].clause), place)
    else
      && place < |core| && core[place] == lines[n].clause && 1 <= core[place].priority <= levels
      && IsFalsified(core[place], asgn) && !NotedBefore(lines, n, core[place].lits)
      && EarlierNoted(core, levels, lines, n, place)
      && forall j: nat :: Sooner(core, levels, j, place) ==> !Stops(core[j], asgn, writeAsgn)
  }

  ghost predicate TakesFirst(core: seq<Clause>, levels: nat, writeAsgn: bool, lines: seq<Line>, n: nat)
    requires n < |lines|
  {
    exists place: nat :: TakenAt(core, levels, writeAsgn, lines, n, place)
  }

  /** What the loop keeps. */
  ghost predicate Running(core: seq<Clause>, levels: nat, writeAsgn: bool, lines: seq<Line>, asgn: Assignment,
                          forcedBy: map<Lit, nat>) {
    && Explanation(core, lines) && Records(lines, asgn, forcedBy) && asgn == AsgnBefore(lines, |lines|)
    && forall n :: 0 <= n < |lines| ==> TakesFirst(core, levels, writeAsgn, lines, n)
  }

  lemma TakenStays(core: seq<Clause>, levels: nat, writeAsgn: bool, lines: seq<Line>, line: Line, n: nat)
    requires n < |lines| && TakesFirst(core, levels, writeAsgn, lines, n)
    ensures TakesFirst(core, levels, writeAsgn, lines + [line], n)
  {
    var place: nat :| TakenAt(core, levels, writeAsgn, lines, n, place);
    AsgnBeforePrefix(lines, line, n);
    forall lits
      ensures NotedBefore(lines + [line], n, lits) <==> NotedBefore(lines, n, lits)
    {
      NotedStays(lines, line, n, lits);
    }
    assert TakenAt(core, levels, writeAsgn, lines + [line], n, place);
  }

  lemma NotedStays(lines: seq<Line>, line: Line, n: nat, lits: seq<Lit>)
    requires n <= |lines|
    ensures NotedBefore(lines + [line], n, lits) <==> NotedBefore(lines, n, lits)
  {
    if k :| 0 <= k < n && lines[k].Broken? && lines[k].clause.lits == lits {
      assert (lines + [line])[k] == lines[k];
    }
  }

  /** Earlier lines are not affected by a new one. */
  lemma LineAdded(core: seq<Clause>, levels: nat, writeAsgn: bool, lines: seq<Line>, line: Line)
    requires Explanation(core, lines) && forall n :: 0 <= n < |lines| ==> TakesFirst(core, levels, writeAsgn, lines, n)
    requires Justified(core, lines + [line], |lines|) && TakesFirst(core, levels, writeAsgn, lines + [line], |lines|)
    ensures Explanation(core, lines + [line])
    ensures forall n :: 0 <= n < |lines| + 1 ==> TakesFirst(core, levels, writeAsgn, lines + [line], n)
  {
    forall n | 0 <= n < |lines| + 1
      ensures Justified(core, lines + [line], n) && TakesFirst(core, levels, writeAsgn, lines + [line], n)
    {
      if n < |lines| {
        TakenStays(core, levels, writeAsgn, lines, line, n);
        JustifiedStays(core, lines, line, n);
      }
    }
  }

  lemma JustifiedStays(core: seq<Clause>, lines: seq<Line>, line: Line, n: nat)
    requires n < |lines| && Justified(core, lines, n)
    ensures Justified(core, lines + [line], n)
  {
    forall l | l in lines[n].clause.lits && !Forces(lines[n], l)
      ensures FalseBefore(lines + [line], n, l)
    {
      var k :| 0 <= k < n && k < |lines| && Forces(lines[k], l.Negated());
      assert Forces((lines + [line])[k], l.Negated());
    }
  }

  lemma FalseByLine(lines: seq<Line>, line: Line, asgn: Assignment, forcedBy: map<Lit, nat>, l: Lit)
    requires Records(lines, asgn, forcedBy) && l in asgn && !asgn[l]
    ensures FalseBefore(lines + [line], |lines|, l)
  {
    assert NumberedBy(lines, asgn, forcedBy, l);
    assert Forces((lines + [line])[forcedBy[l] - 1], l.Negated());
  }

  /** The falsified clauses scanned before `place` are all among those noted. */
  ghost predicate NotedSoFar(core: seq<Clause>, levels: nat, lines: seq<Line>, asgn: Assignment, place: nat) {
    forall j: nat :: Sooner(core, levels, j, place) && IsFalsified(core[j], asgn) ==>
      NotedBefore(lines, |lines|, core[j].lits)
  }

  lemma NotedSoFarMeans(core: seq<Clause>, levels: nat, lines: seq<Line>, line: Line, asgn: Assignment, place: nat)
    requires asgn == AsgnBefore(lines, |lines|) && NotedSoFar(core, levels, lines, asgn, place)
    ensures EarlierNoted(core, levels, lines + [line], |lines|, place)
  {
    AsgnBeforePrefix(lines, line, |lines|);
    forall j: nat | Sooner(core, levels, j, place) && IsFalsified(core[j], asgn)
      ensures NotedBefore(lines + [line], |lines|, core[j].lits)
    {
      NotedStays(lines, line, |lines|, core[j].lits);
    }
  }

  lemma ForcedLine(core: seq<Clause>, levels: nat, writeAsgn: bool, lines: seq<Line>, asgn: Assignment,
                   forcedBy: map<Lit, nat>, c: Clause, l: Lit, place: nat)
    requires Running(core, levels, writeAsgn, lines, asgn, forcedBy)
    requires StopsFirst(core, levels, asgn, writeAsgn, FoundUnit(c, l), place)
    requires writeAsgn ==> NotedSoFar(core, levels, lines, asgn, place)
    ensures l !in asgn && l in c.lits && c in core
    ensures var n := |lines| + 1;
            Running(core, levels, writeAsgn, lines
              + [Forced(c, l)], Assign(asgn, l), forcedBy[l := n][l.Negated() := n])
  {
    var line := Forced(c, l);
    UnassignedMember(c.lits, asgn, l);
    AsgnBeforePrefix(lines, line, |lines|);
    forall m | m in c.lits && m != l
      ensures FalseBefore(lines + [line], |lines|, m)
    {
      UnassignedMember(c.lits, asgn, m);
      FalseByLine(lines, line, asgn, forcedBy, m);
    }
    if writeAsgn { NotedSoFarMeans(core, levels, lines, line, asgn, place); }
    assert TakenAt(core, levels, writeAsgn, lines + [line], |lines|, place);
    LineAdded(core, levels, writeAsgn, lines, line);
    RecordsForced(lines, asgn, forcedBy, c, l);
  }

  lemma RecordsForced(lines: seq<Line>, asgn: Assignment, forcedBy: map<Lit, nat>, c: Clause, l: Lit)
    requires Records(lines, asgn, forcedBy) && l !in asgn
    ensures var n := |lines| + 1; Records(lines + [Forced(c, l)], Assign(asgn, l), forcedBy[l := n][l.Negated() := n])
  {
    var n := |lines| + 1;
    var asgn', forcedBy' := Assign(asgn, l), forcedBy[l := n][l.Negated() := n];
    forall m
      ensures Opposed(asgn', m) && NumberedBy(lines + [Forced(c, l)], asgn', forcedBy', m)
    {
      NegatedTwice(m);
      assert Opposed(asgn, m) && NumberedBy(lines, asgn, forcedBy, m);
    }
    assert Opposed(asgn, l);
  }

  lemma NegatedTwice(l: Lit)
    ensures l.Negated().Negated() == l && l.Negated() != l
  {
  }

  lemma BrokenLine(core: seq<Clause>, levels: nat, writeAsgn: bool, lines: seq<Line>, asgn: Assignment,
                   forcedBy: map<Lit, nat>, c: Clause, place: nat)
    requires Running(core, levels, writeAsgn, lines, asgn, forcedBy) && c in core && IsFalsified(c, asgn)
    requires TakenAt(core, levels, writeAsgn, lines + [Broken(c)], |lines|, place)
    ensures Running(core, levels, writeAsgn, lines + [Broken(c)], asgn, forcedBy)
  {
    var line := Broken(c);
    AsgnBeforePrefix(lines, line, |lines|);
    forall m | m in c.lits
      ensures FalseBefore(lines + [line], |lines|, m)
    {
      UnassignedMember(c.lits, asgn, m);
      FalseByLine(lines, line, asgn, forcedBy, m);
    }
    LineAdded(core, levels, writeAsgn, lines, line);
    forall l ensures NumberedBy(lines + [line], asgn, forcedBy, l) { assert NumberedBy(lines, asgn, forcedBy, l); }
  }

  /** The scan that ended at a falsified clause adds the last line. */
  lemma LastLine(core: seq<Clause>, levels: nat, lines: seq<Line>, asgn: Assignment, forcedBy: map<Lit, nat>, c: Clause,
                 place: nat)
    requires Running(core, levels, false, lines, asgn, forcedBy)
    requires StopsFirst(core, levels, asgn, false, FoundBroken(c), place)
    ensures Running(core, levels, false, lines + [Broken(c)], asgn, forcedBy)
  {
    AsgnBeforePrefix(lines, Broken(c), |lines|);
    assert TakenAt(core, levels, false, lines + [Broken(c)], |lines|, place);
    BrokenLine(core, levels, false, lines, asgn, forcedBy, c, place);
  }

  // ----- Noting falsified clauses -----

  /** What has been noted is what the set holds. */
  ghost predicate HoldsNoted(lines: seq<Line>, seen: set<seq<Lit>>) {
    forall lits :: lits in seen <==> NotedBefore(lines, |lines|, lits)
  }

  lemma NotedNext(lines: seq<Line>, seen: set<seq<Lit>>, c: Clause)
    requires HoldsNoted(lines, seen)
    ensures HoldsNoted(lines + [Broken(c)], seen + {c.lits})
  {
    forall lits
      ensures lits in seen + {c.lits} <==> NotedBefore(lines + [Broken(c)], |lines| + 1, lits)
    {
      NotedStays(lines, Broken(c), |lines|, lits);
      if lits == c.lits { assert (lines + [Broken(c)])[|lines|] == Broken(c); }
      if NotedBefore(lines + [Broken(c)], |lines| + 1, lits) && lits != c.lits {
        var k :| 0 <= k < |lines| + 1 && (lines + [Broken(c)])[k].Broken?
          && (lines + [Broken(c)])[k].clause.lits == lits;
        assert k < |lines| && lines[k].Broken?;
      }
    }
  }

  lemma ForcedNotes(lines: seq<Line>, seen: set<seq<Lit>>, c: Clause, l: Lit)
    requires HoldsNoted(lines, seen)
    ensures HoldsNoted(lines + [Forced(c, l)], seen)
  {
    forall lits
      ensures NotedBefore(lines + [Forced(c, l)], |lines| + 1, lits) <==> NotedBefore(lines, |lines|, lits)
    {
      NotedStays(lines, Forced(c, l), |lines|, lits);
      var more := lines + [Forced(c, l)];
      if k :| 0 <= k < |lines| + 1 && more[k].Broken? && more[k].clause.lits == lits {
        assert k < |lines| && lines[k].Broken?;
      }
    }
  }

  /** A clause scanned before one that the scan passed over or stopped at was passed over before it. */
  lemma SoonerPassed(core: seq<Clause>, levels: nat, asgn: Assignment, found: Found, place: nat, ks: seq<nat>, i: nat,
                     j: nat)
    requires PassedOver(core, levels, asgn, true, found, place, ks) && i < |ks|
    requires Sooner(core, levels, j, ks[i]) && IsFalsified(core[j], asgn)
    ensures exists m :: 0 <= m < i && ks[m] == j
  {
    assert ks[i] in ks && Scanned(core, levels, found, place, ks[i]);
    assert Scanned(core, levels, found, place, j);
    var m :| 0 <= m < |ks| && ks[m] == j;
    assert i < m ==> Sooner(core, levels, ks[i], ks[m]);
  }

  lemma NotedUpTo(core: seq<Clause>, levels: nat, asgn: Assignment, found: Found, place: nat, ks: seq<nat>, i: nat,
                  broken: seq<Clause>, lines: seq<Line>)
    requires PassedOver(core, levels, asgn, true, found, place, ks) && i < |ks| && TakenFrom(core, ks, broken)
    requires forall m :: 0 <= m < i ==> NotedBefore(lines, |lines|, broken[m].lits)
    ensures NotedSoFar(core, levels, lines, asgn, ks[i])
  {
    forall j: nat | Sooner(core, levels, j, ks[i]) && IsFalsified(core[j], asgn)
      ensures NotedBefore(lines, |lines|, core[j].lits)
    {
      SoonerPassed(core, levels, asgn, found, place, ks, i, j);
      var m :| 0 <= m < i && ks[m] == j;
      assert broken[m] == core[ks[m]];
    }
  }

  lemma NotedLine(core: seq<Clause>, levels: nat, lines: seq<Line>, asgn: Assignment, forcedBy: map<Lit, nat>,
                  found: Found, place: nat, ks: seq<nat>, i: nat, broken: seq<Clause>)
    requires Running(core, levels, true, lines, asgn, forcedBy) && StopsFirst(core, levels, asgn, true, found, place)
    requires PassedOver(core, levels, asgn, true, found, place, ks) && i < |ks| && TakenFrom(core, ks, broken)
    requires forall m :: 0 <= m < i ==> NotedBefore(lines, |lines|, broken[m].lits)
    requires !NotedBefore(lines, |lines|, broken[i].lits)
    ensures Running(core, levels, true, lines + [Broken(broken[i])], asgn, forcedBy)
  {
    var c, line, k := broken[i], Broken(broken[i]), ks[i];
    assert k in ks && Scanned(core, levels, found, place, k) && core[k] == c;
    NotedUpTo(core, levels, asgn, found, place, ks, i, broken, lines);
    NotedSoFarMeans(core, levels, lines, line, asgn, k);
    NotedStays(lines, line, |lines|, c.lits);
    AsgnBeforePrefix(lines, line, |lines|);
    forall j: nat | Sooner(core, levels, j, k)
      ensures !Stops(core[j], asgn, true)
    {
      assert Scanned(core, levels, found, place, j);
    }
    assert TakenAt(core, levels, true, lines + [line], |lines|, k);
    BrokenLine(core, levels, true, lines, asgn, forcedBy, c, k);
  }

  /** Writes a line for every clause that the scan passed over, unless one with its literals has been
      reported. */
  method NoteBroken(ghost core: seq<Clause>, ghost levels: nat, ghost writeAsgn: bool, lines0: seq<Line>,
                    ghost asgn: Assignment, ghost forcedBy: map<Lit, nat>, broken: seq<Clause>, seen0: set<seq<Lit>>,
                    ghost found: Found, ghost place: nat, ghost ks: seq<nat>)
    returns (lines: seq<Line>, seen: set<seq<Lit>>)
    requires Running(core, levels, writeAsgn, lines0, asgn, forcedBy) && HoldsNoted(lines0, seen0)
    requires StopsFirst(core, levels, asgn, writeAsgn, found, place)
    requires PassedOver(core, levels, asgn, writeAsgn, found, place, ks) && TakenFrom(core, ks, broken)
    ensures Running(core, levels, writeAsgn, lines, asgn, forcedBy) && HoldsNoted(lines, seen)
    ensures forall m :: 0 <= m < |broken| ==> NotedBefore(lines, |lines|, broken[m].lits)
    ensures !writeAsgn ==> lines == lines0
  {
    lines, seen := lines0, seen0;
    assert broken != [] ==> ks[0] in ks;
    for i := 0 to |broken|
      invariant Running(core, levels, writeAsgn, lines, asgn, forcedBy) && HoldsNoted(lines, seen)
      invariant forall m :: 0 <= m < i ==> broken[m].lits in seen
      invariant i == 0 ==> lines == lines0
    {
      var c := broken[i];
      if c.lits !in seen {
        NotedLine(core, levels, lines, asgn, forcedBy, found, place, ks, i, broken);
        NotedNext(lines, seen, c);
        lines, seen := lines + [Broken(c)], seen + {c.lits};
      }
    }
  }

  ghost predicate ScannedAreNoted(core: seq<Clause>, levels: nat, asgn: Assignment, found: Found, place: nat,
                                  lines: seq<Line>) {
    forall j: nat :: Scanned(core, levels, found, place, j) && IsFalsified(core[j], asgn) ==>
      NotedBefore(lines, |lines|, core[j].lits)
  }

  /** When the scan ends, every falsified clause that it has come past is noted. */
  lemma AllNoted(core: seq<Clause>, levels: nat, asgn: Assignment, found: Found, place: nat, ks: seq<nat>,
                 broken: seq<Clause>, lines: seq<Line>)
    requires PassedOver(core, levels, asgn, true, found, place, ks) && TakenFrom(core, ks, broken)
    requires forall m :: 0 <= m < |broken| ==> NotedBefore(lines, |lines|, broken[m].lits)
    ensures ScannedAreNoted(core, levels, asgn, found, place, lines)
  {
    forall j: nat | Scanned(core, levels, found, place, j) && IsFalsified(core[j], asgn)
      ensures NotedBefore(lines, |lines|, core[j].lits)
    {
      assert j in ks;
      var m :| 0 <= m < |ks| && ks[m] == j;
      assert broken[m] == core[ks[m]];
    }
  }

  ghost function AllLits(core: seq<Clause>): set<Lit> { set c, l | c in core && l in c.lits :: l }

  lemma FewerLeft(core: seq<Clause>, asgn: Assignment, c: Clause, l: Lit)
    requires c in core && l in c.lits && l !in asgn
    ensures |AllLits(core) - Assign(asgn, l).Keys| < |AllLits(core) - asgn.Keys|
  {
    assert l in AllLits(core);
    Smaller(AllLits(core) - Assign(asgn, l).Keys, AllLits(core) - asgn.Keys, l);
  }

  lemma {:induction false} Smaller<T>(a: set<T>, b: set<T>, x: T)
    requires a <= b && x in b && x !in a
    ensures |a| < |b|
  {
    if a != {} {
      var y :| y in a;
      Smaller(a - {y}, b - {y}, x);
      assert a == (a - {y}) + {y} && b == (b - {y}) + {y};
    }
  }

  method Force(ghost core: seq<Clause>, ghost levels: nat, ghost writeAsgn: bool, lines: seq<Line>, asgn: Assignment,
               forcedBy: map<Lit, nat>, c: Clause, l: Lit, ghost place: nat, ghost seen: set<seq<Lit>>)
    returns (lines': seq<Line>, asgn': Assignment, forcedBy': map<Lit, nat>)
    requires Running(core, levels, writeAsgn, lines, asgn, forcedBy) && HoldsNoted(lines, seen)
    requires StopsFirst(core, levels, asgn, writeAsgn, FoundUnit(c, l), place)
    requires writeAsgn ==> NotedSoFar(core, levels, lines, asgn, place)
    ensures Running(core, levels, writeAsgn, lines', asgn', forcedBy') && HoldsNoted(lines', seen)
    ensures |AllLits(core) - asgn'.Keys| < |AllLits(core) - asgn.Keys|
  {
    var n: nat := |lines| + 1;
    ForcedLine(core, levels, writeAsgn, lines, asgn, forcedBy, c, l, place);
    ForcedNotes(lines, seen, c, l);
    FewerLeft(core, asgn, c, l);
    lines', asgn', forcedBy' := lines + [Forced(c, l)], Assign(asgn, l), forcedBy[l := n][l.Negated() := n];
  }

  /** Propagates until a clause is falsified, or, with writeAsgn or without one, until no unit clause
      is left; with writeAsgn every falsified clause has then been noted. */
  method Propagate(core: seq<Clause>, levels: nat, writeAsgn: bool)
    returns (lines: seq<Line>, asgn: Assignment, forcedBy: map<Lit, nat>, isDone: bool)
    ensures Running(core, levels, writeAsgn, lines, asgn, forcedBy)
    ensures isDone ==> !writeAsgn && lines != [] && lines[|lines| - 1].Broken?
    ensures !isDone ==> forall c :: c in core && 1 <= c.priority <= levels ==> !Stops(c, asgn, writeAsgn)
    ensures writeAsgn ==> forall c :: c in core && 1 <= c.priority <= levels && IsFalsified(c, asgn) ==>
              NotedBefore(lines, |lines|, c.lits)
  {
    var groups := GroupByPriority(core);
    lines, asgn, forcedBy, isDone := [], map[], map[], false;
    var seenFalsified: set<seq<Lit>> := {};
    var isDirty := true;
    while isDirty && !isDone
      invariant Running(core, levels, writeAsgn, lines, asgn, forcedBy)
                && (!isDone ==> HoldsNoted(lines, seenFalsified))
      invariant !isDirty ==> !isDone && StopsFirst(core, levels, asgn, writeAsgn, Nothing, 0)
      invariant !isDirty && writeAsgn ==> ScannedAreNoted(core, levels, asgn, Nothing, 0, lines)
      invariant isDone ==> !writeAsgn && lines != [] && lines[|lines| - 1].Broken?
      decreases !isDone, isDirty, |AllLits(core) - asgn.Keys|
    {
      ghost var place, ks;
      var found, broken;
      found, broken, place, ks := ScanAll(core, groups, levels, asgn, writeAsgn);
      lines, seenFalsified := NoteBroken(core, levels, writeAsgn, lines, asgn, forcedBy, broken, seenFalsified, found,
        place, ks);
      if writeAsgn { AllNoted(core, levels, asgn, found, place, ks, broken, lines); }
      match found
      case Nothing => isDirty := false;
      case FoundBroken(c) =>
        LastLine(core, levels, lines, asgn, forcedBy, c, place);
        lines, isDone := lines + [Broken(c)], true;
      case FoundUnit(c, l) =>
        lines, asgn, forcedBy := Force(core, levels, writeAsgn, lines, asgn, forcedBy, c, l, place, seenFalsified);
    }
    forall c | c in core && 1 <= c.priority <= levels
      ensures !isDone ==> !Stops(c, asgn, writeAsgn)
      ensures writeAsgn && IsFalsified(c, asgn) ==> NotedBefore(lines, |lines|, c.lits)
    {
      var j :| 0 <= j < |core| && core[j] == c;
      assert Scanned(core, levels, Nothing, 0, j);
    }
  }

  /** Whatever the loop assigns holds in every model of the core; a broken line means there is none. */
  lemma PropagationIsSound(core: seq<Clause>, levels: nat, writeAsgn: bool, lines: seq<Line>, asgn: Assignment,
                           forcedBy: map<Lit, nat>)
    requires Running(core, levels, writeAsgn, lines, asgn, forcedBy)
    ensures forall model, l :: Models(model, core) && l in asgn ==> (Holds(model, l) <==> asgn[l])
    ensures (exists n :: 0 <= n < |lines| && lines[n].Broken?) ==> !Satisfiable(core)
  {
    forall model, l | Models(model, core) && l in asgn
      ensures Holds(model, l) <==> asgn[l]
    {
      assert NumberedBy(lines, asgn, forcedBy, l);
      ForcedIsEntailed(core, lines, model, forcedBy[l] - 1);
    }
    if n :| 0 <= n < |lines| && lines[n].Broken? { BrokenRefutes(core, lines, n); }
  }
}
