/** Clauses over named variables and their numbered form: numbering, and the way back for clauses
    and for models. */
module Dimacs {

  datatype Lit = Lit(name: string, positive: bool)

  type Clause = seq<Lit>

  type Numbering = map<string, nat>

  // ----- Numbering -----

  /** The numbering is a bijection from the names onto 1..|names|. */
  ghost predicate Numbered(num: Numbering, names: seq<string>) {
    && (forall i :: 0 <= i < |names| ==> names[i] in num && num[names[i]] == i + 1)
    && (forall v :: v in num ==> 1 <= num[v] <= |names| && names[num[v] - 1] == v)
  }

  ghost predicate Covers(num: Numbering, c: Clause) { forall i :: 0 <= i < |c| ==> c[i].name in num }

  function LitNum(num: Numbering, l: Lit): int
    requires l.name in num
  {
    var n: int := num[l.name];
    if l.positive then n else -n
  }

  /** The numbered form of a clause. */
  ghost predicate Encodes(num: Numbering, c: Clause, lits: seq<int>) {
    Covers(num, c) && |lits| == |c| && forall i :: 0 <= i < |c| ==> lits[i] == LitNum(num, c[i])
  }

  /** A variable that occurs in one of the clauses. */
  ghost predicate Occurs(cs: seq<Clause>, v: string) { exists i, j :: OccursAt(cs, v, i, j) }

  ghost predicate OccursAt(cs: seq<Clause>, v: string, i: int, j: int) {
    0 <= i < |cs| && 0 <= j < |cs[i]| && cs[i][j].name == v
  }

  ghost predicate Grows(small: Numbering, big: Numbering) { forall v :: v in small ==> v in big && big[v] == small[v] }

  lemma StaysEncoded(small: Numbering, big: Numbering, c: Clause, lits: seq<int>)
    requires Grows(small, big) && Encodes(small, c, lits)
    ensures Encodes(big, c, lits)
  {
  }

  /** The variables of all literals, in the order in which they are read. */
  ghost function Occurrences(cs: seq<Clause>): seq<string>
    decreases |cs|
  {
    if cs == [] then [] else Occurrences(cs[..|cs| - 1]) + NamesOf(cs[|cs| - 1])
  }

  ghost function NamesOf(c: Clause): (vs: seq<string>)
    ensures |vs| == |c| && forall j :: 0 <= j < |c| ==> vs[j] == c[j].name
  {
    seq(|c|, j requires 0 <= j < |c| => c[j].name)
  }

  /** A variable that has not come up when another is read gets a greater number. */
  ghost predicate InOrderOf(num: Numbering, occ: seq<string>) {
    forall k: nat, w: string :: k < |occ| ==> NumberedSooner(num, occ, k, w)
  }

  ghost predicate NumberedSooner(num: Numbering, occ: seq<string>, k: nat, w: string)
    requires k < |occ|
  {
    w in num && w !in occ[..k + 1] ==> occ[k] in num && num[occ[k]] < num[w]
  }

  ghost predicate SameNames(occ: seq<string>, names: seq<string>) { forall v :: v in occ <==> v in names }

  lemma SoonerStays(num0: Numbering, names0: seq<string>, num: Numbering, occ: seq<string>, v: string, k: nat,
                    w: string)
    requires Numbered(num0, names0) && k < |occ| && NumberedSooner(num0, occ, k, w) && SameNames(occ, names0)
    requires num == if v in num0 then num0 else num0[v := |names0| + 1]
    ensures NumberedSooner(num, occ + [v], k, w)
  {
    var n := occ[k];
    assert (occ + [v])[k] == n && (occ + [v])[..k + 1] == occ[..k + 1];
    assert n in occ && n in names0;
    var i :| 0 <= i < |names0| && names0[i] == n;
    assert n in num0 && num0[n] <= |names0|;
  }

  lemma OrderNext(num0: Numbering, names0: seq<string>, num: Numbering, names: seq<string>, occ: seq<string>, v: string)
    requires Numbered(num0, names0) && InOrderOf(num0, occ) && SameNames(occ, names0)
    requires num == if v in num0 then num0 else num0[v := |names0| + 1]
    requires names == if v in num0 then names0 else names0 + [v]
    ensures InOrderOf(num, occ + [v]) && SameNames(occ + [v], names)
  {
    assert v in num0 ==> names0[num0[v] - 1] in names0;
    forall k: nat, w: string | k < |occ + [v]|
      ensures NumberedSooner(num, occ + [v], k, w)
    {
      if k < |occ| {
        SoonerStays(num0, names0, num, occ, v, k, w);
      } else {
        AllHaveComeUp(num0, names0, num, occ, v, w);
      }
    }
  }

  lemma AllHaveComeUp(num0: Numbering, names0: seq<string>, num: Numbering, occ: seq<string>, v: string, w: string)
    requires Numbered(num0, names0) && SameNames(occ, names0)
    requires num == if v in num0 then num0 else num0[v := |names0| + 1]
    ensures NumberedSooner(num, occ + [v], |occ|, w)
  {
    assert (occ + [v])[..|occ| + 1] == occ + [v];
    if w in num && w != v { assert names0[num0[w] - 1] in names0; }
  }

  /** The numbers given so far: a bijection, in the order of what has been read. */
  ghost predicate NumbersOf(num: Numbering, next: nat, names: seq<string>, occ: seq<string>) {
    Numbered(num, names) && next == |names| + 1 && InOrderOf(num, occ) && SameNames(occ, names)
  }

  /** Numbers the variable of a literal, if it has no number yet. */
  method AddLit(num0: Numbering, next0: nat, l: Lit, ghost names0: seq<string>, ghost occ: seq<string>)
    returns (num: Numbering, next: nat, ghost names: seq<string>)
    requires NumbersOf(num0, next0, names0, occ)
    ensures NumbersOf(num, next, names, occ + [l.name]) && Grows(num0, num) && l.name in num
  {
    num, next, names := num0, next0, names0;
    if l.name !in num {
      num, next, names := num[l.name := next], next + 1, names + [l.name];
    }
    OrderNext(num0, names0, num, names, occ, l.name);
  }

  method AddLits(num0: Numbering, next0: nat, c: Clause, ghost names0: seq<string>, ghost occ: seq<string>)
    returns (num: Numbering, next: nat, ghost names: seq<string>)
    requires NumbersOf(num0, next0, names0, occ)
    ensures NumbersOf(num, next, names, occ + NamesOf(c)) && Grows(num0, num) && Covers(num, c)
  {
    num, next, names := num0, next0, names0;
    ghost var soFar := occ;
    for k := 0 to |c|
      invariant NumbersOf(num, next, names, soFar) && soFar == occ + NamesOf(c[..k])
      invariant Grows(num0, num) && Covers(num, c[..k])
    {
      num, next, names := AddLit(num, next, c[k], names, soFar);
      soFar := soFar + [c[k].name];
      assert NamesOf(c[..k + 1]) == NamesOf(c[..k]) + [c[k].name];
    }
    assert c[..|c|] == c;
  }

  method AddClause(num0: Numbering, next0: nat, c: Clause, ghost names0: seq<string>, ghost occ: seq<string>)
    returns (num: Numbering, next: nat, ghost names: seq<string>, lits: seq<int>)
    requires NumbersOf(num0, next0, names0, occ)
    ensures NumbersOf(num, next, names, occ + NamesOf(c)) && Grows(num0, num) && Encodes(num, c, lits)
  {
    num, next, names := AddLits(num0, next0, c, names0, occ);
    lits := [];
    for k := 0 to |c|
      invariant |lits| == k && forall j :: 0 <= j < k ==> lits[j] == LitNum(num, c[j])
    {
      lits := lits + [LitNum(num, c[k])];
    }
  }

  /** Numbers the variables in the order in which they first occur, and the clauses with them.
      `names` lists exactly the variables that occur. */
  method ConvToDimacs(cs: seq<Clause>)
    returns (num: Numbering, numVars: nat, ghost names: seq<string>, encoded: seq<seq<int>>)
    ensures Numbered(num, names) && numVars == |names| && forall v :: v in names <==> Occurs(cs, v)
    ensures InOrderOf(num, Occurrences(cs))
    ensures |encoded| == |cs| && forall i :: 0 <= i < |cs| ==> Encodes(num, cs[i], encoded[i])
  {
    num, names, encoded := map[], [], [];
    assert cs[..0] == [];
    var next := 1;
    for i := 0 to |cs|
      invariant NumbersOf(num, next, names, Occurrences(cs[..i]))
      invariant |encoded| == i && forall k :: 0 <= k < i ==> Encodes(num, cs[k], encoded[k])
    {
      ghost var before := num;
      var lits;
      num, next, names, lits := AddClause(num, next, cs[i], names, Occurrences(cs[..i]));
      forall k | 0 <= k < i ensures Encodes(num, cs[k], encoded[k]) { StaysEncoded(before, num, cs[k], encoded[k]); }
      assert cs[..i + 1][..i] == cs[..i];
      encoded := encoded + [lits];
    }
    assert cs[..|cs|] == cs;
    forall v ensures v in names <==> Occurs(cs, v) { OccurrencesAre(cs, v); }
    numVars := next - 1;
  }

  lemma {:induction false} OccurrencesAre(cs: seq<Clause>, v: string)
    ensures v in Occurrences(cs) <==> Occurs(cs, v)
    decreases |cs|
  {
    if cs != [] {
      var front, last := cs[..|cs| - 1], cs[|cs| - 1];
      OccurrencesAre(front, v);
      if v in NamesOf(last) {
        var j :| 0 <= j < |last| && NamesOf(last)[j] == v;
        assert OccursAt(cs, v, |cs| - 1, j);
      }
      if i, j :| OccursAt(front, v, i, j) { assert OccursAt(cs, v, i, j); }
      if i, j :| OccursAt(cs, v, i, j) {
        if i < |front| { assert OccursAt(front, v, i, j); } else { assert NamesOf(last)[j] == v; }
      }
    }
  }

  // ----- The way back -----

  function Abs(x: int): nat { if x < 0 then -x else x }

  method NumToName(num: Numbering, ghost names: seq<string>) returns (nameOf: map<nat, string>)
    requires Numbered(num, names)
    ensures forall n :: 1 <= n <= |names| ==> n in nameOf && nameOf[n] == names[n - 1]
    ensures forall n :: n in nameOf ==> 1 <= n <= |names|
  {
    nameOf := map v | v in num :: num[v] := v;
    forall n | 1 <= n <= |names| ensures n in nameOf && nameOf[n] == names[n - 1] { assert num[names[n - 1]] == n; }
  }

  ghost predicate NamesNumbers(nameOf: map<nat, string>, num: Numbering) {
    forall v :: v in num ==> num[v] in nameOf && nameOf[num[v]] == v
  }

  lemma InverseNames(num: Numbering, names: seq<string>, nameOf: map<nat, string>)
    requires Numbered(num, names) && forall n :: 1 <= n <= |names| ==> n in nameOf && nameOf[n] == names[n - 1]
    ensures NamesNumbers(nameOf, num)
  {
  }

  /** Decoding an encoded clause gives the clause back. */
  method DecodeClause(nameOf: map<nat, string>, lits: seq<int>, ghost num: Numbering, ghost names: seq<string>,
                      ghost c: Clause) returns (named: Clause)
    requires Numbered(num, names) && NamesNumbers(nameOf, num) && Encodes(num, c, lits)
    ensures named == c
  {
    named := [];
    for i := 0 to |lits|
      invariant named == c[..i]
    {
      assert lits[i] == LitNum(num, c[i]) && 1 <= num[c[i].name];
      named := named + [Lit(nameOf[Abs(lits[i])], lits[i] >= 0)];
      assert c[..i + 1] == c[..i] + [c[i]];
    }
  }

  // ----- Models -----

  /** A solver's solution: numbers of variables with a sign, no variable with both. */
  ghost predicate Solution(nameOf: map<nat, string>, sol: seq<int>) {
    && (forall i :: 0 <= i < |sol| ==> sol[i] != 0 && Abs(sol[i]) in nameOf)
    && forall i, j :: 0 <= i < |sol| && 0 <= j < |sol| ==> sol[i] != -sol[j]
  }

  /** The model gives each variable of the solution its sign there. */
  ghost predicate Agrees(nameOf: map<nat, string>, sol: seq<int>, n: nat, model: map<string, bool>)
    requires n <= |sol|
  {
    forall i :: 0 <= i < n && Abs(sol[i]) in nameOf
      ==> nameOf[Abs(sol[i])] in model && model[nameOf[Abs(sol[i])]] == (sol[i] > 0)
  }

  method ConvSol(nameOf: map<nat, string>, sol: seq<int>) returns (model: map<string, bool>)
    requires Solution(nameOf, sol) && forall m, n :: m in nameOf && n in nameOf && nameOf[m] == nameOf[n] ==> m == n
    ensures Agrees(nameOf, sol, |sol|, model)
    ensures forall v :: v in model ==> exists i :: 0 <= i < |sol| && nameOf[Abs(sol[i])] == v
  {
    model := map[];
    for i := 0 to |sol|
      invariant Agrees(nameOf, sol, i, model)
      invariant forall v :: v in model ==> exists k :: 0 <= k < i && nameOf[Abs(sol[k])] == v
    {
      model := model[nameOf[Abs(sol[i])] := sol[i] > 0];
    }
  }

  ghost predicate HoldsIn(model: map<string, bool>, c: Clause) {
    exists l :: l in c && l.name in model && model[l.name] == l.positive
  }

  /** A numbered clause holds in the solution exactly when the named clause holds in the model. */
  lemma ModelSatisfies(num: Numbering, names: seq<string>, nameOf: map<nat, string>, sol: seq<int>, model: map<string,
                       bool>, c: Clause, lits: seq<int>)
    requires Numbered(num, names) && NamesNumbers(nameOf, num) && Encodes(num, c, lits)
    requires Solution(nameOf, sol) && Agrees(nameOf, sol, |sol|, model)
    requires forall m, n :: m in nameOf && n in nameOf && nameOf[m] == nameOf[n] ==> m == n
    requires forall v :: v in model ==> exists i :: 0 <= i < |sol| && nameOf[Abs(sol[i])] == v
    ensures (exists x :: x in lits && x in sol) <==> HoldsIn(model, c)
  {
    if x :| x in lits && x in sol {
      var k :| 0 <= k < |lits| && lits[k] == x;
      var i :| 0 <= i < |sol| && sol[i] == x;
      assert lits[k] == LitNum(num, c[k]) && c[k] in c;
      assert nameOf[Abs(sol[i])] == c[k].name;
    }
    if HoldsIn(model, c) {
      var l :| l in c && l.name in model && model[l.name] == l.positive;
      var k :| 0 <= k < |c| && c[k] == l;
      var i :| 0 <= i < |sol| && nameOf[Abs(sol[i])] == l.name;
      assert lits[k] == LitNum(num, l) && num[l.name] == Abs(sol[i]);
      assert lits[k] == sol[i] && lits[k] in lits;
    }
  }
}
