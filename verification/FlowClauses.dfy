/** Clauses and what is known about them.  The information is filed under the sorted literals of a
    clause, so clauses with the same literals share it. */
module FlowClauses {

  /** The literals of a clause as a sorted list would hold them: pairs of variable and sign. */
  type Lits = multiset<(string, bool)>

  /** `Flow` is an implication of the kind that flow and preservation produce, `Meta` one that stands
      for a collapsed chain. */
  datatype Clause = Flow(a: string, b: string) | Meta(a: string, b: string) | Other(lits: Lits)

  type Model = set<string>

  ghost predicate Holds(m: Model, c: Clause) {
    match c
    case Flow(a, b) => a in m ==> b in m
    case Meta(a, b) => a in m ==> b in m
    case Other(lits) => exists l :: l in lits && ((l.0 in m) == l.1)
  }

  ghost predicate Satisfies(m: Model, cs: seq<Clause>) { forall c :: c in cs ==> Holds(m, c) }

  predicate Contains(c: Clause, v: string) {
    match c
    case Flow(a, b) => v == a || v == b
    case Meta(a, b) => v == a || v == b
    case Other(lits) => exists l :: l in lits && l.0 == v
  }

  // ----- Filing -----

  /** What a clause is filed under.  An implication that stands for a chain is filed under the two
      positive literals of its ends. */
  function Key(c: Clause): Lits {
    match c
    case Flow(a, b) => multiset{(a, false), (b, true)}
    case Meta(a, b) => multiset{(a, true), (b, true)}
    case Other(lits) => lits
  }

  /** The literals of an implication that stands for a chain are not those of a flow clause. */
  lemma MetaKeyIsPositive(m: Clause, c: Clause)
    requires m.Meta? && c.Flow?
    ensures Key(m) != Key(c)
  {
    assert (c.a, false) in Key(c) && (c.a, false) !in Key(m);
  }

  type Info = map<Lits, Clause>

  ghost predicate Proper(info: Info) { forall k :: k in info ==> Key(info[k]) == k && !info[k].Meta? }

  function Typed(info: Info, k: Lits): Clause { if k in info then info[k] else Other(k) }

  /** A clause that the information at hand gives back. */
  ghost predicate Known(info: Info, c: Clause) { Typed(info, Key(c)) == c && !c.Meta? }

  function TypedAll(info: Info, ks: seq<Lits>): (cs: seq<Clause>)
    ensures |cs| == |ks| && forall i :: 0 <= i < |cs| ==> cs[i] == Typed(info, ks[i])
  {
    seq(|ks|, i requires 0 <= i < |ks| => Typed(info, ks[i]))
  }

  lemma TypedIsKnown(info: Info, ks: seq<Lits>)
    requires Proper(info)
    ensures forall c :: c in TypedAll(info, ks) ==> Known(info, c)
  {
    forall c | c in TypedAll(info, ks)
      ensures Known(info, c)
    {
      var i :| 0 <= i < |ks| && c == Typed(info, ks[i]);
    }
  }

  function KeysOf(cs: seq<Clause>): (ks: seq<Lits>)
    ensures |ks| == |cs| && forall i :: 0 <= i < |ks| ==> ks[i] == Key(cs[i])
  {
    seq(|cs|, i requires 0 <= i < |cs| => Key(cs[i]))
  }

  ghost function KeySet(cs: set<Clause>): set<Lits> { set c | c in cs :: Key(c) }

  /** The information after the clauses ms have been filed one after the other. */
  function Filed(info: Info, ms: seq<Clause>): Info {
    if ms == [] then info else Filed(info, ms[..|ms| - 1])[Key(ms[|ms| - 1]) := ms[|ms| - 1]]
  }

  lemma FiledNext(info: Info, ms: seq<Clause>, m: Clause)
    ensures Filed(info, ms + [m]) == Filed(info, ms)[Key(m) := m]
  {
    assert (ms + [m])[..|ms|] == ms;
  }

  lemma {:induction false} FiledMeans(info: Info, ms: seq<Clause>, k: Lits)
    ensures k in KeysOf(ms) ==> Typed(Filed(info, ms), k) in ms && Key(Typed(Filed(info, ms), k)) == k
    ensures k !in KeysOf(ms) ==> Typed(Filed(info, ms), k) == Typed(info, k)
  {
    if ms != [] {
      var n := |ms| - 1;
      FiledMeans(info, ms[..n], k);
      assert KeysOf(ms) == KeysOf(ms[..n]) + [Key(ms[n])];
    }
  }

  ghost predicate AllMetas(ms: seq<Clause>) { forall k :: 0 <= k < |ms| ==> ms[k].Meta? }

  /** After implications have been filed, a flow clause is still read as what it was. */
  lemma FlowIsKept(info: Info, ms: seq<Clause>, k: Lits)
    requires Proper(info) && AllMetas(ms)
    ensures Typed(Filed(info, ms), k).Flow? <==> Typed(info, k).Flow?
    ensures Typed(info, k).Flow? ==> Typed(Filed(info, ms), k) == Typed(info, k)
  {
    FiledMeans(info, ms, k);
    if Typed(info, k).Flow? && k in KeysOf(ms) {
      var j :| 0 <= j < |ms| && KeysOf(ms)[j] == k;
      MetaKeyIsPositive(ms[j], Typed(info, k));
    }
  }

  // ----- Removing clauses by their literals -----

  function Without(cs: seq<Clause>, del: set<Clause>): seq<Clause> {
    if cs == [] then [] else (if cs[0] in del then [] else [cs[0]]) + Without(cs[1..], del)
  }

  lemma {:induction false} WithoutHolds(cs: seq<Clause>, del: set<Clause>)
    ensures forall c :: c in Without(cs, del) <==> c in cs && c !in del
  {
    if cs != [] {
      WithoutHolds(cs[1..], del);
      assert cs == [cs[0]] + cs[1..];
    }
  }

  function WithoutKeys(ks: seq<Lits>, del: set<Lits>): seq<Lits> {
    if ks == [] then [] else (if ks[0] in del then [] else [ks[0]]) + WithoutKeys(ks[1..], del)
  }

  lemma KeysOfConcat(cs: seq<Clause>, ds: seq<Clause>)
    ensures KeysOf(cs + ds) == KeysOf(cs) + KeysOf(ds)
  {
  }

  lemma InKeySet(info: Info, k: Lits, del: set<Clause>)
    requires Proper(info) && forall c :: c in del ==> Known(info, c)
    ensures k in KeySet(del) <==> Typed(info, k) in del
    ensures Key(Typed(info, k)) == k
  {
  }

  lemma {:induction false} WithoutKeysTyped(info: Info, ks: seq<Lits>, del: set<Clause>)
    requires Proper(info) && forall c :: c in del ==> Known(info, c)
    ensures WithoutKeys(ks, KeySet(del)) == KeysOf(Without(TypedAll(info, ks), del))
  {
    if ks != [] {
      WithoutKeysTyped(info, ks[1..], del);
      InKeySet(info, ks[0], del);
      var all, rest := TypedAll(info, ks), TypedAll(info, ks[1..]);
      assert all[1..] == rest;
      KeysOfConcat([all[0]], Without(rest, del));
      KeysOfConcat([], Without(rest, del));
      assert KeysOf([all[0]]) == [ks[0]];
    }
  }

  lemma {:induction false} NothingWithout(ks: seq<Lits>, del: set<Lits>)
    requires forall k :: k in ks ==> k !in del
    ensures WithoutKeys(ks, del) == ks
  {
    if ks != [] { NothingWithout(ks[1..], del); }
  }

  lemma Regroup(x: seq<Lits>, y: seq<Lits>, z: seq<Lits>)
    ensures x + (y + z) == (x + y) + z
  {
  }

  lemma {:induction false} WithoutKeysAppended(ks: seq<Lits>, more: seq<Lits>, del: set<Lits>)
    ensures WithoutKeys(ks + more, del) == WithoutKeys(ks, del) + WithoutKeys(more, del)
  {
    if ks == [] {
      assert [] + more == more;
    } else {
      WithoutKeysAppended(ks[1..], more, del);
      assert (ks + more)[1..] == ks[1..] + more && (ks + more)[0] == ks[0];
      var head := if ks[0] in del then [] else [ks[0]];
      Regroup(head, WithoutKeys(ks[1..], del), WithoutKeys(more, del));
    }
  }

  // ----- Reading back -----

  /** Clauses of `all` have been removed, and the implications ms added and filed. */
  ghost predicate Replaced(info: Info, all: seq<Clause>, del: set<Clause>, ms: seq<Clause>) {
    && AllMetas(ms)
    && (forall c :: c in all ==> Known(info, c))
    && (forall c :: c in del ==> c.Flow? && Known(info, c))
  }

  /** The clauses that should be read back. */
  ghost function Ideal(all: seq<Clause>, del: set<Clause>, ms: seq<Clause>): seq<Clause> { Without(all, del) + ms }

  /** Two implications between the same two variables, in opposite directions. */
  ghost predicate Opposite(m: Clause, m': Clause) { m.Meta? && m'.Meta? && m.a == m'.b && m.b == m'.a && m.a != m.b }

  /** No two implications have their ends swapped, and no clause that is kept consists of the two
      positive literals of an implication's ends. */
  ghost predicate NoClash(all: seq<Clause>, del: set<Clause>, ms: seq<Clause>) {
    && (forall j, k :: 0 <= j < |ms| && 0 <= k < |ms| ==> !Opposite(ms[j], ms[k]))
    && (forall c, k :: c in all && c !in del && 0 <= k < |ms| ==> Key(c) != Key(ms[k]))
  }

  lemma SameEnds(m: Clause, m': Clause)
    requires m.Meta? && m'.Meta?
    ensures Key(m) == Key(m') <==> m == m' || Opposite(m, m')
  {
    if Key(m) == Key(m') {
      assert (m.a, true) in Key(m') && (m.b, true) in Key(m') && (m'.a, true) in Key(m) && (m'.b, true) in Key(m);
    }
    if Opposite(m, m') { assert Key(m) == multiset{(m'.b, true), (m'.a, true)}; }
  }

  /** Where nothing clashes, everything is read back as it should be. */
  lemma ReadAt(info: Info, all: seq<Clause>, del: set<Clause>, ms: seq<Clause>, c: Clause)
    requires Replaced(info, all, del, ms) && NoClash(all, del, ms) && c in Ideal(all, del, ms)
    ensures Typed(Filed(info, ms), Key(c)) == c
  {
    FiledMeans(info, ms, Key(c));
    if c in ms {
      var k :| 0 <= k < |ms| && ms[k] == c;
      assert KeysOf(ms)[k] == Key(c);
      var j :| 0 <= j < |ms| && ms[j] == Typed(Filed(info, ms), Key(c));
      SameEnds(ms[j], ms[k]);
    } else {
      WithoutHolds(all, del);
    }
  }

  lemma ClashIsMisread(info: Info, all: seq<Clause>, del: set<Clause>, ms: seq<Clause>) returns (c: Clause)
    requires Replaced(info, all, del, ms) && !NoClash(all, del, ms)
    ensures c in Ideal(all, del, ms) && Typed(Filed(info, ms), Key(c)) != c
  {
    if j, k :| 0 <= j < |ms| && 0 <= k < |ms| && Opposite(ms[j], ms[k]) {
      SameEnds(ms[j], ms[k]);
      c := if Typed(Filed(info, ms), Key(ms[j])) == ms[j] then ms[k] else ms[j];
    } else {
      var d, k :| d in all && d !in del && 0 <= k < |ms| && Key(d) == Key(ms[k]);
      c := d;
      WithoutHolds(all, del);
      FiledMeans(info, ms, Key(d));
      assert KeysOf(ms)[k] == Key(d);
    }
  }

  /** What is read back is what should be exactly when nothing clashes. */
  lemma ReadBackIff(info: Info, all: seq<Clause>, del: set<Clause>, ms: seq<Clause>)
    requires Replaced(info, all, del, ms)
    ensures TypedAll(Filed(info, ms), KeysOf(Ideal(all, del, ms))) == Ideal(all, del, ms) <==> NoClash(all, del, ms)
  {
    var ideal := Ideal(all, del, ms);
    var read := TypedAll(Filed(info, ms), KeysOf(ideal));
    if NoClash(all, del, ms) {
      forall n | 0 <= n < |ideal| ensures read[n] == ideal[n] { ReadAt(info, all, del, ms, ideal[n]); }
    } else {
      var c := ClashIsMisread(info, all, del, ms);
      var n :| 0 <= n < |ideal| && ideal[n] == c;
      assert read[n] != ideal[n];
    }
  }

  // ----- Taking clauses out while the list grows -----

  ghost function ToSet(cs: seq<Clause>): set<Clause> { set c | c in cs }

  /** Some rounds on, with the implications ms added and filed, and the clauses del taken out. */
  ghost predicate Progress(info0: Info, keys: seq<Lits>, ms: seq<Clause>, del: set<Clause>, list: seq<Lits>, info: Info,
                           delKeys: set<Lits>) {
    list == keys + KeysOf(ms) && info == Filed(info0, ms) && delKeys == KeySet(del) && AllMetas(ms)
  }

  lemma ProgressNext(info0: Info, keys: seq<Lits>, ms: seq<Clause>, del: set<Clause>, list: seq<Lits>, info: Info,
                     delKeys: set<Lits>,
                     m: Clause, ch: seq<Clause>)
    requires Progress(info0, keys, ms, del, list, info, delKeys) && m.Meta?
    ensures Progress(info0, keys, ms + [m], del + ToSet(ch), list + [Key(m)], info[Key(m) := m], delKeys + KeySetOf(ch))
  {
    FiledNext(info0, ms, m);
    assert KeysOf(ms + [m]) == KeysOf(ms) + [Key(m)];
    KeySetUnion(del, ToSet(ch));
  }

  lemma KeySetUnion(cs: set<Clause>, ds: set<Clause>)
    ensures KeySet(cs + ds) == KeySet(cs) + KeySet(ds)
  {
  }

  function KeySetOf(cs: seq<Clause>): (ks: set<Lits>)
    ensures ks == KeySet(ToSet(cs))
  {
    var ks := set c | c in cs :: Key(c);
    assert forall k :: k in KeySet(ToSet(cs)) ==> exists c :: c in ToSet(cs) && Key(c) == k;
    ks
  }

  /** What the walk over the list takes for a flow clause is one, and an original one. */
  lemma AtPlace(info0: Info, keys: seq<Lits>, ms: seq<Clause>, del: set<Clause>, list: seq<Lits>, info: Info,
                delKeys: set<Lits>, i: nat)
    requires Proper(info0) && Progress(info0, keys, ms, del, list, info, delKeys) && i < |list|
    ensures Typed(info, list[i]).Flow? <==> i < |keys| && Typed(info0, keys[i]).Flow?
    ensures Typed(info, list[i]).Flow? ==> Typed(info, list[i]) == Typed(info0, keys[i])
  {
    FlowIsKept(info0, ms, list[i]);
    if i >= |keys| {
      assert list[i] == KeysOf(ms)[i - |keys|];
      FiledMeans(info0, ms, list[i]);
    }
  }

  lemma MetaKeyStays(info: Info, all: seq<Clause>, ms: seq<Clause>, del: set<Clause>, k: Lits)
    requires Replaced(info, all, del, ms) && k in KeysOf(ms)
    ensures k !in KeySet(del)
  {
    var j :| 0 <= j < |ms| && KeysOf(ms)[j] == k;
    forall c | c in del ensures Key(c) != k { MetaKeyIsPositive(ms[j], c); }
  }

  lemma ProgressIsReturned(info0: Info, keys: seq<Lits>, all: seq<Clause>, ms: seq<Clause>, del: set<Clause>,
                           list: seq<Lits>, info: Info,
                           delKeys: set<Lits>)
    requires Proper(info0) && Progress(info0, keys, ms, del, list, info, delKeys)
    requires all == TypedAll(info0, keys) && Replaced(info0, all, del, ms)
    ensures WithoutKeys(list, delKeys) == KeysOf(Ideal(all, del, ms))
  {
    forall k | k in KeysOf(ms) ensures k !in delKeys { MetaKeyStays(info0, all, ms, del, k); }
    NothingWithout(KeysOf(ms), delKeys);
    WithoutKeysAppended(keys, KeysOf(ms), delKeys);
    WithoutKeysTyped(info0, keys, del);
    KeysOfConcat(Without(all, del), ms);
  }
}
