/** What the borrow relation between values is in the end: a value borrows from the nearest value that
    is still kept among those it was copied from. */
module CopyBorrows {
  import opened PointerIR
  import opened OwnershipClauses

  // ----- Copies -----

  /** d is a copy of s that is recorded as a borrow. */
  ghost predicate CopyOf(f: Func, d: Name, s: Name) {
    s != d && s != NullConst && f.HasUses(d) && exists b: nat, i: nat :: CopySite(f, b, i, d, s)
  }

  ghost predicate CopySite(f: Func, b: nat, i: nat, d: Name, s: Name) { f.At(b, i) && f.blocks[b][i] == VarStore(d, s) }

  ghost predicate CopyAt(f: Func, ns: seq<Name>, i: nat)
    requires i + 1 < |ns|
  {
    CopyOf(f, ns[i + 1], ns[i])
  }

  /** Copies of copies, through values that are not kept. */
  ghost predicate CopyChain(f: Func, keep: set<Name>, ns: seq<Name>) {
    && |ns| >= 2
    && (forall i :: 0 <= i < |ns| - 1 ==> CopyAt(f, ns, i))
    && (forall i :: 0 < i < |ns| - 1 ==> ns[i] !in keep)
  }

  ghost predicate Via(f: Func, keep: set<Name>, w: Name, y: Name) {
    exists ns :: CopyChain(f, keep, ns) && ns[0] == w && ns[|ns| - 1] == y
  }

  /** y is copied, directly or not, from w. */
  ghost predicate Descends(f: Func, w: Name, y: Name) { Via(f, {}, w, y) }

  lemma ViaStep(f: Func, keep: set<Name>, w: Name, y: Name)
    requires CopyOf(f, y, w)
    ensures Via(f, keep, w, y)
  {
    var ns := [w, y];
    assert CopyAt(f, ns, 0);
    assert CopyChain(f, keep, ns);
  }

  lemma ViaConcat(f: Func, keep: set<Name>, w: Name, x: Name, y: Name)
    requires Via(f, keep, w, x) && Via(f, keep, x, y) && x !in keep
    ensures Via(f, keep, w, y)
  {
    var ns :| CopyChain(f, keep, ns) && ns[0] == w && ns[|ns| - 1] == x;
    var ms :| CopyChain(f, keep, ms) && ms[0] == x && ms[|ms| - 1] == y;
    var all := ns + ms[1..];
    forall i | 0 <= i < |all| - 1
      ensures CopyAt(f, all, i)
    {
      if i < |ns| - 1 { assert CopyAt(f, ns, i); } else { assert CopyAt(f, ms, i + 1 - |ns|); }
    }
    forall i | 0 < i < |all| - 1
      ensures all[i] !in keep
    {
      if i >= |ns| { assert all[i] == ms[i + 1 - |ns|]; }
    }
    assert CopyChain(f, keep, all);
  }

  lemma ViaFewer(f: Func, keep: set<Name>, less: set<Name>, w: Name, y: Name)
    requires Via(f, keep, w, y) && less <= keep
    ensures Via(f, less, w, y)
  {
    var ns :| CopyChain(f, keep, ns) && ns[0] == w && ns[|ns| - 1] == y;
    assert CopyChain(f, less, ns);
  }

  lemma ChainPart(f: Func, keep: set<Name>, ns: seq<Name>, i: nat, j: nat)
    requires CopyChain(f, keep, ns) && i < j < |ns|
    ensures Via(f, keep, ns[i], ns[j])
  {
    var part := ns[i..j + 1];
    forall k | 0 <= k < |part| - 1 ensures CopyAt(f, part, k) { assert CopyAt(f, ns, i + k); }
    assert CopyChain(f, keep, part) && part[0] == ns[i] && part[|part| - 1] == ns[j];
  }

  /** A chain through values outside keep either avoids x or splits at its first and last x. */
  lemma SplitAt(f: Func, keep: set<Name>, x: Name, w: Name, y: Name)
    requires Via(f, keep, w, y) && w != x && y != x
    ensures Via(f, keep + {x}, w, y) || (Via(f, keep + {x}, w, x) && Via(f, keep + {x}, x, y))
  {
    var ns :| CopyChain(f, keep, ns) && ns[0] == w && ns[|ns| - 1] == y;
    if x in ns {
      var first := FirstIn(ns, x);
      ToFirst(f, keep, ns, x, first);
      var last := LastIn(ns, x);
      FromLast(f, keep, ns, x, last);
    } else {
      assert CopyChain(f, keep + {x}, ns);
    }
  }

  ghost function FirstIn(ns: seq<Name>, x: Name): (i: nat)
    requires x in ns
    ensures i < |ns| && ns[i] == x && forall j :: 0 <= j < i ==> ns[j] != x
  {
    if ns[0] == x then 0 else 1 + FirstIn(ns[1..], x)
  }

  ghost function LastIn(ns: seq<Name>, x: Name): (i: nat)
    requires x in ns
    ensures i < |ns| && ns[i] == x && forall j :: i < j < |ns| ==> ns[j] != x
  {
    if ns[|ns| - 1] == x then |ns| - 1 else LastIn(ns[..|ns| - 1], x)
  }

  lemma ToFirst(f: Func, keep: set<Name>, ns: seq<Name>, x: Name, i: nat)
    requires CopyChain(f, keep, ns) && 0 < i < |ns| && ns[i] == x && forall j :: 0 <= j < i ==> ns[j] != x
    ensures Via(f, keep + {x}, ns[0], x)
  {
    var part := ns[..i + 1];
    forall k | 0 <= k < |part| - 1 ensures CopyAt(f, part, k) { assert CopyAt(f, ns, k); }
    assert CopyChain(f, keep + {x}, part);
  }

  lemma FromLast(f: Func, keep: set<Name>, ns: seq<Name>, x: Name, i: nat)
    requires CopyChain(f, keep, ns) && i + 1 < |ns| && ns[i] == x && forall j :: i < j < |ns| ==> ns[j] != x
    ensures Via(f, keep + {x}, x, ns[|ns| - 1])
  {
    var part := ns[i..];
    forall k | 0 <= k < |part| - 1 ensures CopyAt(f, part, k) { assert CopyAt(f, ns, i + k); }
    assert CopyChain(f, keep + {x}, part) && part[0] == x && part[|part| - 1] == ns[|ns| - 1];
  }

  // ----- The borrows among kept values -----

  ghost predicate IsCopyPair(f: Func, keep: set<Name>, e: (Name, Name)) {
    e.0 in keep && e.1 in keep && e.0 != e.1 && Via(f, keep, e.0, e.1)
  }

  /** Each kept value with the nearest kept values it was copied from. */
  ghost function CopyPairs(f: Func, keep: set<Name>): (bs: Borrows)
    ensures forall e :: e in bs <==> IsCopyPair(f, keep, e)
  {
    set w, y | w in keep && y in keep && IsCopyPair(f, keep, (w, y)) :: (w, y)
  }

  /** When a value dies, splicing it out leaves the borrows among the others. */
  lemma KillOne(f: Func, keep: set<Name>, x: Name)
    ensures KillBorrows(CopyPairs(f, keep), x) == CopyPairs(f, keep - {x})
  {
    var bs := CopyPairs(f, keep);
    forall e
      ensures e in KillBorrows(bs, x) <==> IsCopyPair(f, keep - {x}, e)
    {
      if x in keep {
        if e in KillBorrows(bs, x) { KillOneForth(f, keep, x, e); }
        if IsCopyPair(f, keep - {x}, e) { KillOneBack(f, keep, x, e); }
      } else {
        assert keep - {x} == keep;
      }
    }
  }

  lemma KillOneForth(f: Func, keep: set<Name>, x: Name, e: (Name, Name))
    requires x in keep && e in KillBorrows(CopyPairs(f, keep), x)
    ensures IsCopyPair(f, keep - {x}, e)
  {
    var bs := CopyPairs(f, keep);
    if e in bs && e.0 != x && e.1 != x {
      ViaFewer(f, keep, keep - {x}, e.0, e.1);
    } else {
      var e1, e2 :| e1 in bs && e2 in bs && e1.1 == x && e2.0 == x && e1.0 != e2.1 && e == (e1.0, e2.1);
      ViaFewer(f, keep, keep - {x}, e1.0, x);
      ViaFewer(f, keep, keep - {x}, x, e2.1);
      ViaConcat(f, keep - {x}, e1.0, x, e2.1);
    }
  }

  lemma KillOneBack(f: Func, keep: set<Name>, x: Name, e: (Name, Name))
    requires x in keep && IsCopyPair(f, keep - {x}, e)
    ensures e in KillBorrows(CopyPairs(f, keep), x)
  {
    SplitAt(f, keep - {x}, x, e.0, e.1);
    assert keep - {x} + {x} == keep;
    if !Via(f, keep, e.0, e.1) {
      var e1, e2 := (e.0, x), (x, e.1);
      assert e1 in CopyPairs(f, keep) && e2 in CopyPairs(f, keep);
    }
  }

  lemma {:induction false} KillAll(f: Func, keep: set<Name>, dead: seq<Name>)
    ensures KillInOrder(CopyPairs(f, keep), dead) == CopyPairs(f, keep - set x | x in dead)
    decreases |dead|
  {
    if dead == [] {
      assert keep - (set x | x in dead) == keep;
    } else {
      KillOne(f, keep, dead[0]);
      KillAll(f, keep - {dead[0]}, dead[1..]);
      assert keep - {dead[0]} - (set x | x in dead[1..]) == keep - set x | x in dead;
    }
  }

  lemma KillGrows(small: Borrows, large: Borrows, x: Name)
    requires small <= large
    ensures KillBorrows(small, x) <= KillBorrows(large, x)
  {
  }

  lemma {:induction false} KillAllGrows(small: Borrows, large: Borrows, dead: seq<Name>)
    requires small <= large
    ensures KillInOrder(small, dead) <= KillInOrder(large, dead)
    decreases |dead|
  {
    if dead != [] {
      KillGrows(small, large, dead[0]);
      KillAllGrows(KillBorrows(small, dead[0]), KillBorrows(large, dead[0]), dead[1..]);
    }
  }

  // ----- A definition -----

  /** Nothing among the names is a copy of d, and d is not among them. */
  ghost predicate FreshFor(f: Func, d: Name, names: set<Name>) {
    d !in names && forall y :: y in names ==> !Descends(f, d, y)
  }

  ghost predicate OnlyCopy(f: Func, d: Name, s: Name) { CopyOf(f, d, s) && forall s' :: CopyOf(f, d, s') ==> s' == s }

  /** Keeping a new value that is no recorded copy changes nothing. */
  lemma DefineOriginal(f: Func, keep: set<Name>, d: Name)
    requires FreshFor(f, d, keep) && forall s :: !CopyOf(f, d, s)
    ensures CopyPairs(f, keep + {d}) == CopyPairs(f, keep)
  {
    forall e ensures IsCopyPair(f, keep + {d}, e) <==> IsCopyPair(f, keep, e) {
      if IsCopyPair(f, keep + {d}, e) { DefinedForth(f, keep, d, e); }
      if IsCopyPair(f, keep, e) { DefinedBack(f, keep, d, e); }
    }
  }

  /** A pair among the old values and d: an old one, or from d's source. */
  lemma DefinedForth(f: Func, keep: set<Name>, d: Name, e: (Name, Name))
    requires FreshFor(f, d, keep) && IsCopyPair(f, keep + {d}, e)
    ensures IsCopyPair(f, keep, e)
            || (e.1 == d && e.0 in keep && exists s :: CopyOf(f, d, s) && (s in keep ==> s == e.0))
  {
    var ns :| CopyChain(f, keep + {d}, ns) && ns[0] == e.0 && ns[|ns| - 1] == e.1;
    if e.0 == d { ViaFewer(f, keep + {d}, {}, d, e.1); }
    if e.1 == d {
      var k := |ns| - 2;
      assert CopyAt(f, ns, k);
    } else {
      assert CopyChain(f, keep, ns);
    }
  }

  lemma DefinedBack(f: Func, keep: set<Name>, d: Name, e: (Name, Name))
    requires FreshFor(f, d, keep) && IsCopyPair(f, keep, e)
    ensures IsCopyPair(f, keep + {d}, e)
  {
    var ns :| CopyChain(f, keep, ns) && ns[0] == e.0 && ns[|ns| - 1] == e.1;
    if d in ns {
      var k :| 0 <= k < |ns| && ns[k] == d;
      ChainPart(f, keep, ns, k, |ns| - 1);
      ViaFewer(f, keep, {}, d, e.1);
    }
    assert CopyChain(f, keep + {d}, ns);
  }

  /** A new copy borrows from its source. */
  lemma DefineCopy(f: Func, keep: set<Name>, d: Name, s: Name)
    requires FreshFor(f, d, keep) && OnlyCopy(f, d, s) && s in keep
    ensures CopyPairs(f, keep + {d}) == CopyPairs(f, keep) + {(s, d)}
  {
    ViaStep(f, keep + {d}, s, d);
    forall e ensures IsCopyPair(f, keep + {d}, e) <==> IsCopyPair(f, keep, e) || e == (s, d) {
      if IsCopyPair(f, keep + {d}, e) { DefinedForth(f, keep, d, e); }
      if IsCopyPair(f, keep, e) { DefinedBack(f, keep, d, e); }
    }
  }

  // ----- Joining -----

  /** Every pair comes from copies through values outside keep, between names among `names`. */
  ghost predicate Bounded(f: Func, keep: set<Name>, names: set<Name>, bs: Borrows) {
    forall e :: e in bs ==> e.0 != e.1 && e.0 in names && e.1 in names && Via(f, keep, e.0, e.1)
  }

  lemma KillBounded(f: Func, keep: set<Name>, names: set<Name>, bs: Borrows, x: Name)
    requires Bounded(f, keep, names, bs) && x !in keep
    ensures Bounded(f, keep, names - {x}, KillBorrows(bs, x))
  {
    forall e | e in KillBorrows(bs, x)
      ensures Via(f, keep, e.0, e.1)
    {
      if !(e in bs && e.0 != x && e.1 != x) {
        var e1, e2 :| e1 in bs && e2 in bs && e1.1 == x && e2.0 == x && e1.0 != e2.1 && e == (e1.0, e2.1);
        ViaConcat(f, keep, e1.0, x, e2.1);
      }
    }
  }

  lemma {:induction false} KillAllBounded(f: Func, keep: set<Name>, names: set<Name>, bs: Borrows, dead: seq<Name>)
    requires Bounded(f, keep, names, bs) && forall x :: x in dead ==> x !in keep
    ensures Bounded(f, keep, names - (set x | x in dead), KillInOrder(bs, dead))
    decreases |dead|
  {
    if dead == [] {
      assert names - (set x | x in dead) == names;
    } else {
      KillBounded(f, keep, names, bs, dead[0]);
      KillAllBounded(f, keep, names - {dead[0]}, KillBorrows(bs, dead[0]), dead[1..]);
      assert names - {dead[0]} - (set x | x in dead[1..]) == names - set x | x in dead;
    }
  }

  lemma BoundedByKept(f: Func, keep: set<Name>, names: set<Name>, bs: Borrows)
    requires Bounded(f, keep, names, bs) && names <= keep
    ensures bs <= CopyPairs(f, keep)
  {
  }

  lemma PairsBounded(f: Func, keep: set<Name>, less: set<Name>, names: set<Name>, bs: Borrows)
    requires bs <= CopyPairs(f, keep) && less <= keep && keep <= names
    ensures Bounded(f, less, names, bs)
  {
    forall e | e in bs ensures Via(f, less, e.0, e.1) { ViaFewer(f, keep, less, e.0, e.1); }
  }

  // ----- Where borrows lead -----

  lemma {:induction false} ChainKeepsRoot(f: Func, root: Name -> Name, keep: set<Name>, ns: seq<Name>, i: nat)
    requires CopyRoots(f, root) && CopyChain(f, keep, ns) && i < |ns|
    ensures root(ns[i]) == root(ns[0])
  {
    if i > 0 {
      ChainKeepsRoot(f, root, keep, ns, i - 1);
      assert CopyAt(f, ns, i - 1);
      var b: nat, j: nat :| CopySite(f, b, j, ns[i], ns[i - 1]);
    }
  }

  lemma PairKeepsRoot(f: Func, root: Name -> Name, keep: set<Name>, e: (Name, Name))
    requires CopyRoots(f, root) && IsCopyPair(f, keep, e)
    ensures root(e.0) == root(e.1)
  {
    var ns :| CopyChain(f, keep, ns) && ns[0] == e.0 && ns[|ns| - 1] == e.1;
    ChainKeepsRoot(f, root, keep, ns, |ns| - 1);
  }
}
