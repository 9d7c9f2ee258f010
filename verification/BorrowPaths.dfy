/** Values as paths of length one: what the borrow indexes and the alias search say about the pairs of
    values that borrow from each other. */
module BorrowPaths {
  import opened PointerIR
  import opened OwnershipClauses
  import BorrowGraph
  import BorrowAliases

  type Path = BorrowGraph.Path
  type Borrow = BorrowGraph.Borrow

  /** The number under which a value is known as a part of a path. */
  function Id(n: Name): nat {
    match n
    case NullConst => 1
    case Ret => 2
    case Local(k) => k + 3
  }

  function NameOf(id: nat): Name {
    if id == 1 then NullConst else if id == 2 then Ret else if id >= 3 then Local(id - 3) else NullConst
  }

  lemma NameOfId(n: Name)
    ensures NameOf(Id(n)) == n
  {
  }

  function PathOf(n: Name): Path { [Id(n)] }

  predicate Numbered(n: Name) { Id(n) < BorrowGraph.MAX_PART }

  lemma PathIsName(n: Name, m: Name)
    ensures PathOf(n) == PathOf(m) <==> n == m
    ensures Numbered(n) ==> BorrowGraph.ValidPath(PathOf(n))
  {
    NameOfId(n);
    NameOfId(m);
    if PathOf(n) == PathOf(m) { assert PathOf(n)[0] == PathOf(m)[0]; }
  }

  function BorrowOf(e: (Name, Name)): Borrow { BorrowGraph.Borrow(PathOf(e.1), PathOf(e.0)) }

  function Graph(bs: Borrows): set<Borrow> { set e | e in bs :: BorrowOf(e) }

  lemma InGraph(bs: Borrows, e: (Name, Name))
    ensures BorrowOf(e) in Graph(bs) <==> e in bs
  {
    if BorrowOf(e) in Graph(bs) {
      var e' :| e' in bs && BorrowOf(e') == BorrowOf(e);
      PathIsName(e.0, e'.0);
      PathIsName(e.1, e'.1);
    }
  }

  lemma BaseStarts(n: Name, m: Name)
    ensures BorrowGraph.StartsWith(PathOf(n), PathOf(m)) <==> n == m
  {
    PathIsName(n, m);
    assert PathOf(n)[..1] == PathOf(n);
  }

  // ----- Deaths -----

  /** On values, splicing a dead path is joining each pair of borrows through it. */
  lemma SpliceIsKill(bs: Borrows, x: Name)
    ensures BorrowGraph.Splice(Graph(bs), PathOf(x)) == Graph(KillBorrows(bs, x))
  {
    var g, d := Graph(bs), PathOf(x);
    forall n
      ensures n in BorrowGraph.Splice(g, d) <==> n in Graph(KillBorrows(bs, x))
    {
      if n in BorrowGraph.Splice(g, d) { SpliceIsKillForth(bs, x, n); }
      if n in Graph(KillBorrows(bs, x)) {
        var e :| e in KillBorrows(bs, x) && n == BorrowOf(e);
        SpliceIsKillBack(bs, x, e);
      }
    }
  }

  lemma Ends(bs: Borrows, x: Name, e: (Name, Name))
    ensures BorrowOf(e) in BorrowGraph.Into(Graph(bs), PathOf(x)) <==> e in bs && e.1 == x
    ensures BorrowOf(e) in BorrowGraph.OutOf(Graph(bs), PathOf(x)) <==> e in bs && e.0 == x
  {
    InGraph(bs, e);
    BaseStarts(e.0, x);
    BaseStarts(e.1, x);
  }

  lemma PairOf(bs: Borrows, n: Borrow) returns (e: (Name, Name))
    requires n in Graph(bs)
    ensures e in bs && n == BorrowOf(e)
  {
    e :| e in bs && BorrowOf(e) == n;
  }

  /** Two borrows that meet at x make one borrow, from end to end. */
  lemma ThroughBase(e1: (Name, Name), e2: (Name, Name), x: Name)
    requires e1.1 == x && e2.0 == x
    ensures BorrowGraph.StartsWith(PathOf(x), PathOf(x))
    ensures BorrowGraph.Through(PathOf(x), BorrowOf(e1), BorrowOf(e2)) == {BorrowOf((e1.0, e2.1))}
  {
    BaseStarts(x, x);
    assert PathOf(x)[1..] == [] && PathOf(e2.1) + [] == PathOf(e2.1) && PathOf(e1.0) + [] == PathOf(e1.0);
  }

  lemma BesideBase(e1: (Name, Name), e2: (Name, Name), x: Name)
    requires e1.1 == x && e2.1 == x
    ensures BorrowGraph.StartsWith(PathOf(x), PathOf(x))
    ensures BorrowGraph.Beside(PathOf(x), BorrowOf(e1), BorrowOf(e2)) == {}
  {
    BaseStarts(x, x);
  }

  lemma SpliceIsKillForth(bs: Borrows, x: Name, n: Borrow)
    requires n in BorrowGraph.Splice(Graph(bs), PathOf(x))
    ensures n in Graph(KillBorrows(bs, x))
  {
    var g, d := Graph(bs), PathOf(x);
    if n in g && n !in BorrowGraph.Into(g, d) && n !in BorrowGraph.OutOf(g, d) {
      var e := PairOf(bs, n);
      Ends(bs, x, e);
      InGraph(KillBorrows(bs, x), e);
    } else {
      assert BorrowGraph.NewBorrow(g, d, n);
      NewIsThrough(bs, x, n);
    }
  }

  lemma NewIsThrough(bs: Borrows, x: Name, n: Borrow)
    requires BorrowGraph.NewBorrow(Graph(bs), PathOf(x), n)
    ensures n in Graph(KillBorrows(bs, x))
  {
    var g, d := Graph(bs), PathOf(x);
    if b1, b2 :| b1 in BorrowGraph.Into(g, d) && b2 in BorrowGraph.OutOf(g, d) && n in BorrowGraph.Through(d, b1, b2) {
      var e1 := PairOf(bs, b1);
      var e2 := PairOf(bs, b2);
      Ends(bs, x, e1);
      Ends(bs, x, e2);
      ThroughBase(e1, e2, x);
      PathIsName(e1.0, e2.1);
      InGraph(KillBorrows(bs, x), (e1.0, e2.1));
    } else {
      var b1, b2 :| b1 in BorrowGraph.Into(g, d) && b2 in BorrowGraph.Into(g, d) && n in BorrowGraph.Beside(d, b1, b2);
      var e1 := PairOf(bs, b1);
      var e2 := PairOf(bs, b2);
      Ends(bs, x, e1);
      Ends(bs, x, e2);
      BesideBase(e1, e2, x);
    }
  }

  lemma SpliceIsKillBack(bs: Borrows, x: Name, e: (Name, Name))
    requires e in KillBorrows(bs, x)
    ensures BorrowOf(e) in BorrowGraph.Splice(Graph(bs), PathOf(x))
  {
    var g, d := Graph(bs), PathOf(x);
    if e in bs && e.0 != x && e.1 != x {
      InGraph(bs, e);
      Ends(bs, x, e);
    } else {
      var e1, e2 :| e1 in bs && e2 in bs && e1.1 == x && e2.0 == x && e1.0 != e2.1 && e == (e1.0, e2.1);
      Ends(bs, x, e1);
      Ends(bs, x, e2);
      ThroughBase(e1, e2, x);
      PathIsName(e1.0, e2.1);
      assert BorrowGraph.NewBorrow(g, d, BorrowOf(e));
    }
  }

  // ----- Aliases -----

  function NamesOf(bs: Borrows): set<Name> { (set e | e in bs :: e.0) + set e | e in bs :: e.1 }

  /** A step along borrows between values is a borrow. */
  lemma StepIsBorrow(bs: Borrows, down: bool, n: Name, q: Path)
    requires BorrowAliases.AliasStep(Graph(bs), down, PathOf(n), q)
    ensures exists m :: q == PathOf(m) && (if down then (n, m) else (m, n)) in bs
  {
    var g := Graph(bs);
    var b, s :| if down then BorrowGraph.StepBy(g, PathOf(n), q, b, s) else BorrowGraph.StepBy(g, q, PathOf(n), b, s);
    var e := PairOf(bs, b);
    if down {
      BaseExtends(n, e.0, s);
      assert q == PathOf(e.1);
    } else {
      BaseExtends(n, e.1, s);
      assert q == PathOf(e.0);
    }
  }

  lemma BaseExtends(n: Name, m: Name, s: Path)
    requires PathOf(n) == PathOf(m) + s
    ensures n == m && s == []
  {
    assert |PathOf(m) + s| == 1 + |s|;
    PathIsName(n, m);
  }

  /** Trails along borrows between values stay among values of the borrows' kind. */
  lemma TrailAmong(bs: Borrows, down: bool, avoid: set<Path>, p: Name, q: Path, names: set<Name>)
    requires BorrowAliases.Leads(Graph(bs), down, avoid, PathOf(p), q)
    requires p in names && forall e ::
             e in bs ==> (if down then e.0 in names ==> e.1 in names else e.1 in names ==> e.0 in names)
    ensures exists m :: m in names && q == PathOf(m)
  {
    var ps :| BorrowAliases.Trail(Graph(bs), down, avoid, ps) && ps[0] == PathOf(p) && ps[|ps| - 1] == q;
    var closed := set n | n in names :: PathOf(n);
    forall x, y | x in closed && BorrowAliases.AliasStep(Graph(bs), down, x, y) && y !in avoid
      ensures y in closed
    {
      var n :| n in names && x == PathOf(n);
      StepIsBorrow(bs, down, n, y);
    }
    BorrowAliases.TrailStays(Graph(bs), down, avoid, closed, ps);
  }

  /** What borrows from p, directly or not, and p itself. */
  ghost function BelowNames(bs: Borrows, p: Name): set<Path> {
    set n | n in NamesOf(bs) + {p}
      && (n == p || BorrowAliases.Leads(Graph(bs), true, {}, PathOf(p), PathOf(n))) :: PathOf(n)
  }

  lemma BelowIs(bs: Borrows, p: Name, q: Path)
    ensures q in BelowNames(bs, p) <==> q == PathOf(p) || BorrowAliases.Leads(Graph(bs), true, {}, PathOf(p), q)
  {
    if BorrowAliases.Leads(Graph(bs), true, {}, PathOf(p), q) {
      TrailAmong(bs, true, {}, p, q, NamesOf(bs) + {p});
      var m :| m in NamesOf(bs) + {p} && q == PathOf(m);
    }
    assert p in NamesOf(bs) + {p};
  }

  /** The values that the alias search returns for p. */
  ghost function AliasNames(bs: Borrows, p: Name): set<Name> {
    set n | n in NamesOf(bs) + {p} && BorrowAliases.Returned(Graph(bs), PathOf(p), BelowNames(bs, p), PathOf(n))
  }

  lemma ReturnedAreNames(bs: Borrows, p: Name, n: Name)
    ensures n in AliasNames(bs, p) <==> BorrowAliases.Returned(Graph(bs), PathOf(p), BelowNames(bs, p), PathOf(n))
  {
    var q := PathOf(n);
    if BorrowAliases.Returned(Graph(bs), PathOf(p), BelowNames(bs, p), q) {
      if q in BelowNames(bs, p) {
        var m :| m in NamesOf(bs) + {p} && PathOf(m) == q;
        PathIsName(n, m);
      } else {
        TrailAmong(bs, false, BelowNames(bs, p), p, q, NamesOf(bs) + {p});
        var m :| m in NamesOf(bs) + {p} && PathOf(m) == q;
        PathIsName(n, m);
      }
    }
  }

  /** Where every borrow joins copies of the same value, so do the aliases. */
  lemma AliasesShareRoot(bs: Borrows, p: Name, n: Name, root: Name -> Name)
    requires n in AliasNames(bs, p) && forall e :: e in bs ==> root(e.0) == root(e.1)
    ensures root(n) == root(p)
  {
    var names := set m | m in NamesOf(bs) + {p} && root(m) == root(p);
    var q := PathOf(n);
    if q == PathOf(p) {
      PathIsName(n, p);
    } else {
      BelowIs(bs, p, q);
      if q in BelowNames(bs, p) {
        TrailAmong(bs, true, {}, p, q, names);
      } else {
        TrailAmong(bs, false, BelowNames(bs, p), p, q, names);
      }
      var m :| m in names && q == PathOf(m);
      PathIsName(n, m);
    }
  }

  // ----- Some aliases -----

  /** What a value borrows from directly is among its aliases, and so is the value. */
  lemma LenderIsAlias(bs: Borrows, p: Name, n: Name)
    requires (n, p) in bs
    ensures n in AliasNames(bs, p) && p in AliasNames(bs, p)
  {
    var g, below := Graph(bs), BelowNames(bs, p);
    SelfIsAlias(bs, p);
    ReturnedAreNames(bs, p, n);
    if PathOf(n) !in below {
      InGraph(bs, (n, p));
      assert BorrowGraph.StepBy(g, PathOf(n), PathOf(p), BorrowOf((n, p)), []);
      BorrowAliases.TrailStart(g, false, below, PathOf(p));
      BorrowAliases.TrailNext(g, false, below, PathOf(p), PathOf(p), PathOf(n));
    }
  }

  lemma SelfIsAlias(bs: Borrows, p: Name)
    ensures p in AliasNames(bs, p)
  {
    BelowIs(bs, p, PathOf(p));
    ReturnedAreNames(bs, p, p);
  }
}
