/** In strict SSA form nothing that dominates a definition is a copy of what it defines.  Shown along
    paths of the control-flow graph, so it holds at every place that can be reached. */
module CopySites {
  import opened PointerIR
  import opened OwnershipClauses
  import opened CopyBorrows

  /** A path from the entry block. */
  datatype Route = Entry | Then(front: Route, b: nat) {

    function End(): nat {
      match this
      case Entry => 0
      case Then(_, b) => b
    }

    ghost predicate Along(f: Func) {
      match this
      case Entry => true
      case Then(front, b) => front.Along(f) && Edge(f, front.End(), b)
    }

    /** How many edges lead to a block that is not laid out after the one they leave. */
    function Descents(): nat {
      match this
      case Entry => 0
      case Then(front, b) => front.Descents() + if front.End() < b then 0 else 1
    }
  }

  ghost predicate Edge(f: Func, p: nat, b: nat) { p < |f.blocks| && |f.blocks[p]| > 0 && b in f.Term(p).Succs() }

  lemma SuccInRange(f: Func, p: nat, b: nat)
    requires f.WellFormed() && p < |f.blocks| && b in f.Term(p).Succs()
    ensures b < |f.blocks|
  {
    assert f.At(p, |f.blocks[p]| - 1);
  }

  // ----- Definitions -----

  /** What instruction i of block b defines is new to everything that dominates it. */
  ghost predicate FreshSite(f: Func, dom: seq<set<Name>>, b: nat, i: nat)
    requires |dom| == |f.blocks| && f.At(b, i)
  {
    forall d :: d in f.blocks[b][i].Defs() ==> FreshFor(f, d, Dominating(f, dom, b, i))
  }

  ghost predicate FreshSites(f: Func, dom: seq<set<Name>>, defined: set<Name>)
    requires |dom| == |f.blocks|
  {
    forall b: nat, i: nat :: f.At(b, i) && f.blocks[b][i].Defs() * defined != {} ==> FreshSite(f, dom, b, i)
  }

  /** What a value was copied from was defined before it. */
  ghost predicate SourcesIn(f: Func, defined: set<Name>) {
    forall v, s :: v in defined && CopyOf(f, v, s) ==> s in defined
  }

  lemma {:induction false} ChainStartsIn(f: Func, defined: set<Name>, ns: seq<Name>, i: nat)
    requires SourcesIn(f, defined) && CopyChain(f, {}, ns) && i < |ns| && ns[i] in defined
    ensures ns[0] in defined
  {
    if i > 0 {
      assert CopyAt(f, ns, i - 1);
      ChainStartsIn(f, defined, ns, i - 1);
    }
  }

  lemma NewIsFresh(f: Func, defined: set<Name>, names: set<Name>, d: Name)
    requires SourcesIn(f, defined) && names <= defined && d !in defined
    ensures FreshFor(f, d, names)
  {
    forall y | y in names
      ensures !Descends(f, d, y)
    {
      if Descends(f, d, y) {
        var ns :| CopyChain(f, {}, ns) && ns[0] == d && ns[|ns| - 1] == y;
        ChainStartsIn(f, defined, ns, |ns| - 1);
      }
    }
  }

  /** The site of a definition is where its value is copied, if it is a copy. */
  lemma SiteOfCopy(f: Func, b: nat, i: nat, d: Name, s: Name)
    requires f.SingleAssignment() && f.At(b, i) && d in f.blocks[b][i].Defs() && CopyOf(f, d, s)
    ensures f.blocks[b][i] == VarStore(d, s)
  {
    var c: nat, j: nat :| CopySite(f, c, j, d, s);
    assert f.At(c, j) && d in f.blocks[c][j].Defs();
  }

  lemma CopyIsOnly(f: Func, b: nat, i: nat, d: Name, s: Name)
    requires f.SingleAssignment() && f.At(b, i) && f.blocks[b][i] == VarStore(d, s) && f.HasUses(d) && s != d
             && s != NullConst
    ensures OnlyCopy(f, d, s)
  {
    assert CopySite(f, b, i, d, s);
    forall s' | CopyOf(f, d, s') ensures s' == s { SiteOfCopy(f, b, i, d, s'); }
  }

  // ----- Along a path -----

  ghost predicate WalkInv(f: Func, dom: seq<set<Name>>, b: nat, i: nat, defined: set<Name>)
    requires |dom| == |f.blocks| && b < |f.blocks| && i <= |f.blocks[b]|
  {
    Dominating(f, dom, b, i) <= defined && SourcesIn(f, defined) && FreshSites(f, dom, defined)
  }

  lemma SiteIsFresh(f: Func, dom: seq<set<Name>>, b: nat, i: nat, defined: set<Name>)
    requires f.WellFormed() && f.StrictSSA(dom) && f.At(b, i) && WalkInv(f, dom, b, i, defined)
    ensures FreshSite(f, dom, b, i)
  {
    if f.blocks[b][i].Defs() * defined == {} {
      forall d | d in f.blocks[b][i].Defs()
        ensures FreshFor(f, d, Dominating(f, dom, b, i))
      {
        NewIsFresh(f, defined, Dominating(f, dom, b, i), d);
      }
    }
  }

  lemma WalkOn(f: Func, dom: seq<set<Name>>, b: nat, i: nat, defined: set<Name>)
    requires f.WellFormed() && f.StrictSSA(dom) && f.At(b, i) && WalkInv(f, dom, b, i, defined)
    ensures WalkInv(f, dom, b, i + 1, defined + f.blocks[b][i].Defs())
  {
    var more := defined + f.blocks[b][i].Defs();
    SiteIsFresh(f, dom, b, i, defined);
    forall v, s | v in more && CopyOf(f, v, s)
      ensures s in more
    {
      if v in f.blocks[b][i].Defs() {
        SiteOfCopy(f, b, i, v, s);
        assert s in f.blocks[b][i].Uses();
      }
    }
    forall c: nat, j: nat | f.At(c, j) && f.blocks[c][j].Defs() * more != {}
      ensures FreshSite(f, dom, c, j)
    {
      if c != b || j != i { assert f.blocks[c][j].Defs() !! f.blocks[b][i].Defs(); }
    }
  }

  lemma WalkStart(f: Func, dom: seq<set<Name>>)
    requires f.WellFormed() && f.StrictSSA(dom)
    ensures WalkInv(f, dom, 0, 0, f.args)
  {
    forall b: nat, i: nat | f.At(b, i)
      ensures f.blocks[b][i].Defs() * f.args == {}
    {
      assert forall d :: d in f.blocks[b][i].Defs() ==> d !in f.args;
    }
    forall v, s, b: nat, i: nat | v in f.args
      ensures !CopySite(f, b, i, v, s)
    {
      if f.At(b, i) && f.blocks[b][i].VarStore? { assert f.blocks[b][i].dest in f.blocks[b][i].Defs(); }
    }
  }

  /** Some walk along the graph comes to instruction i of block b. */
  ghost predicate Walked(f: Func, dom: seq<set<Name>>, b: nat, i: nat)
    requires |dom| == |f.blocks| && b < |f.blocks| && i <= |f.blocks[b]|
  {
    exists defined :: WalkInv(f, dom, b, i, defined)
  }

  lemma WalkAcross(f: Func, dom: seq<set<Name>>, p: nat, b: nat)
    requires f.WellFormed() && f.StrictSSA(dom) && p < |f.blocks| && b < |f.blocks| && b in f.Term(p).Succs()
    requires Walked(f, dom, p, |f.blocks[p]|)
    ensures Walked(f, dom, b, 0)
  {
    var defined :| WalkInv(f, dom, p, |f.blocks[p]|, defined);
    var j :| 0 <= j < |f.Term(p).Succs()| && f.Term(p).Succs()[j] == b;
    assert dom[f.Term(p).Succs()[j]] <= dom[p] + f.DefsBefore(p, |f.blocks[p]|);
    assert WalkInv(f, dom, b, 0, defined);
  }

  lemma {:induction false} WalkIn(f: Func, dom: seq<set<Name>>, b: nat, i: nat)
    requires f.WellFormed() && f.StrictSSA(dom) && b < |f.blocks| && i <= |f.blocks[b]| && Walked(f, dom, b, 0)
    ensures Walked(f, dom, b, i)
    decreases i
  {
    if i > 0 {
      WalkIn(f, dom, b, i - 1);
      var before :| WalkInv(f, dom, b, i - 1, before);
      assert WalkInv(f, dom, b, i - 1, before);
      WalkOn(f, dom, b, i - 1, before);
    }
  }

  lemma WalkEdge(f: Func, dom: seq<set<Name>>, p: nat, b: nat)
    requires f.WellFormed() && f.StrictSSA(dom) && p < |f.blocks| && b < |f.blocks| && b in f.Term(p).Succs()
             && Walked(f, dom, p, 0)
    ensures Walked(f, dom, b, 0)
  {
    WalkIn(f, dom, p, |f.blocks[p]|);
    WalkAcross(f, dom, p, b);
  }

  lemma {:induction false} Walk(f: Func, dom: seq<set<Name>>, path: Route)
    requires f.WellFormed() && f.StrictSSA(dom) && path.Along(f)
    ensures path.End() < |f.blocks| && Walked(f, dom, path.End(), 0)
    decreases path
  {
    match path
    case Entry => WalkStart(f, dom);
    case Then(front, b) =>
      Walk(f, dom, front);
      SuccInRange(f, front.End(), b);
      WalkEdge(f, dom, front.End(), b);
  }

  ghost predicate Reachable(f: Func, b: nat) { exists path: Route :: path.Along(f) && path.End() == b }

  lemma WalkedIsFresh(f: Func, dom: seq<set<Name>>, b: nat, i: nat)
    requires f.WellFormed() && f.StrictSSA(dom) && f.At(b, i) && Walked(f, dom, b, i)
    ensures FreshSite(f, dom, b, i)
  {
    var defined :| WalkInv(f, dom, b, i, defined);
    SiteIsFresh(f, dom, b, i, defined);
  }

  /** Every definition that can be reached is fresh. */
  lemma ReachedIsFresh(f: Func, dom: seq<set<Name>>, b: nat, i: nat)
    requires f.WellFormed() && f.StrictSSA(dom) && f.At(b, i) && Reachable(f, b)
    ensures FreshSite(f, dom, b, i)
  {
    var path: Route :| path.Along(f) && path.End() == b;
    Walk(f, dom, path);
    WalkIn(f, dom, b, i);
    WalkedIsFresh(f, dom, b, i);
  }
}
