/** In strict SSA form, a value and the value it was copied from stay equal wherever the copy's
    definition dominates: the fact that makes it right to treat copies as aliases at a null test. */
module CopyValues {
  import opened PointerIR
  import opened Execution

  ghost predicate Strict(f: Func, dom: seq<set<Name>>, root: Name -> Name) {
    f.WellFormed() && f.StrictSSA(dom) && CopyRoots(f, root)
  }

  /** No value that is, or is a copy of, what instruction j of block c defines dominates it. */
  ghost predicate FreshSite(f: Func, dom: seq<set<Name>>, root: Name -> Name, c: nat, j: nat)
    requires |dom| == |f.blocks| && f.At(c, j)
  {
    forall d, v :: d in f.blocks[c][j].Defs() && v in Dominating(f, dom, c, j) ==> v != d && root(v) != d
  }

  ghost predicate FreshSites(f: Func, dom: seq<set<Name>>, root: Name -> Name, defined: set<Name>)
    requires |dom| == |f.blocks|
  {
    forall c: nat, j: nat :: f.At(c, j) && f.blocks[c][j].Defs() * defined != {} ==> FreshSite(f, dom, root, c, j)
  }

  ghost predicate Rooted(root: Name -> Name, defined: set<Name>) {
    forall v :: v in defined ==> root(v) in defined + {NullConst}
  }

  ghost predicate Agree(root: Name -> Name, s: State, names: set<Name>) {
    forall v :: v in names ==> Val(s, v) == Val(s, root(v))
  }

  /** `defined` records which definitions a run has executed so far. */
  ghost predicate CopyInv(f: Func, dom: seq<set<Name>>, root: Name -> Name, s: State, defined: set<Name>)
    requires |dom| == |f.blocks|
  {
    s.pc.At? ==>
      && f.At(s.pc.b, s.pc.i)
      && Dominating(f, dom, s.pc.b, s.pc.i) <= defined
      && Rooted(root, defined)
      && FreshSites(f, dom, root, defined)
      && Agree(root, s, Dominating(f, dom, s.pc.b, s.pc.i))
  }

  /** The first time a definition executes nothing defined so far depends on it, and that is a
      property of the place in the program; so it holds every later time as well. */
  lemma DefinitionIsFresh(f: Func, dom: seq<set<Name>>, root: Name -> Name, s: State, defined: set<Name>)
    requires Strict(f, dom, root)
    requires s.pc.At? && CopyInv(f, dom, root, s, defined)
    ensures FreshSite(f, dom, root, s.pc.b, s.pc.i)
  {
    var b, i := s.pc.b, s.pc.i;
    if f.blocks[b][i].Defs() * defined == {} {
      forall d, v | d in f.blocks[b][i].Defs() && v in Dominating(f, dom, b, i)
        ensures v != d && root(v) != d
      {
        assert v in defined && root(v) in defined + {NullConst};
        assert d !in defined;
      }
    }
  }

  ghost function NowDefined(f: Func, s: State, defined: set<Name>): set<Name>
    requires s.pc.At? && f.At(s.pc.b, s.pc.i)
  {
    defined + f.blocks[s.pc.b][s.pc.i].Defs()
  }

  lemma FreshSitesGrow(f: Func, dom: seq<set<Name>>, root: Name -> Name, defined: set<Name>, b: nat, i: nat)
    requires f.WellFormed() && f.StrictSSA(dom)
    requires FreshSites(f, dom, root, defined) && f.At(b, i) && FreshSite(f, dom, root, b, i)
    ensures FreshSites(f, dom, root, defined + f.blocks[b][i].Defs())
  {
    forall c: nat, j: nat | f.At(c, j) && f.blocks[c][j].Defs() * (defined + f.blocks[b][i].Defs()) != {}
      ensures FreshSite(f, dom, root, c, j)
    {
      if (c != b || j != i) {
        assert f.blocks[c][j].Defs() !! f.blocks[b][i].Defs();
        assert f.blocks[c][j].Defs() * defined != {};
      }
    }
  }

  lemma RootedGrows(f: Func, dom: seq<set<Name>>, root: Name -> Name, defined: set<Name>, b: nat, i: nat)
    requires Strict(f, dom, root)
    requires f.At(b, i) && Dominating(f, dom, b, i) <= defined && Rooted(root, defined)
    ensures Rooted(root, defined + f.blocks[b][i].Defs())
  {
    var inst := f.blocks[b][i];
    if inst.VarStore? {
      assert inst.src == NullConst || inst.src in inst.Uses();
    }
  }

  /** Executing a definition keeps every dominating value equal to its root. */
  lemma AgreementKept(f: Func, dom: seq<set<Name>>, root: Name -> Name, s: State, s': State)
    requires Strict(f, dom, root) && Step(f, s, s')
    requires FreshSite(f, dom, root, s.pc.b, s.pc.i) && Agree(root, s, Dominating(f, dom, s.pc.b, s.pc.i))
    requires !f.blocks[s.pc.b][s.pc.i].Terminator()
    ensures Agree(root, s', Dominating(f, dom, s.pc.b, s.pc.i) + f.blocks[s.pc.b][s.pc.i].Defs())
  {
    var b, i := s.pc.b, s.pc.i;
    var inst := f.blocks[b][i];
    if inst.Malloc? || inst.VarStore? {
      var d := inst.dest;
      assert d in inst.Defs() && d.Local?;
      forall v | v in Dominating(f, dom, b, i)
        ensures Val(s', v) == Val(s', root(v))
      {
        assert v != d && root(v) != d;
      }
      if inst.VarStore? {
        assert inst.src == NullConst || inst.src in inst.Uses();
        assert root(inst.src) != d && Val(s, inst.src) == Val(s, root(inst.src));
      }
    }
  }

  lemma DominatingNext(f: Func, dom: seq<set<Name>>, b: nat, i: nat)
    requires |dom| == |f.blocks| && f.At(b, i)
    ensures Dominating(f, dom, b, i + 1) == Dominating(f, dom, b, i) + f.blocks[b][i].Defs()
  {
  }

  lemma StepWithin(f: Func, s: State, s': State)
    requires f.WellFormed() && Step(f, s, s') && !f.blocks[s.pc.b][s.pc.i].Terminator()
    ensures s'.pc == At(s.pc.b, s.pc.i + 1) && f.At(s.pc.b, s.pc.i + 1)
  {
  }

  /** A step that stays within a block. */
  lemma CopyInvWithin(f: Func, dom: seq<set<Name>>, root: Name -> Name, s: State, s': State, defined: set<Name>)
    requires Strict(f, dom, root)
    requires s.pc.At? && CopyInv(f, dom, root, s, defined) && Step(f, s, s')
    requires !f.blocks[s.pc.b][s.pc.i].Terminator()
    ensures CopyInv(f, dom, root, s', NowDefined(f, s, defined))
  {
    var b, i := s.pc.b, s.pc.i;
    StepWithin(f, s, s');
    DefinitionIsFresh(f, dom, root, s, defined);
    FreshSitesGrow(f, dom, root, defined, b, i);
    RootedGrows(f, dom, root, defined, b, i);
    AgreementKept(f, dom, root, s, s');
    DominatingNext(f, dom, b, i);
  }

  /** A step along a control-flow edge. */
  lemma CopyInvAcross(f: Func, dom: seq<set<Name>>, root: Name -> Name, s: State, s': State, defined: set<Name>, j: nat)
    requires Strict(f, dom, root)
    requires s.pc.At? && CopyInv(f, dom, root, s, defined)
    requires f.blocks[s.pc.b][s.pc.i].Terminator() && j < |f.Term(s.pc.b).Succs()|
    requires s' == s.(pc := At(f.Term(s.pc.b).Succs()[j], 0))
    ensures CopyInv(f, dom, root, s', defined)
  {
    var b, i := s.pc.b, s.pc.i;
    assert f.At(b, i) && i == |f.blocks[b]| - 1;
    assert f.DefsBefore(b, i + 1) == f.DefsBefore(b, i) + f.blocks[b][i].Defs();
    assert dom[f.Term(b).Succs()[j]] <= dom[b] + f.DefsBefore(b, |f.blocks[b]|);
    assert f.At(s'.pc.b, 0);
  }

  /** At a null branch, every alias whose definition dominates holds the value of the tested pointer. */
  lemma AliasesAgree(f: Func, dom: seq<set<Name>>, root: Name -> Name, s: State, defined: set<Name>, names: set<Name>)
    requires Strict(f, dom, root)
    requires s.pc.At? && CopyInv(f, dom, root, s, defined) && f.blocks[s.pc.b][s.pc.i].NullBranch?
    requires names <= Dominating(f, dom, s.pc.b, s.pc.i) + {NullConst}
    ensures forall n :: n in names && root(n) == root(f.blocks[s.pc.b][s.pc.i].ptr) ==>
              Val(s, n) == Val(s, f.blocks[s.pc.b][s.pc.i].ptr)
  {
    var p := f.blocks[s.pc.b][s.pc.i].ptr;
    assert p == NullConst || p in Dominating(f, dom, s.pc.b, s.pc.i);
    assert forall x :: x == NullConst || x in Dominating(f, dom, s.pc.b, s.pc.i) ==> Val(s, x) == Val(s, root(x));
  }
}
