/** What liveness means inside a block: the generator's running set of live values agrees with
    the backward scan, contains every operand, and loses a value only where the generator says so. */
module LiveFacts {
  import opened DataFlow
  import opened PointerIR
  import opened OwnershipClauses

  lemma FlowIsValid(f: Func)
    requires f.WellFormed()
    ensures f.Flow().Valid()
  {
    forall b, j | 0 <= b < |f.blocks| && 0 <= j < |f.Term(b).Succs()|
      ensures f.Term(b).Succs()[j] < |f.blocks|
    {
      assert f.At(b, |f.blocks[b]| - 1);
    }
  }

  ghost predicate Analysed(f: Func, a: Analysis, dom: seq<set<Name>>) {
    && f.WellFormed() && f.StrictSSA(dom) && a.Sized(f) && LeastSolution(f.Flow(), a.liveStart)
  }

  /** No definition is dead: a malloc result, and a stored value that has uses, is live right
      after its definition. */
  ghost predicate NoDeadDefs(f: Func, a: Analysis)
    requires a.Sized(f)
  {
    forall b: nat, i: nat :: f.At(b, i) ==> LiveOnceDefined(f, a, b, i)
  }

  ghost predicate LiveOnceDefined(f: Func, a: Analysis, b: nat, i: nat)
    requires a.Sized(f) && f.At(b, i)
  {
    forall d :: d in f.blocks[b][i].Defs() && (f.blocks[b][i].Malloc? || f.HasUses(d)) ==> d in Scan(f, a, b, i + 1)
  }

  /** Whatever has uses is live right after its definition.  A malloc result may have none. */
  ghost predicate UsedAreLive(f: Func, a: Analysis)
    requires a.Sized(f)
  {
    forall b: nat, i: nat :: f.At(b, i) ==> UsedOnceDefined(f, a, b, i)
  }

  ghost predicate UsedOnceDefined(f: Func, a: Analysis, b: nat, i: nat)
    requires a.Sized(f) && f.At(b, i)
  {
    forall d :: d in f.blocks[b][i].Defs() && f.HasUses(d) ==> d in Scan(f, a, b, i + 1)
  }

  lemma GenIsDominated(f: Func, dom: seq<set<Name>>, b: nat, i: nat)
    requires f.WellFormed() && f.StrictSSA(dom) && b < |f.blocks| && i <= |f.blocks[b]|
    ensures f.GenBefore(b, i) <= dom[b]
  {
    if i > 0 {
      GenIsDominated(f, dom, b, i - 1);
      assert f.At(b, i - 1);
    }
  }

  /** A live value is defined on every path, so its definition dominates the point. */
  lemma LiveIsDominated(f: Func, a: Analysis, dom: seq<set<Name>>)
    requires Analysed(f, a, dom)
    ensures Below(a.liveStart, dom)
  {
    var fl := f.Flow();
    forall b | 0 <= b < |dom|
      ensures In(fl, dom, b) <= dom[b]
    {
      GenIsDominated(f, dom, b, |f.blocks[b]|);
      forall v | v in Out(fl, dom, b) && v !in fl.kill[b]
        ensures v in dom[b]
      {
        var j :| 0 <= j < |fl.succ[b]| && v in dom[fl.succ[b][j]];
        assert dom[f.Term(b).Succs()[j]] <= dom[b] + f.DefsBefore(b, |f.blocks[b]|);
      }
    }
    assert Closed(fl, dom);
  }

  function UsedNames(f: Func): set<Name> {
    f.args + set b, i, n | 0 <= b < |f.blocks| && 0 <= i < |f.blocks[b]| && n in f.blocks[b][i].Uses() :: n
  }

  /** Every SSA operand is an argument or the result of some instruction. */
  ghost predicate OperandsDefined(f: Func) {
    forall n :: n in UsedNames(f) ==>
      n in f.args || exists b, i :: f.At(b, i) && n in f.blocks[b][i].Defs()
  }

  lemma GenIsUsed(f: Func, b: nat, i: nat)
    requires b < |f.blocks| && i <= |f.blocks[b]|
    ensures f.GenBefore(b, i) <= UsedNames(f)
  {
    if i > 0 {
      GenIsUsed(f, b, i - 1);
      assert f.blocks[b][i - 1].Uses() <= UsedNames(f);
    }
  }

  /** Only arguments and values with uses are ever live. */
  lemma LiveIsUsed(f: Func, a: Analysis, dom: seq<set<Name>>)
    requires Analysed(f, a, dom)
    ensures forall b :: 0 <= b < |f.blocks| ==> a.liveStart[b] <= UsedNames(f)
  {
    var used := seq(|f.blocks|, _ => UsedNames(f));
    forall b | 0 <= b < |used|
      ensures In(f.Flow(), used, b) <= used[b]
    {
      GenIsUsed(f, b, |f.blocks[b]|);
    }
    assert Closed(f.Flow(), used);
  }

  lemma UsedIsLocal(f: Func, n: Name)
    requires f.WellFormed() && n in UsedNames(f)
    ensures n.Local? && (n in f.args || f.HasUses(n))
  {
    if n !in f.args {
      var b, i :| 0 <= b < |f.blocks| && 0 <= i < |f.blocks[b]| && n in f.blocks[b][i].Uses();
      assert f.At(b, i);
      assert n in f.blocks[b][i].Operands();
    }
  }

  lemma ScanIsUsed(f: Func, a: Analysis, dom: seq<set<Name>>, b: nat, i: nat)
    requires Analysed(f, a, dom) && b < |f.blocks| && i <= |f.blocks[b]|
    ensures Scan(f, a, b, i) <= UsedNames(f)
    decreases |f.blocks[b]| - i
  {
    if i == |f.blocks[b]| {
      LiveIsUsed(f, a, dom);
    } else {
      ScanIsUsed(f, a, dom, b, i + 1);
      assert f.blocks[b][i].Uses() <= UsedNames(f);
    }
  }

  /** The backward scan through the first i instructions amounts to their gen and kill sets. */
  lemma ScanIsGenKill(f: Func, a: Analysis, b: nat, i: nat, v: Name)
    requires a.Sized(f) && b < |f.blocks| && i <= |f.blocks[b]| && v !in f.args
    ensures v in Scan(f, a, b, 0) <==>
            v in f.GenBefore(b, i) || (v in Scan(f, a, b, i) && v !in f.DefsBefore(b, i))
  {
    if i > 0 {
      ScanIsGenKill(f, a, b, i - 1, v);
    }
  }

  lemma ScanAtStart(f: Func, a: Analysis, dom: seq<set<Name>>, b: nat, v: Name)
    requires Analysed(f, a, dom) && b < |f.blocks| && v !in f.args
    ensures v in Scan(f, a, b, 0) <==> v in a.liveStart[b]
  {
    ScanIsGenKill(f, a, b, |f.blocks[b]|, v);
    assert a.liveStart[b] == In(f.Flow(), a.liveStart, b);
  }

  /** Apart from arguments, the running set is exactly what the backward scan finds live. */
  lemma CurLiveIsScan(f: Func, a: Analysis, dom: seq<set<Name>>, b: nat, i: nat, v: Name)
    requires Analysed(f, a, dom) && UsedAreLive(f, a)
    requires b < |f.blocks| && i <= |f.blocks[b]| && v !in f.args
    ensures v in CurLive(f, a, b, i) <==> v in Scan(f, a, b, i)
  {
    if i == 0 {
      ScanAtStart(f, a, dom, b, v);
    } else {
      CurLiveIsScan(f, a, dom, b, i - 1, v);
      assert f.At(b, i - 1) && UsedOnceDefined(f, a, b, i - 1);
      ScanIsUsed(f, a, dom, b, i);
      ScanIsUsed(f, a, dom, b, i - 1);
      if v in UsedNames(f) { UsedIsLocal(f, v); }
    }
  }

  lemma ArgStaysLive(f: Func, a: Analysis, b: nat, i: nat, v: Name)
    requires a.Sized(f) && b < |f.blocks| && i <= |f.blocks[b]|
    requires v in f.args && v in a.liveStart[b]
    ensures v in CurLive(f, a, b, i)
  {
  }

  lemma GenBeforeGrows(f: Func, b: nat, i: nat, j: nat)
    requires b < |f.blocks| && i <= j <= |f.blocks[b]|
    ensures f.GenBefore(b, i) <= f.GenBefore(b, j)
    ensures f.DefsBefore(b, i) <= f.DefsBefore(b, j)
  {
  }

  lemma ArgsNotDefined(f: Func, b: nat, i: nat)
    requires f.WellFormed() && b < |f.blocks| && i <= |f.blocks[b]|
    ensures f.DefsBefore(b, i) !! f.args
  {
    if i > 0 {
      ArgsNotDefined(f, b, i - 1);
      assert f.At(b, i - 1);
    }
  }

  // ----- Values that are tracked -----

  /** The values in the running set that are arguments or really live.  What is not has been defined
      in the block and is dead. */
  function Tracked(f: Func, a: Analysis, b: nat, i: nat): set<Name>
    requires a.Sized(f) && b < |f.blocks| && i <= |f.blocks[b]|
  {
    set v | v in CurLive(f, a, b, i) && (v in f.args || v in Scan(f, a, b, i))
  }

  lemma StaysInSet(f: Func, a: Analysis, b: nat, i: nat, v: Name)
    requires a.Sized(f) && f.At(b, i) && v !in f.args && v in CurLive(f, a, b, i) && v in Scan(f, a, b, i + 1)
    requires v !in f.blocks[b][i].Defs()
    ensures v in CurLive(f, a, b, i + 1)
  {
  }

  lemma LiveBefore(f: Func, a: Analysis, b: nat, i: nat, v: Name)
    requires a.Sized(f) && f.At(b, i) && v in Scan(f, a, b, i + 1) && v !in f.blocks[b][i].Defs()
    ensures v in Scan(f, a, b, i)
  {
  }

  lemma DefinedInSet(f: Func, a: Analysis, dom: seq<set<Name>>, b: nat, i: nat, v: Name)
    requires Analysed(f, a, dom) && f.At(b, i) && v !in f.args && v in Scan(f, a, b, i + 1)
    requires v in f.blocks[b][i].Defs()
    ensures v in CurLive(f, a, b, i + 1)
  {
    ScanIsUsed(f, a, dom, b, i + 1);
    UsedIsLocal(f, v);
  }

  /** Whatever is live is in the running set. */
  lemma {:induction false} ScanInSet(f: Func, a: Analysis, dom: seq<set<Name>>, b: nat, i: nat, v: Name)
    requires Analysed(f, a, dom) && b < |f.blocks| && i <= |f.blocks[b]| && v !in f.args
    requires v in Scan(f, a, b, i)
    ensures v in CurLive(f, a, b, i)
    decreases i
  {
    if i == 0 {
      ScanAtStart(f, a, dom, b, v);
    } else {
      var k := i - 1;
      assert f.At(b, k);
      if v in f.blocks[b][k].Defs() {
        DefinedInSet(f, a, dom, b, k, v);
      } else {
        LiveBefore(f, a, b, k, v);
        ScanInSet(f, a, dom, b, k, v);
        StaysInSet(f, a, b, k, v);
      }
    }
  }

  lemma ScanIsTracked(f: Func, a: Analysis, dom: seq<set<Name>>, b: nat, i: nat, v: Name)
    requires Analysed(f, a, dom) && b < |f.blocks| && i <= |f.blocks[b]| && v !in f.args
    requires v in Scan(f, a, b, i)
    ensures v in Tracked(f, a, b, i)
  {
    ScanInSet(f, a, dom, b, i, v);
  }

  lemma TrackedAtStart(f: Func, a: Analysis, dom: seq<set<Name>>, b: nat)
    requires Analysed(f, a, dom) && b < |f.blocks|
    ensures Tracked(f, a, b, 0) == a.liveStart[b]
  {
    forall v | v in a.liveStart[b] && v !in f.args ensures v in Scan(f, a, b, 0) { ScanAtStart(f, a, dom, b, v); }
  }

  /** Every operand is tracked when its instruction is processed. */
  lemma OperandsAreTracked(f: Func, a: Analysis, dom: seq<set<Name>>, b: nat, i: nat)
    requires Analysed(f, a, dom) && f.At(b, i)
    ensures f.blocks[b][i].Uses() <= Tracked(f, a, b, i) <= CurLive(f, a, b, i)
    ensures f.blocks[b][i].Return? || f.blocks[b][i].ReturnVoid? ==> f.args <= Tracked(f, a, b, i)
  {
    var inst := f.blocks[b][i];
    var gen := inst.Uses() * f.args + if inst.Return? || inst.ReturnVoid? then f.args else {};
    forall v | v in gen
      ensures v in CurLive(f, a, b, i)
    {
      ArgsNotDefined(f, b, i);
      GenBeforeGrows(f, b, i + 1, |f.blocks[b]|);
      assert v in f.GenBefore(b, i + 1);
      assert v in In(f.Flow(), a.liveStart, b);
      ArgStaysLive(f, a, b, i, v);
    }
    forall v | v in inst.Uses() && v !in f.args
      ensures v in Tracked(f, a, b, i)
    {
      ScanIsTracked(f, a, dom, b, i, v);
    }
  }

  /** Across an instruction only last uses and dead definitions stop being tracked. */
  lemma TrackedNext(f: Func, a: Analysis, dom: seq<set<Name>>, b: nat, i: nat)
    requires Analysed(f, a, dom) && f.At(b, i)
    ensures var before, defs := Tracked(f, a, b, i), f.blocks[b][i].Defs();
            var live := before + (set d | d in defs && d in Scan(f, a, b, i + 1));
            Tracked(f, a, b, i + 1) <= live <= Tracked(f, a, b, i + 1) + LastUse(f, a, b, i) + f.args + defs * before
  {
    var inst := f.blocks[b][i];
    ScanIsUsed(f, a, dom, b, i + 1);
    forall d | d in inst.Defs() && d in Scan(f, a, b, i + 1)
      ensures d in Tracked(f, a, b, i + 1)
    {
      UsedIsLocal(f, d);
      assert d !in f.args;
      ScanIsTracked(f, a, dom, b, i + 1, d);
    }
    forall v | v in Tracked(f, a, b, i + 1) && v !in f.args && v !in inst.Defs()
      ensures v in Tracked(f, a, b, i)
    {
      assert v in Scan(f, a, b, i);
      ScanIsTracked(f, a, dom, b, i, v);
    }
  }

  /** Everything live at a successor is tracked at the end of the block; anything else there, other
      than an argument, is reported dead at the start of that successor. */
  lemma TrackedAcrossEdge(f: Func, a: Analysis, dom: seq<set<Name>>, b: nat, j: nat)
    requires Analysed(f, a, dom) && b < |f.blocks| && j < |f.Term(b).Succs()|
    ensures f.Term(b).Succs()[j] < |f.blocks|
    ensures a.liveStart[f.Term(b).Succs()[j]] <= Tracked(f, a, b, |f.blocks[b]|)
    ensures Tracked(f, a, b, |f.blocks[b]|)
              <= a.liveStart[f.Term(b).Succs()[j]] + f.args + DeadAtStart(f, a, f.Term(b).Succs()[j])
  {
    assert f.At(b, |f.blocks[b]| - 1);
    var c := f.Term(b).Succs()[j];
    assert f.Flow().succ[b][j] == c;
    forall v | v in a.liveStart[c]
      ensures v in Tracked(f, a, b, |f.blocks[b]|)
    {
      if v in f.args {
        ArgsNotDefined(f, b, |f.blocks[b]|);
        assert v in In(f.Flow(), a.liveStart, b);
        ArgStaysLive(f, a, b, |f.blocks[b]|, v);
      } else {
        assert v in LiveOut(f, a, b);
        ScanIsTracked(f, a, dom, b, |f.blocks[b]|, v);
      }
    }
  }

  /** After a return only arguments are left. */
  lemma NothingTrackedAtEnd(f: Func, a: Analysis, b: nat)
    requires a.Sized(f) && b < |f.blocks| && |f.Term(b).Succs()| == 0
    ensures Tracked(f, a, b, |f.blocks[b]|) <= f.args
  {
  }

  /** Every operand is in the running set when its instruction is processed. */
  lemma OperandsAreLive(f: Func, a: Analysis, dom: seq<set<Name>>, b: nat, i: nat)
    requires Analysed(f, a, dom) && f.At(b, i)
    ensures f.blocks[b][i].Uses() <= CurLive(f, a, b, i)
    ensures f.blocks[b][i].Return? || f.blocks[b][i].ReturnVoid? ==> f.args <= CurLive(f, a, b, i)
  {
    OperandsAreTracked(f, a, dom, b, i);
  }

  /** Where all definitions that are used are live, the running set itself crosses edges like this. */
  lemma LiveAcrossEdge(f: Func, a: Analysis, dom: seq<set<Name>>, b: nat, j: nat)
    requires Analysed(f, a, dom) && UsedAreLive(f, a)
    requires b < |f.blocks| && j < |f.Term(b).Succs()|
    ensures f.Term(b).Succs()[j] < |f.blocks|
    ensures a.liveStart[f.Term(b).Succs()[j]] <= CurLive(f, a, b, |f.blocks[b]|)
    ensures CurLive(f, a, b, |f.blocks[b]|)
              <= a.liveStart[f.Term(b).Succs()[j]] + f.args + DeadAtStart(f, a, f.Term(b).Succs()[j])
  {
    TrackedAcrossEdge(f, a, dom, b, j);
    forall v | v in CurLive(f, a, b, |f.blocks[b]|) && v !in f.args
      ensures v in Tracked(f, a, b, |f.blocks[b]|)
    {
      CurLiveIsScan(f, a, dom, b, |f.blocks[b]|, v);
    }
  }

  lemma CurLiveIsDominated(f: Func, a: Analysis, dom: seq<set<Name>>, b: nat, i: nat)
    requires Analysed(f, a, dom) && b < |f.blocks| && i <= |f.blocks[b]|
    ensures CurLive(f, a, b, i) <= dom[b] + f.DefsBefore(b, i)
  {
    if i == 0 {
      LiveIsDominated(f, a, dom);
    } else {
      CurLiveIsDominated(f, a, dom, b, i - 1);
    }
  }

  lemma CurLiveIsLocal(f: Func, a: Analysis, dom: seq<set<Name>>, b: nat, i: nat)
    requires Analysed(f, a, dom) && b < |f.blocks| && i <= |f.blocks[b]|
    ensures forall n :: n in CurLive(f, a, b, i) ==> n.Local?
  {
    if i == 0 {
      LiveIsUsed(f, a, dom);
      forall n | n in CurLive(f, a, b, i) ensures n.Local? { UsedIsLocal(f, n); }
    } else {
      CurLiveIsLocal(f, a, dom, b, i - 1);
      assert f.At(b, i - 1);
    }
  }
}
