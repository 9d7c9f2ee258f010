/** Live pointer values of a function: numbering them, the gen and kill sets of each block, the
    solution as sets of values, and the last uses inside each block. */
module Liveness {
  import opened BitVector
  import opened DataFlow
  import opened LiveWorklist
  import opened PointerIR
  import opened OwnershipClauses
  import opened LiveFacts

  type Numbers = map<Name, nat>

  ghost predicate Injective(num: Numbers, n: nat) {
    && (forall v :: v in num ==> num[v] < n)
    && (forall v, w :: v in num && w in num && num[v] == num[w] ==> v == w)
  }

  ghost function Nums(num: Numbers, vs: set<Name>): set<nat> { set v | v in vs && v in num :: num[v] }

  ghost function NamesOf(num: Numbers, bits: set<nat>): set<Name> { set v | v in num && num[v] in bits }

  // ----- Renaming does not change the solution -----

  ghost predicate Renames(num: Numbers, n: nat, fl: Flow<Name>, fn: Flow<nat>) {
    && Injective(num, n) && fl.Valid() && fn.Valid() && fn.succ == fl.succ
    && (forall b :: 0 <= b < |fl.succ| ==> fl.gen[b] <= num.Keys && fn.gen[b] == Nums(num, fl.gen[b]))
    && (forall b :: 0 <= b < |fl.succ| ==> fn.kill[b] == Nums(num, fl.kill[b]))
  }

  ghost function Named(num: Numbers, live: seq<set<nat>>): (names: seq<set<Name>>)
    ensures |names| == |live| && forall b :: 0 <= b < |live| ==> names[b] == NamesOf(num, live[b])
  {
    seq(|live|, b requires 0 <= b < |live| => NamesOf(num, live[b]))
  }

  lemma OutRenamed(num: Numbers, n: nat, fl: Flow<Name>, fn: Flow<nat>, live: seq<set<nat>>, b: nat)
    requires Renames(num, n, fl, fn) && |live| == |fl.succ| && b < |live|
    ensures Out(fl, Named(num, live), b) == NamesOf(num, Out(fn, live, b))
    ensures In(fl, Named(num, live), b) == NamesOf(num, In(fn, live, b))
  {
    var names := Named(num, live);
    forall v
      ensures v in Out(fl, names, b) <==> v in NamesOf(num, Out(fn, live, b))
    {
      if v in Out(fl, names, b) {
        var j :| 0 <= j < |fl.succ[b]| && v in names[fl.succ[b][j]];
        assert num[v] in live[fn.succ[b][j]];
      }
      if v in NamesOf(num, Out(fn, live, b)) {
        var j :| 0 <= j < |fn.succ[b]| && num[v] in live[fn.succ[b][j]];
        assert v in names[fl.succ[b][j]];
      }
    }
  }

  lemma LeastRenamed(num: Numbers, n: nat, fl: Flow<Name>, fn: Flow<nat>, live: seq<set<nat>>)
    requires Renames(num, n, fl, fn) && LeastSolution(fn, live)
    ensures LeastSolution(fl, Named(num, live))
  {
    var names := Named(num, live);
    forall b | 0 <= b < |names|
      ensures names[b] == In(fl, names, b)
    {
      OutRenamed(num, n, fl, fn, live, b);
      assert live[b] == In(fn, live, b);
    }
    forall other | Closed(fl, other)
      ensures Below(names, other)
    {
      var nums := seq(|other|, b requires 0 <= b < |other| => Nums(num, other[b]));
      forall b | 0 <= b < |nums|
        ensures In(fn, nums, b) <= nums[b]
      {
        assert In(fl, other, b) <= other[b];
      }
      assert Closed(fn, nums);
    }
  }

  // ----- Numbering the pointer values -----

  ghost predicate Numbered(names: seq<Name>, num: Numbers) {
    && (forall i :: 0 <= i < |names| ==> names[i] in num && num[names[i]] == i)
    && (forall v :: v in num ==> num[v] < |names| && names[num[v]] == v)
  }

  lemma NumberedIsInjective(names: seq<Name>, num: Numbers)
    requires Numbered(names, num)
    ensures Injective(num, |names|)
  {
  }

  lemma NumberNext(names: seq<Name>, num: Numbers, v: Name)
    requires Numbered(names, num) && v !in num
    ensures Numbered(names + [v], num[v := |names|])
  {
  }

  ghost function DefsUpTo(f: Func, b: nat): set<Name>
    requires b <= |f.blocks|
  {
    if b == 0 then {} else DefsUpTo(f, b - 1) + f.DefsBefore(b - 1, |f.blocks[b - 1]|)
  }

  lemma {:induction false} DefinedBefore(f: Func, b: nat, i: nat, v: Name)
    requires b < |f.blocks| && i <= |f.blocks[b]|
    ensures v in f.DefsBefore(b, i) <==> exists j :: 0 <= j < i && v in f.blocks[b][j].Defs()
  {
    if i > 0 { DefinedBefore(f, b, i - 1, v); }
  }

  lemma {:induction false} DefinedUpTo(f: Func, b: nat, v: Name)
    requires b <= |f.blocks|
    ensures v in DefsUpTo(f, b) <==> exists c, j :: 0 <= c < b && f.At(c, j) && v in f.blocks[c][j].Defs()
  {
    if b > 0 {
      DefinedUpTo(f, b - 1, v);
      DefinedBefore(f, b - 1, |f.blocks[b - 1]|, v);
      if v in f.DefsBefore(b - 1, |f.blocks[b - 1]|) {
        var j :| 0 <= j < |f.blocks[b - 1]| && v in f.blocks[b - 1][j].Defs();
        assert f.At(b - 1, j);
      }
    }
  }

  /** In SSA form a definition is of a value not met before. */
  lemma DefIsNew(f: Func, b: nat, i: nat)
    requires f.WellFormed() && f.SingleAssignment() && f.At(b, i)
    ensures f.blocks[b][i].Defs() !! f.args + DefsUpTo(f, b) + f.DefsBefore(b, i)
  {
    forall v | v in f.blocks[b][i].Defs()
      ensures v !in f.args + DefsUpTo(f, b) + f.DefsBefore(b, i)
    {
      DefinedUpTo(f, b, v);
      DefinedBefore(f, b, i, v);
      if v in f.DefsBefore(b, i) {
        var j :| 0 <= j < i && v in f.blocks[b][j].Defs();
        assert f.At(b, j);
      }
    }
  }

  method NumberAll(vs: set<Name>, names0: seq<Name>, num0: Numbers) returns (names: seq<Name>, num: Numbers)
    requires Numbered(names0, num0) && vs !! num0.Keys
    ensures Numbered(names, num) && num.Keys == num0.Keys + vs
  {
    names, num := names0, num0;
    var rest := vs;
    while rest != {}
      invariant Numbered(names, num) && rest <= vs && rest !! num.Keys && num.Keys + rest == num0.Keys + vs
    {
      var v :| v in rest;
      NumberNext(names, num, v);
      names, num, rest := names + [v], num[v := |names|], rest - {v};
    }
  }

  /** Arguments first, then results block by block. */
  method NumberValues(f: Func) returns (names: seq<Name>, num: Numbers)
    requires f.WellFormed() && f.SingleAssignment()
    ensures Numbered(names, num) && num.Keys == f.args + DefsUpTo(f, |f.blocks|)
  {
    names, num := NumberAll(f.args, [], map[]);
    for b := 0 to |f.blocks|
      invariant Numbered(names, num) && num.Keys == f.args + DefsUpTo(f, b)
    {
      for i := 0 to |f.blocks[b]|
        invariant Numbered(names, num) && num.Keys == f.args + DefsUpTo(f, b) + f.DefsBefore(b, i)
      {
        assert f.At(b, i);
        DefIsNew(f, b, i);
        names, num := NumberAll(f.blocks[b][i].Defs(), names, num);
      }
    }
  }

  // ----- gen and kill -----

  lemma NumsUnion(num: Numbers, n: nat, vs: set<Name>, ws: set<Name>)
    requires Injective(num, n)
    ensures Nums(num, vs + ws) == Nums(num, vs) + Nums(num, ws)
    ensures Nums(num, vs - ws) == Nums(num, vs) - Nums(num, ws)
  {
  }

  /** Sets the bits of vs; values without a number are skipped. */
  method WriteAll(bits: BitVector, num: Numbers, vs: set<Name>, val: bool)
    requires bits.Valid() && Injective(num, bits.bitCount)
    modifies bits.data
    ensures bits.Valid()
    ensures bits.Bits() == if val then old(bits.Bits()) + Nums(num, vs) else old(bits.Bits()) - Nums(num, vs)
  {
    var rest, done: set<Name> := vs, {};
    while rest != {}
      invariant bits.Valid() && done + rest == vs
      invariant bits.Bits() == if val then old(bits.Bits()) + Nums(num, done) else old(bits.Bits()) - Nums(num, done)
    {
      var v :| v in rest;
      NumsUnion(num, bits.bitCount, done, {v});
      if v in num { bits.Write(num[v], val); }
      rest, done := rest - {v}, done + {v};
    }
    assert done == vs;
  }

  /** Adds to gen the operands that are not defined earlier in the block. */
  method AddUses(gen: BitVector, defined: BitVector, num: Numbers, uses: set<Name>)
    requires gen.Valid() && defined.Valid() && gen.data != defined.data && gen.bitCount == defined.bitCount
    requires Injective(num, gen.bitCount)
    modifies gen.data
    ensures gen.Valid() && gen.Bits() == old(gen.Bits()) + (Nums(num, uses) - defined.Bits())
  {
    var rest, done: set<Name> := uses, {};
    while rest != {}
      invariant gen.Valid() && done + rest == uses && defined.Valid() && defined.Bits() == old(defined.Bits())
      invariant gen.Bits() == old(gen.Bits()) + (Nums(num, done) - defined.Bits())
    {
      var v :| v in rest;
      NumsUnion(num, gen.bitCount, done, {v});
      assert Nums(num, {v}) == if v in num then {num[v]} else {};
      if v in num {
        var isDefined := defined.Read(num[v]);
        if !isDefined { gen.Write(num[v], true); }
      }
      rest, done := rest - {v}, done + {v};
    }
    assert done == uses;
  }

  /** What block b uses before defining it, and what it defines. */
  method BlockGenKill(f: Func, num: Numbers, n: nat, b: nat) returns (gen: BitVector, kill: BitVector)
    requires b < |f.blocks| && Injective(num, n)
    ensures fresh(gen) && fresh(gen.data) && fresh(kill) && fresh(kill.data)
    ensures gen.Valid() && gen.bitCount == n && gen.Bits() == Nums(num, f.GenBefore(b, |f.blocks[b]|))
    ensures kill.Valid() && kill.bitCount == n && kill.Bits() == Nums(num, f.DefsBefore(b, |f.blocks[b]|))
  {
    gen := new BitVector(n);
    kill := new BitVector(n);
    var defined := new BitVector(n);
    for i := 0 to |f.blocks[b]|
      invariant fresh({gen, kill, defined, gen.data, kill.data, defined.data})
      invariant HoldsGenKill(gen, defined, kill, n, Nums(num, f.GenBefore(b, i)), Nums(num, f.DefsBefore(b, i)))
    {
      var inst := f.blocks[b][i];
      var kept := if inst.Return? || inst.ReturnVoid? then f.args else {};
      GenNext(f, num, n, b, i, kept);
      NumsUnion(num, n, f.DefsBefore(b, i), inst.Defs());
      AddInstruction(inst, f.args, num, n, gen, defined, kill, Nums(num, f.GenBefore(b, i)),
        Nums(num, f.DefsBefore(b, i)));
    }
  }

  /** gen holds the set g; defined and kill, kept separately, both hold the set k. */
  ghost predicate HoldsGenKill(gen: BitVector, defined: BitVector, kill: BitVector, n: nat, g: set<nat>, k: set<nat>)
    reads gen, defined, kill, gen.data, defined.data, kill.data
  {
    && gen.data != kill.data && gen.data != defined.data && kill.data != defined.data
    && gen.Valid() && gen.bitCount == n && gen.Bits() == g
    && defined.Valid() && defined.bitCount == n && defined.Bits() == k
    && kill.Valid() && kill.bitCount == n && kill.Bits() == k
  }

  method AddInstruction(inst: Instr, args: set<Name>, num: Numbers, n: nat,
                        gen: BitVector, defined: BitVector, kill: BitVector, ghost g: set<nat>, ghost k: set<nat>)
    requires HoldsGenKill(gen, defined, kill, n, g, k) && Injective(num, n)
    modifies gen.data, defined.data, kill.data
    ensures HoldsGenKill(gen, defined, kill, n,
              g + (Nums(num, inst.Uses()) - k) + Nums(num, if inst.Return? || inst.ReturnVoid? then args else {}),
              k + Nums(num, inst.Defs()))
  {
    AddUses(gen, defined, num, inst.Uses());
    if inst.Return? || inst.ReturnVoid? { WriteAll(gen, num, args, true); }
    WriteAll(defined, num, inst.Defs(), true);
    WriteAll(kill, num, inst.Defs(), true);
  }

  lemma GenNext(f: Func, num: Numbers, n: nat, b: nat, i: nat, kept: set<Name>)
    requires b < |f.blocks| && i < |f.blocks[b]| && Injective(num, n)
    requires kept == if f.blocks[b][i].Return? || f.blocks[b][i].ReturnVoid? then f.args else {}
    ensures Nums(num, f.GenBefore(b, i + 1)) ==
            Nums(num, f.GenBefore(b, i)) + (Nums(num, f.blocks[b][i].Uses()) - Nums(num, f.DefsBefore(b, i)))
              + Nums(num, kept)
  {
    var uses, defs := f.blocks[b][i].Uses(), f.DefsBefore(b, i);
    NumsUnion(num, n, uses, defs);
    NumsUnion(num, n, f.GenBefore(b, i), uses - defs);
    NumsUnion(num, n, f.GenBefore(b, i) + (uses - defs), kept);
  }

  // ----- Last uses -----

  /** The backward scan of one block from the values live at its end. */
  method LastUses(f: Func, num: Numbers, liveAtEnd: BitVector, b: nat, ghost a: Analysis)
    returns (lastUse: seq<set<Name>>)
    requires a.Sized(f) && b < |f.blocks| && liveAtEnd.Valid() && Injective(num, liveAtEnd.bitCount)
    requires liveAtEnd.Bits() == Nums(num, LiveOut(f, a, b)) && forall i ::
             f.At(b, i) ==> f.blocks[b][i].Uses() <= num.Keys
    ensures |lastUse| == |f.blocks[b]| && forall i :: 0 <= i < |lastUse| ==> lastUse[i] == LastUse(f, a, b, i)
  {
    lastUse := [];
    var currentlyLive := new BitVector.Copy(liveAtEnd);
    var i := |f.blocks[b]|;
    while i > 0
      invariant fresh(currentlyLive) && fresh(currentlyLive.data) && currentlyLive.Valid()
      invariant 0 <= i <= |f.blocks[b]| && currentlyLive.bitCount == liveAtEnd.bitCount
      invariant currentlyLive.Bits() == Nums(num, Scan(f, a, b, i))
      invariant |lastUse| == |f.blocks[b]| - i && forall k ::
                0 <= k < |lastUse| ==> lastUse[k] == LastUse(f, a, b, i + k)
    {
      i := i - 1;
      assert f.At(b, i);
      var lastUses := ScanInstruction(f.blocks[b][i], f.args, num, currentlyLive, Scan(f, a, b, i + 1));
      lastUse := [lastUses] + lastUse;
    }
  }

  /** One step of the scan: what an instruction defines stops being live, what it uses starts. */
  method ScanInstruction(inst: Instr, args: set<Name>, num: Numbers, bits: BitVector, ghost live: set<Name>)
    returns (lastUses: set<Name>)
    requires bits.Valid() && Injective(num, bits.bitCount) && bits.Bits() == Nums(num, live) && inst.Uses() <= num.Keys
    modifies bits.data
    ensures bits.Valid() && bits.Bits() == Nums(num, live - inst.Defs() + inst.Uses())
    ensures lastUses == inst.Uses() - (live - inst.Defs()) - args
  {
    WriteAll(bits, num, inst.Defs(), false);
    NumsUnion(num, bits.bitCount, live, inst.Defs());
    lastUses := UsesNotLive(bits, num, inst.Uses(), args, live - inst.Defs());
    NumsUnion(num, bits.bitCount, live - inst.Defs(), inst.Uses());
  }

  /** Collects the operands that are not live afterwards, and makes the operands live. */
  method UsesNotLive(bits: BitVector, num: Numbers, uses: set<Name>, args: set<Name>, ghost after: set<Name>)
    returns (lastUses: set<Name>)
    requires bits.Valid() && Injective(num, bits.bitCount) && bits.Bits() == Nums(num, after) && uses <= num.Keys
    modifies bits.data
    ensures bits.Valid() && bits.Bits() == old(bits.Bits()) + Nums(num, uses)
    ensures lastUses == uses - after - args
  {
    lastUses := {};
    var rest, done: set<Name> := uses, {};
    while rest != {}
      invariant bits.Valid() && done + rest == uses && done !! rest
      invariant bits.Bits() == Nums(num, after) + Nums(num, done)
      invariant lastUses == done - after - args
    {
      var v :| v in rest;
      NumsUnion(num, bits.bitCount, done, {v});
      var isLive := bits.Read(num[v]);
      assert isLive <==> v in after;
      if !isLive && v !in args { lastUses := lastUses + {v}; }
      bits.Write(num[v], true);
      rest, done := rest - {v}, done + {v};
    }
    assert done == uses;
  }

  // ----- The whole analysis -----

  method Predecessors(succ: seq<seq<nat>>) returns (preds: seq<seq<nat>>)
    requires forall b, j :: 0 <= b < |succ| && 0 <= j < |succ[b]| ==> succ[b][j] < |succ|
    ensures Inverse(succ, preds)
  {
    preds := [];
    for b := 0 to |succ|
      invariant |preds| == b
      invariant forall c, p {:trigger p in preds[c]} :: 0 <= c < b && p in preds[c] ==> p < |succ| && c in succ[p]
      invariant forall c, p {:trigger c in succ[p]} :: 0 <= c < b && 0 <= p < |succ| && c in succ[p] ==> p in preds[c]
    {
      var ps: seq<nat> := [];
      for p := 0 to |succ|
        invariant forall q :: q in ps ==> q < p && b in succ[q]
        invariant forall q :: 0 <= q < p && b in succ[q] ==> q in ps
      {
        if b in succ[p] { ps := ps + [p]; }
      }
      preds := preds + [ps];
    }
  }

  /** Reads a bitvector back as a set of values. */
  method ReadNames(bits: BitVector, names: seq<Name>, num: Numbers) returns (vs: set<Name>)
    requires bits.Valid() && bits.bitCount == |names| && Numbered(names, num)
    ensures vs == NamesOf(num, bits.Bits())
  {
    vs := {};
    for i := 0 to |names|
      invariant forall v :: v in vs <==> v in num && num[v] in bits.Bits() && num[v] < i
    {
      var isLive := bits.Read(i);
      if isLive { vs := vs + {names[i]}; }
    }
  }

  method Successors(f: Func) returns (succ: seq<seq<nat>>)
    requires f.WellFormed()
    ensures succ == f.Flow().succ
  {
    succ := [];
    for b := 0 to |f.blocks|
      invariant succ == f.Flow().succ[..b]
    {
      succ := succ + [f.Term(b).Succs()];
    }
  }

  method GenKillBits(f: Func, num: Numbers, n: nat)
    returns (gen: seq<BitVector>, kill: seq<BitVector>, ghost gs: seq<set<nat>>, ghost ks: seq<set<nat>>)
    requires Injective(num, n)
    ensures |gs| == |ks| == |f.blocks| && Packs(gen, n, gs) && Packs(kill, n, ks)
    ensures forall b :: 0 <= b < |f.blocks| ==> AreGenKill(f, num, b, gs[b], ks[b])
  {
    gen, kill, gs, ks := [], [], [], [];
    for b := 0 to |f.blocks|
      invariant |gs| == |ks| == b && Packs(gen, n, gs) && Packs(kill, n, ks)
      invariant forall c :: 0 <= c < b ==> AreGenKill(f, num, c, gs[c], ks[c])
    {
      var g, k := BlockGenKill(f, num, n, b);
      gen, kill, gs, ks := gen + [g], kill + [k], gs + [g.Bits()], ks + [k.Bits()];
    }
  }

  /** The gen and kill sets of every block. */
  method GenKill(f: Func, num: Numbers, n: nat) returns (gen: seq<BitVector>, kill: seq<BitVector>, ghost fn: Flow<nat>)
    requires f.WellFormed() && Injective(num, n)
    ensures fn.succ == f.Flow().succ && |fn.gen| == |fn.kill| == |fn.succ|
    ensures forall b ::
            0 <= b < |fn.succ| ==> fn.gen[b] == Nums(num, f.Flow().gen[b]) && fn.kill[b] == Nums(num, f.Flow().kill[b])
    ensures Packs(gen, n, fn.gen) && Packs(kill, n, fn.kill)
  {
    ghost var gs, ks;
    gen, kill, gs, ks := GenKillBits(f, num, n);
    fn := Flow.Flow(f.Flow().succ, gs, ks);
    forall b | 0 <= b < |fn.succ|
      ensures fn.gen[b] == Nums(num, f.Flow().gen[b]) && fn.kill[b] == Nums(num, f.Flow().kill[b])
    {
      assert AreGenKill(f, num, b, gs[b], ks[b]);
    }
  }

  ghost predicate AreGenKill(f: Func, num: Numbers, b: nat, g: set<nat>, k: set<nat>)
    requires b < |f.blocks|
  {
    g == Nums(num, f.GenBefore(b, |f.blocks[b]|)) && k == Nums(num, f.DefsBefore(b, |f.blocks[b]|))
  }

  lemma GenIsNumbered(f: Func, num: Numbers)
    requires f.WellFormed() && OperandsDefined(f) && num.Keys == f.args + DefsUpTo(f, |f.blocks|)
    ensures forall b :: 0 <= b < |f.blocks| ==> f.GenBefore(b, |f.blocks[b]|) <= num.Keys
    ensures forall b, i :: f.At(b, i) ==> f.blocks[b][i].Uses() <= num.Keys
  {
    forall v | v in UsedNames(f) + f.args
      ensures v in num.Keys
    {
      DefinedUpTo(f, |f.blocks|, v);
    }
    forall b | 0 <= b < |f.blocks|
      ensures f.GenBefore(b, |f.blocks[b]|) <= num.Keys
    {
      GenIsUsed(f, b, |f.blocks[b]|);
    }
    forall b, i | f.At(b, i)
      ensures f.blocks[b][i].Uses() <= num.Keys
    {
      forall v | v in f.blocks[b][i].Uses() ensures v in num.Keys { assert v in UsedNames(f); }
    }
  }

  method ReadAll(xs: seq<BitVector>, names: seq<Name>, num: Numbers, ghost sets: seq<set<nat>>)
    returns (vs: seq<set<Name>>)
    requires Packs(xs, |names|, sets) && Numbered(names, num)
    ensures vs == Named(num, sets)
  {
    vs := [];
    for b := 0 to |xs|
      invariant |vs| == b && forall c :: 0 <= c < b ==> vs[c] == NamesOf(num, sets[c])
    {
      var v := ReadNames(xs[b], names, num);
      vs := vs + [v];
    }
  }

  lemma NumsOfNames(num: Numbers, names: seq<Name>, bits: set<nat>)
    requires Numbered(names, num) && bits <= Universe(|names|)
    ensures Nums(num, NamesOf(num, bits)) == bits
  {
    forall x | x in bits ensures x in Nums(num, NamesOf(num, bits)) { assert names[x] in NamesOf(num, bits); }
  }

  /** Last uses depend on the analysis through the live sets only. */
  lemma {:induction false} ScanByLiveStart(f: Func, a: Analysis, a': Analysis, b: nat, i: nat)
    requires a.Sized(f) && a'.Sized(f) && a.liveStart == a'.liveStart && b < |f.blocks| && i <= |f.blocks[b]|
    ensures Scan(f, a, b, i) == Scan(f, a', b, i)
    decreases |f.blocks[b]| - i
  {
    if i < |f.blocks[b]| { ScanByLiveStart(f, a, a', b, i + 1); }
  }

  /** The last uses the clause generator works with, for any analysis with these live sets. */
  ghost predicate AreLastUses(f: Func, liveStart: seq<set<Name>>, lastUse: seq<seq<set<Name>>>) {
    && |lastUse| == |f.blocks|
    && forall a: Analysis, b: nat, i: nat :: a.Sized(f) && a.liveStart == liveStart && f.At(b, i) ==>
         |lastUse[b]| == |f.blocks[b]| && lastUse[b][i] == LastUse(f, a, b, i)
  }

  lemma LastUsesForAll(f: Func, a: Analysis, lastUse: seq<seq<set<Name>>>)
    requires a.Sized(f) && |lastUse| == |f.blocks|
    requires forall b, i :: f.At(b, i) ==> |lastUse[b]| == |f.blocks[b]| && lastUse[b][i] == LastUse(f, a, b, i)
    ensures AreLastUses(f, a.liveStart, lastUse)
  {
    forall a': Analysis, b: nat, i: nat | a'.Sized(f) && a'.liveStart == a.liveStart && f.At(b, i)
      ensures |lastUse[b]| == |f.blocks[b]| && lastUse[b][i] == LastUse(f, a', b, i)
    {
      ScanByLiveStart(f, a, a', b, i + 1);
    }
  }

  method AllLastUses(f: Func, names: seq<Name>, num: Numbers, ends: seq<BitVector>, ghost liveEnds: seq<set<nat>>,
                     ghost liveStart: seq<set<Name>>)
    returns (lastUse: seq<seq<set<Name>>>)
    requires f.WellFormed() && f.Flow().Valid() && |liveStart| == |f.blocks|
    requires Packs(ends, |names|, liveEnds) && Numbered(names, num) && |ends| == |f.blocks|
    requires forall b :: 0 <= b < |f.blocks| ==> NamesOf(num, liveEnds[b]) == Out(f.Flow(), liveStart, b)
    requires forall b, i :: f.At(b, i) ==> f.blocks[b][i].Uses() <= num.Keys
    ensures AreLastUses(f, liveStart, lastUse)
  {
    ghost var a := Analysis(liveStart, seq(|f.blocks|, i => {}), seq(|f.blocks|, i => []), seq(|f.blocks|, i => {}));
    lastUse := [];
    NumberedIsInjective(names, num);
    for b := 0 to |f.blocks|
      invariant |lastUse| == b
      invariant forall c, i ::
                0 <= c < b && f.At(c, i) ==> |lastUse[c]| == |f.blocks[c]| && lastUse[c][i] == LastUse(f, a, c, i)
    {
      NumsOfNames(num, names, liveEnds[b]);
      var uses := LastUses(f, num, ends[b], b, a);
      lastUse := lastUse + [uses];
    }
    LastUsesForAll(f, a, lastUse);
  }

  lemma FlowsRename(f: Func, num: Numbers, n: nat, fn: Flow<nat>)
    requires f.WellFormed() && f.Flow().Valid() && Injective(num, n)
    requires fn.succ == f.Flow().succ && |fn.gen| == |fn.kill| == |fn.succ|
    requires forall b ::
             0 <= b < |fn.succ| ==> fn.gen[b] == Nums(num, f.Flow().gen[b]) && fn.kill[b] == Nums(num, f.Flow().kill[b])
    requires forall b :: 0 <= b < |f.blocks| ==> f.GenBefore(b, |f.blocks[b]|) <= num.Keys
    ensures Renames(num, n, f.Flow(), fn)
  {
  }

  /** The worklist's result, as bitvectors, for the flow of f. */
  method LiveBits(f: Func, num: Numbers, n: nat)
    returns (starts: seq<BitVector>, ends: seq<BitVector>, ghost live: seq<set<nat>>, ghost liveEnds: seq<set<nat>>)
    requires f.WellFormed() && f.Flow().Valid() && Injective(num, n)
    requires forall b :: 0 <= b < |f.blocks| ==> f.GenBefore(b, |f.blocks[b]|) <= num.Keys
    ensures Packs(starts, n, live) && Packs(ends, n, liveEnds)
    ensures LeastSolution(f.Flow(), Named(num, live)) && |live| == |liveEnds| == |f.blocks|
    ensures forall b :: 0 <= b < |f.blocks| ==> NamesOf(num, liveEnds[b]) == Out(f.Flow(), Named(num, live), b)
  {
    var gen, kill, fn := GenKill(f, num, n);
    FlowsRename(f, num, n, fn);
    var succ := Successors(f);
    var preds := Predecessors(succ);
    starts, ends, live, liveEnds := Solve(n, succ, preds, gen, kill, fn);
    LeastRenamed(num, n, f.Flow(), fn, live);
    forall b | 0 <= b < |f.blocks|
      ensures NamesOf(num, liveEnds[b]) == Out(f.Flow(), Named(num, live), b)
    {
      OutRenamed(num, n, f.Flow(), fn, live, b);
    }
  }

  /** Liveness of a whole function: the least solution of the equations, what is live at the block
      ends, and the last uses. */
  method ComputeLiveness(f: Func)
    returns (liveStart: seq<set<Name>>, liveEnd: seq<set<Name>>, lastUse: seq<seq<set<Name>>>)
    requires f.WellFormed() && f.SingleAssignment() && OperandsDefined(f)
    ensures f.Flow().Valid() && LeastSolution(f.Flow(), liveStart)
    ensures |liveEnd| == |f.blocks| && forall b :: 0 <= b < |liveEnd| ==> liveEnd[b] == Out(f.Flow(), liveStart, b)
    ensures AreLastUses(f, liveStart, lastUse)
  {
    FlowIsValid(f);
    var names, num := NumberValues(f);
    GenIsNumbered(f, num);
    var starts, ends, live, liveEnds := LiveBits(f, num, |names|);
    liveStart := ReadAll(starts, names, num, live);
    liveEnd := ReadAll(ends, names, num, liveEnds);
    lastUse := AllLastUses(f, names, num, ends, liveEnds, liveStart);
  }

  // ----- Liveness in terms of instructions -----

  lemma {:induction false} DefsMean(f: Func, b: nat, i: nat, n: Name)
    requires b < |f.blocks| && i <= |f.blocks[b]|
    ensures n in f.DefsBefore(b, i) <==> exists j :: 0 <= j < i && n in f.blocks[b][j].Defs()
    decreases i
  {
    if i > 0 { DefsMean(f, b, i - 1, n); }
  }

  /** Instruction j of block b uses n, or is a return and n an argument, and no instruction of the block
      before it defines n. */
  ghost predicate UsedFirst(f: Func, b: nat, j: nat, n: Name)
    requires f.At(b, j)
  {
    var inst := f.blocks[b][j];
    || (n in inst.Operands() && n != NullConst && forall k :: 0 <= k < j ==> n !in f.blocks[b][k].Defs())
    || ((inst.Return? || inst.ReturnVoid?) && n in f.args)
  }

  lemma {:induction false} GenMeans(f: Func, b: nat, i: nat, n: Name)
    requires b < |f.blocks| && i <= |f.blocks[b]|
    ensures n in f.GenBefore(b, i) <==> exists j: nat :: j < i && UsedFirst(f, b, j, n)
    decreases i
  {
    if i > 0 {
      GenMeans(f, b, i - 1, n);
      DefsMean(f, b, i - 1, n);
      assert UsedFirst(f, b, i - 1, n) <==>
        n in f.blocks[b][i - 1].Uses() - f.DefsBefore(b, i - 1)
          || ((f.blocks[b][i - 1].Return? || f.blocks[b][i - 1].ReturnVoid?) && n in f.args);
    }
  }

  ghost predicate UsedIn(f: Func, b: nat, n: Name)
    requires b < |f.blocks|
  {
    exists j: nat :: j < |f.blocks[b]| && UsedFirst(f, b, j, n)
  }

  ghost predicate NeverDefines(f: Func, b: nat, n: Name) {
    b < |f.blocks| && forall j :: 0 <= j < |f.blocks[b]| ==> n !in f.blocks[b][j].Defs()
  }

  /** Control can go from block b to block c. */
  ghost predicate LeadsTo(f: Func, b: nat, c: nat) {
    b < |f.blocks| && |f.blocks[b]| > 0 && c in f.Term(b).Succs()
  }

  /** From the start of block b control can reach, through whole blocks that do not define n, a block in
      which n is used before it is defined, or a return if n is an argument. */
  ghost predicate ComesToUse(f: Func, path: seq<nat>, n: Name) {
    && path != [] && (forall k :: 0 <= k < |path| ==> path[k] < |f.blocks| && |f.blocks[path[k]]| > 0)
    && (forall k :: 0 <= k < |path| - 1 ==> LeadsTo(f, path[k], path[k + 1]))
    && (forall k :: 0 <= k < |path| - 1 ==> NeverDefines(f, path[k], n))
    && UsedIn(f, path[|path| - 1], n)
  }

  lemma ReachesMeans(f: Func, path: seq<nat>, n: Name)
    requires f.WellFormed() && f.Flow().Valid()
    ensures Reaches(f.Flow(), path, n) <==> ComesToUse(f, path, n)
  {
    var fl := f.Flow();
    forall k | 0 <= k < |path| && path[k] < |f.blocks|
      ensures n in fl.kill[path[k]] <==> exists j :: 0 <= j < |f.blocks[path[k]]| && n in f.blocks[path[k]][j].Defs()
      ensures n in fl.gen[path[k]] <==> exists j: nat :: j < |f.blocks[path[k]]| && UsedFirst(f, path[k], j, n)
    {
      DefsMean(f, path[k], |f.blocks[path[k]]|, n);
      GenMeans(f, path[k], |f.blocks[path[k]]|, n);
    }
    forall k | 0 <= k < |path| - 1 && path[k] < |f.blocks| && path[k + 1] < |f.blocks|
      ensures Follows(fl, path[k], path[k + 1]) <==> LeadsTo(f, path[k], path[k + 1])
    {
    }
  }

  /** A value is live at the start of a block if and only if control can come from there to an instruction
      that uses it, by a way on which nothing defines it; arguments are used by every return. */
  lemma LiveMeansUsed(f: Func, live: seq<set<Name>>, b: nat, n: Name)
    requires f.WellFormed() && f.Flow().Valid() && LeastSolution(f.Flow(), live) && b < |f.blocks|
    ensures n in live[b] <==> exists path :: ComesToUse(f, path, n) && path[0] == b
  {
    LiveIffUsedOnPath(f.Flow(), live, b, n);
    forall path ensures Reaches(f.Flow(), path, n) <==> ComesToUse(f, path, n) { ReachesMeans(f, path, n); }
  }
}
