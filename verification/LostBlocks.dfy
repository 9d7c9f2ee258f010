/** Blocks taken over by a dead definition.  Nothing that is tracked points to them any more, so they
    can be thought of as freed: the ownership invariant goes on holding of what is left. */
module LostBlocks {
  import opened PointerIR
  import opened OwnershipClauses
  import opened Execution
  import opened OwnershipSoundness

  /** The state as it would be if the lost blocks had been freed. */
  function Hidden(s: State, lost: set<nat>): State {
    s.(heap := map a | a in s.heap :: if a in lost then Freed else s.heap[a])
  }

  /** Lost blocks are there, and nobody frees them. */
  ghost predicate StillThere(s: State, lost: set<nat>) { forall a :: a in lost ==> a in s.heap && s.heap[a] == Unfreed }

  /** The block that d owns. */
  ghost function Taken(asgn: Assignment, s: State, g: Ghosts, d: Name): (taken: set<nat>)
    ensures forall a :: a in taken <==> Owner(asgn, s, g, d, a)
  {
    if d.Local? && Responsible(d) in asgn && St(g, d) == SGood && Val(s, d).VPtr? then {Val(s, d).addr} else {}
  }

  lemma HiddenTwice(s: State, lost: set<nat>, taken: set<nat>)
    ensures Hidden(Hidden(s, lost), taken) == Hidden(s, lost + taken)
    ensures Hidden(s, {}) == s
  {
    assert Hidden(Hidden(s, lost), taken).heap == Hidden(s, lost + taken).heap;
    assert Hidden(s, {}).heap == s.heap;
  }

  lemma SameValues(s: State, lost: set<nat>)
    ensures forall n :: Val(Hidden(s, lost), n) == Val(s, n)
  {
  }

  /** What a step does to a state it does to the hidden state. */
  lemma EffectHidden(inst: Instr, s: State, s': State, lost: set<nat>)
    requires Effect(inst, s, s') && forall a :: a in lost ==> a in s.heap
    ensures Effect(inst, Hidden(s, lost), Hidden(s', lost))
  {
    var h, h' := Hidden(s, lost), Hidden(s', lost);
    SameValues(s, lost);
    match inst {
      case Malloc(d) =>
        if a: nat :| a !in s.heap && s'.env == s.env[d := VPtr(a)] && s'.heap == s.heap[a := Unfreed] {
          assert h'.heap == h.heap[a := Unfreed];
        } else {
          assert h'.heap == h.heap;
        }
      case Free(p, _) => assert h'.heap == FreeEffect(h, p);
      case _ => assert h'.heap == h.heap;
    }
  }

  lemma StepHidden(f: Func, s: State, s': State, lost: set<nat>)
    requires Step(f, s, s') && forall a :: a in lost ==> a in s.heap
    ensures Step(f, Hidden(s, lost), Hidden(s', lost))
  {
    var inst, h := f.blocks[s.pc.b][s.pc.i], Hidden(s, lost);
    EffectHidden(inst, s, s', lost);
    SameValues(s, lost);
    if inst.Jump? || inst.Branch? || inst.NullBranch? {
      assert forall choice :: Target(inst, h, choice) == Target(inst, s, choice);
      if inst.Branch? {
        var choice: bool :| s'.pc == At(Target(inst, s, choice), 0);
        assert s'.pc == At(Target(inst, h, choice), 0);
      }
    }
  }

  /** An error would be one in the hidden state, and without one lost blocks stay. */
  lemma NoErrorHidden(f: Func, s: State, lost: set<nat>)
    requires !MemoryError(f, Hidden(s, lost))
    ensures !MemoryError(f, s)
  {
    SameValues(s, lost);
  }

  lemma LostStay(f: Func, s: State, s': State, lost: set<nat>)
    requires Step(f, s, s') && !MemoryError(f, Hidden(s, lost)) && StillThere(s, lost)
    ensures StillThere(s', lost)
  {
    var inst := f.blocks[s.pc.b][s.pc.i];
    SameValues(s, lost);
    if inst.Free? && Val(s, inst.ptr).VPtr? {
      assert Val(s, inst.ptr).addr !in lost;
    }
  }

  // ----- Dropping a name -----

  /** No live name that is not responsible points to one of these blocks. */
  ghost predicate NoneBorrows(asgn: Assignment, live: set<Name>, s: State, g: Ghosts, taken: set<nat>) {
    forall n :: n in live && Responsible(n) !in asgn && St(g, n) == SGood && Val(s, n).VPtr? ==>
      Val(s, n).addr !in taken
  }

  /** A dead name takes its block with it. */
  lemma OwnDrops(f: Func, asgn: Assignment, live: set<Name>, d: Name, t: Point, bs: Borrows, s: State, g: Ghosts)
    requires Own(f, asgn, live + {d}, t, bs, s, g) && d !in live + f.args
    requires NoneBorrows(asgn, live, s, g, Taken(asgn, s, g, d))
    ensures Own(f, asgn, live, t, bs, Hidden(s, Taken(asgn, s, g, d)), g[d := SZombie])
  {
    var taken := Taken(asgn, s, g, d);
    var s', g' := Hidden(s, taken), g[d := SZombie];
    SameValues(s, taken);
    assert d.Local?;
    DropOwners(f, asgn, live, d, s, g);
    forall n | n in live && Responsible(n) !in asgn && St(g', n) == SGood
      ensures SafeBorrow(asgn, bs, s', g', n)
    {
      assert SafeBorrow(asgn, bs, s, g, n);
      if s.heap[Val(s, n).addr] != Foreign {
        var o :| Owner(asgn, s, g, o, Val(s, n).addr) && Reaches(bs, o, n);
        assert Owner(asgn, s', g', o, Val(s', n).addr);
      }
    }
  }

  lemma DropOwners(f: Func, asgn: Assignment, live: set<Name>, d: Name, s: State, g: Ghosts)
    requires GoodOwners(f, asgn, live + {d}, s, g) && OneOwner(asgn, s, g) && d.Local?
    ensures var s', g' := Hidden(s, Taken(asgn, s, g, d)), g[d := SZombie];
            && GoodOwners(f, asgn, live, s', g') && OneOwner(asgn, s', g')
            && (forall n, a :: Owner(asgn, s', g', n, a) <==> n != d && Owner(asgn, s, g, n, a))
            && (forall a :: a in s.heap && s.heap[a] == Foreign ==> a in s'.heap && s'.heap[a] == Foreign)
  {
    var taken := Taken(asgn, s, g, d);
    var s', g' := Hidden(s, taken), g[d := SZombie];
    SameValues(s, taken);
    forall n, a
      ensures Owner(asgn, s', g', n, a) <==> n != d && Owner(asgn, s, g, n, a)
    {
    }
    forall n: Name | n.Local? && Responsible(n) in asgn && St(g', n) == SGood
      ensures n in live + f.args && Val(s', n).VPtr? && Val(s', n).addr in s'.heap
              && s'.heap[Val(s', n).addr] == Unfreed
    {
      assert n != d && Owner(asgn, s, g, n, Val(s, n).addr);
    }
    forall a | a in s'.heap && s'.heap[a] == Unfreed
      ensures exists n :: Owner(asgn, s', g', n, a)
    {
      var n :| Owner(asgn, s, g, n, a);
      assert Owner(asgn, s', g', n, a);
    }
    forall a | a in s.heap && s.heap[a] == Foreign
      ensures a in s'.heap && s'.heap[a] == Foreign
    {
      assert a in taken ==> Owner(asgn, s, g, d, a);
    }
  }

  // ----- A definition has no borrowers yet -----

  lemma MallocHasNone(f: Func, asgn: Assignment, live: set<Name>, t: Point, bs: Borrows, s: State, s': State,
                      g: Ghosts, d: Name)
    requires Own(f, asgn, live, t, bs, s, g) && d !in live && MallocEffect(s, d, s')
    ensures var g' := g[d := if Val(s', d) == VNull then SNull else SGood];
            NoneBorrows(asgn, live, s', g', Taken(asgn, s', g', d))
  {
    var g' := g[d := if Val(s', d) == VNull then SNull else SGood];
    forall n | n in live && Responsible(n) !in asgn && St(g', n) == SGood && Val(s', n).VPtr?
      ensures Val(s', n).addr !in Taken(asgn, s', g', d)
    {
      assert SafeBorrow(asgn, bs, s, g, n) && Val(s', n) == Val(s, n);
    }
  }

  lemma CopyHasNone(f: Func, asgn: Assignment, live: set<Name>, pre: Point, post: Point, bs: Borrows, s: State,
                    s': State, g: Ghosts, d: Name, src: Name)
    requires Own(f, asgn, live, pre, bs, s, g) && d.Local? && d !in live + f.args && src in live + {NullConst}
    requires Satisfies(asgn, PtrCopyClauses(bs, d, src, pre, post))
    requires Satisfies(asgn, Preserve(live + {NullConst} - {d, src}, pre, post))
    requires Responsible(d) in asgn ==> Mut(d) in asgn
    requires s'.env == s.env[d := Val(s, src)] && s'.heap == s.heap
    ensures var g' := CopyStatus(asgn, g, d, src); NoneBorrows(asgn, live, s', g', Taken(asgn, s', g', d))
  {
    var g' := CopyStatus(asgn, g, d, src);
    CopyCovered(asgn, live, pre, post, bs, g, d, src);
    forall n | n in live && Responsible(n) !in asgn && St(g', n) == SGood && Val(s', n).VPtr?
      ensures Val(s', n).addr !in Taken(asgn, s', g', d)
    {
      var addr := Val(s', n).addr;
      if addr in Taken(asgn, s', g', d) { CopyIsUnborrowed(f, asgn, live, pre, bs, s, g, d, src, n, addr); }
    }
  }

  /** What a responsible copy takes over nobody borrows. */
  lemma CopyIsUnborrowed(f: Func, asgn: Assignment, live: set<Name>, t: Point, bs: Borrows, s: State, g: Ghosts,
                         d: Name,
                         src: Name, n: Name, addr: nat)
    requires Own(f, asgn, live, t, bs, s, g) && n in live && Responsible(n) !in asgn && St(g, n) == SGood
    requires src in live && Responsible(src) in asgn && St(g, src) == SGood && Val(s, src) == VPtr(addr)
    requires !Borrowed(bs, src)
    ensures Val(s, n) != VPtr(addr)
  {
    assert Owner(asgn, s, g, src, addr) && SafeBorrow(asgn, bs, s, g, n);
    if Val(s, n) == VPtr(addr) {
      var o :| Owner(asgn, s, g, o, addr) && Reaches(bs, o, n);
      ReachesFirst(bs, src, n);
    }
  }
}
