/** The aliases of a path: what borrows from it, and what it borrows from, following borrows of any
    of its prefixes. */
module BorrowAliases {
  import opened BorrowGraph
  import opened BorrowIndex
  import opened BorrowSearch

  const MAX_CPATH_DEPTH: nat := 8

  /** One alias step: with `down` from a path to one that borrows from it, otherwise to one from
      which it borrows.  Longer paths are ignored. */
  ghost predicate AliasStep(g: set<Borrow>, down: bool, p: Path, q: Path) {
    |q| <= MAX_CPATH_DEPTH && if down then Step(g, p, q) else Step(g, q, p)
  }

  /** A sequence of alias steps that, after its start, stays outside `avoid`. */
  ghost predicate Trail(g: set<Borrow>, down: bool, avoid: set<Path>, ps: seq<Path>) {
    && ps != []
    && (forall i :: 0 <= i < |ps| - 1 ==> AliasStep(g, down, ps[i], ps[i + 1]))
    && (forall i :: 0 < i < |ps| ==> ps[i] !in avoid)
  }

  ghost predicate Leads(g: set<Borrow>, down: bool, avoid: set<Path>, p: Path, q: Path) {
    exists ps :: Trail(g, down, avoid, ps) && ps[0] == p && ps[|ps| - 1] == q
  }

  /** What is reached from p outside `avoid`. */
  ghost predicate Found(g: set<Borrow>, down: bool, avoid: set<Path>, p: Path, q: Path) {
    q !in avoid && Leads(g, down, avoid, p, q)
  }

  lemma TrailNext(g: set<Borrow>, down: bool, avoid: set<Path>, p: Path, q: Path, r: Path)
    requires Leads(g, down, avoid, p, q) && AliasStep(g, down, q, r) && r !in avoid
    ensures Leads(g, down, avoid, p, r)
  {
    var ps :| Trail(g, down, avoid, ps) && ps[0] == p && ps[|ps| - 1] == q;
    var qs := ps + [r];
    forall i | 0 <= i < |qs| - 1
      ensures AliasStep(g, down, qs[i], qs[i + 1])
    {
      if i < |ps| - 1 { assert AliasStep(g, down, ps[i], ps[i + 1]); }
    }
    assert Trail(g, down, avoid, qs);
  }

  lemma TrailStart(g: set<Borrow>, down: bool, avoid: set<Path>, p: Path)
    ensures Leads(g, down, avoid, p, p)
  {
    assert Trail(g, down, avoid, [p]);
  }

  /** Where a trail has to end when everything on it is closed under steps. */
  lemma {:induction false} TrailStays(g: set<Borrow>, down: bool, avoid: set<Path>, closed: set<Path>, ps: seq<Path>)
    requires Trail(g, down, avoid, ps) && ps[0] in closed
    requires forall p, q :: p in closed && AliasStep(g, down, p, q) && q !in avoid ==> q in closed
    ensures ps[|ps| - 1] in closed
    decreases |ps|
  {
    if |ps| > 1 {
      assert AliasStep(g, down, ps[0], ps[0 + 1]);
      var rest := ps[1..];
      forall i | 0 <= i < |rest| - 1
        ensures AliasStep(g, down, rest[i], rest[i + 1])
      {
        assert AliasStep(g, down, ps[i + 1], ps[i + 1 + 1]);
      }
      TrailStays(g, down, avoid, closed, rest);
    }
  }

  // ----- Finitely many paths -----

  ghost function PathsUpTo(parts: set<nat>, n: nat): set<Path> {
    if n == 0 then {[]} else {[]} + set x, p | x in parts && p in PathsUpTo(parts, n - 1) :: [x] + p
  }

  lemma {:induction false} InPathsUpTo(parts: set<nat>, n: nat, p: Path)
    requires |p| <= n && forall i :: 0 <= i < |p| ==> p[i] in parts
    ensures p in PathsUpTo(parts, n)
  {
    if p != [] {
      InPathsUpTo(parts, n - 1, p[1..]);
      assert p == [p[0]] + p[1..];
    }
  }

  ghost function PartsOf(p: Path): set<nat> { set x | x in p }

  ghost function AllParts(g: set<Borrow>, p: Path): set<nat> {
    PartsOf(p) + set b, x | b in g && x in PartsOf(b.to) + PartsOf(b.from) :: x
  }

  ghost predicate Over(parts: set<nat>, p: Path) { forall i :: 0 <= i < |p| ==> p[i] in parts }

  lemma StepIsOver(g: set<Borrow>, down: bool, start: Path, p: Path, q: Path)
    requires Over(AllParts(g, start), p) && AliasStep(g, down, p, q)
    ensures Over(AllParts(g, start), q) && q in PathsUpTo(AllParts(g, start), MAX_CPATH_DEPTH)
  {
    var parts := AllParts(g, start);
    var b, s: Path :| b in g && if down then StepBy(g, p, q, b, s) else StepBy(g, q, p, b, s);
    var near, far := if down then b.from else b.to, if down then b.to else b.from;
    forall i | 0 <= i < |q|
      ensures q[i] in parts
    {
      if i < |far| {
        assert q[i] in PartsOf(far) && q[i] in PartsOf(b.to) + PartsOf(b.from);
      } else {
        assert q[i] == p[|near| + (i - |far|)];
      }
    }
    InPathsUpTo(parts, MAX_CPATH_DEPTH, q);
  }

  // ----- One direction -----

  /** The borrows that count: all of them, or only those known to be in effect. */
  ghost function Counted(g: set<Borrow>, onlyMust: bool, must: set<Borrow>): (counted: set<Borrow>)
    ensures forall b :: b in counted <==> b in g && (onlyMust ==> b in must)
  {
    if onlyMust then g * must else g
  }

  ghost predicate SplitStep(g: set<Borrow>, down: bool, p: Path, q: Path, k: nat) {
    && 0 < k <= |p| && |q| <= MAX_CPATH_DEPTH
    && exists b :: b in g && Major(b, down) == p[..k] && q == Minor(b, down) + p[k..]
  }

  /** The aliases of `full` through borrows of its first `split` parts. */
  method PrefixAliases(curBI: BorrowInfo, down: bool, onlyMust: bool, must: set<Borrow>, full: Path, split: nat)
    returns (alis: seq<Path>)
    requires curBI.Valid() && 0 < split <= |full|
    ensures forall q :: q in alis <==> SplitStep(Counted(curBI.Contents(), onlyMust, must), down, full, q, split)
  {
    alis := [];
    var borrows := curBI.EndingAt(full[..split], down);
    for i := 0 to |borrows|
      invariant forall q ::
                q in alis <==> exists j :: 0 <= j < i && GivesAlias(borrows[j], down, onlyMust, must, full[split..], q)
    {
      ghost var before := alis;
      var b := borrows[i];
      if !onlyMust || b in must {
        var ali := Minor(b, down) + full[split..];
        if |ali| <= MAX_CPATH_DEPTH { alis := alis + [ali]; }
      }
      assert forall q :: q in alis <==> q in before || GivesAlias(b, down, onlyMust, must, full[split..], q);
    }
    forall q
      ensures q in alis <==> SplitStep(Counted(curBI.Contents(), onlyMust, must), down, full, q, split)
    {
      if j :| 0 <= j < |borrows| && GivesAlias(borrows[j], down, onlyMust, must, full[split..], q) {
        assert borrows[j] in borrows;
      }
      if SplitStep(Counted(curBI.Contents(), onlyMust, must), down, full, q, split) {
        var b :| b in Counted(curBI.Contents(), onlyMust, must) && Major(b, down) == full[..split]
          && q == Minor(b, down) + full[split..];
        assert b in borrows;
        var j :| 0 <= j < |borrows| && borrows[j] == b;
        assert GivesAlias(borrows[j], down, onlyMust, must, full[split..], q);
      }
    }
  }

  ghost predicate GivesAlias(b: Borrow, down: bool, onlyMust: bool, must: set<Borrow>, suffix: Path, q: Path) {
    (onlyMust ==> b in must) && q == Minor(b, down) + suffix && |q| <= MAX_CPATH_DEPTH
  }

  /** Trying every prefix finds every alias step. */
  lemma SplitsAreSteps(g: set<Borrow>, down: bool, p: Path, q: Path)
    requires ValidBorrows(g)
    ensures AliasStep(g, down, p, q) <==> exists k: nat :: SplitStep(g, down, p, q, k)
  {
    if AliasStep(g, down, p, q) {
      var b, s: Path :| b in g && if down then StepBy(g, p, q, b, s) else StepBy(g, q, p, b, s);
      var k := |Major(b, down)|;
      assert p[..k] == Major(b, down) && p[k..] == s;
      assert SplitStep(g, down, p, q, k);
    }
    if k: nat :| SplitStep(g, down, p, q, k) {
      var b :| b in g && Major(b, down) == p[..k] && q == Minor(b, down) + p[k..];
      assert p == p[..k] + p[k..];
      assert if down then StepBy(g, p, q, b, p[k..]) else StepBy(g, q, p, b, p[k..]);
    }
  }

  /** All alias steps from a path. */
  method NextAliases(curBI: BorrowInfo, down: bool, onlyMust: bool, must: set<Borrow>, full: Path)
    returns (alis: seq<Path>)
    requires curBI.Valid()
    ensures forall q :: q in alis <==> AliasStep(Counted(curBI.Contents(), onlyMust, must), down, full, q)
  {
    ghost var g := Counted(curBI.Contents(), onlyMust, must);
    assert ValidBorrows(g);
    alis := [];
    for split := 0 to |full|
      invariant forall q :: q in alis <==> exists k: nat :: k <= split && SplitStep(g, down, full, q, k)
    {
      var more := PrefixAliases(curBI, down, onlyMust, must, full, split + 1);
      assert forall q :: q in more <==> SplitStep(g, down, full, q, split + 1);
      alis := alis + more;
    }
    forall q ensures q in alis <==> AliasStep(g, down, full, q) { SplitsAreSteps(g, down, full, q); }
  }

  /** What holds between iterations: everything found can be reached, and the paths that have left
      the queue lead only to paths already seen. */
  ghost predicate Exploring(g: set<Borrow>, down: bool, start: Path, seen: set<Path>, found: seq<Path>,
                            queue: seq<Path>) {
    && start in seen
    && (forall q :: q in found ==> FoundFrom(g, down, start, seen, q))
    && (forall p :: p in queue ==> p == start || p in found)
    && (forall p :: (p == start || p in found) && p !in queue ==> Expanded(g, down, seen, found, p))
    && Distinct(found)
  }

  /** Reached, and one of finitely many paths. */
  ghost predicate FoundFrom(g: set<Borrow>, down: bool, start: Path, seen: set<Path>, q: Path) {
    && Found(g, down, seen, start, q)
    && q in PathsUpTo(AllParts(g, start), MAX_CPATH_DEPTH) && Over(AllParts(g, start), q)
  }

  ghost predicate Expanded(g: set<Borrow>, down: bool, seen: set<Path>, found: seq<Path>, p: Path) {
    forall q :: AliasStep(g, down, p, q) ==> q in seen || q in found
  }

  lemma StartIsOver(g: set<Borrow>, start: Path)
    ensures Over(AllParts(g, start), start)
  {
    forall i | 0 <= i < |start| ensures start[i] in AllParts(g, start) { assert start[i] in PartsOf(start); }
  }

  lemma FoundNext(g: set<Borrow>, down: bool, start: Path, seen: set<Path>, found: seq<Path>, queue: seq<Path>, p: Path,
                  q: Path)
    requires Exploring(g, down, start, seen, found, queue) && p in queue
    requires AliasStep(g, down, p, q) && q !in seen
    ensures FoundFrom(g, down, start, seen, q)
  {
    StartIsOver(g, start);
    TrailStart(g, down, seen, start);
    assert Leads(g, down, seen, start, p);
    TrailNext(g, down, seen, start, p, q);
    StepIsOver(g, down, start, p, q);
  }

  /** One direction of the search from start, leaving alone what has been seen. */
  method Explore(curBI: BorrowInfo, down: bool, onlyMust: bool, must: set<Borrow>, start: Path, seen: set<Path>)
    returns (found: seq<Path>)
    requires curBI.Valid() && start in seen
    ensures Distinct(found)
    ensures forall q :: q in found <==> Found(Counted(curBI.Contents(), onlyMust, must), down, seen, start, q)
  {
    ghost var g := Counted(curBI.Contents(), onlyMust, must);
    found := [];
    var queue := [start];
    ghost var all := PathsUpTo(AllParts(g, start), MAX_CPATH_DEPTH);
    ghost var unfound := all - ToSet(found);
    while queue != []
      invariant Exploring(g, down, start, seen, found, queue)
      invariant unfound == all - ToSet(found)
      decreases |unfound|, |queue|
    {
      var p := queue[0];
      var alis := NextAliases(curBI, down, onlyMust, must, p);
      found, queue := Take(g, down, start, seen, found, queue, p, alis);
      Smaller(all - ToSet(found), unfound);
      unfound := all - ToSet(found);
    }
    forall q ensures q in found <==> Found(g, down, seen, start, q) { NothingElse(g, down, start, seen, found, q); }
  }

  lemma NothingElse(g: set<Borrow>, down: bool, start: Path, seen: set<Path>, found: seq<Path>, q: Path)
    requires Exploring(g, down, start, seen, found, [])
    ensures q in found <==> Found(g, down, seen, start, q)
  {
    if Found(g, down, seen, start, q) {
      var ps :| Trail(g, down, seen, ps) && ps[0] == start && ps[|ps| - 1] == q;
      var closed := {start} + ToSet(found);
      forall p, r | p in closed && AliasStep(g, down, p, r) && r !in seen
        ensures r in closed
      {
        assert Expanded(g, down, seen, found, p);
      }
      TrailStays(g, down, seen, closed, ps);
    }
  }

  /** Takes p from the queue and adds the new ones among its alias steps. */
  method Take(ghost g: set<Borrow>, ghost down: bool, ghost start: Path, seen: set<Path>, found0: seq<Path>,
              queue0: seq<Path>, p: Path, alis: seq<Path>)
    returns (found: seq<Path>, queue: seq<Path>)
    requires Exploring(g, down, start, seen, found0, queue0) && queue0 != [] && queue0[0] == p
    requires forall q :: q in alis <==> AliasStep(g, down, p, q)
    ensures Exploring(g, down, start, seen, found, queue) && ToSet(found0) <= ToSet(found)
    ensures ToSet(found) == ToSet(found0) ==> |queue| < |queue0|
    ensures ToSet(found) <= PathsUpTo(AllParts(g, start), MAX_CPATH_DEPTH)
  {
    found, queue := found0, queue0[1..];
    for i := 0 to |alis|
      invariant forall q :: q in found ==> FoundFrom(g, down, start, seen, q)
      invariant Distinct(found)
      invariant forall q :: q in found0 ==> q in found
      invariant forall q :: q in queue ==> q == start || q in found
      invariant forall q ::
                (q == start || q in found) && q !in queue ==> q == p || ((q == start || q in found0) && q !in queue0)
      invariant forall k :: 0 <= k < i ==> alis[k] in seen || alis[k] in found
      invariant ToSet(found) == ToSet(found0) ==> queue == queue0[1..]
    {
      var q := alis[i];
      assert q in alis && p in queue0;
      if q !in seen && q !in found {
        FoundNext(g, down, start, seen, found0, queue0, p, q);
        Appended(found, q);
        Appended(queue, q);
        assert q !in ToSet(found0);
        found, queue := found + [q], queue + [q];
      }
    }
    AllExpanded(g, down, start, seen, found0, queue0, p, alis, found, queue);
    forall q | q in ToSet(found) ensures q in PathsUpTo(AllParts(g, start), MAX_CPATH_DEPTH) {
      assert FoundFrom(g, down, start, seen, q);
    }
  }

  lemma AllExpanded(g: set<Borrow>, down: bool, start: Path, seen: set<Path>, found0: seq<Path>, queue0: seq<Path>,
                    p: Path, alis: seq<Path>,
                    found: seq<Path>, queue: seq<Path>)
    requires Exploring(g, down, start, seen, found0, queue0)
    requires forall q :: q in alis <==> AliasStep(g, down, p, q)
    requires forall q :: q in found0 ==> q in found
    requires forall q ::
             (q == start || q in found) && q !in queue ==> q == p || ((q == start || q in found0) && q !in queue0)
    requires forall k :: 0 <= k < |alis| ==> alis[k] in seen || alis[k] in found
    ensures forall q :: (q == start || q in found) && q !in queue ==> Expanded(g, down, seen, found, q)
  {
    forall q | (q == start || q in found) && q !in queue
      ensures Expanded(g, down, seen, found, q)
    {
      if q == p {
        forall r | AliasStep(g, down, p, r) ensures r in seen || r in found { assert r in alis; }
      } else {
        assert Expanded(g, down, seen, found0, q);
      }
    }
  }

  // ----- Both directions -----

  lemma {:induction false} TrailFromLast(g: set<Borrow>, down: bool, p: Path, ps: seq<Path>)
    requires Trail(g, down, {}, ps) && ps[0] == p && ps[|ps| - 1] != p
    ensures Found(g, down, {p}, p, ps[|ps| - 1])
    decreases |ps|
  {
    var rest := ps[1..];
    if p in rest {
      var k :| 0 <= k < |rest| && rest[k] == p;
      var qs := rest[k..];
      forall i | 0 <= i < |qs| - 1
        ensures AliasStep(g, down, qs[i], qs[i + 1])
      {
        assert AliasStep(g, down, ps[k + 1 + i], ps[k + 1 + i + 1]);
      }
      TrailFromLast(g, down, p, qs);
    } else {
      forall i | 0 < i < |ps| ensures ps[i] != p { assert ps[i] == rest[i - 1]; }
      assert Trail(g, down, {p}, ps);
    }
  }

  lemma FoundIsReached(g: set<Borrow>, down: bool, p: Path, q: Path)
    ensures Found(g, down, {p}, p, q) <==> q != p && Leads(g, down, {}, p, q)
  {
    if q != p && Leads(g, down, {}, p, q) {
      var ps :| Trail(g, down, {}, ps) && ps[0] == p && ps[|ps| - 1] == q;
      TrailFromLast(g, down, p, ps);
    }
    if Found(g, down, {p}, p, q) {
      var ps :| Trail(g, down, {p}, ps) && ps[0] == p && ps[|ps| - 1] == q;
      assert Trail(g, down, {}, ps);
    }
  }

  /** The path itself, everything that borrows from it, and everything it borrows from that can be
      reached without passing through what borrows from it. */
  method GetAliasesOf(curBI: BorrowInfo, ptr: Path, onlyMust: bool, must: set<Borrow>)
    returns (aliases: seq<Path>, ghost below: set<Path>)
    requires curBI.Valid()
    ensures aliases != [] && aliases[0] == ptr && Distinct(aliases)
    ensures forall q :: q in below <==> q == ptr || Leads(Counted(curBI.Contents(), onlyMust, must), true, {}, ptr, q)
    ensures forall q :: q in aliases <==> Returned(Counted(curBI.Contents(), onlyMust, must), ptr, below, q)
  {
    ghost var g := Counted(curBI.Contents(), onlyMust, must);
    var seen := {ptr};
    var downwards := Explore(curBI, true, onlyMust, must, ptr, seen);
    forall q ensures q in downwards <==> q != ptr && Leads(g, true, {}, ptr, q) { FoundIsReached(g, true, ptr, q); }
    var upwards := Explore(curBI, false, onlyMust, must, ptr, seen + SetOf(downwards));
    below := {ptr} + ToSet(downwards);
    aliases := [ptr] + downwards + upwards;
    DistinctParts(ptr, downwards, upwards);
  }

  lemma DistinctParts(p: Path, xs: seq<Path>, ys: seq<Path>)
    requires Distinct(xs) && Distinct(ys) && p !in xs && p !in ys && ToSet(xs) !! ToSet(ys)
    ensures Distinct([p] + xs + ys)
  {
    var all := [p] + xs + ys;
    forall i, j | 0 <= i < j < |all|
      ensures all[i] != all[j]
    {
      if i <= |xs| < j {
        assert all[j] in ys && (i == 0 || all[i] in ToSet(xs)) && all[j] in ToSet(ys);
      }
    }
  }

  function SetOf(ps: seq<Path>): (r: set<Path>)
    ensures r == ToSet(ps)
  {
    set p | p in ps
  }

  /** What the two searches return together. */
  ghost predicate Returned(g: set<Borrow>, ptr: Path, below: set<Path>, q: Path) {
    q in below || Found(g, false, below, ptr, q)
  }

  ghost predicate Reached(g: set<Borrow>, ptr: Path, q: Path) {
    q == ptr || Leads(g, true, {}, ptr, q) || Leads(g, false, {}, ptr, q)
  }

  /** Whatever a path other than the start, reached in both directions, borrows from directly has
      been found as well: the only paths from which the upward search does not go on. */
  ghost predicate CyclesCovered(g: set<Borrow>, ptr: Path, below: set<Path>) {
    forall r, u ::
      r != ptr && Leads(g, true, {}, ptr, r) && Leads(g, false, {}, ptr, r) && AliasStep(g, false, r, u) ==>
      Returned(g, ptr, below, u)
  }

  lemma UpwardStepReturned(g: set<Borrow>, ptr: Path, below: set<Path>, p: Path, q: Path)
    requires forall r :: r in below <==> r == ptr || Leads(g, true, {}, ptr, r)
    requires CyclesCovered(g, ptr, below)
    requires Leads(g, false, {}, ptr, p) && Returned(g, ptr, below, p) && AliasStep(g, false, p, q)
    ensures Returned(g, ptr, below, q)
  {
    if q !in below && (p == ptr || p !in below) {
      TrailStart(g, false, below, ptr);
      TrailNext(g, false, below, ptr, p, q);
    }
  }

  lemma TrailFront(g: set<Borrow>, down: bool, avoid: set<Path>, ps: seq<Path>)
    requires Trail(g, down, avoid, ps) && |ps| > 1
    ensures Trail(g, down, avoid, ps[..|ps| - 1]) && AliasStep(g, down, ps[|ps| - 2], ps[|ps| - 1])
    ensures Leads(g, down, avoid, ps[0], ps[|ps| - 2])
  {
    var front := ps[..|ps| - 1];
    forall i | 0 <= i < |front| - 1
      ensures AliasStep(g, down, front[i], front[i + 1])
    {
      assert AliasStep(g, down, ps[i], ps[i + 1]);
    }
    assert AliasStep(g, down, ps[|ps| - 2], ps[|ps| - 2 + 1]);
  }

  lemma {:induction false} UpwardReturned(g: set<Borrow>, ptr: Path, below: set<Path>, ps: seq<Path>)
    requires forall r :: r in below <==> r == ptr || Leads(g, true, {}, ptr, r)
    requires CyclesCovered(g, ptr, below) && Trail(g, false, {}, ps) && ps[0] == ptr
    ensures Returned(g, ptr, below, ps[|ps| - 1])
    decreases |ps|
  {
    if |ps| > 1 {
      TrailFront(g, false, {}, ps);
      UpwardReturned(g, ptr, below, ps[..|ps| - 1]);
      UpwardStepReturned(g, ptr, below, ps[|ps| - 2], ps[|ps| - 1]);
    }
  }

  /** Exactly when the cycles are covered, all aliases in both directions are returned, and never
      anything else. */
  lemma NothingMissedIff(g: set<Borrow>, ptr: Path, below: set<Path>)
    requires forall r :: r in below <==> r == ptr || Leads(g, true, {}, ptr, r)
    ensures (forall q :: Reached(g, ptr, q) ==> Returned(g, ptr, below, q)) <==> CyclesCovered(g, ptr, below)
    ensures forall q :: Returned(g, ptr, below, q) ==> Reached(g, ptr, q)
  {
    if CyclesCovered(g, ptr, below) {
      forall q | Reached(g, ptr, q)
        ensures Returned(g, ptr, below, q)
      {
        if q !in below {
          var ps :| Trail(g, false, {}, ps) && ps[0] == ptr && ps[|ps| - 1] == q;
          UpwardReturned(g, ptr, below, ps);
        }
      }
    }
    if forall q :: Reached(g, ptr, q) ==> Returned(g, ptr, below, q) {
      forall r, u | r != ptr && Leads(g, true, {}, ptr, r) && Leads(g, false, {}, ptr, r) && AliasStep(g, false, r, u)
        ensures Returned(g, ptr, below, u)
      {
        TrailNext(g, false, {}, ptr, r, u);
        assert Reached(g, ptr, u);
      }
    }
    forall q | Returned(g, ptr, below, q)
      ensures Reached(g, ptr, q)
    {
      if q !in below {
        var ps :| Trail(g, false, below, ps) && ps[0] == ptr && ps[|ps| - 1] == q;
        assert Trail(g, false, {}, ps);
      }
    }
  }

  /** When nothing but the path itself is reached in both directions, nothing is missed. */
  lemma AliasesAreExact(g: set<Borrow>, ptr: Path, below: set<Path>, q: Path)
    requires forall r :: r in below <==> r == ptr || Leads(g, true, {}, ptr, r)
    requires forall r :: Leads(g, true, {}, ptr, r) && Leads(g, false, {}, ptr, r) ==> r == ptr
    ensures Returned(g, ptr, below, q) <==> Reached(g, ptr, q)
  {
    NothingMissedIff(g, ptr, below);
  }

  /** On a cycle the upward search can miss aliases: x both borrows from s and lends to it, so the
      lender y of x is not looked for. */
  lemma MissedAlias(s: nat, x: nat, y: nat) returns (g: set<Borrow>)
    requires s != x && s != y && x != y
    ensures Leads(g, false, {}, [s], [y]) && Leads(g, true, {}, [s], [x])
    ensures !Found(g, false, {[s], [x]}, [s], [y])
  {
    g := {Borrow([x], [s]), Borrow([s], [x]), Borrow([x], [y])};
    assert StepBy(g, [s], [x], Borrow([x], [s]), []) && StepBy(g, [x], [s], Borrow([s], [x]), [])
           && StepBy(g, [y], [x], Borrow([x], [y]), []) by {
      assert [s] + [] == [s] && [x] + [] == [x] && [y] + [] == [y];
    }
    TrailStart(g, true, {}, [s]);
    TrailNext(g, true, {}, [s], [s], [x]);
    TrailStart(g, false, {}, [s]);
    TrailNext(g, false, {}, [s], [s], [x]);
    TrailNext(g, false, {}, [s], [x], [y]);
    OnlyLender(g, s, x, y);
  }

  lemma FromSourceOnly(g: set<Borrow>, s: nat, x: nat, y: nat, q: Path)
    requires g == {Borrow([x], [s]), Borrow([s], [x]), Borrow([x], [y])} && s != x && Step(g, q, [s])
    ensures q == [x]
  {
    var b, t :| StepBy(g, q, [s], b, t);
    assert |b.to| == 1 && |b.to + t| == 1;
    assert (b.to + t)[0] == b.to[0] == s;
    assert b == Borrow([s], [x]) && t == [];
  }

  lemma OnlyLender(g: set<Borrow>, s: nat, x: nat, y: nat)
    requires g == {Borrow([x], [s]), Borrow([s], [x]), Borrow([x], [y])} && s != x && s != y
    ensures !Found(g, false, {[s], [x]}, [s], [y])
  {
    var avoid := {[s], [x]};
    if Found(g, false, avoid, [s], [y]) {
      var ps :| Trail(g, false, avoid, ps) && ps[0] == [s] && ps[|ps| - 1] == [y];
      assert AliasStep(g, false, ps[0], ps[0 + 1]);
      FromSourceOnly(g, s, x, y, ps[1]);
    }
  }
}
