/** Searching the borrows: whether a new borrow closes a cycle, and which paths are aliases. */
module BorrowSearch {
  import opened BorrowGraph
  import opened BorrowIndex

  // ----- Alias-aware chains -----

  predicate Conflict(p: Path, q: Path) { StartsWith(p, q) || StartsWith(q, p) }

  /** From p along borrows to q; where one borrow ends and the next begins, one path is a prefix of
      the other. */
  ghost predicate Walk(g: set<Borrow>, p: Path, bs: seq<Borrow>, q: Path) {
    && (forall i :: 0 <= i < |bs| ==> bs[i] in g)
    && (forall i :: 0 <= i < |bs| - 1 ==> Joint(bs, i))
    && (if bs == [] then Conflict(p, q) else Conflict(bs[0].from, p) && Conflict(bs[|bs| - 1].to, q))
  }

  ghost predicate Joint(bs: seq<Borrow>, i: nat)
    requires i + 1 < |bs|
  {
    Conflict(bs[i + 1].from, bs[i].to)
  }

  ghost predicate Reaches(g: set<Borrow>, p: Path, q: Path) { exists bs :: Walk(g, p, bs, q) }

  /** A walk that returns to where it starts. */
  ghost predicate Cycle(g: set<Borrow>, bs: seq<Borrow>) {
    bs != [] && Walk(g, bs[0].from, bs, bs[0].from)
  }

  ghost predicate Acyclic(g: set<Borrow>) { forall bs :: !Cycle(g, bs) }

  /** Paths conflict if and only if some path lies under both. */
  lemma ConflictMeans(p: Path, q: Path)
    ensures Conflict(p, q) <==> exists r :: Under(p, r) && Under(q, r)
  {
    if Conflict(p, q) {
      var r := if |p| < |q| then q else p;
      assert Under(p, r) && Under(q, r);
    }
    if r :| Under(p, r) && Under(q, r) {
      assert |p| <= |q| ==> q[..|p|] == r[..|q|][..|p|] == p;
      assert |q| <= |p| ==> p[..|q|] == r[..|p|][..|q|] == q;
    }
  }

  lemma ConflictSymmetric(p: Path, q: Path)
    ensures Conflict(p, q) <==> Conflict(q, p)
  {
  }

  lemma WalkPart(g: set<Borrow>, p: Path, bs: seq<Borrow>, q: Path, i: nat, j: nat)
    requires Walk(g, p, bs, q) && i < j <= |bs|
    ensures Walk(g, if i == 0 then p else bs[i - 1].to, bs[i..j], if j == |bs| then q else bs[j].from)
  {
    var part := bs[i..j];
    forall k | 0 <= k < |part| - 1
      ensures Joint(part, k)
    {
      assert Joint(bs, i + k);
    }
    if i > 0 { assert Joint(bs, i - 1); }
    if j < |bs| { assert Joint(bs, j - 1); }
  }

  lemma WalkConcat(g: set<Borrow>, p: Path, bs: seq<Borrow>, cs: seq<Borrow>, q: Path)
    requires bs != [] && cs != [] && Walk(g, p, bs, cs[0].from) && Walk(g, bs[|bs| - 1].to, cs, q)
    ensures Walk(g, p, bs + cs, q)
  {
    var all := bs + cs;
    forall k | 0 <= k < |all| - 1
      ensures Joint(all, k)
    {
      if k < |bs| - 1 {
        assert Joint(bs, k);
      } else if k >= |bs| {
        assert Joint(cs, k - |bs|);
      }
    }
  }

  /** Dropping from a walk everything before the last use of b. */
  lemma {:induction false} AfterLastUse(g: set<Borrow>, b: Borrow, p: Path, bs: seq<Borrow>, q: Path)
    requires Walk(g + {b}, p, bs, q)
    ensures Reaches(g, p, q) || Reaches(g, b.to, q)
    decreases |bs|
  {
    if b !in bs {
      assert Walk(g, p, bs, q);
    } else {
      var i :| 0 <= i < |bs| && bs[i] == b;
      if i + 1 == |bs| {
        assert Walk(g, b.to, [], q);
      } else {
        WalkPart(g + {b}, p, bs, q, i + 1, |bs|);
        AfterLastUse(g, b, b.to, bs[i + 1..|bs|], q);
      }
    }
  }

  lemma WalkFrom(g: set<Borrow>, p: Path, bs: seq<Borrow>, q: Path, p': Path)
    requires bs != [] && Walk(g, p, bs, q) && Conflict(bs[0].from, p')
    ensures Walk(g, p', bs, q)
  {
  }

  /** The rest of a cycle leads from the end of any of its borrows back to that borrow's start. */
  lemma RestOfCycle(g: set<Borrow>, bs: seq<Borrow>, i: nat)
    requires Cycle(g, bs) && i < |bs|
    ensures Walk(g, bs[i].to, bs[i + 1..|bs|] + bs[0..i], bs[i].from)
  {
    var n := |bs|;
    var after, before := bs[i + 1..n], bs[0..i];
    if i > 0 { BeforeInCycle(g, bs, i); }
    if i + 1 < n { WalkPart(g, bs[0].from, bs, bs[0].from, i + 1, n); }
    if i > 0 && i + 1 < n {
      WalkConcat(g, bs[i].to, after, before, bs[i].from);
    } else {
      assert after + before == if i > 0 then before else after;
    }
  }

  /** The part of a cycle before one of its borrows, entered from the end of the cycle. */
  lemma BeforeInCycle(g: set<Borrow>, bs: seq<Borrow>, i: nat)
    requires Cycle(g, bs) && 0 < i < |bs|
    ensures Walk(g, bs[|bs| - 1].to, bs[0..i], bs[i].from)
  {
    var p := bs[0].from;
    ConflictSymmetric(bs[|bs| - 1].to, p);
    WalkPart(g, p, bs, p, 0, i);
    WalkFrom(g, p, bs[0..i], bs[i].from, bs[|bs| - 1].to);
  }

  lemma NewCycleUses(g: set<Borrow>, b: Borrow, bs: seq<Borrow>)
    requires Cycle(g + {b}, bs) && !Cycle(g, bs)
    ensures b in bs
  {
  }

  /** Adding a borrow that is not flagged keeps the borrows free of cycles; adding a flagged one to
      borrows that are closes a cycle. */
  lemma FlagIsExact(g: set<Borrow>, b: Borrow)
    requires Acyclic(g)
    ensures Acyclic(g + {b}) <==> !Reaches(g, b.to, b.from)
  {
    if !Reaches(g, b.to, b.from) {
      forall bs ensures !Cycle(g + {b}, bs) {
        if Cycle(g + {b}, bs) {
          NewCycleUses(g, b, bs);
          var i :| 0 <= i < |bs| && bs[i] == b;
          RestOfCycle(g + {b}, bs, i);
          AfterLastUse(g, b, b.to, bs[i + 1..|bs|] + bs[0..i], b.from);
        }
      }
    } else {
      var bs :| Walk(g, b.to, bs, b.from);
      var cycle := [b] + bs;
      forall k | 0 <= k < |cycle| - 1
        ensures Joint(cycle, k)
      {
        if k > 0 { assert Joint(bs, k - 1); }
      }
      assert Cycle(g + {b}, cycle);
    }
  }

  // ----- Breadth-first search -----

  /** A walk from start arrives at n. */
  ghost predicate Arrives(g: set<Borrow>, start: Path, n: Path) {
    n == start || exists bs: seq<Borrow> :: bs != [] && bs[|bs| - 1].to == n && Walk(g, start, bs, n)
  }

  lemma ArrivesNext(g: set<Borrow>, start: Path, n: Path, b: Borrow)
    requires Arrives(g, start, n) && b in g && Conflict(b.from, n)
    ensures Arrives(g, start, b.to)
  {
    assert Walk(g, n, [b], b.to);
    if n == start {
      assert [b][|[b]| - 1].to == b.to;
    } else {
      var bs: seq<Borrow> :| bs != [] && bs[|bs| - 1].to == n && Walk(g, start, bs, n);
      WalkConcat(g, start, bs, [b], b.to);
      assert (bs + [b])[|bs + [b]| - 1].to == b.to;
    }
  }

  /** All borrows that a node in `from` can follow lead to visited nodes away from the target. */
  ghost predicate Followed(g: set<Borrow>, n: Path, target: Path, visited: seq<Path>) {
    forall b :: b in g ==> FollowedAlong(b, n, target, visited)
  }

  ghost predicate FollowedAlong(b: Borrow, n: Path, target: Path, visited: seq<Path>) {
    Conflict(b.from, n) ==> b.to in visited && !Conflict(b.to, target)
  }

  lemma {:induction false} NoWayOut(g: set<Borrow>, start: Path, target: Path, visited: seq<Path>, bs: seq<Borrow>)
    requires start in visited && !Conflict(start, target)
    requires forall n :: n in visited ==> Followed(g, n, target, visited)
    ensures !Walk(g, start, bs, target)
    decreases |bs|
  {
    if Walk(g, start, bs, target) && bs != [] {
      assert Followed(g, start, target, visited) && FollowedAlong(bs[0], start, target, visited);
      if |bs| > 1 {
        WalkPart(g, start, bs, target, 1, |bs|);
        NoWayOut(g, bs[0].to, target, visited, bs[1..|bs|]);
      }
    }
  }

  ghost function Ends(g: set<Borrow>): set<Path> { set b | b in g :: b.to }

  ghost predicate Distinct<T>(xs: seq<T>) { forall i, j :: 0 <= i < j < |xs| ==> xs[i] != xs[j] }

  ghost function ToSet<T>(xs: seq<T>): set<T> { set x | x in xs }

  /** What holds between iterations of the search. */
  ghost predicate Searching(g: set<Borrow>, start: Path, target: Path, visited: seq<Path>, queue: seq<Path>) {
    && start in visited && !Conflict(start, target)
    && (forall n :: n in visited ==> Arrives(g, start, n) && n in Ends(g) + {start})
    && (forall n :: n in queue ==> n in visited)
    && (forall n :: n in visited && n !in queue ==> Followed(g, n, target, visited))
  }

  /** Whether from start one can reach a path that conflicts with the target. */
  method HasPathAliasAware(start: Path, target: Path, curBI: BorrowInfo) returns (found: bool)
    requires curBI.Valid()
    ensures found <==> Reaches(curBI.Contents(), start, target)
  {
    ghost var g := curBI.Contents();
    if Conflict(start, target) {
      assert Walk(g, start, [], target);
      return true;
    }
    var visited, queue := [start], [start];
    ghost var unvisited := Ends(g) + {start} - ToSet(visited);
    while queue != []
      invariant Searching(g, start, target, visited, queue)
      invariant unvisited == Ends(g) + {start} - ToSet(visited)
      decreases |unvisited|, |queue|
    {
      var cur := queue[0];
      found, visited, queue := FollowBorrows(g, start, target, curBI.bySrc, cur, visited, queue);
      if found { return true; }
      ghost var now := Ends(g) + {start} - ToSet(visited);
      Smaller(now, unvisited);
      unvisited := now;
    }
    forall bs ensures !Walk(g, start, bs, target) { NoWayOut(g, start, target, visited, bs); }
    return false;
  }

  lemma {:induction false} Smaller<T>(a: set<T>, b: set<T>)
    requires a <= b
    ensures |a| <= |b| && (a != b ==> |a| < |b|)
  {
    if a != {} {
      var x :| x in a;
      Smaller(a - {x}, b - {x});
      assert a == (a - {x}) + {x} && b == (b - {x}) + {x};
    }
  }

  lemma Appended<T>(xs: seq<T>, x: T)
    ensures forall y :: y in xs + [x] <==> y in xs || y == x
  {
  }

  ghost predicate AllFollowed(borrows: seq<Borrow>, n: nat, cur: Path, target: Path, visited: seq<Path>) {
    n <= |borrows| && forall k :: 0 <= k < n ==> FollowedAlong(borrows[k], cur, target, visited)
  }

  lemma FollowedNext(borrows: seq<Borrow>, i: nat, cur: Path, target: Path, before: seq<Path>, after: seq<Path>)
    requires i < |borrows| && AllFollowed(borrows, i, cur, target, before)
    requires after == before || exists x :: after == before + [x]
    requires Conflict(borrows[i].from, cur) ==> borrows[i].to in after && !Conflict(borrows[i].to, target)
    ensures AllFollowed(borrows, i + 1, cur, target, after)
  {
    forall k | 0 <= k < i
      ensures FollowedAlong(borrows[k], cur, target, after)
    {
      assert FollowedAlong(borrows[k], cur, target, before);
    }
  }

  /** While the borrows that cur can follow are tried: cur has left the queue, and the rest of what
      Searching says of it still holds. */
  ghost predicate Trying(g: set<Borrow>, start: Path, visited0: seq<Path>, queue0: seq<Path>, visited: seq<Path>,
                         queue: seq<Path>) {
    && queue0 != []
    && (forall n :: n in visited ==> Arrives(g, start, n) && n in Ends(g) + {start})
    && (forall n :: n in visited0 ==> n in visited)
    && (forall n :: n in queue ==> n in visited)
    && (forall n :: n in visited && n !in queue ==> n in visited0 && (n == queue0[0] || n !in queue0))
    && (ToSet(visited) == ToSet(visited0) ==> queue == queue0[1..])
  }

  lemma TryingStarts(g: set<Borrow>, start: Path, target: Path, visited: seq<Path>, queue: seq<Path>)
    requires queue != [] && Searching(g, start, target, visited, queue)
    ensures Trying(g, start, visited, queue, visited, queue[1..])
  {
    assert queue == [queue[0]] + queue[1..];
  }

  lemma TryingNext(g: set<Borrow>, start: Path, visited0: seq<Path>, queue0: seq<Path>, visited: seq<Path>,
                   queue: seq<Path>, n: Path)
    requires Trying(g, start, visited0, queue0, visited, queue) && n !in visited
    requires Arrives(g, start, n) && n in Ends(g)
    ensures Trying(g, start, visited0, queue0, visited + [n], queue + [n])
  {
    Appended(visited, n);
    Appended(queue, n);
    assert n in ToSet(visited + [n]) && n !in ToSet(visited0);
  }

  method FollowBorrows(ghost g: set<Borrow>, start: Path, target: Path, borrows: seq<Borrow>, cur: Path,
                       visited0: seq<Path>, queue0: seq<Path>)
    returns (found: bool, visited: seq<Path>, queue: seq<Path>)
    requires Elements(borrows) == g && queue0 != [] && queue0[0] == cur
    requires Searching(g, start, target, visited0, queue0)
    ensures found ==> Reaches(g, start, target)
    ensures !found ==> Searching(g, start, target, visited, queue) && ToSet(visited0) <= ToSet(visited)
    ensures !found && ToSet(visited) == ToSet(visited0) ==> |queue| < |queue0|
  {
    visited, queue := visited0, queue0[1..];
    TryingStarts(g, start, target, visited0, queue0);
    assert Arrives(g, start, cur);
    for i := 0 to |borrows|
      invariant Trying(g, start, visited0, queue0, visited, queue)
      invariant AllFollowed(borrows, i, cur, target, visited)
    {
      ghost var before := visited;
      var b := borrows[i];
      assert b in Elements(borrows);
      if Conflict(b.from, cur) {
        ArrivesNext(g, start, cur, b);
        if Conflict(b.to, target) {
          ArrivedAt(g, start, b.to, target);
          return true, visited, queue;
        }
        if b.to !in visited {
          TryingNext(g, start, visited0, queue0, visited, queue, b.to);
          visited, queue := visited + [b.to], queue + [b.to];
        }
      }
      FollowedNext(borrows, i, cur, target, before, visited);
    }
    found := false;
    StillFollowed(g, start, target, borrows, cur, visited0, queue0, visited, queue);
  }

  lemma ArrivedAt(g: set<Borrow>, start: Path, n: Path, target: Path)
    requires Arrives(g, start, n) && Conflict(n, target)
    ensures Reaches(g, start, target)
  {
    if n == start {
      assert Walk(g, start, [], target);
    } else {
      var bs: seq<Borrow> :| bs != [] && bs[|bs| - 1].to == n && Walk(g, start, bs, n);
      assert Walk(g, start, bs, target);
    }
  }

  lemma StillFollowed(g: set<Borrow>, start: Path, target: Path, borrows: seq<Borrow>, cur: Path, visited0: seq<Path>,
                      queue0: seq<Path>,
                      visited: seq<Path>, queue: seq<Path>)
    requires Elements(borrows) == g && Searching(g, start, target, visited0, queue0)
    requires forall n :: n in visited0 ==> n in visited
    requires forall n :: n in visited && n !in queue ==> n in visited0 && (n == cur || n !in queue0)
    requires AllFollowed(borrows, |borrows|, cur, target, visited)
    ensures forall n :: n in visited && n !in queue ==> Followed(g, n, target, visited)
  {
    forall n | n in visited && n !in queue
      ensures Followed(g, n, target, visited)
    {
      if n == cur {
        forall b | b in g
          ensures FollowedAlong(b, cur, target, visited)
        {
          assert b in Elements(borrows);
          var k :| 0 <= k < |borrows| && borrows[k] == b;
          assert FollowedAlong(borrows[k], cur, target, visited);
        }
      } else {
        assert Followed(g, n, target, visited0);
        forall b | b in g ensures FollowedAlong(b, n, target, visited) { assert FollowedAlong(b, n, target, visited0); }
      }
    }
  }

  /** Adds a borrow in any case and reports whether it closes a cycle. */
  method AddBorrow(curBI: BorrowInfo, b: Borrow) returns (addsCycle: bool)
    requires curBI.Valid() && ValidPath(b.to) && ValidPath(b.from)
    modifies curBI
    ensures curBI.Valid() && curBI.Contents() == old(curBI.Contents()) + {b}
            && curBI.waitingToDie == old(curBI.waitingToDie)
    ensures addsCycle <==> Reaches(old(curBI.Contents()), b.to, b.from)
    ensures Acyclic(old(curBI.Contents())) ==> (Acyclic(curBI.Contents()) <==> !addsCycle)
  {
    addsCycle := HasPathAliasAware(b.to, b.from, curBI);
    ghost var g := curBI.Contents();
    if Acyclic(g) { FlagIsExact(g, b); }
    curBI.Add(b);
  }
}
