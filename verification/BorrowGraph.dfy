/** C-paths, borrows between them, and the splice that removes a dead C-path from a set of borrows. */
module BorrowGraph {

  /** A base variable followed by dereferences and fields, as numbers.  0 and MAX_PART never name a
      part: they serve as bounds. */
  type Path = seq<nat>

  const MAX_PART: nat := 0xFFFF_FFFF

  /** `to` borrows from `from`. */
  datatype Borrow = Borrow(to: Path, from: Path)

  predicate StartsWith(p: Path, prefix: Path) { |prefix| <= |p| && p[..|prefix|] == prefix }

  predicate ValidPath(p: Path) { p != [] && forall i :: 0 <= i < |p| ==> 0 < p[i] < MAX_PART }

  ghost predicate ValidBorrows(g: set<Borrow>) { forall b :: b in g ==> ValidPath(b.to) && ValidPath(b.from) }

  // ----- What a set of borrows says -----

  /** If q borrows from p then q.f borrows from p.f: an extension of a borrow. */
  ghost predicate Step(g: set<Borrow>, p: Path, q: Path) {
    exists b, s :: StepBy(g, p, q, b, s)
  }

  ghost predicate StepBy(g: set<Borrow>, p: Path, q: Path, b: Borrow, s: Path) {
    b in g && p == b.from + s && q == b.to + s
  }

  /** A directed chain of extended borrows. */
  ghost predicate Chain(g: set<Borrow>, ps: seq<Path>) {
    ps != [] && forall i :: 0 <= i < |ps| - 1 ==> Step(g, ps[i], ps[i + 1])
  }

  ghost predicate Borrows(g: set<Borrow>, p: Path, q: Path) {
    exists ps :: Chain(g, ps) && ps[0] == p && ps[|ps| - 1] == q
  }

  /** A chain of extended borrows in either direction. */
  ghost predicate Link(g: set<Borrow>, p: Path, q: Path) { Step(g, p, q) || Step(g, q, p) }

  ghost predicate Linked(g: set<Borrow>, ps: seq<Path>) {
    ps != [] && forall i :: 0 <= i < |ps| - 1 ==> Link(g, ps[i], ps[i + 1])
  }

  ghost predicate Connected(g: set<Borrow>, p: Path, q: Path) {
    exists ps :: Linked(g, ps) && ps[0] == p && ps[|ps| - 1] == q
  }

  // ----- Splicing -----

  ghost predicate Under(d: Path, p: Path) { StartsWith(p, d) }

  /** Borrows of b1.from through the dead path to b2.to: the longer of the two suffixes of the dead
      path is carried over. */
  function Through(d: Path, b1: Borrow, b2: Borrow): set<Borrow>
    requires StartsWith(b1.to, d) && StartsWith(b2.from, d)
  {
    var A, D := b1.to[|d|..], b2.from[|d|..];
    (if StartsWith(A, D) then {Borrow(b2.to + A[|D|..], b1.from)} else {})
    + (if StartsWith(D, A) then {Borrow(b2.to, b1.from + D[|A|..])} else {})
  }

  /** Two borrows into the dead path, one below the other: the deeper lender now lends to a part of
      the other. */
  function Beside(d: Path, b1: Borrow, b2: Borrow): set<Borrow>
    requires StartsWith(b1.to, d) && StartsWith(b2.to, d)
  {
    var A, D := b1.to[|d|..], b2.to[|d|..];
    if |D| > |A| && StartsWith(D, A) then {Borrow(b1.from + D[|A|..], b2.from)} else {}
  }

  function Into(g: set<Borrow>, d: Path): set<Borrow> { set b | b in g && StartsWith(b.to, d) }

  function OutOf(g: set<Borrow>, d: Path): set<Borrow> { set b | b in g && StartsWith(b.from, d) }

  ghost predicate NewBorrow(g: set<Borrow>, d: Path, n: Borrow) {
    && n.to != n.from
    && ((exists b1, b2 :: b1 in Into(g, d) && b2 in OutOf(g, d) && n in Through(d, b1, b2))
        || (exists b1, b2 :: b1 in Into(g, d) && b2 in Into(g, d) && n in Beside(d, b1, b2)))
  }

  /** after is what remains of g when d has been spliced out. */
  ghost predicate Spliced(g: set<Borrow>, d: Path, after: set<Borrow>) {
    forall n :: n in after <==> (n in g && n !in Into(g, d) && n !in OutOf(g, d)) || NewBorrow(g, d, n)
  }

  function Splice(g: set<Borrow>, d: Path): (after: set<Borrow>)
    ensures Spliced(g, d, after)
  {
    (g - Into(g, d) - OutOf(g, d))
    + (set b1, b2, n | b1 in Into(g, d) && b2 in OutOf(g, d) && n in Through(d, b1, b2) && n.to != n.from :: n)
    + (set b1, b2, n | b1 in Into(g, d) && b2 in Into(g, d) && n in Beside(d, b1, b2) && n.to != n.from :: n)
  }

  /** No borrow has both ends in the dead path. */
  ghost predicate NoLoop(g: set<Borrow>, d: Path) { Into(g, d) !! OutOf(g, d) }

  // ----- Nothing is lost when a variable dies -----

  /** No borrow ends at a proper prefix of d.  A base variable has none: see BaseHasNoPrefix. */
  ghost predicate NoneAbove(g: set<Borrow>, d: Path) {
    forall b :: b in g ==> (StartsWith(d, b.to) ==> b.to == d) && (StartsWith(d, b.from) ==> b.from == d)
  }

  lemma BaseHasNoPrefix(g: set<Borrow>, d: Path)
    requires ValidBorrows(g) && |d| == 1
    ensures NoneAbove(g, d)
  {
  }

  lemma UnderBase(d: Path, p: Path, s: Path)
    requires StartsWith(d, p) ==> p == d
    ensures Under(d, p + s) <==> Under(d, p)
  {
    if Under(d, p + s) {
      if |p| <= |d| {
        assert d[..|p|] == (p + s)[..|d|][..|p|] == p;
      } else {
        assert (p + s)[..|d|] == p[..|d|];
      }
    }
    if Under(d, p) { assert (p + s)[..|d|] == p[..|d|]; }
  }

  lemma SplitTail(A: Path, D: Path, s: Path, t: Path)
    requires A + s == D + t
    ensures |D| <= |A| ==> StartsWith(A, D) && A[|D|..] + s == t
    ensures |A| <= |D| ==> StartsWith(D, A) && D[|A|..] + t == s
  {
    if |D| <= |A| {
      assert (A + s)[..|D|] == A[..|D|] && (D + t)[..|D|] == D;
      assert (A + s)[|D|..] == A[|D|..] + s && (D + t)[|D|..] == t;
    }
    if |A| <= |D| {
      assert (D + t)[..|A|] == D[..|A|] && (A + s)[..|A|] == A;
      assert (D + t)[|A|..] == D[|A|..] + t && (A + s)[|A|..] == s;
    }
  }

  /** The spliced borrow for two borrows that meet in the dead path. */
  lemma Meet(d: Path, b1: Borrow, b2: Borrow, s: Path, t: Path) returns (n: Borrow, u: Path)
    requires StartsWith(b1.to, d) && StartsWith(b2.from, d) && b1.to + s == b2.from + t
    ensures n in Through(d, b1, b2) && b1.from + s == n.from + u && b2.to + t == n.to + u
  {
    var A, D := b1.to[|d|..], b2.from[|d|..];
    assert b1.to == d + A && b2.from == d + D;
    assert (b1.to + s)[|d|..] == A + s && (b2.from + t)[|d|..] == D + t;
    SplitTail(A, D, s, t);
    if |D| <= |A| {
      n, u := Borrow(b2.to + A[|D|..], b1.from), s;
      assert b2.to + t == b2.to + A[|D|..] + s;
    } else {
      n, u := Borrow(b2.to, b1.from + D[|A|..]), t;
      assert b1.from + s == b1.from + D[|A|..] + t;
    }
  }

  /** A step into the dead variable followed by a step out of it is one step afterwards, or none. */
  lemma StepThrough(g: set<Borrow>, d: Path, after: set<Borrow>, x: Path, y: Path, z: Path)
    requires NoneAbove(g, d) && Spliced(g, d, after)
    requires Step(g, x, y) && Step(g, y, z) && Under(d, y)
    ensures x == z || Step(after, x, z)
  {
    var b1, s :| StepBy(g, x, y, b1, s);
    var b2, t :| StepBy(g, y, z, b2, t);
    UnderBase(d, b1.to, s);
    UnderBase(d, b2.from, t);
    var n, u := Meet(d, b1, b2, s, t);
    assert b1 in Into(g, d) && b2 in OutOf(g, d);
    if n.to != n.from {
      assert NewBorrow(g, d, n);
      assert StepBy(after, x, z, n, u);
    }
  }

  lemma StepBeside(g: set<Borrow>, d: Path, after: set<Borrow>, x: Path, y: Path)
    requires NoneAbove(g, d) && Spliced(g, d, after)
    requires Step(g, x, y) && !Under(d, x) && !Under(d, y)
    ensures Step(after, x, y)
  {
    var b, s :| StepBy(g, x, y, b, s);
    UnderBase(d, b.to, s);
    UnderBase(d, b.from, s);
    assert StepBy(after, x, y, b, s);
  }

  lemma NoStepInside(g: set<Borrow>, d: Path, x: Path, y: Path)
    requires NoneAbove(g, d) && NoLoop(g, d) && Step(g, x, y) && Under(d, x)
    ensures !Under(d, y)
  {
    var b, s :| StepBy(g, x, y, b, s);
    UnderBase(d, b.to, s);
    UnderBase(d, b.from, s);
    assert b in OutOf(g, d);
  }

  lemma ChainTail(g: set<Borrow>, ps: seq<Path>, k: nat)
    requires Chain(g, ps) && k < |ps|
    ensures Chain(g, ps[k..])
  {
    var qs := ps[k..];
    forall i | 0 <= i < |qs| - 1
      ensures Step(g, qs[i], qs[i + 1])
    {
      assert Step(g, ps[k + i], ps[k + i + 1]);
    }
  }

  lemma Prepended(g: set<Borrow>, p: Path, q: Path, r: Path)
    requires p == q || Step(g, p, q)
    requires Borrows(g, q, r)
    ensures Borrows(g, p, r)
  {
    if p != q {
      var ps :| Chain(g, ps) && ps[0] == q && ps[|ps| - 1] == r;
      var qs := [p] + ps;
      forall i | 0 <= i < |qs| - 1
        ensures Step(g, qs[i], qs[i + 1])
      {
        if i > 0 { assert Step(g, ps[i - 1], ps[i - 1 + 1]); }
      }
      assert Chain(g, qs);
    }
  }

  /** Every chain between surviving paths is still there after the splice. */
  lemma {:induction false} ChainSurvives(g: set<Borrow>, d: Path, after: set<Borrow>, ps: seq<Path>)
    requires NoneAbove(g, d) && NoLoop(g, d) && Spliced(g, d, after)
    requires Chain(g, ps) && !Under(d, ps[0]) && !Under(d, ps[|ps| - 1])
    ensures Borrows(after, ps[0], ps[|ps| - 1])
    decreases |ps|
  {
    if |ps| == 1 {
      assert Chain(after, [ps[0]]);
    } else {
      assert Step(g, ps[0], ps[0 + 1]);
      if Under(d, ps[1]) {
        assert Step(g, ps[1], ps[1 + 1]);
        NoStepInside(g, d, ps[1], ps[2]);
        StepThrough(g, d, after, ps[0], ps[1], ps[2]);
        ChainTail(g, ps, 2);
        ChainSurvives(g, d, after, ps[2..]);
        Prepended(after, ps[0], ps[2], ps[|ps| - 1]);
      } else {
        StepBeside(g, d, after, ps[0], ps[1]);
        ChainTail(g, ps, 1);
        ChainSurvives(g, d, after, ps[1..]);
        Prepended(after, ps[0], ps[1], ps[|ps| - 1]);
      }
    }
  }

  /** Nothing mentions the dead path any more. */
  lemma DeadIsGone(g: set<Borrow>, d: Path, after: set<Borrow>, b: Borrow)
    requires NoneAbove(g, d) && NoLoop(g, d) && Spliced(g, d, after) && b in after
    ensures !Under(d, b.to) && !Under(d, b.from)
  {
    if NewBorrow(g, d, b) {
      if b1, b2 :| b1 in Into(g, d) && b2 in OutOf(g, d) && b in Through(d, b1, b2) {
        var A, D := b1.to[|d|..], b2.from[|d|..];
        if StartsWith(A, D) { UnderBase(d, b2.to, A[|D|..]); }
        if StartsWith(D, A) { UnderBase(d, b1.from, D[|A|..]); }
      } else {
        var b1, b2 :| b1 in Into(g, d) && b2 in Into(g, d) && b in Beside(d, b1, b2);
        UnderBase(d, b1.from, b2.to[|d|..][|b1.to[|d|..]|..]);
      }
    }
  }

  // ----- Nothing is made up -----

  lemma LinkedPair(g: set<Borrow>, p: Path, q: Path)
    requires Link(g, p, q)
    ensures Connected(g, p, q)
  {
    var ps := [p, q];
    assert Link(g, ps[0], ps[0 + 1]);
    assert Linked(g, ps);
  }

  lemma LinkedConcat(g: set<Borrow>, p: Path, q: Path, r: Path)
    requires Connected(g, p, q) && Connected(g, q, r)
    ensures Connected(g, p, r)
  {
    var ps :| Linked(g, ps) && ps[0] == p && ps[|ps| - 1] == q;
    var qs :| Linked(g, qs) && qs[0] == q && qs[|qs| - 1] == r;
    var rs := ps + qs[1..];
    forall i | 0 <= i < |rs| - 1
      ensures Link(g, rs[i], rs[i + 1])
    {
      if i < |ps| - 1 {
        assert Link(g, ps[i], ps[i + 1]);
      } else {
        assert Link(g, qs[i + 1 - |ps|], qs[i + 1 - |ps| + 1]);
      }
    }
    assert Linked(g, rs);
  }

  lemma ExtendedStep(g: set<Borrow>, b: Borrow, s: Path)
    requires b in g
    ensures Step(g, b.from + s, b.to + s)
  {
    assert StepBy(g, b.from + s, b.to + s, b, s);
  }

  /** Two extended borrows that meet connect their other ends. */
  lemma MeetingConnects(g: set<Borrow>, b1: Borrow, b2: Borrow, s: Path, t: Path)
    requires b1 in g && b2 in g
    ensures b1.to + s == b2.from + t ==> Connected(g, b1.from + s, b2.to + t)
    ensures b1.to + s == b2.to + t ==> Connected(g, b2.from + t, b1.from + s)
  {
    ExtendedStep(g, b1, s);
    ExtendedStep(g, b2, t);
    LinkedPair(g, b1.from + s, b1.to + s);
    LinkedPair(g, b1.to + s, b1.from + s);
    LinkedPair(g, b2.from + t, b2.to + t);
    if b1.to + s == b2.from + t { LinkedConcat(g, b1.from + s, b1.to + s, b2.to + t); }
    if b1.to + s == b2.to + t { LinkedConcat(g, b2.from + t, b2.to + t, b1.from + s); }
  }

  /** Where the suffix of q is longer, the rest of it carries p to the same path. */
  lemma SameBelow(d: Path, p: Path, q: Path, s: Path)
    requires StartsWith(p, d) && StartsWith(q, d) && StartsWith(q[|d|..], p[|d|..])
    ensures p + (q[|d|..][|p[|d|..]|..] + s) == q + s
  {
    var A, D := p[|d|..], q[|d|..];
    assert p == d + A && q == d + D && D == A + D[|A|..];
  }

  lemma ThroughIsConnected(g: set<Borrow>, d: Path, b1: Borrow, b2: Borrow, n: Borrow, s: Path)
    requires b1 in g && b2 in g && StartsWith(b1.to, d) && StartsWith(b2.from, d) && n in Through(d, b1, b2)
    ensures Connected(g, n.from + s, n.to + s)
  {
    var A, D := b1.to[|d|..], b2.from[|d|..];
    if StartsWith(A, D) && n == Borrow(b2.to + A[|D|..], b1.from) {
      SameBelow(d, b2.from, b1.to, s);
      MeetingConnects(g, b1, b2, s, A[|D|..] + s);
      assert n.to + s == b2.to + (A[|D|..] + s);
    } else {
      SameBelow(d, b1.to, b2.from, s);
      MeetingConnects(g, b1, b2, D[|A|..] + s, s);
      assert n.from + s == b1.from + (D[|A|..] + s);
    }
  }

  lemma BesideIsConnected(g: set<Borrow>, d: Path, b1: Borrow, b2: Borrow, n: Borrow, s: Path)
    requires b1 in g && b2 in g && StartsWith(b1.to, d) && StartsWith(b2.to, d) && n in Beside(d, b1, b2)
    ensures Connected(g, n.from + s, n.to + s)
  {
    var A, D := b1.to[|d|..], b2.to[|d|..];
    SameBelow(d, b1.to, b2.to, s);
    MeetingConnects(g, b1, b2, D[|A|..] + s, s);
    assert n.to + s == b1.from + (D[|A|..] + s);
  }

  /** Every new borrow, extended, joins paths that the old borrows connected already. */
  lemma NewIsConnected(g: set<Borrow>, d: Path, n: Borrow, s: Path)
    requires NewBorrow(g, d, n)
    ensures Connected(g, n.from + s, n.to + s)
  {
    if b1, b2 :| b1 in Into(g, d) && b2 in OutOf(g, d) && n in Through(d, b1, b2) {
      ThroughIsConnected(g, d, b1, b2, n, s);
    } else {
      var b1, b2 :| b1 in Into(g, d) && b2 in Into(g, d) && n in Beside(d, b1, b2);
      BesideIsConnected(g, d, b1, b2, n, s);
    }
  }

  lemma LinkedReversed(g: set<Borrow>, p: Path, q: Path)
    requires Connected(g, p, q)
    ensures Connected(g, q, p)
  {
    var ps :| Linked(g, ps) && ps[0] == p && ps[|ps| - 1] == q;
    var rs := seq(|ps|, i requires 0 <= i < |ps| => ps[|ps| - 1 - i]);
    forall i | 0 <= i < |rs| - 1
      ensures Link(g, rs[i], rs[i + 1])
    {
      assert Link(g, ps[|ps| - 2 - i], ps[|ps| - 2 - i + 1]);
    }
    assert Linked(g, rs);
  }

  lemma StepWasConnected(g: set<Borrow>, d: Path, after: set<Borrow>, p: Path, q: Path)
    requires Spliced(g, d, after) && Step(after, p, q)
    ensures Connected(g, p, q)
  {
    var b, s :| StepBy(after, p, q, b, s);
    if b in g {
      ExtendedStep(g, b, s);
      LinkedPair(g, p, q);
    } else {
      NewIsConnected(g, d, b, s);
    }
  }

  /** Whatever the spliced borrows connect was connected before. */
  lemma {:induction false} ConnectionWasThere(g: set<Borrow>, d: Path, after: set<Borrow>, ps: seq<Path>)
    requires Spliced(g, d, after) && Linked(after, ps)
    ensures Connected(g, ps[0], ps[|ps| - 1])
  {
    if |ps| == 1 {
      assert Linked(g, ps);
    } else {
      assert Link(after, ps[0], ps[0 + 1]);
      if Step(after, ps[0], ps[1]) {
        StepWasConnected(g, d, after, ps[0], ps[1]);
      } else {
        StepWasConnected(g, d, after, ps[1], ps[0]);
        LinkedReversed(g, ps[1], ps[0]);
      }
      var rest := ps[1..];
      forall i | 0 <= i < |rest| - 1
        ensures Link(after, rest[i], rest[i + 1])
      {
        assert Link(after, ps[i + 1], ps[i + 1 + 1]);
      }
      ConnectionWasThere(g, d, after, rest);
      LinkedConcat(g, ps[0], ps[1], ps[|ps| - 1]);
    }
  }

  // ----- The main statements -----

  ghost predicate LosesNothing(g: set<Borrow>, d: Path, after: set<Borrow>) {
    forall p, q :: !Under(d, p) && !Under(d, q) && Borrows(g, p, q) ==> Borrows(after, p, q)
  }

  /** Killing a path above which no borrow ends: no borrowing between surviving paths is lost, the
      dead path is not mentioned any more, and nothing unconnected becomes connected. */
  lemma SpliceIsExact(g: set<Borrow>, d: Path, after: set<Borrow>)
    requires NoneAbove(g, d) && NoLoop(g, d) && Spliced(g, d, after)
    ensures LosesNothing(g, d, after)
    ensures forall b :: b in after ==> !Under(d, b.to) && !Under(d, b.from)
    ensures forall p, q :: Connected(after, p, q) ==> Connected(g, p, q)
  {
    forall p, q | !Under(d, p) && !Under(d, q) && Borrows(g, p, q)
      ensures Borrows(after, p, q)
    {
      var ps :| Chain(g, ps) && ps[0] == p && ps[|ps| - 1] == q;
      ChainSurvives(g, d, after, ps);
    }
    forall b | b in after
      ensures !Under(d, b.to) && !Under(d, b.from)
    {
      DeadIsGone(g, d, after, b);
    }
    forall p, q | Connected(after, p, q)
      ensures Connected(g, p, q)
    {
      var ps :| Linked(after, ps) && ps[0] == p && ps[|ps| - 1] == q;
      ConnectionWasThere(g, d, after, ps);
    }
  }

  lemma {:induction false} StartsStayAmong(g: set<Borrow>, ps: seq<Path>, heads: set<nat>)
    requires Chain(g, ps) && ps[0] != [] && ps[0][0] in heads
    requires forall b :: b in g ==> b.to != [] && b.from != [] && b.to[0] in heads
    ensures ps[|ps| - 1] != [] && ps[|ps| - 1][0] in heads
    decreases |ps|
  {
    if |ps| > 1 {
      assert Step(g, ps[0], ps[0 + 1]);
      var b, s :| StepBy(g, ps[0], ps[1], b, s);
      ChainTail(g, ps, 1);
      StartsStayAmong(g, ps[1..], heads);
    }
  }

  /** For a longer path a borrow can end above it, and is then not spliced: w lends to d[0], so
      w.rest lends to d, which lends to u; killing d loses that. */
  ghost function Lenders(d: Path, w: nat, u: nat): set<Borrow>
    requires d != []
  {
    {Borrow([d[0]], [w]), Borrow([u], d)}
  }

  lemma LendersSpliced(d: Path, w: nat, u: nat)
    requires |d| > 1 && u != d[0]
    ensures NoLoop(Lenders(d, w, u), d) && Spliced(Lenders(d, w, u), d, {Borrow([d[0]], [w])})
  {
    var g := Lenders(d, w, u);
    forall b | b in g ensures |b.to| == 1 { }
    forall n ensures !NewBorrow(g, d, n) {
    }
    assert StartsWith(d, d);
    assert |[w]| < |d|;
  }

  lemma LendersLend(d: Path, w: nat, u: nat)
    requires d != []
    ensures Borrows(Lenders(d, w, u), [w] + d[1..], [u])
  {
    var g, p := Lenders(d, w, u), [w] + d[1..];
    var ps := [p, d, [u]];
    assert d == [d[0]] + d[1..];
    assert StepBy(g, p, d, Borrow([d[0]], [w]), d[1..]);
    assert StepBy(g, d, [u], Borrow([u], d), []) by { assert d + [] == d && [u] + [] == [u]; }
    assert Step(g, ps[0], ps[1]) && Step(g, ps[1], ps[2]);
    assert Chain(g, ps);
  }

  lemma LenderLost(d: Path, w: nat, u: nat)
    requires d != [] && u != d[0] && u != w
    ensures !Borrows({Borrow([d[0]], [w])}, [w] + d[1..], [u])
  {
    var after, p := {Borrow([d[0]], [w])}, [w] + d[1..];
    if Borrows(after, p, [u]) {
      var qs :| Chain(after, qs) && qs[0] == p && qs[|qs| - 1] == [u];
      StartsStayAmong(after, qs, {w, d[0]});
    }
  }

  lemma LongerPathLoses(d: Path, w: nat, u: nat)
    requires ValidPath(d) && |d| > 1 && 0 < w < MAX_PART && 0 < u < MAX_PART && w != d[0] && u != d[0] && u != w
    ensures exists g, after :: ValidBorrows(g) && NoLoop(g, d) && Spliced(g, d, after) && !LosesNothing(g, d, after)
  {
    var g, after := Lenders(d, w, u), {Borrow([d[0]], [w])};
    LendersSpliced(d, w, u);
    LendersLend(d, w, u);
    LenderLost(d, w, u);
    var p, q := [w] + d[1..], [u];
    assert p[..|d|][0] == w;
    assert !Under(d, p) && !Under(d, q) && Borrows(g, p, q) && !Borrows(after, p, q);
    assert !LosesNothing(g, d, after);
  }

  /** Killing d is safe for every set of borrows exactly when d is a base variable. */
  lemma LosesNothingIffBase(d: Path)
    requires ValidPath(d)
    ensures |d| == 1 <==>
            forall g, after :: ValidBorrows(g) && NoLoop(g, d) && Spliced(g, d, after) ==> LosesNothing(g, d, after)
  {
    if |d| == 1 {
      forall g, after | ValidBorrows(g) && NoLoop(g, d) && Spliced(g, d, after)
        ensures LosesNothing(g, d, after)
      {
        BaseHasNoPrefix(g, d);
        SpliceIsExact(g, d, after);
      }
    } else {
      var w, u := if d[0] == 1 then 2 else 1, if d[0] == 3 then 2 else 3;
      LongerPathLoses(d, w, u);
    }
  }

  // ----- Borrows from the dead variable into itself -----

  /** Splicing b2 after b1 makes a borrow between different paths: the ends that meet in the dead
      path lie on one branch, and what is made is not a borrow of a path from itself. */
  ghost predicate JoinsThrough(b1: Borrow, b2: Borrow) {
    || (StartsWith(b1.to, b2.from) && b2.to + b1.to[|b2.from|..] != b1.from)
    || (StartsWith(b2.from, b1.to) && b2.to != b1.from + b2.from[|b1.to|..])
  }

  /** The same for two borrows into the dead path, the second strictly below the first. */
  ghost predicate JoinsBeside(b1: Borrow, b2: Borrow) {
    |b2.to| > |b1.to| && StartsWith(b2.to, b1.to) && b1.from + b2.to[|b1.to|..] != b2.from
  }

  /** A borrow e of the dead variable from itself meets another borrow of the variable, or itself. */
  ghost predicate LoopMeets(g: set<Borrow>, d: Path, e: Borrow, b: Borrow) {
    && e in g && b in g && Under(d, e.to) && Under(d, e.from)
    && ((Under(d, b.to) && (JoinsThrough(b, e) || JoinsBeside(b, e) || JoinsBeside(e, b)))
        || (Under(d, b.from) && JoinsThrough(e, b)))
  }

  lemma TailStarts(d: Path, p: Path, q: Path)
    requires StartsWith(p, d) && StartsWith(q, d)
    ensures StartsWith(p[|d|..], q[|d|..]) <==> StartsWith(p, q)
    ensures StartsWith(p, q) ==> p[|d|..][|q[|d|..]|..] == p[|q|..]
  {
    assert p == d + p[|d|..] && q == d + q[|d|..];
    if StartsWith(p, q) { assert p[|d|..][..|q| - |d|] == p[..|q|][|d|..]; }
    if StartsWith(p[|d|..], q[|d|..]) { assert p[..|q|] == d + p[|d|..][..|q| - |d|]; }
  }

  /** Which borrows two borrows make, in terms of whole paths. */
  lemma ThroughMakes(d: Path, b1: Borrow, b2: Borrow)
    requires StartsWith(b1.to, d) && StartsWith(b2.from, d)
    ensures Through(d, b1, b2) ==
            (if StartsWith(b1.to, b2.from) then {Borrow(b2.to + b1.to[|b2.from|..], b1.from)} else {})
            + (if StartsWith(b2.from, b1.to) then {Borrow(b2.to, b1.from + b2.from[|b1.to|..])} else {})
  {
    TailStarts(d, b1.to, b2.from);
    TailStarts(d, b2.from, b1.to);
  }

  lemma BesideMakes(d: Path, b1: Borrow, b2: Borrow)
    requires StartsWith(b1.to, d) && StartsWith(b2.to, d)
    ensures Beside(d, b1, b2) ==
            if |b2.to| > |b1.to| && StartsWith(b2.to, b1.to) then {Borrow(b1.from + b2.to[|b1.to|..], b2.from)} else {}
  {
    TailStarts(d, b2.to, b1.to);
  }

  lemma ThroughMentions(g: set<Borrow>, d: Path, b1: Borrow, b2: Borrow, n: Borrow)
    requires NoneAbove(g, d) && b1 in Into(g, d) && b2 in OutOf(g, d) && n in Through(d, b1, b2) && n.to != n.from
    ensures JoinsThrough(b1, b2) && (Under(d, n.to) ==> Under(d, b2.to)) && (Under(d, n.from) ==> Under(d, b1.from))
  {
    ThroughMakes(d, b1, b2);
    if StartsWith(b1.to, b2.from) { UnderBase(d, b2.to, b1.to[|b2.from|..]); }
    if StartsWith(b2.from, b1.to) { UnderBase(d, b1.from, b2.from[|b1.to|..]); }
  }

  lemma BesideMentions(g: set<Borrow>, d: Path, b1: Borrow, b2: Borrow, n: Borrow)
    requires NoneAbove(g, d) && b1 in Into(g, d) && b2 in Into(g, d) && n in Beside(d, b1, b2) && n.to != n.from
    ensures JoinsBeside(b1, b2) && (Under(d, n.to) ==> Under(d, b1.from)) && (Under(d, n.from) ==> Under(d, b2.from))
  {
    BesideMakes(d, b1, b2);
    UnderBase(d, b1.from, b2.to[|b1.to|..]);
  }

  /** What two borrows make mentions the base variable only if one of them is a loop at it. */
  lemma MentionIsLoop(g: set<Borrow>, d: Path, after: set<Borrow>, n: Borrow)
    requires ValidBorrows(g) && |d| == 1 && Spliced(g, d, after) && n in after && (Under(d, n.to) || Under(d, n.from))
    ensures exists e, b :: LoopMeets(g, d, e, b)
  {
    BaseHasNoPrefix(g, d);
    assert NewBorrow(g, d, n);
    if b1, b2 :| b1 in Into(g, d) && b2 in OutOf(g, d) && n in Through(d, b1, b2) {
      ThroughMentions(g, d, b1, b2, n);
      assert if Under(d, n.to) then LoopMeets(g, d, b2, b1) else LoopMeets(g, d, b1, b2);
    } else {
      var b1, b2 :| b1 in Into(g, d) && b2 in Into(g, d) && n in Beside(d, b1, b2);
      BesideMentions(g, d, b1, b2, n);
      assert if Under(d, n.to) then LoopMeets(g, d, b1, b2) else LoopMeets(g, d, b2, b1);
    }
  }

  lemma JoinsThroughStays(g: set<Borrow>, d: Path, after: set<Borrow>, b1: Borrow, b2: Borrow) returns (n: Borrow)
    requires ValidBorrows(g) && |d| == 1 && Spliced(g, d, after) && b1 in Into(g, d) && b2 in OutOf(g, d)
             && JoinsThrough(b1, b2)
    requires Under(d, b1.from) || Under(d, b2.to)
    ensures n in after && (Under(d, n.to) || Under(d, n.from))
  {
    BaseHasNoPrefix(g, d);
    ThroughMakes(d, b1, b2);
    if StartsWith(b1.to, b2.from) && b2.to + b1.to[|b2.from|..] != b1.from {
      n := Borrow(b2.to + b1.to[|b2.from|..], b1.from);
      UnderBase(d, b2.to, b1.to[|b2.from|..]);
    } else {
      n := Borrow(b2.to, b1.from + b2.from[|b1.to|..]);
      UnderBase(d, b1.from, b2.from[|b1.to|..]);
    }
    assert NewBorrow(g, d, n);
  }

  lemma JoinsBesideStays(g: set<Borrow>, d: Path, after: set<Borrow>, b1: Borrow, b2: Borrow) returns (n: Borrow)
    requires ValidBorrows(g) && |d| == 1 && Spliced(g, d, after) && b1 in Into(g, d) && b2 in Into(g, d)
             && JoinsBeside(b1, b2)
    requires Under(d, b1.from) || Under(d, b2.from)
    ensures n in after && (Under(d, n.to) || Under(d, n.from))
  {
    BaseHasNoPrefix(g, d);
    BesideMakes(d, b1, b2);
    n := Borrow(b1.from + b2.to[|b1.to|..], b2.from);
    UnderBase(d, b1.from, b2.to[|b1.to|..]);
    assert NewBorrow(g, d, n);
  }

  lemma LoopStays(g: set<Borrow>, d: Path, after: set<Borrow>, e: Borrow, b: Borrow) returns (n: Borrow)
    requires ValidBorrows(g) && |d| == 1 && Spliced(g, d, after) && LoopMeets(g, d, e, b)
    ensures n in after && (Under(d, n.to) || Under(d, n.from))
  {
    if Under(d, b.to) && JoinsThrough(b, e) {
      n := JoinsThroughStays(g, d, after, b, e);
    } else if Under(d, b.to) && JoinsBeside(b, e) {
      n := JoinsBesideStays(g, d, after, b, e);
    } else if Under(d, b.to) && JoinsBeside(e, b) {
      n := JoinsBesideStays(g, d, after, e, b);
    } else {
      n := JoinsThroughStays(g, d, after, e, b);
    }
  }

  /** A base variable is forgotten by its death exactly when no borrow of the variable from itself
      meets another of its borrows.  Having no such borrow at all (NoLoop) is enough. */
  lemma DeadIsGoneIff(g: set<Borrow>, d: Path)
    requires ValidBorrows(g) && |d| == 1
    ensures (forall n :: n in Splice(g, d) ==> !Under(d, n.to) && !Under(d, n.from))
            <==> !exists e, b :: LoopMeets(g, d, e, b)
    ensures NoLoop(g, d) ==> !exists e, b :: LoopMeets(g, d, e, b)
  {
    var after := Splice(g, d);
    if n :| n in after && (Under(d, n.to) || Under(d, n.from)) { MentionIsLoop(g, d, after, n); }
    if e, b :| LoopMeets(g, d, e, b) {
      var n := LoopStays(g, d, after, e, b);
      assert e in Into(g, d) && e in OutOf(g, d);
    }
  }

  /** With a borrow from the dead variable into itself the variable can survive its own death. */
  lemma LoopKeepsDead(v: nat, p: nat) returns (g: set<Borrow>, b: Borrow)
    requires 0 < v < MAX_PART && 0 < p < MAX_PART && p != v
    ensures ValidBorrows(g) && !NoLoop(g, [v]) && b in Splice(g, [v]) && Under([v], b.to)
  {
    var loop, lent := Borrow([v, 1], [v]), Borrow([v], [p]);
    g, b := {loop, lent}, Borrow([v, 1], [p]);
    LoopThrough(v, p);
    assert lent in Into(g, [v]) && loop in OutOf(g, [v]) && loop in Into(g, [v]);
    assert NewBorrow(g, [v], b);
  }

  lemma LoopThrough(v: nat, p: nat)
    ensures Borrow([v, 1], [p]) in Through([v], Borrow([v], [p]), Borrow([v, 1], [v]))
  {
    assert [v][1..] == [] && [v, 1] + [] == [v, 1];
  }

  // ----- Renaming a base variable -----

  /** n is p with another base where p has this one; the rest of the path is the same. */
  ghost predicate SameButBase(p: Path, n: Path, base: nat, renamed: nat) {
    p != [] && n != [] && |n| == |p| && n[1..] == p[1..] && n[0] == if p[0] == base then renamed else p[0]
  }

  ghost predicate RenamedTo(b: Borrow, n: Borrow, base: nat, renamed: nat) {
    SameButBase(b.to, n.to, base, renamed) && SameButBase(b.from, n.from, base, renamed)
  }

  ghost predicate WasRenamed(g: set<Borrow>, n: Borrow, base: nat, renamed: nat) {
    exists b :: b in g && RenamedTo(b, n, base, renamed)
  }

  /** after holds each borrow of g, with the base renamed at both ends, and nothing else. */
  ghost predicate IsRenaming(g: set<Borrow>, after: set<Borrow>, base: nat, renamed: nat) {
    forall n :: n in after <==> WasRenamed(g, n, base, renamed)
  }

  /** No borrow uses the variable yet. */
  ghost predicate FreshBase(g: set<Borrow>, v: nat) {
    forall b :: b in g ==> b.to != [] && b.from != [] && b.to[0] != v && b.from[0] != v
  }

  function Rebased(p: Path, base: nat, renamed: nat): (n: Path)
    requires p != []
    ensures SameButBase(p, n, base, renamed)
  {
    if p[0] == base then p[0 := renamed] else p
  }

  lemma RebasedOnly(p: Path, n: Path, base: nat, renamed: nat)
    requires SameButBase(p, n, base, renamed)
    ensures n == Rebased(p, base, renamed)
  {
    assert n == [n[0]] + n[1..] && p == [p[0]] + p[1..];
  }

  function RebasedBorrow(b: Borrow, base: nat, renamed: nat): (n: Borrow)
    requires b.to != [] && b.from != []
    ensures RenamedTo(b, n, base, renamed)
  {
    Borrow(Rebased(b.to, base, renamed), Rebased(b.from, base, renamed))
  }

  lemma IsThere(g: set<Borrow>, after: set<Borrow>, base: nat, renamed: nat, b: Borrow)
    requires IsRenaming(g, after, base, renamed) && b in g && b.to != [] && b.from != []
    ensures RebasedBorrow(b, base, renamed) in after
  {
    assert WasRenamed(g, RebasedBorrow(b, base, renamed), base, renamed);
  }

  lemma BackAgain(b: Borrow, n: Borrow, base: nat, renamed: nat)
    requires RenamedTo(b, n, base, renamed) && b.to[0] != renamed && b.from[0] != renamed
    ensures b == RebasedBorrow(n, renamed, base)
  {
    RebasedOnly(n.to, b.to, renamed, base);
    RebasedOnly(n.from, b.from, renamed, base);
  }

  /** Renaming a variable to a fresh one can be taken back. */
  lemma RenamingUndone(g: set<Borrow>, after: set<Borrow>, base: nat, renamed: nat)
    requires IsRenaming(g, after, base, renamed) && FreshBase(g, renamed)
    ensures IsRenaming(after, g, renamed, base) && forall n :: n in after ==> n.to != [] && n.from != []
  {
    forall b
      ensures b in g <==> WasRenamed(after, b, renamed, base)
    {
      if b in g {
        IsThere(g, after, base, renamed, b);
        assert RenamedTo(RebasedBorrow(b, base, renamed), b, renamed, base);
      }
      if WasRenamed(after, b, renamed, base) {
        var n :| n in after && RenamedTo(n, b, renamed, base);
        assert WasRenamed(g, n, base, renamed);
        var b' :| b' in g && RenamedTo(b', n, base, renamed);
        BackAgain(b', n, base, renamed);
        RebasedOnly(n.to, b.to, renamed, base);
        RebasedOnly(n.from, b.from, renamed, base);
      }
    }
  }

  ghost predicate NoneEmpty(g: set<Borrow>) { forall b :: b in g ==> b.to != [] && b.from != [] }

  lemma StepRenamed(g: set<Borrow>, after: set<Borrow>, base: nat, renamed: nat, p: Path, q: Path)
    requires IsRenaming(g, after, base, renamed) && NoneEmpty(g) && Step(g, p, q)
    ensures p != [] && q != [] && Step(after, Rebased(p, base, renamed), Rebased(q, base, renamed))
  {
    var b, s :| StepBy(g, p, q, b, s);
    var n := RebasedBorrow(b, base, renamed);
    IsThere(g, after, base, renamed, b);
    assert Rebased(b.from + s, base, renamed) == n.from + s && Rebased(b.to + s, base, renamed) == n.to + s;
    assert StepBy(after, Rebased(p, base, renamed), Rebased(q, base, renamed), n, s);
  }

  lemma {:induction false} ChainRenamed(g: set<Borrow>, after: set<Borrow>, base: nat, renamed: nat, ps: seq<Path>)
    requires IsRenaming(g, after, base, renamed) && NoneEmpty(g) && Chain(g, ps) && ps[0] != []
    ensures ps[|ps| - 1] != []
    ensures Borrows(after, Rebased(ps[0], base, renamed), Rebased(ps[|ps| - 1], base, renamed))
    decreases |ps|
  {
    if |ps| == 1 {
      assert Chain(after, [Rebased(ps[0], base, renamed)]);
    } else {
      assert Step(g, ps[0], ps[1]);
      StepRenamed(g, after, base, renamed, ps[0], ps[1]);
      ChainTail(g, ps, 1);
      ChainRenamed(g, after, base, renamed, ps[1..]);
      Prepended(after, Rebased(ps[0], base, renamed), Rebased(ps[1], base, renamed),
        Rebased(ps[|ps| - 1], base, renamed));
    }
  }

  lemma BorrowsRenamed(g: set<Borrow>, after: set<Borrow>, base: nat, renamed: nat, p: Path, q: Path)
    requires IsRenaming(g, after, base, renamed) && NoneEmpty(g) && Borrows(g, p, q) && p != []
    ensures q != [] && Borrows(after, Rebased(p, base, renamed), Rebased(q, base, renamed))
  {
    var ps :| Chain(g, ps) && ps[0] == p && ps[|ps| - 1] == q;
    ChainRenamed(g, after, base, renamed, ps);
  }

  /** Renaming a variable to a fresh one keeps exactly the chains that there were, under the new name. */
  lemma RenamingKeepsChains(g: set<Borrow>, after: set<Borrow>, base: nat, renamed: nat, p: Path, q: Path, p': Path,
                            q': Path)
    requires IsRenaming(g, after, base, renamed) && FreshBase(g, renamed) && SameButBase(p, p', base, renamed)
    requires SameButBase(q, q', base, renamed) && p[0] != renamed && q[0] != renamed
    ensures Borrows(g, p, q) <==> Borrows(after, p', q')
  {
    RebasedOnly(p, p', base, renamed);
    RebasedOnly(q, q', base, renamed);
    if Borrows(g, p, q) { BorrowsRenamed(g, after, base, renamed, p, q); }
    if Borrows(after, p', q') {
      RenamingUndone(g, after, base, renamed);
      BorrowsRenamed(after, g, renamed, base, p', q');
      assert Rebased(p', renamed, base) == p && Rebased(q', renamed, base) == q;
    }
  }
}
