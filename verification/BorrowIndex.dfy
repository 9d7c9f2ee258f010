/** The borrows in effect, kept in two ordered indexes: by (from, to) and by (to, from).  Scans
    between two bounds find the borrows rooted at a path. */
module BorrowIndex {
  import opened BorrowGraph

  // ----- Lexicographic order -----

  predicate Lt(p: Path, q: Path) {
    if q == [] then false
    else if p == [] then true
    else p[0] < q[0] || (p[0] == q[0] && Lt(p[1..], q[1..]))
  }

  lemma {:induction false} LtTotal(p: Path, q: Path)
    ensures Lt(p, q) || p == q || Lt(q, p)
    ensures !(Lt(p, q) && Lt(q, p)) && !Lt(p, p)
  {
    if p != [] { LtTotal(p[1..], p[1..]); }
    if p != [] && q != [] {
      LtTotal(p[1..], q[1..]);
      assert p == [p[0]] + p[1..] && q == [q[0]] + q[1..];
    }
  }

  lemma {:induction false} LtTransitive(p: Path, q: Path, r: Path)
    requires Lt(p, q) && Lt(q, r)
    ensures Lt(p, r)
  {
    if p != [] && p[0] == q[0] == r[0] { LtTransitive(p[1..], q[1..], r[1..]); }
  }

  /** From d up to, not including, d + [MAX_PART] lie exactly the extensions of d. */
  lemma {:induction false} PrefixRange(p: Path, d: Path)
    requires forall i :: 0 <= i < |p| ==> p[i] < MAX_PART
    ensures !Lt(p, d) && Lt(p, d + [MAX_PART]) <==> StartsWith(p, d)
  {
    if d == [] {
      if p != [] { assert (d + [MAX_PART])[0] == MAX_PART; }
    } else if p != [] {
      assert (d + [MAX_PART])[1..] == d[1..] + [MAX_PART];
      PrefixRange(p[1..], d[1..]);
      assert StartsWith(p, d) <==> p[0] == d[0] && StartsWith(p[1..], d[1..]) by {
        if StartsWith(p, d) { assert p[1..][..|d| - 1] == p[..|d|][1..]; }
        if p[0] == d[0] && StartsWith(p[1..], d[1..]) { assert p[..|d|] == [p[0]] + p[1..][..|d| - 1]; }
      }
    }
  }

  /** From d to d + [0] lies only d itself. */
  lemma {:induction false} EqualRange(p: Path, d: Path)
    requires forall i :: 0 <= i < |p| ==> 0 < p[i]
    ensures !Lt(p, d) && Lt(p, d + [0]) <==> p == d
  {
    if d != [] && p != [] {
      assert (d + [0])[1..] == d[1..] + [0];
      EqualRange(p[1..], d[1..]);
      assert p == [p[0]] + p[1..] && d == [d[0]] + d[1..];
    }
  }

  // ----- An ordered index -----

  function Major(b: Borrow, bySrc: bool): Path { if bySrc then b.from else b.to }

  function Minor(b: Borrow, bySrc: bool): Path { if bySrc then b.to else b.from }

  predicate Before(x: Borrow, y: Borrow, bySrc: bool) {
    || Lt(Major(x, bySrc), Major(y, bySrc))
    || (!Lt(Major(y, bySrc), Major(x, bySrc)) && Lt(Minor(x, bySrc), Minor(y, bySrc)))
  }

  lemma BeforeTotal(x: Borrow, y: Borrow, bySrc: bool)
    ensures Before(x, y, bySrc) || x == y || Before(y, x, bySrc)
    ensures !(Before(x, y, bySrc) && Before(y, x, bySrc)) && !Before(x, x, bySrc)
  {
    LtTotal(Major(x, bySrc), Major(y, bySrc));
    LtTotal(Minor(x, bySrc), Minor(y, bySrc));
    LtTotal(x.to, x.to);
    LtTotal(x.from, x.from);
  }

  lemma BeforeTransitive(x: Borrow, y: Borrow, z: Borrow, bySrc: bool)
    requires Before(x, y, bySrc) && Before(y, z, bySrc)
    ensures Before(x, z, bySrc)
  {
    LtTotal(Major(x, bySrc), Major(y, bySrc));
    LtTotal(Major(y, bySrc), Major(z, bySrc));
    if Lt(Major(x, bySrc), Major(y, bySrc)) && Lt(Major(y, bySrc), Major(z, bySrc)) {
      LtTransitive(Major(x, bySrc), Major(y, bySrc), Major(z, bySrc));
    } else if Major(x, bySrc) == Major(y, bySrc) == Major(z, bySrc) {
      LtTransitive(Minor(x, bySrc), Minor(y, bySrc), Minor(z, bySrc));
    }
  }

  ghost predicate Ordered(xs: seq<Borrow>, bySrc: bool) {
    forall i, j :: 0 <= i < j < |xs| ==> Before(xs[i], xs[j], bySrc)
  }

  /** The first position whose element does not come before the key. */
  function LowerBound(xs: seq<Borrow>, key: Borrow, bySrc: bool): (i: nat)
    ensures i <= |xs| && (forall j :: 0 <= j < i ==> Before(xs[j], key, bySrc))
            && (i < |xs| ==> !Before(xs[i], key, bySrc))
  {
    if xs == [] || !Before(xs[0], key, bySrc) then 0 else
      var i := LowerBound(xs[1..], key, bySrc);
      assert forall j :: 0 < j < i + 1 ==> xs[j] == xs[1..][j - 1];
      i + 1
  }

  /** In an ordered index, what comes before a key ends at one position. */
  lemma BeforeEndsAt(xs: seq<Borrow>, key: Borrow, bySrc: bool, i: nat, j: nat)
    requires Ordered(xs, bySrc) && i < j < |xs| && Before(xs[j], key, bySrc)
    ensures Before(xs[i], key, bySrc)
  {
    BeforeTransitive(xs[i], xs[j], key, bySrc);
  }

  lemma AfterStartsAt(xs: seq<Borrow>, key: Borrow, bySrc: bool, i: nat, j: nat)
    requires Ordered(xs, bySrc) && i < j < |xs| && Before(key, xs[i], bySrc)
    ensures Before(key, xs[j], bySrc)
  {
    BeforeTransitive(key, xs[i], xs[j], bySrc);
  }

  lemma AfterLowerBound(xs: seq<Borrow>, key: Borrow, bySrc: bool, j: nat)
    requires Ordered(xs, bySrc) && j < |xs|
    ensures j < LowerBound(xs, key, bySrc) <==> Before(xs[j], key, bySrc)
  {
    var i := LowerBound(xs, key, bySrc);
    if i < j && Before(xs[j], key, bySrc) { BeforeEndsAt(xs, key, bySrc, i, j); }
  }

  function Inserted(xs: seq<Borrow>, b: Borrow, bySrc: bool): seq<Borrow> {
    var i := LowerBound(xs, b, bySrc);
    if i < |xs| && xs[i] == b then xs else xs[..i] + [b] + xs[i..]
  }

  lemma InsertedOrdered(xs: seq<Borrow>, b: Borrow, bySrc: bool)
    requires Ordered(xs, bySrc)
    ensures Ordered(Inserted(xs, b, bySrc), bySrc) && Elements(Inserted(xs, b, bySrc)) == Elements(xs) + {b}
  {
    var i := LowerBound(xs, b, bySrc);
    if i < |xs| && xs[i] == b {
      assert Elements(xs) == Elements(xs) + {b};
    } else {
      forall k: nat | i <= k < |xs| ensures Before(b, xs[k], bySrc) { AboveInserted(xs, b, bySrc, i, k); }
      PutBetween(xs, b, bySrc, i);
    }
  }

  lemma AboveInserted(xs: seq<Borrow>, b: Borrow, bySrc: bool, i: nat, k: nat)
    requires Ordered(xs, bySrc) && i <= k < |xs| && xs[i] != b && !Before(xs[i], b, bySrc)
    ensures Before(b, xs[k], bySrc)
  {
    BeforeTotal(xs[i], b, bySrc);
    if i < k { AfterStartsAt(xs, b, bySrc, i, k); }
  }

  lemma PutBetween(xs: seq<Borrow>, b: Borrow, bySrc: bool, i: nat)
    requires Ordered(xs, bySrc) && i <= |xs| && (forall j :: 0 <= j < i ==> Before(xs[j], b, bySrc))
    requires forall k :: i <= k < |xs| ==> Before(b, xs[k], bySrc)
    ensures Ordered(xs[..i] + [b] + xs[i..], bySrc) && Elements(xs[..i] + [b] + xs[i..]) == Elements(xs) + {b}
  {
    var ys := xs[..i] + [b] + xs[i..];
    forall j, k | 0 <= j < k < |ys|
      ensures Before(ys[j], ys[k], bySrc)
    {
      if j > i { assert ys[j] == xs[j - 1] && ys[k] == xs[k - 1]; }
    }
    assert xs == xs[..i] + xs[i..];
  }

  ghost function Elements(xs: seq<Borrow>): set<Borrow> { set b | b in xs }

  function Erased(xs: seq<Borrow>, b: Borrow): seq<Borrow> {
    if xs == [] then [] else (if xs[0] == b then [] else [xs[0]]) + Erased(xs[1..], b)
  }

  lemma {:induction false} ErasedElement(xs: seq<Borrow>, b: Borrow, x: Borrow)
    ensures x in Erased(xs, b) <==> x in xs && x != b
  {
    if xs != [] {
      ErasedElement(xs[1..], b, x);
      assert xs == [xs[0]] + xs[1..];
    }
  }

  lemma {:induction false} ErasedOrdered(xs: seq<Borrow>, b: Borrow, bySrc: bool)
    requires Ordered(xs, bySrc)
    ensures Ordered(Erased(xs, b), bySrc)
  {
    if xs != [] {
      assert Ordered(xs[1..], bySrc);
      ErasedOrdered(xs[1..], b, bySrc);
      var rest := Erased(xs[1..], b);
      forall k | 0 <= k < |rest|
        ensures Before(xs[0], rest[k], bySrc)
      {
        ErasedElement(xs[1..], b, rest[k]);
        var j :| 0 <= j < |xs[1..]| && xs[1..][j] == rest[k];
        assert xs[j + 1] == rest[k];
      }
    }
  }

  /** The first position whose element comes after the key. */
  function UpperBound(xs: seq<Borrow>, key: Borrow, bySrc: bool): (i: nat)
    ensures i <= |xs| && (forall j :: 0 <= j < i ==> !Before(key, xs[j], bySrc))
            && (i < |xs| ==> Before(key, xs[i], bySrc))
  {
    if xs == [] || Before(key, xs[0], bySrc) then 0 else
      var i := UpperBound(xs[1..], key, bySrc);
      assert forall j :: 0 < j < i + 1 ==> xs[j] == xs[1..][j - 1];
      i + 1
  }

  function KeyAt(d: Path, bySrc: bool): Borrow { if bySrc then Borrow([0], d) else Borrow(d, [0]) }

  lemma AboveKey(b: Borrow, d: Path, bySrc: bool)
    requires ValidPath(b.to) && ValidPath(b.from)
    ensures Before(b, KeyAt(d, bySrc), bySrc) <==> Lt(Major(b, bySrc), d)
    ensures b != KeyAt(d, bySrc)
  {
    LtTotal(Major(b, bySrc), d);
    assert Minor(KeyAt(d, bySrc), bySrc) == [0];
  }

  /** Between the two bounds lie exactly the borrows whose major path starts with d. */
  lemma PrefixScan(xs: seq<Borrow>, d: Path, bySrc: bool, b: Borrow)
    requires Ordered(xs, bySrc) && (forall x :: x in xs ==> ValidPath(x.to) && ValidPath(x.from))
    ensures LowerBound(xs, KeyAt(d, bySrc), bySrc) <= LowerBound(xs, KeyAt(d + [MAX_PART], bySrc), bySrc)
    ensures b in xs[LowerBound(xs, KeyAt(d, bySrc), bySrc)..LowerBound(xs, KeyAt(d + [MAX_PART], bySrc), bySrc)] <==>
            b in xs && StartsWith(Major(b, bySrc), d)
  {
    var lo, hi := LowerBound(xs, KeyAt(d, bySrc), bySrc), LowerBound(xs, KeyAt(d + [MAX_PART], bySrc), bySrc);
    forall j | 0 <= j < |xs|
      ensures lo <= j < hi <==> StartsWith(Major(xs[j], bySrc), d)
      ensures j < lo ==> j < hi
    {
      AfterLowerBound(xs, KeyAt(d, bySrc), bySrc, j);
      AfterLowerBound(xs, KeyAt(d + [MAX_PART], bySrc), bySrc, j);
      AboveKey(xs[j], d, bySrc);
      AboveKey(xs[j], d + [MAX_PART], bySrc);
      PrefixRange(Major(xs[j], bySrc), d);
      BelowLonger(Major(xs[j], bySrc), d, MAX_PART);
    }
    InRange(xs, lo, hi, b);
  }

  lemma InRange(xs: seq<Borrow>, lo: nat, hi: nat, b: Borrow)
    requires lo <= hi <= |xs|
    ensures b in xs[lo..hi] <==> exists j :: lo <= j < hi && xs[j] == b
  {
    if b in xs[lo..hi] {
      var j :| 0 <= j < |xs[lo..hi]| && xs[lo..hi][j] == b;
      assert xs[lo + j] == b;
    }
    if j :| lo <= j < hi && xs[j] == b { assert xs[lo..hi][j - lo] == b; }
  }

  lemma {:induction false} BelowLonger(p: Path, d: Path, x: nat)
    ensures Lt(p, d) ==> Lt(p, d + [x])
  {
    if d != [] && p != [] {
      assert (d + [x])[1..] == d[1..] + [x];
      BelowLonger(p[1..], d[1..], x);
    }
  }

  lemma AfterUpperBound(xs: seq<Borrow>, key: Borrow, bySrc: bool, j: nat)
    requires Ordered(xs, bySrc) && j < |xs|
    ensures j < UpperBound(xs, key, bySrc) <==> !Before(key, xs[j], bySrc)
  {
    StartsAt(xs, key, bySrc, UpperBound(xs, key, bySrc), j);
  }

  lemma StartsAt(xs: seq<Borrow>, key: Borrow, bySrc: bool, i: nat, j: nat)
    requires Ordered(xs, bySrc) && j < |xs| && (forall k :: 0 <= k < i && k < |xs| ==> !Before(key, xs[k], bySrc))
    requires i < |xs| ==> Before(key, xs[i], bySrc)
    ensures j < i <==> !Before(key, xs[j], bySrc)
  {
    if i < j { AfterStartsAt(xs, key, bySrc, i, j); }
  }

  /** The scan for borrows whose major path is d itself. */
  lemma EqualScan(xs: seq<Borrow>, d: Path, bySrc: bool, b: Borrow)
    requires Ordered(xs, bySrc) && (forall x :: x in xs ==> ValidPath(x.to) && ValidPath(x.from))
    ensures LowerBound(xs, KeyAt(d, bySrc), bySrc) <= UpperBound(xs, KeyAt(d + [0], bySrc), bySrc)
    ensures b in xs[LowerBound(xs, KeyAt(d, bySrc), bySrc)..UpperBound(xs, KeyAt(d + [0], bySrc), bySrc)] <==>
            b in xs && Major(b, bySrc) == d
  {
    var lo, hi := LowerBound(xs, KeyAt(d, bySrc), bySrc), UpperBound(xs, KeyAt(d + [0], bySrc), bySrc);
    forall j | 0 <= j < |xs|
      ensures lo <= j < hi <==> Major(xs[j], bySrc) == d
      ensures j < lo ==> j < hi
    {
      AfterLowerBound(xs, KeyAt(d, bySrc), bySrc, j);
      AfterUpperBound(xs, KeyAt(d + [0], bySrc), bySrc, j);
      BeforeTotal(xs[j], KeyAt(d + [0], bySrc), bySrc);
      AboveKey(xs[j], d, bySrc);
      AboveKey(xs[j], d + [0], bySrc);
      EqualRange(Major(xs[j], bySrc), d);
      BelowLonger(Major(xs[j], bySrc), d, 0);
    }
    InRange(xs, lo, hi, b);
  }

  /** A key of the source side comes before everything in the index by destination. */
  lemma DestScanFindsNothing(xs: seq<Borrow>, d: Path)
    requires forall x :: x in xs ==> ValidPath(x.to) && ValidPath(x.from)
    ensures LowerBound(xs, KeyAt(d, true), false) == 0
  {
    if xs != [] {
      var b := xs[0];
      assert b in xs && KeyAt(d, true).to == [0] && b.to[0] > 0;
    }
  }

  /** A single borrow into d is missed by the scan by destination. */
  lemma DestScanMisses(d: Path, from: Path) returns (b: Borrow)
    requires ValidPath(d) && ValidPath(from)
    ensures StartsWith(b.to, d) && ValidPath(b.to) && ValidPath(b.from) && Ordered([b], false)
    ensures b !in [b][LowerBound([b], KeyAt(d, true), false)..LowerBound([b], KeyAt(d + [MAX_PART], true), false)]
  {
    b := Borrow(d, from);
    DestScanFindsNothing([b], d);
    DestScanFindsNothing([b], d + [MAX_PART]);
  }

  // ----- The two indexes -----

  class BorrowInfo {
    var bySrc: seq<Borrow>
    var byDest: seq<Borrow>
    var waitingToDie: set<Path>

    ghost predicate Valid()
      reads this
    {
      && Ordered(bySrc, true) && Ordered(byDest, false)
      && Elements(bySrc) == Elements(byDest)
      && forall b :: b in bySrc ==> ValidPath(b.to) && ValidPath(b.from)
    }

    ghost function Contents(): set<Borrow>
      reads this
    {
      Elements(bySrc)
    }

    constructor ()
      ensures Valid() && Contents() == {} && waitingToDie == {}
    {
      bySrc, byDest, waitingToDie := [], [], {};
    }

    method Add(b: Borrow)
      requires Valid() && ValidPath(b.to) && ValidPath(b.from)
      modifies this
      ensures Valid() && Contents() == old(Contents()) + {b} && waitingToDie == old(waitingToDie)
    {
      InsertedOrdered(bySrc, b, true);
      InsertedOrdered(byDest, b, false);
      bySrc, byDest := Inserted(bySrc, b, true), Inserted(byDest, b, false);
      assert forall x :: x in bySrc <==> x in Elements(bySrc);
    }

    method Erase(b: Borrow)
      requires Valid()
      modifies this
      ensures Valid() && Contents() == old(Contents()) - {b} && waitingToDie == old(waitingToDie)
    {
      ErasedOrdered(bySrc, b, true);
      ErasedOrdered(byDest, b, false);
      forall x
        ensures x in Erased(bySrc, b) <==> x in bySrc && x != b
        ensures x in Erased(byDest, b) <==> x in byDest && x != b
      {
        ErasedElement(bySrc, b, x);
        ErasedElement(byDest, b, x);
      }
      assert forall x :: x in bySrc <==> x in Elements(bySrc);
      assert forall x :: x in byDest <==> x in Elements(byDest);
      bySrc, byDest := Erased(bySrc, b), Erased(byDest, b);
    }

    /** The borrows from (or to) d and everything below it, with bounds for the side that is scanned:
        the scans of a dying path. */
    method RootedAt(d: Path, fromSide: bool) returns (bs: seq<Borrow>)
      requires Valid()
      ensures forall b :: b in bs <==> b in Contents() && StartsWith(Major(b, fromSide), d)
    {
      var xs := if fromSide then bySrc else byDest;
      ValidOnBothSides();
      forall b
        ensures LowerBound(xs, KeyAt(d, fromSide), fromSide) <= LowerBound(xs, KeyAt(d + [MAX_PART], fromSide),
                fromSide)
        ensures b in xs[LowerBound(xs, KeyAt(d, fromSide), fromSide)..LowerBound(xs, KeyAt(d + [MAX_PART], fromSide),
                fromSide)]
                <==> b in Contents() && StartsWith(Major(b, fromSide), d)
      {
        PrefixScan(xs, d, fromSide, b);
        assert b in xs <==> b in Elements(xs);
      }
      bs := xs[LowerBound(xs, KeyAt(d, fromSide), fromSide)..LowerBound(xs, KeyAt(d + [MAX_PART], fromSide), fromSide)];
    }

    /** The other two scans share the bounds of the source side. */
    method GetBorrowsBySrcRootedAt(d: Path) returns (bs: seq<Borrow>)
      requires Valid()
      ensures forall b :: b in bs <==> b in Contents() && StartsWith(b.from, d)
    {
      bs := RootedAt(d, true);
    }

    /** With these bounds the scan by destination finds nothing: it finds what it should exactly
        when no borrow ends at d or below it. */
    method GetBorrowsByDestRootedAt(d: Path) returns (bs: seq<Borrow>)
      requires Valid()
      ensures bs == []
      ensures (forall b :: b in bs <==> b in Contents() && StartsWith(b.to, d)) <==> Into(Contents(), d) == {}
    {
      ValidOnBothSides();
      DestScanFindsNothing(byDest, d);
      DestScanFindsNothing(byDest, d + [MAX_PART]);
      var lo, hi := LowerBound(byDest, KeyAt(d, true), false), LowerBound(byDest, KeyAt(d + [MAX_PART], true), false);
      bs := byDest[lo..hi];
      assert forall b :: b in Into(Contents(), d) <==> b in Contents() && StartsWith(b.to, d);
      if Into(Contents(), d) != {} {
        var b :| b in Into(Contents(), d);
        assert b in Contents() && StartsWith(b.to, d) && b !in bs;
      }
    }

    /** The paths at or below a variable that take part in a borrow: those that lend, and those that
        the scan by destination adds. */
    method GetBorrowCPathsRootedAt(d: Path) returns (paths: set<Path>)
      requires Valid()
      ensures paths == set b | b in OutOf(Contents(), d) :: b.from
    {
      var bs := GetBorrowsBySrcRootedAt(d);
      paths := set b | b in bs :: b.from;
      var into := GetBorrowsByDestRootedAt(d);
      paths := paths + set b | b in into :: b.to;
    }

    lemma ValidOnBothSides()
      requires Valid()
      ensures forall b :: b in byDest ==> ValidPath(b.to) && ValidPath(b.from)
    {
      forall b | b in byDest ensures b in bySrc { assert b in Elements(byDest); }
    }

    /** The borrows from (or to) exactly d. */
    method EndingAt(d: Path, fromSide: bool) returns (bs: seq<Borrow>)
      requires Valid()
      ensures forall b :: b in bs <==> b in Contents() && Major(b, fromSide) == d
    {
      var xs := if fromSide then bySrc else byDest;
      ValidOnBothSides();
      forall b
        ensures LowerBound(xs, KeyAt(d, fromSide), fromSide) <= UpperBound(xs, KeyAt(d + [0], fromSide), fromSide)
        ensures b in xs[LowerBound(xs, KeyAt(d, fromSide), fromSide)..UpperBound(xs, KeyAt(d + [0], fromSide),
                fromSide)]
                <==> b in Contents() && Major(b, fromSide) == d
      {
        EqualScan(xs, d, fromSide, b);
        assert b in xs <==> b in Elements(xs);
      }
      bs := xs[LowerBound(xs, KeyAt(d, fromSide), fromSide)..UpperBound(xs, KeyAt(d + [0], fromSide), fromSide)];
    }

    method AddAll(bs: seq<Borrow>)
      requires Valid() && forall b :: b in bs ==> ValidPath(b.to) && ValidPath(b.from)
      modifies this
      ensures Valid() && Contents() == old(Contents()) + Elements(bs) && waitingToDie == old(waitingToDie)
    {
      for i := 0 to |bs|
        invariant Valid() && Contents() == old(Contents()) + Elements(bs[..i]) && waitingToDie == old(waitingToDie)
      {
        Add(bs[i]);
        assert Elements(bs[..i + 1]) == Elements(bs[..i]) + {bs[i]} by { assert bs[..i + 1] == bs[..i] + [bs[i]]; }
      }
      assert bs[..|bs|] == bs;
    }

    method EraseAll(bs: seq<Borrow>)
      requires Valid()
      modifies this
      ensures Valid() && Contents() == old(Contents()) - Elements(bs) && waitingToDie == old(waitingToDie)
    {
      for i := 0 to |bs|
        invariant Valid() && Contents() == old(Contents()) - Elements(bs[..i]) && waitingToDie == old(waitingToDie)
      {
        Erase(bs[i]);
        assert Elements(bs[..i + 1]) == Elements(bs[..i]) + {bs[i]} by { assert bs[..i + 1] == bs[..i] + [bs[i]]; }
      }
      assert bs[..|bs|] == bs;
    }

    /** A C-path dies.  The address of a local variable from which others still borrow is kept
        under another name until they are gone; in every other case its borrows are spliced. */
    method HandleCPathBecomingDead(d: Path, isAlloca: bool, isPhi: bool, forceKill: bool, renamed: nat)
      requires Valid() && d != [] && 0 < renamed < MAX_PART
      modifies this
      ensures Valid()
      ensures isAlloca && !isPhi && !forceKill && NoneInto(old(Contents()), d) && !NoneOutOf(old(Contents()), d) ==>
                if |d| == 1 then IsRenaming(old(Contents()), Contents(), d[0], renamed)
                  && waitingToDie == old(waitingToDie) + {[renamed]}
                else Contents() == old(Contents()) && waitingToDie == old(waitingToDie) + {d}
      ensures !isAlloca || isPhi || forceKill || !NoneInto(old(Contents()), d) || NoneOutOf(old(Contents()), d) ==>
                Contents() == Splice(old(Contents()), d) && waitingToDie == old(waitingToDie)
    {
      ghost var g := Contents();
      var into := RootedAt(d, false);
      var outOf := RootedAt(d, true);
      ScansAreEnds(g, d, into, outOf);
      if outOf == [] && into == [] {
        NothingToSplice(g, d);
        return;
      }
      if isAlloca && into == [] && !isPhi && !forceKill {
        if |d| == 1 {
          RenameBase(d[0], renamed);
          waitingToDie := waitingToDie + {[renamed]};
        } else {
          waitingToDie := waitingToDie + {d};
        }
        return;
      }
      assert ValidBorrows(g);
      var newBorrows := AllSpliced(d, into, outOf, g);
      EraseAll(into);
      EraseAll(outOf);
      AddAll(newBorrows);
    }

    /** Gives a base variable another name in every borrow. */
    method RenameBase(base: nat, renamed: nat)
      requires Valid() && 0 < renamed < MAX_PART
      modifies this
      ensures Valid() && IsRenaming(old(Contents()), Contents(), base, renamed) && waitingToDie == old(waitingToDie)
    {
      var del, add := [], [];
      for i := 0 to |bySrc|
        invariant forall b :: b in del <==> b in bySrc[..i] && (b.to[0] == base || b.from[0] == base)
        invariant forall n :: n in add <==> exists b :: b in del && n == RebasedBorrow(b, base, renamed)
      {
        var b := bySrc[i];
        assert b in bySrc;
        if b.to[0] == base || b.from[0] == base {
          del, add := del + [b], add + [RebasedBorrow(b, base, renamed)];
        }
      }
      assert bySrc[..|bySrc|] == bySrc;
      RenamedInTwoSteps(Contents(), base, renamed, del, add);
      EraseAll(del);
      AddAll(add);
    }

    /** Joins the borrows at the ends of the predecessors. */
    method JoinFrom(incoming: seq<BorrowInfo>)
      requires Valid() && this !in incoming && forall i :: 0 <= i < |incoming| ==> incoming[i].Valid()
      modifies this
      ensures Valid()
      ensures forall b ::
              b in Contents() <==> b in old(Contents()) || exists i ::
                0 <= i < |incoming| && b in incoming[i].Contents()
    {
      for k := 0 to |incoming|
        invariant Valid()
        invariant forall b ::
                  b in Contents() <==> b in old(Contents()) || exists i :: 0 <= i < k && b in incoming[i].Contents()
      {
        assert incoming[k] in incoming && incoming[k] != this;
        assert forall b :: b in incoming[k].bySrc <==> b in incoming[k].Contents();
        AddAll(incoming[k].bySrc);
      }
    }
  }

  ghost predicate NoneInto(g: set<Borrow>, d: Path) { forall b :: b in g ==> !StartsWith(b.to, d) }

  ghost predicate NoneOutOf(g: set<Borrow>, d: Path) { forall b :: b in g ==> !StartsWith(b.from, d) }

  lemma ScansAreEnds(g: set<Borrow>, d: Path, into: seq<Borrow>, outOf: seq<Borrow>)
    requires forall b :: b in into <==> b in g && StartsWith(Major(b, false), d)
    requires forall b :: b in outOf <==> b in g && StartsWith(Major(b, true), d)
    ensures Elements(into) == Into(g, d) && Elements(outOf) == OutOf(g, d)
    ensures (into == [] <==> NoneInto(g, d)) && (outOf == [] <==> NoneOutOf(g, d))
  {
    if into != [] { assert into[0] in g; }
    if outOf != [] { assert outOf[0] in g; }
  }

  lemma NothingToSplice(g: set<Borrow>, d: Path)
    requires NoneInto(g, d) && NoneOutOf(g, d)
    ensures Splice(g, d) == g
  {
    forall n ensures !NewBorrow(g, d, n) { }
  }

  lemma RenamedInTwoSteps(g: set<Borrow>, base: nat, renamed: nat, del: seq<Borrow>, add: seq<Borrow>)
    requires ValidBorrows(g) && 0 < renamed < MAX_PART
    requires forall b :: b in del <==> b in g && (b.to[0] == base || b.from[0] == base)
    requires forall n :: n in add <==> exists b :: b in del && n == RebasedBorrow(b, base, renamed)
    ensures IsRenaming(g, g - Elements(del) + Elements(add), base, renamed)
    ensures forall n :: n in add ==> ValidPath(n.to) && ValidPath(n.from)
  {
    var after := g - Elements(del) + Elements(add);
    forall n
      ensures n in after <==> WasRenamed(g, n, base, renamed)
    {
      if n in after && n !in add { assert n in g && n !in del && RenamedTo(n, n, base, renamed); }
      if WasRenamed(g, n, base, renamed) {
        var b :| b in g && RenamedTo(b, n, base, renamed);
        RebasedOnly(b.to, n.to, base, renamed);
        RebasedOnly(b.from, n.from, base, renamed);
        assert n == RebasedBorrow(b, base, renamed);
        if b !in del { assert n == b && n !in del; }
      }
    }
  }

  // ----- Computing the spliced borrows -----

  ghost predicate FromThrough(d: Path, b1: Borrow, b2: Borrow, n: Borrow) {
    StartsWith(b1.to, d) && StartsWith(b2.from, d) && n.to != n.from && n in Through(d, b1, b2)
  }

  ghost predicate FromBeside(d: Path, b1: Borrow, b2: Borrow, n: Borrow) {
    StartsWith(b1.to, d) && StartsWith(b2.to, d) && n.to != n.from && n in Beside(d, b1, b2)
  }

  ghost predicate MadeWith(d: Path, b1: Borrow, into: seq<Borrow>, outOf: seq<Borrow>, n: Borrow) {
    || (exists j :: 0 <= j < |outOf| && FromThrough(d, b1, outOf[j], n))
    || (exists j :: 0 <= j < |into| && FromBeside(d, b1, into[j], n))
  }

  method SplicedThrough(d: Path, b1: Borrow, outOf: seq<Borrow>) returns (news: seq<Borrow>)
    requires StartsWith(b1.to, d) && forall b :: b in outOf ==> StartsWith(b.from, d)
    ensures forall n :: n in news <==> exists j :: 0 <= j < |outOf| && FromThrough(d, b1, outOf[j], n)
  {
    news := [];
    for i := 0 to |outOf|
      invariant forall n :: n in news <==> exists j :: 0 <= j < i && FromThrough(d, b1, outOf[j], n)
    {
      ghost var before := news;
      assert outOf[i] in outOf;
      var b2 := outOf[i];
      var A, D := b1.to[|d|..], b2.from[|d|..];
      if StartsWith(A, D) {
        var n := Borrow(b2.to + A[|D|..], b1.from);
        if n.to != n.from { news := news + [n]; }
      }
      if StartsWith(D, A) {
        var n := Borrow(b2.to, b1.from + D[|A|..]);
        if n.to != n.from { news := news + [n]; }
      }
      assert forall n :: n in news <==> n in before || FromThrough(d, b1, b2, n);
    }
  }

  method SplicedBeside(d: Path, b1: Borrow, into: seq<Borrow>) returns (news: seq<Borrow>)
    requires StartsWith(b1.to, d) && forall b :: b in into ==> StartsWith(b.to, d)
    ensures forall n :: n in news <==> exists j :: 0 <= j < |into| && FromBeside(d, b1, into[j], n)
  {
    news := [];
    for i := 0 to |into|
      invariant forall n :: n in news <==> exists j :: 0 <= j < i && FromBeside(d, b1, into[j], n)
    {
      ghost var before := news;
      assert into[i] in into;
      var b2 := into[i];
      var A, D := b1.to[|d|..], b2.to[|d|..];
      if |D| > |A| && StartsWith(D, A) {
        var n := Borrow(b1.from + D[|A|..], b2.from);
        if n.to != n.from { news := news + [n]; }
      }
      assert forall n :: n in news <==> n in before || FromBeside(d, b1, b2, n);
    }
  }

  method AllSpliced(d: Path, into: seq<Borrow>, outOf: seq<Borrow>, ghost g: set<Borrow>) returns (news: seq<Borrow>)
    requires Elements(into) == Into(g, d) && Elements(outOf) == OutOf(g, d) && ValidBorrows(g)
    ensures g - Elements(into) - Elements(outOf) + Elements(news) == Splice(g, d)
    ensures forall n :: n in news ==> ValidPath(n.to) && ValidPath(n.from)
  {
    news := [];
    assert forall b :: b in into <==> b in Elements(into);
    assert forall b :: b in outOf <==> b in Elements(outOf);
    for i := 0 to |into|
      invariant forall n :: n in news <==> exists k :: 0 <= k < i && MadeWith(d, into[k], into, outOf, n)
    {
      assert into[i] in into;
      var through := SplicedThrough(d, into[i], outOf);
      var beside := SplicedBeside(d, into[i], into);
      ghost var before := news;
      news := news + through + beside;
      assert forall n :: n in news <==> n in before || MadeWith(d, into[i], into, outOf, n);
    }
    forall n ensures n in news <==> NewBorrow(g, d, n) { MadeIsNew(g, d, into, outOf, n); }
    forall n | n in news ensures ValidPath(n.to) && ValidPath(n.from) { NewIsValid(g, d, n); }
  }

  lemma MadeIsNew(g: set<Borrow>, d: Path, into: seq<Borrow>, outOf: seq<Borrow>, n: Borrow)
    requires Elements(into) == Into(g, d) && Elements(outOf) == OutOf(g, d)
    ensures (exists k :: 0 <= k < |into| && MadeWith(d, into[k], into, outOf, n)) <==> NewBorrow(g, d, n)
  {
    assert forall b :: b in into <==> b in Elements(into);
    assert forall b :: b in outOf <==> b in Elements(outOf);
    if k :| 0 <= k < |into| && MadeWith(d, into[k], into, outOf, n) {
      assert into[k] in into;
      if j :| 0 <= j < |outOf| && FromThrough(d, into[k], outOf[j], n) {
        assert outOf[j] in outOf;
      } else {
        var j :| 0 <= j < |into| && FromBeside(d, into[k], into[j], n);
        assert into[j] in into;
      }
    }
    if NewBorrow(g, d, n) {
      if b1, b2 :| b1 in Into(g, d) && b2 in OutOf(g, d) && n in Through(d, b1, b2) {
        var k :| 0 <= k < |into| && into[k] == b1;
        var j :| 0 <= j < |outOf| && outOf[j] == b2;
        assert FromThrough(d, into[k], outOf[j], n);
      } else {
        var b1, b2 :| b1 in Into(g, d) && b2 in Into(g, d) && n in Beside(d, b1, b2);
        var k :| 0 <= k < |into| && into[k] == b1;
        var j :| 0 <= j < |into| && into[j] == b2;
        assert FromBeside(d, into[k], into[j], n);
      }
    }
  }

  lemma ValidJoin(p: Path, q: Path, k: nat)
    requires ValidPath(p) && ValidPath(q) && k <= |q|
    ensures ValidPath(p + q[k..])
  {
  }

  lemma ThroughIsValid(d: Path, b1: Borrow, b2: Borrow, n: Borrow)
    requires ValidPath(b1.to) && ValidPath(b1.from) && ValidPath(b2.to) && ValidPath(b2.from)
    requires StartsWith(b1.to, d) && StartsWith(b2.from, d) && n in Through(d, b1, b2)
    ensures ValidPath(n.to) && ValidPath(n.from)
  {
    if |b2.from| <= |b1.to| {
      ValidJoin(b2.to, b1.to, |b2.from|);
      assert b1.to[|d|..][|b2.from[|d|..]|..] == b1.to[|b2.from|..];
    }
    if |b1.to| <= |b2.from| {
      ValidJoin(b1.from, b2.from, |b1.to|);
      assert b2.from[|d|..][|b1.to[|d|..]|..] == b2.from[|b1.to|..];
    }
  }

  lemma NewIsValid(g: set<Borrow>, d: Path, n: Borrow)
    requires ValidBorrows(g) && NewBorrow(g, d, n)
    ensures ValidPath(n.to) && ValidPath(n.from)
  {
    if b1, b2 :| b1 in Into(g, d) && b2 in OutOf(g, d) && n in Through(d, b1, b2) {
      ThroughIsValid(d, b1, b2, n);
    } else {
      var b1, b2 :| b1 in Into(g, d) && b2 in Into(g, d) && n in Beside(d, b1, b2);
      ValidJoin(b1.from, b2.to, |b1.to|);
      assert b2.to[|d|..][|b1.to[|d|..]|..] == b2.to[|b1.to|..];
    }
  }
}
