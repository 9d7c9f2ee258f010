/** C-paths as text: splitting a name like `**foo.fld[0]` into parts, numbering the parts, and
    writing a path back. */
module CPathText {

  const DEREF: string := "[0]"
  const DEREF_ID: nat := 1
  const MAX_PART: nat := 0xFFFF_FFFF

  predicate Separator(c: char) { c == '[' || c == '.' }

  // ----- Splitting -----

  /** The first separator of s from position i on, or the end. */
  function NextSeparator(s: string, i: nat): (k: nat)
    requires i <= |s|
    ensures i <= k <= |s| && (k < |s| ==> Separator(s[k])) && forall j :: i <= j < k ==> !Separator(s[j])
    decreases |s| - i
  {
    if i == |s| || Separator(s[i]) then i else NextSeparator(s, i + 1)
  }

  /** The base variable and the parts that follow it, each from one separator to the next. */
  function Pieces(s: string): (ps: seq<string>)
    ensures forall i :: 0 <= i < |ps| ==> ps[i] != ""
    decreases |s|
  {
    if s == "" then [] else
      var k := NextSeparator(s, 1);
      [s[..k]] + Pieces(s[k..])
  }

  function Concat(ps: seq<string>): string { if ps == [] then "" else ps[0] + Concat(ps[1..]) }

  /** A part does not go on past the next separator. */
  predicate Piece(p: string) { p != "" && forall j :: 1 <= j < |p| ==> !Separator(p[j]) }

  predicate Follows(p: string) { Piece(p) && Separator(p[0]) }

  /** The base of a path is neither a separator nor a star. */
  predicate Base(p: string) { Piece(p) && !Separator(p[0]) && p[0] != '*' }

  ghost predicate WellFormed(ps: seq<string>) {
    ps != [] && Base(ps[0]) && forall i :: 1 <= i < |ps| ==> Follows(ps[i])
  }

  lemma NextIsAt(s: string, k: nat)
    requires 1 <= k <= |s| && (forall j :: 1 <= j < k ==> !Separator(s[j])) && (k < |s| ==> Separator(s[k]))
    ensures NextSeparator(s, 1) == k
  {
  }

  lemma {:induction false} ConcatStarts(ps: seq<string>)
    requires forall i :: 0 <= i < |ps| ==> Follows(ps[i])
    ensures Concat(ps) == "" <==> ps == []
    ensures Concat(ps) != "" ==> Separator(Concat(ps)[0])
  {
  }

  /** Splitting undoes joining. */
  lemma {:induction false} PiecesOfConcat(ps: seq<string>)
    requires forall i :: 0 <= i < |ps| ==> Piece(ps[i])
    requires forall i :: 1 <= i < |ps| ==> Follows(ps[i])
    ensures Pieces(Concat(ps)) == ps
  {
    if ps != [] {
      var s := Concat(ps);
      ConcatStarts(ps[1..]);
      NextIsAt(s, |ps[0]|);
      assert s[..|ps[0]|] == ps[0] && s[|ps[0]|..] == Concat(ps[1..]);
      PiecesOfConcat(ps[1..]);
    }
  }

  /** Joining undoes splitting. */
  lemma {:induction false} ConcatOfPieces(s: string)
    ensures Concat(Pieces(s)) == s
    decreases |s|
  {
    if s != "" {
      var k := NextSeparator(s, 1);
      ConcatOfPieces(s[k..]);
      assert s == s[..k] + s[k..];
    }
  }

  lemma {:induction false} PiecesFollow(s: string)
    requires s != ""
    ensures Pieces(s) != [] && Piece(Pieces(s)[0]) && Pieces(s)[0][0] == s[0]
    ensures forall i :: 1 <= i < |Pieces(s)| ==> Follows(Pieces(s)[i])
    decreases |s|
  {
    var k := NextSeparator(s, 1);
    if k < |s| {
      PiecesFollow(s[k..]);
      assert s[k..][0] == s[k];
    }
  }

  // ----- Stars -----

  function Stars(s: string): (n: nat)
    ensures n <= |s| && (forall i :: 0 <= i < n ==> s[i] == '*') && (n < |s| ==> s[n] != '*')
  {
    if s == "" || s[0] != '*' then 0 else 1 + Stars(s[1..])
  }

  function Repeat<T>(x: T, n: nat): (r: seq<T>)
    ensures |r| == n && forall i :: 0 <= i < n ==> r[i] == x
  {
    seq(n, i => x)
  }

  /** What a name denotes: its pieces, and a dereference for each leading star. */
  function Parse(s: string): seq<string> { Pieces(s[Stars(s)..]) + Repeat(DEREF, Stars(s)) }

  /** Names the code accepts: something other than a separator follows the stars. */
  predicate Readable(s: string) { Stars(s) < |s| && !Separator(s[Stars(s)]) }

  lemma ParseIsWellFormed(s: string)
    requires Readable(s)
    ensures WellFormed(Parse(s))
  {
    PiecesFollow(s[Stars(s)..]);
  }

  /** How many dereferences end the path, not counting its base. */
  function Trailing(ps: seq<string>): (n: nat)
    ensures n <= |ps| && (ps != [] ==> n < |ps|) && forall i :: |ps| - n <= i < |ps| ==> ps[i] == DEREF
    ensures 1 < |ps| - n ==> ps[|ps| - n - 1] != DEREF
  {
    if |ps| > 1 && ps[|ps| - 1] == DEREF then 1 + Trailing(ps[..|ps| - 1]) else 0
  }

  function Print(ps: seq<string>, useStars: bool): string {
    var n := if useStars then Trailing(ps) else 0;
    Repeat('*', n) + Concat(ps[..|ps| - n])
  }

  lemma StarsOf(n: nat, s: string)
    requires s != "" && s[0] != '*'
    ensures Stars(Repeat('*', n) + s) == n && (Repeat('*', n) + s)[n..] == s
  {
    var t := Repeat('*', n) + s;
    assert t[n] == s[0] && forall i :: 0 <= i < n ==> t[i] == '*';
  }

  /** The path ends in exactly n dereferences, not counting its base. */
  ghost predicate EndsIn(ps: seq<string>, n: nat) {
    && n < |ps| && (forall i :: |ps| - n <= i < |ps| ==> ps[i] == DEREF)
    && (1 < |ps| - n ==> ps[|ps| - n - 1] != DEREF)
  }

  /** With stars, the text has one for each dereference that ends the path, and then the other parts; without,
      it has all the parts. */
  ghost predicate IsText(ps: seq<string>, useStars: bool, s: string) {
    && EndsIn(ps, Trailing(ps)) && Stars(s) == (if useStars then Trailing(ps) else 0)
    && Pieces(s[Stars(s)..]) == ps[..|ps| - Stars(s)]
  }

  lemma NotMore(ps: seq<string>, n: nat, m: nat)
    requires EndsIn(ps, n) && EndsIn(ps, m)
    ensures m <= n
  {
    if 1 < |ps| - n { assert ps[|ps| - n - 1] != DEREF; }
  }

  lemma EndsInOnce(ps: seq<string>, n: nat, m: nat)
    requires EndsIn(ps, n) && EndsIn(ps, m)
    ensures n == m
  {
    NotMore(ps, n, m);
    NotMore(ps, m, n);
  }

  lemma StarsAndParts(front: seq<string>, n: nat, s: string)
    requires WellFormed(front) && s == Repeat('*', n) + Concat(front)
    ensures Stars(s) == n && Pieces(s[n..]) == front
  {
    assert Concat(front)[0] == front[0][0];
    StarsOf(n, Concat(front));
    PiecesOfConcat(front);
  }

  lemma FrontIsWellFormed(ps: seq<string>, n: nat)
    requires WellFormed(ps) && n < |ps|
    ensures WellFormed(ps[..|ps| - n])
  {
  }

  /** The text with stars begins with exactly as many as there are dereferences at the end, and goes on with
      the parts before those; the text without begins with none and has all parts. */
  lemma PrintMeans(ps: seq<string>, n: nat)
    requires WellFormed(ps) && EndsIn(ps, n)
    ensures Stars(Print(ps, true)) == n && Pieces(Print(ps, true)[n..]) == ps[..|ps| - n]
    ensures Stars(Print(ps, false)) == 0 && Pieces(Print(ps, false)) == ps
  {
    EndsInOnce(ps, n, Trailing(ps));
    FrontIsWellFormed(ps, n);
    Starred(ps, n, ps[..|ps| - n]);
    StarsAndParts(ps[..|ps| - n], n, Print(ps, true));
    PlainMeans(ps);
  }

  lemma Starred(ps: seq<string>, n: nat, front: seq<string>)
    requires n == Trailing(ps) && n < |ps| && front == ps[..|ps| - n]
    ensures Print(ps, true) == Repeat('*', n) + Concat(front)
  {
  }

  lemma PlainMeans(ps: seq<string>)
    requires WellFormed(ps)
    ensures Stars(Print(ps, false)) == 0 && Pieces(Print(ps, false)) == ps
  {
    var s := Print(ps, false);
    assert ps[..|ps| - 0] == ps && s[0..] == s;
    StarsAndParts(ps, 0, s);
  }

  lemma PrintIsText(ps: seq<string>, useStars: bool)
    requires WellFormed(ps)
    ensures IsText(ps, useStars, Print(ps, useStars))
  {
    PrintMeans(ps, Trailing(ps));
    if !useStars { assert Print(ps, false)[0..] == Print(ps, false) && ps[..|ps| - 0] == ps; }
  }

  ghost predicate EndsWith(s: string, t: string) { |t| <= |s| && s[|s| - |t|..] == t }

  lemma {:induction false} ConcatEnds(ps: seq<string>)
    requires ps != []
    ensures EndsWith(Concat(ps), ps[|ps| - 1])
  {
    if |ps| > 1 {
      ConcatEnds(ps[1..]);
      var rest := Concat(ps[1..]);
      assert Concat(ps)[|ps[0]|..] == rest && |Concat(ps)| == |ps[0]| + |rest|;
    } else {
      assert Concat(ps[1..]) == "";
    }
  }

  /** A text that ends in a dereference and in a part ends in that part being a dereference. */
  lemma FollowsEnd(s: string, p: string)
    requires EndsWith(s, p) && Follows(p) && EndsWith(s, DEREF)
    ensures p == DEREF
  {
    var k := |s| - |p|;
    assert forall j :: 0 <= j < |p| ==> s[k + j] == p[j];
    assert s[|s| - 3] == s[|s| - 3..][0] && s[|s| - 2] == s[|s| - 3..][1] && s[|s| - 1] == s[|s| - 3..][2];
    assert Separator(s[k]) && !Separator(s[|s| - 2]) && !Separator(s[|s| - 1]) && Separator(s[|s| - 3]);
    assert p[|p| - 3] == s[|s| - 3];
  }

  lemma BaseEnd(n: nat, p: string)
    requires Base(p)
    ensures !EndsWith(Repeat('*', n) + p, DEREF)
  {
    var s := Repeat('*', n) + p;
    assert forall j :: 0 <= j < |s| ==> s[j] != '[';
    assert |s| >= 3 ==> s[|s| - 3] == s[|s| - 3..][0];
  }

  /** The text with stars never ends in a dereference. */
  lemma NoDerefLeft(ps: seq<string>)
    requires WellFormed(ps)
    ensures !EndsWith(Print(ps, true), DEREF)
  {
    var n := Trailing(ps);
    var front := ps[..|ps| - n];
    if |front| == 1 {
      assert front[1..] == [] && Concat(front) == front[0];
      BaseEnd(n, front[0]);
    } else {
      ConcatEnds(front);
      EndsToo(Repeat('*', n), Concat(front), front[|front| - 1]);
      NotAfterPart(Print(ps, true), front[|front| - 1]);
    }
  }

  lemma EndsToo(r: string, s: string, t: string)
    requires EndsWith(s, t)
    ensures EndsWith(r + s, t)
  {
    assert (r + s)[|r + s| - |t|..] == s[|s| - |t|..];
  }

  lemma NotAfterPart(s: string, p: string)
    requires EndsWith(s, p) && Follows(p) && p != DEREF
    ensures !EndsWith(s, DEREF)
  {
    if EndsWith(s, DEREF) { FollowsEnd(s, p); }
  }

  /** Reading undoes writing, with and without stars. */
  lemma ParseOfPrint(ps: seq<string>, useStars: bool)
    requires WellFormed(ps)
    ensures Parse(Print(ps, useStars)) == ps && Readable(Print(ps, useStars))
  {
    var n := if useStars then Trailing(ps) else 0;
    var front := ps[..|ps| - n];
    assert front[0] == ps[0];
    assert Concat(front)[0] == ps[0][0];
    StarsOf(n, Concat(front));
    PiecesOfConcat(front);
    assert ps == front + Repeat(DEREF, n);
  }

  /** Writing what was read gives a normal form: it is read as the same path, and written again
      the same. */
  lemma PrintIsNormal(s: string, useStars: bool)
    requires Readable(s)
    ensures Parse(Print(Parse(s), useStars)) == Parse(s)
    ensures Print(Parse(Print(Parse(s), useStars)), useStars) == Print(Parse(s), useStars)
  {
    ParseIsWellFormed(s);
    ParseOfPrint(Parse(s), useStars);
  }

  // ----- Numbering the parts -----

  ghost predicate Bijection(ids: map<string, nat>, strs: map<nat, string>) {
    && (forall p :: p in ids ==> 1 <= ids[p] <= |ids| && ids[p] in strs && strs[ids[p]] == p)
    && (forall n :: n in strs ==> strs[n] in ids && ids[strs[n]] == n)
  }

  /** The numbering of a table, in which the dereference has its number. */
  ghost predicate IsTable(ids: map<string, nat>, strs: map<nat, string>) {
    Bijection(ids, strs) && DEREF in ids && ids[DEREF] == DEREF_ID
  }

  lemma BijectionGrows(ids: map<string, nat>, strs: map<nat, string>, p: string)
    requires Bijection(ids, strs) && p !in ids
    ensures Bijection(ids[p := |ids| + 1], strs[|ids| + 1 := p])
    ensures ids[p := |ids| + 1].Keys == ids.Keys + {p} && |ids[p := |ids| + 1]| == |ids| + 1
  {
    assert forall q :: q in ids ==> ids[q] != |ids| + 1;
  }

  ghost predicate Known(ids: map<string, nat>, ps: seq<string>) { forall i :: 0 <= i < |ps| ==> ps[i] in ids }

  /** The numbers of the parts. */
  ghost function Ids(ids: map<string, nat>, ps: seq<string>): (r: seq<nat>)
    requires Known(ids, ps)
    ensures |r| == |ps| && forall i :: 0 <= i < |ps| ==> r[i] == ids[ps[i]]
  {
    seq(|ps|, i requires 0 <= i < |ps| => ids[ps[i]])
  }

  /** The bigger table agrees with the smaller one. */
  ghost predicate Grows(small: map<string, nat>, big: map<string, nat>) {
    forall p :: p in small ==> p in big && big[p] == small[p]
  }

  ghost function ToSet(ps: seq<string>): set<string> { set p | p in ps }

  /** The table has numbers enough for these parts too. */
  ghost predicate Fits(keys: set<string>, ps: seq<string>) { |keys + ToSet(ps)| < MAX_PART }

  lemma FitsOneMore(ids: map<string, nat>, keys: set<string>, done: seq<string>, p: string)
    requires |ids| < MAX_PART && ids.Keys == keys + ToSet(done)
    ensures Fits(keys, done + [p]) <==> p in ids || |ids| < MAX_PART - 1
    ensures keys + ToSet(done + [p]) == ids.Keys + {p}
  {
    assert ToSet(done + [p]) == ToSet(done) + {p};
    assert keys + ToSet(done + [p]) == ids.Keys + {p};
  }

  lemma TooMany(keys: set<string>, some: seq<string>, rest: seq<string>)
    requires !Fits(keys, some)
    ensures !Fits(keys, some + rest)
  {
    assert keys + ToSet(some) <= keys + ToSet(some + rest);
    Larger(keys + ToSet(some), keys + ToSet(some + rest));
  }

  lemma {:induction false} Larger(small: set<string>, large: set<string>)
    requires small <= large
    ensures |small| <= |large|
    decreases small
  {
    if x :| x in small { Larger(small - {x}, large - {x}); }
  }

  lemma KnownFits(ids: map<string, nat>, ps: seq<string>)
    requires Known(ids, ps) && |ids| < MAX_PART
    ensures Fits(ids.Keys, ps)
  {
    forall p | p in ps ensures p in ids { }
    assert ids.Keys + ToSet(ps) == ids.Keys;
  }

  /** The dereferences of a name take no new number. */
  lemma StarsAreKnown(ids: map<string, nat>, s: string)
    requires Readable(s) && DEREF in ids
    ensures Fits(ids.Keys, Parse(s)) <==> Fits(ids.Keys, Pieces(s[Stars(s)..]))
  {
    var ps := Pieces(s[Stars(s)..]);
    forall p ensures p in ToSet(Parse(s)) ==> p in ToSet(ps) || p == DEREF { }
    assert ids.Keys + ToSet(Parse(s)) == ids.Keys + ToSet(ps);
  }

  class CPathTable {
    var ids: map<string, nat>
    var strs: map<nat, string>
    var cache: map<string, seq<nat>>

    /** The numbers run from 1 without gaps and never reach the bound; the dereference is number 1;
        the cache holds what parsing would give. */
    ghost predicate Valid()
      reads this
    {
      && Bijection(ids, strs) && |ids| < MAX_PART && DEREF in ids && ids[DEREF] == DEREF_ID
      && forall s :: s in cache ==> Cached(s)
    }

    ghost predicate Cached(s: string)
      reads this
    {
      s in cache && Readable(s) && Known(ids, Parse(s)) && cache[s] == Ids(ids, Parse(s))
    }

    constructor ()
      ensures Valid()
    {
      ids, strs, cache := map[DEREF := DEREF_ID], map[DEREF_ID := DEREF], map[];
    }

    /** The number of a part, a new one if it has none; with too many parts the program aborts. */
    method PartId(p: string) returns (ok: bool, id: nat)
      requires Valid() && p != ""
      modifies this
      ensures Valid() && Grows(old(ids), ids) && cache == old(cache)
      ensures ok <==> p in old(ids) || |old(ids)| < MAX_PART - 1
      ensures ok ==> p in ids && ids[p] == id && 0 < id < MAX_PART
      ensures ids.Keys == old(ids.Keys) + if ok then {p} else {}
    {
      if p in ids { return true, ids[p]; }
      if |ids| == MAX_PART - 1 { return false, 0; }
      id := |ids| + 1;
      BijectionGrows(ids, strs, p);
      ids, strs := ids[p := id], strs[id := p];
      forall s | s in cache
        ensures Cached(s)
      {
        assert old(Cached(s));
      }
      ok := true;
    }

    method CountStars(s: string) returns (n: nat)
      ensures n == Stars(s)
    {
      n := 0;
      while n < |s| && s[n] == '*'
        invariant n <= Stars(s)
      {
        n := n + 1;
      }
    }

    /** `keys` have been numbered before, and since then the parts `done`. */
    method AppendPart(path0: seq<nat>, p: string, ghost done: seq<string>, ghost keys: set<string>)
      returns (ok: bool, path: seq<nat>)
      requires Valid() && Known(ids, done) && path0 == Ids(ids, done) && p != "" && ids.Keys == keys + ToSet(done)
      modifies this
      ensures Valid() && Grows(old(ids), ids) && cache == old(cache)
      ensures ok ==> Known(ids, done + [p]) && path == Ids(ids, done + [p]) && ids.Keys == keys + ToSet(done + [p])
      ensures !ok ==> path == path0
      ensures ok <==> Fits(keys, done + [p])
    {
      FitsOneMore(ids, keys, done, p);
      var id;
      ok, id := PartId(p);
      path := if ok then path0 + [id] else path0;
    }

    /** Numbers the pieces of s from position `from` on. */
    method PartIds(s: string, from: nat) returns (ok: bool, path: seq<nat>)
      requires Valid() && from < |s| && !Separator(s[from])
      modifies this
      ensures Valid() && Grows(old(ids), ids) && cache == old(cache)
      ensures ok ==> Known(ids, Pieces(s[from..])) && path == Ids(ids, Pieces(s[from..]))
      ensures ok <==> Fits(old(ids.Keys), Pieces(s[from..]))
    {
      var start, i := from, from + 1;
      path := [];
      ghost var done, rest: seq<string> := [], Pieces(s[from..]);
      ok := true;
      while true
        invariant Valid() && Grows(old(ids), ids) && cache == old(cache)
        invariant from <= start < i <= |s| && forall j :: start < j < i ==> !Separator(s[j])
        invariant Known(ids, done) && path == Ids(ids, done) && Pieces(s[from..]) == done + rest
                  && rest == Pieces(s[start..])
        invariant ids.Keys == old(ids.Keys) + ToSet(done) && ok
        decreases |s| - i
      {
        if i == |s| || Separator(s[i]) {
          NextPiece(s, start, i);
          ghost var p := s[start..i];
          rest := Pieces(s[i..]);
          assert done + ([p] + rest) == done + [p] + rest;
          ok, path := AppendPart(path, s[start..i], done, old(ids.Keys));
          done, start := done + [p], i;
          if !ok {
            TooMany(old(ids.Keys), done, rest);
            return;
          }
        }
        if i == |s| { break; }
        i := i + 1;
      }
      assert rest == [] && done + rest == done;
    }

    /** Reads a name, through the cache. */
    method ParseCPath(s: string) returns (ok: bool, path: seq<nat>)
      requires Valid() && Readable(s)
      modifies this
      ensures Valid() && Grows(old(ids), ids)
      ensures ok ==> Known(ids, Parse(s)) && path == Ids(ids, Parse(s)) && s in cache
      ensures ok <==> Fits(old(ids.Keys), Parse(s))
    {
      StarsAreKnown(ids, s);
      if s in cache {
        assert Cached(s);
        KnownFits(ids, Parse(s));
        return true, cache[s];
      }
      var stars := CountStars(s);
      ok, path := PartIds(s, stars);
      if !ok { return; }
      for j := 0 to stars
        invariant path == Ids(ids, Pieces(s[stars..])) + Repeat(DEREF_ID, j)
        invariant Valid() && cache == old(cache) && Grows(old(ids), ids) && Known(ids, Pieces(s[stars..]))
      {
        path := path + [DEREF_ID];
      }
      assert path == Ids(ids, Parse(s));
      AddToCache(s, path);
    }

    method AddToCache(s: string, path: seq<nat>)
      requires Valid() && Readable(s) && Known(ids, Parse(s)) && path == Ids(ids, Parse(s))
      modifies this
      ensures Valid() && ids == old(ids) && s in cache
    {
      cache := cache[s := path];
      forall t | t in cache
        ensures Cached(t)
      {
        assert t != s ==> old(Cached(t));
      }
    }

    /** Writes a path; a number that is not known is written as question marks. */
    method CPathToStr(path: seq<nat>, useStars: bool) returns (s: string)
      requires path != []
      ensures WritesAs(ids, strs, path, useStars, s)
    {
      var trailing := 0;
      if useStars {
        while |path| - trailing > 1 && path[|path| - trailing - 1] == DEREF_ID
          invariant trailing < |path| && forall i :: |path| - trailing <= i < |path| ==> path[i] == DEREF_ID
        {
          trailing := trailing + 1;
        }
      }
      s := "";
      for i := 0 to |path| - trailing
        invariant s == Written(strs, path[..i])
      {
        assert path[..i + 1][..i] == path[..i];
        s := s + PartText(strs, path[i]);
      }
      s := Repeat('*', trailing) + s;
      TextIsWritten(ids, strs, path, useStars, trailing, s);
    }
  }

  /** Whichever parts the numbers stand for, s is their text. */
  ghost predicate WritesAs(ids: map<string, nat>, strs: map<nat, string>, path: seq<nat>, useStars: bool, s: string) {
    forall ps :: IsTable(ids, strs) && Known(ids, ps) && path == Ids(ids, ps) ==>
      s == Print(ps, useStars) && (WellFormed(ps) ==> IsText(ps, useStars, s))
  }

  lemma TextIsWritten(ids: map<string, nat>, strs: map<nat, string>, path: seq<nat>, useStars: bool, trailing: nat,
                      s: string)
    requires trailing < |path| && s == Repeat('*', trailing) + Written(strs, path[..|path| - trailing])
    requires forall i :: |path| - trailing <= i < |path| ==> path[i] == DEREF_ID
    requires if useStars then |path| - trailing > 1 ==> path[|path| - trailing - 1] != DEREF_ID else trailing == 0
    ensures WritesAs(ids, strs, path, useStars, s)
  {
    forall ps | IsTable(ids, strs) && Known(ids, ps) && path == Ids(ids, ps)
      ensures s == Print(ps, useStars) && (WellFormed(ps) ==> IsText(ps, useStars, s))
    {
      if useStars { TrailingIs(ps, trailing); }
      WrittenIsConcat(ids, strs, path[..|path| - trailing], ps[..|path| - trailing]);
      if WellFormed(ps) { PrintIsText(ps, useStars); }
    }
  }

  function PartText(strs: map<nat, string>, id: nat): string { if id in strs then strs[id] else "???" }

  function Written(strs: map<nat, string>, path: seq<nat>): string {
    if path == [] then "" else Written(strs, path[..|path| - 1]) + PartText(strs, path[|path| - 1])
  }

  lemma {:induction false} ConcatSnoc(ps: seq<string>, p: string)
    ensures Concat(ps + [p]) == Concat(ps) + p
  {
    if ps == [] {
      assert ps + [p] == [p] && [p][1..] == [];
    } else {
      ConcatSnoc(ps[1..], p);
      assert (ps + [p])[1..] == ps[1..] + [p];
    }
  }

  lemma {:induction false} WrittenIsConcat(ids: map<string, nat>, strs: map<nat, string>, path: seq<nat>,
                                           ps: seq<string>)
    requires Bijection(ids, strs) && Known(ids, ps) && path == Ids(ids, ps)
    ensures Written(strs, path) == Concat(ps)
  {
    if ps != [] {
      var n := |ps| - 1;
      WrittenIsConcat(ids, strs, path[..n], ps[..n]);
      ConcatSnoc(ps[..n], ps[n]);
      assert ps == ps[..n] + [ps[n]];
    }
  }

  lemma {:induction false} TrailingIs(ps: seq<string>, n: nat)
    requires n < |ps| && (forall i :: |ps| - n <= i < |ps| ==> ps[i] == DEREF)
             && (1 < |ps| - n ==> ps[|ps| - n - 1] != DEREF)
    ensures Trailing(ps) == n
  {
    if n > 0 { TrailingIs(ps[..|ps| - 1], n - 1); }
  }

  lemma NextPiece(s: string, start: nat, i: nat)
    requires start < i <= |s| && (forall j :: start < j < i ==> !Separator(s[j])) && (i < |s| ==> Separator(s[i]))
    ensures Pieces(s[start..]) == [s[start..i]] + Pieces(s[i..])
  {
    NextIsAt(s[start..], i - start);
    assert s[start..][..i - start] == s[start..i] && s[start..][i - start..] == s[i..];
  }
}
