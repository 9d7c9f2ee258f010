/** Splitting a file of constraints into one file for each function, and which clauses a conversion
    for one function takes from a file. */
module SplitConstraints {

  /** A line, by what the two programs make of it.  `Note` is any comment or tag that opens no block. */
  datatype Line =
    | Open(name: string) | Close | CommonBegin | CommonEnd | YamlBegin | YamlEnd
    | ClauseLine(clause: string) | Note(text: string) | Blank

  // ----- Splitting -----

  /** The non-blank lines outside functions. */
  function CommonLines(lines: seq<Line>, inside: bool): seq<Line> {
    if lines == [] then [] else
      var line, rest := lines[0], lines[1..];
      if line.Open? then CommonLines(rest, true)
      else if line.Close? then CommonLines(rest, false)
      else (if inside || line.Blank? then [] else [line]) + CommonLines(rest, inside)
  }

  datatype Option<T> = None | Some(value: T)

  type Files = map<string, seq<Line>>

  /** One line of the second pass: the function that is being copied, and the files so far. */
  function CopyLine(line: Line, current: Option<string>, files: Files, common: seq<Line>): (r: (Option<string>, Files))
    requires current.Some? ==> current.value in files
    ensures r.0.Some? ==> r.0.value in r.1
  {
    if line.Open? then (Some(line.name), files[line.name := [line]])
    else if current.None? then (None, files)
    else if line.Close? then (None, files[current.value := files[current.value] + [line] + common])
    else (current, files[current.value := files[current.value] + [line]])
  }

  function CopyLines(lines: seq<Line>, current: Option<string>, files: Files, common: seq<Line>): Files
    requires current.Some? ==> current.value in files
  {
    if lines == [] then files else
      var (current', files') := CopyLine(lines[0], current, files, common);
      CopyLines(lines[1..], current', files', common)
  }

  method Split(lines: seq<Line>) returns (files: Files)
    ensures files == CopyLines(lines, None, map[], CommonLines(lines, false))
  {
    var common, inside := [], false;
    for i := 0 to |lines|
      invariant common + CommonLines(lines[i..], inside) == CommonLines(lines, false)
    {
      var line := lines[i];
      assert lines[i..][0] == line && lines[i..][1..] == lines[i + 1..];
      if line.Open? {
        inside := true;
      } else if line.Close? {
        inside := false;
      } else if !inside && !line.Blank? {
        common := common + [line];
      }
    }
    assert common == CommonLines(lines, false);
    var current: Option<string> := None;
    files := map[];
    for i := 0 to |lines|
      invariant current.Some? ==> current.value in files
      invariant CopyLines(lines[i..], current, files, common) == CopyLines(lines, None, map[], common)
    {
      var line := lines[i];
      assert lines[i..][0] == line && lines[i..][1..] == lines[i + 1..];
      if line.Open? {
        current, files := Some(line.name), files[line.name := [line]];
      } else if line.Close? {
        if current.Some? { files := files[current.value := files[current.value] + [line] + common]; }
        current := None;
      } else if current.Some? {
        files := files[current.value := files[current.value] + [line]];
      }
    }
  }

  // ----- Converting -----

  /** The name that stands for every function. */
  const ALL_FUNCS: string := "__all_funcs"

  predicate Meant(name: string, target: string) { name == target || target == ALL_FUNCS }

  /** The clauses taken for one function.  The end of a function does not end the taking: only the
      next block decides again. */
  function Taken(lines: seq<Line>, target: string, inside: bool, inTarget: bool): seq<string> {
    if lines == [] then [] else
      var rest := lines[1..];
      match lines[0]
      case Open(name) =>
        if inside then Taken(rest, target, inside, inTarget) else Taken(rest, target, true, Meant(name, target))
      case Close => Taken(rest, target, false, inTarget)
      case CommonBegin => Taken(rest, target, inside, true)
      case YamlBegin => Taken(rest, target, inside, true)
      case CommonEnd => Taken(rest, target, inside, false)
      case YamlEnd => Taken(rest, target, inside, false)
      case ClauseLine(c) => (if inTarget then [c] else []) + Taken(rest, target, inside, inTarget)
      case _ => Taken(rest, target, inside, inTarget)
  }

  method TakeClauses(lines: seq<Line>, target: string) returns (clauses: seq<string>)
    ensures clauses == Taken(lines, target, false, false)
  {
    var insideFunc, inTargetFunc := false, false;
    clauses := [];
    for i := 0 to |lines|
      invariant clauses + Taken(lines[i..], target, insideFunc, inTargetFunc) == Taken(lines, target, false, false)
    {
      assert lines[i..][0] == lines[i] && lines[i..][1..] == lines[i + 1..];
      match lines[i]
      case Open(name) => if !insideFunc { insideFunc, inTargetFunc := true, Meant(name, target); }
      case Close => insideFunc := false;
      case CommonBegin => inTargetFunc := true;
      case YamlBegin => inTargetFunc := true;
      case CommonEnd => inTargetFunc := false;
      case YamlEnd => inTargetFunc := false;
      case ClauseLine(c) => if inTargetFunc { clauses := clauses + [c]; }
      case _ =>
    }
  }

  // ----- Which lines those are -----

  /** A function has been opened before line i, and not closed since. */
  ghost predicate Inside(lines: seq<Line>, i: nat)
    requires i <= |lines|
  {
    exists o :: OpenSince(lines, o, i)
  }

  ghost predicate OpenSince(lines: seq<Line>, o: int, i: nat)
    requires i <= |lines|
  {
    0 <= o < i && lines[o].Open? && forall c :: o < c < i ==> !lines[c].Close?
  }

  /** Line d decides whether what follows is taken: a function opens, unless inside another, or common
      lines begin or end. */
  ghost predicate Decides(lines: seq<Line>, d: nat)
    requires d < |lines|
  {
    || lines[d].CommonBegin? || lines[d].CommonEnd? || lines[d].YamlBegin? || lines[d].YamlEnd?
    || (lines[d].Open? && !Inside(lines, d))
  }

  ghost predicate BeginsTaking(line: Line, target: string) {
    line.CommonBegin? || line.YamlBegin? || (line.Open? && (line.name == target || target == ALL_FUNCS))
  }

  /** The last line before i that decides is one that begins the taking. */
  ghost predicate Taking(lines: seq<Line>, target: string, i: nat)
    requires i <= |lines|
  {
    exists d: nat :: DecidedBy(lines, target, d, i)
  }

  ghost predicate DecidedBy(lines: seq<Line>, target: string, d: nat, i: nat)
    requires i <= |lines|
  {
    && d < i && Decides(lines, d) && BeginsTaking(lines[d], target)
    && forall e: nat :: d < e < i ==> !Decides(lines, e)
  }

  lemma InsideNext(lines: seq<Line>, i: nat)
    requires i < |lines|
    ensures Inside(lines, i + 1) <==> lines[i].Open? || (!lines[i].Close? && Inside(lines, i))
  {
    if lines[i].Open? { assert OpenSince(lines, i, i + 1); }
    if !lines[i].Close? && Inside(lines, i) {
      var o :| OpenSince(lines, o, i);
      assert OpenSince(lines, o, i + 1);
    }
    if Inside(lines, i + 1) && !lines[i].Open? {
      var o :| OpenSince(lines, o, i + 1);
      assert OpenSince(lines, o, i);
    }
  }

  lemma TakingNext(lines: seq<Line>, target: string, i: nat)
    requires i < |lines|
    ensures Taking(lines, target, i + 1) <==>
            if Decides(lines, i) then BeginsTaking(lines[i], target) else Taking(lines, target, i)
  {
    if Decides(lines, i) && BeginsTaking(lines[i], target) { assert DecidedBy(lines, target, i, i + 1); }
    if !Decides(lines, i) && Taking(lines, target, i) {
      var d: nat :| DecidedBy(lines, target, d, i);
      assert DecidedBy(lines, target, d, i + 1);
    }
    if Taking(lines, target, i + 1) {
      var d: nat :| DecidedBy(lines, target, d, i + 1);
      if !Decides(lines, i) { assert DecidedBy(lines, target, d, i); }
    }
  }

  /** The positions from i on of the clauses that are taken, in order. */
  ghost function TakenAt(lines: seq<Line>, target: string, i: nat): (ks: seq<nat>)
    requires i <= |lines|
    ensures forall k :: k in ks <==> i <= k < |lines| && lines[k].ClauseLine? && Taking(lines, target, k)
    ensures forall m, n :: 0 <= m < n < |ks| ==> ks[m] < ks[n]
    decreases |lines| - i
  {
    if i == |lines| then [] else
      var rest := TakenAt(lines, target, i + 1);
      assert forall m :: 0 <= m < |rest| ==> rest[m] in rest;
      if lines[i].ClauseLine? && Taking(lines, target, i) then [i] + rest else rest
  }

  ghost function ClausesAt(lines: seq<Line>, ks: seq<nat>): (cs: seq<string>)
    requires forall k :: k in ks ==> k < |lines| && lines[k].ClauseLine?
    ensures |cs| == |ks| && forall m :: 0 <= m < |ks| ==> ks[m] in ks && cs[m] == lines[ks[m]].clause
  {
    if ks == [] then [] else
      assert ks[0] in ks && forall k :: k in ks[1..] ==> k in ks;
      [lines[ks[0]].clause] + ClausesAt(lines, ks[1..])
  }

  lemma TakenNext(lines: seq<Line>, target: string, i: nat)
    requires i < |lines|
    ensures Taken(lines[i..], target, Inside(lines, i), Taking(lines, target, i))
            == (if lines[i].ClauseLine? && Taking(lines, target, i) then [lines[i].clause] else [])
              + Taken(lines[i + 1..], target, Inside(lines, i + 1), Taking(lines, target, i + 1))
  {
    assert lines[i..][0] == lines[i] && lines[i..][1..] == lines[i + 1..];
    InsideNext(lines, i);
    TakingNext(lines, target, i);
  }

  lemma {:induction false} TakenFromPosition(lines: seq<Line>, target: string, i: nat)
    requires i <= |lines|
    ensures Taken(lines[i..], target, Inside(lines, i), Taking(lines, target, i))
            == ClausesAt(lines, TakenAt(lines, target, i))
    decreases |lines| - i
  {
    if i < |lines| {
      TakenNext(lines, target, i);
      TakenFromPosition(lines, target, i + 1);
      if lines[i].ClauseLine? && Taking(lines, target, i) {
        assert TakenAt(lines, target, i)[1..] == TakenAt(lines, target, i + 1);
      }
    }
  }

  /** In any file, well-formed or not, a clause is taken if and only if the last line before it that
      decides begins the taking; in particular the end of a function decides nothing. */
  lemma TakenMeans(lines: seq<Line>, target: string)
    ensures Taken(lines, target, false, false) == ClausesAt(lines, TakenAt(lines, target, 0))
  {
    assert lines[0..] == lines;
    TakenFromPosition(lines, target, 0);
  }

  /** The positions from i on of the lines that every file gets, in order. */
  ghost function CommonAt(lines: seq<Line>, i: nat): (ks: seq<nat>)
    requires i <= |lines|
    ensures forall k :: k in ks <==>
              i <= k < |lines| && !lines[k].Open? && !lines[k].Close? && !lines[k].Blank? && !Inside(lines, k)
    ensures forall m, n :: 0 <= m < n < |ks| ==> ks[m] < ks[n]
    decreases |lines| - i
  {
    if i == |lines| then [] else
      var rest := CommonAt(lines, i + 1);
      assert forall m :: 0 <= m < |rest| ==> rest[m] in rest;
      if !lines[i].Open? && !lines[i].Close? && !lines[i].Blank? && !Inside(lines, i) then [i] + rest else rest
  }

  ghost function LinesAt(lines: seq<Line>, ks: seq<nat>): (ls: seq<Line>)
    requires forall k :: k in ks ==> k < |lines|
    ensures |ls| == |ks| && forall m :: 0 <= m < |ks| ==> ks[m] in ks && ls[m] == lines[ks[m]]
  {
    if ks == [] then [] else
      assert ks[0] in ks && forall k :: k in ks[1..] ==> k in ks;
      [lines[ks[0]]] + LinesAt(lines, ks[1..])
  }

  lemma {:induction false} CommonFromPosition(lines: seq<Line>, i: nat)
    requires i <= |lines|
    ensures CommonLines(lines[i..], Inside(lines, i)) == LinesAt(lines, CommonAt(lines, i))
    decreases |lines| - i
  {
    if i < |lines| {
      assert lines[i..][0] == lines[i] && lines[i..][1..] == lines[i + 1..];
      InsideNext(lines, i);
      CommonFromPosition(lines, i + 1);
      if !lines[i].Open? && !lines[i].Close? && !lines[i].Blank? && !Inside(lines, i) {
        assert CommonAt(lines, i)[1..] == CommonAt(lines, i + 1);
      }
    }
  }

  /** The common lines are those outside functions that are not blank, in order, whatever they hold. */
  lemma CommonMeans(lines: seq<Line>)
    ensures CommonLines(lines, false) == LinesAt(lines, CommonAt(lines, 0))
  {
    assert lines[0..] == lines;
    CommonFromPosition(lines, 0);
  }

  // ----- Well-formed files -----

  /** `Stray` are lines between the other blocks. */
  datatype Block =
    | Function(name: string, body: seq<Line>)
    | Common(body: seq<Line>)
    | Yaml(body: seq<Line>)
    | Stray(body: seq<Line>)

  predicate Plain(body: seq<Line>) {
    forall i :: 0 <= i < |body| ==> body[i].ClauseLine? || body[i].Note? || body[i].Blank?
  }

  function OpenOf(b: Block): Line { if b.Function? then Open(b.name) else if b.Common? then CommonBegin else YamlBegin }

  function CloseOf(b: Block): Line { if b.Function? then Close else if b.Common? then CommonEnd else YamlEnd }

  function LinesOf(b: Block): seq<Line> { if b.Stray? then b.body else [OpenOf(b)] + b.body + [CloseOf(b)] }

  function Flatten(bs: seq<Block>): seq<Line> { if bs == [] then [] else LinesOf(bs[0]) + Flatten(bs[1..]) }

  predicate NoClauses(body: seq<Line>) { forall i :: 0 <= i < |body| ==> !body[i].ClauseLine? }

  /** Blocks are not nested, and hold no tags that open or close one; there are no clauses between
      blocks. */
  ghost predicate WellFormed(bs: seq<Block>) {
    forall i :: 0 <= i < |bs| ==> Plain(bs[i].body) && (bs[i].Stray? ==> NoClauses(bs[i].body))
  }

  function ClausesOf(body: seq<Line>): seq<string> {
    if body == [] then [] else (if body[0].ClauseLine? then [body[0].clause] else []) + ClausesOf(body[1..])
  }

  /** What the conversion should take: the target's clauses and all that are common. */
  function Wanted(bs: seq<Block>, target: string): seq<string> {
    if bs == [] then [] else
      (if bs[0].Function? && !Meant(bs[0].name, target) then [] else ClausesOf(bs[0].body)) + Wanted(bs[1..], target)
  }

  lemma {:induction false} NothingToTake(body: seq<Line>)
    requires NoClauses(body)
    ensures ClausesOf(body) == []
  {
    if body != [] { NothingToTake(body[1..]); }
  }

  lemma Assoc<T>(x: seq<T>, y: seq<T>, z: seq<T>)
    ensures x + (y + z) == x + y + z
    ensures [] + y == y
  {
  }

  lemma BlockLines(open: Line, body: seq<Line>, close: Line, rest: seq<Line>)
    ensures var lines := [open] + body + [close] + rest;
            lines[0] == open && lines[1..] == body + ([close] + rest) && ([close] + rest)[0] == close
              && ([close] + rest)[1..] == rest
  {
  }

  lemma {:induction false} TakenFromBody(body: seq<Line>, rest: seq<Line>, target: string, inside: bool, inTarget: bool)
    requires Plain(body)
    ensures Taken(body + rest, target, inside, inTarget) ==
            (if inTarget then ClausesOf(body) else []) + Taken(rest, target, inside, inTarget)
  {
    if body == [] {
      assert body + rest == rest;
    } else {
      TakenFromBody(body[1..], rest, target, inside, inTarget);
      assert (body + rest)[0] == body[0] && (body + rest)[1..] == body[1..] + rest;
      Assoc(if inTarget && body[0].ClauseLine? then [body[0].clause]
        else [], if inTarget then ClausesOf(body[1..]) else [], Taken(rest, target, inside, inTarget));
    }
  }

  /** The conversion takes exactly what is wanted, whatever it took before the first block. */
  lemma {:induction false} TakenIsWanted(bs: seq<Block>, target: string, inTarget: bool)
    requires WellFormed(bs)
    ensures Taken(Flatten(bs), target, false, inTarget) == Wanted(bs, target)
  {
    if bs == [] {
    } else if bs[0].Stray? {
      NothingToTake(bs[0].body);
      TakenFromBody(bs[0].body, Flatten(bs[1..]), target, false, inTarget);
      TakenIsWanted(bs[1..], target, inTarget);
    } else {
      var body, rest := bs[0].body, Flatten(bs[1..]);
      var taking := !bs[0].Function? || Meant(bs[0].name, target);
      BlockLines(OpenOf(bs[0]), body, CloseOf(bs[0]), rest);
      TakenFromBody(body, [CloseOf(bs[0])] + rest, target, bs[0].Function?, taking);
      TakenIsWanted(bs[1..], target, if bs[0].Function? then taking else false);
    }
  }

  // ----- What a split file holds -----

  function NonBlank(body: seq<Line>): seq<Line> {
    if body == [] then [] else (if body[0].Blank? then [] else [body[0]]) + NonBlank(body[1..])
  }

  /** The blocks outside functions, without blank lines. */
  function Shared(bs: seq<Block>): seq<Block> {
    if bs == [] then [] else
      SharedBlock(bs[0]) + Shared(bs[1..])
  }

  lemma {:induction false} CommonOfBody(body: seq<Line>, rest: seq<Line>, inside: bool)
    requires Plain(body)
    ensures CommonLines(body + rest, inside) == (if inside then [] else NonBlank(body)) + CommonLines(rest, inside)
  {
    if body == [] {
      assert body + rest == rest;
    } else {
      CommonOfBody(body[1..], rest, inside);
      assert (body + rest)[0] == body[0] && (body + rest)[1..] == body[1..] + rest;
      Assoc(if inside || body[0].Blank? then []
        else [body[0]], if inside then [] else NonBlank(body[1..]), CommonLines(rest, inside));
    }
  }

  /** What a block adds to the common lines. */
  function SharedBlock(b: Block): seq<Block> {
    match b
    case Function(_, _) => []
    case Common(body) => [Common(NonBlank(body))]
    case Yaml(body) => [Yaml(NonBlank(body))]
    case Stray(body) => [Stray(NonBlank(body))]
  }

  lemma Regroup(open: Line, body: seq<Line>, close: Line, rest: seq<Line>)
    ensures [open] + (body + ([close] + rest)) == [open] + body + [close] + rest
  {
  }

  lemma CommonOfBlock(b: Block, rest: seq<Line>)
    requires Plain(b.body)
    ensures CommonLines(LinesOf(b) + rest, false) == Flatten(SharedBlock(b)) + CommonLines(rest, false)
  {
    if b.Stray? {
      CommonOfBody(b.body, rest, false);
      FlattenOne(SharedBlock(b)[0]);
      return;
    }
    BlockLines(OpenOf(b), b.body, CloseOf(b), rest);
    CommonOfBody(b.body, [CloseOf(b)] + rest, b.Function?);
    if b.Function? {
      assert Flatten(SharedBlock(b)) + CommonLines(rest, false) == CommonLines(rest, false);
    } else {
      FlattenOne(SharedBlock(b)[0]);
      Regroup(OpenOf(b), NonBlank(b.body), CloseOf(b), CommonLines(rest, false));
    }
  }

  lemma FlattenOne(b: Block)
    ensures Flatten([b]) == LinesOf(b)
  {
    assert [b][1..] == [];
  }

  lemma FlattenShared(b: Block, ys: seq<Block>)
    ensures Flatten(SharedBlock(b) + ys) == Flatten(SharedBlock(b)) + Flatten(ys)
  {
    if b.Function? {
      assert SharedBlock(b) + ys == ys;
    } else {
      FlattenOne(SharedBlock(b)[0]);
      assert SharedBlock(b) == [SharedBlock(b)[0]] && (SharedBlock(b) + ys)[1..] == ys;
    }
  }

  lemma {:induction false} CommonIsShared(bs: seq<Block>)
    requires WellFormed(bs)
    ensures CommonLines(Flatten(bs), false) == Flatten(Shared(bs))
  {
    if bs != [] {
      CommonOfBlock(bs[0], Flatten(bs[1..]));
      CommonIsShared(bs[1..]);
      FlattenShared(bs[0], Shared(bs[1..]));
    }
  }

  lemma {:induction false} SharedIsWellFormed(bs: seq<Block>)
    requires WellFormed(bs)
    ensures WellFormed(Shared(bs)) && forall i :: 0 <= i < |Shared(bs)| ==> !Shared(bs)[i].Function?
  {
    if bs != [] {
      SharedIsWellFormed(bs[1..]);
      NonBlankIsPlain(bs[0].body);
    }
  }

  lemma {:induction false} NonBlankIsPlain(body: seq<Line>)
    requires Plain(body)
    ensures Plain(NonBlank(body)) && (NoClauses(body) ==> NoClauses(NonBlank(body)))
  {
    if body != [] { NonBlankIsPlain(body[1..]); }
  }

  // Copying.

  lemma {:induction false} CopyBody(body: seq<Line>, rest: seq<Line>, n: string, files: Files, common: seq<Line>)
    requires Plain(body) && n in files
    ensures CopyLines(body + rest, Some(n), files, common)
            == CopyLines(rest, Some(n), files[n := files[n] + body], common)
  {
    if body == [] {
      assert body + rest == rest && files[n] + body == files[n] && files[n := files[n]] == files;
    } else {
      var files' := files[n := files[n] + [body[0]]];
      assert (body + rest)[1..] == body[1..] + rest;
      CopyBody(body[1..], rest, n, files', common);
      assert files[n] + [body[0]] + body[1..] == files[n] + body;
      assert files'[n := files'[n] + body[1..]] == files[n := files[n] + body];
    }
  }

  lemma {:induction false} CopyNothing(lines: seq<Line>, rest: seq<Line>, files: Files, common: seq<Line>)
    requires forall i :: 0 <= i < |lines| ==> !lines[i].Open?
    ensures CopyLines(lines + rest, None, files, common) == CopyLines(rest, None, files, common)
  {
    if lines == [] {
      assert lines + rest == rest;
    } else {
      assert (lines + rest)[1..] == lines[1..] + rest;
      CopyNothing(lines[1..], rest, files, common);
    }
  }

  /** The files after one block has been copied. */
  function AfterBlock(b: Block, files: Files, common: seq<Line>): Files {
    if b.Function? then files[b.name := LinesOf(b) + common] else files
  }

  lemma CopyFunction(n: string, body: seq<Line>, rest: seq<Line>, files: Files, common: seq<Line>)
    requires Plain(body)
    ensures CopyLines([Open(n)] + body + [Close] + rest, None, files, common) ==
            CopyLines(rest, None, files[n := [Open(n)] + body + [Close] + common], common)
  {
    var begun := files[n := [Open(n)]];
    BlockLines(Open(n), body, Close, rest);
    CopyBody(body, [Close] + rest, n, begun, common);
    var copied := begun[n := begun[n] + body];
    assert copied[n] == [Open(n)] + body;
    assert copied[n := copied[n] + [Close] + common] == files[n := [Open(n)] + body + [Close] + common];
  }

  lemma CopyBlock(bs: seq<Block>, files: Files, common: seq<Line>)
    requires WellFormed(bs) && bs != []
    ensures CopyLines(Flatten(bs), None, files, common)
            == CopyLines(Flatten(bs[1..]), None, AfterBlock(bs[0], files, common), common)
  {
    if bs[0].Function? {
      CopyFunction(bs[0].name, bs[0].body, Flatten(bs[1..]), files, common);
    } else {
      CopyNothing(LinesOf(bs[0]), Flatten(bs[1..]), files, common);
    }
  }

  ghost predicate Names(bs: seq<Block>, n: string) { exists i :: 0 <= i < |bs| && bs[i].Function? && bs[i].name == n }

  lemma NamesTail(bs: seq<Block>, n: string)
    requires bs != [] && !Names(bs, n)
    ensures !Names(bs[1..], n) && !(bs[0].Function? && bs[0].name == n)
  {
    forall j | 0 <= j < |bs[1..]| && bs[1..][j].Function?
      ensures bs[1..][j].name != n
    {
      assert bs[j + 1] == bs[1..][j];
    }
  }

  lemma {:induction false} FileKept(bs: seq<Block>, files: Files, common: seq<Line>, n: string)
    requires WellFormed(bs) && !Names(bs, n) && n in files
    ensures n in CopyLines(Flatten(bs), None, files, common)
            && CopyLines(Flatten(bs), None, files, common)[n] == files[n]
  {
    if bs != [] {
      CopyBlock(bs, files, common);
      NamesTail(bs, n);
      FileKept(bs[1..], AfterBlock(bs[0], files, common), common, n);
    }
  }

  /** The file of a function holds its own block and the common lines. */
  lemma {:induction false} FileOf(bs: seq<Block>, i: nat, files: Files, common: seq<Line>)
    requires WellFormed(bs) && i < |bs| && bs[i].Function? && !Names(bs[i + 1..], bs[i].name)
    ensures var out := CopyLines(Flatten(bs), None, files, common);
            bs[i].name in out && out[bs[i].name] == LinesOf(bs[i]) + common
  {
    CopyBlock(bs, files, common);
    if i == 0 {
      FileKept(bs[1..], AfterBlock(bs[0], files, common), common, bs[0].name);
    } else {
      assert bs[1..][i - 1 + 1..] == bs[i + 1..];
      FileOf(bs[1..], i - 1, AfterBlock(bs[0], files, common), common);
    }
  }

  lemma {:induction false} WantedAround(bs: seq<Block>, i: nat)
    requires i < |bs| && bs[i].Function? && !Names(bs[..i], bs[i].name) && !Names(bs[i + 1..], bs[i].name)
    requires bs[i].name != ALL_FUNCS
    ensures multiset(Wanted(bs, bs[i].name))
            == multiset(ClausesOf(bs[i].body)) + multiset(Wanted(Shared(bs), bs[i].name))
  {
    var n := bs[i].name;
    if i == 0 {
      NoneOfTarget(bs[1..], n);
      assert Shared(bs) == Shared(bs[1..]);
    } else {
      var rest := bs[1..];
      assert rest[..i - 1] == bs[..i][1..] && rest[i - 1 + 1..] == bs[i + 1..];
      NamesTail(bs[..i], n);
      WantedAround(rest, i - 1);
      WantedFirst(bs, n);
    }
  }

  lemma WantedFirst(bs: seq<Block>, n: string)
    requires bs != [] && (bs[0].Function? ==> bs[0].name != n) && n != ALL_FUNCS
    ensures Wanted(bs, n) == (if bs[0].Function? then [] else ClausesOf(bs[0].body)) + Wanted(bs[1..], n)
    ensures Wanted(Shared(bs), n)
            == (if bs[0].Function? then [] else ClausesOf(NonBlank(bs[0].body))) + Wanted(Shared(bs[1..]), n)
    ensures ClausesOf(NonBlank(bs[0].body)) == ClausesOf(bs[0].body)
  {
    ClausesNonBlank(bs[0].body);
    if bs[0].Function? {
      assert Shared(bs) == Shared(bs[1..]);
    } else {
      assert Shared(bs)[1..] == Shared(bs[1..]);
    }
  }

  lemma {:induction false} ClausesNonBlank(body: seq<Line>)
    ensures ClausesOf(NonBlank(body)) == ClausesOf(body)
  {
    if body != [] {
      ClausesNonBlank(body[1..]);
      if body[0].Blank? {
        assert NonBlank(body) == NonBlank(body[1..]);
      } else {
        assert NonBlank(body)[1..] == NonBlank(body[1..]);
      }
    }
  }

  lemma {:induction false} NoneOfTarget(bs: seq<Block>, n: string)
    requires !Names(bs, n) && n != ALL_FUNCS
    ensures Wanted(bs, n) == Wanted(Shared(bs), n)
  {
    if bs != [] {
      NamesTail(bs, n);
      NoneOfTarget(bs[1..], n);
      WantedFirst(bs, n);
    }
  }

  /** Converting the split file of a function takes the same clauses as converting the whole file
      for that function. */
  lemma {:induction false} SplitAgrees(bs: seq<Block>, i: nat)
    requires WellFormed(bs) && i < |bs| && bs[i].Function? && !Names(bs[..i], bs[i].name)
             && !Names(bs[i + 1..], bs[i].name) && bs[i].name != ALL_FUNCS
    ensures var n := bs[i].name;
            var lines := Flatten(bs);
            var files := CopyLines(lines, None, map[], CommonLines(lines, false));
            n in files && multiset(Taken(files[n], n, false, false)) == multiset(Taken(lines, n, false, false))
  {
    var n, common := bs[i].name, CommonLines(Flatten(bs), false);
    FileOf(bs, i, map[], common);
    CommonIsShared(bs);
    SharedIsWellFormed(bs);
    var split := [bs[i]] + Shared(bs);
    assert Flatten(split) == LinesOf(bs[i]) + common by { assert split[1..] == Shared(bs); }
    assert WellFormed(split);
    TakenIsWanted(split, n, false);
    TakenIsWanted(bs, n, false);
    assert split[1..] == Shared(bs);
    WantedAround(bs, i);
  }
}
