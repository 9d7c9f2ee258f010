/** What the events of a dump amount to: they nest like JSON, and reading them gives the tree back, with
    the label of a first child as the name of the array. */
module JsonReading {
  import opened TreeStreaming

  // ----- Nesting -----

  /** What is open: an object, an attribute with or without its value, or an array. */
  datatype Open = InObject | InAttribute(hasValue: bool) | InArray

  datatype Nesting = Nesting(open: seq<Open>) | Malformed

  /** Where a value may begin: at the top level, in an array, or in an attribute without one, which then
      has it. */
  function WithValue(open: seq<Open>): Nesting {
    if open == [] || open[|open| - 1] == InArray then Nesting(open)
    else if open[|open| - 1] == InAttribute(false) then Nesting(open[|open| - 1 := InAttribute(true)])
    else Malformed
  }

  function Begun(open: seq<Open>, value: Open): Nesting {
    match WithValue(open)
    case Nesting(o) => Nesting(o + [value])
    case Malformed => Malformed
  }

  function Ended(open: seq<Open>, top: Open): Nesting {
    if open != [] && open[|open| - 1] == top then Nesting(open[..|open| - 1]) else Malformed
  }

  /** Attributes and text belong into objects; what ends is what was opened last. */
  function Next(open: seq<Open>, e: Event): Nesting {
    var inObject := open != [] && open[|open| - 1] == InObject;
    match e
    case ObjectBegin => Begun(open, InObject)
    case ObjectEnd => Ended(open, InObject)
    case ArrayBegin => Begun(open, InArray)
    case ArrayEnd => Ended(open, InArray)
    case AttributeBegin(_) => if inObject then Nesting(open + [InAttribute(false)]) else Malformed
    case AttributeEnd => Ended(open, InAttribute(true))
    case Text(_) => if inObject then Nesting(open) else Malformed
  }

  function Nested(start: Nesting, events: seq<Event>): Nesting
    decreases |events|
  {
    if start.Malformed? || events == [] then start else Nested(Next(start.open, events[0]), events[1..])
  }

  lemma {:induction false} NestedConcat(start: Nesting, a: seq<Event>, b: seq<Event>)
    ensures Nested(start, a + b) == Nested(Nested(start, a), b)
    decreases |a|
  {
    if a == [] {
      assert a + b == b;
    } else if start.Nesting? {
      NestedConcat(Next(start.open, a[0]), a[1..], b);
      assert (a + b)[1..] == a[1..] + b;
    }
  }

  lemma NestedOne(open: seq<Open>, e: Event)
    ensures Nested(Nesting(open), [e]) == Next(open, e)
  {
    assert [e][1..] == [];
  }

  lemma NestedTwo(open: seq<Open>, e: Event, e': Event)
    ensures Nested(Nesting(open), [e, e']) == Nested(Next(open, e), [e'])
  {
    assert [e, e'][1..] == [e'];
  }

  ghost predicate TakesObjects(open: seq<Open>) { open == [] || open[|open| - 1] == InArray }

  lemma OpenedNests(open: seq<Open>, name: string)
    requires open != [] && open[|open| - 1] == InObject
    ensures Nested(Nesting(open), Opened(name)) == Nesting(open + [InAttribute(true), InArray])
  {
    var o := open + [InAttribute(false)];
    NestedTwo(open, AttributeBegin(Named(name)), ArrayBegin);
    NestedOne(o, ArrayBegin);
    assert o[|o| - 1 := InAttribute(true)] + [InArray] == open + [InAttribute(true), InArray];
  }

  lemma ClosedNests(open: seq<Open>)
    ensures Nested(Nesting(open + [InAttribute(true), InArray]), Closed()) == Nesting(open)
  {
    var o := open + [InAttribute(true), InArray];
    NestedTwo(o, ArrayEnd, AttributeEnd);
    assert o[..|o| - 1] == open + [InAttribute(true)];
    NestedOne(open + [InAttribute(true)], AttributeEnd);
    assert (open + [InAttribute(true)])[..|open|] == open;
  }

  /** Where objects may stand, the events of a node leave everything open as it was. */
  lemma {:induction false} JsonNests(n: Node, open: seq<Open>)
    requires TakesObjects(open)
    ensures Nested(Nesting(open), Json(n)) == Nesting(open)
    decreases n, 2
  {
    var inside := open + [InObject];
    NestedTwo(open, ObjectBegin, Text(n.text));
    NestedOne(inside, Text(n.text));
    ArrayNests(n.children, inside);
    NestedOne(inside, ObjectEnd);
    assert inside[..|inside| - 1] == open;
    NestedConcat(Nesting(open), [ObjectBegin, Text(n.text)] + JsonArray(n.children), [ObjectEnd]);
    NestedConcat(Nesting(open), [ObjectBegin, Text(n.text)], JsonArray(n.children));
  }

  lemma {:induction false} ArrayNests(cs: seq<Child>, open: seq<Open>)
    requires open != [] && open[|open| - 1] == InObject
    ensures Nested(Nesting(open), JsonArray(cs)) == Nesting(open)
    decreases cs, 1
  {
    if cs != [] {
      var inside := open + [InAttribute(true), InArray];
      OpenedNests(open, cs[0].name);
      AllNest(cs, inside);
      ClosedNests(open);
      NestedConcat(Nesting(open), Opened(cs[0].name) + JsonAll(cs), Closed());
      NestedConcat(Nesting(open), Opened(cs[0].name), JsonAll(cs));
    }
  }

  lemma {:induction false} AllNest(cs: seq<Child>, open: seq<Open>)
    requires TakesObjects(open)
    ensures Nested(Nesting(open), JsonAll(cs)) == Nesting(open)
    decreases cs, 0
  {
    if cs != [] {
      JsonNests(cs[0].node, open);
      AllNest(cs[1..], open);
      NestedConcat(Nesting(open), Json(cs[0].node), JsonAll(cs[1..]));
    }
  }

  /** The events of a tree are balanced, attributes stand in objects with one value each. */
  lemma DumpIsBalanced(n: Node)
    ensures Nested(Nesting([]), Json(n)) == Nesting([])
  {
    JsonNests(n, []);
  }

  // ----- Reading -----

  /** A node as it is read: its text, the name of the array of its children, and the children. */
  datatype Tree = Tree(text: string, arrayName: string, children: seq<Tree>)

  /** What a dump keeps of a node: everything but the labels of children after the first. */
  function Kept(n: Node): Tree { Tree(n.text, ArrayName(n.children), KeptAll(n.children)) }

  function ArrayName(cs: seq<Child>): string {
    if cs == [] then "" else if cs[0].name == "" then "inner" else cs[0].name
  }

  function KeptAll(cs: seq<Child>): (ts: seq<Tree>)
    ensures |ts| == |cs|
  {
    if cs == [] then [] else [Kept(cs[0].node)] + KeptAll(cs[1..])
  }

  /** Objects that have begun, from the outside in, and after them the finished ones of the innermost. */
  datatype Reader = Reader(begun: seq<Tree>, finished: seq<Tree>)

  /** The object that began last takes texts, names and finished children. */
  function ReadOne(r: Reader, e: Event): Reader {
    var last := |r.begun| - 1;
    match e
    case ObjectBegin => Reader(r.begun + [Tree("", "", [])], r.finished)
    case ObjectEnd =>
      if r.begun == [] then r
      else if last == 0 then Reader([], r.finished + [r.begun[0]])
      else var outer := r.begun[last - 1];
        Reader(r.begun[..last - 1] + [outer.(children := outer.children + [r.begun[last]])], r.finished)
    case AttributeBegin(name) =>
      if r.begun == [] then r else r.(begun := r.begun[..last] + [r.begun[last].(arrayName := name)])
    case Text(text) => if r.begun == [] then r else r.(begun := r.begun[..last] + [r.begun[last].(text := text)])
    case _ => r
  }

  function Read(r: Reader, events: seq<Event>): Reader
    decreases |events|
  {
    if events == [] then r else Read(ReadOne(r, events[0]), events[1..])
  }

  lemma {:induction false} ReadConcat(r: Reader, a: seq<Event>, b: seq<Event>)
    ensures Read(r, a + b) == Read(Read(r, a), b)
    decreases |a|
  {
    if a == [] {
      assert a + b == b;
    } else {
      ReadConcat(ReadOne(r, a[0]), a[1..], b);
      assert (a + b)[1..] == a[1..] + b;
    }
  }

  lemma ReadTwo(r: Reader, e: Event, e': Event)
    ensures Read(r, [e]) == ReadOne(r, e) && Read(r, [e, e']) == ReadOne(ReadOne(r, e), e')
  {
    assert [e][1..] == [] && [e, e'][1..] == [e'] && [e'][1..] == [];
    assert Read(ReadOne(r, e), [e']) == ReadOne(ReadOne(r, e), e');
  }

  /** r with one more child, or one more finished tree. */
  function With(r: Reader, ts: seq<Tree>): Reader {
    if r.begun == [] then Reader([], r.finished + ts)
    else var last := |r.begun| - 1;
      r.(begun := r.begun[..last] + [r.begun[last].(children := r.begun[last].children + ts)])
  }

  lemma WithMore(r: Reader, t: Tree, ts: seq<Tree>)
    ensures With(With(r, [t]), ts) == With(r, [t] + ts) && With(r, []) == r
  {
    if r.begun == [] {
      assert r.finished + [t] + ts == r.finished + ([t] + ts) && r.finished + [] == r.finished;
    } else {
      var last := |r.begun| - 1;
      var kids := r.begun[last].children;
      assert kids + [t] + ts == kids + ([t] + ts) && kids + [] == kids;
      assert r.begun[..last] + [r.begun[last]] == r.begun;
      assert With(r, [t]).begun[..last] == r.begun[..last];
    }
  }

  /** Reading the events of a node adds what is kept of it. */
  lemma {:induction false} JsonReads(n: Node, r: Reader)
    ensures Read(r, Json(n)) == With(r, [Kept(n)])
    decreases n, 2
  {
    var begun := Reader(r.begun + [Tree(n.text, "", [])], r.finished);
    ReadTwo(r, ObjectBegin, Text(n.text));
    assert ReadOne(ReadOne(r, ObjectBegin), Text(n.text)) == begun;
    ArrayReads(n.children, begun, Tree(n.text, "", []));
    var full := Reader(r.begun + [Kept(n)], r.finished);
    ReadTwo(full, ObjectEnd, ObjectEnd);
    ReadConcat(r, [ObjectBegin, Text(n.text)] + JsonArray(n.children), [ObjectEnd]);
    ReadConcat(r, [ObjectBegin, Text(n.text)], JsonArray(n.children));
    EndAdds(r, Kept(n));
  }

  lemma EndAdds(r: Reader, t: Tree)
    ensures ReadOne(Reader(r.begun + [t], r.finished), ObjectEnd) == With(r, [t])
  {
    var b := r.begun + [t];
    if r.begun != [] { assert b[..|b| - 2] == r.begun[..|r.begun| - 1]; }
  }

  lemma {:induction false} ArrayReads(cs: seq<Child>, r: Reader, t: Tree)
    requires r.begun != [] && r.begun[|r.begun| - 1] == t && t.children == [] && t.arrayName == ""
    ensures Read(r, JsonArray(cs)) ==
            Reader(r.begun[..|r.begun| - 1]
              + [Tree(t.text, ArrayName(cs), KeptAll(cs))], r.finished)
    decreases cs, 1
  {
    var outer := r.begun[..|r.begun| - 1];
    if cs == [] {
      assert outer + [t] == r.begun;
    } else {
      var name := Named(cs[0].name);
      var named := Reader(outer + [t.(arrayName := name)], r.finished);
      ReadTwo(r, AttributeBegin(name), ArrayBegin);
      AllRead(cs, named);
      var full := With(named, KeptAll(cs));
      assert named.begun[..|named.begun| - 1] == outer && [] + KeptAll(cs) == KeptAll(cs);
      ReadTwo(full, ArrayEnd, AttributeEnd);
      ReadConcat(r, Opened(cs[0].name) + JsonAll(cs), Closed());
      ReadConcat(r, Opened(cs[0].name), JsonAll(cs));
    }
  }

  lemma {:induction false} AllRead(cs: seq<Child>, r: Reader)
    ensures Read(r, JsonAll(cs)) == With(r, KeptAll(cs))
    decreases cs, 0
  {
    if cs == [] {
      WithMore(r, Tree("", "", []), []);
    } else {
      JsonReads(cs[0].node, r);
      AllRead(cs[1..], With(r, [Kept(cs[0].node)]));
      WithMore(r, Kept(cs[0].node), KeptAll(cs[1..]));
      ReadConcat(r, Json(cs[0].node), JsonAll(cs[1..]));
    }
  }

  /** Reading a dump gives the tree back: every text in its place, and each array under the label of its
      first child. */
  lemma DumpReadsBack(n: Node)
    ensures Read(Reader([], []), Json(n)) == Reader([], [Kept(n)])
  {
    JsonReads(n, Reader([], []));
  }
}
