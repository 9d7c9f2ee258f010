/** Printing a tree with one child of lookahead: a child is dumped only when the next one arrives, or
    its parent ends, because the output differs for the last child. */
module TreeStreaming {

  /** A node writes its own text first and then adds its children, each under a label. */
  datatype Node = Node(text: string, children: seq<Child>)

  datatype Child = Child(name: string, node: Node)

  /** A deferred child, and whether it was the first of its parent. */
  datatype Task = Task(name: string, node: Node, wasFirst: bool)

  ghost function Size(n: Node): nat { 1 + SizeAll(n.children) }

  ghost function SizeAll(cs: seq<Child>): nat { if cs == [] then 0 else Size(cs[0].node) + SizeAll(cs[1..]) }

  lemma {:induction false} ChildIsSmaller(cs: seq<Child>, i: nat)
    requires i < |cs|
    ensures Size(cs[i].node) <= SizeAll(cs)
  {
    if i > 0 { ChildIsSmaller(cs[1..], i - 1); }
  }

  // ----- JSON -----

  datatype Event =
    | ObjectBegin
    | ObjectEnd
    | AttributeBegin(name: string)
    | AttributeEnd
    | ArrayBegin
    | ArrayEnd
    | Text(text: string)

  function Named(name: string): string { if name == "" then "inner" else name }

  /** The tree as JSON: an object for each node, its children in one array that is named by the
      label of the first. */
  function Json(n: Node): seq<Event> { [ObjectBegin, Text(n.text)] + JsonArray(n.children) + [ObjectEnd] }

  function JsonArray(cs: seq<Child>): seq<Event>
    decreases cs, 1
  {
    if cs == [] then [] else Opened(cs[0].name) + JsonAll(cs) + Closed()
  }

  function JsonAll(cs: seq<Child>): seq<Event>
    decreases cs, 0
  {
    if cs == [] then [] else Json(cs[0].node) + JsonAll(cs[1..])
  }

  function Opened(name: string): seq<Event> { [AttributeBegin(Named(name)), ArrayBegin] }

  function Closed(): seq<Event> { [ArrayEnd, AttributeEnd] }

  lemma Associative<T>(a: seq<T>, b: seq<T>, c: seq<T>)
    ensures a + (b + c) == a + b + c
  {
  }

  lemma {:induction false} JsonAllSnoc(cs: seq<Child>, c: Child)
    ensures JsonAll(cs + [c]) == JsonAll(cs) + Json(c.node)
  {
    if cs == [] {
      assert cs + [c] == [c] && [c][1..] == [];
    } else {
      JsonAllSnoc(cs[1..], c);
      assert (cs + [c])[1..] == cs[1..] + [c] && (cs + [c])[0] == cs[0];
      Associative(Json(cs[0].node), JsonAll(cs[1..]), Json(c.node));
    }
  }

  /** What a deferred child prints. */
  function Dumped(t: Task, isLast: bool): seq<Event> {
    (if t.wasFirst then Opened(t.name) else []) + Json(t.node) + (if isLast then Closed() else [])
  }

  /** The events for the first n children once child n has been deferred. */
  ghost function Printed(cs: seq<Child>, n: nat): seq<Event>
    requires n < |cs|
  {
    if n == 0 then [] else Opened(cs[0].name) + JsonAll(cs[..n])
  }

  lemma PrintedNext(cs: seq<Child>, n: nat)
    requires n + 1 < |cs|
    ensures Printed(cs, n + 1) == Printed(cs, n) + Dumped(Task(cs[n].name, cs[n].node, n == 0), false)
  {
    JsonAllSnoc(cs[..n], cs[n]);
    assert cs[..n] + [cs[n]] == cs[..n + 1];
    if n == 0 { assert cs[..0] == []; }
  }

  // How concatenations of events associate.

  lemma Regroup3(a: seq<Event>, b: seq<Event>, c: seq<Event>, d: seq<Event>)
    ensures a + b + ([] + c + d) == a + (b + c) + d
  {
  }

  lemma Regroup5(before: seq<Event>, text: Event, xs: seq<Event>, ys: seq<Event>)
    ensures before + [ObjectBegin] + [text] + xs + ys + [ObjectEnd]
            == before + ([ObjectBegin, text] + (xs + ys) + [ObjectEnd])
    ensures before + [ObjectBegin] + [text] + [] + [ObjectEnd] == before + ([ObjectBegin, text] + [] + [ObjectEnd])
  {
  }

  lemma RegroupTask(before: seq<Event>, a: seq<Event>, b: seq<Event>, c: seq<Event>)
    ensures before + a + b + c == before + (a + b + c)
    ensures before + [] == before
  {
  }

  lemma PrintedLast(cs: seq<Child>)
    requires cs != []
    ensures var n := |cs| - 1; Printed(cs, n) + Dumped(Task(cs[n].name, cs[n].node, n == 0), true) == JsonArray(cs)
  {
    var n := |cs| - 1;
    if n == 0 {
      assert [] + Dumped(Task(cs[0].name, cs[0].node, true), true) == Dumped(Task(cs[0].name, cs[0].node, true), true);
      OnlyChild(cs);
    } else {
      JsonAllSnoc(cs[..n], cs[n]);
      assert cs[..n] + [cs[n]] == cs;
      Regroup3(Opened(cs[0].name), JsonAll(cs[..n]), Json(cs[n].node), Closed());
    }
  }

  lemma OnlyChild(cs: seq<Child>)
    requires |cs| == 1
    ensures JsonAll(cs) == Json(cs[0].node)
  {
    assert cs[1..] == [];
  }

  /** Body and drain together print the text and the array of children. */
  lemma BodyPrints(n: Node, before: seq<Event>)
    ensures n.children == [] ==> before + [ObjectBegin] + [Text(n.text)] + [] + [ObjectEnd] == before + Json(n)
    ensures n.children != [] ==>
              var last := |n.children| - 1;
              var t := Task(n.children[last].name, n.children[last].node, last == 0);
              before + [ObjectBegin] + [Text(n.text)] + Printed(n.children, last) + Dumped(t, true) + [ObjectEnd]
                == before + Json(n)
  {
    if n.children == [] {
      Regroup5(before, Text(n.text), [], []);
    } else {
      PrintedLast(n.children);
      var last := |n.children| - 1;
      Regroup5(before, Text(n.text), Printed(n.children, last),
        Dumped(Task(n.children[last].name, n.children[last].node, last == 0), true));
    }
  }

  class NodeStreamer {
    var firstChild: bool
    var topLevel: bool
    var pending: seq<Task>
    var out: seq<Event>

    constructor ()
      ensures Idle() && out == []
    {
      firstChild, topLevel, pending, out := true, true, [], [];
    }

    /** Between top-level dumps. */
    predicate Idle()
      reads this
    {
      topLevel && firstChild && pending == []
    }

    /** A dump at the top level prints the whole tree and leaves nothing behind. */
    method Dump(n: Node)
      requires Idle()
      modifies this
      ensures Idle() && out == old(out) + Json(n)
    {
      topLevel := false;
      DumpObject(n);
      topLevel := true;
    }

    /** The node's own text, then its children. */
    method Body(n: Node)
      requires !topLevel && firstChild
      modifies this
      ensures !topLevel && (firstChild <==> n.children == [])
      ensures n.children == [] ==> pending == old(pending) && out == old(out) + [Text(n.text)]
      ensures n.children != [] ==>
                var last := |n.children| - 1;
                var c := n.children[last];
                pending == old(pending) + [Task(c.name, c.node, last == 0)]
                  && out == old(out) + [Text(n.text)] + Printed(n.children, last)
      decreases Size(n), 1
    {
      var cs := n.children;
      out := out + [Text(n.text)];
      for i := 0 to |cs|
        invariant !topLevel && (firstChild <==> i == 0)
        invariant i == 0 ==> pending == old(pending) && out == old(out) + [Text(n.text)]
        invariant i > 0 ==> pending == old(pending) + [Task(cs[i - 1].name, cs[i - 1].node, i == 1)]
        invariant i > 0 ==> out == old(out) + [Text(n.text)] + Printed(cs, i - 1)
      {
        ChildIsSmaller(cs, i);
        if i > 0 {
          ChildIsSmaller(cs, i - 1);
          PrintedNext(cs, i - 1);
        }
        AddChild(cs[i].name, cs[i].node, Size(n));
      }
    }

    /** Defers the child; its predecessor, if any, is now known not to be the last. */
    method AddChild(name: string, n: Node, ghost bound: nat)
      requires !topLevel && (!firstChild ==> pending != [] && Size(pending[|pending| - 1].node) < bound)
      modifies this
      ensures !topLevel && !firstChild
      ensures old(firstChild) ==> pending == old(pending) + [Task(name, n, true)] && out == old(out)
      ensures !old(firstChild) ==>
                var last := |old(pending)| - 1;
                pending == old(pending)[..last] + [Task(name, n, false)]
                  && out == old(out) + Dumped(old(pending)[last], false)
      decreases bound, 0
    {
      var task := Task(name, n, firstChild);
      if firstChild {
        pending := pending + [task];
      } else {
        RunTask(pending[|pending| - 1], false);
        pending := pending[..|pending| - 1] + [task];
      }
      firstChild := false;
    }

    /** Runs a deferred child; it stays at the back of the list meanwhile. */
    method RunTask(t: Task, isLast: bool)
      requires !topLevel && pending != [] && pending[|pending| - 1] == t
      modifies this
      ensures !topLevel && firstChild && pending == old(pending) && out == old(out) + Dumped(t, isLast)
      decreases Size(t.node), 4
    {
      ghost var opening, closing := if t.wasFirst then Opened(t.name) else [], if isLast then Closed() else [];
      RegroupTask(out, opening, Json(t.node), closing);
      if t.wasFirst { out := out + Opened(t.name); }
      DumpObject(t.node);
      if isLast { out := out + Closed(); }
      assert out == old(out) + opening + Json(t.node) + closing;
    }

    /** An object for the node, with everything below it. */
    method DumpObject(n: Node)
      requires !topLevel
      modifies this
      ensures !topLevel && firstChild && pending == old(pending) && out == old(out) + Json(n)
      decreases Size(n), 3
    {
      BodyPrints(n, out);
      firstChild := true;
      var depth := |pending|;
      out := out + [ObjectBegin];
      Body(n);
      DrainTo(depth, n);
      out := out + [ObjectEnd];
    }

    /** Runs what is left above this depth, which is the last child of n if it has children. */
    method DrainTo(depth: nat, ghost n: Node)
      requires !topLevel && (firstChild <==> n.children == [])
               && |pending| == depth + (if n.children == [] then 0 else 1)
      requires n.children != [] ==> pending[depth].node == n.children[|n.children| - 1].node
      modifies this
      ensures !topLevel && firstChild && pending == old(pending)[..depth]
      ensures out == old(out) + if n.children == [] then [] else Dumped(old(pending)[depth], true)
      decreases Size(n), 2
    {
      if n.children != [] { ChildIsSmaller(n.children, |n.children| - 1); }
      while depth < |pending|
        invariant !topLevel && depth <= |pending|
        invariant if |pending| == depth then firstChild && pending == old(pending)[..depth]
                  else pending == old(pending) && |pending| == |old(pending)|
        invariant out == old(out) + if |pending| == |old(pending)| then [] else Dumped(old(pending)[depth], true)
        decreases |pending|
      {
        RunTask(pending[|pending| - 1], true);
        pending := pending[..|pending| - 1];
      }
    }
  }
}
