/** The same one-child lookahead for the indented text dump, where the prefix of a line shows for
    each ancestor whether it was a last child. */
module TextTree {
  import opened TreeStreaming

  // ----- What is printed -----

  /** The line of a node and those of its descendants; `prefix` is what their lines begin with. */
  function TextOf(n: Node, prefix: string): string
    decreases n, 1
  {
    n.text + TextAll(n.children, prefix)
  }

  function TextAll(cs: seq<Child>, prefix: string): string
    decreases cs, 0
  {
    if cs == [] then "" else TextChild(cs[0], prefix, |cs| == 1) + TextAll(cs[1..], prefix)
  }

  function TextChild(c: Child, prefix: string, isLast: bool): string
    decreases c, 2
  {
    Branch(c.name, prefix, isLast) + TextOf(c.node, Below(prefix, isLast))
  }

  function Branch(name: string, prefix: string, isLast: bool): string {
    "\n" + prefix + (if isLast then "`" else "|") + "-" + (if name == "" then "" else name + ": ")
  }

  /** The prefix below a child: a bar where more siblings follow, a blank below a last child. */
  function Below(prefix: string, isLast: bool): string { prefix + (if isLast then " " else "|") + " " }

  /** The first n children, none of which is the last. */
  ghost function NotLast(cs: seq<Child>, prefix: string, n: nat): string
    requires n <= |cs|
  {
    if n == 0 then "" else NotLast(cs, prefix, n - 1) + TextChild(cs[n - 1], prefix, false)
  }

  lemma {:induction false} NotLastTail(cs: seq<Child>, prefix: string, n: nat)
    requires 0 < n <= |cs|
    ensures NotLast(cs, prefix, n) == TextChild(cs[0], prefix, false) + NotLast(cs[1..], prefix, n - 1)
  {
    if n > 1 {
      NotLastTail(cs, prefix, n - 1);
      Associative(TextChild(cs[0], prefix, false), NotLast(cs[1..], prefix, n - 2),
        TextChild(cs[n - 1], prefix, false));
    } else {
      assert NotLast(cs, prefix, 0) == "" && NotLast(cs[1..], prefix, 0) == "";
    }
  }

  lemma EmptyEnds(s: string)
    ensures "" + s == s && s + "" == s
  {
  }

  lemma {:induction false} AllIsNotLastAndLast(cs: seq<Child>, prefix: string)
    requires cs != []
    ensures TextAll(cs, prefix) == NotLast(cs, prefix, |cs| - 1) + TextChild(cs[|cs| - 1], prefix, true)
  {
    if |cs| == 1 {
      EmptyEnds(TextChild(cs[0], prefix, true));
    } else {
      var rest := cs[1..];
      assert rest[|rest| - 1] == cs[|cs| - 1];
      AllIsNotLastAndLast(rest, prefix);
      NotLastTail(cs, prefix, |cs| - 1);
      Associative(TextChild(cs[0], prefix, false), NotLast(rest, prefix, |rest| - 1),
        TextChild(cs[|cs| - 1], prefix, true));
    }
  }

  // ----- The printer -----

  class TextTreeStructure {
    var firstChild: bool
    var topLevel: bool
    var prefix: string
    var pending: seq<Task>
    var out: string

    constructor ()
      ensures Idle() && out == ""
    {
      firstChild, topLevel, prefix, pending, out := true, true, "", [], "";
    }

    predicate Idle()
      reads this
    {
      topLevel && firstChild && pending == [] && prefix == ""
    }

    /** A dump at the top level prints the whole tree and leaves nothing behind. */
    method Dump(n: Node)
      requires Idle()
      modifies this
      ensures Idle() && out == old(out) + TextOf(n, "") + "\n"
    {
      topLevel := false;
      DumpNode(n);
      prefix := "";
      out := out + "\n";
      topLevel := true;
    }

    /** The node's own text, then its children. */
    method Body(n: Node)
      requires !topLevel && firstChild
      modifies this
      ensures !topLevel && (firstChild <==> n.children == []) && prefix == old(prefix)
      ensures n.children == [] ==> pending == old(pending) && out == old(out) + n.text
      ensures n.children != [] ==>
                var last := |n.children| - 1;
                pending == old(pending) + [Task(n.children[last].name, n.children[last].node, last == 0)]
                && out == old(out) + n.text + NotLast(n.children, prefix, last)
      decreases Size(n), 1
    {
      var cs := n.children;
      out := out + n.text;
      for i := 0 to |cs|
        invariant !topLevel && (firstChild <==> i == 0) && prefix == old(prefix)
        invariant i == 0 ==> pending == old(pending) && out == old(out) + n.text
        invariant i > 0 ==> pending == old(pending) + [Task(cs[i - 1].name, cs[i - 1].node, i == 1)]
        invariant i > 0 ==> out == old(out) + n.text + NotLast(cs, prefix, i - 1)
      {
        ChildIsSmaller(cs, i);
        if i > 0 {
          ChildIsSmaller(cs, i - 1);
          Associative(old(out) + n.text, NotLast(cs, prefix, i - 1), TextChild(cs[i - 1], prefix, false));
        }
        AddChild(cs[i].name, cs[i].node, Size(n));
      }
    }

    /** Defers the child; its predecessor, if any, is now known not to be the last. */
    method AddChild(name: string, n: Node, ghost bound: nat)
      requires !topLevel && (!firstChild ==> pending != [] && Size(pending[|pending| - 1].node) < bound)
      modifies this
      ensures !topLevel && !firstChild && prefix == old(prefix)
      ensures old(firstChild) ==> pending == old(pending) + [Task(name, n, true)] && out == old(out)
      ensures !old(firstChild) ==>
                var last := |old(pending)| - 1;
                var t := old(pending)[last];
                pending == old(pending)[..last] + [Task(name, n, false)]
                  && out == old(out) + TextChild(Child(t.name, t.node), prefix, false)
      decreases bound, 0
    {
      var task := Task(name, n, firstChild);
      if firstChild {
        pending := pending + [task];
      } else {
        RunTask(pending[|pending| - 1], false);
        pending := pending[..|pending| - 1] + [task];
      }
      firstChild := false;
    }

    /** Runs a deferred child; it stays at the back of the list meanwhile. */
    method RunTask(t: Task, isLast: bool)
      requires !topLevel && pending != [] && pending[|pending| - 1] == t
      modifies this
      ensures !topLevel && firstChild && pending == old(pending) && prefix == old(prefix)
      ensures out == old(out) + TextChild(Child(t.name, t.node), prefix, isLast)
      decreases Size(t.node), 4
    {
      Associative(out, Branch(t.name, prefix, isLast), TextOf(t.node, Below(prefix, isLast)));
      out := out + "\n" + prefix + (if isLast then "`" else "|") + "-" + (if t.name == "" then "" else t.name + ": ");
      BranchAtOnce(old(out), t.name, prefix, isLast);
      prefix := prefix + (if isLast then " " else "|") + " ";
      DumpNode(t.node);
      prefix := prefix[..|prefix| - 2];
    }

    /** The node, with everything below it. */
    method DumpNode(n: Node)
      requires !topLevel
      modifies this
      ensures !topLevel && firstChild && pending == old(pending) && prefix == old(prefix)
              && out == old(out) + TextOf(n, prefix)
      decreases Size(n), 3
    {
      firstChild := true;
      var depth := |pending|;
      Body(n);
      NodePrints(n, old(out), prefix);
      DrainTo(depth, n);
    }

    /** Runs what is left above this depth, which is the last child of n if it has children. */
    method DrainTo(depth: nat, ghost n: Node)
      requires !topLevel && (firstChild <==> n.children == [])
               && |pending| == depth + (if n.children == [] then 0 else 1)
      requires n.children != [] ==> pending[depth].node == n.children[|n.children| - 1].node
      modifies this
      ensures !topLevel && firstChild && pending == old(pending)[..depth] && prefix == old(prefix)
      ensures out == old(out) + if n.children == [] then ""
              else TextChild(Child(old(pending)[depth].name, old(pending)[depth].node), prefix, true)
      decreases Size(n), 2
    {
      if n.children != [] { ChildIsSmaller(n.children, |n.children| - 1); }
      while depth < |pending|
        invariant !topLevel && depth <= |pending| && prefix == old(prefix)
        invariant if |pending| == depth then firstChild && pending == old(pending)[..depth]
                  else pending == old(pending) && |pending| == |old(pending)|
        invariant out == old(out) + if |pending| == |old(pending)| then ""
                  else TextChild(Child(old(pending)[depth].name, old(pending)[depth].node), prefix, true)
        decreases |pending|
      {
        RunTask(pending[|pending| - 1], true);
        pending := pending[..|pending| - 1];
      }
    }
  }

  lemma BranchAtOnce(before: string, name: string, prefix: string, isLast: bool)
    ensures before + "\n" + prefix + (if isLast then "`" else "|") + "-" + (if name == "" then "" else name + ": ")
            == before + Branch(name, prefix, isLast)
  {
  }

  /** Text, children before the last, and the last child make up the whole node. */
  lemma NodePrints(n: Node, before: string, prefix: string)
    ensures n.children == [] ==> before + n.text + "" == before + TextOf(n, prefix)
    ensures n.children != [] ==>
              var last := |n.children| - 1;
              before + n.text + NotLast(n.children, prefix, last) + TextChild(n.children[last], prefix, true)
                == before + TextOf(n, prefix)
  {
    if n.children == [] {
      assert n.text + "" == n.text;
    } else {
      var last := |n.children| - 1;
      AllIsNotLastAndLast(n.children, prefix);
      Associative(before, n.text, TextAll(n.children, prefix));
      Associative(before + n.text, NotLast(n.children, prefix, last), TextChild(n.children[last], prefix, true));
    }
  }
}
