/** The indented dump line by line: one line for each node, which begins with a column for each ancestor,
    a bar where that ancestor has a later sibling and a blank where it has none. */
module TextLines {
  import opened TreeStreaming
  import opened TextTree

  /** The way down from a node: which child, which of its children, and so on. */
  type Route = seq<nat>

  predicate LeadsDown(n: Node, route: Route) {
    route == [] || (route[0] < |n.children| && LeadsDown(n.children[route[0]].node, route[1..]))
  }

  function NodeAt(n: Node, route: Route): Node
    requires LeadsDown(n, route)
  {
    if route == [] then n else NodeAt(n.children[route[0]].node, route[1..])
  }

  /** The node at the end of the route has a sibling after it. */
  ghost predicate HasLater(root: Node, route: Route) {
    var last := |route| - 1;
    route != [] && LeadsDown(root, route[..last]) && route[last] + 1 < |NodeAt(root, route[..last]).children|
  }

  /** What the line of the node at the end of the route begins with: two columns for each ancestor but the
      root, from the outside in. */
  ghost function Columns(root: Node, route: Route): (s: string)
    requires route != []
    ensures |s| == 2 * (|route| - 1)
    ensures forall k :: 0 <= k < |route| - 1 ==> s[2 * k] == if HasLater(root, route[..k + 1]) then '|' else ' '
    ensures forall k :: 0 <= k < |route| - 1 ==> s[2 * k + 1] == ' '
  {
    seq(2 * (|route| - 1), j requires 0 <= j < 2 * (|route| - 1) =>
      if j % 2 == 0 && HasLater(root, route[..j / 2 + 1]) then '|' else ' ')
  }

  lemma {:induction false} DownOn(n: Node, route: Route, i: nat)
    requires LeadsDown(n, route) && i < |NodeAt(n, route).children|
    ensures LeadsDown(n, route + [i]) && NodeAt(n, route + [i]) == NodeAt(n, route).children[i].node
    decreases |route|
  {
    if route == [] {
      assert [i][1..] == [] && [] + [i] == [i];
    } else {
      DownOn(n.children[route[0]].node, route[1..], i);
      assert (route + [i])[1..] == route[1..] + [i];
    }
  }

  /** The line of the i-th child of the node at the end of the route. */
  ghost function Line(root: Node, route: Route, i: nat): string
    requires LeadsDown(root, route) && i < |NodeAt(root, route).children|
  {
    var siblings := NodeAt(root, route).children;
    "\n" + Columns(root, route + [i]) + (if i + 1 == |siblings| then "`" else "|") + "-"
    + (if siblings[i].name == "" then "" else siblings[i].name + ": ") + siblings[i].node.text
  }

  /** The lines below the node at the end of the route, from its i-th child on: each child, then what is
      below it. */
  ghost function LinesFrom(root: Node, route: Route, i: nat): seq<string>
    requires LeadsDown(root, route) && i <= |NodeAt(root, route).children|
    decreases NodeAt(root, route), |NodeAt(root, route).children| - i
  {
    var siblings := NodeAt(root, route).children;
    if i == |siblings| then [] else
      DownOn(root, route, i);
      [Line(root, route, i)] + LinesFrom(root, route + [i], 0) + LinesFrom(root, route, i + 1)
  }

  function Join(lines: seq<string>): string { if lines == [] then "" else lines[0] + Join(lines[1..]) }

  lemma {:induction false} JoinConcat(a: seq<string>, b: seq<string>)
    ensures Join(a + b) == Join(a) + Join(b)
    decreases |a|
  {
    if a == [] {
      assert a + b == b;
    } else {
      JoinConcat(a[1..], b);
      assert (a + b)[1..] == a[1..] + b;
    }
  }

  lemma JoinOne(line: string)
    ensures Join([line]) == line
  {
    assert [line][1..] == [];
  }

  // ----- The dump is its lines -----

  /** What the lines of the children of the node at the end of the route begin with. */
  ghost function Inner(root: Node, route: Route): string {
    if route == [] then "" else Below(Columns(root, route), !HasLater(root, route))
  }

  lemma InnerIsColumns(root: Node, route: Route, i: nat)
    ensures Columns(root, route + [i]) == Inner(root, route)
  {
    var s, t := Columns(root, route + [i]), Inner(root, route);
    assert |s| == |t|;
    forall j | 0 <= j < |s|
      ensures s[j] == t[j]
    {
      var k := j / 2;
      assert j == 2 * k || j == 2 * k + 1;
      assert (route + [i])[..k + 1] == route[..k + 1];
      if k == |route| - 1 { assert route[..k + 1] == route; }
    }
  }

  lemma LaterIsNotLast(root: Node, route: Route, i: nat)
    requires LeadsDown(root, route) && i < |NodeAt(root, route).children|
    ensures HasLater(root, route + [i]) <==> i + 1 < |NodeAt(root, route).children|
  {
    assert (route + [i])[..|route|] == route;
  }

  lemma ChildIsLine(root: Node, route: Route, i: nat)
    requires LeadsDown(root, route) && i < |NodeAt(root, route).children|
    ensures var c := NodeAt(root, route).children[i];
            var isLast := i + 1 == |NodeAt(root, route).children|;
            Branch(c.name, Inner(root, route), isLast) + c.node.text == Line(root, route, i)
              && Below(Inner(root, route), isLast) == Inner(root, route + [i])
  {
    InnerIsColumns(root, route, i);
    LaterIsNotLast(root, route, i);
  }

  lemma FirstChild(cs: seq<Child>, prefix: string, line: string, below: string, rest: string)
    requires cs != [] && Branch(cs[0].name, prefix, |cs| == 1) + cs[0].node.text == line
    requires TextAll(cs[0].node.children, Below(prefix, |cs| == 1)) == below && TextAll(cs[1..], prefix) == rest
    ensures TextAll(cs, prefix) == line + below + rest
  {
    var c, isLast := cs[0], |cs| == 1;
    assert TextOf(c.node, Below(prefix, isLast)) == c.node.text + below;
    assert TextChild(c, prefix, isLast) == Branch(c.name, prefix, isLast) + TextOf(c.node, Below(prefix, isLast));
    Associative(Branch(c.name, prefix, isLast), c.node.text, below);
    assert TextAll(cs, prefix) == TextChild(c, prefix, isLast) + rest;
  }

  lemma JoinThree(line: string, below: seq<string>, rest: seq<string>)
    ensures Join([line] + below + rest) == line + Join(below) + Join(rest)
  {
    JoinConcat([line] + below, rest);
    JoinConcat([line], below);
    JoinOne(line);
  }

  lemma {:induction false} LinesAreText(root: Node, route: Route, i: nat)
    requires LeadsDown(root, route) && i <= |NodeAt(root, route).children|
    ensures TextAll(NodeAt(root, route).children[i..], Inner(root, route)) == Join(LinesFrom(root, route, i))
    decreases NodeAt(root, route), |NodeAt(root, route).children| - i
  {
    var siblings := NodeAt(root, route).children;
    var cs := siblings[i..];
    if i < |siblings| {
      DownOn(root, route, i);
      LinesAreText(root, route + [i], 0);
      assert siblings[i].node.children[0..] == siblings[i].node.children;
      LinesAreText(root, route, i + 1);
      assert cs[0] == siblings[i] && cs[1..] == siblings[i + 1..];
      ChildIsLine(root, route, i);
      var line, below, rest := Line(root, route, i), LinesFrom(root, route + [i], 0), LinesFrom(root, route, i + 1);
      FirstChild(cs, Inner(root, route), line, Join(below), Join(rest));
      JoinThree(line, below, rest);
    } else {
      assert cs == [];
    }
  }

  /** The dump of a tree is the text of its root and then one line after the other. */
  lemma DumpIsLines(root: Node)
    ensures TextOf(root, "") == root.text + Join(LinesFrom(root, [], 0))
  {
    LinesAreText(root, [], 0);
    assert root.children[0..] == root.children;
  }

  // ----- Every node has its line -----

  lemma {:induction false} LineIsThere(root: Node, route: Route, i: nat, k: nat)
    requires LeadsDown(root, route) && i <= k < |NodeAt(root, route).children|
    ensures Line(root, route, k) in LinesFrom(root, route, i)
    decreases k - i
  {
    DownOn(root, route, i);
    if i < k { LineIsThere(root, route, i + 1, k); }
  }

  lemma {:induction false} LowerLinesAreThere(root: Node, route: Route, i: nat, k: nat, line: string)
    requires LeadsDown(root, route) && i <= k < |NodeAt(root, route).children| && LeadsDown(root, route + [k])
    requires line in LinesFrom(root, route + [k], 0)
    ensures line in LinesFrom(root, route, i)
    decreases k - i
  {
    DownOn(root, route, i);
    if i < k { LowerLinesAreThere(root, route, i + 1, k, line); }
  }

  /** Whatever is below the node at the end of a route is below the root. */
  lemma {:induction false} LinesGoUp(root: Node, route: Route, line: string)
    requires LeadsDown(root, route) && line in LinesFrom(root, route, 0)
    ensures line in LinesFrom(root, [], 0)
    decreases |route|
  {
    if route != [] {
      var last := |route| - 1;
      assert route == route[..last] + [route[last]];
      LeadsThrough(root, route, last);
      LowerLinesAreThere(root, route[..last], 0, route[last], line);
      LinesGoUp(root, route[..last], line);
    }
  }

  lemma {:induction false} LeadsThrough(n: Node, route: Route, k: nat)
    requires LeadsDown(n, route) && k < |route|
    ensures LeadsDown(n, route[..k]) && route[k] < |NodeAt(n, route[..k]).children|
    decreases k
  {
    if k > 0 {
      LeadsThrough(n.children[route[0]].node, route[1..], k - 1);
      assert route[..k][1..] == route[1..][..k - 1];
    }
  }

  /** The line of every node but the root is among them. */
  lemma EveryNodeHasItsLine(root: Node, route: Route, i: nat)
    requires LeadsDown(root, route) && i < |NodeAt(root, route).children|
    ensures Line(root, route, i) in LinesFrom(root, [], 0)
  {
    LineIsThere(root, route, 0, i);
    LinesGoUp(root, route, Line(root, route, i));
  }

  /** And there are no more lines than nodes. */
  lemma {:induction false} AsManyAsNodes(root: Node, route: Route, i: nat)
    requires LeadsDown(root, route) && i <= |NodeAt(root, route).children|
    ensures |LinesFrom(root, route, i)| == SizeAll(NodeAt(root, route).children[i..])
    decreases NodeAt(root, route), |NodeAt(root, route).children| - i
  {
    var siblings := NodeAt(root, route).children;
    if i < |siblings| {
      DownOn(root, route, i);
      AsManyAsNodes(root, route + [i], 0);
      assert siblings[i].node.children[0..] == siblings[i].node.children;
      AsManyAsNodes(root, route, i + 1);
      assert siblings[i..][0] == siblings[i] && siblings[i..][1..] == siblings[i + 1..];
    }
  }
}
