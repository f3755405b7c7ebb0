/** The printed traces, as the sequence of values and depths that the traversals emit. */
module TracePrinting {
  import opened Reachability
  import opened ScaleGraphs
  import opened OverflowDetection

  datatype Line = Line(value: Value, depth: nat)

  ghost function LineValues(ls: seq<Line>): set<Value> {
    set l | l in ls :: l.value
  }

  ghost predicate Once(ls: seq<Line>) {
    forall i, j :: 0 <= i < j < |ls| ==> ls[i].value != ls[j].value
  }

  /** Every line stands for a path from start that is as long as the line is deep below depth. */
  ghost predicate Explained(es: Edges, start: Value, depth: nat, ls: seq<Line>) {
    forall l :: l in ls ==> l.depth >= depth && ReachesIn(es, start, l.value, l.depth - depth)
  }

  /** Every line but the first stands below an earlier line for a neighbour, one level up. */
  ghost predicate Nested(es: Edges, ls: seq<Line>) {
    forall k :: 0 < k < |ls| ==> HasLineAbove(es, ls, k)
  }

  ghost predicate HasLineAbove(es: Edges, ls: seq<Line>, k: nat)
    requires k < |ls|
  {
    exists j :: 0 <= j < k && (ls[j].value, ls[k].value) in es && ls[k].depth == ls[j].depth + 1
  }

  /** A traversal along es has marked node, and whatever es leads to from the nodes it newly marked. */
  ghost predicate Walked(sg: ScaleGraph, es: Edges, node: ScaleNode, before: set<ScaleNode>, after: set<ScaleNode>)
    reads sg, sg.Repr
  {
    && before <= after <= sg.Repr
    && node in after
    && (forall n, b :: n in after && n !in before && (n.value, b) in es ==> b in sg.graph && sg.graph[b] in after)
  }

  /** ... and has printed each newly marked node once, at the depth of a path to it. */
  ghost predicate Printed(sg: ScaleGraph, es: Edges, start: Value, depth: nat, ls: seq<Line>,
                          before: set<ScaleNode>, after: set<ScaleNode>)
  {
    && Once(ls) && Explained(es, start, depth, ls) && LineValues(ls) == Values(after - before)
    && Nested(es, ls) && (ls != [] ==> ls[0] == Line(start, depth))
  }

  lemma NothingPrinted(sg: ScaleGraph, es: Edges, node: ScaleNode, depth: nat, visited: set<ScaleNode>)
    ensures Printed(sg, es, node.value, depth, [], visited, visited)
  {
    assert Values(visited - visited) == {};
  }

  lemma FirstPrinted(sg: ScaleGraph, es: Edges, node: ScaleNode, depth: nat, visited: set<ScaleNode>)
    requires node !in visited
    ensures Printed(sg, es, node.value, depth, [Line(node.value, depth)], visited, visited + {node})
  {
    assert ReachesIn(es, node.value, node.value, 0);
    assert (visited + {node}) - visited == {node};
    assert LineValues([Line(node.value, depth)]) == {node.value};
  }

  /** The lines of a neighbour, one level deeper, are lines of the node itself. */
  lemma Deeper(es: Edges, start: Value, next: Value, depth: nat, ls: seq<Line>)
    requires (start, next) in es && Explained(es, next, depth + 1, ls)
    ensures Explained(es, start, depth, ls)
  {
    forall l | l in ls ensures l.depth >= depth && ReachesIn(es, start, l.value, l.depth - depth) {
      ReachesInPrepend(es, start, next, l.value, l.depth - depth - 1);
    }
  }

  lemma PrintedTwice(sg: ScaleGraph, es: Edges, node: ScaleNode, next: ScaleNode, depth: nat, ls: seq<Line>,
                     ls': seq<Line>, a: set<ScaleNode>, b: set<ScaleNode>, c: set<ScaleNode>)
    requires sg.Valid() && a <= b <= c <= sg.Repr && (node.value, next.value) in es
    requires Printed(sg, es, node.value, depth, ls, a, b) && Printed(sg, es, next.value, depth + 1, ls', b, c)
    requires ls != []
    ensures Printed(sg, es, node.value, depth, ls + ls', a, c)
  {
    hide ReachesIn;
    Deeper(es, node.value, next.value, depth, ls');
    assert (b - a) + (c - b) == c - a;
    assert LineValues(ls + ls') == LineValues(ls) + LineValues(ls') by {
      assert forall l :: l in ls + ls' <==> l in ls || l in ls';
    }
    assert Values(c - a) == Values(b - a) + Values(c - b);
    NestedConcat(es, node.value, next.value, depth, ls, ls');
    forall i, j | 0 <= i < |ls| && 0 <= j < |ls'| ensures ls[i].value != ls'[j].value {
      assert ls[i] in ls && ls'[j] in ls';
      assert ls[i].value in Values(b - a) && ls'[j].value in Values(c - b);
    }
  }

  lemma NestedConcat(es: Edges, start: Value, next: Value, depth: nat, ls: seq<Line>, ls': seq<Line>)
    requires (start, next) in es && Nested(es, ls) && Nested(es, ls') && ls != [] && ls[0] == Line(start, depth)
    requires ls' != [] ==> ls'[0] == Line(next, depth + 1)
    ensures Nested(es, ls + ls')
  {
    var all := ls + ls';
    forall k | 0 < k < |all| ensures HasLineAbove(es, all, k) {
      if k < |ls| {
        assert HasLineAbove(es, ls, k);
        var j :| 0 <= j < k && (ls[j].value, ls[k].value) in es && ls[k].depth == ls[j].depth + 1;
        assert all[j] == ls[j] && all[k] == ls[k];
      } else if k == |ls| {
        assert all[0] == ls[0] && all[k] == ls'[0];
      } else {
        assert HasLineAbove(es, ls', k - |ls|);
        var j :| 0 <= j < k - |ls| && (ls'[j].value, ls'[k - |ls|].value) in es
                 && ls'[k - |ls|].depth == ls'[j].depth + 1;
        assert all[j + |ls|] == ls'[j] && all[k] == ls'[k - |ls|];
      }
    }
  }

  // ---------- the order of the lines ----------

  /** A node's line comes first, then what its neighbours print, in their order, each past what was printed. */
  ghost function PrintOrder(sg: ScaleGraph, up: bool, node: ScaleNode, visited: set<ScaleNode>, depth: nat)
    : (r: (seq<Line>, set<ScaleNode>))
    requires sg.Valid() && node in sg.Repr && visited <= sg.Repr
    reads sg, sg.Repr
    ensures visited <= r.1 <= sg.Repr
    decreases sg.Repr - visited, 0, 0
  {
    if node in visited then ([], visited)
    else
      NeighboursInside(sg, node);
      var r := PrintOrderAll(sg, up, if up then node.parents else node.children, visited + {node}, depth + 1);
      ([Line(node.value, depth)] + r.0, r.1)
  }

  ghost function PrintOrderAll(sg: ScaleGraph, up: bool, ns: seq<ScaleNode>, visited: set<ScaleNode>, depth: nat)
    : (r: (seq<Line>, set<ScaleNode>))
    requires sg.Valid() && (forall n :: n in ns ==> n in sg.Repr) && visited <= sg.Repr
    reads sg, sg.Repr
    ensures visited <= r.1 <= sg.Repr
    decreases sg.Repr - visited, 1, |ns|
  {
    if ns == [] then ([], visited)
    else
      var first := PrintOrder(sg, up, ns[0], visited, depth);
      var rest := PrintOrderAll(sg, up, ns[1..], first.1, depth);
      (first.0 + rest.0, rest.1)
  }

  lemma NeighboursInside(sg: ScaleGraph, n: ScaleNode)
    requires sg.Valid() && n in sg.Repr
    ensures forall c :: c in n.children || c in n.parents ==> c in sg.Repr
  {
  }

  /** Print the graph below node. */
  method PrintTraces(sg: ScaleGraph, node: ScaleNode, visited: set<ScaleNode>, depth: nat)
    returns (lines: seq<Line>, visited': set<ScaleNode>)
    requires sg.Valid() && node in sg.Repr && visited <= sg.Repr
    ensures Walked(sg, sg.edges, node, visited, visited')
    ensures Printed(sg, sg.edges, node.value, depth, lines, visited, visited')
    ensures (lines, visited') == PrintOrder(sg, false, node, visited, depth)
    decreases sg.Repr - visited
  {
    hide ScaleGraph.Valid, Printed;
    lines, visited' := [], visited;
    if node in visited {
      NothingPrinted(sg, sg.edges, node, depth, visited);
      return;
    }
    visited' := visited + {node};
    lines := [Line(node.value, depth)];
    FirstPrinted(sg, sg.edges, node, depth, visited);
    NeighboursInside(sg, node);
    ghost var first, all := lines, PrintOrderAll(sg, false, node.children, visited', depth + 1);
    assert node.children[0..] == node.children;
    for i := 0 to |node.children|
      invariant visited' <= sg.Repr
      invariant var rest := PrintOrderAll(sg, false, node.children[i..], visited', depth + 1);
                first + all.0 == lines + rest.0 && all.1 == rest.1
      invariant visited + {node} <= visited' <= sg.Repr
      invariant forall n, b :: n in visited' && n !in visited && n != node && (n.value, b) in sg.edges ==>
                  b in sg.graph && sg.graph[b] in visited'
      invariant forall j :: 0 <= j < i ==> node.children[j] in visited'
      invariant lines != [] && Printed(sg, sg.edges, node.value, depth, lines, visited, visited')
    {
      ghost var before := visited';
      var c := node.children[i];
      ChildEdge(sg, node, c);
      var below;
      below, visited' := PrintTraces(sg, c, visited', depth + 1);
      PrintedTwice(sg, sg.edges, node, c, depth, lines, below, visited, before, visited');
      assert node.children[i..][1..] == node.children[i + 1..];
      lines := lines + below;
    }
    assert node.children[|node.children|..] == [] && lines + [] == lines;
    ChildrenListed(sg, node);
  }

  lemma ChildrenListed(sg: ScaleGraph, n: ScaleNode)
    requires sg.Valid() && n in sg.Repr
    ensures forall b :: (n.value, b) in sg.edges ==> b in sg.graph && sg.graph[b] in n.children
    ensures forall a :: (n.value, a) in Flip(sg.edges) ==> a in sg.graph && sg.graph[a] in n.parents
  {
  }

  lemma ParentEdge(sg: ScaleGraph, n: ScaleNode, q: ScaleNode)
    requires sg.Valid() && n in sg.Repr && q in n.parents
    ensures q in sg.Repr && (n.value, q.value) in Flip(sg.edges)
  {
  }

  /** Print the graph above node. */
  method PrintBwdTraces(sg: ScaleGraph, node: ScaleNode, visited: set<ScaleNode>, depth: nat)
    returns (lines: seq<Line>, visited': set<ScaleNode>)
    requires sg.Valid() && node in sg.Repr && visited <= sg.Repr
    ensures Walked(sg, Flip(sg.edges), node, visited, visited')
    ensures Printed(sg, Flip(sg.edges), node.value, depth, lines, visited, visited')
    ensures (lines, visited') == PrintOrder(sg, true, node, visited, depth)
    decreases sg.Repr - visited
  {
    hide ScaleGraph.Valid, Printed, Flip;
    ghost var es := Flip(sg.edges);
    lines, visited' := [], visited;
    if node in visited {
      NothingPrinted(sg, es, node, depth, visited);
      return;
    }
    visited' := visited + {node};
    lines := [Line(node.value, depth)];
    FirstPrinted(sg, es, node, depth, visited);
    NeighboursInside(sg, node);
    ghost var first, all := lines, PrintOrderAll(sg, true, node.parents, visited', depth + 1);
    assert node.parents[0..] == node.parents;
    for i := 0 to |node.parents|
      invariant visited' <= sg.Repr
      invariant var rest := PrintOrderAll(sg, true, node.parents[i..], visited', depth + 1);
                first + all.0 == lines + rest.0 && all.1 == rest.1
      invariant visited + {node} <= visited' <= sg.Repr
      invariant forall n, b :: n in visited' && n !in visited && n != node && (n.value, b) in es ==>
                  b in sg.graph && sg.graph[b] in visited'
      invariant forall j :: 0 <= j < i ==> node.parents[j] in visited'
      invariant lines != [] && Printed(sg, es, node.value, depth, lines, visited, visited')
    {
      ghost var before := visited';
      var q := node.parents[i];
      ParentEdge(sg, node, q);
      var above;
      above, visited' := PrintBwdTraces(sg, q, visited', depth + 1);
      PrintedTwice(sg, es, node, q, depth, lines, above, visited, before, visited');
      assert node.parents[i..][1..] == node.parents[i + 1..];
      lines := lines + above;
    }
    assert node.parents[|node.parents|..] == [] && lines + [] == lines;
    ChildrenListed(sg, node);
  }

  /** What a whole print from a value lists: the value first, then everything es leads to, once each, at
      the depth of a path and below an earlier line that it is a neighbour of. */
  ghost predicate FullPrint(es: Edges, start: Value, depth: nat, lines: seq<Line>) {
    && Once(lines) && Explained(es, start, depth, lines) && LineValues(lines) == ReachSet(es, {start})
    && lines != [] && lines[0] == Line(start, depth) && Nested(es, lines)
  }

  lemma WalkExact(sg: ScaleGraph, es: Edges, node: ScaleNode, depth: nat, lines: seq<Line>, after: set<ScaleNode>)
    requires sg.Valid() && node in sg.Repr && Walked(sg, es, node, {}, after)
    requires Printed(sg, es, node.value, depth, lines, {}, after)
    ensures FullPrint(es, node.value, depth, lines)
  {
    hide ReachSet, ReachesIn;
    assert after - {} == after;
    var vs := Values(after);
    forall a, b | (a, b) in es && a in vs ensures b in vs {
      var n :| n in after && n.value == a;
      assert sg.graph[b] in after && sg.graph[b].value == b;
    }
    ReachSetLeast(es, {node.value}, vs);
    assert node.value in vs;
    forall v | v in vs ensures v in ReachSet(es, {node.value}) {
      var l :| l in lines && l.value == v;
      InReachSet(es, {node.value}, node.value, v);
    }
  }

  method PrintTracesOf(sg: ScaleGraph, start: Value, depth: nat) returns (lines: seq<Line>)
    requires sg.Valid() && start in sg.graph
    ensures FullPrint(sg.edges, start, depth, lines)
    ensures lines == PrintOrder(sg, false, sg.graph[start], {}, depth).0
  {
    var visited;
    lines, visited := PrintTraces(sg, sg.graph[start], {}, depth);
    WalkExact(sg, sg.edges, sg.graph[start], depth, lines, visited);
  }

  method PrintBwdTracesOf(sg: ScaleGraph, start: Value, depth: nat) returns (lines: seq<Line>)
    requires sg.Valid() && start in sg.graph
    ensures FullPrint(Flip(sg.edges), start, depth, lines)
    ensures lines == PrintOrder(sg, true, sg.graph[start], {}, depth).0
  {
    var visited;
    lines, visited := PrintBwdTraces(sg, sg.graph[start], {}, depth);
    WalkExact(sg, Flip(sg.edges), sg.graph[start], depth, lines, visited);
  }

  /** The backward print from anything that can be reached from a marked value shows a marked value. */
  lemma AlarmExplained(es: Edges, roots: set<Value>, v: Value, depth: nat, lines: seq<Line>)
    requires v in ReachSet(es, roots) && FullPrint(Flip(es), v, depth, lines)
    ensures exists l :: l in lines && l.value in roots && ReachesIn(es, l.value, v, l.depth - depth)
  {
    hide ReachesIn, Flip, ReachSet, Reaches, Once, Nested;
    var r := RootAbove(es, roots, v);
    assert r in LineValues(lines);
    var l :| l in lines && l.value == r;
    ReachesInFlip(Flip(es), v, r, l.depth - depth);
    FlipFlip(es);
  }

  lemma RootAbove(es: Edges, roots: set<Value>, v: Value) returns (r: Value)
    requires v in ReachSet(es, roots)
    ensures r in roots && r in ReachSet(Flip(es), {v})
  {
    hide ReachesIn, Flip;
    r :| r in roots && Reaches(es, r, v);
    var n: nat :| ReachesIn(es, r, v, n);
    ReachesInFlip(es, r, v, n);
    assert Reaches(Flip(es), v, r);
    InReachSet(Flip(es), {v}, v, r);
  }

  lemma FlipFlip(es: Edges)
    ensures Flip(Flip(es)) == es
  {
    forall e | e in Flip(Flip(es)) ensures e in es {
      var (a, b) := e;
      assert (a, b) in Flip(Flip(es));
    }
    forall e | e in es ensures e in Flip(Flip(es)) {
      var (a, b) := e;
      assert (a, b) in es;
    }
  }
}
