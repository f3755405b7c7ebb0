/** Detection: the arithmetic instructions of the scale graph that may overflow a 32-bit integer. */
module OverflowDetection {
  import opened Collections
  import opened Reachability
  import opened IR
  import opened ScaleGraphs
  import opened ForwardTracing

  const OVERFLOW_BITS_THRESHOLD: nat := 32

  predicate CanIntegerOverflow(p: Program, ops: set<Opcode>, v: Value) {
    match p.KindOf(v)
    case Binary(op, _, _, Integer(bits)) => op in ops && bits <= OVERFLOW_BITS_THRESHOLD
    case _ => false
  }

  /** Narrower integers than the runtime's parameter are accepted: detected instructions may have 16 bits. */
  lemma NarrowAccepted(p: Program, ops: set<Opcode>, v: Value)
    requires v in p.kinds && p.kinds[v].Binary? && p.kinds[v].op in ops && p.kinds[v].ty == Integer(16)
    ensures CanIntegerOverflow(p, ops, v)
  {
  }

  /** The values of vs that may overflow. */
  ghost function Overflowing(p: Program, ops: set<Opcode>, vs: set<Value>): set<Value> {
    set v | v in vs && CanIntegerOverflow(p, ops, v)
  }

  /** Read off the module: what is listed are exactly the binary operators on integers of at most 32 bits whose
      opcode is among ops. */
  lemma ListedAreNarrow(p: Program, ops: set<Opcode>, vs: set<Value>, overflowable: seq<Value>)
    requires Members(overflowable) == Overflowing(p, ops, vs)
    ensures forall v :: v in overflowable <==>
              && v in vs && v in p.kinds && p.kinds[v].Binary?
              && p.kinds[v].op in ops && p.kinds[v].ty.Integer? && p.kinds[v].ty.bits <= 32
  {
    assert forall v :: v in overflowable <==> v in Members(overflowable);
  }

  ghost predicate SearchedNodes(sg: ScaleGraph, node: ScaleNode, before: set<ScaleNode>, after: set<ScaleNode>)
    reads sg, sg.Repr
  {
    && before <= after <= sg.Repr
    && node in after
    && (forall n :: n in after && n !in before ==> Reaches(sg.edges, node.value, n.value))
    && (forall n, c :: n in after && n !in before && c in n.children ==> c in after)
  }

  /** Depth-first traversal of the heap graph; cycles end at visited nodes. */
  method FindInstructions(p: Program, ops: set<Opcode>, sg: ScaleGraph, node: ScaleNode,
                          overflowable: set<ScaleNode>, visited: set<ScaleNode>)
    returns (overflowable': set<ScaleNode>, visited': set<ScaleNode>)
    requires sg.Valid() && node in sg.Repr && visited <= sg.Repr
    ensures SearchedNodes(sg, node, visited, visited')
    ensures overflowable' == overflowable + set n | n in visited' - visited && CanIntegerOverflow(p, ops, n.value)
    decreases sg.Repr - visited
  {
    hide ScaleGraph.Valid, CanIntegerOverflow, Reaches;
    overflowable', visited' := overflowable, visited;
    ReachesSelf(sg.edges, node.value);
    if node in visited { return; }
    visited' := visited' + {node};
    if CanIntegerOverflow(p, ops, node.value) {
      overflowable' := overflowable' + {node};
    }
    for i := 0 to |node.children|
      invariant visited + {node} <= visited' <= sg.Repr
      invariant forall n :: n in visited' && n !in visited ==> Reaches(sg.edges, node.value, n.value)
      invariant forall n, c :: n in visited' && n !in visited && n != node && c in n.children ==> c in visited'
      invariant forall j :: 0 <= j < i ==> node.children[j] in visited'
      invariant overflowable' == overflowable + set n | n in visited' - visited && CanIntegerOverflow(p, ops, n.value)
    {
      ghost var before := visited';
      var c := node.children[i];
      ChildEdge(sg, node, c);
      overflowable', visited' := FindInstructions(p, ops, sg, c, overflowable', visited');
      ChildSearch(sg, node, c, before, visited');
    }
  }

  lemma ChildEdge(sg: ScaleGraph, n: ScaleNode, c: ScaleNode)
    requires sg.Valid() && n in sg.Repr && c in n.children
    ensures c in sg.Repr && (n.value, c.value) in sg.edges
  {
  }

  lemma ChildSearch(sg: ScaleGraph, n: ScaleNode, c: ScaleNode, before: set<ScaleNode>, after: set<ScaleNode>)
    requires (n.value, c.value) in sg.edges && SearchedNodes(sg, c, before, after)
    ensures forall x :: x in after && x !in before ==> Reaches(sg.edges, n.value, x.value)
  {
    hide Reaches;
    ReachesSelf(sg.edges, n.value);
    ReachesEdge(sg.edges, n.value, n.value, c.value);
    forall x | x in after && x !in before ensures Reaches(sg.edges, n.value, x.value) {
      ReachesTrans(sg.edges, n.value, c.value, x.value);
    }
  }

  ghost function Values(ns: set<ScaleNode>): set<Value> {
    set n | n in ns :: n.value
  }

  /** With no marks to start from, exactly the nodes reachable from the start are visited. */
  lemma NodesExact(sg: ScaleGraph, node: ScaleNode, after: set<ScaleNode>)
    requires sg.Valid() && node in sg.Repr && SearchedNodes(sg, node, {}, after)
    ensures Values(after) == ReachSet(sg.edges, {node.value})
  {
    hide Reaches, ReachSet;
    var vs := Values(after);
    forall a, b | (a, b) in sg.edges && a in vs ensures b in vs {
      var n :| n in after && n.value == a;
      assert sg.graph[b] in n.children && sg.graph[b] in after;
    }
    ReachSetLeast(sg.edges, {node.value}, vs);
    forall n | n in after ensures n.value in ReachSet(sg.edges, {node.value}) {
      InReachSet(sg.edges, {node.value}, node.value, n.value);
    }
  }

  /** All roots in turn, each with fresh marks. */
  method FindAll(p: Program, ops: set<Opcode>, sg: ScaleGraph) returns (found: set<ScaleNode>)
    requires sg.Valid()
    ensures found <= sg.Repr && Values(found) == Overflowing(p, ops, ReachSet(sg.edges, sg.Roots()))
  {
    hide ScaleGraph.Valid, CanIntegerOverflow, ReachSet;
    found := {};
    ReachSetEmpty(sg.edges);
    assert FirstRoots(sg, 0) == {};
    for i := 0 to |sg.scaleVars|
      invariant found <= sg.Repr
      invariant Values(found) == Overflowing(p, ops, ReachSet(sg.edges, FirstRoots(sg, i)))
    {
      var v := sg.scaleVars[i];
      RootInside(sg, i);
      ghost var before := found;
      var visited;
      found, visited := FindInstructions(p, ops, sg, v, found, {});
      assert visited - {} == visited;
      NodesExact(sg, v, visited);
      ReachSetUnion(sg.edges, FirstRoots(sg, i), {v.value});
      OverflowingStep(p, ops, visited, before, ReachSet(sg.edges, FirstRoots(sg, i)), found);
    }
    assert FirstRoots(sg, |sg.scaleVars|) == sg.Roots();
  }

  ghost function FirstRoots(sg: ScaleGraph, i: nat): set<Value>
    requires i <= |sg.scaleVars|
    reads sg
  {
    set n | n in sg.scaleVars[..i] :: n.value
  }

  lemma RootInside(sg: ScaleGraph, i: nat)
    requires sg.Valid() && i < |sg.scaleVars|
    ensures sg.scaleVars[i] in sg.Repr
    ensures FirstRoots(sg, i + 1) == FirstRoots(sg, i) + {sg.scaleVars[i].value}
  {
    assert sg.scaleVars[..i + 1] == sg.scaleVars[..i] + [sg.scaleVars[i]];
  }

  lemma OverflowingStep(p: Program, ops: set<Opcode>, visited: set<ScaleNode>, before: set<ScaleNode>,
                        reached: set<Value>, found: set<ScaleNode>)
    requires Values(before) == Overflowing(p, ops, reached)
    requires found == before + set n | n in visited && CanIntegerOverflow(p, ops, n.value)
    ensures Values(found) == Overflowing(p, ops, reached + Values(visited))
  {
    hide CanIntegerOverflow;
    forall v | v in Overflowing(p, ops, reached + Values(visited)) ensures v in Values(found) {
      if v in Values(visited) {
        var n :| n in visited && n.value == v;
        assert n in found;
      } else {
        assert v in Values(before);
        var n :| n in before && n.value == v;
        assert n in found;
      }
    }
    forall n | n in found ensures n.value in Overflowing(p, ops, reached + Values(visited)) {
      if n in before { assert n.value in Values(before); }
    }
  }

  ghost predicate Ascending(s: seq<Value>) {
    forall i, j :: 0 <= i < j < |s| ==> s[i] < s[j]
  }

  /** The elements of an ordered set, as a vector. */
  method Listed(s: set<Value>) returns (out: seq<Value>)
    ensures Ascending(out) && Members(out) == s
  {
    out := [];
    var rest := s;
    while rest != {}
      invariant rest <= s && Ascending(out) && Members(out) == s - rest
      invariant forall x, y :: x in out && y in rest ==> x < y
      decreases rest
    {
      ghost var least := LeastElement(rest);
      var k :| k in rest && forall j :: j in rest ==> k <= j;
      assert forall i :: 0 <= i < |out| ==> out[i] in out;
      assert Members(out + [k]) == Members(out) + {k};
      assert (s - rest) + {k} == s - (rest - {k});
      out, rest := out + [k], rest - {k};
    }
  }

  /** Flag the overflowable nodes that can be reached from the marked ones, and list their instructions. */
  method Perform(p: Program, ops: set<Opcode>, sg: ScaleGraph) returns (overflowable: seq<Value>)
    requires sg.Valid()
    modifies sg.Repr`couldOverflow
    ensures sg.Valid()
    ensures Ascending(overflowable)
    ensures Members(overflowable) == Overflowing(p, ops, ReachSet(sg.edges, sg.Roots()))
    ensures forall v :: v in overflowable <==>
              && v in ReachSet(sg.edges, sg.Roots()) && v in p.kinds && p.kinds[v].Binary?
              && p.kinds[v].op in ops && p.kinds[v].ty.Integer? && p.kinds[v].ty.bits <= 32
    ensures forall n :: n in sg.Repr ==> n.couldOverflow == (old(n.couldOverflow) || n.value in overflowable)
  {
    hide CanIntegerOverflow, ReachSet;
    var nodes := FindAll(p, ops, sg);
    forall n | n in nodes {
      n.couldOverflow := true;
    }
    forall n | n in sg.Repr ensures sg.Adjacent(n) {
      assert old(sg.Adjacent(n));
    }
    overflowable := Listed(set n | n in nodes :: n.value);
    FlaggedAreListed(sg, nodes, overflowable);
    ListedAreNarrow(p, ops, ReachSet(sg.edges, sg.Roots()), overflowable);
  }

  lemma FlaggedAreListed(sg: ScaleGraph, nodes: set<ScaleNode>, overflowable: seq<Value>)
    requires sg.Indexed() && nodes <= sg.Repr && Members(overflowable) == Values(nodes)
    ensures forall n :: n in sg.Repr ==> (n in nodes <==> n.value in overflowable)
  {
    forall n | n in sg.Repr ensures n in nodes <==> n.value in overflowable {
      assert n.value in overflowable <==> n.value in Members(overflowable);
    }
  }
}
