/** Loops: every instruction of a loop that a scale-dependent conditional branch may enter is scale dependent. */
module LoopTracing {
  import opened Collections
  import opened Reachability
  import opened IR
  import opened ScaleGraphs
  import opened TraceClosure
  import opened ForwardTracing

  ghost predicate InBlocks(p: Program, blocks: seq<Block>, i: Value) {
    exists b :: b in blocks && b in p.blocks && i in p.blocks[b]
  }

  function TopLoops(p: Program, f: FunctionId): seq<Loop> {
    if f in p.topLoops then p.topLoops[f] else []
  }

  /** Instruction i is in the loop that block s belongs to or, when s is in no loop, in a top-level loop
      that s is the preheader of. */
  ghost predicate EnteredFrom(p: Program, f: FunctionId, s: Block, i: Value) {
    if s in p.loopFor then InBlocks(p, p.loopFor[s].blocks, i)
    else exists l :: l in TopLoops(p, f) && l.preheader == Some(s) && InBlocks(p, l.blocks, i)
  }

  /** Value b is a conditional branch, and one of its successors leads into a loop that contains i. */
  ghost predicate Controls(p: Program, b: Value, i: Value) {
    var k := p.KindOf(b);
    k.Branch? && k.conditional && exists s :: s in k.successors && EnteredFrom(p, k.within, s, i)
  }

  /** The edges from the branches among vs to the instructions of the loops they control. */
  ghost function LoopLinks(p: Program, vs: set<Value>): (r: Edges)
    ensures p.WellFormed() ==> forall b, i :: (b, i) in r <==> b in vs && Controls(p, b, i)
  {
    var r := set b, i | b in vs && i in p.kinds && Controls(p, b, i) :: (b, i);
    if p.WellFormed() then
      ControlledAreValues(p);
      r
    else r
  }

  lemma ControlledAreValues(p: Program)
    requires p.WellFormed()
    ensures forall b, i :: Controls(p, b, i) ==> i in p.kinds
  {
  }

  /** Read off the module: a conditional branch is linked to the instructions of the innermost loop that one of its
      successors is in or, for a successor in no loop, of the top-level loops of its function that this successor
      is the preheader of. */
  lemma LoopLinksAre(p: Program, vs: set<Value>, v: Value, i: Value)
    requires p.WellFormed()
    ensures (v, i) in LoopLinks(p, vs) <==>
              && v in vs && v in p.kinds && p.kinds[v].Branch? && p.kinds[v].conditional
              && var k := p.kinds[v];
              && exists s :: && s in k.successors
                             && if s in p.loopFor then
                                  exists b :: b in p.loopFor[s].blocks && b in p.blocks && i in p.blocks[b]
                                else
                                  && k.within in p.topLoops
                                  && exists l, b :: && l in p.topLoops[k.within] && l.preheader == Some(s)
                                                    && b in l.blocks && b in p.blocks && i in p.blocks[b]
  {
    hide Program.WellFormed;
    forall f, s
      ensures EnteredFrom(p, f, s, i) <==>
                if s in p.loopFor then
                  exists b :: b in p.loopFor[s].blocks && b in p.blocks && i in p.blocks[b]
                else
                  && f in p.topLoops
                  && exists l, b :: && l in p.topLoops[f] && l.preheader == Some(s)
                                    && b in l.blocks && b in p.blocks && i in p.blocks[b]
    {
      if s !in p.loopFor && f in p.topLoops {
        forall l, b | l in p.topLoops[f] && l.preheader == Some(s) && b in l.blocks && b in p.blocks && i in p.blocks[b]
          ensures EnteredFrom(p, f, s, i)
        {
          assert InBlocks(p, l.blocks, i);
        }
      }
    }
    hide EnteredFrom;
  }

  lemma InBlocksSnoc(p: Program, blocks: seq<Block>, b: Block, i: Value)
    ensures InBlocks(p, blocks + [b], i) <==> InBlocks(p, blocks, i) || (b in p.blocks && i in p.blocks[b])
  {
    if b in p.blocks && i in p.blocks[b] { assert b in blocks + [b]; }
    if InBlocks(p, blocks, i) {
      var c :| c in blocks && c in p.blocks && i in p.blocks[c];
      assert c in blocks + [b];
    }
  }

  method CollectBlocks(p: Program, blocks: seq<Block>) returns (out: seq<Value>)
    ensures forall i :: i in out <==> InBlocks(p, blocks, i)
  {
    out := [];
    for k := 0 to |blocks|
      invariant forall i :: i in out <==> InBlocks(p, blocks[..k], i)
    {
      assert blocks[..k + 1] == blocks[..k] + [blocks[k]];
      forall i { InBlocksSnoc(p, blocks[..k], blocks[k], i); }
      if blocks[k] in p.blocks {
        out := out + p.blocks[blocks[k]];
      }
    }
    assert blocks[..|blocks|] == blocks;
  }

  method CollectFrom(p: Program, f: FunctionId, s: Block) returns (out: seq<Value>)
    ensures forall i :: i in out <==> EnteredFrom(p, f, s, i)
  {
    hide InBlocks;
    if s in p.loopFor {
      out := CollectBlocks(p, p.loopFor[s].blocks);
    } else {
      out := [];
      var loops := TopLoops(p, f);
      for k := 0 to |loops|
        invariant forall i :: i in out <==>
                    exists l :: l in loops[..k] && l.preheader == Some(s) && InBlocks(p, l.blocks, i)
      {
        assert loops[..k + 1] == loops[..k] + [loops[k]];
        if loops[k].preheader == Some(s) {
          var instrs := CollectBlocks(p, loops[k].blocks);
          out := out + instrs;
        }
      }
      assert loops[..|loops|] == loops;
    }
  }

  /** The instructions that a value of the graph puts under scale control. */
  method CollectControlled(p: Program, b: Value) returns (out: seq<Value>)
    ensures forall i :: i in out <==> Controls(p, b, i)
  {
    hide EnteredFrom;
    out := [];
    match p.KindOf(b)
    case Branch(f, conditional, successors) =>
      if conditional {
        for k := 0 to |successors|
          invariant forall i :: i in out <==> exists s :: s in successors[..k] && EnteredFrom(p, f, s, i)
        {
          assert successors[..k + 1] == successors[..k] + [successors[k]];
          var instrs := CollectFrom(p, f, successors[k]);
          out := out + instrs;
        }
        assert successors[..|successors|] == successors;
      }
    case _ =>
  }

  /** The graph nodes with values reachable from the marked ones. */
  ghost predicate Reached(sg: ScaleGraph, n: ScaleNode)
    reads sg
  {
    n in sg.Repr && n.value in ReachSet(sg.edges, sg.Roots())
  }

  lemma ChildReached(sg: ScaleGraph, n: ScaleNode)
    requires sg.Valid() && Reached(sg, n)
    ensures forall c :: c in n.children ==> Reached(sg, c)
  {
    ReachSetClosed(sg.edges, sg.Roots());
  }

  lemma RootReached(sg: ScaleGraph)
    requires sg.Valid()
    ensures forall n :: n in sg.scaleVars ==> Reached(sg, n)
  {
    ReachSetClosed(sg.edges, sg.Roots());
  }

  ghost function ValuesOf(ns: seq<ScaleNode>): set<Value> {
    set n | n in ns :: n.value
  }

  /** A set of reached nodes that contains the roots and all its children is the set of all reached nodes. */
  lemma VisitedAll(sg: ScaleGraph, visited: seq<ScaleNode>)
    requires sg.Valid() && (forall n :: n in visited ==> Reached(sg, n))
    requires forall n :: n in sg.scaleVars ==> n in visited
    requires forall n, c :: n in visited && c in n.children ==> c in visited
    ensures ValuesOf(visited) == ReachSet(sg.edges, sg.Roots())
  {
    var vs := ValuesOf(visited);
    assert sg.Roots() <= vs;
    forall a, b | (a, b) in sg.edges && a in vs ensures b in vs {
      var n :| n in visited && n.value == a;
      assert sg.graph[b] in n.children;
      assert sg.graph[b] in visited;
    }
    ReachSetLeast(sg.edges, sg.Roots(), vs);
  }

  /**
   The traversal with an explicit stack: each reachable node is visited exactly once, and the edges to be
   added are collected for later.
   */
  method CollectLoopNodes(p: Program, sg: ScaleGraph) returns (visited: seq<ScaleNode>, newNodes: seq<(Value, Value)>)
    requires p.WellFormed() && sg.Valid()
    ensures Distinct(visited) && ValuesOf(visited) == ReachSet(sg.edges, sg.Roots())
    ensures forall n :: n in visited ==> n in sg.Repr
    ensures forall e :: e in newNodes <==> e in LoopLinks(p, ReachSet(sg.edges, sg.Roots()))
  {
    hide ScaleGraph.Valid, Reached, Controls, Program.WellFormed, ReachSet;
    var nodes := sg.scaleVars;
    visited, newNodes := [], [];
    RootReached(sg);
    ghost var unvisited := sg.Repr;
    while |nodes| > 0
      invariant forall n :: n in nodes ==> Reached(sg, n)
      invariant forall n :: n in visited ==> Reached(sg, n)
      invariant Distinct(visited)
      invariant forall n :: n in sg.scaleVars ==> n in visited || n in nodes
      invariant forall n, c :: n in visited && c in n.children ==> c in visited || c in nodes
      invariant forall b, i :: (b, i) in newNodes <==> Controls(p, b, i) && exists n :: n in visited && n.value == b
      invariant unvisited == set n | n in sg.Repr && n !in visited
      decreases unvisited, |nodes|
    {
      var n := nodes[|nodes| - 1];
      assert n in nodes && nodes == nodes[..|nodes| - 1] + [n];
      nodes := nodes[..|nodes| - 1];
      if n !in visited {
        assert n in unvisited by { ReachedInside(sg, n); }
        ChildReached(sg, n);
        ghost var before := visited;
        visited := visited + [n];
        nodes := nodes + n.children;
        unvisited := unvisited - {n};
        var instrs := CollectControlled(p, n.value);
        newNodes := newNodes + Pairs(n.value, instrs);
      }
    }
    VisitedAll(sg, visited);
    LinksCollected(p, sg, visited, newNodes);
  }

  lemma ReachedInside(sg: ScaleGraph, n: ScaleNode)
    requires Reached(sg, n)
    ensures n in sg.Repr
  {
  }

  function Pairs(b: Value, instrs: seq<Value>): (r: seq<(Value, Value)>)
    ensures forall a, i :: (a, i) in r <==> a == b && i in instrs
  {
    var r := seq(|instrs|, k requires 0 <= k < |instrs| => (b, instrs[k]));
    assert forall k :: 0 <= k < |instrs| ==> r[k] == (b, instrs[k]);
    r
  }

  lemma LinksCollected(p: Program, sg: ScaleGraph, visited: seq<ScaleNode>, newNodes: seq<(Value, Value)>)
    requires p.WellFormed() && (forall n :: n in visited ==> Reached(sg, n))
    requires ValuesOf(visited) == ReachSet(sg.edges, sg.Roots())
    requires forall b, i :: (b, i) in newNodes <==> Controls(p, b, i) && exists n :: n in visited && n.value == b
    ensures forall e :: e in newNodes <==> e in LoopLinks(p, ReachSet(sg.edges, sg.Roots()))
    ensures forall n :: n in visited ==> n in sg.Repr
  {
    hide Controls, ReachSet, Program.WellFormed;
    forall e ensures e in newNodes <==> e in LoopLinks(p, ReachSet(sg.edges, sg.Roots())) {
      var (b, i) := e;
      assert b in ValuesOf(visited) <==> exists n :: n in visited && n.value == b;
    }
  }

  ghost function PairSet(es: seq<(Value, Value)>): Edges {
    set e | e in es
  }

  lemma PairSetSnoc(es: seq<(Value, Value)>, k: nat)
    requires k < |es|
    ensures PairSet(es[..k + 1]) == PairSet(es[..k]) + {es[k]}
  {
    assert es[..k + 1] == es[..k] + [es[k]];
  }

  lemma LinkTwice(st: GraphState, links: Edges, links': Edges)
    ensures Link(Link(st, links), links') == Link(st, links + links')
    ensures Link(st, {}) == st
  {
    TargetsUnion(links, links');
    assert Targets({}) == {};
  }

  /** The deferred updates: every collected instruction is added below its branch, and not traced on. */
  method AddLinks(newNodes: seq<(Value, Value)>, sg: ScaleGraph)
    requires sg.Valid() && forall e :: e in newNodes ==> e.0 in sg.graph
    modifies sg, sg.Repr
    ensures sg.Valid() && sg.Grew() && sg.State() == Link(old(sg.State()), PairSet(newNodes))
  {
    hide ScaleGraph.Valid, Link, PairSet;
    ghost var st := sg.State();
    LinkTwice(st, {}, {});
    NoPairs(newNodes);
    for k := 0 to |newNodes|
      invariant sg.Valid() && sg.Grew() && sg.State() == Link(st, PairSet(newNodes[..k]))
    {
      assert newNodes[k] in newNodes;
      ghost var cur := sg.State();
      AddChild(newNodes[k].0, newNodes[k].1, sg);
      LinkOne(cur, newNodes[k]);
      LinkTwice(st, PairSet(newNodes[..k]), {newNodes[k]});
      PairSetSnoc(newNodes, k);
    }
    assert newNodes[..|newNodes|] == newNodes;
  }

  lemma NoPairs(es: seq<(Value, Value)>)
    ensures PairSet(es[..0]) == {}
  {
  }

  lemma LinkOne(st: GraphState, e: (Value, Value))
    ensures Link(st, {e}) == GraphState(st.vs + {e.1}, st.es + {(e.0, e.1)})
  {
    SingleTarget(e.0, e.1);
    assert e == (e.0, e.1);
  }

  method TraceLoops(p: Program, sg: ScaleGraph)
    requires p.WellFormed() && sg.Valid()
    modifies sg, sg.Repr
    ensures sg.Valid() && sg.Grew()
    ensures sg.State() == Link(old(sg.State()), LoopLinks(p, ReachSet(old(sg.edges), old(sg.Roots()))))
  {
    hide Program.WellFormed, ReachSet, LoopLinks, Link;
    var visited, newNodes := CollectLoopNodes(p, sg);
    ghost var reached := ReachSet(sg.edges, sg.Roots());
    assert PairSet(newNodes) == LoopLinks(p, reached);
    forall e | e in newNodes ensures e.0 in sg.graph {
      BranchIsVertex(p, sg, visited, e);
    }
    AddLinks(newNodes, sg);
  }

  lemma BranchIsVertex(p: Program, sg: ScaleGraph, visited: seq<ScaleNode>, e: (Value, Value))
    requires p.WellFormed() && sg.Valid() && forall n :: n in visited ==> n in sg.Repr
    requires e in LoopLinks(p, ValuesOf(visited))
    ensures e.0 in sg.graph
  {
    hide Controls, Program.WellFormed;
    var (b, i) := e;
    assert (b, i) in LoopLinks(p, ValuesOf(visited));
  }
}
