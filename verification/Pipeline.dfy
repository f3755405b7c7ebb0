/** The analyses in sequence: marked values to scale graph to overflowable instructions. */
module Pipeline {
  import opened Collections
  import opened Reachability
  import opened IR
  import opened ScaleGraphs
  import opened TraceClosure
  import opened ReferenceSearch
  import opened ScaleVariableTracing
  import opened TraceTheorems
  import opened LoopTracing
  import opened OverflowDetection
  import opened TracePrinting

  /** The scale graph of a set of marked values. */
  ghost function ScaleGraphOf(p: Program, vars: set<Value>, shouldTraceLoops: bool): GraphState
    requires p.WellFormed() && vars <= p.kinds.Keys
  {
    var st := TraceResult(p, GraphState(vars, {}), vars);
    if shouldTraceLoops then Link(st, LoopLinks(p, st.vs)) else st
  }

  /** Every vertex of the scale graph is reached by child edges from a marked value. */
  lemma ScaleGraphRooted(p: Program, vars: set<Value>, shouldTraceLoops: bool)
    requires p.WellFormed() && vars <= p.kinds.Keys
    ensures Rooted(ScaleGraphOf(p, vars, shouldTraceLoops), vars)
  {
    hide Program.WellFormed, TraceFrom, Controls, ReachSet, EdgesWithin, StartEdges;
    StartEdgesAre(p, vars);
    TraceRooted(p, vars, StartEdges(p, vars));
    var st := TraceResult(p, GraphState(vars, {}), vars);
    if shouldTraceLoops {
      LinkRooted(st, LoopLinks(p, st.vs), vars);
    }
  }

  /** With loops the graph is closed under data flow exactly if nothing uses or reads what only a loop
      brought in: such an instruction is no vertex that links leave. */
  lemma LoopsFlowClosedIff(p: Program, vars: set<Value>)
    requires p.WellFormed() && vars <= p.kinds.Keys
    ensures var st := TraceResult(p, GraphState(vars, {}), vars);
            FlowClosed(p, ScaleGraphOf(p, vars, true), vars) <==>
              Out(p.Flow(), Targets(LoopLinks(p, st.vs)) - st.vs) == {}
  {
    hide Program.WellFormed, TraceFrom, Controls, ReachSet, StartEdges, Program.FlowsTo, Targets;
    var st := TraceResult(p, GraphState(vars, {}), vars);
    StartEdgesAre(p, vars);
    TraceRooted(p, vars, StartEdges(p, vars));
    TraceFlowClosed(p, vars, StartEdges(p, vars));
    ReachSetClosed(st.es, vars);
    var links := LoopLinks(p, st.vs);
    var out := Out(p.Flow(), Targets(links) - st.vs);
    forall a, b | (a, b) in p.Flow() && a in Targets(links) && a !in st.vs
      ensures (a, b) in out && a !in vars && (a, b) !in st.es + links
    {
    }
    if out != {} {
      var e :| e in out;
      var (a, b) := e;
      assert (a, b) in p.Flow() && (a, b) !in st.es + links;
    }
  }

  /** Tracing with and without loops, from a list of marked values. */
  method Trace(p: Program, vars: seq<Value>, shouldTraceLoops: bool) returns (sg: ScaleGraph)
    requires p.WellFormed() && Members(vars) <= Data(p) && AllSettled(p, Members(vars))
    ensures fresh(sg) && fresh(sg.Repr) && sg.Valid() && sg.Unflagged() && sg.Roots() == Members(vars)
    ensures Members(vars) <= p.kinds.Keys && sg.State() == ScaleGraphOf(p, Members(vars), shouldTraceLoops)
  {
    hide ScaleGraph.Valid, Program.WellFormed, TraceFrom, LoopLinks, ReachSet, EdgesWithin, Members;
    hide StartEdges, AllSettled;
    sg := CreateScaleGraph(vars);
    ScaleVariableTracing.Trace(p, vars, sg);
    StartEdgesAre(p, Members(vars));
    TraceRooted(p, Members(vars), StartEdges(p, Members(vars)));
    if shouldTraceLoops {
      TraceLoops(p, sg);
    }
  }

  /**
   The whole analysis. What is detected is a plain filter of the scale graph, although the detection
   traverses it; the result depends on the set of marked values only, not on their order or multiplicity.
   */
  method Analyse(p: Program, ops: set<Opcode>, vars: seq<Value>, shouldTraceLoops: bool)
    returns (sg: ScaleGraph, overflowable: seq<Value>)
    requires p.WellFormed() && Members(vars) <= Data(p) && AllSettled(p, Members(vars))
    ensures sg.Valid() && sg.Roots() == Members(vars) && Members(vars) <= p.kinds.Keys
    ensures sg.State() == ScaleGraphOf(p, Members(vars), shouldTraceLoops)
    ensures Rooted(sg.State(), sg.Roots())
    ensures Ascending(overflowable) && Members(overflowable) == Overflowing(p, ops, sg.graph.Keys)
    ensures forall v :: v in overflowable <==>
              && v in sg.graph && v in p.kinds && p.kinds[v].Binary?
              && p.kinds[v].op in ops && p.kinds[v].ty.Integer? && p.kinds[v].ty.bits <= 32
    ensures forall n :: n in sg.Repr ==> n.couldOverflow == (n.value in overflowable)
  {
    hide ScaleGraph.Valid, Program.WellFormed, ReachSet, EdgesWithin, Members, ScaleGraphOf, Overflowing, AllSettled;
    sg := Trace(p, vars, shouldTraceLoops);
    ScaleGraphRooted(p, Members(vars), shouldTraceLoops);
    overflowable := Perform(p, ops, sg);
  }

  /** Marking more values can only enlarge the scale graph and what is detected in it. */
  lemma PipelineMonotone(p: Program, ops: set<Opcode>, vars: set<Value>, vars': set<Value>, shouldTraceLoops: bool)
    requires p.WellFormed() && vars <= vars' <= p.kinds.Keys
    requires Counted(Extend(p, GraphState(vars', {}), StartEdges(p, vars')))
    ensures var st, st' := ScaleGraphOf(p, vars, shouldTraceLoops), ScaleGraphOf(p, vars', shouldTraceLoops);
            Below(st, st') && Overflowing(p, ops, st.vs) <= Overflowing(p, ops, st'.vs)
  {
    hide Program.WellFormed, TraceFrom, CanIntegerOverflow, StartEdges, References, Extend, Counted;
    StartEdgesMono(p, vars, vars');
    TraceMono(p, vars, vars', StartEdges(p, vars), StartEdges(p, vars'));
    var st, st' := TraceResult(p, GraphState(vars, {}), vars), TraceResult(p, GraphState(vars', {}), vars');
    LoopLinksMono(p, st.vs, st'.vs);
    TargetsUnion(LoopLinks(p, st.vs), LoopLinks(p, st'.vs));
  }

  lemma LoopLinksMono(p: Program, vs: set<Value>, vs': set<Value>)
    requires p.WellFormed() && vs <= vs'
    ensures LoopLinks(p, vs) <= LoopLinks(p, vs') && LoopLinks(p, vs) + LoopLinks(p, vs') == LoopLinks(p, vs')
  {
    hide Controls, Program.WellFormed;
  }

  /** A history shows a marked value that the instruction v depends on, as deep as a path from there is long. */
  ghost predicate ShowsMarked(es: Edges, roots: set<Value>, v: Value, lines: seq<Line>) {
    exists l :: l in lines && l.value in roots && ReachesIn(es, l.value, v, l.depth)
  }

  /** The backward traces of the detected instructions: every alarm is explained by a marked value. */
  method PrintHistories(sg: ScaleGraph, overflowable: seq<Value>) returns (histories: seq<seq<Line>>)
    requires sg.Valid() && Rooted(sg.State(), sg.Roots()) && Members(overflowable) <= sg.graph.Keys
    ensures |histories| == |overflowable|
    ensures forall k :: 0 <= k < |overflowable| ==>
              && FullPrint(Flip(sg.edges), overflowable[k], 0, histories[k])
              && ShowsMarked(sg.edges, sg.Roots(), overflowable[k], histories[k])
  {
    hide ScaleGraph.Valid, FullPrint, ReachesIn, Flip, ReachSet;
    histories := [];
    for k := 0 to |overflowable|
      invariant |histories| == k
      invariant forall j :: 0 <= j < k ==>
                  && FullPrint(Flip(sg.edges), overflowable[j], 0, histories[j])
                  && ShowsMarked(sg.edges, sg.Roots(), overflowable[j], histories[j])
    {
      assert overflowable[k] in Members(overflowable);
      var lines := PrintBwdTracesOf(sg, overflowable[k], 0);
      AlarmExplained(sg.edges, sg.Roots(), overflowable[k], 0, lines);
      histories := histories + [lines];
    }
  }

  ghost function ValuesShown(traces: seq<seq<Line>>): set<Value> {
    set ls, l | ls in traces && l in ls :: l.value
  }

  /** The forward traces of the marked values: together they show every vertex of the graph. */
  method PrintUsedefs(sg: ScaleGraph) returns (traces: seq<seq<Line>>)
    requires sg.Valid() && Rooted(sg.State(), sg.Roots())
    ensures |traces| == |sg.scaleVars|
    ensures forall k :: 0 <= k < |traces| ==> FullPrint(sg.edges, sg.scaleVars[k].value, 0, traces[k])
    ensures ValuesShown(traces) == sg.graph.Keys
  {
    hide ScaleGraph.Valid, FullPrint, ReachSet;
    traces := [];
    ReachSetEmpty(sg.edges);
    assert FirstRoots(sg, 0) == {};
    for k := 0 to |sg.scaleVars|
      invariant |traces| == k
      invariant forall j :: 0 <= j < k ==> FullPrint(sg.edges, sg.scaleVars[j].value, 0, traces[j])
      invariant ValuesShown(traces) == ReachSet(sg.edges, FirstRoots(sg, k))
    {
      RootInside(sg, k);
      NodeIsVertex(sg, sg.scaleVars[k]);
      var v := sg.scaleVars[k].value;
      var lines := PrintTracesOf(sg, v, 0);
      FullPrintShows(sg.edges, v, lines);
      ReachSetUnion(sg.edges, FirstRoots(sg, k), {v});
      ShownSnoc(traces, lines);
      traces := traces + [lines];
    }
    assert FirstRoots(sg, |sg.scaleVars|) == sg.Roots();
  }

  lemma NodeIsVertex(sg: ScaleGraph, n: ScaleNode)
    requires sg.Valid() && n in sg.Repr
    ensures n.value in sg.graph
  {
  }

  lemma FullPrintShows(es: Edges, start: Value, lines: seq<Line>)
    requires FullPrint(es, start, 0, lines)
    ensures LineValues(lines) == ReachSet(es, {start})
  {
  }

  lemma ShownSnoc(traces: seq<seq<Line>>, lines: seq<Line>)
    ensures ValuesShown(traces + [lines]) == ValuesShown(traces) + LineValues(lines)
  {
  }
}
