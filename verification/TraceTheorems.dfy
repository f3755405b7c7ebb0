/** What the closed form of tracing says: provenance, closure under data flow, monotonicity. */
module TraceTheorems {
  import opened Collections
  import opened Reachability
  import opened IR
  import opened ScaleGraphs
  import opened TraceClosure
  import opened ScaleVariableTracing

  ghost predicate Below(st: GraphState, st': GraphState) {
    st.vs <= st'.vs && st.es <= st'.es
  }

  // ---------- provenance ----------

  lemma ExtendWithin(p: Program, st: GraphState, links: Edges)
    requires EdgesWithin(st) && forall a, b :: (a, b) in links ==> a in st.vs
    ensures EdgesWithin(Extend(p, st, links))
  {
    ReachSetClosed(p.Flow(), Targets(links));
    hide ReachSet, Program.FlowsTo, Targets;
    var st' := Extend(p, st, links);
    forall a, b | (a, b) in st'.es ensures a in st'.vs && b in st'.vs {
      LinkTarget(links, a, b);
    }
  }

  lemma StartRooted(roots: set<Value>)
    ensures Rooted(GraphState(roots, {}), roots)
  {
    assert Closed({}, roots);
    ReachSetOfClosed({}, roots);
  }

  /** Everything traced from the targets of links that leave vertices is reached by the new edges. */
  lemma TracedIsReached(p: Program, st: GraphState, links: Edges, roots: set<Value>)
    requires Rooted(st, roots) && forall a, b :: (a, b) in links ==> a in st.vs
    ensures ReachSet(p.Flow(), Targets(links)) <= ReachSet(Extend(p, st, links).es, roots)
  {
    hide ReachSet, Program.FlowsTo;
    var flow, t, es' := p.Flow(), ReachSet(p.Flow(), Targets(links)), Extend(p, st, links).es;
    var s := ReachSet(es', roots);
    ReachSetMono(st.es, es', roots, roots);
    ReachSetClosed(es', roots);
    ReachSetClosed(flow, Targets(links));
    forall b | b in Targets(links) ensures b in s {
      var a := TargetSource(links, b);
      assert (a, b) in es';
    }
    var both := set x | x in t && x in s;
    forall x, y | (x, y) in flow && x in both ensures y in both {
      assert (x, y) in Out(flow, t);
      assert (x, y) in es';
    }
    ReachSetLeast(flow, Targets(links), both);
  }

  /** Extending by links that leave vertices keeps every vertex reachable from the marked values. */
  lemma ExtendRooted(p: Program, st: GraphState, links: Edges, roots: set<Value>)
    requires Rooted(st, roots) && forall a, b :: (a, b) in links ==> a in st.vs
    ensures Rooted(Extend(p, st, links), roots)
  {
    hide ReachSet, Program.FlowsTo, Targets, Out, EdgesWithin, Closed;
    var st' := Extend(p, st, links);
    TracedIsReached(p, st, links, roots);
    ExtendWithin(p, st, links);
    ReachSetMono(st.es, st'.es, roots, roots);
    ReachSetClosed(st.es, roots);
    ReachSetClosed(p.Flow(), Targets(links));
    WithinClosed(st');
    ReachSetLeast(st'.es, roots, st'.vs);
    assert st'.vs == ReachSet(st'.es, roots);
  }

  lemma WithinClosed(st: GraphState)
    requires EdgesWithin(st)
    ensures Closed(st.es, st.vs)
  {
  }

  lemma LinkTarget(links: Edges, a: Value, b: Value)
    ensures (a, b) in links ==> b in Targets(links)
  {
  }

  lemma CallEdgesLeaveVertices(p: Program, st: GraphState)
    requires EdgesWithin(st)
    ensures forall c, f :: (c, f) in CallEdges(p, st.es) ==> c in st.vs
  {
    CallEdgesAre(p, st.es);
  }

  /** Every vertex that tracing leaves in the graph is reached by child edges from a marked value, whatever
      the links from marked values were, and so it was before the calls were expanded. */
  lemma TraceRooted(p: Program, vars: set<Value>, start: Edges)
    requires forall a, b :: (a, b) in start ==> a in vars
    ensures Rooted(Extend(p, GraphState(vars, {}), start), vars)
    ensures Rooted(TraceFrom(p, GraphState(vars, {}), start), vars)
  {
    hide Rooted, Extend, Round;
    var st := GraphState(vars, {});
    StartRooted(vars);
    ExtendRooted(p, st, start, vars);
    RoundRooted(p, Extend(p, st, start), vars);
  }

  lemma RoundRooted(p: Program, st: GraphState, vars: set<Value>)
    requires Rooted(st, vars)
    ensures Rooted(Round(p, st), vars)
  {
    hide Extend, CallEdges;
    CallEdgesLeaveVertices(p, st);
    ExtendRooted(p, st, CallEdges(p, st.es), vars);
  }

  // ---------- def-use closure ----------

  /** Everything but the marked values has all its data flow in the graph. */
  ghost predicate FlowClosed(p: Program, st: GraphState, vars: set<Value>) {
    forall a, b :: (a, b) in p.Flow() && a in st.vs && a !in vars ==> (a, b) in st.es
  }

  lemma ExtendFlowClosed(p: Program, st: GraphState, links: Edges, vars: set<Value>)
    requires FlowClosed(p, st, vars)
    ensures FlowClosed(p, Extend(p, st, links), vars)
  {
    hide ReachSet, Targets, Program.FlowsTo;
    ReachSetClosed(p.Flow(), Targets(links));
  }

  /** Before loops are added, the graph of the marked values is closed under def-use and memory flow. */
  lemma TraceFlowClosed(p: Program, vars: set<Value>, start: Edges)
    ensures FlowClosed(p, TraceFrom(p, GraphState(vars, {}), start), vars)
  {
    hide Extend, CallEdges;
    var first := Extend(p, GraphState(vars, {}), start);
    ExtendFlowClosed(p, GraphState(vars, {}), start, vars);
    ExtendFlowClosed(p, first, CallEdges(p, first.es), vars);
  }

  // ---------- monotonicity ----------

  lemma ExtendMono(p: Program, st: GraphState, st': GraphState, links: Edges, links': Edges)
    requires Below(st, st') && links <= links'
    ensures Below(Extend(p, st, links), Extend(p, st', links'))
  {
    hide ReachSet, Program.FlowsTo;
    TargetsMono(links, links');
    ReachSetMono(p.Flow(), p.Flow(), Targets(links), Targets(links'));
  }

  lemma CallEdgesMono(p: Program, es: Edges, es': Edges)
    requires es <= es'
    ensures CallEdges(p, es) <= CallEdges(p, es')
  {
    CallEdgesAre(p, es);
    CallEdgesAre(p, es');
  }

  lemma RoundMono(p: Program, st: GraphState, st': GraphState)
    requires Below(st, st')
    ensures Below(Round(p, st), Round(p, st'))
  {
    hide Extend, CallEdges;
    CallEdgesMono(p, st.es, st'.es);
    ExtendMono(p, st, st', CallEdges(p, st.es), CallEdges(p, st'.es));
  }

  lemma RoundGrows(p: Program, st: GraphState)
    ensures Below(st, Round(p, st))
  {
  }

  /** The 32-bit size that the loop compares tells this graph from the empty one. */
  ghost predicate Counted(st: GraphState) {
    |st.vs| % 0x1_0000_0000 == 0 ==> st.vs == {}
  }

  /** More marked values and links give a larger graph, if the size of the larger one before the loop counts. */
  lemma TraceMono(p: Program, vars: set<Value>, vars': set<Value>, start: Edges, start': Edges)
    requires vars <= vars' && start <= start' && Counted(Extend(p, GraphState(vars', {}), start'))
    ensures Below(TraceFrom(p, GraphState(vars, {}), start), TraceFrom(p, GraphState(vars', {}), start'))
  {
    hide Extend, Round;
    var first, first' := Extend(p, GraphState(vars, {}), start), Extend(p, GraphState(vars', {}), start');
    ExtendMono(p, GraphState(vars, {}), GraphState(vars', {}), start, start');
    RoundMono(p, first, first');
    RoundGrows(p, first);
    RoundGrows(p, first');
  }

  lemma ExtendSplit(p: Program, st: GraphState, links: Edges)
    ensures var alone := Extend(p, GraphState({}, {}), links);
            Extend(p, st, links) == GraphState(st.vs + alone.vs, st.es + alone.es)
  {
    hide ReachSet, Targets, Out, Program.FlowsTo;
    var alone := Extend(p, GraphState({}, {}), links);
    assert Extend(p, st, links).vs == st.vs + alone.vs;
    assert Extend(p, st, links).es == st.es + alone.es;
  }

  /** Exactly: the larger size counts, the smaller one is truncated to zero as well, or the round adds nothing
      to the smaller graph that is not in the larger one already. */
  lemma TraceMonoIff(p: Program, vars: set<Value>, vars': set<Value>, start: Edges, start': Edges)
    requires vars <= vars' && start <= start'
    ensures var first, first' := Extend(p, GraphState(vars, {}), start), Extend(p, GraphState(vars', {}), start');
            Below(TraceFrom(p, GraphState(vars, {}), start), TraceFrom(p, GraphState(vars', {}), start')) <==>
              || Counted(first') || |first.vs| % 0x1_0000_0000 == 0
              || Below(Extend(p, GraphState({}, {}), CallEdges(p, first.es)), first')
  {
    var first, first' := Extend(p, GraphState(vars, {}), start), Extend(p, GraphState(vars', {}), start');
    hide Extend, CallEdges;
    if Counted(first') { TraceMono(p, vars, vars', start, start'); }
    ExtendMono(p, GraphState(vars, {}), GraphState(vars', {}), start, start');
    RoundGrows(p, first');
    ExtendSplit(p, first, CallEdges(p, first.es));
  }

  /** It does in any module with fewer than 2^32 data values. */
  lemma FewDataCounted(p: Program, vars: set<Value>, start: Edges)
    requires p.WellFormed() && vars <= Data(p) && AllData(p, start) && |Data(p)| < 0x1_0000_0000
    ensures Counted(Extend(p, GraphState(vars, {}), start))
  {
    hide Program.WellFormed, Extend;
    ExtendInside(p, GraphState(vars, {}), start);
    CardinalityMono(Extend(p, GraphState(vars, {}), start).vs, Data(p));
  }
}
