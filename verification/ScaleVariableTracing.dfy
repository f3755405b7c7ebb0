/** Tracing as a whole: from the marked scale variables to the scale graph. */
module ScaleVariableTracing {
  import opened Collections
  import opened Reachability
  import opened IR
  import opened ScaleGraphs
  import opened TraceClosure
  import opened ForwardTracing
  import opened BackwardTracing
  import opened GepSearch
  import opened ReferenceSearch

  /** The values that can be traced: all but functions. */
  ghost function Data(p: Program): set<Value> {
    set v | v in p.kinds && !p.KindOf(v).CodePointer?
  }

  /** A state whose vertices, and whose edges' ends, are data. */
  ghost predicate Inside(p: Program, st: GraphState) {
    st.vs <= Data(p) && forall a, b {:trigger (a, b) in st.es} :: (a, b) in st.es ==> a in Data(p) && b in Data(p)
  }

  ghost predicate AllData(p: Program, links: Edges) {
    forall a, b {:trigger (a, b) in links} :: (a, b) in links ==> a in Data(p) && b in Data(p)
  }

  lemma FlowStaysData(p: Program, from: set<Value>)
    requires p.WellFormed() && from <= Data(p)
    ensures ReachSet(p.Flow(), from) <= Data(p)
  {
    assert Closed(p.Flow(), Data(p));
    ReachSetLeast(p.Flow(), from, Data(p));
  }

  lemma ExtendInside(p: Program, st: GraphState, links: Edges)
    requires p.WellFormed() && Inside(p, st) && AllData(p, links)
    ensures Inside(p, Extend(p, st, links))
  {
    hide ReachSet;
    TargetsWithin(links, Data(p));
    FlowStaysData(p, Targets(links));
    ReachSetClosed(p.Flow(), Targets(links));
  }

  lemma CallEdgesInside(p: Program, es: Edges)
    requires p.WellFormed() && AllData(p, es)
    ensures AllData(p, CallEdges(p, es)) && DataOnly(p, es)
  {
    CallEdgesAre(p, es);
    forall c, f | (c, f) in CallEdges(p, es) ensures c in Data(p) && f in Data(p) {
      FormalIsArgument(p, c, f);
      var a :| (a, c) in es && f in p.FormalsFor(c, a);
    }
  }

  /** A round keeps the state among data, so rounds can be iterated. */
  lemma RoundInside(p: Program, st: GraphState)
    requires p.WellFormed() && Inside(p, st)
    ensures Inside(p, Round(p, st))
  {
    CallEdgesInside(p, st.es);
    ExtendInside(p, st, CallEdges(p, st.es));
  }

  ghost function LinksTo(v: Value, rs: set<Value>): (r: Edges)
    ensures forall a, b :: (a, b) in r <==> a == v && b in rs
  {
    set r | r in rs :: (v, r)
  }

  /** The edges from each marked value to its references. */
  ghost function StartEdges(p: Program, vars: set<Value>): Edges
    requires p.WellFormed() && vars <= p.kinds.Keys
  {
    set v, r | v in vars && r in References(p, v) :: (v, r)
  }

  /**
   Tracing from given start links: the links and all that data flow reaches from them, then one round of
   call expansion. The loop around the round compares 32-bit sizes and runs once, unless the first of them
   is zero.
   */
  ghost function TraceFrom(p: Program, st: GraphState, start: Edges): GraphState {
    var first := Extend(p, st, start);
    if |first.vs| % 0x1_0000_0000 == 0 then first else Round(p, first)
  }

  /** The closed form of trace: tracing from the links between the marked values and their references. */
  ghost function TraceResult(p: Program, st: GraphState, vars: set<Value>): GraphState
    requires p.WellFormed() && vars <= p.kinds.Keys
  {
    TraceFrom(p, st, StartEdges(p, vars))
  }

  lemma StartEdgesAre(p: Program, vars: set<Value>)
    requires p.WellFormed() && vars <= p.kinds.Keys
    ensures forall a, b :: (a, b) in StartEdges(p, vars) <==> a in vars && a in p.kinds && b in References(p, a)
  {
    hide Program.WellFormed, References;
  }

  lemma StartEdgesMono(p: Program, vars: set<Value>, vars': set<Value>)
    requires p.WellFormed() && vars <= vars' <= p.kinds.Keys
    ensures StartEdges(p, vars) <= StartEdges(p, vars')
  {
    hide Program.WellFormed, References;
  }

  /** Add a marked value; a value that is already there does not become a root. */
  method AddRoot(v: Value, sg: ScaleGraph)
    requires sg.Valid() && sg.Unflagged()
    modifies sg
    ensures sg.Valid() && sg.Unflagged() && sg.edges == old(sg.edges)
    ensures old(sg.Repr) <= sg.Repr && forall n :: n in sg.Repr && n !in old(sg.Repr) ==> fresh(n)
    ensures sg.graph.Keys == old(sg.graph.Keys) + {v}
    ensures sg.Roots() == old(sg.Roots()) + if v in old(sg.graph) then {} else {v}
  {
    sg.AddVertex(v, true);
    assert v !in old(sg.graph) ==> sg.graph[v].value == v;
  }

  lemma NoRoots(sg: ScaleGraph, vars: seq<Value>)
    requires sg.Valid() && sg.graph == map[] && sg.scaleVars == []
    ensures sg.Roots() == {} == Members(vars[..0]) && sg.Unflagged()
  {
  }

  method CreateScaleGraph(vars: seq<Value>) returns (sg: ScaleGraph)
    ensures sg.Valid() && fresh(sg) && fresh(sg.Repr) && sg.Unflagged()
    ensures sg.State() == GraphState(Members(vars), {}) && sg.Roots() == Members(vars)
  {
    hide ScaleGraph.Valid, ScaleGraph.Roots, ScaleGraph.Unflagged, Members;
    sg := new ScaleGraph();
    NoRoots(sg, vars);
    for i := 0 to |vars|
      invariant sg.Valid() && fresh(sg) && fresh(sg.Repr) && sg.Unflagged()
      invariant sg.edges == {} && sg.graph.Keys == Members(vars[..i]) && sg.Roots() == Members(vars[..i])
    {
      MembersSnoc(vars, i);
      AddRoot(vars[i], sg);
    }
    assert vars[..|vars|] == vars;
  }

  /** Link a marked value to one of its references, and trace from there past what is already visited. */
  method TraceReference(p: Program, v: Value, r: Value, visited: set<Value>, sg: ScaleGraph)
    returns (visited': set<Value>)
    requires p.WellFormed() && sg.Valid() && v in sg.graph && r in p.kinds
    requires visited <= p.kinds.Keys && Saturated(p, sg.State(), visited)
    modifies sg, sg.Repr
    ensures sg.Valid() && sg.Grew() && sg.State() == Extend(p, old(sg.State()), {(v, r)})
    ensures visited' <= p.kinds.Keys && Saturated(p, sg.State(), visited')
  {
    hide ScaleGraph.Valid, Program.WellFormed, Saturate, Searched, Traced, Saturated, Closed, Out, Targets;
    ghost var st := sg.State();
    AddChild(v, r, sg);
    SingleTarget(v, r);
    assert sg.State() == Link(st, {(v, r)});
    SaturatedGrows(p, st, sg.State(), visited);
    ghost var linked := sg.State();
    visited' := TraceUpToCalls(p, r, visited, sg);
    SearchSaturates(p, linked, sg.State(), r, visited, visited');
  }

  lemma SaturatedGrows(p: Program, st: GraphState, st': GraphState, visited: set<Value>)
    requires Saturated(p, st, visited) && st.vs <= st'.vs && st.es <= st'.es
    ensures Saturated(p, st', visited)
  {
  }

  method TraceReferences(p: Program, v: Value, refs: seq<Value>, visited: set<Value>, sg: ScaleGraph)
    returns (visited': set<Value>)
    requires p.WellFormed() && sg.Valid() && v in sg.graph && Members(refs) <= p.kinds.Keys
    requires visited <= p.kinds.Keys && Saturated(p, sg.State(), visited)
    modifies sg, sg.Repr
    ensures sg.Valid() && sg.Grew() && sg.State() == Extend(p, old(sg.State()), LinksTo(v, Members(refs)))
    ensures visited' <= p.kinds.Keys && Saturated(p, sg.State(), visited')
  {
    hide ScaleGraph.Valid, Program.WellFormed, Extend, Saturated, Program.FlowsTo;
    visited' := visited;
    ghost var st := sg.State();
    ExtendByNothing(p, st);
    assert LinksTo(v, Members(refs[..0])) == {};
    for i := 0 to |refs|
      invariant sg.Valid() && sg.Grew()
      invariant sg.State() == Extend(p, st, LinksTo(v, Members(refs[..i])))
      invariant visited' <= p.kinds.Keys && Saturated(p, sg.State(), visited')
    {
      assert refs[i] in Members(refs);
      visited' := TraceReference(p, v, refs[i], visited', sg);
      ExtendTwice(p, st, LinksTo(v, Members(refs[..i])), {(v, refs[i])});
      MembersSnoc(refs, i);
      assert LinksTo(v, Members(refs[..i + 1])) == LinksTo(v, Members(refs[..i])) + {(v, refs[i])};
    }
    assert refs[..|refs|] == refs;
  }

  lemma RefsInside(p: Program, t: seq<Value>)
    requires p.WellFormed()
    ensures Refs(p, t) <= Data(p)
  {
    ScanGepsAreGeps(p, t);
    if ScanRoot(p, t).Some? {
      UnrollInside(p, ScanGeps(p, t), {ScanRoot(p, t).value}, {});
    }
  }

  lemma {:induction false} UnrollInside(p: Program, traceGeps: seq<Value>, roots: set<Value>, visited: set<Value>)
    requires p.WellFormed() && (forall g :: g in traceGeps ==> IsGep(p, g)) && roots <= Data(p)
    ensures Unroll(p, traceGeps, roots, visited) <= Data(p)
    decreases |traceGeps|
  {
    hide ReachSet, GepUsers, Program.WellFormed, GepsEqual;
    if traceGeps != [] {
      var k := |traceGeps| - 1;
      assert traceGeps[k] in traceGeps;
      var reached := ReachSet(GepLinks(p), roots);
      UnrollInside(p, traceGeps[..k], Matching(p, traceGeps[k], GepUsers(p, reached - visited)), visited + reached);
    }
  }

  /** The references found from some of a marked value's traces. */
  ghost function RefsOf(p: Program, ts: seq<seq<Value>>): set<Value>
    requires p.WellFormed()
  {
    set t, r | t in ts && r in Refs(p, t) :: r
  }

  /** One marked value: follow it back, and trace forward from its references with shared marks. */
  method TraceVariable(p: Program, v: Value, sg: ScaleGraph)
    requires p.WellFormed() && sg.Valid() && v in sg.graph && v in p.kinds && VariableSettled(p, v)
    modifies sg, sg.Repr
    ensures sg.Valid() && sg.Grew()
    ensures sg.State() == Extend(p, old(sg.State()), LinksTo(v, References(p, v)))
  {
    hide ScaleGraph.Valid, Program.WellFormed, Extend, Saturated, LinksTo, Refs, RefsOf, BackTraces, TraceSettled;
    var vt := new ValueTrace(v);
    var results := FollowBwd(p, vt);
    ghost var ts := BackTraces(p, v);
    assert forall i :: 0 <= i < |ts| ==> results[i].trace == ts[i];
    var visited := {};
    ghost var st := sg.State();
    NoRefsYet(p, v, ts[..0], st);
    for i := 0 to |results|
      invariant sg.Valid() && sg.Grew()
      invariant forall i :: 0 <= i < |ts| ==> results[i].trace == ts[i]
      invariant sg.State() == Extend(p, st, LinksTo(v, RefsOf(p, ts[..i])))
      invariant visited <= p.kinds.Keys && Saturated(p, sg.State(), visited)
    {
      assert ts[i] in ts;
      var refs := AnalyseTrace(p, results[i]);
      RefListMeans(p, ts[i]);
      RefsInside(p, ts[i]);
      visited := TraceReferences(p, v, refs, visited, sg);
      ExtendTwice(p, st, LinksTo(v, RefsOf(p, ts[..i])), LinksTo(v, Members(refs)));
      RefsOfSnoc(p, v, ts, i);
    }
    assert ts[..|ts|] == ts;
    ReferencesAre(p, v);
  }

  lemma NoRefsYet(p: Program, v: Value, ts: seq<seq<Value>>, st: GraphState)
    requires p.WellFormed() && ts == []
    ensures st == Extend(p, st, LinksTo(v, RefsOf(p, ts))) && Saturated(p, st, {})
  {
    ExtendByNothing(p, st);
    assert LinksTo(v, RefsOf(p, ts)) == {};
  }

  lemma RefsOfSnoc(p: Program, v: Value, ts: seq<seq<Value>>, i: nat)
    requires p.WellFormed() && i < |ts|
    ensures LinksTo(v, RefsOf(p, ts[..i + 1])) == LinksTo(v, RefsOf(p, ts[..i])) + LinksTo(v, Refs(p, ts[i]))
  {
    hide Refs, Program.WellFormed;
    assert ts[..i + 1] == ts[..i] + [ts[i]];
  }

  lemma ReferencesAre(p: Program, v: Value)
    requires p.WellFormed() && v in p.kinds
    ensures References(p, v) == RefsOf(p, BackTraces(p, v)) && References(p, v) <= Data(p)
  {
    hide Refs, Program.WellFormed, BackTraces, Data;
    forall t | t in BackTraces(p, v) ensures Refs(p, t) <= Data(p) { RefsInside(p, t); }
  }

  lemma StartEdgesSnoc(p: Program, vars: seq<Value>, i: nat)
    requires p.WellFormed() && Members(vars) <= Data(p) && i < |vars|
    ensures Members(vars[..i]) <= p.kinds.Keys && Members(vars[..i + 1]) <= p.kinds.Keys
    ensures vars[i] in p.kinds
    ensures StartEdges(p, Members(vars[..i + 1])) ==
            StartEdges(p, Members(vars[..i])) + LinksTo(vars[i], References(p, vars[i]))
  {
    hide References, Program.WellFormed;
    assert vars[i] in Members(vars);
    assert vars[..i + 1] == vars[..i] + [vars[i]];
    forall v | v in vars[..i + 1] ensures v in p.kinds { assert v in Members(vars); }
  }

  lemma StartEdgesInside(p: Program, vars: set<Value>)
    requires p.WellFormed() && vars <= Data(p)
    ensures AllData(p, StartEdges(p, vars))
  {
    hide References, Program.WellFormed;
    forall v | v in vars ensures References(p, v) <= Data(p) { ReferencesAre(p, v); }
  }

  /** The first loop of trace: every marked value in turn. */
  method TraceVariables(p: Program, vars: seq<Value>, sg: ScaleGraph)
    requires p.WellFormed() && sg.Valid() && Members(vars) <= sg.graph.Keys && Members(vars) <= Data(p)
    requires AllSettled(p, Members(vars))
    modifies sg, sg.Repr
    ensures sg.Valid() && sg.Grew()
    ensures sg.State() == Extend(p, old(sg.State()), StartEdges(p, Members(vars)))
  {
    hide ScaleGraph.Valid, Program.WellFormed, Extend, LinksTo, References, Members, StartEdges, VariableSettled;
    ghost var st := sg.State();
    NoStart(p, st, vars[..0]);
    for i := 0 to |vars|
      invariant sg.Valid() && sg.Grew()
      invariant Members(vars[..i]) <= p.kinds.Keys
      invariant sg.State() == Extend(p, st, StartEdges(p, Members(vars[..i])))
    {
      StartEdgesSnoc(p, vars, i);
      MemberAt(vars, i);
      TraceVariable(p, vars[i], sg);
      ExtendTwice(p, st, StartEdges(p, Members(vars[..i])), LinksTo(vars[i], References(p, vars[i])));
    }
    assert vars[..|vars|] == vars;
  }

  lemma NoStart(p: Program, st: GraphState, none: seq<Value>)
    requires p.WellFormed() && none == []
    ensures Members(none) <= p.kinds.Keys && st == Extend(p, st, StartEdges(p, Members(none)))
  {
    ExtendByNothing(p, st);
    assert StartEdges(p, Members(none)) == {};
  }

  lemma MemberAt(vars: seq<Value>, i: nat)
    requires i < |vars|
    ensures vars[i] in Members(vars)
  {
  }

  /** trace as written: the body of the expansion loop runs at most once, whatever the size comparison meant. */
  method Trace(p: Program, vars: seq<Value>, sg: ScaleGraph)
    requires p.WellFormed() && sg.Valid() && Inside(p, sg.State())
    requires Members(vars) <= sg.graph.Keys && AllSettled(p, Members(vars))
    modifies sg, sg.Repr
    ensures sg.Valid() && sg.Grew()
    ensures Members(vars) <= p.kinds.Keys && sg.State() == TraceResult(p, old(sg.State()), Members(vars))
  {
    hide ScaleGraph.Valid, Program.WellFormed, Extend, StartEdges, Members, CallEdges, AllSettled;
    TraceVariables(p, vars, sg);
    StartEdgesInside(p, Members(vars));
    ExtendInside(p, old(sg.State()), StartEdges(p, Members(vars)));
    ghost var first := sg.State();
    CallEdgesInside(p, first.es);
    var prevSize := 0;
    ghost var ran := false;
    while sg.GetSize() - prevSize != 0
      invariant sg.Valid() && sg.Grew()
      invariant !ran ==> prevSize == 0 && sg.State() == first
      invariant ran ==> prevSize == sg.GetSize() && sg.State() == Round(p, first) && |first.vs| % 0x1_0000_0000 != 0
      decreases !ran
    {
      TraceRound(p, sg);
      prevSize := sg.GetSize();
      ran := true;
    }
  }
}
