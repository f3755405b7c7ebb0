/** The closed form of forward tracing: what a graph becomes when links are added to it and everything
    that can be reached from their targets by data flow is traced. */
module TraceClosure {
  import opened Reachability
  import opened IR
  import opened ScaleGraphs

  /** The call-to-formal edges that a graph with edges es gives rise to. */
  ghost function CallEdges(p: Program, es: Edges): Edges {
    set e, f | e in es && f in p.FormalsFor(e.1, e.0) :: (e.1, f)
  }

  lemma CallEdgesAre(p: Program, es: Edges)
    ensures forall c, f :: (c, f) in CallEdges(p, es) <==> exists a :: (a, c) in es && f in p.FormalsFor(c, a)
  {
    forall a, c, f | (a, c) in es && f in p.FormalsFor(c, a) ensures (c, f) in CallEdges(p, es) {
      var e := (a, c);
      assert e in es && f in p.FormalsFor(e.1, e.0);
    }
    forall c, f | (c, f) in CallEdges(p, es) ensures exists a :: (a, c) in es && f in p.FormalsFor(c, a) {
      var e, g :| e in es && g in p.FormalsFor(e.1, e.0) && (e.1, g) == (c, f);
      var (a, b) := e;
      assert (a, c) in es && f in p.FormalsFor(c, a);
    }
  }

  /** Trace everything that data flow reaches from the vertices in from. */
  ghost function Saturate(p: Program, st: GraphState, from: set<Value>): GraphState {
    var t := ReachSet(p.Flow(), from);
    GraphState(st.vs + t, st.es + Out(p.Flow(), t))
  }

  ghost function Link(st: GraphState, links: Edges): GraphState {
    GraphState(st.vs + Targets(links), st.es + links)
  }

  /** Add links, and trace from where they lead. */
  ghost function Extend(p: Program, st: GraphState, links: Edges): GraphState {
    Saturate(p, Link(st, links), Targets(links))
  }

  /** One round of call expansion: connect every call to the formals its parents reach, and trace those. */
  ghost function Round(p: Program, st: GraphState): GraphState {
    Extend(p, st, CallEdges(p, st.es))
  }

  lemma SaturateTwice(p: Program, st: GraphState, from: set<Value>, from': set<Value>)
    ensures Saturate(p, Saturate(p, st, from), from') == Saturate(p, st, from + from')
  {
    hide Targets, Out, ReachSet, Program.FlowsTo;
    ReachSetUnion(p.Flow(), from, from');
    OutUnion(p.Flow(), ReachSet(p.Flow(), from), ReachSet(p.Flow(), from'));
  }

  /** Extending twice is extending once by both sets of links, so the order of links is immaterial. */
  lemma ExtendTwice(p: Program, st: GraphState, links: Edges, links': Edges)
    ensures Extend(p, Extend(p, st, links), links') == Extend(p, st, links + links')
  {
    hide Targets, Out, ReachSet, Program.FlowsTo;
    var t, t' := Targets(links), Targets(links');
    TargetsUnion(links, links');
    ReachSetUnion(p.Flow(), t, t');
    OutUnion(p.Flow(), ReachSet(p.Flow(), t), ReachSet(p.Flow(), t'));
    var twice, once := Extend(p, Extend(p, st, links), links'), Extend(p, st, links + links');
    assert twice.vs == once.vs;
    assert twice.es == once.es;
  }

  lemma ExtendByNothing(p: Program, st: GraphState)
    ensures Extend(p, st, {}) == st
  {
    ReachSetEmpty(p.Flow());
    assert Targets({}) == {};
  }

  /** The values of vis have been traced completely. */
  ghost predicate Saturated(p: Program, st: GraphState, vis: set<Value>) {
    Closed(p.Flow(), vis) && vis <= st.vs && Out(p.Flow(), vis) <= st.es
  }

  /** What forward tracing has added to a graph once it has newly visited the values in vis. */
  ghost predicate Traced(p: Program, vis: set<Value>, st: GraphState, st': GraphState) {
    && st'.es == st.es + Out(p.Flow(), vis)
    && st'.vs == st.vs + Targets(Out(p.Flow(), vis))
  }

  /** Edges out of values that were traced before are already there. */
  lemma OutAbsorbs(flow: Edges, es: Edges, before: set<Value>, newly: set<Value>, t: set<Value>)
    requires Out(flow, before) <= es && before + newly == before + t
    ensures es + Out(flow, newly) == es + Out(flow, t)
  {
    OutUnion(flow, before, newly);
    OutUnion(flow, before, t);
    assert es + Out(flow, newly) == es + Out(flow, before + newly);
    assert es + Out(flow, t) == es + Out(flow, before + t);
  }

  lemma TargetsAbsorb(flow: Edges, vs: set<Value>, before: set<Value>, newly: set<Value>, t: set<Value>)
    requires Closed(flow, before) && before <= vs && before + newly == before + t
    ensures vs + Targets(Out(flow, newly)) == vs + Targets(Out(flow, t))
  {
    hide Targets, Out, Closed;
    OutUnion(flow, before, newly);
    OutUnion(flow, before, t);
    TargetsUnion(Out(flow, before), Out(flow, newly));
    TargetsUnion(Out(flow, before), Out(flow, t));
    ClosedTargets(flow, before);
    assert vs + Targets(Out(flow, newly)) == vs + (Targets(Out(flow, before)) + Targets(Out(flow, newly)));
    assert vs + Targets(Out(flow, t)) == vs + (Targets(Out(flow, before)) + Targets(Out(flow, t)));
  }

  /** Searching from a vertex r, past values already traced, traces everything data flow reaches from r. */
  lemma SearchSaturates(p: Program, st: GraphState, st': GraphState, r: Value, before: set<Value>, after: set<Value>)
    requires r in st.vs && Saturated(p, st, before)
    requires Searched(p.Flow(), r, before, after) && Traced(p, after - before, st, st')
    ensures st' == Saturate(p, st, {r}) && Saturated(p, st', after)
    ensures after == before + ReachSet(p.Flow(), {r})
  {
    hide Targets, Out, Closed, ReachSet, Reaches, Searched, Program.FlowsTo;
    var flow, t := p.Flow(), ReachSet(p.Flow(), {r});
    SearchExact(flow, r, before, after);
    assert before + (after - before) == after == before + t;
    OutAbsorbs(flow, st.es, before, after - before, t);
    TargetsAbsorb(flow, st.vs, before, after - before, t);
    ReachSetUnfold(flow, {r});
    assert st'.vs == st.vs + Targets(Out(flow, t)) == st.vs + t;
    OutUnion(flow, before, t);
  }

  // ---------- provenance ----------

  ghost predicate EdgesWithin(st: GraphState) {
    forall a, b {:trigger (a, b) in st.es} :: (a, b) in st.es ==> a in st.vs && b in st.vs
  }

  /** The graph is exactly what its edges reach from the marked values. */
  ghost predicate Rooted(st: GraphState, roots: set<Value>) {
    st.vs == ReachSet(st.es, roots) && EdgesWithin(st)
  }

  /** Adding links, without tracing on, keeps every vertex reachable as well. */
  lemma LinkRooted(st: GraphState, links: Edges, roots: set<Value>)
    requires Rooted(st, roots) && forall a, b :: (a, b) in links ==> a in st.vs
    ensures Rooted(Link(st, links), roots)
  {
    hide ReachSet;
    var st' := Link(st, links);
    ReachSetMono(st.es, st'.es, roots, roots);
    ReachSetClosed(st.es, roots);
    ReachSetClosed(st'.es, roots);
    forall b | b in Targets(links) ensures b in ReachSet(st'.es, roots) {
      var a := TargetSource(links, b);
      assert (a, b) in st'.es;
    }
    assert Closed(st'.es, st'.vs);
    ReachSetLeast(st'.es, roots, st'.vs);
  }

  /** Whatever values are marked: if the graph was what its edges reach from them, it still is. */
  ghost predicate KeepsRooted(st: GraphState, st': GraphState) {
    forall roots :: Rooted(st, roots) ==> Rooted(st', roots)
  }

  lemma LinkKeepsRooted(st: GraphState, v: Value, w: Value)
    requires v in st.vs
    ensures KeepsRooted(st, Link(st, {(v, w)}))
  {
    forall roots | Rooted(st, roots) ensures Rooted(Link(st, {(v, w)}), roots) {
      LinkRooted(st, {(v, w)}, roots);
    }
  }

  lemma RootedSame(st: GraphState)
    ensures KeepsRooted(st, st)
  {
  }

  lemma RootedTwice(st: GraphState, st': GraphState, st'': GraphState)
    requires KeepsRooted(st, st') && KeepsRooted(st', st'')
    ensures KeepsRooted(st, st'')
  {
    hide Rooted;
  }
}
