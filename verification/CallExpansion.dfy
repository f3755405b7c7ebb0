/** Call expansion against its intended fixpoint: what iterating the round yields, and exactly when the
    single round that the code performs already yields it. */
module CallExpansion {
  import opened Reachability
  import opened IR
  import opened ScaleGraphs
  import opened TraceClosure
  import opened ForwardTracing
  import opened ScaleVariableTracing
  import opened TraceTheorems

  /** One step of influence: data flow, or from an actual argument to the formal it is passed as. */
  ghost predicate StepsTo(p: Program, v: Value, w: Value) {
    (v, w) in p.Flow() || exists c :: (v, c) in p.Flow() && w in p.FormalsFor(c, v)
  }

  ghost function Steps(p: Program): Edges {
    p.Flow() + set e, f | e in p.Flow() && f in p.FormalsFor(e.1, e.0) :: (e.0, f)
  }

  lemma StepsAre(p: Program)
    ensures forall v, w :: (v, w) in Steps(p) <==> StepsTo(p, v, w)
  {
    forall v, w | StepsTo(p, v, w) ensures (v, w) in Steps(p) {
      if (v, w) !in p.Flow() {
        var c :| (v, c) in p.Flow() && w in p.FormalsFor(c, v);
        var e := (v, c);
        assert e in p.Flow() && w in p.FormalsFor(e.1, e.0);
      }
    }
    forall v, w | (v, w) in Steps(p) && (v, w) !in p.Flow() ensures StepsTo(p, v, w) {
      var e, f :| e in p.Flow() && f in p.FormalsFor(e.1, e.0) && (e.0, f) == (v, w);
      var (a, c) := e;
      assert (v, c) in p.Flow();
    }
  }

  /** Where the start links lead, and the formals that marked values enter by these links themselves. */
  ghost function Sources(p: Program, start: Edges): set<Value> {
    Targets(start) + Targets(CallEdges(p, start))
  }

  /** The least set that contains the sources and is closed under data flow and argument passing. */
  ghost function Complete(p: Program, start: Edges): set<Value> {
    ReachSet(Steps(p), Sources(p, start))
  }

  /** st is what tracing has made of the marked values after some rounds, by means of links. */
  ghost predicate Stage(p: Program, vars: set<Value>, start: Edges, st: GraphState, links: Edges) {
    && st == Extend(p, GraphState(vars, {}), links)
    && start <= links
    && (forall a, b :: (a, b) in links ==> (a, b) in start || p.KindOf(b).Argument?)
    && Targets(links) <= Complete(p, start)
  }

  lemma CompleteClosed(p: Program, start: Edges)
    ensures Closed(p.Flow(), Complete(p, start)) && Closed(Steps(p), Complete(p, start))
    ensures Sources(p, start) <= Complete(p, start)
  {
    hide Sources, Program.FlowsTo;
    ReachSetClosed(Steps(p), Sources(p, start));
  }

  /** At any stage only values of the complete set have been traced. */
  lemma StageSound(p: Program, vars: set<Value>, start: Edges, st: GraphState, links: Edges)
    requires p.WellFormed() && Stage(p, vars, start, st, links)
    ensures ReachSet(p.Flow(), Targets(links)) <= Complete(p, start) && st.vs <= vars + Complete(p, start)
  {
    hide Complete, Program.WellFormed;
    CompleteClosed(p, start);
    ReachSetLeast(p.Flow(), Targets(links), Complete(p, start));
    ReachSetClosed(p.Flow(), Targets(links));
  }

  lemma CallTarget(p: Program, vars: set<Value>, start: Edges, st: GraphState, links: Edges,
                   a: Value, c: Value, f: Value)
    requires p.WellFormed() && Stage(p, vars, start, st, links)
    requires (a, c) in st.es && f in p.FormalsFor(c, a)
    ensures f in Complete(p, start) && p.KindOf(f).Argument?
  {
    FormalIsArgument(p, c, f);
    CompleteClosed(p, start);
    StageSound(p, vars, start, st, links);
    hide Complete, Program.WellFormed, Program.FormalsFor, CallEdges, Steps, Targets, ReachSet;
    if (a, c) in start {
      CallEdgesAre(p, start);
      LinkTarget(CallEdges(p, start), c, f);
    } else if (a, c) in Out(p.Flow(), ReachSet(p.Flow(), Targets(links))) {
      StepsAre(p);
      assert StepsTo(p, a, f);
    } else {
      assert false;
    }
  }

  /** ... and call edges only lead there. */
  lemma StageCalls(p: Program, vars: set<Value>, start: Edges, st: GraphState, links: Edges)
    requires p.WellFormed() && Stage(p, vars, start, st, links)
    ensures Targets(CallEdges(p, st.es)) <= Complete(p, start)
    ensures forall c, f :: (c, f) in CallEdges(p, st.es) ==> p.KindOf(f).Argument?
  {
    hide Complete, Program.WellFormed, Program.FormalsFor, CallEdges, Stage, Targets;
    CallEdgesAre(p, st.es);
    forall c, f | (c, f) in CallEdges(p, st.es) ensures f in Complete(p, start) && p.KindOf(f).Argument? {
      var a :| (a, c) in st.es && f in p.FormalsFor(c, a);
      CallTarget(p, vars, start, st, links, a, c, f);
    }
    TargetsWithin(CallEdges(p, st.es), Complete(p, start));
  }

  /** A round leads from one stage to the next. */
  lemma StageRound(p: Program, vars: set<Value>, start: Edges, st: GraphState, links: Edges)
    requires p.WellFormed() && Stage(p, vars, start, st, links)
    ensures Stage(p, vars, start, Round(p, st), links + CallEdges(p, st.es))
  {
    StageCalls(p, vars, start, st, links);
    hide Complete, Program.WellFormed, CallEdges, Extend, Targets;
    ExtendTwice(p, GraphState(vars, {}), links, CallEdges(p, st.es));
    TargetsUnion(links, CallEdges(p, st.es));
  }

  lemma FirstStage(p: Program, vars: set<Value>, start: Edges)
    ensures Stage(p, vars, start, Extend(p, GraphState(vars, {}), start), start)
  {
    hide Complete, CallEdges, Extend, Targets;
    CompleteClosed(p, start);
  }

  // ---------- what is still missing ----------

  lemma CallEdgesUnion(p: Program, es: Edges, es': Edges)
    ensures CallEdges(p, es + es') == CallEdges(p, es) + CallEdges(p, es')
  {
    hide Program.FormalsFor;
  }

  /** The formals that values of a traced set are passed as. */
  ghost function PassedOn(p: Program, t: set<Value>): set<Value> {
    Targets(CallEdges(p, Out(p.Flow(), t)))
  }

  /** A step out of a set that is closed under data flow leads to one of the formals it is passed as. */
  lemma StepOut(p: Program, t: set<Value>, v: Value, w: Value)
    requires Closed(p.Flow(), t) && v in t && (v, w) in Steps(p)
    ensures w in t || w in PassedOn(p, t)
  {
    StepsAre(p);
    hide Steps, Program.FormalsFor, Program.FlowsTo, CallEdges;
    if (v, w) !in p.Flow() {
      var c :| (v, c) in p.Flow() && w in p.FormalsFor(c, v);
      CallEdgesAre(p, Out(p.Flow(), t));
      assert (v, c) in Out(p.Flow(), t);
      LinkTarget(CallEdges(p, Out(p.Flow(), t)), c, w);
    }
  }

  /** Steps lead wherever data flow leads, and on from the formals that this is passed as. */
  lemma StepsReach(p: Program, from: set<Value>)
    ensures var t := ReachSet(p.Flow(), from);
            ReachSet(Steps(p), from) == t + ReachSet(Steps(p), PassedOn(p, t))
  {
    hide ReachSet, Program.FlowsTo, PassedOn;
    var flow, steps, t := p.Flow(), Steps(p), ReachSet(p.Flow(), from);
    var rest := ReachSet(steps, PassedOn(p, t));
    ReachSetClosed(flow, from);
    ReachSetClosed(steps, PassedOn(p, t));
    ReachSetClosed(steps, from);
    forall v, w | (v, w) in steps && v in t + rest ensures w in t + rest {
      if v in t { StepOut(p, t, v, w); }
    }
    ReachSetLeast(steps, from, t + rest);
    ReachSetMono(flow, steps, from, from);
    PassedOnReached(p, t, ReachSet(steps, from));
    ReachSetLeast(steps, PassedOn(p, t), ReachSet(steps, from));
  }

  lemma PassedOnReached(p: Program, t: set<Value>, s: set<Value>)
    requires t <= s && Closed(Steps(p), s)
    ensures PassedOn(p, t) <= s
  {
    StepsAre(p);
    CallEdgesAre(p, Out(p.Flow(), t));
    hide Steps, Program.FormalsFor, Program.FlowsTo, CallEdges;
    forall c, f | (c, f) in CallEdges(p, Out(p.Flow(), t)) ensures f in s {
      var a :| (a, c) in Out(p.Flow(), t) && f in p.FormalsFor(c, a);
      assert StepsTo(p, a, f);
    }
    TargetsWithin(CallEdges(p, Out(p.Flow(), t)), s);
  }

  /** The vertices of a stage: the marked values, and what data flow reaches from the links. */
  lemma StageVertices(p: Program, vars: set<Value>, start: Edges, st: GraphState, links: Edges)
    requires Stage(p, vars, start, st, links)
    ensures st.vs == vars + ReachSet(p.Flow(), Targets(links))
    ensures st.es == links + Out(p.Flow(), ReachSet(p.Flow(), Targets(links)))
  {
    hide Complete, ReachSet, Out, Targets;
    ReachSetClosed(p.Flow(), Targets(links));
  }

  /** Traced values and call links together make up the least closed set with what steps reach from the call
      links that the graph's edges demand. */
  lemma StageRest(p: Program, vars: set<Value>, start: Edges, st: GraphState, links: Edges)
    requires p.WellFormed() && Stage(p, vars, start, st, links)
    ensures Complete(p, start) == ReachSet(p.Flow(), Targets(links)) + ReachSet(Steps(p), Targets(CallEdges(p, st.es)))
  {
    StageSound(p, vars, start, st, links);
    StageCalls(p, vars, start, st, links);
    StageVertices(p, vars, start, st, links);
    CompleteClosed(p, start);
    hide ReachSet, Program.WellFormed, CallEdges, Targets, Steps, Program.FlowsTo, Sources, Stage, PassedOn;
    var flow, steps, t := p.Flow(), Steps(p), ReachSet(p.Flow(), Targets(links));
    var fed := Targets(CallEdges(p, st.es));
    var rest := ReachSet(steps, fed);
    ReachSetClosed(flow, Targets(links));
    ReachSetClosed(steps, fed);
    ReachSetLeast(steps, fed, Complete(p, start));
    forall v, w | (v, w) in steps && v in t + rest ensures w in t + rest {
      if v in t {
        StepOut(p, t, v, w);
        PassedOnMono(p, t, st.es);
      }
    }
    SourcesFed(p, vars, start, st, links);
    ReachSetLeast(steps, Sources(p, start), t + rest);
  }

  lemma PassedOnMono(p: Program, t: set<Value>, es: Edges)
    requires Out(p.Flow(), t) <= es
    ensures PassedOn(p, t) <= Targets(CallEdges(p, es))
  {
    hide CallEdges, Program.FlowsTo, Targets;
    CallEdgesMono(p, Out(p.Flow(), t), es);
    TargetsMono(CallEdges(p, Out(p.Flow(), t)), CallEdges(p, es));
  }

  lemma SourcesFed(p: Program, vars: set<Value>, start: Edges, st: GraphState, links: Edges)
    requires Stage(p, vars, start, st, links)
    ensures Sources(p, start) <= ReachSet(p.Flow(), Targets(links)) + ReachSet(Steps(p), Targets(CallEdges(p, st.es)))
  {
    hide ReachSet, CallEdges, Targets, Complete, Program.FlowsTo, Steps;
    CallEdgesMono(p, start, st.es);
    TargetsMono(CallEdges(p, start), CallEdges(p, st.es));
    TargetsMono(start, links);
    ReachSetClosed(p.Flow(), Targets(links));
    ReachSetClosed(Steps(p), Targets(CallEdges(p, st.es)));
  }

  /** A stage is complete exactly if steps lead from the formals that its edges feed to vertices only. */
  lemma StageCompleteIff(p: Program, vars: set<Value>, start: Edges, st: GraphState, links: Edges)
    requires p.WellFormed() && Stage(p, vars, start, st, links)
    ensures st.vs == vars + Complete(p, start) <==> ReachSet(Steps(p), Targets(CallEdges(p, st.es))) <= st.vs
  {
    hide ReachSet, Program.WellFormed, CallEdges, Targets, Complete, Steps, Stage, Program.FlowsTo;
    StageRest(p, vars, start, st, links);
    StageVertices(p, vars, start, st, links);
  }

  /** If the formals that its edges feed have all been traced, a stage is complete. */
  lemma StageComplete(p: Program, vars: set<Value>, start: Edges, st: GraphState, links: Edges)
    requires p.WellFormed() && Stage(p, vars, start, st, links)
    requires Targets(CallEdges(p, st.es)) <= ReachSet(p.Flow(), Targets(links))
    ensures st.vs == vars + Complete(p, start)
  {
    hide ReachSet, Program.WellFormed, CallEdges, Targets, Complete, Steps, Program.FlowsTo, PassedOn;
    var flow, t := p.Flow(), ReachSet(p.Flow(), Targets(links));
    StageVertices(p, vars, start, st, links);
    StageCompleteIff(p, vars, start, st, links);
    ReachSetClosed(flow, Targets(links));
    forall v, w | (v, w) in Steps(p) && v in t ensures w in t {
      StepOut(p, t, v, w);
      PassedOnMono(p, t, st.es);
    }
    ReachSetLeast(Steps(p), Targets(CallEdges(p, st.es)), t);
  }

  // ---------- rounds until nothing changes ----------

  ghost function DataPairs(p: Program): Edges {
    set a, b | a in Data(p) && b in Data(p) :: (a, b)
  }

  lemma InsidePairs(p: Program, st: GraphState)
    requires Inside(p, st)
    ensures st.es <= DataPairs(p)
  {
    forall e | e in st.es ensures e in DataPairs(p) {
      var (a, b) := e;
      assert (a, b) in st.es;
    }
  }

  /** The loop that the code's comment describes: rounds until no more changes occur. */
  ghost function Expand(p: Program, st: GraphState): GraphState
    requires p.WellFormed() && Inside(p, st)
    decreases Data(p) - st.vs, DataPairs(p) - st.es
  {
    RoundInside(p, st);
    RoundGrows(p, st);
    InsidePairs(p, Round(p, st));
    var next := Round(p, st);
    if next == st then st else Expand(p, next)
  }

  /** A stage that a further round does not change is complete. */
  lemma StableComplete(p: Program, vars: set<Value>, start: Edges, st: GraphState, links: Edges)
    requires p.WellFormed() && Stage(p, vars, start, st, links) && Round(p, st) == st
    ensures st.vs == vars + Complete(p, start)
  {
    hide ReachSet, Program.WellFormed, CallEdges, Targets, Complete, Steps, Round, Stage;
    var more := links + CallEdges(p, st.es);
    StageRound(p, vars, start, st, links);
    TargetsMono(CallEdges(p, st.es), more);
    ReachSetClosed(p.Flow(), Targets(more));
    StageComplete(p, vars, start, st, more);
  }

  /** Iterated until stable, the round yields exactly the least closed set. */
  lemma {:induction false} ExpandIsComplete(p: Program, vars: set<Value>, start: Edges, st: GraphState, links: Edges)
    requires p.WellFormed() && Stage(p, vars, start, st, links) && Inside(p, st)
    ensures Expand(p, st).vs == vars + Complete(p, start)
    decreases Data(p) - st.vs, DataPairs(p) - st.es
  {
    hide Complete, Program.WellFormed, CallEdges, Stage, Round;
    RoundInside(p, st);
    RoundGrows(p, st);
    InsidePairs(p, Round(p, st));
    var next := Round(p, st);
    if next == st {
      StableComplete(p, vars, start, st, links);
    } else {
      StageRound(p, vars, start, st, links);
      ExpandIsComplete(p, vars, start, next, links + CallEdges(p, st.es));
    }
  }

  /** The fixpoint theorem, from any start links. */
  lemma FixpointIsLeast(p: Program, vars: set<Value>, start: Edges)
    requires p.WellFormed() && vars <= Data(p) && AllData(p, start)
    ensures var first := Extend(p, GraphState(vars, {}), start);
            Inside(p, first) && Expand(p, first).vs == vars + Complete(p, start)
  {
    hide Complete, Program.WellFormed, CallEdges, Stage, Round;
    var first := Extend(p, GraphState(vars, {}), start);
    ExtendInside(p, GraphState(vars, {}), start);
    FirstStage(p, vars, start);
    ExpandIsComplete(p, vars, start, first, start);
  }

  // ---------- rounds until the number of vertices is stable ----------

  /** The loop with the test that the code makes: rounds until no vertex is added. */
  ghost function ExpandByCount(p: Program, st: GraphState): GraphState
    requires p.WellFormed() && Inside(p, st)
    decreases Data(p) - st.vs
  {
    RoundInside(p, st);
    RoundGrows(p, st);
    var next := Round(p, st);
    if next.vs == st.vs then next else ExpandByCount(p, next)
  }

  /** Where this loop ends is a stage: exactly then complete, if steps lead from the formals that the edges of
      its graph feed to vertices only. */
  lemma {:induction false} ExpandByCountIff(p: Program, vars: set<Value>, start: Edges, st: GraphState, links: Edges)
    requires p.WellFormed() && Stage(p, vars, start, st, links) && Inside(p, st)
    ensures var last := ExpandByCount(p, st);
            && last.vs <= vars + Complete(p, start)
            && (last.vs == vars + Complete(p, start) <==>
                  ReachSet(Steps(p), Targets(CallEdges(p, last.es))) <= last.vs)
    decreases Data(p) - st.vs
  {
    hide Complete, Program.WellFormed, CallEdges, Stage, Round, ReachSet, Steps, Targets;
    RoundInside(p, st);
    RoundGrows(p, st);
    var next, more := Round(p, st), links + CallEdges(p, st.es);
    StageRound(p, vars, start, st, links);
    if next.vs == st.vs {
      StageSound(p, vars, start, next, more);
      StageCompleteIff(p, vars, start, next, more);
    } else {
      ExpandByCountIff(p, vars, start, next, more);
    }
  }

  /** A marked formal that calls may feed, but data flow from the references does not reach, is a vertex that
      may not have been traced when it is fed. */
  ghost predicate NoFedRoot(p: Program, vars: set<Value>, start: Edges) {
    forall v :: v in vars && p.KindOf(v).Argument? && v in Complete(p, start) ==>
      v in ReachSet(p.Flow(), Targets(start))
  }

  lemma FedTraced(p: Program, vars: set<Value>, start: Edges, st: GraphState, links: Edges)
    requires p.WellFormed() && Stage(p, vars, start, st, links) && NoFedRoot(p, vars, start)
    requires Targets(CallEdges(p, st.es)) <= st.vs
    ensures Targets(CallEdges(p, st.es)) <= ReachSet(p.Flow(), Targets(links))
  {
    StageCalls(p, vars, start, st, links);
    StageVertices(p, vars, start, st, links);
    hide Complete, Program.WellFormed, CallEdges, Targets, ReachSet, Program.FlowsTo;
    TargetsMono(start, links);
    ReachSetMono(p.Flow(), p.Flow(), Targets(start), Targets(links));
    var t := ReachSet(p.Flow(), Targets(links));
    forall c, f | (c, f) in CallEdges(p, st.es) ensures f in t {
      LinkTarget(CallEdges(p, st.es), c, f);
      assert f in st.vs;
    }
    TargetsWithin(CallEdges(p, st.es), t);
  }

  /** Without such a root, counting vertices is as good as waiting until nothing changes. */
  lemma {:induction false} ExpandByCountComplete(p: Program, vars: set<Value>, start: Edges, st: GraphState,
                                                 links: Edges)
    requires p.WellFormed() && Stage(p, vars, start, st, links) && Inside(p, st) && NoFedRoot(p, vars, start)
    ensures ExpandByCount(p, st).vs == vars + Complete(p, start)
    decreases Data(p) - st.vs
  {
    hide Complete, Program.WellFormed, CallEdges, Stage, Round, NoFedRoot;
    RoundInside(p, st);
    RoundGrows(p, st);
    var next := Round(p, st);
    if next.vs == st.vs {
      RoundHasCallTargets(p, st);
      FedTraced(p, vars, start, st, links);
      StageComplete(p, vars, start, st, links);
    } else {
      StageRound(p, vars, start, st, links);
      ExpandByCountComplete(p, vars, start, next, links + CallEdges(p, st.es));
    }
  }

  lemma RoundHasCallTargets(p: Program, st: GraphState)
    ensures Targets(CallEdges(p, st.es)) <= Round(p, st).vs
  {
  }

  // ---------- the single round of the code ----------

  /** The formals that the calls of the graph before the loop feed. */
  ghost function Fed(p: Program, first: GraphState): set<Value> {
    Targets(CallEdges(p, first.es))
  }

  /** What the code's round follows them to; nothing if the truncated size is zero. */
  ghost function Followed(p: Program, first: GraphState): set<Value> {
    if |first.vs| % 0x1_0000_0000 == 0 then {} else ReachSet(p.Flow(), Fed(p, first))
  }

  /** The formals that it leaves to further rounds: those that what it followed is passed on as. */
  ghost function LeftOver(p: Program, first: GraphState): set<Value> {
    if |first.vs| % 0x1_0000_0000 == 0 then Fed(p, first) else PassedOn(p, ReachSet(p.Flow(), Fed(p, first)))
  }

  /** Call edges lead to formals, which are no calls. */
  lemma NoCallsFromLinks(p: Program, es: Edges)
    requires p.WellFormed()
    ensures CallEdges(p, CallEdges(p, es)) == {}
  {
    hide Program.WellFormed;
    CallEdgesAre(p, es);
    CallEdgesAre(p, CallEdges(p, es));
    forall e | e in CallEdges(p, CallEdges(p, es)) ensures false {
      var (f, g) := e;
      assert (f, g) in CallEdges(p, CallEdges(p, es));
      var c :| (c, f) in CallEdges(p, es) && g in p.FormalsFor(f, c);
      var a :| (a, c) in es && f in p.FormalsFor(c, a);
      FormalIsArgument(p, c, f);
      FormalIsArgument(p, f, g);
    }
  }

  /** After a round, the formals that the graph's edges feed are those fed before and those passed on. */
  lemma RoundFeeds(p: Program, first: GraphState)
    requires p.WellFormed()
    ensures Round(p, first).vs == first.vs + ReachSet(p.Flow(), Fed(p, first))
    ensures Fed(p, Round(p, first)) == Fed(p, first) + PassedOn(p, ReachSet(p.Flow(), Fed(p, first)))
  {
    hide ReachSet, Program.WellFormed, CallEdges, Targets, Out, Program.FlowsTo;
    var links := CallEdges(p, first.es);
    var inner := Out(p.Flow(), ReachSet(p.Flow(), Targets(links)));
    ReachSetClosed(p.Flow(), Targets(links));
    NoCallsFromLinks(p, first.es);
    CallEdgesUnion(p, first.es, links);
    CallEdgesUnion(p, first.es + links, inner);
    TargetsUnion(CallEdges(p, first.es), CallEdges(p, inner));
    assert CallEdges(p, first.es) + {} == CallEdges(p, first.es);
  }

  /**
   Tracing stays within the least closed set, and reaches it exactly if steps lead from the formals left over
   to vertices only. All of this can be read off the graph before the loop.
   */
  lemma SingleRoundComplete(p: Program, vars: set<Value>, start: Edges)
    requires p.WellFormed()
    ensures var first, r := Extend(p, GraphState(vars, {}), start), TraceFrom(p, GraphState(vars, {}), start);
            && r.vs == first.vs + Followed(p, first) && r.vs <= vars + Complete(p, start)
            && (r.vs == vars + Complete(p, start) <==>
                  ReachSet(Steps(p), LeftOver(p, first)) <= first.vs + Followed(p, first))
  {
    hide Complete, Program.WellFormed, CallEdges, Stage, Round, Extend, Targets, ReachSet, Steps, PassedOn;
    var st := GraphState(vars, {});
    var first, links := Extend(p, st, start), start;
    FirstStage(p, vars, start);
    StageRound(p, vars, start, first, links);
    if |first.vs| % 0x1_0000_0000 == 0 {
      StageSound(p, vars, start, first, links);
      StageCompleteIff(p, vars, start, first, links);
    } else {
      var next, more := Round(p, first), links + CallEdges(p, first.es);
      var t := ReachSet(p.Flow(), Fed(p, first));
      StageSound(p, vars, start, next, more);
      StageCompleteIff(p, vars, start, next, more);
      RoundFeeds(p, first);
      ReachSetUnion(Steps(p), Fed(p, first), PassedOn(p, t));
      StepsReach(p, Fed(p, first));
    }
  }

  /** If no marked value is left over, or those that are have been traced, exactly if nothing else is. */
  lemma SingleRoundNothingLeft(p: Program, vars: set<Value>, start: Edges)
    requires p.WellFormed()
    requires var first := Extend(p, GraphState(vars, {}), start);
             forall v :: v in vars && v in LeftOver(p, first) ==>
               v in ReachSet(p.Flow(), Targets(start)) + Followed(p, first)
    ensures var first, r := Extend(p, GraphState(vars, {}), start), TraceFrom(p, GraphState(vars, {}), start);
            r.vs == vars + Complete(p, start) <==> LeftOver(p, first) <= first.vs + Followed(p, first)
  {
    hide Complete, Program.WellFormed, CallEdges, Stage, Round, Extend, Targets, ReachSet, Steps, PassedOn;
    var st := GraphState(vars, {});
    var first, links := Extend(p, st, start), start;
    var flow, left := p.Flow(), LeftOver(p, first);
    SingleRoundComplete(p, vars, start);
    ReachSetClosed(Steps(p), left);
    if left <= first.vs + Followed(p, first) {
      FirstStage(p, vars, start);
      StageVertices(p, vars, start, first, links);
      var traced := ReachSet(flow, Targets(start)) + Followed(p, first);
      forall f | f in left ensures f in traced {
        assert f in first.vs + Followed(p, first);
      }
      if |first.vs| % 0x1_0000_0000 == 0 {
        assert traced == ReachSet(flow, Targets(start));
        assert left == Targets(CallEdges(p, first.es));
        StageComplete(p, vars, start, first, links);
      } else {
        var next, more := Round(p, first), links + CallEdges(p, first.es);
        StageRound(p, vars, start, first, links);
        RoundFeeds(p, first);
        TargetsUnion(links, CallEdges(p, first.es));
        ReachSetUnion(flow, Targets(links), Fed(p, first));
        ReachSetClosed(flow, Fed(p, first));
        assert traced == ReachSet(flow, Targets(more));
        assert Targets(CallEdges(p, next.es)) == Fed(p, first) + left;
        StageComplete(p, vars, start, next, more);
      }
    }
  }

  /** trace against the loop that its comment describes: contained in it, and equal exactly on that condition. */
  lemma TraceIsBelowFixpoint(p: Program, vars: set<Value>)
    requires p.WellFormed() && vars <= Data(p)
    ensures var first := Extend(p, GraphState(vars, {}), StartEdges(p, vars));
            var r := TraceResult(p, GraphState(vars, {}), vars);
            && Inside(p, first) && r.vs <= Expand(p, first).vs
            && (r.vs == Expand(p, first).vs <==>
                  ReachSet(Steps(p), LeftOver(p, first)) <= first.vs + Followed(p, first))
  {
    hide Complete, Program.WellFormed, Stage, Round, StartEdges, Extend, LeftOver, Followed, Steps, ReachSet;
    StartEdgesInside(p, vars);
    FixpointIsLeast(p, vars, StartEdges(p, vars));
    SingleRoundComplete(p, vars, StartEdges(p, vars));
  }
}
