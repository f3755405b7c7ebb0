/** A program on which expanding calls once, or until no vertex is added, misses values. */
module ExpansionExamples {
  import opened Collections
  import opened Reachability
  import opened IR
  import opened ScaleGraphs
  import opened TraceClosure
  import opened BackwardTracing
  import opened ReferenceSearch
  import opened ScaleVariableTracing
  import opened CallExpansion

  /** A local is passed to a function that passes it on, with a global, to another one. */
  function NestedCalls(): Program {
    Program(map[1 := Alloca, 2 := Call(100, [1], 20), 3 := Argument(100, 0), 4 := Call(200, [3, 6], 21),
                5 := Argument(200, 0), 6 := GlobalVariable, 7 := Argument(200, 1),
                20 := CodePointer, 21 := CodePointer],
            map[1 := [2], 3 := [4], 6 := [4], 20 := [2], 21 := [4]], map[], map[],
            map[100 := Function("f", false, false, [3]), 200 := Function("g", false, false, [5, 7])],
            [2, 4], map[], map[], map[])
  }

  lemma NestedCallsFacts()
    ensures var p := NestedCalls();
            && p.kinds.Keys == {1, 2, 3, 4, 5, 6, 7, 20, 21}
            && p.kinds[1] == Alloca && p.kinds[2] == Call(100, [1], 20) && p.kinds[3] == Argument(100, 0)
            && p.kinds[4] == Call(200, [3, 6], 21) && p.kinds[5] == Argument(200, 0)
            && p.kinds[6] == GlobalVariable && p.kinds[7] == Argument(200, 1)
            && p.kinds[20] == CodePointer && p.kinds[21] == CodePointer
            && p.functions.Keys == {100, 200} && p.functions[100] == Function("f", false, false, [3])
            && p.functions[200] == Function("g", false, false, [5, 7]) && p.instructions == [2, 4] && p.blocks == map[]
            && p.UsersOf(1) == [2] && p.UsersOf(3) == [4] && p.UsersOf(6) == [4]
            && p.UsersOf(20) == [2] && p.UsersOf(21) == [4]
            && (forall v :: v in {2, 4, 5, 7} ==> p.UsersOf(v) == []) && (forall v :: p.LoadsOf(v) == [])
  {
  }

  lemma NestedCallsWellFormed()
    ensures NestedCalls().WellFormed() && {1, 3, 6, 7} <= Data(NestedCalls())
  {
    NestedCallsFacts();
    hide NestedCalls, Program.UsersOf, Program.LoadsOf;
    var p := NestedCalls();
    forall v | v in p.kinds ensures p.WellFormedValue(v) {
      assert v in {1, 2, 3, 4, 5, 6, 7, 20, 21};
    }
    forall v, u | v in p.kinds && u in p.UsersOf(v) ensures u in {2, 4} {
      assert v in {1, 2, 3, 4, 5, 6, 7, 20, 21};
    }
  }

  lemma NestedCallsFormals()
    ensures var p := NestedCalls();
            p.FormalsFor(2, 1) == {3} && p.FormalsFor(4, 3) == {5} && p.FormalsFor(4, 6) == {7}
    ensures forall c, a, f :: f in NestedCalls().FormalsFor(c, a) ==> (c, a, f) in {(2, 1, 3), (4, 3, 5), (4, 6, 7)}
  {
    NestedCallsFacts();
    hide NestedCalls, Program.UsersOf, Program.LoadsOf;
    var p := NestedCalls();
    assert p.Operands(2) == [1, 20] && p.Operands(4) == [3, 6, 21];
    assert p.Operands(2)[0] == 1 && p.Operands(4)[0] == 3 && p.Operands(4)[1] == 6;
  }

  lemma NestedCallsFlow()
    ensures forall v, w ::
              (v, w) in NestedCalls().Flow() <==> (v, w) in {(1, 2), (3, 4), (6, 4), (20, 2), (21, 4)}
  {
    NestedCallsFacts();
    hide NestedCalls, Program.UsersOf, Program.LoadsOf;
  }

  lemma NestedCallsTraces()
    ensures var p := NestedCalls();
            && p.WellFormed()
            && BackTraces(p, 1) == [[1]] && BackTraces(p, 6) == [[6]]
            && BackTraces(p, 3) == [[3, 2, 1]] && BackTraces(p, 7) == [[7, 4, 6]]
  {
    NestedCallsWellFormed();
    NestedCallsFacts();
    hide NestedCalls, Program.WellFormed, Program.UsersOf, Program.LoadsOf;
    var p := NestedCalls();
    assert FullTrace(p, UpToArg, 1) == [1] && FullTrace(p, UpToArg, 3) == [3];
    assert FullTrace(p, UpToArg, 6) == [6] && FullTrace(p, UpToArg, 7) == [7];
    assert [2, 4][1..] == [4] && [4][1..] == [];
    assert CallsOf(p, 100, [2, 4]) == [2] && CallsOf(p, 200, [2, 4]) == [4];
    assert ThroughCall(p, [3], 2, 0) == [3, 2, 1] && ThroughCall(p, [7], 4, 1) == [7, 4, 6];
  }

  lemma NestedCallsReferences()
    ensures var p := NestedCalls();
            && p.WellFormed()
            && References(p, 1) == {1} && References(p, 3) == {1} && References(p, 6) == {6} && References(p, 7) == {6}
  {
    NestedCallsTraces();
    NestedCallsFacts();
    hide NestedCalls, Program.WellFormed, Program.UsersOf, Program.LoadsOf, BackTraces;
    var p := NestedCalls();
    assert [3, 2, 1][1..] == [2, 1] && [2, 1][1..] == [1] && [7, 4, 6][1..] == [4, 6] && [4, 6][1..] == [6];
    assert Refs(p, [1]) == {1} && Refs(p, [6]) == {6};
    assert ScanRoot(p, [2, 1]) == Some(1) && ScanGeps(p, [2, 1]) == [];
    assert ScanRoot(p, [4, 6]) == Some(6) && ScanGeps(p, [4, 6]) == [];
    assert Refs(p, [3, 2, 1]) == {1} && Refs(p, [7, 4, 6]) == {6};
    assert [1] in BackTraces(p, 1) && [6] in BackTraces(p, 6);
    assert [3, 2, 1] in BackTraces(p, 3) && [7, 4, 6] in BackTraces(p, 7);
  }

  /** Two argument passings lead from the local to the formal of the inner function. */
  lemma NestedCallsComplete(start: Edges)
    requires (1, 1) in start
    ensures 5 in Complete(NestedCalls(), start)
  {
    var p := NestedCalls();
    NestedCallsFlow();
    NestedCallsFormals();
    StepsAre(p);
    assert 1 in Targets(start);
    hide NestedCalls, Program.FormalsFor, ReachSet, Steps, Targets, CallEdges;
    ReachSetClosed(Steps(p), Sources(p, start));
    assert StepsTo(p, 1, 3) && StepsTo(p, 3, 5);
    assert 1 in Sources(p, start);
  }

  // ---------- one round is not enough ----------

  lemma LocalTraced(p: Program, first: GraphState)
    requires p == NestedCalls() && first == Extend(p, GraphState({1}, {}), {(1, 1)})
    ensures first.vs <= {1, 2} && first.es <= {(1, 1), (1, 2)}
  {
    NestedCallsFlow();
    SingleTarget(1, 1);
    hide NestedCalls, ReachSet, Targets, Program.FlowsTo;
    ReachSetLeast(p.Flow(), {1}, {1, 2});
    forall a, b | (a, b) in Out(p.Flow(), ReachSet(p.Flow(), {1})) ensures (a, b) == (1, 2) {}
  }

  /** With the local marked, the round follows its formal, and leaves over what that is passed on as. */
  lemma LocalRound(p: Program, first: GraphState)
    requires p == NestedCalls() && first.vs <= {1, 2} && first.es <= {(1, 1), (1, 2)}
    ensures 5 !in first.vs && 5 !in Round(p, first).vs
  {
    NestedCallsFlow();
    NestedCallsFormals();
    CallEdgesAre(p, first.es);
    hide NestedCalls, ReachSet, Targets, Program.FlowsTo, Program.FormalsFor, CallEdges;
    TargetsWithin(CallEdges(p, first.es), {3, 4});
    ReachSetLeast(p.Flow(), Targets(CallEdges(p, first.es)), {3, 4});
  }

  /** The single round misses what a second one would find: the formal of the inner function. */
  lemma SingleRoundMisses()
    ensures var p := NestedCalls();
            && p.WellFormed() && {1} <= Data(p)
            && 5 in Complete(p, StartEdges(p, {1})) && 5 !in TraceResult(p, GraphState({1}, {}), {1}).vs
  {
    NestedCallsReferences();
    NestedCallsWellFormed();
    hide NestedCalls, Program.WellFormed, Complete, Extend, Round, References;
    var p := NestedCalls();
    assert 1 in References(p, 1);
    assert StartEdges(p, {1}) == {(1, 1)};
    NestedCallsComplete({(1, 1)});
    LocalTraced(p, Extend(p, GraphState({1}, {}), {(1, 1)}));
    LocalRound(p, Extend(p, GraphState({1}, {}), {(1, 1)}));
  }

  // ---------- counting vertices is not enough ----------

  /** The local and the global, and the formals they are passed as but one: all formals that the first round
      feeds are vertices already. */
  const MARKED: set<Value> := {1, 3, 6, 7}

  lemma MarkedStart()
    ensures var p := NestedCalls();
            && p.WellFormed() && MARKED <= p.kinds.Keys
            && StartEdges(p, MARKED) == {(1, 1), (3, 1), (6, 6), (7, 6)}
  {
    NestedCallsReferences();
    NestedCallsWellFormed();
    hide NestedCalls, Program.WellFormed, References;
    var p := NestedCalls();
    StartEdgesAre(p, MARKED);
    assert 1 in References(p, 1) && 1 in References(p, 3) && 6 in References(p, 6) && 6 in References(p, 7);
    forall e | e in StartEdges(p, MARKED) ensures e in {(1, 1), (3, 1), (6, 6), (7, 6)} {
      var (a, b) := e;
      assert (a, b) in StartEdges(p, MARKED);
    }
  }

  /** The references are traced; the marked formals are vertices with no edges of their own. */
  lemma MarkedFirst(p: Program, first: GraphState)
    requires p == NestedCalls() && first == Extend(p, GraphState(MARKED, {}), {(1, 1), (3, 1), (6, 6), (7, 6)})
    ensures first.vs == {1, 2, 3, 4, 6, 7}
    ensures forall a, b :: (a, b) in first.es ==> (a, b) in {(1, 1), (3, 1), (6, 6), (7, 6), (1, 2), (6, 4)}
  {
    NestedCallsFlow();
    hide NestedCalls, ReachSet, Targets, Program.FlowsTo;
    var start := {(1, 1), (3, 1), (6, 6), (7, 6)};
    assert (1, 1) in start && (6, 6) in start;
    TargetsWithin(start, {1, 6});
    assert Targets(start) == {1, 6};
    ReachSetClosed(p.Flow(), {1, 6});
    ReachSetLeast(p.Flow(), {1, 6}, {1, 2, 4, 6});
  }

  lemma MarkedRound(p: Program, first: GraphState)
    requires p == NestedCalls() && first.vs == {1, 2, 3, 4, 6, 7}
    requires forall a, b :: (a, b) in first.es ==> (a, b) in {(1, 1), (3, 1), (6, 6), (7, 6), (1, 2), (6, 4)}
    ensures Round(p, first).vs == first.vs
  {
    NestedCallsFlow();
    NestedCallsFormals();
    CallEdgesAre(p, first.es);
    hide NestedCalls, ReachSet, Targets, Program.FlowsTo, Program.FormalsFor, CallEdges, Out;
    TargetsWithin(CallEdges(p, first.es), {3, 4, 7});
    assert Closed(p.Flow(), {3, 4, 7});
    ReachSetLeast(p.Flow(), Targets(CallEdges(p, first.es)), {3, 4, 7});
  }

  lemma MarkedComplete()
    ensures 5 in Complete(NestedCalls(), {(1, 1), (3, 1), (6, 6), (7, 6)})
  {
    hide NestedCalls, Complete;
    var start := {(1, 1), (3, 1), (6, 6), (7, 6)};
    assert (1, 1) in start;
    NestedCallsComplete(start);
  }

  /** Stopping when no vertex is added misses what waiting until nothing changes finds: the formal that the
      marked formal of the first function is passed as. */
  lemma CountStopMisses()
    ensures var p := NestedCalls();
            && p.WellFormed() && MARKED <= Data(p)
            && var first := Extend(p, GraphState(MARKED, {}), StartEdges(p, MARKED));
            && Inside(p, first)
            && 5 in Expand(p, first).vs && 5 !in ExpandByCount(p, first).vs
  {
    NestedCallsWellFormed();
    MarkedStart();
    MarkedComplete();
    hide NestedCalls, Program.WellFormed, Complete, StartEdges, Extend, Round;
    var p := NestedCalls();
    var first := Extend(p, GraphState(MARKED, {}), StartEdges(p, MARKED));
    StartEdgesInside(p, MARKED);
    FixpointIsLeast(p, MARKED, StartEdges(p, MARKED));
    MarkedFirst(p, first);
    MarkedRound(p, first);
  }
}
