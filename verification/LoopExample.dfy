/** A program whose scale graph is not closed under data flow once loops are added. */
module LoopExample {
  import opened Collections
  import opened Reachability
  import opened IR
  import opened ScaleGraphs
  import opened TraceClosure
  import opened BackwardTracing
  import opened ReferenceSearch
  import opened ScaleVariableTracing
  import opened TraceTheorems
  import opened LoopTracing
  import opened Pipeline

  /** A marked local decides a branch into a loop, whose one instruction is used behind the loop. */
  function UsedBehindLoop(): Program {
    Program(map[1 := Alloca, 2 := Branch(100, true, [10, 11]), 3 := OtherInstruction, 4 := OtherInstruction],
            map[1 := [2], 3 := [4]], map[], map[], map[], [2, 3, 4], map[10 := [3], 11 := [4]],
            map[10 := Loop(None, [10])], map[])
  }

  lemma Facts()
    ensures var p := UsedBehindLoop();
            && p.kinds.Keys == {1, 2, 3, 4} && p.kinds[1] == Alloca && p.kinds[2] == Branch(100, true, [10, 11])
            && p.kinds[3] == OtherInstruction && p.kinds[4] == OtherInstruction
            && p.functions == map[] && p.instructions == [2, 3, 4] && p.blocks == map[10 := [3], 11 := [4]]
            && p.loopFor == map[10 := Loop(None, [10])] && p.topLoops == map[]
            && p.UsersOf(1) == [2] && p.UsersOf(3) == [4] && p.UsersOf(2) == [] && p.UsersOf(4) == []
            && forall v :: p.LoadsOf(v) == []
  {
  }

  lemma IsWellFormed()
    ensures UsedBehindLoop().WellFormed()
  {
    Facts();
    hide UsedBehindLoop, Program.UsersOf, Program.LoadsOf;
    var p := UsedBehindLoop();
    forall v | v in p.kinds ensures p.WellFormedValue(v) {}
    forall v, u | v in p.kinds && u in p.UsersOf(v) ensures u in {2, 4} {}
  }

  lemma FlowIs()
    ensures forall v, w :: (v, w) in UsedBehindLoop().Flow() <==> (v, w) in {(1, 2), (3, 4)}
  {
    Facts();
    hide UsedBehindLoop, Program.UsersOf, Program.LoadsOf;
    var p := UsedBehindLoop();
    forall v, w | p.FlowsTo(v, w) ensures (v, w) in {(1, 2), (3, 4)} {}
  }

  lemma StartIs()
    ensures var p := UsedBehindLoop();
            p.WellFormed() && 1 in p.kinds && StartEdges(p, {1}) == {(1, 1)}
  {
    IsWellFormed();
    Facts();
    hide UsedBehindLoop, Program.WellFormed, Program.UsersOf, Program.LoadsOf;
    var p := UsedBehindLoop();
    assert FullTrace(p, UpToArg, 1) == [1];
    assert BackTraces(p, 1) == [[1]];
    assert ScanRoot(p, [1]) == Some(1) && ScanGeps(p, [1]) == [];
    assert Refs(p, [1]) == {1};
    assert [1] in BackTraces(p, 1);
    assert 1 in References(p, 1);
  }

  /** There are no calls, so the round adds nothing: the traced graph holds the local and the branch. */
  lemma TracedIs()
    ensures var p := UsedBehindLoop();
            p.WellFormed() && 1 in p.kinds && TraceResult(p, GraphState({1}, {}), {1}).vs == {1, 2}
  {
    StartIs();
    FlowIs();
    Facts();
    SingleTarget(1, 1);
    var p := UsedBehindLoop();
    hide UsedBehindLoop, Program.WellFormed, StartEdges, ReachSet, Targets, Program.FlowsTo, CallEdges;
    ReachSetClosed(p.Flow(), {1});
    assert (1, 2) in p.Flow();
    ReachSetLeast(p.Flow(), {1}, {1, 2});
    var first := Extend(p, GraphState({1}, {}), {(1, 1)});
    assert first.vs == {1, 2};
    NoCalls(p, first.es);
    ExtendByNothing(p, first);
  }

  lemma NoCalls(p: Program, es: Edges)
    requires p == UsedBehindLoop()
    ensures CallEdges(p, es) == {}
  {
    Facts();
    hide UsedBehindLoop;
    assert forall c, a :: p.FormalsFor(c, a) == {};
  }

  /** The use behind the loop is not in the graph, although the instruction used is. */
  lemma LoopUserMissed()
    ensures var p := UsedBehindLoop();
            && p.WellFormed() && {1} <= p.kinds.Keys
            && (3, 4) in p.Flow() && 3 in ScaleGraphOf(p, {1}, true).vs && 4 !in ScaleGraphOf(p, {1}, true).vs
            && !FlowClosed(p, ScaleGraphOf(p, {1}, true), {1})
  {
    TracedIs();
    Facts();
    FlowIs();
    var p := UsedBehindLoop();
    hide UsedBehindLoop, Program.WellFormed, TraceResult, Targets, Program.FlowsTo;
    var st := TraceResult(p, GraphState({1}, {}), {1});
    var links := LoopLinks(p, st.vs);
    LinksAre(p, st.vs);
    SingleTarget(2, 3);
    LoopsFlowClosedIff(p, {1});
    assert (3, 4) in Out(p.Flow(), Targets(links) - st.vs);
  }

  lemma LinksAre(p: Program, vs: set<Value>)
    requires p == UsedBehindLoop() && p.WellFormed() && vs == {1, 2}
    ensures LoopLinks(p, vs) == {(2, 3)}
  {
    Facts();
    hide UsedBehindLoop, Program.WellFormed;
    assert 10 in p.kinds[2].successors && 10 in p.loopFor[10].blocks && 3 in p.blocks[10];
    assert InBlocks(p, [10], 3) && EnteredFrom(p, 100, 10, 3) && Controls(p, 2, 3);
    forall e | e in LoopLinks(p, vs) ensures e == (2, 3) {
      var (b, i) := e;
      assert (b, i) in LoopLinks(p, vs);
    }
    assert (2, 3) in LoopLinks(p, vs);
  }
}
