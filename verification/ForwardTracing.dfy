/** Forward tracing: def-use and memory successors are added to the scale graph up to call sites,
    and call sites are connected to the formal arguments of the functions they call. */
module ForwardTracing {
  import opened Collections
  import opened Reachability
  import opened IR
  import opened ScaleGraphs
  import opened TraceClosure

  /** The formals that arg is passed as by the first n operands, in the order of the operands. */
  function PassedAs(operands: seq<Value>, formals: seq<Value>, arg: Value, n: nat): seq<Value>
    requires n <= |operands|
  {
    if n == 0 then []
    else
      var k := n - 1;
      PassedAs(operands, formals, arg, k) + if operands[k] == arg && k < |formals| then [formals[k]] else []
  }

  /** The formals of call that arg enters, one for each operand that it is. */
  function CallArgs(p: Program, call: Value, arg: Value): seq<Value>
    requires p.IsCall(call)
  {
    if !p.Followed(call) then []
    else PassedAs(p.Operands(call), p.FunctionOf(p.kinds[call].callee).formals, arg, |p.Operands(call)|)
  }

  lemma {:induction false} PassedAsMeans(operands: seq<Value>, formals: seq<Value>, arg: Value, n: nat)
    requires n <= |operands|
    ensures forall f :: f in PassedAs(operands, formals, arg, n) <==>
              exists j :: 0 <= j < n && j < |formals| && operands[j] == arg && formals[j] == f
  {
    if n > 0 { PassedAsMeans(operands, formals, arg, n - 1); }
  }

  /** In order and multiplicity what is listed follows the operands; as a set it is what call edges lead to. */
  lemma CallArgsMean(p: Program, call: Value, arg: Value)
    requires p.IsCall(call)
    ensures forall f :: f in CallArgs(p, call, arg) <==> f in p.FormalsFor(call, arg)
  {
    PassedAsMeans(p.Operands(call), p.FunctionOf(p.kinds[call].callee).formals, arg, |p.Operands(call)|);
  }

  /** What enters a called body, read off the module: declarations and variadic functions take in nothing, any
      other function takes in exactly the operands at the positions of its formals. */
  lemma FormalsAreMatched(p: Program, call: Value, arg: Value, f: Value)
    ensures f in p.FormalsFor(call, arg) <==>
              && call in p.kinds && p.kinds[call].Call? && p.kinds[call].callee in p.functions
              && var (args, callee) := (p.kinds[call].args, p.functions[p.kinds[call].callee]);
              && !callee.isDeclaration && !callee.isVarArg
              && exists i :: 0 <= i < |callee.formals| && i <= |args| && callee.formals[i] == f &&
                             arg == if i < |args| then args[i] else p.kinds[call].called
  {
    if p.IsCall(call) && p.kinds[call].callee in p.functions {
      var args, formals := p.kinds[call].args, p.functions[p.kinds[call].callee].formals;
      assert forall i :: 0 <= i <= |args| ==>
        p.Operands(call)[i] == if i < |args| then args[i] else p.kinds[call].called;
    }
  }

  method GetCallArgs(p: Program, call: Value, arg: Value) returns (out: seq<Value>)
    requires p.WellFormed() && call in p.kinds && p.IsCall(call) && !p.KindOf(arg).CodePointer?
    ensures out == CallArgs(p, call, arg)
    ensures forall f :: f in out <==> f in p.FormalsFor(call, arg)
  {
    CallArgsMean(p, call, arg);
    out := [];
    var operands := p.Operands(call);
    if p.Followed(call) {
      var formals := p.FunctionOf(p.kinds[call].callee).formals;
      assert p.WellFormedValue(call);
      for i := 0 to |operands|
        invariant out == PassedAs(operands, formals, arg, i)
      {
        if operands[i] == arg {
          out := out + [formals[i]];
        }
      }
    }
  }

  /** Add w as a vertex, and as a child of v. */
  method AddChild(v: Value, w: Value, sg: ScaleGraph)
    requires sg.Valid() && v in sg.graph
    modifies sg, sg.Repr
    ensures sg.Valid() && sg.Grew()
    ensures sg.edges == old(sg.edges) + {(v, w)}
    ensures sg.graph.Keys == old(sg.graph.Keys) + {w}
    ensures KeepsRooted(old(sg.State()), sg.State())
  {
    hide KeepsRooted, Targets, Linked;
    sg.AddVertex(w, false);
    sg.AddEdge(v, w);
    SingleTarget(v, w);
    LinkKeepsRooted(old(sg.State()), v, w);
    assert sg.State() == Link(old(sg.State()), {(v, w)});
  }

  /** Add each of ws as a vertex and as a child of v. */
  method AddChildren(v: Value, ws: seq<Value>, sg: ScaleGraph)
    requires sg.Valid() && v in sg.graph
    modifies sg, sg.Repr
    ensures sg.Valid() && sg.Grew()
    ensures sg.edges == old(sg.edges) + Star(v, ws)
    ensures sg.graph.Keys == old(sg.graph.Keys) + Members(ws)
    ensures KeepsRooted(old(sg.State()), sg.State())
  {
    hide ScaleGraph.Valid, Rooted;
    for i := 0 to |ws|
      invariant sg.Valid() && sg.Grew() && KeepsRooted(old(sg.State()), sg.State())
      invariant sg.edges == old(sg.edges) + Star(v, ws[..i])
      invariant sg.graph.Keys == old(sg.graph.Keys) + Members(ws[..i])
    {
      StarSnoc(v, ws, i);
      AddChild(v, ws[i], sg);
    }
    assert ws[..|ws|] == ws;
  }

  lemma StarSnoc(v: Value, ws: seq<Value>, i: nat)
    requires i < |ws|
    ensures Star(v, ws[..i + 1]) == Star(v, ws[..i]) + {(v, ws[i])}
    ensures Members(ws[..i + 1]) == Members(ws[..i]) + {ws[i]}
  {
    assert ws[..i + 1] == ws[..i] + [ws[i]];
  }

  lemma TracedTwice(p: Program, vis: set<Value>, vis': set<Value>, st: GraphState, st': GraphState, st'': GraphState)
    requires Traced(p, vis, st, st') && Traced(p, vis', st', st'')
    ensures Traced(p, vis + vis', st, st'')
  {
    OutUnion(p.Flow(), vis, vis');
    TargetsUnion(Out(p.Flow(), vis), Out(p.Flow(), vis'));
  }

  lemma NothingTraced(p: Program, vis: set<Value>, st: GraphState)
    requires vis == {}
    ensures Traced(p, vis, st, st)
  {
  }

  /** The def-use and memory successors of one value, as the code lists them. */
  lemma TracedOne(p: Program, v: Value, users: seq<Value>, loads: seq<Value>, st: GraphState)
    requires v in p.kinds && users == p.UsersOf(v)
    requires loads == if p.KindOf(v).Store? then p.LoadsOf(v) else []
    ensures forall w :: w in users + loads + loads <==> (v, w) in p.Flow()
    ensures Traced(p, {v}, st,
                   GraphState(st.vs + Members(users) + Members(loads), st.es + Star(v, users) + Star(v, loads)))
  {
    var out := Out(p.Flow(), {v});
    assert forall w :: w in users + loads + loads <==> p.FlowsTo(v, w);
    assert out == Star(v, users) + Star(v, loads);
    assert forall w :: w in users || w in loads ==> (v, w) in out;
    TargetsWithin(out, Members(users) + Members(loads));
    assert st.es + Star(v, users) + Star(v, loads) == st.es + out;
    assert st.vs + Members(users) + Members(loads) == st.vs + Targets(out);
  }

  lemma FlowStays(p: Program, v: Value)
    requires p.WellFormed()
    ensures forall w :: (v, w) in p.Flow() ==> w in p.kinds
  {
  }

  /** Link v to its users and, if it is a store, to the loads that read it. */
  method AddFlow(p: Program, v: Value, sg: ScaleGraph) returns (children: seq<Value>)
    requires v in p.kinds && sg.Valid() && v in sg.graph
    modifies sg, sg.Repr
    ensures sg.Valid() && sg.Grew()
    ensures forall w :: w in children <==> (v, w) in p.Flow()
    ensures forall w :: w in children ==> w in sg.graph
    ensures Traced(p, {v}, old(sg.State()), sg.State()) && KeepsRooted(old(sg.State()), sg.State())
  {
    hide ScaleGraph.Valid, Traced, Program.FlowsTo, Program.WellFormed, Rooted;
    children := p.UsersOf(v);
    AddChildren(v, children, sg);
    var loads := [];
    if p.KindOf(v).Store? {
      loads := p.LoadsOf(v);
    }
    children := children + loads + loads;
    AddChildren(v, loads, sg);
    TracedOne(p, v, p.UsersOf(v), loads, old(sg.State()));
  }

  /**
   Depth-first tracing from v, up to call sites. It terminates on cyclic IR because every value is
   visited at most once; the graph gains the flow edges of the newly visited values and no others.
   */
  method TraceUpToCalls(p: Program, v: Value, visited: set<Value>, sg: ScaleGraph) returns (visited': set<Value>)
    requires p.WellFormed() && v in p.kinds && visited <= p.kinds.Keys
    requires sg.Valid() && v in sg.graph
    modifies sg, sg.Repr
    ensures sg.Valid() && sg.Grew()
    ensures visited' <= p.kinds.Keys && Searched(p.Flow(), v, visited, visited')
    ensures Traced(p, visited' - visited, old(sg.State()), sg.State()) && KeepsRooted(old(sg.State()), sg.State())
    decreases p.kinds.Keys - visited
  {
    hide ScaleGraph.Valid, PartSearched, Reaches, Traced, Program.WellFormed, Program.FlowsTo, Rooted;
    if v in visited {
      NothingTraced(p, visited - visited, sg.State());
      return visited;
    }
    hide Searched;
    SearchStarts(p.Flow(), v, visited);
    visited' := visited + {v};
    var children := AddFlow(p, v, sg);
    FlowStays(p, v);
    assert visited' - visited == {v};
    for i := 0 to |children|
      invariant sg.Valid() && sg.Grew()
      invariant forall w :: w in children ==> w in sg.graph
      invariant visited + {v} <= visited' <= p.kinds.Keys && PartSearched(p.Flow(), v, visited, visited')
      invariant Members(children[..i]) <= visited'
      invariant Traced(p, visited' - visited, old(sg.State()), sg.State())
      invariant KeepsRooted(old(sg.State()), sg.State())
    {
      ghost var before, st := visited', sg.State();
      visited' := TraceUpToCalls(p, children[i], visited', sg);
      SearchGoesOn(p.Flow(), v, children[i], visited, before, visited');
      MembersSnoc(children, i);
      TracedTwice(p, before - visited, visited' - before, old(sg.State()), st, sg.State());
      assert (before - visited) + (visited' - before) == visited' - visited;
    }
    assert children[..|children|] == children;
    assert forall w :: w in children ==> w in Members(children);
    SearchEnds(p.Flow(), v, visited, visited');
  }

  /** No function pointer has children, so no call is reached through the function it calls. */
  ghost predicate DataOnly(p: Program, es: Edges) {
    forall a, b :: (a, b) in es ==> !p.KindOf(a).CodePointer?
  }

  /** The formals of a call that any of some values enters. */
  function ArgsFrom(p: Program, call: Value, from: seq<Value>): seq<Value>
    requires p.IsCall(call)
  {
    if from == [] then [] else ArgsFrom(p, call, from[..|from| - 1]) + CallArgs(p, call, from[|from| - 1])
  }

  lemma {:induction false} ArgsFromMean(p: Program, call: Value, from: seq<Value>)
    requires p.IsCall(call)
    ensures forall f :: f in ArgsFrom(p, call, from) <==> exists a :: a in from && f in p.FormalsFor(call, a)
  {
    hide Program.FormalsFor, CallArgs;
    if from != [] {
      var k := |from| - 1;
      ArgsFromMean(p, call, from[..k]);
      CallArgsMean(p, call, from[k]);
      assert from == from[..k] + [from[k]];
    }
  }

  /**
   Connect one call site to the formals of the function it calls, for every parent of the call in the
   graph. Values other than calls have no such formals.
   */
  method TraceCallInstruction(p: Program, v: Value, sg: ScaleGraph) returns (children: seq<Value>)
    requires p.WellFormed() && v in p.kinds && sg.Valid() && v in sg.graph && DataOnly(p, sg.edges)
    modifies sg, sg.Repr
    ensures sg.Valid() && sg.Grew()
    ensures Star(v, children) == Out(CallEdges(p, old(sg.edges)), {v}) && Members(children) <= p.kinds.Keys
    ensures sg.edges == old(sg.edges) + Star(v, children)
    ensures sg.graph.Keys == old(sg.graph.Keys) + Members(children) && KeepsRooted(old(sg.State()), sg.State())
  {
    hide ScaleGraph.Valid, Program.WellFormed, Program.FormalsFor, CallArgs, ArgsFrom, Star, Members, KeepsRooted;
    children := [];
    StarEmpty(v);
    RootedSame(sg.State());
    if p.IsCall(v) {
      var parents := ParentsOf(v, sg);
      ArgsFromMean(p, v, parents);
      children := ConnectParents(p, v, parents, sg);
    } else {
      NoFormals(p, v);
    }
    CallStar(p, v, children, old(sg.edges));
  }

  lemma NoFormals(p: Program, v: Value)
    requires !p.IsCall(v)
    ensures forall a :: p.FormalsFor(v, a) == {}
  {
  }

  /** The loop over the parents of a call. */
  method ConnectParents(p: Program, v: Value, parents: seq<Value>, sg: ScaleGraph) returns (children: seq<Value>)
    requires p.WellFormed() && v in p.kinds && p.IsCall(v) && sg.Valid() && v in sg.graph
    requires forall a :: a in parents ==> !p.KindOf(a).CodePointer?
    modifies sg, sg.Repr
    ensures sg.Valid() && sg.Grew() && children == ArgsFrom(p, v, parents)
    ensures sg.edges == old(sg.edges) + Star(v, children)
    ensures sg.graph.Keys == old(sg.graph.Keys) + Members(children) && KeepsRooted(old(sg.State()), sg.State())
  {
    hide ScaleGraph.Valid, Program.WellFormed, Program.FormalsFor, CallArgs, Star, Members, KeepsRooted;
    children := [];
    StarEmpty(v);
    RootedSame(sg.State());
    for i := 0 to |parents|
      invariant sg.Valid() && sg.Grew() && children == ArgsFrom(p, v, parents[..i])
      invariant sg.edges == old(sg.edges) + Star(v, children)
      invariant sg.graph.Keys == old(sg.graph.Keys) + Members(children) && KeepsRooted(old(sg.State()), sg.State())
    {
      assert parents[i] in parents;
      assert parents[..i + 1][..i] == parents[..i];
      ghost var st := sg.State();
      var args := GetCallArgs(p, v, parents[i]);
      AddChildren(v, args, sg);
      StarConcat(v, children, args);
      RootedTwice(old(sg.State()), st, sg.State());
      children := children + args;
    }
    assert parents[..|parents|] == parents;
  }

  lemma StarEmpty(v: Value)
    ensures Star(v, []) == {} && Members<Value>([]) == {}
  {
  }

  lemma StarConcat(v: Value, s: seq<Value>, t: seq<Value>)
    ensures Star(v, s + t) == Star(v, s) + Star(v, t)
    ensures Members(s + t) == Members(s) + Members(t)
  {
  }

  lemma CallStar(p: Program, v: Value, children: seq<Value>, es: Edges)
    requires p.WellFormed()
    requires forall f :: f in children <==> exists a :: (a, v) in es && f in p.FormalsFor(v, a)
    ensures Star(v, children) == Out(CallEdges(p, es), {v}) && Members(children) <= p.kinds.Keys
  {
    CallEdgesAre(p, es);
    forall f | f in children ensures f in p.kinds {
      FormalIsArgument(p, v, f);
    }
  }

  /** The values of a vertex's parents. */
  method ParentsOf(v: Value, sg: ScaleGraph) returns (parents: seq<Value>)
    requires sg.Valid() && v in sg.graph
    ensures forall a :: a in parents <==> (a, v) in sg.edges
  {
    var node := sg.graph[v];
    parents := [];
    for i := 0 to |node.parents|
      invariant forall a :: a in parents <==> exists j :: 0 <= j < i && node.parents[j].value == a
    {
      parents := parents + [node.parents[i].value];
    }
    forall a | (a, v) in sg.edges ensures a in parents {
      assert sg.graph[a] in node.parents;
    }
  }

  lemma Element<T>(s: set<T>) returns (x: T)
    requires s != {}
    ensures x in s
  {
    x :| x in s;
  }

  lemma {:induction false} LeastElement(s: set<Value>) returns (k: Value)
    requires s != {}
    ensures k in s && forall j :: j in s ==> k <= j
    decreases |s|
  {
    k := Element(s);
    var below := set j | j in s && j < k;
    if below != {} {
      assert k in s && k !in below && below <= s;
      SmallerSet(below, s);
      var first := k;
      k := LeastElement(below);
      assert k in below;
      forall j | j in s ensures k <= j {
        assert first <= j || j in below;
      }
    } else {
      forall j | j in s ensures k <= j {
        assert j !in below;
      }
    }
  }

  /** The entry that follows cursor in the ordered index, if any. */
  method NextVertex(keys: set<Value>, cursor: Option<Value>) returns (next: Option<Value>)
    ensures next.None? ==> forall k :: k in keys ==> cursor.Some? && k <= cursor.value
    ensures next.Some? ==> next.value in keys && (cursor.Some? ==> cursor.value < next.value)
    ensures next.Some? ==> forall k :: k in keys && (cursor.Some? ==> cursor.value < k) ==> next.value <= k
  {
    var ahead := set k | k in keys && (cursor.None? || cursor.value < k);
    if ahead == {} {
      forall k | k in keys ensures cursor.Some? && k <= cursor.value {
        assert k !in ahead;
      }
      return None;
    }
    ghost var least := LeastElement(ahead);
    var k :| k in ahead && forall j :: j in ahead ==> k <= j;
    forall j | j in keys && (cursor.Some? ==> cursor.value < j) ensures k <= j {
      assert j in ahead;
    }
    return Some(k);
  }

  /** The calls whose formals are connected: after the loop over the index, those that were there before. */
  ghost predicate Covered(p: Program, keys: set<Value>, cursor: Option<Value>, done: set<Value>) {
    forall c :: c in keys && p.IsCall(c) && cursor.Some? && c <= cursor.value ==> c in done
  }

  lemma CoverNext(p: Program, keys: set<Value>, cursor: Option<Value>, next: Option<Value>,
                  done: set<Value>, done': set<Value>)
    requires Covered(p, keys, cursor, done) && done <= done'
    requires next.Some? && (p.IsCall(next.value) ==> next.value in done')
    requires forall k :: k in keys && (cursor.Some? ==> cursor.value < k) ==> next.value <= k
    ensures Covered(p, keys, next, done')
  {
  }

  /** Adding edges out of calls to formals does not give any call a new parent. */
  lemma SameParents(p: Program, es: Edges, done: set<Value>, c: Value)
    requires p.WellFormed() && !p.KindOf(c).Argument?
    ensures Out(CallEdges(p, es + Out(CallEdges(p, es), done)), {c}) == Out(CallEdges(p, es), {c})
  {
    CallEdgesAre(p, es);
    CallEdgesAre(p, es + Out(CallEdges(p, es), done));
    forall a | (a, c) in CallEdges(p, es) ensures false {
      FormalIsArgument(p, a, c);
    }
  }

  lemma FormalIsArgument(p: Program, call: Value, f: Value)
    requires p.WellFormed()
    ensures forall a :: f in p.FormalsFor(call, a) ==> p.KindOf(f).Argument? && f in p.kinds && p.IsCall(call)
  {
    if p.IsCall(call) {
      var formals := p.FunctionOf(p.kinds[call].callee).formals;
      assert forall i :: 0 <= i < |formals| ==> formals[i] in formals;
    }
  }

  lemma StarTargets(c: Value, ws: seq<Value>)
    ensures Targets(Star(c, ws)) == Members(ws)
  {
    forall w | w in Members(ws) ensures w in Targets(Star(c, ws)) { assert (c, w) in Star(c, ws); }
    TargetsWithin(Star(c, ws), Members(ws));
    assert Targets(Star(c, ws)) == Members(ws);
  }

  lemma CallLinksDataOnly(p: Program, es: Edges, cs: set<Value>)
    requires p.WellFormed() && DataOnly(p, es)
    ensures DataOnly(p, es + Out(CallEdges(p, es), cs))
  {
    CallEdgesAre(p, es);
    forall a, b | (a, b) in CallEdges(p, es) ensures !p.KindOf(a).CodePointer? {
      FormalIsArgument(p, a, b);
    }
  }

  /** One more call connected: its links come from the edges the loop started with. */
  lemma LinkOneCall(p: Program, st: GraphState, done: set<Value>, c: Value, cs: seq<Value>, toFollow: seq<Value>)
    requires p.WellFormed() && p.IsCall(c)
    requires Star(c, cs) == Out(CallEdges(p, st.es + Out(CallEdges(p, st.es), done)), {c})
    requires Members(toFollow) == Targets(Out(CallEdges(p, st.es), done))
    ensures var links := CallEdges(p, st.es);
            && Members(toFollow + cs) == Targets(Out(links, done + {c}))
            && Link(st, Out(links, done + {c})) ==
                 GraphState(Link(st, Out(links, done)).vs + Members(cs), Link(st, Out(links, done)).es + Star(c, cs))
  {
    hide Star, Members, Targets, Out;
    var links := CallEdges(p, st.es);
    SameParents(p, st.es, done, c);
    OutUnion(links, done, {c});
    TargetsUnion(Out(links, done), Out(links, {c}));
    StarTargets(c, cs);
    StarConcat(c, toFollow, cs);
  }

  /** When every call of the graph has been connected, all links are in place. */
  lemma AllCallsLinked(p: Program, es: Edges, keys: set<Value>, cursor: Option<Value>, done: set<Value>)
    requires p.WellFormed() && (forall a, b :: (a, b) in es ==> b in keys)
    requires Covered(p, keys, cursor, done) && forall k :: k in keys ==> cursor.Some? && k <= cursor.value
    ensures Out(CallEdges(p, es), done) == CallEdges(p, es)
  {
    CallEdgesAre(p, es);
    forall c, f | (c, f) in CallEdges(p, es) ensures c in done {
      FormalIsArgument(p, c, f);
    }
  }

  ghost function Ahead(p: Program, cursor: Option<Value>): set<Value> {
    set k | k in p.kinds && (cursor.Some? ==> cursor.value < k)
  }

  /** The loop over the graph: connect every call in it, in the order of the index. */
  method ConnectCalls(p: Program, sg: ScaleGraph) returns (toFollow: seq<Value>)
    requires p.WellFormed() && sg.Valid() && sg.graph.Keys <= p.kinds.Keys && DataOnly(p, sg.edges)
    modifies sg, sg.Repr
    ensures sg.Valid() && sg.Grew()
    ensures Members(toFollow) == Targets(CallEdges(p, old(sg.edges)))
    ensures sg.State() == Link(old(sg.State()), CallEdges(p, old(sg.edges)))
    ensures KeepsRooted(old(sg.State()), sg.State())
  {
    hide ScaleGraph.Valid, Program.WellFormed, Star, Members, Targets, Out, DataOnly, Covered, CallEdges, Rooted;
    ghost var st, done := sg.State(), {};
    EdgesInside(sg);
    toFollow := [];
    var cursor := None;
    NothingConnected(p, st, toFollow);
    while true
      invariant sg.Valid() && sg.Grew() && sg.graph.Keys <= p.kinds.Keys
      invariant Covered(p, st.vs, cursor, done)
      invariant Members(toFollow) == Targets(Out(CallEdges(p, st.es), done))
      invariant sg.State() == Link(st, Out(CallEdges(p, st.es), done)) && KeepsRooted(st, sg.State())
      decreases Ahead(p, cursor)
    {
      var next := NextVertex(sg.graph.Keys, cursor);
      if next.None? {
        AllCallsLinked(p, st.es, st.vs, cursor, done);
        break;
      }
      var c := next.value;
      ghost var before := done;
      if p.IsCall(c) {
        CallLinksDataOnly(p, st.es, done);
        var children := TraceCallInstruction(p, c, sg);
        LinkOneCall(p, st, done, c, children, toFollow);
        toFollow := toFollow + children;
        done := done + {c};
      }
      CoverNext(p, st.vs, cursor, next, before, done);
      assert c in Ahead(p, cursor) && c !in Ahead(p, next);
      cursor := next;
    }
  }

  lemma EdgesInside(sg: ScaleGraph)
    requires sg.Valid()
    ensures forall a, b :: (a, b) in sg.edges ==> a in sg.graph && b in sg.graph
  {
  }

  lemma NothingConnected(p: Program, st: GraphState, toFollow: seq<Value>)
    requires toFollow == []
    ensures Members(toFollow) == Targets(Out(CallEdges(p, st.es), {}))
    ensures st == Link(st, Out(CallEdges(p, st.es), {}))
    ensures Covered(p, st.vs, None, {})
  {
    assert Out(CallEdges(p, st.es), {}) == {};
    assert Targets({}) == {};
  }

  /** Trace from each of the collected values, with fresh marks each time. */
  method FollowAll(p: Program, toFollow: seq<Value>, sg: ScaleGraph)
    requires p.WellFormed() && sg.Valid() && Members(toFollow) <= sg.graph.Keys && Members(toFollow) <= p.kinds.Keys
    modifies sg, sg.Repr
    ensures sg.Valid() && sg.Grew()
    ensures sg.State() == Saturate(p, old(sg.State()), Members(toFollow))
  {
    hide ScaleGraph.Valid, Program.WellFormed, Saturate, Searched, Traced, Saturated, Star;
    ghost var st := sg.State();
    SaturateNothing(p, st, toFollow[..0]);
    for i := 0 to |toFollow|
      invariant sg.Valid() && sg.Grew()
      invariant sg.State() == Saturate(p, st, Members(toFollow[..i]))
    {
      ghost var cur := sg.State();
      assert toFollow[i] in Members(toFollow);
      var visited := TraceUpToCalls(p, toFollow[i], {}, sg);
      assert visited - {} == visited;
      NothingSaturated(p, cur);
      SearchSaturates(p, cur, sg.State(), toFollow[i], {}, visited);
      MembersSnoc(toFollow, i);
      SaturateTwice(p, st, Members(toFollow[..i]), {toFollow[i]});
    }
    assert toFollow[..|toFollow|] == toFollow;
  }

  lemma SaturateNothing(p: Program, st: GraphState, none: seq<Value>)
    requires none == []
    ensures Saturate(p, st, Members(none)) == st
  {
    ReachSetEmpty(p.Flow());
  }

  lemma NothingSaturated(p: Program, st: GraphState)
    ensures Saturated(p, st, {})
  {
  }

  /** The body of the expansion loop: connect all calls, then trace from the formals they lead to. */
  method TraceRound(p: Program, sg: ScaleGraph)
    requires p.WellFormed() && sg.Valid() && sg.graph.Keys <= p.kinds.Keys && DataOnly(p, sg.edges)
    modifies sg, sg.Repr
    ensures sg.Valid() && sg.Grew()
    ensures sg.State() == Round(p, old(sg.State()))
  {
    hide ScaleGraph.Valid, Saturate, Targets, Members;
    var toFollow := ConnectCalls(p, sg);
    FormalsInside(p, old(sg.edges));
    FollowAll(p, toFollow, sg);
  }

  lemma FormalsInside(p: Program, es: Edges)
    requires p.WellFormed()
    ensures Targets(CallEdges(p, es)) <= p.kinds.Keys
  {
    CallEdgesAre(p, es);
    forall c, f | (c, f) in CallEdges(p, es) ensures f in p.kinds {
      FormalIsArgument(p, c, f);
    }
    TargetsWithin(CallEdges(p, es), p.kinds.Keys);
  }
}
