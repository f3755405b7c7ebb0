/** From a backward trace to the references of a marked value: the root, or the GEPs below the root
    that look like the GEPs on the trace. */
module ReferenceSearch {
  import opened Collections
  import opened Reachability
  import opened IR
  import opened BackwardTracing
  import opened IndexComparison
  import opened GepSearch

  /** Where the scan of a trace ends: a local, a global, or a call of malloc. */
  predicate IsRoot(p: Program, v: Value) {
    match p.KindOf(v)
    case Alloca => true
    case GlobalVariable => true
    case Call(callee, _, _) => p.FunctionOf(callee).name == "malloc"
    case _ => false
  }

  function ScanRoot(p: Program, t: seq<Value>): Option<Value> {
    if t == [] then None else if IsRoot(p, t[0]) then Some(t[0]) else ScanRoot(p, t[1..])
  }

  /** The GEPs on a trace before its root. */
  function ScanGeps(p: Program, t: seq<Value>): seq<Value> {
    if t == [] || IsRoot(p, t[0]) then []
    else (if p.KindOf(t[0]).Gep? then [t[0]] else []) + ScanGeps(p, t[1..])
  }

  /** Read off the module: the scan ends at the first local, global or call of malloc, at k, and that is the root;
      the GEPs are exactly those before it. */
  lemma {:induction false} ScanMeans(p: Program, t: seq<Value>) returns (k: nat)
    ensures k <= |t|
    ensures forall j :: 0 <= j < k ==>
              var x := p.KindOf(t[j]);
              !x.Alloca? && !x.GlobalVariable? && !(x.Call? && p.FunctionOf(x.callee).name == "malloc")
    ensures k < |t| ==>
              var x := p.KindOf(t[k]);
              && (x.Alloca? || x.GlobalVariable? || (x.Call? && p.FunctionOf(x.callee).name == "malloc"))
              && ScanRoot(p, t) == Some(t[k])
    ensures k == |t| ==> ScanRoot(p, t) == None
    ensures forall g :: g in ScanGeps(p, t) <==> g in t[..k] && p.KindOf(g).Gep?
  {
    k := 0;
    if t != [] && !IsRoot(p, t[0]) {
      k := ScanMeans(p, t[1..]);
      k := k + 1;
      assert t[..k] == [t[0]] + t[1..][..k - 1];
      assert t == [t[0]] + t[1..];
    } else {
      assert t[..0] == [];
    }
  }

  method ScanTrace(p: Program, vt: ValueTrace) returns (root: Option<Value>, traceGeps: seq<Value>)
    ensures root == ScanRoot(p, vt.trace) && traceGeps == ScanGeps(p, vt.trace)
  {
    var t := vt.trace;
    root, traceGeps := None, [];
    var done := false;
    for i := 0 to |t|
      invariant !done ==> root == None && ScanRoot(p, t) == ScanRoot(p, t[i..])
      invariant !done ==> traceGeps + ScanGeps(p, t[i..]) == ScanGeps(p, t)
      invariant done ==> root == ScanRoot(p, t) && traceGeps == ScanGeps(p, t)
    {
      if done { break; }
      assert t[i..][1..] == t[i + 1..];
      if IsRoot(p, t[i]) {
        root, done := Some(t[i]), true;
      } else if p.KindOf(t[i]).Gep? {
        traceGeps := traceGeps + [t[i]];
      }
    }
  }

  /** The GEPs of s that compare equal to g, given the same root. */
  ghost function Matching(p: Program, g: Value, s: set<Value>): set<Value>
    requires p.WellFormed() && IsGep(p, g)
  {
    set gg | gg in s && IsGep(p, gg) && GepsEqual(p, g, gg, g, g)
  }

  /**
   The nest of GEPs on a trace, unrolled from the root: at each level the GEPs found below the current
   roots that match the next GEP of the trace. Values visited at one level are not visited again.
   */
  ghost function Unroll(p: Program, traceGeps: seq<Value>, roots: set<Value>, visited: set<Value>): set<Value>
    requires p.WellFormed() && forall g :: g in traceGeps ==> IsGep(p, g)
  {
    if traceGeps == [] then roots
    else
      var k := |traceGeps| - 1;
      var reached := ReachSet(GepLinks(p), roots);
      assert traceGeps[k] in traceGeps;
      Unroll(p, traceGeps[..k], Matching(p, traceGeps[k], GepUsers(p, reached - visited)), visited + reached)
  }

  /** The references that a backward trace leads to. */
  ghost function Refs(p: Program, t: seq<Value>): set<Value>
    requires p.WellFormed()
  {
    match ScanRoot(p, t)
    case None => {}
    case Some(root) =>
      ScanGepsAreGeps(p, t);
      Unroll(p, ScanGeps(p, t), {root}, {})
  }

  lemma {:induction false} ScanGepsAreGeps(p: Program, t: seq<Value>)
    ensures forall g :: g in ScanGeps(p, t) ==> IsGep(p, g)
    ensures ScanRoot(p, t).Some? ==> ScanRoot(p, t).value in p.kinds && !p.KindOf(ScanRoot(p, t).value).CodePointer?
  {
    if t != [] && !IsRoot(p, t[0]) { ScanGepsAreGeps(p, t[1..]); }
  }

  /** The GEPs among geps that compare equal to g, given the same root, in order. */
  ghost function Alike(p: Program, g: Value, geps: seq<Value>): seq<Value>
    requires p.WellFormed() && IsGep(p, g)
  {
    if geps == [] then []
    else
      var k := |geps| - 1;
      Alike(p, g, geps[..k]) + if IsGep(p, geps[k]) && GepsEqual(p, g, geps[k], g, g) then [geps[k]] else []
  }

  lemma {:induction false} AlikeMatches(p: Program, g: Value, geps: seq<Value>)
    requires p.WellFormed() && IsGep(p, g)
    ensures Members(Alike(p, g, geps)) == Matching(p, g, Members(geps))
  {
    hide Program.WellFormed, GepsEqual, Members;
    if geps == [] {
      assert Members(geps) == {} && Members(Alike(p, g, geps)) == {} by { NoMembers(geps); }
    } else {
      var k := |geps| - 1;
      AlikeMatches(p, g, geps[..k]);
      MembersSnoc(geps, k);
      assert geps[..k + 1] == geps;
      MatchingUnion(p, g, Members(geps[..k]), {geps[k]});
      var one := if IsGep(p, geps[k]) && GepsEqual(p, g, geps[k], g, g) then [geps[k]] else [];
      MembersConcat(Alike(p, g, geps[..k]), one);
      OneMember(one);
    }
  }

  lemma NoMembers(none: seq<Value>)
    requires none == []
    ensures Members(none) == {}
  {
  }

  lemma OneMember(one: seq<Value>)
    requires |one| <= 1
    ensures Members(one) == if one == [] then {} else {one[0]}
  {
  }

  /** The comparisons of g with the GEPs among geps come to an end. */
  ghost predicate ListSettled(p: Program, g: Value, geps: seq<Value>)
    requires p.WellFormed() && IsGep(p, g)
  {
    forall gg :: gg in geps && IsGep(p, gg) ==> GepsReturn(p, g, gg)
  }

  /** Search below root and keep the GEPs that match g. */
  method FindMatching(p: Program, g: Value, root: Value, visited: set<Value>, results: seq<Value>)
    returns (results': seq<Value>, visited': set<Value>)
    requires p.WellFormed() && IsGep(p, g)
    requires root in p.kinds && !p.KindOf(root).CodePointer? && visited <= p.kinds.Keys
    requires ListSettled(p, g, Search(p, root, Found([], visited)).geps)
    ensures var found := Search(p, root, Found([], visited));
            results' == results + Alike(p, g, found.geps) && visited' == found.visited
  {
    hide Program.WellFormed, GepsEqual, GepsReturn, Search;
    var geps;
    geps, visited' := FindGEPs(p, root, [], visited);
    SearchFindsGeps(p, root, visited);
    results' := results;
    for i := 0 to |geps|
      invariant results' == results + Alike(p, g, geps[..i])
    {
      var gg := geps[i];
      assert gg in geps;
      assert geps[..i + 1][..i] == geps[..i];
      var same := GepsAreEqual(p, g, gg, root, root);
      RootsImmaterial(p, g, gg, root);
      if same {
        results' := results' + [gg];
      }
    }
    assert geps[..|geps|] == geps;
  }

  lemma SearchFindsGeps(p: Program, root: Value, visited: set<Value>)
    requires p.WellFormed() && root in p.kinds && !p.KindOf(root).CodePointer? && visited <= p.kinds.Keys
    ensures forall g :: g in Search(p, root, Found([], visited)).geps ==> IsGep(p, g)
  {
    hide Program.WellFormed, Search, GepUsers;
    SearchMeans(p, root, Found([], visited));
    var r := Search(p, root, Found([], visited));
    GepUsersAreGeps(p, r.visited - visited);
    assert Members<Value>([]) == {};
    assert forall g :: g in r.geps ==> g in Members(r.geps);
  }

  lemma RootsImmaterial(p: Program, a: Value, b: Value, root: Value)
    requires p.WellFormed() && IsGep(p, a) && IsGep(p, b)
    ensures GepsEqual(p, a, b, root, root) == GepsEqual(p, a, b, a, a)
  {
  }

  lemma GepUsersAreGeps(p: Program, s: set<Value>)
    requires p.WellFormed()
    ensures forall g :: g in GepUsers(p, s) ==> IsGep(p, g)
  {
  }

  lemma MatchingUnion(p: Program, g: Value, s: set<Value>, t: set<Value>)
    requires p.WellFormed() && IsGep(p, g)
    ensures Matching(p, g, s + t) == Matching(p, g, s) + Matching(p, g, t)
  {
    hide Program.WellFormed, GepsEqual;
  }

  predicate Rootable(p: Program, rs: seq<Value>) {
    forall r :: r in rs ==> r in p.kinds && !p.KindOf(r).CodePointer?
  }

  /** One level of a nest: the look-alikes of g below each of some roots in turn, sharing the visited marks. */
  ghost function Level(p: Program, g: Value, roots: seq<Value>, visited: set<Value>): (r: Found)
    requires p.WellFormed() && IsGep(p, g) && Rootable(p, roots) && visited <= p.kinds.Keys
    ensures visited <= r.visited <= p.kinds.Keys
  {
    if roots == [] then Found([], visited)
    else
      var k := |roots| - 1;
      var before := Level(p, g, roots[..k], visited);
      var found := Search(p, roots[k], Found([], before.visited));
      Found(before.geps + Alike(p, g, found.geps), found.visited)
  }

  /** From closed marks a level finds exactly the look-alikes below what the roots reach past the marks. */
  lemma {:induction false} LevelMeans(p: Program, g: Value, roots: seq<Value>, visited: set<Value>)
    requires p.WellFormed() && IsGep(p, g) && Rootable(p, roots) && visited <= p.kinds.Keys
    requires Closed(GepLinks(p), visited)
    ensures var r := Level(p, g, roots, visited);
            && r.visited == visited + ReachSet(GepLinks(p), Members(roots)) && Closed(GepLinks(p), r.visited)
            && Members(r.geps) == Matching(p, g, GepUsers(p, r.visited - visited))
  {
    hide Program.WellFormed, GepUsers, ReachSet, Closed, Matching, SearchesTo, Members, Search, Searched, Alike;
    var r := Level(p, g, roots, visited);
    if roots == [] {
      LevelStart(p, g, visited, roots);
    } else {
      var k := |roots| - 1;
      LevelMeans(p, g, roots[..k], visited);
      var before := Level(p, g, roots[..k], visited);
      assert roots[k] in roots;
      var found := Search(p, roots[k], Found([], before.visited));
      SearchMeans(p, roots[k], Found([], before.visited));
      SearchExact(GepLinks(p), roots[k], before.visited, found.visited);
      AlikeMatches(p, g, found.geps);
      MembersConcat(before.geps, Alike(p, g, found.geps));
      MembersSnoc(roots, k);
      assert roots[..k + 1] == roots;
      ReachSetUnion(GepLinks(p), Members(roots[..k]), {roots[k]});
      assert r.visited - visited == (before.visited - visited) + (found.visited - before.visited);
      GepUsersUnion(p, before.visited - visited, found.visited - before.visited);
      MatchingUnion(p, g, GepUsers(p, before.visited - visited), GepUsers(p, found.visited - before.visited));
      NoMembers([]);
      assert Members(found.geps) == GepUsers(p, found.visited - before.visited);
      assert r.visited == visited + ReachSet(GepLinks(p), Members(roots));
    }
  }

  lemma LevelStart(p: Program, g: Value, visited: set<Value>, none: seq<Value>)
    requires p.WellFormed() && IsGep(p, g) && none == []
    ensures ReachSet(GepLinks(p), Members(none)) == {}
    ensures Matching(p, g, GepUsers(p, visited - visited)) == {} && Members(none) == {}
  {
    NoMembers(none);
    ReachSetEmpty(GepLinks(p));
    NoGeps(p, visited - visited);
  }

  lemma {:induction false} LevelRootable(p: Program, g: Value, roots: seq<Value>, visited: set<Value>)
    requires p.WellFormed() && IsGep(p, g) && Rootable(p, roots) && visited <= p.kinds.Keys
    ensures forall r :: r in Level(p, g, roots, visited).geps ==> IsGep(p, r)
  {
    hide Program.WellFormed, Search, GepsEqual;
    if roots != [] {
      var k := |roots| - 1;
      LevelRootable(p, g, roots[..k], visited);
      AlikeAreGeps(p, g, Search(p, roots[k], Found([], Level(p, g, roots[..k], visited).visited)).geps);
    }
  }

  lemma {:induction false} AlikeAreGeps(p: Program, g: Value, geps: seq<Value>)
    requires p.WellFormed() && IsGep(p, g)
    ensures forall r :: r in Alike(p, g, geps) ==> IsGep(p, r)
  {
    hide Program.WellFormed, GepsEqual;
    if geps != [] { AlikeAreGeps(p, g, geps[..|geps| - 1]); }
  }

  /** All levels of a nest, from the GEP nearest to the root inwards: the list of what is found last. */
  ghost function UnrollList(p: Program, traceGeps: seq<Value>, roots: seq<Value>, visited: set<Value>): seq<Value>
    requires p.WellFormed() && (forall g :: g in traceGeps ==> IsGep(p, g))
    requires Rootable(p, roots) && visited <= p.kinds.Keys
  {
    if traceGeps == [] then roots
    else
      var k := |traceGeps| - 1;
      assert traceGeps[k] in traceGeps;
      var level := Level(p, traceGeps[k], roots, visited);
      LevelRootable(p, traceGeps[k], roots, visited);
      UnrollList(p, traceGeps[..k], level.geps, level.visited)
  }

  /** As a set, what is found last is what unrolling by reachability gives. */
  lemma {:induction false} UnrollListMeans(p: Program, traceGeps: seq<Value>, roots: seq<Value>, visited: set<Value>)
    requires p.WellFormed() && (forall g :: g in traceGeps ==> IsGep(p, g))
    requires Rootable(p, roots) && visited <= p.kinds.Keys && Closed(GepLinks(p), visited)
    ensures Members(UnrollList(p, traceGeps, roots, visited)) == Unroll(p, traceGeps, Members(roots), visited)
    decreases |traceGeps|
  {
    hide Program.WellFormed, GepUsers, ReachSet, Closed, Matching, SearchesTo, Members, Level;
    if traceGeps != [] {
      var k := |traceGeps| - 1;
      assert traceGeps[k] in traceGeps;
      LevelMeans(p, traceGeps[k], roots, visited);
      LevelRootable(p, traceGeps[k], roots, visited);
      var level := Level(p, traceGeps[k], roots, visited);
      var reached := ReachSet(GepLinks(p), Members(roots));
      assert level.visited - visited == reached - visited;
      UnrollListMeans(p, traceGeps[..k], level.geps, level.visited);
    }
  }

  /** The comparisons made at one level come to an end. */
  ghost predicate LevelSettled(p: Program, g: Value, roots: seq<Value>, visited: set<Value>)
    requires p.WellFormed() && IsGep(p, g) && Rootable(p, roots) && visited <= p.kinds.Keys
  {
    forall k :: 0 <= k < |roots| ==>
      ListSettled(p, g, Search(p, roots[k], Found([], Level(p, g, roots[..k], visited).visited)).geps)
  }

  /** The comparisons made at all levels come to an end. */
  ghost predicate UnrollSettled(p: Program, traceGeps: seq<Value>, roots: seq<Value>, visited: set<Value>)
    requires p.WellFormed() && (forall g :: g in traceGeps ==> IsGep(p, g))
    requires Rootable(p, roots) && visited <= p.kinds.Keys
  {
    traceGeps == [] ||
    var k := |traceGeps| - 1;
    assert traceGeps[k] in traceGeps;
    var level := Level(p, traceGeps[k], roots, visited);
    LevelRootable(p, traceGeps[k], roots, visited);
    LevelSettled(p, traceGeps[k], roots, visited) && UnrollSettled(p, traceGeps[..k], level.geps, level.visited)
  }

  method UnrollLevel(p: Program, g: Value, traceRoots: seq<Value>, visited: set<Value>)
    returns (next: seq<Value>, visited': set<Value>)
    requires p.WellFormed() && IsGep(p, g) && Rootable(p, traceRoots) && visited <= p.kinds.Keys
    requires LevelSettled(p, g, traceRoots, visited)
    ensures Found(next, visited') == Level(p, g, traceRoots, visited)
  {
    hide Program.WellFormed, ListSettled, Search, Alike;
    next, visited' := [], visited;
    for i := 0 to |traceRoots|
      invariant Found(next, visited') == Level(p, g, traceRoots[..i], visited)
    {
      assert traceRoots[i] in traceRoots;
      assert traceRoots[..i + 1][..i] == traceRoots[..i];
      next, visited' := FindMatching(p, g, traceRoots[i], visited', next);
    }
    assert traceRoots[..|traceRoots|] == traceRoots;
  }

  /** The references that a backward trace leads to, in the order they are listed. */
  ghost function RefList(p: Program, t: seq<Value>): seq<Value>
    requires p.WellFormed()
  {
    match ScanRoot(p, t)
    case None => []
    case Some(root) =>
      ScanGepsAreGeps(p, t);
      UnrollList(p, ScanGeps(p, t), [root], {})
  }

  lemma RefListMeans(p: Program, t: seq<Value>)
    requires p.WellFormed()
    ensures Members(RefList(p, t)) == Refs(p, t)
  {
    hide Program.WellFormed, UnrollList, Unroll, Members;
    match ScanRoot(p, t)
    case None => NoMembers([]);
    case Some(root) =>
      ScanGepsAreGeps(p, t);
      NoMarks(GepLinks(p));
      UnrollListMeans(p, ScanGeps(p, t), [root], {});
      OneMember([root]);
  }

  /** The comparisons that the analysis of a trace makes come to an end. */
  ghost predicate TraceSettled(p: Program, t: seq<Value>)
    requires p.WellFormed()
  {
    ScanGepsAreGeps(p, t);
    ScanRoot(p, t).Some? ==> UnrollSettled(p, ScanGeps(p, t), [ScanRoot(p, t).value], {})
  }

  /** It is enough that comparing each GEP of the trace with any GEP comes to an end. */
  lemma SettledIsEnough(p: Program, t: seq<Value>)
    requires p.WellFormed() && forall g :: g in ScanGeps(p, t) ==> Settled(p, g)
    ensures TraceSettled(p, t)
  {
    hide Program.WellFormed, Settled, UnrollSettled;
    ScanGepsAreGeps(p, t);
    if ScanRoot(p, t).Some? { SettledUnrolls(p, ScanGeps(p, t), [ScanRoot(p, t).value], {}); }
  }

  lemma {:induction false} SettledUnrolls(p: Program, traceGeps: seq<Value>, roots: seq<Value>, visited: set<Value>)
    requires p.WellFormed() && (forall g :: g in traceGeps ==> IsGep(p, g) && Settled(p, g))
    requires Rootable(p, roots) && visited <= p.kinds.Keys
    ensures UnrollSettled(p, traceGeps, roots, visited)
    decreases |traceGeps|
  {
    hide Program.WellFormed, GepsReturn, Level, Search;
    if traceGeps != [] {
      var k := |traceGeps| - 1;
      assert traceGeps[k] in traceGeps;
      LevelRootable(p, traceGeps[k], roots, visited);
      var level := Level(p, traceGeps[k], roots, visited);
      SettledUnrolls(p, traceGeps[..k], level.geps, level.visited);
    }
  }

  /** The references of a trace: its root, or the look-alikes of its GEPs below the root. */
  method AnalyseTrace(p: Program, vt: ValueTrace) returns (results: seq<Value>)
    requires p.WellFormed() && TraceSettled(p, vt.trace)
    ensures results == RefList(p, vt.trace)
  {
    hide Program.WellFormed, ListSettled, Level;
    results := [];
    var root, traceGeps := ScanTrace(p, vt);
    ScanGepsAreGeps(p, vt.trace);
    if root.None? { return; }
    if traceGeps == [] {
      results := [root.value];
    } else if |traceGeps| == 1 {
      var g := traceGeps[0];
      assert g in traceGeps && [root.value][..0] == [] && [root.value][0] == root.value;
      ghost var visited;
      OneRootLevel(p, g, root.value);
      results, visited := FindMatching(p, g, root.value, {}, []);
    } else {
      var traceRoots, visited := [root.value], {};
      var k := |traceGeps|;
      assert traceGeps[..k] == traceGeps;
      while k > 0
        invariant 0 <= k <= |traceGeps|
        invariant Rootable(p, traceRoots) && visited <= p.kinds.Keys
        invariant UnrollList(p, traceGeps, [root.value], {}) == UnrollList(p, traceGeps[..k], traceRoots, visited)
        invariant UnrollSettled(p, traceGeps[..k], traceRoots, visited)
      {
        k := k - 1;
        var g := traceGeps[k];
        assert g in traceGeps && traceGeps[..k + 1][..k] == traceGeps[..k];
        LevelRootable(p, g, traceRoots, visited);
        traceRoots, visited := UnrollLevel(p, g, traceRoots, visited);
      }
      results := traceRoots;
    }
  }

  lemma OneRootLevel(p: Program, g: Value, root: Value)
    requires p.WellFormed() && IsGep(p, g) && Rootable(p, [root])
    ensures root in p.kinds && !p.KindOf(root).CodePointer?
    ensures UnrollList(p, [g], [root], {}) == [] + Alike(p, g, Search(p, root, Found([], {})).geps)
    ensures UnrollSettled(p, [g], [root], {}) ==> ListSettled(p, g, Search(p, root, Found([], {})).geps)
  {
    hide Program.WellFormed, Search, Alike, ListSettled;
    LevelRootable(p, g, [root], {});
    assert [root][..0] == [] && [g][..0] == [] && root in [root];
    assert Level(p, g, [], {}) == Found([], {});
  }

  lemma NoMarks(es: Edges)
    ensures Closed(es, {})
  {
  }

  /** With a single GEP on the trace: the matching GEPs below the root. */
  lemma UnrollOne(p: Program, g: Value, root: Value)
    requires p.WellFormed() && IsGep(p, g)
    ensures Unroll(p, [g], {root}, {}) == Matching(p, g, GepsBelow(p, root))
  {
    hide Program.WellFormed, GepUsers, ReachSet, Matching, SearchesTo;
    var reached := ReachSet(GepLinks(p), {root});
    assert reached - {} == reached;
    assert [g][..0] == [] && [g][0] == g;
  }

  /** With one GEP on the trace, the marked GEP is among the references exactly if it can be found below
      the root, and whatever else is there looks the same and can be found from the same root. */
  lemma MarkedGepKept(p: Program, t: seq<Value>, root: Value, g: Value)
    requires p.WellFormed() && ScanRoot(p, t) == Some(root) && ScanGeps(p, t) == [g]
    ensures g in Refs(p, t) <==> g in GepsBelow(p, root)
    ensures forall r :: r in Refs(p, t) <==>
              IsGep(p, g) && IsGep(p, r) && GepsEqual(p, g, r, root, root) && r in GepsBelow(p, root)
  {
    hide ReachSet, GepUsers, Program.WellFormed, SearchesTo;
    ScanGepsAreGeps(p, t);
    assert g in ScanGeps(p, t);
    UnrollOne(p, g, root);
    GepUsersAreGeps(p, ReachSet(GepLinks(p), {root}));
    forall r | IsGep(p, r) ensures GepsEqual(p, g, r, root, root) == GepsEqual(p, g, r, g, g) {
      RootsImmaterial(p, g, r, root);
    }
    GepsReflexive(p, g, root);
  }

  /** Read off the module, the references then are exactly the GEPs found below the root with as many indices,
      each equal to the marked GEP's at its position. */
  lemma OneLevelReferences(p: Program, t: seq<Value>, root: Value, g: Value, r: Value)
    requires p.WellFormed() && ScanRoot(p, t) == Some(root) && ScanGeps(p, t) == [g]
    ensures g in p.kinds && p.kinds[g].Gep?
    ensures r in Refs(p, t) <==>
              && r in GepsBelow(p, root) && r in p.kinds && p.kinds[r].Gep?
              && var ig, ir := p.kinds[g].indices, p.kinds[r].indices;
              && |ig| == |ir|
              && forall i :: 0 <= i < |ig| ==>
                   ig[i] in p.kinds && ir[i] in p.kinds && IndicesEqual(p, ig[i], ir[i])
  {
    hide GepsBelow, Program.WellFormed, IndicesEqual, Refs;
    ScanGepsAreGeps(p, t);
    assert g in ScanGeps(p, t);
    MarkedGepKept(p, t, root, g);
    GepIndicesStay(p, g);
    if IsGep(p, r) { GepIndicesStay(p, r); }
  }

  /** In a nest of any depth, every reference looks like the marked GEP. */
  lemma {:induction false} UnrollAlike(p: Program, traceGeps: seq<Value>, roots: set<Value>, visited: set<Value>)
    requires p.WellFormed() && traceGeps != [] && forall g :: g in traceGeps ==> IsGep(p, g)
    ensures forall r :: r in Unroll(p, traceGeps, roots, visited) ==>
              IsGep(p, traceGeps[0]) && IsGep(p, r) && GepsEqual(p, traceGeps[0], r, r, r)
    decreases |traceGeps|
  {
    hide ReachSet, GepUsers, Program.WellFormed, SearchesTo, GepsEqual;
    var k := |traceGeps| - 1;
    assert traceGeps[k] in traceGeps && traceGeps[0] in traceGeps;
    var reached := ReachSet(GepLinks(p), roots);
    var next := Matching(p, traceGeps[k], GepUsers(p, reached - visited));
    if k > 0 {
      UnrollAlike(p, traceGeps[..k], next, visited + reached);
    } else {
      assert traceGeps[..0] == [];
      forall r | r in next ensures GepsEqual(p, traceGeps[0], r, r, r) {
        RootsImmaterial(p, traceGeps[0], r, r);
      }
    }
  }

  /** A reference found through GEPs has as many indices as the marked GEP, the first on the trace, and where one
      of the two has a constant index, a field of a structure, so has the other, the same one. */
  lemma ReferencesShareConstants(p: Program, t: seq<Value>, r: Value)
    requires p.WellFormed() && ScanGeps(p, t) != [] && r in RefList(p, t)
    ensures var g := ScanGeps(p, t)[0];
            && g in p.kinds && p.kinds[g].Gep? && r in p.kinds && p.kinds[r].Gep?
            && var ig, ir := p.kinds[g].indices, p.kinds[r].indices;
            && |ig| == |ir|
            && forall i :: 0 <= i < |ig| && (p.IsConstant(ig[i]) || p.IsConstant(ir[i])) ==> ig[i] == ir[i]
  {
    hide Program.WellFormed, Unroll, RefList, IndicesEqual, Program.IsConstant;
    RefListMeans(p, t);
    ScanGepsAreGeps(p, t);
    assert r in Members(RefList(p, t));
    UnrollAlike(p, ScanGeps(p, t), {ScanRoot(p, t).value}, {});
    var g := ScanGeps(p, t)[0];
    var ig, ir := p.kinds[g].indices, p.kinds[r].indices;
    GepIndicesStay(p, g);
    GepIndicesStay(p, r);
    forall i | 0 <= i < |ig| && (p.IsConstant(ig[i]) || p.IsConstant(ir[i])) ensures ig[i] == ir[i] {
      assert ig[i] in ig && ir[i] in ir;
      IndicesEqualIff(p, ig[i], ir[i]);
    }
  }

  /** With two GEPs on the trace, exactly: the inner one is kept if and only if it is used by a value that
      look-alikes of the outer one reach and the root itself does not. */
  lemma TwoLevelsKept(p: Program, inner: Value, outer: Value, root: Value)
    requires p.WellFormed() && IsGep(p, inner) && IsGep(p, outer)
    ensures inner in Unroll(p, [inner, outer], {root}, {}) <==>
            exists v :: v in ReachSet(GepLinks(p), Matching(p, outer, GepsBelow(p, root))) &&
                        v !in ReachSet(GepLinks(p), {root}) && inner in p.UsersOf(v)
  {
    hide ReachSet, Program.WellFormed, SearchesTo, GepsEqual;
    var links, gs := GepLinks(p), [inner, outer];
    var r1 := ReachSet(links, {root});
    var outers := Matching(p, outer, GepsBelow(p, root));
    var r2 := ReachSet(links, outers);
    assert r1 - {} == r1 && {} + r1 == r1;
    assert gs[..1] == [inner] && gs[1] == outer && gs[0] == inner && [inner][..0] == [] && [inner][0] == inner;
    GepsReflexive(p, inner, inner);
    GepUserIff(p, r2 - r1, inner);
    assert Unroll(p, gs, {root}, {}) == Unroll(p, [inner], outers, r1);
    assert Unroll(p, [inner], outers, r1) == Matching(p, inner, GepUsers(p, r2 - r1));
  }

  /** All GEPs of the module that look like g. */
  ghost function LookAlikes(p: Program, g: Value): set<Value>
    requires p.WellFormed() && IsGep(p, g)
  {
    Matching(p, g, p.kinds.Keys)
  }

  /** The look-alikes of the GEPs of a trace that are further out than the one at k, and the root. */
  ghost function Outside(p: Program, gs: seq<Value>, root: Value, k: nat): set<Value>
    requires p.WellFormed() && forall g :: g in gs ==> IsGep(p, g)
  {
    {root} + set m, x | k < m < |gs| && gs[m] in gs && x in LookAlikes(p, gs[m]) :: x
  }

  /** The next GEP further out, or the root. */
  function FurtherOut(gs: seq<Value>, root: Value, k: nat): Value {
    if k + 1 < |gs| then gs[k + 1] else root
  }

  /** Each GEP of the nest can be found below the one further out, the outermost below the root. */
  ghost predicate Nested(p: Program, gs: seq<Value>, root: Value) {
    forall k :: 0 <= k < |gs| ==> gs[k] in GepsBelow(p, FurtherOut(gs, root, k))
  }

  /** What a GEP of the nest leads to is out of reach from the root and from look-alikes further out. */
  ghost predicate Apart(p: Program, gs: seq<Value>, root: Value)
    requires p.WellFormed() && forall g :: g in gs ==> IsGep(p, g)
  {
    forall k :: 0 < k < |gs| ==>
      ReachSet(GepLinks(p), {gs[k]}) !! ReachSet(GepLinks(p), Outside(p, gs, root, k))
  }

  /** A nest of any depth keeps its innermost GEP if its levels are nested and apart from each other. */
  lemma NestKept(p: Program, gs: seq<Value>, root: Value)
    requires p.WellFormed() && gs != [] && forall g :: g in gs ==> IsGep(p, g)
    requires Nested(p, gs, root) && Apart(p, gs, root)
    ensures gs[0] in Unroll(p, gs, {root}, {})
  {
    hide Program.WellFormed, Unroll;
    assert gs[..|gs|] == gs;
    NestLevel(p, gs, root, |gs|, {root}, {});
  }

  lemma {:induction false} NestLevel(p: Program, gs: seq<Value>, root: Value, k: nat, roots: set<Value>,
                                     visited: set<Value>)
    requires p.WellFormed() && 0 < k <= |gs| && forall g :: g in gs ==> IsGep(p, g)
    requires Nested(p, gs, root) && Apart(p, gs, root)
    requires if k == |gs| then roots == {root} && visited == {}
             else gs[k] in gs && gs[k] in roots && roots <= LookAlikes(p, gs[k]) &&
                  visited <= ReachSet(GepLinks(p), Outside(p, gs, root, k))
    ensures gs[0] in Unroll(p, gs[..k], roots, visited)
    decreases k
  {
    hide Program.WellFormed, ReachSet, GepUsers, SearchesTo, GepsEqual;
    var links, from := GepLinks(p), FurtherOut(gs, root, k - 1);
    var g := gs[k - 1];
    assert g in gs && gs[..k][k - 1] == g && gs[..k][..k - 1] == gs[..k - 1];
    var reached := ReachSet(links, roots);
    ReachSetMono(links, links, {from}, roots);
    assert g in GepsBelow(p, from);
    assert ReachSet(links, {from}) !! visited;
    GepUsersMono(p, ReachSet(links, {from}), reached - visited);
    assert g in GepUsers(p, reached - visited);
    GepsReflexive(p, g, g);
    var next := Matching(p, g, GepUsers(p, reached - visited));
    assert g in next && next <= LookAlikes(p, g);
    assert Unroll(p, gs[..k], roots, visited) == Unroll(p, gs[..k - 1], next, visited + reached);
    if k == 1 {
      assert gs[..0] == [];
    } else {
      OutsideGrows(p, gs, root, k, roots);
      ReachSetMono(links, links, roots, Outside(p, gs, root, k - 1));
      if k < |gs| { ReachSetMono(links, links, Outside(p, gs, root, k), Outside(p, gs, root, k - 1)); }
      NestLevel(p, gs, root, k - 1, next, visited + reached);
    }
  }

  lemma GepUsersMono(p: Program, s: set<Value>, t: set<Value>)
    requires s <= t
    ensures GepUsers(p, s) <= GepUsers(p, t)
  {
  }

  lemma OutsideGrows(p: Program, gs: seq<Value>, root: Value, k: nat, roots: set<Value>)
    requires p.WellFormed() && 0 < k <= |gs| && forall g :: g in gs ==> IsGep(p, g)
    requires if k == |gs| then roots == {root} else gs[k] in gs && roots <= LookAlikes(p, gs[k])
    ensures roots <= Outside(p, gs, root, k - 1) && Outside(p, gs, root, k) <= Outside(p, gs, root, k - 1)
  {
    hide Program.WellFormed, LookAlikes;
    forall x | x in roots ensures x in Outside(p, gs, root, k - 1) {
      if k < |gs| { assert x in LookAlikes(p, gs[k]); }
    }
  }

  /** The references of a marked value: those of all its backward traces. */
  ghost function References(p: Program, v: Value): set<Value>
    requires p.WellFormed() && v in p.kinds
  {
    set t, r | t in BackTraces(p, v) && r in Refs(p, t) :: r
  }

  /** The index comparisons made for v come to an end: what the code needs to terminate. */
  ghost predicate VariableSettled(p: Program, v: Value)
    requires p.WellFormed() && v in p.kinds
  {
    forall t :: t in BackTraces(p, v) ==> TraceSettled(p, t)
  }

  ghost predicate AllSettled(p: Program, vars: set<Value>)
    requires p.WellFormed()
  {
    forall v :: v in vars && v in p.kinds ==> VariableSettled(p, v)
  }
}
