/** The search for GEPs below a value, and the comparison of the GEPs it finds. */
module GepSearch {
  import opened Collections
  import opened Reachability
  import opened IR
  import opened ForwardTracing
  import opened IndexComparison
  import opened IndexTermination

  /** Where the search for GEPs below v continues from its user u, in order. */
  function Onward(p: Program, v: Value, u: Value): seq<Value> {
    match p.KindOf(u)
    case Gep(_, _, _) => []
    case Store(_, _) => p.LoadsOf(u)
    case Call(_, _, _) => CallArgs(p, u, v)
    case _ => [u]
  }

  ghost predicate SearchesTo(p: Program, v: Value, w: Value) {
    exists u :: u in p.UsersOf(v) && w in Onward(p, v, u)
  }

  /** The links that the search for GEPs follows. */
  ghost function GepLinks(p: Program): (r: Edges)
    ensures forall v, w :: (v, w) in r <==> v in p.kinds && w in p.kinds && SearchesTo(p, v, w)
  {
    set v, w | v in p.kinds && w in p.kinds && SearchesTo(p, v, w) :: (v, w)
  }

  /** Read off the module: the search goes on from a value to each user that is no GEP, store or call, through a
      store to the loads that read it, and through a call to the formals that the value is passed as. */
  lemma GepLinksAre(p: Program, v: Value, w: Value)
    ensures (v, w) in GepLinks(p) <==>
              && v in p.kinds && w in p.kinds
              && exists u ::
                   && u in p.UsersOf(v)
                   && (|| (p.KindOf(u).Store? && w in p.LoadsOf(u))
                       || (p.KindOf(u).Call? && w in p.FormalsFor(u, v))
                       || (!p.KindOf(u).Gep? && !p.KindOf(u).Store? && !p.KindOf(u).Call? && w == u))
  {
    hide Program.FormalsFor, CallArgs;
    forall u | u in p.UsersOf(v)
      ensures w in Onward(p, v, u) <==>
                || (p.KindOf(u).Store? && w in p.LoadsOf(u))
                || (p.KindOf(u).Call? && w in p.FormalsFor(u, v))
                || (!p.KindOf(u).Gep? && !p.KindOf(u).Store? && !p.KindOf(u).Call? && w == u)
    {
      if p.IsCall(u) { CallArgsMean(p, u, v); }
    }
  }

  /** The GEPs that use one of vs directly. */
  ghost function GepUsers(p: Program, vs: set<Value>): set<Value> {
    set v, u | v in vs && u in p.UsersOf(v) && p.KindOf(u).Gep? :: u
  }

  ghost function GepsAmong(p: Program, us: seq<Value>): set<Value> {
    set u | u in us && p.KindOf(u).Gep?
  }

  /** All GEPs that can be found below root. */
  ghost function GepsBelow(p: Program, root: Value): set<Value> {
    GepUsers(p, ReachSet(GepLinks(p), {root}))
  }

  lemma GepUserIff(p: Program, s: set<Value>, g: Value)
    ensures g in GepUsers(p, s) <==> p.KindOf(g).Gep? && exists v :: v in s && g in p.UsersOf(v)
  {
  }

  lemma GepUsersUnion(p: Program, s: set<Value>, t: set<Value>)
    ensures GepUsers(p, s + t) == GepUsers(p, s) + GepUsers(p, t)
  {
  }

  lemma GepUsersOne(p: Program, v: Value)
    ensures GepUsers(p, {v}) == GepsAmong(p, p.UsersOf(v))
  {
  }

  lemma LinksStay(p: Program, v: Value, u: Value)
    requires p.WellFormed() && v in p.kinds && !p.KindOf(v).CodePointer? && u in p.UsersOf(v)
    ensures forall w :: w in Onward(p, v, u) ==>
              w in p.kinds && !p.KindOf(w).CodePointer? && !p.KindOf(w).Gep? && (v, w) in GepLinks(p)
  {
    forall w | w in Onward(p, v, u)
      ensures w in p.kinds && !p.KindOf(w).CodePointer? && !p.KindOf(w).Gep? && (v, w) in GepLinks(p)
    {
      match p.KindOf(u)
      case Call(_, _, _) =>
        CallArgsMean(p, u, v);
        FormalIsArgument(p, u, w);
      case _ =>
    }
  }

  /** The search never passes through a GEP: every value it reaches beyond its start is something else. */
  lemma NeverThroughGep(p: Program, root: Value, v: Value)
    requires p.WellFormed() && v in ReachSet(GepLinks(p), {root}) && v != root && !p.KindOf(root).CodePointer?
    ensures !p.KindOf(v).Gep? && !p.KindOf(v).CodePointer?
  {
    var n: nat :| ReachesIn(GepLinks(p), root, v, n);
    LinkedIsNoGep(p, root, v, n);
  }

  lemma {:induction false} LinkedIsNoGep(p: Program, root: Value, v: Value, n: nat)
    requires p.WellFormed() && !p.KindOf(root).CodePointer? && ReachesIn(GepLinks(p), root, v, n)
    ensures n > 0 ==> !p.KindOf(v).Gep?
    ensures !p.KindOf(v).CodePointer?
    decreases n
  {
    hide Program.WellFormed, SearchesTo, Program.KindOf;
    if n > 0 {
      var c :| (c, v) in GepLinks(p) && ReachesIn(GepLinks(p), root, c, n - 1);
      LinkedIsNoGep(p, root, c, n - 1);
      LinkTargetIsNoGep(p, c, v);
    }
  }

  lemma LinkTargetIsNoGep(p: Program, c: Value, v: Value)
    requires p.WellFormed() && !p.KindOf(c).CodePointer? && (c, v) in GepLinks(p)
    ensures !p.KindOf(v).Gep? && !p.KindOf(v).CodePointer?
  {
    hide Program.WellFormed, Onward;
    var u :| u in p.UsersOf(c) && v in Onward(p, c, u);
    LinksStay(p, c, u);
  }

  // ---------- the search ----------

  /** The GEPs found so far, in the order they were found, and the values visited. */
  datatype Found = Found(geps: seq<Value>, visited: set<Value>)

  /** What findGEPs finds from v: each value is visited once, and a GEP user ends the search on its branch. */
  function Search(p: Program, v: Value, f: Found): (r: Found)
    requires p.WellFormed() && v in p.kinds && !p.KindOf(v).CodePointer? && f.visited <= p.kinds.Keys
    ensures f.visited <= r.visited <= p.kinds.Keys
    decreases p.kinds.Keys - f.visited, 0, 0
  {
    if v in f.visited then f else SearchUsers(p, v, p.UsersOf(v), f.(visited := f.visited + {v}))
  }

  function SearchUsers(p: Program, v: Value, us: seq<Value>, f: Found): (r: Found)
    requires p.WellFormed() && v in p.kinds && !p.KindOf(v).CodePointer? && f.visited <= p.kinds.Keys
    requires forall u :: u in us ==> u in p.UsersOf(v)
    ensures f.visited <= r.visited <= p.kinds.Keys
    decreases p.kinds.Keys - f.visited, 2, |us|
  {
    if us == [] then f
    else if p.KindOf(us[0]).Gep? then SearchUsers(p, v, us[1..], f.(geps := f.geps + [us[0]]))
    else
      LinksStay(p, v, us[0]);
      SearchUsers(p, v, us[1..], SearchAll(p, Onward(p, v, us[0]), f))
  }

  function SearchAll(p: Program, ws: seq<Value>, f: Found): (r: Found)
    requires p.WellFormed() && f.visited <= p.kinds.Keys
    requires forall w :: w in ws ==> w in p.kinds && !p.KindOf(w).CodePointer?
    ensures f.visited <= r.visited <= p.kinds.Keys
    decreases p.kinds.Keys - f.visited, 1, |ws|
  {
    if ws == [] then f else SearchAll(p, ws[1..], Search(p, ws[0], f))
  }

  /** What a search from v through some of its users has done. */
  ghost predicate Explored(p: Program, v: Value, before: set<Value>, after: set<Value>) {
    && before <= after <= p.kinds.Keys
    && (forall x :: x in after && x !in before ==> Reaches(GepLinks(p), v, x))
    && (forall x, y :: (x, y) in GepLinks(p) && x in after && x !in before ==> y in after)
  }

  /** The search visits what v reaches past the marks, and finds exactly the GEPs that use what it visits. */
  lemma {:induction false} SearchMeans(p: Program, v: Value, f: Found)
    requires p.WellFormed() && v in p.kinds && !p.KindOf(v).CodePointer? && f.visited <= p.kinds.Keys
    ensures var r := Search(p, v, f);
            && Searched(GepLinks(p), v, f.visited, r.visited)
            && Members(r.geps) == Members(f.geps) + GepUsers(p, r.visited - f.visited)
    decreases p.kinds.Keys - f.visited, 0, 0
  {
    hide Program.WellFormed, Members, GepUsers, Reaches, SearchesTo, Onward, GepsAmong, SearchUsers;
    ReachesSelf(GepLinks(p), v);
    var r := Search(p, v, f);
    if v in f.visited {
      NoGeps(p, r.visited - f.visited);
    } else {
      var marked := f.visited + {v};
      UsersMean(p, v, p.UsersOf(v), f.(visited := marked));
      GepUsersOne(p, v);
      GepUsersUnion(p, r.visited - marked, {v});
      assert (r.visited - marked) + {v} == r.visited - f.visited;
      SearchDone(p, v, f.visited, r.visited);
    }
  }

  lemma {:induction false} UsersMean(p: Program, v: Value, us: seq<Value>, f: Found)
    requires p.WellFormed() && v in p.kinds && !p.KindOf(v).CodePointer? && f.visited <= p.kinds.Keys && v in f.visited
    requires forall u :: u in us ==> u in p.UsersOf(v)
    ensures var r := SearchUsers(p, v, us, f);
            && Explored(p, v, f.visited, r.visited)
            && (forall u, w :: u in us && w in Onward(p, v, u) ==> w in r.visited)
            && Members(r.geps) == Members(f.geps) + GepUsers(p, r.visited - f.visited) + GepsAmong(p, us)
    decreases p.kinds.Keys - f.visited, 2, |us|
  {
    hide Program.WellFormed, Members, GepUsers, Reaches, SearchesTo, Onward, GepsAmong, SearchAll;
    var r := SearchUsers(p, v, us, f);
    if us == [] {
      NoGeps(p, r.visited - f.visited);
    } else {
      var u, rest := us[0], us[1..];
      assert us == [u] + rest;
      GepsAmongCons(p, u, rest);
      if p.KindOf(u).Gep? {
        UsersMean(p, v, rest, f.(geps := f.geps + [u]));
        MembersConcat(f.geps, [u]);
        GepGoesNowhere(p, v, u);
      } else {
        LinksStay(p, v, u);
        AllMean(p, v, u, Onward(p, v, u), f);
        var mid := SearchAll(p, Onward(p, v, u), f);
        UsersMean(p, v, rest, mid);
        ExploredTwice(p, v, f.visited, mid.visited, r.visited);
        GepUsersUnion(p, mid.visited - f.visited, r.visited - mid.visited);
        assert (mid.visited - f.visited) + (r.visited - mid.visited) == r.visited - f.visited;
      }
    }
  }

  lemma {:induction false} AllMean(p: Program, v: Value, u: Value, ws: seq<Value>, f: Found)
    requires p.WellFormed() && v in p.kinds && !p.KindOf(v).CodePointer? && f.visited <= p.kinds.Keys && v in f.visited
    requires u in p.UsersOf(v) && forall w :: w in ws ==> w in Onward(p, v, u)
    requires forall w :: w in ws ==> w in p.kinds && !p.KindOf(w).CodePointer?
    ensures var r := SearchAll(p, ws, f);
            && Explored(p, v, f.visited, r.visited) && (forall w :: w in ws ==> w in r.visited)
            && Members(r.geps) == Members(f.geps) + GepUsers(p, r.visited - f.visited)
    decreases p.kinds.Keys - f.visited, 1, |ws|
  {
    hide Program.WellFormed, Members, GepUsers, Reaches, SearchesTo, Onward, Search;
    var r := SearchAll(p, ws, f);
    if ws == [] {
      NoGeps(p, r.visited - f.visited);
    } else {
      LinksStay(p, v, u);
      assert ws[0] in ws && ws == [ws[0]] + ws[1..];
      SearchMeans(p, ws[0], f);
      var mid := Search(p, ws[0], f);
      AllMean(p, v, u, ws[1..], mid);
      ReachesAllVia(GepLinks(p), v, ws[0], f.visited, mid.visited);
      ExploredTwice(p, v, f.visited, mid.visited, r.visited);
      GepUsersUnion(p, mid.visited - f.visited, r.visited - mid.visited);
      assert (mid.visited - f.visited) + (r.visited - mid.visited) == r.visited - f.visited;
    }
  }

  lemma NoGeps(p: Program, none: set<Value>)
    requires none == {}
    ensures GepUsers(p, none) == {} && GepsAmong(p, []) == {}
  {
  }

  lemma GepsAmongCons(p: Program, u: Value, us: seq<Value>)
    ensures GepsAmong(p, [u] + us) == GepsAmong(p, us) + if p.KindOf(u).Gep? then {u} else {}
    ensures Members([u]) == {u}
  {
  }

  lemma GepGoesNowhere(p: Program, v: Value, u: Value)
    requires p.KindOf(u).Gep?
    ensures Onward(p, v, u) == []
  {
  }

  lemma ExploredTwice(p: Program, v: Value, a: set<Value>, b: set<Value>, c: set<Value>)
    requires Explored(p, v, a, b) && Explored(p, v, b, c)
    ensures Explored(p, v, a, c)
  {
  }

  lemma SearchDone(p: Program, v: Value, visited: set<Value>, after: set<Value>)
    requires v in p.kinds && v !in visited && Explored(p, v, visited + {v}, after)
    requires forall u, w :: u in p.UsersOf(v) && w in Onward(p, v, u) ==> w in after
    ensures Searched(GepLinks(p), v, visited, after)
  {
    ReachesSelf(GepLinks(p), v);
  }

  /** Where the search continues through a user that is no GEP. */
  method NextValues(p: Program, v: Value, u: Value) returns (ws: seq<Value>)
    requires p.WellFormed() && v in p.kinds && !p.KindOf(v).CodePointer? && u in p.UsersOf(v) && !p.KindOf(u).Gep?
    ensures ws == Onward(p, v, u)
  {
    match p.KindOf(u)
    case Store(_, _) => ws := p.LoadsOf(u);
    case Call(_, _, _) => ws := GetCallArgs(p, u, v);
    case _ => ws := [u];
  }

  /** The search as the code runs it, appending to the GEPs found before and to the values visited before. */
  method FindGEPs(p: Program, v: Value, geps: seq<Value>, visited: set<Value>)
    returns (geps': seq<Value>, visited': set<Value>)
    requires p.WellFormed() && v in p.kinds && !p.KindOf(v).CodePointer? && visited <= p.kinds.Keys
    ensures Found(geps', visited') == Search(p, v, Found(geps, visited))
    decreases p.kinds.Keys - visited, 0, 0
  {
    hide Program.WellFormed, Onward, SearchAll;
    geps', visited' := geps, visited;
    if v in visited { return; }
    visited' := visited + {v};
    var users := p.UsersOf(v);
    assert users[0..] == users;
    for i := 0 to |users|
      invariant visited + {v} <= visited' <= p.kinds.Keys
      invariant SearchUsers(p, v, users, Found(geps, visited + {v})) ==
                SearchUsers(p, v, users[i..], Found(geps', visited'))
    {
      var u := users[i];
      assert users[i..][0] == u && users[i..][1..] == users[i + 1..];
      if p.KindOf(u).Gep? {
        geps' := geps' + [u];
      } else {
        LinksStay(p, v, u);
        var ws := NextValues(p, v, u);
        geps', visited' := FindFromAll(p, ws, geps', visited');
      }
    }
  }

  method FindFromAll(p: Program, ws: seq<Value>, geps: seq<Value>, visited: set<Value>)
    returns (geps': seq<Value>, visited': set<Value>)
    requires p.WellFormed() && visited <= p.kinds.Keys
    requires forall w :: w in ws ==> w in p.kinds && !p.KindOf(w).CodePointer?
    ensures Found(geps', visited') == SearchAll(p, ws, Found(geps, visited))
    decreases p.kinds.Keys - visited, 1, |ws|
  {
    hide Program.WellFormed, Search;
    geps', visited' := geps, visited;
    assert ws[0..] == ws;
    for j := 0 to |ws|
      invariant visited <= visited' <= p.kinds.Keys
      invariant SearchAll(p, ws, Found(geps, visited)) == SearchAll(p, ws[j..], Found(geps', visited'))
    {
      assert ws[j] in ws && ws[j..][0] == ws[j] && ws[j..][1..] == ws[j + 1..];
      geps', visited' := FindGEPs(p, ws[j], geps', visited');
    }
  }

  /** A search without marks to start from finds exactly the GEPs below its start: those that use a value which
      the links lead to. */
  lemma FindGEPsExact(p: Program, root: Value)
    requires p.WellFormed() && root in p.kinds && !p.KindOf(root).CodePointer?
    ensures Members(Search(p, root, Found([], {})).geps) == GepsBelow(p, root)
    ensures forall g :: g in Search(p, root, Found([], {})).geps <==>
              p.KindOf(g).Gep? && exists v :: v in ReachSet(GepLinks(p), {root}) && g in p.UsersOf(v)
  {
    hide ReachSet, GepUsers, SearchesTo, Reaches, Program.WellFormed, Search;
    SearchMeans(p, root, Found([], {}));
    var r := Search(p, root, Found([], {}));
    SearchExact(GepLinks(p), root, {}, r.visited);
    assert r.visited - {} == {} + ReachSet(GepLinks(p), {root}) == ReachSet(GepLinks(p), {root});
    assert Members<Value>([]) == {};
    forall g ensures g in r.geps <==>
                       p.KindOf(g).Gep? && exists v :: v in ReachSet(GepLinks(p), {root}) && g in p.UsersOf(v)
    {
      GepUserIff(p, ReachSet(GepLinks(p), {root}), g);
      assert g in r.geps <==> g in Members(r.geps);
    }
  }

  // ---------- look-alikes ----------

  predicate IsGep(p: Program, v: Value) {
    v in p.kinds && p.kinds[v].Gep?
  }

  /** gepsAreEqual returns true for two GEPs with given roots: the same target and look-alike indices. */
  ghost predicate GepsEqual(p: Program, a: Value, b: Value, rootA: Value, rootB: Value)
    requires p.WellFormed() && IsGep(p, a) && IsGep(p, b)
  {
    assert p.WellFormedValue(a) && p.WellFormedValue(b);
    var ia, ib := p.kinds[a].indices, p.kinds[b].indices;
    rootA == rootB && |ia| == |ib| && forall i :: 0 <= i < |ia| ==> IndicesEqual(p, ia[i], ib[i])
  }

  /** The comparison of two GEPs comes to an end: each pair of indices that is compared at all does. */
  ghost predicate GepsReturn(p: Program, a: Value, b: Value)
    requires p.WellFormed() && IsGep(p, a) && IsGep(p, b)
  {
    assert p.WellFormedValue(a) && p.WellFormedValue(b);
    var ia, ib := p.kinds[a].indices, p.kinds[b].indices;
    |ia| == |ib| ==> forall i :: 0 <= i < |ia| ==>
      (forall j :: 0 <= j < i ==> IndicesEqual(p, ia[j], ib[j])) ==> Returns(p, ia[i], ib[i])
  }

  method GepsAreEqual(p: Program, a: Value, b: Value, rootA: Value, rootB: Value) returns (areEqual: bool)
    requires p.WellFormed() && IsGep(p, a) && IsGep(p, b) && (rootA == rootB ==> GepsReturn(p, a, b))
    ensures areEqual == GepsEqual(p, a, b, rootA, rootB)
    ensures var ia, ib := p.kinds[a].indices, p.kinds[b].indices;
            areEqual <==>
              && rootA == rootB && |ia| == |ib|
              && forall i :: 0 <= i < |ia| ==>
                   ia[i] in p.kinds && ib[i] in p.kinds && IndicesEqual(p, ia[i], ib[i])
  {
    hide Program.WellFormed, IndicesEqual, Returns, GepsReturn;
    var ia, ib := p.kinds[a].indices, p.kinds[b].indices;
    GepIndicesStay(p, a);
    GepIndicesStay(p, b);
    areEqual := rootA == rootB;
    areEqual := areEqual && |ia| == |ib|;
    if areEqual {
      for i := 0 to |ia|
        invariant areEqual <==> forall j :: 0 <= j < i ==> IndicesEqual(p, ia[j], ib[j])
      {
        assert ia[i] in ia && ib[i] in ib;
        if areEqual {
          PairReturns(p, a, b, i);
          areEqual := CompareIndices(p, ia[i], ib[i]);
        }
      }
    }
  }

  lemma PairReturns(p: Program, a: Value, b: Value, i: nat)
    requires p.WellFormed() && IsGep(p, a) && IsGep(p, b) && GepsReturn(p, a, b)
    requires |p.kinds[a].indices| == |p.kinds[b].indices| && i < |p.kinds[a].indices|
    requires (forall x :: x in p.kinds[a].indices ==> x in p.kinds)
    requires forall x :: x in p.kinds[b].indices ==> x in p.kinds
    requires forall j :: 0 <= j < i ==> IndicesEqual(p, p.kinds[a].indices[j], p.kinds[b].indices[j])
    ensures Returns(p, p.kinds[a].indices[i], p.kinds[b].indices[i])
  {
    hide IndicesEqual, Returns;
  }

  lemma GepIndicesStay(p: Program, a: Value)
    requires p.WellFormed() && IsGep(p, a)
    ensures forall i :: i in p.kinds[a].indices ==> i in p.kinds
  {
    assert p.WellFormedValue(a);
  }

  lemma GepsReflexive(p: Program, a: Value, root: Value)
    requires p.WellFormed() && IsGep(p, a)
    ensures GepsEqual(p, a, a, root, root)
  {
    hide IndicesEqual;
    GepIndicesStay(p, a);
    forall i | 0 <= i < |p.kinds[a].indices| ensures IndicesEqual(p, p.kinds[a].indices[i], p.kinds[a].indices[i]) {
      assert p.kinds[a].indices[i] in p.kinds[a].indices;
      IndicesReflexive(p, p.kinds[a].indices[i]);
    }
  }

  lemma GepsSymmetric(p: Program, a: Value, b: Value, rootA: Value, rootB: Value)
    requires p.WellFormed() && IsGep(p, a) && IsGep(p, b)
    ensures GepsEqual(p, a, b, rootA, rootB) == GepsEqual(p, b, a, rootB, rootA)
  {
    hide Program.WellFormed, IndicesEqual;
    GepIndicesStay(p, a);
    GepIndicesStay(p, b);
    var ia, ib := p.kinds[a].indices, p.kinds[b].indices;
    if |ia| == |ib| {
      forall i | 0 <= i < |ia| ensures IndicesEqual(p, ia[i], ib[i]) == IndicesEqual(p, ib[i], ia[i]) {
        assert ia[i] in ia && ib[i] in ib;
        IndicesSymmetric(p, ia[i], ib[i]);
      }
    }
  }

  /** The comparison of g with any GEP comes to an end. */
  ghost predicate Settled(p: Program, g: Value)
    requires p.WellFormed()
  {
    IsGep(p, g) && forall gg :: IsGep(p, gg) ==> GepsReturn(p, g, gg)
  }

  /** Constant indices are compared at once. */
  lemma ConstantsSettled(p: Program, g: Value)
    requires p.WellFormed() && IsGep(p, g) && forall i :: i in p.kinds[g].indices ==> p.IsConstant(i)
    ensures Settled(p, g)
  {
    hide Program.WellFormed;
    forall gg | IsGep(p, gg) ensures GepsReturn(p, g, gg) {
      GepIndicesStay(p, g);
      GepIndicesStay(p, gg);
      var ia, ib := p.kinds[g].indices, p.kinds[gg].indices;
      forall i | |ia| == |ib| && 0 <= i < |ia| ensures Returns(p, ia[i], ib[i]) {
        assert ia[i] in ia && ib[i] in ib;
        assert RunIndices(p, ia[i], ib[i], 1).Some?;
      }
    }
  }

  /** It is enough that no cycle lies below the indices of g, as dominance gives for code that can be reached. */
  lemma AcyclicSettled(p: Program, g: Value)
    requires p.WellFormed() && IsGep(p, g)
    requires forall i, v :: i in p.kinds[g].indices && v in Cone(p, i) ==> !OnCycle(LookEdges(p), v)
    ensures Settled(p, g)
  {
    hide Program.WellFormed, IndicesEqual, Returns, Cone, OnCycle;
    forall gg | IsGep(p, gg) ensures GepsReturn(p, g, gg) {
      GepIndicesStay(p, g);
      GepIndicesStay(p, gg);
      var ia, ib := p.kinds[g].indices, p.kinds[gg].indices;
      forall i | |ia| == |ib| && 0 <= i < |ia| ensures Returns(p, ia[i], ib[i]) {
        assert ia[i] in ia && ib[i] in ib;
        AcyclicReturns(p, ia[i], ib[i]);
      }
    }
  }
}
