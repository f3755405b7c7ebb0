/**
 Finite directed graphs over values: step-counted reachability, the set reachable from a set of
 sources, and the argument that turns "what a depth-first search leaves behind" into
 "exactly the reachable set".
 */
module Reachability {
  /** The address of an llvm::Value. Only its identity matters, and the order std::map iterates in. */
  type Value = int

  type Edges = set<(Value, Value)>

  /** There is a path of exactly n edges from a to b. */
  ghost predicate ReachesIn(es: Edges, a: Value, b: Value, n: nat)
    decreases n, 1
  {
    if n == 0 then a == b else LastEdge(es, a, b, n)
  }

  /** Such a path has a last edge: a predicate of its own, so that paths are not walked back unasked. */
  ghost predicate LastEdge(es: Edges, a: Value, b: Value, n: nat)
    requires n > 0
    decreases n, 0
  {
    exists c :: (c, b) in es && ReachesIn(es, a, c, n - 1)
  }

  ghost predicate Reaches(es: Edges, a: Value, b: Value) {
    exists n: nat :: ReachesIn(es, a, b, n)
  }

  ghost predicate Closed(es: Edges, s: set<Value>) {
    forall a, b {:trigger (a, b) in es} :: (a, b) in es && a in s ==> b in s
  }

  /** The ends of the edges. Recursive, so that what is known of a target is TargetSource and no more. */
  ghost function Targets(es: Edges): (r: set<Value>)
    ensures forall a, b :: (a, b) in es ==> b in r
    decreases |es|
  {
    if es == {} then {} else var e :| e in es; {e.1} + Targets(es - {e})
  }

  lemma {:induction false} TargetSource(es: Edges, b: Value) returns (a: Value)
    requires b in Targets(es)
    ensures (a, b) in es
    decreases |es|
  {
    var e :| e in es && Targets(es) == {e.1} + Targets(es - {e});
    var (c, d) := e;
    if e.1 == b { a := e.0; } else { a := TargetSource(es - {e}, b); }
  }

  lemma TargetsWithin(es: Edges, s: set<Value>)
    requires forall a, b :: (a, b) in es ==> b in s
    ensures Targets(es) <= s
  {
    forall b | b in Targets(es) ensures b in s { var a := TargetSource(es, b); }
  }

  lemma TargetsMono(es: Edges, es': Edges)
    requires es <= es'
    ensures Targets(es) <= Targets(es')
  {
    TargetsWithin(es, Targets(es'));
  }

  lemma SingleTarget(a: Value, b: Value)
    ensures Targets({(a, b)}) == {b}
  {
    assert (a, b) in {(a, b)};
  }

  /** The edges of es that leave s. */
  ghost function Out(es: Edges, s: set<Value>): Edges {
    set e | e in es && e.0 in s
  }

  lemma OutUnion(es: Edges, s: set<Value>, t: set<Value>)
    ensures Out(es, s + t) == Out(es, s) + Out(es, t)
  {
  }

  lemma TargetsUnion(es: Edges, es': Edges)
    ensures Targets(es + es') == Targets(es) + Targets(es')
  {
    TargetsMono(es, es + es');
    TargetsMono(es', es + es');
    TargetsWithin(es + es', Targets(es) + Targets(es'));
  }

  lemma ClosedTargets(es: Edges, s: set<Value>)
    requires Closed(es, s)
    ensures Targets(Out(es, s)) <= s
  {
    TargetsWithin(Out(es, s), s);
  }

  /** The edges from v to each of ws. */
  ghost function Star(v: Value, ws: seq<Value>): (r: Edges)
    ensures forall a, b :: (a, b) in r <==> a == v && b in ws
  {
    set w | w in ws :: (v, w)
  }

  ghost function Flip(es: Edges): (r: Edges)
    ensures forall a, b :: (a, b) in r <==> (b, a) in es
  {
    var r := set e | e in es :: (e.1, e.0);
    assert forall a, b :: (b, a) in es ==> ((b, a).1, (b, a).0) in r;
    r
  }

  ghost function ReachSet(es: Edges, from: set<Value>): set<Value> {
    set b | b in from + Targets(es) && exists a :: a in from && Reaches(es, a, b)
  }

  lemma ReachesSelf(es: Edges, a: Value)
    ensures Reaches(es, a, a)
  {
    assert ReachesIn(es, a, a, 0);
  }

  lemma ReachesEdge(es: Edges, a: Value, b: Value, c: Value)
    requires Reaches(es, a, b) && (b, c) in es
    ensures Reaches(es, a, c)
  {
    var n: nat :| ReachesIn(es, a, b, n);
    assert ReachesIn(es, a, c, n + 1);
  }

  lemma {:induction false} ReachesInConcat(es: Edges, a: Value, b: Value, c: Value, m: nat, n: nat)
    requires ReachesIn(es, a, b, m) && ReachesIn(es, b, c, n)
    ensures ReachesIn(es, a, c, m + n)
    decreases n
  {
    if n != 0 {
      var d :| (d, c) in es && ReachesIn(es, b, d, n - 1);
      ReachesInConcat(es, a, b, d, m, n - 1);
    }
  }

  lemma ReachesTrans(es: Edges, a: Value, b: Value, c: Value)
    requires Reaches(es, a, b) && Reaches(es, b, c)
    ensures Reaches(es, a, c)
  {
    var m: nat :| ReachesIn(es, a, b, m);
    var n: nat :| ReachesIn(es, b, c, n);
    ReachesInConcat(es, a, b, c, m, n);
  }

  /** A path may be extended at its front, too. */
  lemma ReachesInPrepend(es: Edges, a: Value, b: Value, c: Value, n: nat)
    requires (a, b) in es && ReachesIn(es, b, c, n)
    ensures ReachesIn(es, a, c, n + 1)
  {
    assert ReachesIn(es, a, a, 0);
    assert ReachesIn(es, a, b, 1);
    ReachesInConcat(es, a, b, c, 1, n);
  }

  lemma {:induction false} ReachesInFlip(es: Edges, a: Value, b: Value, n: nat)
    requires ReachesIn(es, a, b, n)
    ensures ReachesIn(Flip(es), b, a, n)
    decreases n
  {
    if n != 0 {
      var c :| (c, b) in es && ReachesIn(es, a, c, n - 1);
      ReachesInFlip(es, a, c, n - 1);
      ReachesInPrepend(Flip(es), b, c, a, n - 1);
    }
  }

  lemma {:induction false} ClosedKeeps(es: Edges, s: set<Value>, a: Value, b: Value, n: nat)
    requires Closed(es, s) && a in s && ReachesIn(es, a, b, n)
    ensures b in s
    decreases n
  {
    if n != 0 {
      var c :| (c, b) in es && ReachesIn(es, a, c, n - 1);
      ClosedKeeps(es, s, a, c, n - 1);
    }
  }

  lemma InReachSet(es: Edges, from: set<Value>, a: Value, b: Value)
    requires a in from && Reaches(es, a, b)
    ensures b in ReachSet(es, from)
  {
    var n: nat :| ReachesIn(es, a, b, n);
    if n != 0 {
      assert LastEdge(es, a, b, n);
      var c :| (c, b) in es && ReachesIn(es, a, c, n - 1);
      assert b in Targets(es);
    }
  }

  /** ReachSet contains its sources and is closed: half of "least closed superset". */
  lemma ReachSetClosed(es: Edges, from: set<Value>)
    ensures from <= ReachSet(es, from) && Closed(es, ReachSet(es, from))
  {
    forall a | a in from ensures a in ReachSet(es, from) {
      ReachesSelf(es, a);
      InReachSet(es, from, a, a);
    }
    forall a, b | (a, b) in es && a in ReachSet(es, from) ensures b in ReachSet(es, from) {
      var s :| s in from && Reaches(es, s, a);
      ReachesEdge(es, s, a, b);
      InReachSet(es, from, s, b);
    }
  }

  /** ... and it is below every closed superset: the other half. */
  lemma ReachSetLeast(es: Edges, from: set<Value>, s: set<Value>)
    requires from <= s && Closed(es, s)
    ensures ReachSet(es, from) <= s
  {
    forall b | b in ReachSet(es, from) ensures b in s {
      var a :| a in from && Reaches(es, a, b);
      var n: nat :| ReachesIn(es, a, b, n);
      ClosedKeeps(es, s, a, b, n);
    }
  }

  lemma ReachSetMono(es: Edges, es': Edges, from: set<Value>, from': set<Value>)
    requires es <= es' && from <= from'
    ensures ReachSet(es, from) <= ReachSet(es', from')
  {
    ReachSetClosed(es', from');
    ReachSetLeast(es, from, ReachSet(es', from'));
  }

  lemma ReachSetUnion(es: Edges, s: set<Value>, t: set<Value>)
    ensures ReachSet(es, s + t) == ReachSet(es, s) + ReachSet(es, t)
  {
    var r, u := ReachSet(es, s), ReachSet(es, t);
    assert s + t <= r + u && Closed(es, r) && Closed(es, u) by {
      ReachSetClosed(es, s);
      ReachSetClosed(es, t);
    }
    ClosedUnion(es, r, u);
    ReachSetLeast(es, s + t, r + u);
    ReachSetMono(es, es, s, s + t);
    ReachSetMono(es, es, t, s + t);
  }

  lemma ClosedUnion(es: Edges, s: set<Value>, t: set<Value>)
    requires Closed(es, s) && Closed(es, t)
    ensures Closed(es, s + t)
  {
  }

  lemma LastStep(es: Edges, from: set<Value>, b: Value) returns (c: Value)
    requires b in ReachSet(es, from) && b !in from
    ensures (c, b) in es && c in ReachSet(es, from)
  {
    var a :| a in from && Reaches(es, a, b);
    var n: nat :| ReachesIn(es, a, b, n);
    assert LastEdge(es, a, b, n);
    c :| (c, b) in es && ReachesIn(es, a, c, n - 1);
    InReachSet(es, from, a, c);
  }

  /** Beyond its sources, the reachable set is what its own edges lead to. */
  lemma ReachSetUnfold(es: Edges, from: set<Value>)
    ensures ReachSet(es, from) == from + Targets(Out(es, ReachSet(es, from)))
  {
    var r := ReachSet(es, from);
    assert from <= r && Targets(Out(es, r)) <= r by {
      ReachSetClosed(es, from);
      ClosedTargets(es, r);
    }
    forall b | b in r && b !in from ensures b in Targets(Out(es, r)) {
      var c := LastStep(es, from, b);
      assert (c, b) in Out(es, r);
    }
  }

  lemma ReachSetEmpty(es: Edges)
    ensures ReachSet(es, {}) == {}
  {
  }

  lemma ReachSetOfClosed(es: Edges, s: set<Value>)
    requires Closed(es, s)
    ensures ReachSet(es, s) == s
  {
    ReachSetClosed(es, s);
    ReachSetLeast(es, s, s);
  }

  /** What a depth-first search from v has done when it returns: it marked v, marked nothing that is
      not reachable from v, and left no newly marked node with an unmarked successor. */
  ghost predicate Searched(es: Edges, v: Value, before: set<Value>, after: set<Value>) {
    && before <= after
    && v in after
    && (forall x :: x in after && x !in before ==> Reaches(es, v, x))
    && (forall x, y :: (x, y) in es && x in after && x !in before ==> y in after)
  }

  /** A search from a successor c of v only marks what v reaches. */
  lemma ReachesAllVia(es: Edges, v: Value, c: Value, before: set<Value>, after: set<Value>)
    requires (v, c) in es && Searched(es, c, before, after)
    ensures forall x :: x in after && x !in before ==> Reaches(es, v, x)
  {
    ReachesSelf(es, v);
    ReachesEdge(es, v, v, c);
    forall x | x in after && x !in before ensures Reaches(es, v, x) {
      ReachesTrans(es, v, c, x);
    }
  }

  /** From a closed set of marks, such a search marks exactly what v reaches. */
  lemma SearchExact(es: Edges, v: Value, before: set<Value>, after: set<Value>)
    requires Closed(es, before) && Searched(es, v, before, after)
    ensures after == before + ReachSet(es, {v}) && Closed(es, after)
  {
    assert Closed(es, after);
    ReachSetLeast(es, {v}, after);
    forall x | x in after && x !in before ensures x in ReachSet(es, {v}) {
      InReachSet(es, {v}, v, x);
    }
  }

  /** A search from v that has gone on from some of the successors of v. */
  ghost predicate PartSearched(es: Edges, v: Value, before: set<Value>, after: set<Value>) {
    && before + {v} <= after
    && (forall x :: x in after && x !in before ==> Reaches(es, v, x))
    && (forall x, y :: (x, y) in es && x in after && x !in before && x != v ==> y in after)
  }

  lemma SearchStarts(es: Edges, v: Value, before: set<Value>)
    ensures PartSearched(es, v, before, before + {v})
  {
    ReachesSelf(es, v);
  }

  lemma SearchGoesOn(es: Edges, v: Value, c: Value, before: set<Value>, mid: set<Value>, after: set<Value>)
    requires PartSearched(es, v, before, mid) && (v, c) in es && Searched(es, c, mid, after)
    ensures PartSearched(es, v, before, after) && mid <= after && c in after
  {
    hide Reaches;
    ReachesAllVia(es, v, c, mid, after);
  }

  lemma SearchEnds(es: Edges, v: Value, before: set<Value>, after: set<Value>)
    requires PartSearched(es, v, before, after) && v !in before && forall y :: (v, y) in es ==> y in after
    ensures Searched(es, v, before, after)
  {
  }
}
