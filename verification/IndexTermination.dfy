/** When the comparison of indices terminates: the exact condition, and conditions that are enough. */
module IndexTermination {
  import opened Collections
  import opened Reachability
  import opened IR
  import opened BackwardTracing
  import opened IndexComparison

  // ---------- the exact condition ----------

  /** Two values that are compared. */
  datatype Pair = Pair(left: Value, right: Value)

  /** Comparing the traces ta and tb gets as far as position i, from their tails, and goes on to compare the
      operands r there: the left ones, or the right ones if the left ones compare equal. */
  ghost predicate CallsAt(p: Program, ta: seq<Value>, tb: seq<Value>, i: nat, r: Pair)
    requires p.WellFormed() && |ta| == |tb|
    requires (forall x :: x in ta ==> x in p.kinds) && (forall x :: x in tb ==> x in p.kinds)
  {
    && i < |ta| && ta[i] in p.kinds && tb[i] in p.kinds && ta[i] != tb[i]
    && (forall j :: i < j < |ta| ==> ta[j] == tb[j] || NaiveEqual(p, ta[j], tb[j]))
    && match (p.kinds[ta[i]], p.kinds[tb[i]]) {
         case (Binary(opA, la, ra, _), Binary(opB, lb, rb, _)) =>
           assert p.WellFormedValue(ta[i]) && p.WellFormedValue(tb[i]);
           opA == opB && (r == Pair(la, lb) || (IndicesEqual(p, la, lb) && r == Pair(ra, rb)))
         case _ => false
       }
  }

  ghost predicate Known(p: Program, q: Pair) {
    q.left in p.kinds && q.right in p.kinds
  }

  /** Comparing the pair q gets as far as comparing the pair r. */
  ghost predicate Calls(p: Program, q: Pair, r: Pair)
    requires p.WellFormed() && Known(p, q)
  {
    TracesKnown(p, q);
    var ta, tb := FullTrace(p, Arithmetic, q.left), FullTrace(p, Arithmetic, q.right);
    !p.IsConstant(q.left) && !p.IsConstant(q.right) && |ta| == |tb| && exists i: nat :: CallsAt(p, ta, tb, i, r)
  }

  lemma TracesKnown(p: Program, q: Pair)
    requires p.WellFormed() && Known(p, q)
    ensures forall x :: x in FullTrace(p, Arithmetic, q.left) ==> x in p.kinds
    ensures forall x :: x in FullTrace(p, Arithmetic, q.right) ==> x in p.kinds
  {
    FullTraceWellFormed(p, Arithmetic, q.left);
    FullTraceWellFormed(p, Arithmetic, q.right);
  }

  lemma CalledKnown(p: Program, q: Pair, r: Pair)
    requires p.WellFormed() && Known(p, q) && Calls(p, q, r)
    ensures Known(p, r)
  {
    hide NaiveEqual, IndicesEqual, FullTrace;
    TracesKnown(p, q);
    var ta, tb := FullTrace(p, Arithmetic, q.left), FullTrace(p, Arithmetic, q.right);
    var i: nat :| CallsAt(p, ta, tb, i, r);
    assert p.WellFormedValue(ta[i]) && p.WellFormedValue(tb[i]);
  }

  /** n such calls, each made by the one before it, lead from q to r. */
  ghost predicate Leads(p: Program, q: Pair, r: Pair, n: nat)
    requires p.WellFormed() && Known(p, q)
    decreases n
  {
    if n == 0 then q == r else exists x :: Known(p, x) && Calls(p, q, x) && Leads(p, x, r, n - 1)
  }

  ghost predicate LeadsTo(p: Program, q: Pair, r: Pair)
    requires p.WellFormed() && Known(p, q)
  {
    exists n: nat :: n > 0 && Leads(p, q, r, n)
  }

  /** Some pair is compared again while it is being compared. */
  ghost predicate ComesRound(p: Program, a: Value, b: Value)
    requires p.WellFormed() && a in p.kinds && b in p.kinds
  {
    exists r, m: nat :: Leads(p, Pair(a, b), r, m) && Known(p, r) && LeadsTo(p, r, r)
  }

  lemma {:induction false} LeadsOn(p: Program, q: Pair, r: Pair, s: Pair, n: nat)
    requires p.WellFormed() && Known(p, q) && Known(p, r) && Leads(p, q, r, n) && Calls(p, r, s)
    ensures Known(p, s) && Leads(p, q, s, n + 1)
    decreases n
  {
    hide Calls, Program.WellFormed;
    CalledKnown(p, r, s);
    if n == 0 {
      assert Leads(p, s, s, 0);
    } else {
      var x :| Known(p, x) && Calls(p, q, x) && Leads(p, x, r, n - 1);
      LeadsOn(p, x, r, s, n - 1);
    }
  }

  // What is called returns in fewer nested calls, so what returns never comes round.

  lemma NaiveResult(p: Program, a: Value, b: Value, n: nat)
    requires p.WellFormed() && a in p.kinds && b in p.kinds && NaiveEqual(p, a, b) && RunNaive(p, a, b, n).Some?
    ensures RunNaive(p, a, b, n) == Some(true)
  {
    hide RunNaive;
    var m: nat :| RunNaive(p, a, b, m) == Some(true);
    if n <= m { NaiveMore(p, a, b, n, m); } else { NaiveMore(p, a, b, m, n); }
  }

  lemma {:induction false} PairsGetTo(p: Program, ta: seq<Value>, tb: seq<Value>, i: nat, n: nat)
    requires p.WellFormed() && i < |ta| == |tb|
    requires (forall x :: x in ta ==> x in p.kinds) && (forall x :: x in tb ==> x in p.kinds)
    requires ta[i] != tb[i] && forall j :: i < j < |ta| ==> ta[j] == tb[j] || NaiveEqual(p, ta[j], tb[j])
    requires RunPairs(p, ta, tb, n).Some?
    ensures ta[i] in p.kinds && tb[i] in p.kinds && RunNaive(p, ta[i], tb[i], n).Some?
    decreases |ta|
  {
    hide Program.WellFormed, RunNaive, NaiveEqual;
    var k := |ta| - 1;
    assert ta[k] in ta && tb[k] in tb;
    if i < k {
      if ta[k] != tb[k] { NaiveResult(p, ta[k], tb[k], n); }
      PairsGetTo(p, ta[..k], tb[..k], i, n);
    }
  }

  lemma CalledReturns(p: Program, q: Pair, r: Pair, n: nat)
    requires p.WellFormed() && Known(p, q) && Known(p, r) && Calls(p, q, r)
    requires RunIndices(p, q.left, q.right, n).Some?
    ensures n >= 2 && RunIndices(p, r.left, r.right, n - 2).Some?
  {
    hide FullTrace, RunPairs, NaiveEqual, IndicesEqual;
    TracesKnown(p, q);
    var ta, tb := FullTrace(p, Arithmetic, q.left), FullTrace(p, Arithmetic, q.right);
    var i: nat :| CallsAt(p, ta, tb, i, r);
    PairsGetTo(p, ta, tb, i, n - 1);
    OperandsReturn(p, ta[i], tb[i], r, n - 1);
  }

  lemma OperandsReturn(p: Program, a: Value, b: Value, r: Pair, n: nat)
    requires p.WellFormed() && a in p.kinds && b in p.kinds && a != b && Known(p, r)
    requires CallsAt(p, [a], [b], 0, r) && RunNaive(p, a, b, n).Some?
    ensures n >= 1 && RunIndices(p, r.left, r.right, n - 1).Some?
  {
    hide RunIndices, IndicesEqual;
    match (p.kinds[a], p.kinds[b])
    case (Binary(opA, la, ra, _), Binary(opB, lb, rb, _)) =>
      assert p.WellFormedValue(a) && p.WellFormedValue(b);
      assert [a][0] == a && [b][0] == b;
      ResultIsEquality(p, la, lb, n - 1);
  }

  lemma {:induction false} LedReturns(p: Program, q: Pair, r: Pair, k: nat, n: nat)
    requires p.WellFormed() && Known(p, q) && Known(p, r) && Leads(p, q, r, k)
    requires RunIndices(p, q.left, q.right, n).Some?
    ensures n >= 2 * k && RunIndices(p, r.left, r.right, n - 2 * k).Some?
    decreases k
  {
    hide Calls, RunIndices, Program.WellFormed;
    if k > 0 {
      var x :| Known(p, x) && Calls(p, q, x) && Leads(p, x, r, k - 1);
      CalledReturns(p, q, x, n);
      LedReturns(p, x, r, k - 1, n - 2);
    }
  }

  lemma {:induction false} NoWayRound(p: Program, r: Pair, k: nat, n: nat)
    requires p.WellFormed() && Known(p, r) && k > 0 && Leads(p, r, r, k)
    ensures RunIndices(p, r.left, r.right, n).None?
    decreases n
  {
    hide Leads, RunIndices, Program.WellFormed;
    if RunIndices(p, r.left, r.right, n).Some? {
      LedReturns(p, r, r, k, n);
      NoWayRound(p, r, k, n - 2 * k);
    }
  }

  // What calls only pairs that return, returns.

  lemma {:induction false} PairsReturn(p: Program, ta: seq<Value>, tb: seq<Value>, k: nat) returns (n: nat)
    requires p.WellFormed() && k <= |ta| == |tb|
    requires (forall x :: x in ta ==> x in p.kinds) && (forall x :: x in tb ==> x in p.kinds)
    requires forall j :: k <= j < |ta| ==> ta[j] == tb[j] || NaiveEqual(p, ta[j], tb[j])
    requires forall i: nat, r :: CallsAt(p, ta, tb, i, r) && Known(p, r) ==> Returns(p, r.left, r.right)
    ensures RunPairs(p, ta[..k], tb[..k], n).Some?
    decreases k
  {
    hide Program.WellFormed, RunNaive, RunPairs, NaiveEqual, IndicesEqual, CallsAt, Returns;
    n := 0;
    if k == 0 {
      NoPairs(p, ta[..0], tb[..0], 0);
    } else {
      var i := k - 1;
      PairsStep(p, ta, tb, i, 0);
      if ta[i] == tb[i] {
        n := PairsReturn(p, ta, tb, i);
        PairsStep(p, ta, tb, i, n);
      } else {
        var m := NaiveReturns(p, ta, tb, i);
        PairsStep(p, ta, tb, i, m);
        n := m;
        if RunNaive(p, ta[i], tb[i], m) == Some(true) {
          NaiveTrue(p, ta[i], tb[i], m);
          var l := PairsReturn(p, ta, tb, i);
          n := if l > m then l else m;
          NaiveMore(p, ta[i], tb[i], m, n);
          PairsMore(p, ta[..i], tb[..i], l, n);
          PairsStep(p, ta, tb, i, n);
        }
      }
    }
  }

  lemma NaiveTrue(p: Program, a: Value, b: Value, n: nat)
    requires p.WellFormed() && a in p.kinds && b in p.kinds && RunNaive(p, a, b, n) == Some(true)
    ensures NaiveEqual(p, a, b)
  {
  }

  /** The comparison at i ends if those of the operands there that it makes do. */
  lemma NaiveReturns(p: Program, ta: seq<Value>, tb: seq<Value>, i: nat) returns (n: nat)
    requires p.WellFormed() && i < |ta| == |tb|
    requires (forall x :: x in ta ==> x in p.kinds) && (forall x :: x in tb ==> x in p.kinds)
    requires ta[i] in p.kinds && tb[i] in p.kinds && ta[i] != tb[i]
    requires forall j :: i < j < |ta| ==> ta[j] == tb[j] || NaiveEqual(p, ta[j], tb[j])
    requires forall r :: CallsAt(p, ta, tb, i, r) && Known(p, r) ==> Returns(p, r.left, r.right)
    ensures RunNaive(p, ta[i], tb[i], n).Some?
  {
    hide RunIndices, NaiveEqual, IndicesEqual;
    n := 1;
    match (p.kinds[ta[i]], p.kinds[tb[i]])
    case (Binary(opA, la, ra, _), Binary(opB, lb, rb, _)) =>
      assert p.WellFormedValue(ta[i]) && p.WellFormedValue(tb[i]);
      if opA == opB {
        assert CallsAt(p, ta, tb, i, Pair(la, lb)) && Known(p, Pair(la, lb));
        var m: nat :| RunIndices(p, la, lb, m).Some?;
        n := m + 1;
        ResultIsEquality(p, la, lb, m);
        if IndicesEqual(p, la, lb) {
          assert CallsAt(p, ta, tb, i, Pair(ra, rb)) && Known(p, Pair(ra, rb));
          var l: nat :| RunIndices(p, ra, rb, l).Some?;
          RunMore(p, la, lb, m, m + l);
          RunMore(p, ra, rb, l, m + l);
          n := m + l + 1;
        }
      }
    case _ =>
  }

  lemma ReturnsIfCalledDo(p: Program, q: Pair)
    requires p.WellFormed() && Known(p, q)
    requires forall r :: Known(p, r) && Calls(p, q, r) ==> Returns(p, r.left, r.right)
    ensures Returns(p, q.left, q.right)
  {
    hide Program.WellFormed, CallsAt, RunPairs, FullTrace;
    TracesKnown(p, q);
    var ta, tb := FullTrace(p, Arithmetic, q.left), FullTrace(p, Arithmetic, q.right);
    if p.IsConstant(q.left) || p.IsConstant(q.right) || |ta| != |tb| {
      assert RunIndices(p, q.left, q.right, 1).Some?;
    } else {
      forall i: nat, r | CallsAt(p, ta, tb, i, r) && Known(p, r) ensures Returns(p, r.left, r.right) {
        assert Calls(p, q, r);
      }
      var n := PairsReturn(p, ta, tb, |ta|);
      assert ta[..|ta|] == ta && tb[..|tb|] == tb;
      assert RunIndices(p, q.left, q.right, n + 1).Some?;
    }
  }

  ghost function AllPairs(p: Program): set<Pair> {
    set a, b | a in p.kinds && b in p.kinds :: Pair(a, b)
  }

  /** Going down from q, below the pairs above it that led to q, no pair is met again; so all of them return. */
  lemma {:induction false} ReturnsBelow(p: Program, start: Pair, q: Pair, m: nat, above: set<Pair>)
    requires p.WellFormed() && Known(p, start) && Known(p, q) && above <= AllPairs(p)
    requires Leads(p, start, q, m) && !ComesRound(p, start.left, start.right)
    requires forall x :: x in above ==> Known(p, x) && LeadsTo(p, x, q)
    ensures Returns(p, q.left, q.right)
    decreases AllPairs(p) - above
  {
    hide Program.WellFormed, Calls, Leads, Returns;
    assert q !in above;
    assert q in AllPairs(p);
    hide ComesRound, AllPairs;
    forall r | Known(p, r) && Calls(p, q, r) ensures Returns(p, r.left, r.right) {
      LeadsOn(p, start, q, r, m);
      forall x | x in above + {q} ensures Known(p, x) && LeadsTo(p, x, r) {
        if x in above {
          var n: nat :| n > 0 && Leads(p, x, q, n);
          LeadsOn(p, x, q, r, n);
        } else {
          LeadsNowhere(p, q);
          LeadsOn(p, q, q, r, 0);
        }
      }
      assert above + {q} <= AllPairs(p);
      ReturnsBelow(p, start, r, m + 1, above + {q});
    }
    ReturnsIfCalledDo(p, q);
  }

  lemma LeadsNowhere(p: Program, q: Pair)
    requires p.WellFormed() && Known(p, q)
    ensures Leads(p, q, q, 0)
  {
  }

  /**
   The comparison comes to an end exactly if no pair is compared again while it is being compared: to remember
   the pairs whose comparison is under way would be enough to end it always.
   */
  lemma ReturnsIff(p: Program, a: Value, b: Value)
    requires p.WellFormed() && a in p.kinds && b in p.kinds
    ensures Returns(p, a, b) <==> !ComesRound(p, a, b)
  {
    hide Program.WellFormed, Calls, Leads, RunIndices;
    var start := Pair(a, b);
    if ComesRound(p, a, b) {
      var r, m: nat :| Leads(p, start, r, m) && Known(p, r) && LeadsTo(p, r, r);
      var n: nat :| n > 0 && Leads(p, r, r, n);
      if Returns(p, a, b) {
        var k: nat :| RunIndices(p, a, b, k).Some?;
        LedReturns(p, start, r, m, k);
        NoWayRound(p, r, n, k - 2 * m);
      }
    } else {
      LeadsNowhere(p, start);
      ReturnsBelow(p, start, start, 0, {});
    }
  }

  // ---------- conditions that are enough ----------

  /** What the comparison of v may go on to look at: the value one step back, and the operands of an operator. */
  ghost predicate LooksAt(p: Program, v: Value, w: Value)
    requires v in p.kinds
  {
    || (w == BackStep(p, Arithmetic, v) && w != v)
    || match p.kinds[v] {
         case Binary(_, left, right, _) => w == left || w == right
         case _ => false
       }
  }

  ghost function LookEdges(p: Program): (r: Edges)
    ensures forall v, w :: (v, w) in r <==> v in p.kinds && w in p.kinds && LooksAt(p, v, w)
  {
    set v, w | v in p.kinds && w in p.kinds && LooksAt(p, v, w) :: (v, w)
  }

  /** The comparison does not leave s, and whatever it goes on to look at ranks lower. */
  ghost predicate RankedOn(p: Program, s: set<Value>, rank: map<Value, nat>) {
    && s <= p.kinds.Keys && s <= rank.Keys
    && forall v, w :: (v, w) in LookEdges(p) && v in s ==> w in s && rank[w] < rank[v]
  }

  lemma {:induction false} ChainRank(p: Program, s: set<Value>, rank: map<Value, nat>, v: Value, visited: set<Value>)
    requires p.WellFormed() && RankedOn(p, s, rank) && v in s && v in visited
    ensures forall x :: x in Chain(p, Arithmetic, v, visited) ==> x in s && rank[x] < rank[v]
    decreases p.kinds.Keys - visited
  {
    hide Program.WellFormed, BackStep;
    BackStepStays(p, Arithmetic, v);
    var w := BackStep(p, Arithmetic, v);
    if w !in visited {
      assert (v, w) in LookEdges(p);
      ChainRank(p, s, rank, w, visited + {w});
    }
  }

  /** The values on an arithmetic trace rank no higher than its head. */
  lemma TraceRank(p: Program, s: set<Value>, rank: map<Value, nat>, v: Value)
    requires p.WellFormed() && RankedOn(p, s, rank) && v in s
    ensures forall x :: x in FullTrace(p, Arithmetic, v) ==> x in s && rank[x] <= rank[v]
  {
    ChainRank(p, s, rank, v, {v});
  }

  /** On ranked code a trace stops only where no rule applies, never by coming round in a circle. */
  lemma RankedTraceEnds(p: Program, s: set<Value>, rank: map<Value, nat>, v: Value)
    requires p.WellFormed() && RankedOn(p, s, rank) && v in s
    ensures var t := FullTrace(p, Arithmetic, v);
            BackStep(p, Arithmetic, t[|t| - 1]) == t[|t| - 1]
  {
    hide Program.WellFormed, BackStep, Chain;
    var t := FullTrace(p, Arithmetic, v);
    FullTraceWellFormed(p, Arithmetic, v);
    TraceRank(p, s, rank, v);
    var last := t[|t| - 1];
    assert forall x :: x in t ==> x in s;
    forall i | 0 <= i < |t| ensures t[i] in s && t[i] in rank { var x := t[i]; assert x in t; assert x in s; }
    var k :| 0 <= k < |t| && t[k] == BackStep(p, Arithmetic, last);
    if t[k] != last {
      assert (last, t[k]) in LookEdges(p);
      RankFalls(p, s, rank, t, k, |t| - 1);
    }
  }

  lemma {:induction false} RankFalls(p: Program, s: set<Value>, rank: map<Value, nat>, t: seq<Value>, i: nat, j: nat)
    requires RankedOn(p, s, rank) && IsBackTrace(p, Arithmetic, t) && i <= j < |t|
    requires forall k :: 0 <= k < |t| ==> t[k] in s && t[k] in rank
    ensures rank[t[j]] <= rank[t[i]]
    decreases j - i
  {
    hide BackStep;
    if i < j {
      RankFalls(p, s, rank, t, i, j - 1);
      assert (t[j - 1], t[j]) in LookEdges(p);
    }
  }

  /** A rank below one of the two indices is enough: the recursion ends within twice as many calls, whatever
      the other index is. */
  lemma {:induction false} RankedTerminates(p: Program, s: set<Value>, rank: map<Value, nat>, a: Value, b: Value,
                                            n: nat)
    requires p.WellFormed() && RankedOn(p, s, rank) && a in s && b in p.kinds
    requires n >= 2 * rank[a] + 2
    ensures RunIndices(p, a, b, n).Some?
    decreases n, 0
  {
    hide Program.WellFormed, LooksAt, Chain, BackStep;
    if !p.IsConstant(a) && !p.IsConstant(b) {
      FullTraceWellFormed(p, Arithmetic, a);
      FullTraceWellFormed(p, Arithmetic, b);
      TraceRank(p, s, rank, a);
      var ta, tb := FullTrace(p, Arithmetic, a), FullTrace(p, Arithmetic, b);
      if |ta| == |tb| { PairsTerminate(p, s, rank, ta, tb, n - 1); }
    }
  }

  lemma {:induction false} PairsTerminate(p: Program, s: set<Value>, rank: map<Value, nat>, ta: seq<Value>,
                                          tb: seq<Value>, n: nat)
    requires p.WellFormed() && RankedOn(p, s, rank) && |ta| == |tb|
    requires forall x :: x in ta ==> x in p.kinds && x in s && x in rank && n >= 2 * rank[x] + 1
    requires forall x :: x in tb ==> x in p.kinds
    ensures RunPairs(p, ta, tb, n).Some?
    decreases n, 1 + |ta|
  {
    hide Program.WellFormed, LooksAt, RunNaive;
    if ta != [] {
      var k := |ta| - 1;
      assert ta[k] in ta && tb[k] in tb;
      if ta[k] != tb[k] { NaiveTerminates(p, s, rank, ta[k], tb[k], n); }
      PairsTerminate(p, s, rank, ta[..k], tb[..k], n);
    }
  }

  lemma {:induction false} NaiveTerminates(p: Program, s: set<Value>, rank: map<Value, nat>, a: Value, b: Value, n: nat)
    requires p.WellFormed() && RankedOn(p, s, rank) && a in s && b in p.kinds
    requires n >= 2 * rank[a] + 1
    ensures RunNaive(p, a, b, n).Some?
    decreases n, 0
  {
    hide RunIndices, BackStep;
    match (p.kinds[a], p.kinds[b])
    case (Binary(_, la, ra, _), Binary(_, lb, rb, _)) =>
      assert p.WellFormedValue(a) && p.WellFormedValue(b);
      assert (a, la) in LookEdges(p) && (a, ra) in LookEdges(p);
      RankedTerminates(p, s, rank, la, lb, n - 1);
      RankedTerminates(p, s, rank, ra, rb, n - 1);
    case _ =>
  }

  ghost predicate OnCycle(es: Edges, v: Value) {
    exists w :: (v, w) in es && Reaches(es, w, v)
  }

  /** Everything that the comparison of v may come to look at. */
  ghost function Cone(p: Program, v: Value): set<Value> {
    ReachSet(LookEdges(p), {v})
  }

  /** Without cycles below a, the size of what is below a value is a rank. */
  lemma AcyclicIsRanked(p: Program, a: Value)
    requires a in p.kinds && forall v :: v in Cone(p, a) ==> !OnCycle(LookEdges(p), v)
    ensures a in Cone(p, a) && RankedOn(p, Cone(p, a), map v | v in Cone(p, a) :: |Cone(p, v)|)
  {
    hide LooksAt, ReachSet, Reaches;
    var es, s := LookEdges(p), Cone(p, a);
    ReachSetClosed(es, {a});
    ReachSetLeast(es, {a}, p.kinds.Keys);
    forall v, w | (v, w) in es && v in s ensures w in s && |Cone(p, w)| < |Cone(p, v)| {
      ReachSetClosed(es, {v});
      ReachSetLeast(es, {w}, Cone(p, v));
      if v in Cone(p, w) { InReachSetReaches(es, w, v); }
      SmallerSet(Cone(p, w), Cone(p, v));
    }
  }

  lemma InReachSetReaches(es: Edges, a: Value, b: Value)
    requires b in ReachSet(es, {a})
    ensures Reaches(es, a, b)
  {
  }

  /** Without a cycle below one of the two indices the comparison comes to an end ... */
  lemma AcyclicReturns(p: Program, a: Value, b: Value)
    requires p.WellFormed() && a in p.kinds && b in p.kinds
    requires forall v :: v in Cone(p, a) ==> !OnCycle(LookEdges(p), v)
    ensures Returns(p, a, b)
  {
    hide Program.WellFormed, RankedOn, RunIndices, Cone, OnCycle;
    AcyclicIsRanked(p, a);
    var rank := map v | v in Cone(p, a) :: |Cone(p, v)|;
    RankedTerminates(p, Cone(p, a), rank, a, b, 2 * rank[a] + 2);
  }

  /** ... so if it does not, there is a cycle below both. */
  lemma DivergenceNeedsCycles(p: Program, a: Value, b: Value)
    requires p.WellFormed() && a in p.kinds && b in p.kinds && !Returns(p, a, b)
    ensures exists v :: v in Cone(p, a) && OnCycle(LookEdges(p), v)
    ensures exists v :: v in Cone(p, b) && OnCycle(LookEdges(p), v)
  {
    hide Program.WellFormed, Returns, Cone, OnCycle;
    IndicesSymmetric(p, a, b);
    if forall v :: v in Cone(p, a) ==> !OnCycle(LookEdges(p), v) { AcyclicReturns(p, a, b); }
    if forall v :: v in Cone(p, b) ==> !OnCycle(LookEdges(p), v) { AcyclicReturns(p, b, a); }
  }

  /** Two additions in unreachable code, each its own left operand. */
  function SelfAdditions(): Program {
    Program(map[1 := OtherConstant, 2 := Binary(Add, 2, 1, Integer(32)), 3 := Binary(Add, 3, 1, Integer(32))],
            map[], map[], map[], map[], [], map[], map[], map[])
  }

  lemma SelfAdditionsWellFormed()
    ensures SelfAdditions().WellFormed()
  {
    var p := SelfAdditions();
    forall v | v in p.kinds ensures p.WellFormedValue(v) {}
  }

  /** With a cycle below both the recursion may never end: no number of calls is enough. */
  lemma {:induction false} SelfAdditionsDiverge(n: nat)
    ensures SelfAdditions().WellFormed() && RunIndices(SelfAdditions(), 2, 3, n) == None
    decreases n
  {
    SelfAdditionsWellFormed();
    hide Program.WellFormed;
    var p := SelfAdditions();
    assert FullTrace(p, Arithmetic, 2) == [2] && FullTrace(p, Arithmetic, 3) == [3];
    if n > 1 {
      SelfAdditionsDiverge(n - 2);
      assert RunNaive(p, 2, 3, n - 1) == None;
    }
    if n > 0 {
      assert RunPairs(p, [2], [3], n - 1) == None;
    }
  }
}
