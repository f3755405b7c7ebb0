/** The structural comparison of GEP indices: what it decides, and when it is transitive. */
module IndexComparison {
  import opened Collections
  import opened Reachability
  import opened IR
  import opened BackwardTracing

  /**
   The comparison as the code runs it, on any code: None when n nested calls are not enough. Pairs are
   compared from the tails, and nothing more is compared after the first difference.
   */
  function RunIndices(p: Program, a: Value, b: Value, n: nat): Option<bool>
    requires p.WellFormed() && a in p.kinds && b in p.kinds
    decreases n, 0
  {
    if n == 0 then None
    else if p.IsConstant(a) || p.IsConstant(b) then Some(a == b)
    else
      FullTraceWellFormed(p, Arithmetic, a);
      FullTraceWellFormed(p, Arithmetic, b);
      var ta, tb := FullTrace(p, Arithmetic, a), FullTrace(p, Arithmetic, b);
      if |ta| == |tb| then RunPairs(p, ta, tb, n - 1) else Some(true)
  }

  function RunPairs(p: Program, ta: seq<Value>, tb: seq<Value>, n: nat): Option<bool>
    requires p.WellFormed() && |ta| == |tb|
    requires (forall x :: x in ta ==> x in p.kinds) && (forall x :: x in tb ==> x in p.kinds)
    decreases n, 1 + |ta|
  {
    if ta == [] then Some(true)
    else
      var k := |ta| - 1;
      match if ta[k] == tb[k] then Some(true) else RunNaive(p, ta[k], tb[k], n)
      case Some(true) => RunPairs(p, ta[..k], tb[..k], n)
      case other => other
  }

  function RunNaive(p: Program, a: Value, b: Value, n: nat): Option<bool>
    requires p.WellFormed() && a in p.kinds && b in p.kinds
    decreases n, 0
  {
    if n == 0 then None
    else match (p.kinds[a], p.kinds[b])
      case (Load(pa), Load(pb)) => Some(pa == pb)
      case (Binary(opA, la, ra, _), Binary(opB, lb, rb, _)) =>
        assert p.WellFormedValue(a) && p.WellFormedValue(b);
        if opA != opB then Some(false)
        else (
          match RunIndices(p, la, lb, n - 1)
          case Some(true) => RunIndices(p, ra, rb, n - 1)
          case other => other
        )
      case _ => Some(false)
  }

  /** More nested calls than are needed change nothing. */
  lemma {:induction false} RunMore(p: Program, a: Value, b: Value, n: nat, m: nat)
    requires p.WellFormed() && a in p.kinds && b in p.kinds && n <= m && RunIndices(p, a, b, n).Some?
    ensures RunIndices(p, a, b, m) == RunIndices(p, a, b, n)
    decreases n, 0
  {
    hide Program.WellFormed, Chain, BackStep;
    if !p.IsConstant(a) && !p.IsConstant(b) {
      FullTraceWellFormed(p, Arithmetic, a);
      FullTraceWellFormed(p, Arithmetic, b);
      var ta, tb := FullTrace(p, Arithmetic, a), FullTrace(p, Arithmetic, b);
      if |ta| == |tb| { PairsMore(p, ta, tb, n - 1, m - 1); }
    }
  }

  lemma {:induction false} PairsMore(p: Program, ta: seq<Value>, tb: seq<Value>, n: nat, m: nat)
    requires p.WellFormed() && |ta| == |tb| && n <= m
    requires (forall x :: x in ta ==> x in p.kinds) && (forall x :: x in tb ==> x in p.kinds)
    requires RunPairs(p, ta, tb, n).Some?
    ensures RunPairs(p, ta, tb, m) == RunPairs(p, ta, tb, n)
    decreases n, 1 + |ta|
  {
    hide Program.WellFormed, RunNaive;
    if ta != [] {
      var k := |ta| - 1;
      if ta[k] != tb[k] { NaiveMore(p, ta[k], tb[k], n, m); }
      if RunPairs(p, ta[..k], tb[..k], n).Some? { PairsMore(p, ta[..k], tb[..k], n, m); }
    }
  }

  lemma {:induction false} NaiveMore(p: Program, a: Value, b: Value, n: nat, m: nat)
    requires p.WellFormed() && a in p.kinds && b in p.kinds && n <= m && RunNaive(p, a, b, n).Some?
    ensures RunNaive(p, a, b, m) == RunNaive(p, a, b, n)
    decreases n, 0
  {
    hide RunIndices;
    match (p.kinds[a], p.kinds[b])
    case (Binary(opA, la, ra, _), Binary(opB, lb, rb, _)) =>
      assert p.WellFormedValue(a) && p.WellFormedValue(b);
      if opA == opB {
        RunMore(p, la, lb, n - 1, m - 1);
        if RunIndices(p, la, lb, n - 1) == Some(true) { RunMore(p, ra, rb, n - 1, m - 1); }
      }
    case _ =>
  }

  // ---------- what the comparison decides ----------

  /** The comparison comes to an end. */
  ghost predicate Returns(p: Program, a: Value, b: Value)
    requires p.WellFormed() && a in p.kinds && b in p.kinds
  {
    exists n: nat :: RunIndices(p, a, b, n).Some?
  }

  /** indicesAreEqual returns true. */
  ghost predicate IndicesEqual(p: Program, a: Value, b: Value)
    requires p.WellFormed() && a in p.kinds && b in p.kinds
  {
    exists n: nat :: RunIndices(p, a, b, n) == Some(true)
  }

  /** naiveCompare returns true. */
  ghost predicate NaiveEqual(p: Program, a: Value, b: Value)
    requires p.WellFormed() && a in p.kinds && b in p.kinds
  {
    exists n: nat :: RunNaive(p, a, b, n) == Some(true)
  }

  lemma {:induction false} PairsEqual(p: Program, ta: seq<Value>, tb: seq<Value>) returns (n: nat)
    requires p.WellFormed() && |ta| == |tb|
    requires (forall x :: x in ta ==> x in p.kinds) && (forall x :: x in tb ==> x in p.kinds)
    requires forall i :: 0 <= i < |ta| ==> ta[i] == tb[i] || NaiveEqual(p, ta[i], tb[i])
    ensures RunPairs(p, ta, tb, n) == Some(true)
  {
    hide Program.WellFormed, RunNaive;
    n := 0;
    if ta != [] {
      var k := |ta| - 1;
      n := PairsEqual(p, ta[..k], tb[..k]);
      if ta[k] != tb[k] {
        var m: nat :| RunNaive(p, ta[k], tb[k], m) == Some(true);
        var most := if n > m then n else m;
        PairsMore(p, ta[..k], tb[..k], n, most);
        NaiveMore(p, ta[k], tb[k], m, most);
        n := most;
      }
    }
  }

  lemma {:induction false} PairsEqualAt(p: Program, ta: seq<Value>, tb: seq<Value>, n: nat, i: nat)
    requires p.WellFormed() && |ta| == |tb| && i < |ta|
    requires (forall x :: x in ta ==> x in p.kinds) && (forall x :: x in tb ==> x in p.kinds)
    requires RunPairs(p, ta, tb, n) == Some(true)
    ensures ta[i] == tb[i] || NaiveEqual(p, ta[i], tb[i])
    decreases |ta|
  {
    hide Program.WellFormed, RunNaive;
    var k := |ta| - 1;
    if i < k { PairsEqualAt(p, ta[..k], tb[..k], n, i); }
  }

  /** Two indices compare equal if they are the same constant or their traces agree, value by value or up to
      the naive comparison; non-constants whose traces differ in length always do. */
  lemma IndicesEqualIff(p: Program, a: Value, b: Value)
    requires p.WellFormed() && a in p.kinds && b in p.kinds
    ensures p.IsConstant(a) || p.IsConstant(b) ==> (IndicesEqual(p, a, b) <==> a == b)
    ensures forall x :: x in FullTrace(p, Arithmetic, a) ==> x in p.kinds
    ensures forall x :: x in FullTrace(p, Arithmetic, b) ==> x in p.kinds
    ensures !p.IsConstant(a) && !p.IsConstant(b) ==>
              var ta, tb := FullTrace(p, Arithmetic, a), FullTrace(p, Arithmetic, b);
              IndicesEqual(p, a, b) <==>
                (|ta| == |tb| ==> forall i :: 0 <= i < |ta| ==> ta[i] == tb[i] || NaiveEqual(p, ta[i], tb[i]))
  {
    hide Program.WellFormed, Chain, BackStep, NaiveEqual, RunPairs;
    FullTraceWellFormed(p, Arithmetic, a);
    FullTraceWellFormed(p, Arithmetic, b);
    var ta, tb := FullTrace(p, Arithmetic, a), FullTrace(p, Arithmetic, b);
    if p.IsConstant(a) || p.IsConstant(b) {
      assert a == b ==> RunIndices(p, a, b, 1) == Some(true);
    } else if |ta| == |tb| {
      if forall i :: 0 <= i < |ta| ==> ta[i] == tb[i] || NaiveEqual(p, ta[i], tb[i]) {
        var n := PairsEqual(p, ta, tb);
        assert RunIndices(p, a, b, n + 1) == Some(true);
      }
      if IndicesEqual(p, a, b) {
        var n: nat :| RunIndices(p, a, b, n) == Some(true);
        forall i | 0 <= i < |ta| ensures ta[i] == tb[i] || NaiveEqual(p, ta[i], tb[i]) {
          PairsEqualAt(p, ta, tb, n - 1, i);
        }
      }
    } else {
      assert RunIndices(p, a, b, 1) == Some(true);
    }
  }

  /** Two values compare naively equal if they load from the same pointer, or are the same operation on
      operands that compare equal. */
  lemma NaiveEqualIff(p: Program, a: Value, b: Value)
    requires p.WellFormed() && a in p.kinds && b in p.kinds
    ensures NaiveEqual(p, a, b) <==>
            match (p.kinds[a], p.kinds[b]) {
              case (Load(pa), Load(pb)) => pa == pb
              case (Binary(opA, la, ra, _), Binary(opB, lb, rb, _)) =>
                assert p.WellFormedValue(a) && p.WellFormedValue(b);
                opA == opB && IndicesEqual(p, la, lb) && IndicesEqual(p, ra, rb)
              case _ => false
            }
  {
    hide RunIndices;
    match (p.kinds[a], p.kinds[b])
    case (Load(pa), Load(pb)) =>
      assert RunNaive(p, a, b, 1) == Some(pa == pb);
    case (Binary(opA, la, ra, _), Binary(opB, lb, rb, _)) =>
      assert p.WellFormedValue(a) && p.WellFormedValue(b);
      if opA == opB && IndicesEqual(p, la, lb) && IndicesEqual(p, ra, rb) {
        var n: nat :| RunIndices(p, la, lb, n) == Some(true);
        var m: nat :| RunIndices(p, ra, rb, m) == Some(true);
        RunMore(p, la, lb, n, n + m);
        RunMore(p, ra, rb, m, n + m);
        assert RunNaive(p, a, b, n + m + 1) == Some(true);
      }
      if NaiveEqual(p, a, b) {
        var n: nat :| RunNaive(p, a, b, n) == Some(true);
        assert RunIndices(p, la, lb, n - 1) == Some(true) && RunIndices(p, ra, rb, n - 1) == Some(true);
      }
    case _ =>
  }

  /** Read off the module: what is compared by identity are globals, functions, other constants, and constant
      expressions; an index of one of these kinds equals itself only, from either side. All others compare by
      their traces, so that two of them whose traces differ in length are equal. */
  lemma ConstantsByIdentity(p: Program, a: Value, b: Value)
    requires p.WellFormed() && a in p.kinds && b in p.kinds
    ensures var ka, kb := p.kinds[a], p.kinds[b];
            var constantA := ka.GlobalVariable? || ka.OtherConstant? || ka.CodePointer?
                             || ((ka.Gep? || ka.BitCast?) && ka.folded);
            var constantB := kb.GlobalVariable? || kb.OtherConstant? || kb.CodePointer?
                             || ((kb.Gep? || kb.BitCast?) && kb.folded);
            && (constantA || constantB ==> (IndicesEqual(p, a, b) <==> a == b))
            && (!constantA && !constantB && |FullTrace(p, Arithmetic, a)| != |FullTrace(p, Arithmetic, b)| ==>
                  IndicesEqual(p, a, b))
  {
    hide Program.WellFormed, IndicesEqual, NaiveEqual, FullTrace;
    IndicesEqualIff(p, a, b);
  }

  /** The result does not depend on how many nested calls were allowed for. */
  lemma ResultIsEquality(p: Program, a: Value, b: Value, n: nat)
    requires p.WellFormed() && a in p.kinds && b in p.kinds && RunIndices(p, a, b, n).Some?
    ensures RunIndices(p, a, b, n) == Some(IndicesEqual(p, a, b))
  {
    hide RunIndices;
    if IndicesEqual(p, a, b) {
      var m: nat :| RunIndices(p, a, b, m) == Some(true);
      if n <= m { RunMore(p, a, b, n, m); } else { RunMore(p, a, b, m, n); }
    }
    var Some(result) := RunIndices(p, a, b, n);
    assert result ==> RunIndices(p, a, b, n) == Some(true);
  }

  // ---------- the comparison itself ----------

  lemma NoPairs(p: Program, ta: seq<Value>, tb: seq<Value>, n: nat)
    requires p.WellFormed() && ta == tb == []
    ensures RunPairs(p, ta, tb, n) == Some(true)
  {
  }

  /** The pair at i decides whether the pairs before it are compared at all. */
  lemma PairsStep(p: Program, ta: seq<Value>, tb: seq<Value>, i: nat, n: nat)
    requires p.WellFormed() && i < |ta| == |tb|
    requires (forall x :: x in ta ==> x in p.kinds) && (forall x :: x in tb ==> x in p.kinds)
    ensures ta[i] in p.kinds && tb[i] in p.kinds
    ensures RunPairs(p, ta[..i + 1], tb[..i + 1], n) ==
            match if ta[i] == tb[i] then Some(true) else RunNaive(p, ta[i], tb[i], n) {
              case Some(true) => RunPairs(p, ta[..i], tb[..i], n)
              case other => other
            }
  {
    hide Program.WellFormed, RunNaive;
    var sa, sb := ta[..i + 1], tb[..i + 1];
    assert sa[..i] == ta[..i] && sb[..i] == tb[..i] && sa[i] == ta[i] && sb[i] == tb[i];
    assert ta[i] in ta && tb[i] in tb;
    assert forall x :: x in sa ==> x in ta;
    assert forall x :: x in sb ==> x in tb;
  }

  /**
   The comparison of two indices: traces are compared from their tails, stopping at a difference. It may be
   called whenever it comes to an end; n bounds how deep its calls nest.
   */
  method IndicesAreEqual(p: Program, a: Value, b: Value, ghost n: nat) returns (areEqual: bool)
    requires p.WellFormed() && a in p.kinds && b in p.kinds && RunIndices(p, a, b, n).Some?
    ensures RunIndices(p, a, b, n) == Some(areEqual) && areEqual == IndicesEqual(p, a, b)
    decreases n, 0
  {
    hide Program.WellFormed, Chain, BackStep, IndicesEqual, RunNaive, RunPairs;
    ResultIsEquality(p, a, b, n);
    if !p.IsConstant(a) && !p.IsConstant(b) {
      FullTraceWellFormed(p, Arithmetic, a);
      FullTraceWellFormed(p, Arithmetic, b);
      var vta := new ValueTrace(a);
      var vtb := new ValueTrace(b);
      FollowArithmeticBwd(p, vta);
      FollowArithmeticBwd(p, vtb);
      var ta, tb := vta.trace, vtb.trace;
      assert ta == FullTrace(p, Arithmetic, a) && tb == FullTrace(p, Arithmetic, b);
      areEqual := true;
      if vta.GetSize() == vtb.GetSize() {
        var i := vta.GetSize();
        assert ta[..i] == ta && tb[..i] == tb;
        assert RunPairs(p, ta[..0], tb[..0], n - 1) == Some(true) by { NoPairs(p, ta[..0], tb[..0], n - 1); }
        while i > 0
          invariant 0 <= i <= |ta| == |tb|
          invariant RunIndices(p, a, b, n) == if areEqual then RunPairs(p, ta[..i], tb[..i], n - 1) else Some(false)
        {
          i := i - 1;
          PairsStep(p, ta, tb, i, n - 1);
          if areEqual && ta[i] != tb[i] {
            areEqual := NaiveCompare(p, ta[i], tb[i], n - 1);
          }
        }
      }
    } else {
      areEqual := a == b;
    }
  }

  method NaiveCompare(p: Program, a: Value, b: Value, ghost n: nat) returns (same: bool)
    requires p.WellFormed() && a in p.kinds && b in p.kinds && RunNaive(p, a, b, n).Some?
    ensures RunNaive(p, a, b, n) == Some(same)
    decreases n, 0
  {
    hide RunIndices, IndicesEqual;
    match (p.kinds[a], p.kinds[b])
    case (Load(pa), Load(pb)) =>
      same := pa == pb;
    case (Binary(opA, la, ra, _), Binary(opB, lb, rb, _)) =>
      assert p.WellFormedValue(a) && p.WellFormedValue(b);
      same := opA == opB;
      if same { same := IndicesAreEqual(p, la, lb, n - 1); }
      if same { same := IndicesAreEqual(p, ra, rb, n - 1); }
    case _ =>
      same := false;
  }

  /** The comparison for callers that know only that it comes to an end. */
  method CompareIndices(p: Program, a: Value, b: Value) returns (areEqual: bool)
    requires p.WellFormed() && a in p.kinds && b in p.kinds && Returns(p, a, b)
    ensures areEqual == IndicesEqual(p, a, b)
  {
    hide RunIndices, IndicesEqual;
    ghost var n: nat :| RunIndices(p, a, b, n).Some?;
    areEqual := IndicesAreEqual(p, a, b, n);
  }

  // ---------- reflexive and symmetric ----------

  lemma IndicesReflexive(p: Program, a: Value)
    requires p.WellFormed() && a in p.kinds
    ensures IndicesEqual(p, a, a) && Returns(p, a, a)
  {
    hide IndicesEqual, NaiveEqual, RunIndices;
    IndicesEqualIff(p, a, a);
    assert IndicesEqual(p, a, a);
    EqualReturns(p, a, a);
  }

  lemma EqualReturns(p: Program, a: Value, b: Value)
    requires p.WellFormed() && a in p.kinds && b in p.kinds && IndicesEqual(p, a, b)
    ensures Returns(p, a, b)
  {
    hide RunIndices;
    var n: nat :| RunIndices(p, a, b, n) == Some(true);
    assert RunIndices(p, a, b, n).Some?;
  }

  /** The comparison runs alike whichever index comes first. */
  lemma {:induction false} RunSymmetric(p: Program, a: Value, b: Value, n: nat)
    requires p.WellFormed() && a in p.kinds && b in p.kinds
    ensures RunIndices(p, a, b, n) == RunIndices(p, b, a, n)
    decreases n, 0
  {
    hide Program.WellFormed, Chain, BackStep;
    if n > 0 && !p.IsConstant(a) && !p.IsConstant(b) {
      FullTraceWellFormed(p, Arithmetic, a);
      FullTraceWellFormed(p, Arithmetic, b);
      var ta, tb := FullTrace(p, Arithmetic, a), FullTrace(p, Arithmetic, b);
      if |ta| == |tb| { PairsSymmetric(p, ta, tb, n - 1); }
    }
  }

  lemma {:induction false} PairsSymmetric(p: Program, ta: seq<Value>, tb: seq<Value>, n: nat)
    requires p.WellFormed() && |ta| == |tb|
    requires (forall x :: x in ta ==> x in p.kinds) && (forall x :: x in tb ==> x in p.kinds)
    ensures RunPairs(p, ta, tb, n) == RunPairs(p, tb, ta, n)
    decreases n, 1 + |ta|
  {
    hide Program.WellFormed, RunNaive;
    if ta != [] {
      var k := |ta| - 1;
      NaiveSymmetric(p, ta[k], tb[k], n);
      PairsSymmetric(p, ta[..k], tb[..k], n);
    }
  }

  lemma {:induction false} NaiveSymmetric(p: Program, a: Value, b: Value, n: nat)
    requires p.WellFormed() && a in p.kinds && b in p.kinds
    ensures RunNaive(p, a, b, n) == RunNaive(p, b, a, n)
    decreases n, 0
  {
    hide RunIndices;
    match (p.kinds[a], p.kinds[b])
    case (Binary(_, la, ra, _), Binary(_, lb, rb, _)) =>
      assert p.WellFormedValue(a) && p.WellFormedValue(b);
      if n > 0 {
        RunSymmetric(p, la, lb, n - 1);
        RunSymmetric(p, ra, rb, n - 1);
      }
    case _ =>
  }

  lemma IndicesSymmetric(p: Program, a: Value, b: Value)
    requires p.WellFormed() && a in p.kinds && b in p.kinds
    ensures IndicesEqual(p, a, b) <==> IndicesEqual(p, b, a)
    ensures Returns(p, a, b) <==> Returns(p, b, a)
  {
    hide RunIndices;
    forall n: nat ensures RunIndices(p, a, b, n) == RunIndices(p, b, a, n) { RunSymmetric(p, a, b, n); }
  }

  // ---------- when it is transitive ----------

  ghost predicate Transitive(p: Program)
    requires p.WellFormed()
  {
    forall a, b, c :: a in p.kinds && b in p.kinds && c in p.kinds && IndicesEqual(p, a, b) && IndicesEqual(p, b, c) ==>
      IndicesEqual(p, a, c)
  }

  /** The values that are compared by their traces. */
  ghost function Variables(p: Program): set<Value> {
    set v | v in p.kinds && !p.IsConstant(v)
  }

  ghost predicate SameLength(p: Program, a: Value, b: Value)
    requires p.WellFormed() && a in p.kinds && b in p.kinds
  {
    |FullTrace(p, Arithmetic, a)| == |FullTrace(p, Arithmetic, b)|
  }

  ghost predicate OneLength(p: Program)
    requires p.WellFormed()
  {
    forall a, b :: a in Variables(p) && b in Variables(p) ==> SameLength(p, a, b)
  }

  ghost predicate AllAlike(p: Program)
    requires p.WellFormed()
  {
    forall a, b :: a in Variables(p) && b in Variables(p) ==> IndicesEqual(p, a, b)
  }

  /** Where all traces have one length, the comparison is transitive at every depth. */
  lemma {:induction false} RunTransitive(p: Program, a: Value, b: Value, c: Value, n: nat)
    requires p.WellFormed() && OneLength(p) && a in p.kinds && b in p.kinds && c in p.kinds
    requires RunIndices(p, a, b, n) == Some(true) && RunIndices(p, b, c, n) == Some(true)
    ensures RunIndices(p, a, c, n) == Some(true)
    decreases n, 0
  {
    hide Program.WellFormed, Chain, BackStep;
    if !p.IsConstant(a) && !p.IsConstant(b) && !p.IsConstant(c) {
      FullTraceWellFormed(p, Arithmetic, a);
      FullTraceWellFormed(p, Arithmetic, b);
      FullTraceWellFormed(p, Arithmetic, c);
      assert SameLength(p, a, b) && SameLength(p, b, c);
      PairsTransitive(p, FullTrace(p, Arithmetic, a), FullTrace(p, Arithmetic, b), FullTrace(p, Arithmetic, c), n - 1);
    }
  }

  lemma {:induction false} PairsTransitive(p: Program, ta: seq<Value>, tb: seq<Value>, tc: seq<Value>, n: nat)
    requires p.WellFormed() && OneLength(p) && |ta| == |tb| == |tc|
    requires (forall x :: x in ta ==> x in p.kinds) && (forall x :: x in tb ==> x in p.kinds)
    requires forall x :: x in tc ==> x in p.kinds
    requires RunPairs(p, ta, tb, n) == Some(true) && RunPairs(p, tb, tc, n) == Some(true)
    ensures RunPairs(p, ta, tc, n) == Some(true)
    decreases n, 1 + |ta|
  {
    hide Program.WellFormed, RunNaive, OneLength;
    if ta != [] {
      var k := |ta| - 1;
      if ta[k] != tb[k] && tb[k] != tc[k] { NaiveTransitive(p, ta[k], tb[k], tc[k], n); }
      PairsTransitive(p, ta[..k], tb[..k], tc[..k], n);
    }
  }

  lemma {:induction false} NaiveTransitive(p: Program, a: Value, b: Value, c: Value, n: nat)
    requires p.WellFormed() && OneLength(p) && a in p.kinds && b in p.kinds && c in p.kinds
    requires RunNaive(p, a, b, n) == Some(true) && RunNaive(p, b, c, n) == Some(true)
    ensures RunNaive(p, a, c, n) == Some(true)
    decreases n, 0
  {
    hide RunIndices, OneLength;
    match (p.kinds[a], p.kinds[b], p.kinds[c])
    case (Binary(_, la, ra, _), Binary(_, lb, rb, _), Binary(_, lc, rc, _)) =>
      assert p.WellFormedValue(a) && p.WellFormedValue(b) && p.WellFormedValue(c);
      RunTransitive(p, la, lb, lc, n - 1);
      RunTransitive(p, ra, rb, rc, n - 1);
    case _ =>
  }

  lemma OneLengthTransitive(p: Program)
    requires p.WellFormed() && OneLength(p)
    ensures Transitive(p)
  {
    hide Program.WellFormed, RunIndices, OneLength;
    forall a, b, c | a in p.kinds && b in p.kinds && c in p.kinds && IndicesEqual(p, a, b) && IndicesEqual(p, b, c)
      ensures IndicesEqual(p, a, c)
    {
      var n: nat :| RunIndices(p, a, b, n) == Some(true);
      var m: nat :| RunIndices(p, b, c, m) == Some(true);
      RunMore(p, a, b, n, n + m);
      RunMore(p, b, c, m, n + m);
      RunTransitive(p, a, b, c, n + m);
    }
  }

  lemma AllAlikeTransitive(p: Program)
    requires p.WellFormed() && AllAlike(p)
    ensures Transitive(p)
  {
    hide Program.WellFormed, IndicesEqual, NaiveEqual;
    forall a, b, c | a in p.kinds && b in p.kinds && c in p.kinds && IndicesEqual(p, a, b) && IndicesEqual(p, b, c)
      ensures IndicesEqual(p, a, c)
    {
      IndicesEqualIff(p, a, b);
      IndicesEqualIff(p, b, c);
    }
  }

  /** Values with traces of different length make all others alike, if the comparison is transitive. */
  lemma DifferentLengthsAllAlike(p: Program)
    requires p.WellFormed() && Transitive(p) && !OneLength(p)
    ensures AllAlike(p)
  {
    hide Program.WellFormed, IndicesEqual, NaiveEqual, FullTrace;
    var u, v :| u in Variables(p) && v in Variables(p) && !SameLength(p, u, v);
    forall a, b | a in Variables(p) && b in Variables(p) ensures IndicesEqual(p, a, b) {
      var w := if SameLength(p, a, u) then v else u;
      IndicesEqualIff(p, a, b);
      IndicesEqualIff(p, a, w);
      IndicesEqualIff(p, w, b);
    }
  }

  /** The comparison is transitive exactly if all traces have one length, or all variables compare equal. */
  lemma TransitiveIff(p: Program)
    requires p.WellFormed()
    ensures Transitive(p) <==> OneLength(p) || AllAlike(p)
  {
    hide Transitive, OneLength, AllAlike;
    if OneLength(p) { OneLengthTransitive(p); }
    if AllAlike(p) { AllAlikeTransitive(p); }
    if Transitive(p) && !OneLength(p) { DifferentLengthsAllAlike(p); }
  }

  /** Two unrelated instructions, and a cast of a third: each of the two equals the cast, not each other. */
  function ThreeIndices(): Program {
    Program(map[1 := OtherInstruction, 2 := OtherInstruction, 3 := OtherInstruction, 4 := BitCast(3, false)],
            map[], map[], map[], map[], [], map[], map[], map[])
  }

  lemma ThreeIndicesWellFormed()
    ensures ThreeIndices().WellFormed()
  {
    var p := ThreeIndices();
    forall v | v in p.kinds ensures p.WellFormedValue(v) {}
  }

  lemma NotTransitive()
    ensures var p := ThreeIndices();
            && p.WellFormed()
            && IndicesEqual(p, 1, 4) && IndicesEqual(p, 4, 2) && !IndicesEqual(p, 1, 2)
  {
    ThreeIndicesWellFormed();
    hide Program.WellFormed;
    var p := ThreeIndices();
    assert FullTrace(p, Arithmetic, 1) == [1] && FullTrace(p, Arithmetic, 2) == [2];
    assert Chain(p, Arithmetic, 4, {4}) == [3] + Chain(p, Arithmetic, 3, {4, 3});
    assert |FullTrace(p, Arithmetic, 4)| >= 2;
    hide FullTrace, Chain, IndicesEqual, NaiveEqual;
    IndicesEqualIff(p, 1, 4);
    IndicesEqualIff(p, 4, 2);
    IndicesEqualIff(p, 1, 2);
    NaiveEqualIff(p, 1, 2);
    assert [1][0] == 1 && [2][0] == 2 && !NaiveEqual(p, 1, 2);
  }

  /** A loop counter, and its successor. */
  function Successor(): Program {
    Program(map[1 := OtherInstruction, 2 := Binary(Add, 1, 3, Integer(64)), 3 := OtherConstant],
            map[1 := [2], 3 := [2]], map[], map[], map[], [1, 2], map[], map[], map[])
  }

  lemma SuccessorWellFormed()
    ensures Successor().WellFormed()
  {
    var p := Successor();
    forall v | v in p.kinds ensures p.WellFormedValue(v) {}
    forall v, u | v in p.kinds && u in p.UsersOf(v) ensures u == 2 {}
  }

  /** The trace of i + 1 goes on to i, so that the indices i + 1 and i count as equal. */
  lemma SuccessorEqual()
    ensures var p := Successor();
            && p.WellFormed()
            && FullTrace(p, Arithmetic, 2) == [2, 1] && FullTrace(p, Arithmetic, 1) == [1]
            && IndicesEqual(p, 2, 1)
  {
    SuccessorWellFormed();
    hide Program.WellFormed;
    var p := Successor();
    assert FullTrace(p, Arithmetic, 1) == [1];
    assert Chain(p, Arithmetic, 1, {2, 1}) == [];
    assert {2} + {1} == {2, 1};
    assert Chain(p, Arithmetic, 2, {2}) == [1];
    hide FullTrace, Chain, IndicesEqual, NaiveEqual;
    IndicesEqualIff(p, 2, 1);
  }
}
