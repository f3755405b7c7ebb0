/** Backward tracing: from a marked value, follow where its value came from. */
module BackwardTracing {
  import opened Collections
  import opened Reachability
  import opened IR

  class ValueTrace {
    var trace: seq<Value>

    constructor (v: Value)
      ensures trace == [v]
    {
      trace := [v];
    }

    constructor Clone(vt: ValueTrace)
      ensures trace == vt.trace
    {
      trace := vt.trace;
    }

    method AddValue(v: Value)
      modifies this
      ensures trace == old(trace) + [v]
    {
      trace := trace + [v];
    }

    function GetTail(): Value
      requires trace != []
      reads this
    {
      trace[|trace| - 1]
    }

    function GetSize(): nat
      reads this
    {
      |trace|
    }
  }

  /** followBwdUpToArg stops at arithmetic, followArithmeticBwd goes through one operand of it. */
  datatype Mode = UpToArg | Arithmetic

  predicate ArithmeticOp(op: Opcode) {
    op in {Add, Sub, Shl, LShr, AShr, Mul}
  }

  /** The value one step back, or v itself when no rule applies. */
  function BackStep(p: Program, mode: Mode, v: Value): Value {
    match p.KindOf(v)
    case BitCast(operand, _) => operand
    case Gep(base, _, _) => base
    case Load(_) => p.StoreOf(v)
    case Store(stored, _) => stored
    case Binary(op, left, right, _) =>
      if mode.UpToArg? || !ArithmeticOp(op) then v
      else if !p.IsConstant(left) then left
      else if !p.IsConstant(right) then right
      else v
    case _ => v
  }

  lemma BackStepStays(p: Program, mode: Mode, v: Value)
    requires p.WellFormed() && v in p.kinds
    ensures BackStep(p, mode, v) in p.kinds
  {
    assert p.WellFormedValue(v);
  }

  /** The values that are appended to a trace that ends in v, until one of them was seen before. */
  function Chain(p: Program, mode: Mode, v: Value, visited: set<Value>): seq<Value>
    requires p.WellFormed() && v in p.kinds
    decreases p.kinds.Keys - visited
  {
    BackStepStays(p, mode, v);
    var w := BackStep(p, mode, v);
    if w in visited then [] else [w] + Chain(p, mode, w, visited + {w})
  }

  function FullTrace(p: Program, mode: Mode, v: Value): (t: seq<Value>)
    requires p.WellFormed() && v in p.kinds
    ensures t != []
  {
    [v] + Chain(p, mode, v, {v})
  }

  /** A trace in which every value is one step back from the one before it, and none repeats. */
  ghost predicate IsBackTrace(p: Program, mode: Mode, t: seq<Value>) {
    && Distinct(t)
    && (forall i, j :: 0 <= i && j == i + 1 && j < |t| ==> t[j] == BackStep(p, mode, t[i]))
    && (forall v :: v in t ==> v in p.kinds)
  }

  lemma {:induction false} ChainWellFormed(p: Program, mode: Mode, v: Value, visited: set<Value>)
    requires p.WellFormed() && v in p.kinds && v in visited
    ensures var t := [v] + Chain(p, mode, v, visited);
            && IsBackTrace(p, mode, t)
            && (forall i :: 1 <= i < |t| ==> t[i] !in visited)
            && (BackStep(p, mode, t[|t| - 1]) in visited || BackStep(p, mode, t[|t| - 1]) in t)
    decreases p.kinds.Keys - visited
  {
    BackStepStays(p, mode, v);
    var w := BackStep(p, mode, v);
    if w !in visited {
      var rest := [w] + Chain(p, mode, w, visited + {w});
      ChainWellFormed(p, mode, w, visited + {w});
      var t := [v] + rest;
      assert [v] + Chain(p, mode, v, visited) == t;
      assert t[|t| - 1] == rest[|rest| - 1];
      forall i, j | 0 <= i < j < |t| ensures t[i] != t[j] {
        assert t[j] == rest[j - 1];
        if i > 0 { assert t[i] == rest[i - 1]; }
      }
      forall i, j | 0 <= i && j == i + 1 && j < |t| ensures t[j] == BackStep(p, mode, t[i]) {
        if i > 0 { assert t[j] == rest[j - 1] && t[i] == rest[i - 1]; }
      }
    }
  }

  /** A full trace is a duplicate-free back trace, and it only stops where a further step repeats a value. */
  lemma FullTraceWellFormed(p: Program, mode: Mode, v: Value)
    requires p.WellFormed() && v in p.kinds
    ensures var t := FullTrace(p, mode, v);
            t[0] == v && IsBackTrace(p, mode, t) && BackStep(p, mode, t[|t| - 1]) in t
  {
    ChainWellFormed(p, mode, v, {v});
  }

  /** ... and it is the only such trace: the trace is determined by its first value. */
  lemma {:induction false} FullTraceUnique(p: Program, mode: Mode, t: seq<Value>, i: nat)
    requires p.WellFormed() && t != [] && IsBackTrace(p, mode, t) && BackStep(p, mode, t[|t| - 1]) in t
    requires i < |t|
    ensures t[i..] == [t[i]] + Chain(p, mode, t[i], Members(t[..i + 1]))
    decreases |t| - i
  {
    var visited := Members(t[..i + 1]);
    var w := BackStep(p, mode, t[i]);
    if i + 1 < |t| {
      assert w == t[i + 1];
      assert w !in t[..i + 1];
      FullTraceUnique(p, mode, t, i + 1);
      assert t[..i + 2] == t[..i + 1] + [w];
      assert Members(t[..i + 2]) == visited + {w};
      assert t[i..] == [t[i]] + t[i + 1..];
    } else {
      assert t[..i + 1] == t;
    }
  }

  /**
   Where a trace goes from any of its values, read off the module: from a cast to its operand, from a GEP to its
   base, from a store to the stored value, from a load to its defining store or else its pointer, and from the
   six operators of interest, if arithmetic is followed, to the left operand or, when that is constant, to the
   right one unless it is constant too; and only to what it has not passed yet.
   */
  lemma TraceGoesTo(p: Program, mode: Mode, v: Value, i: nat, w: Value)
    requires p.WellFormed() && v in p.kinds && i < |FullTrace(p, mode, v)|
    ensures var t := FullTrace(p, mode, v);
            && t[i] in p.kinds
            && var k := p.kinds[t[i]];
            i + 1 < |t| && t[i + 1] == w <==>
              && w !in t[..i + 1]
              && (|| (k.BitCast? && w == k.operand)
                  || (k.Gep? && w == k.base)
                  || (k.Store? && w == k.stored)
                  || (k.Load? && w == if t[i] in p.loadDefs then p.loadDefs[t[i]] else k.pointer)
                  || (&& k.Binary? && mode == Arithmetic && k.op in {Add, Sub, Mul, Shl, LShr, AShr}
                      && if !p.IsConstant(k.left) then w == k.left else !p.IsConstant(k.right) && w == k.right))
  {
    hide FullTrace, Program.WellFormed;
    var t := FullTrace(p, mode, v);
    FullTraceWellFormed(p, mode, v);
    assert t[i] in t;
    if i + 1 < |t| {
      assert t[i + 1] == BackStep(p, mode, t[i]);
      assert t[i + 1] !in t[..i + 1];
    } else {
      assert t[..i + 1] == t;
    }
  }

  /** So a trace ends exactly where there is no such operand or it has been passed: at its first value if both
      operands are constant, the opcode is another one, arithmetic is not followed, or no rule applies. */
  lemma TraceEndsAt(p: Program, mode: Mode, v: Value, i: nat)
    requires p.WellFormed() && v in p.kinds && i < |FullTrace(p, mode, v)|
    ensures var t := FullTrace(p, mode, v);
            && t[i] in p.kinds
            && var k, passed := p.kinds[t[i]], t[..i + 1];
            i + 1 == |t| <==>
              && (k.BitCast? ==> k.operand in passed)
              && (k.Gep? ==> k.base in passed)
              && (k.Store? ==> k.stored in passed)
              && (k.Load? ==> (if t[i] in p.loadDefs then p.loadDefs[t[i]] else k.pointer) in passed)
              && (k.Binary? && mode == Arithmetic && k.op in {Add, Sub, Mul, Shl, LShr, AShr} ==>
                    if p.IsConstant(k.left) then p.IsConstant(k.right) || k.right in passed else k.left in passed)
  {
    hide FullTrace, Program.WellFormed, Program.IsConstant;
    var t := FullTrace(p, mode, v);
    TraceGoesTo(p, mode, v, i, v);
    if i + 1 < |t| { TraceGoesTo(p, mode, v, i, t[i + 1]); }
    match p.kinds[t[i]]
    case BitCast(operand, _) => TraceGoesTo(p, mode, v, i, operand);
    case Gep(base, _, _) => TraceGoesTo(p, mode, v, i, base);
    case Store(stored, _) => TraceGoesTo(p, mode, v, i, stored);
    case Load(pointer) => TraceGoesTo(p, mode, v, i, if t[i] in p.loadDefs then p.loadDefs[t[i]] else pointer);
    case Binary(_, left, right, _) => TraceGoesTo(p, mode, v, i, if p.IsConstant(left) then right else left);
    case _ =>
  }

  /** Follow a trace back from its tail, appending to it in place, until a value repeats. */
  method FollowBwdUpToArg(p: Program, vt: ValueTrace) returns (r: ValueTrace)
    requires p.WellFormed() && vt.trace != [] && vt.GetTail() in p.kinds
    modifies vt
    ensures r == vt && vt.trace == old(vt.trace) + Chain(p, UpToArg, old(vt.GetTail()), {old(vt.GetTail())})
  {
    Follow(p, UpToArg, vt);
    r := vt;
  }

  method FollowArithmeticBwd(p: Program, vt: ValueTrace)
    requires p.WellFormed() && vt.trace != [] && vt.GetTail() in p.kinds
    modifies vt
    ensures vt.trace == old(vt.trace) + Chain(p, Arithmetic, old(vt.GetTail()), {old(vt.GetTail())})
  {
    Follow(p, Arithmetic, vt);
  }

  /** The loop the two share; they differ in the rule for binary operators only. */
  method Follow(p: Program, mode: Mode, vt: ValueTrace)
    requires p.WellFormed() && vt.trace != [] && vt.GetTail() in p.kinds
    modifies vt
    ensures vt.trace == old(vt.trace) + Chain(p, mode, old(vt.GetTail()), {old(vt.GetTail())})
  {
    var v := vt.GetTail();
    var visited := {v};
    while true
      invariant v in p.kinds && vt.trace != []
      invariant old(vt.trace) + Chain(p, mode, old(vt.GetTail()), {old(vt.GetTail())}) ==
                vt.trace + Chain(p, mode, v, visited)
      decreases p.kinds.Keys - visited
    {
      BackStepStays(p, mode, v);
      v := BackStep(p, mode, v);
      if v in visited { break; }
      visited := visited + {v};
      vt.AddValue(v);
    }
  }

  /** The calls of f among some instructions, in their order. */
  function CallsOf(p: Program, f: FunctionId, instructions: seq<Value>): (r: seq<Value>)
    ensures forall c :: c in r <==> c in instructions && p.IsCall(c) && p.kinds[c].callee == f
  {
    if instructions == [] then []
    else
      var c, rest := instructions[0], CallsOf(p, f, instructions[1..]);
      if p.IsCall(c) && p.kinds[c].callee == f then [c] + rest else rest
  }

  lemma {:induction false} CallsOfSnoc(p: Program, f: FunctionId, s: seq<Value>, c: Value)
    ensures CallsOf(p, f, s + [c]) ==
            CallsOf(p, f, s) + if p.IsCall(c) && p.kinds[c].callee == f then [c] else []
  {
    if s == [] {
      assert s + [c] == [c];
    } else {
      CallsOfSnoc(p, f, s[1..], c);
      assert (s + [c])[1..] == s[1..] + [c];
    }
  }

  /** All call sites of the function an argument belongs to. */
  method FollowArg(p: Program, v: Value) returns (calls: seq<Value>)
    requires p.KindOf(v).Argument?
    ensures calls == CallsOf(p, p.kinds[v].parent, p.instructions)
  {
    calls := [];
    for i := 0 to |p.instructions|
      invariant calls == CallsOf(p, p.kinds[v].parent, p.instructions[..i])
    {
      var c := p.instructions[i];
      CallsOfSnoc(p, p.kinds[v].parent, p.instructions[..i], c);
      assert p.instructions[..i + 1] == p.instructions[..i] + [c];
      if p.IsCall(c) && p.kinds[c].callee == p.kinds[v].parent {
        calls := calls + [c];
      }
    }
    assert p.instructions[..|p.instructions|] == p.instructions;
  }

  /** The trace t continued through the call site call of the function whose argument t ends in. */
  function ThroughCall(p: Program, t: seq<Value>, call: Value, n: nat): seq<Value>
    requires p.WellFormed() && call in p.kinds && p.IsCall(call) && n < |p.kinds[call].args|
  {
    var arg := p.kinds[call].args[n];
    assert p.WellFormedValue(call);
    t + [call] + FullTrace(p, UpToArg, arg)
  }

  /** A marked value's traces: one, or one for each call site when it came in as an argument. */
  function BackTraces(p: Program, v: Value): seq<seq<Value>>
    requires p.WellFormed() && v in p.kinds
  {
    var t := FullTrace(p, UpToArg, v);
    match p.KindOf(t[|t| - 1])
    case Argument(f, n) =>
      var calls := CallsOf(p, f, p.instructions);
      seq(|calls|, i requires 0 <= i < |calls| =>
        ArgumentFits(p, v, calls[i]); ThroughCall(p, t, calls[i], n))
    case _ => [t]
  }

  lemma ArgumentFits(p: Program, v: Value, call: Value)
    requires p.WellFormed() && v in p.kinds
    ensures var t := FullTrace(p, UpToArg, v);
            var k := p.KindOf(t[|t| - 1]);
            k.Argument? && call in CallsOf(p, k.parent, p.instructions) ==>
              call in p.kinds && p.IsCall(call) && k.number < |p.kinds[call].args|
  {
    hide FullTrace;
    var t := FullTrace(p, UpToArg, v);
    FullTraceWellFormed(p, UpToArg, v);
    assert t[|t| - 1] in t;
    assert p.WellFormedValue(t[|t| - 1]);
    if call in p.instructions { assert p.WellFormedValue(call); }
  }

  /** The traces of a marked value, read off the module: its own or, when that ends in an argument, for every call
      of the argument's function its own, the call, and the trace of the actual argument, and no others. */
  lemma BackTracesAre(p: Program, v: Value, s: seq<Value>)
    requires p.WellFormed() && v in p.kinds
    ensures var t := FullTrace(p, UpToArg, v);
            var last := t[|t| - 1];
            s in BackTraces(p, v) <==>
              if last in p.kinds && p.kinds[last].Argument? then
                exists c :: && c in p.instructions && c in p.kinds && p.kinds[c].Call?
                            && p.kinds[c].callee == p.kinds[last].parent
                            && p.kinds[last].number < |p.kinds[c].args|
                            && p.kinds[c].args[p.kinds[last].number] in p.kinds
                            && s == t + [c] + FullTrace(p, UpToArg, p.kinds[c].args[p.kinds[last].number])
              else s == t
  {
    hide FullTrace, Program.WellFormed, CallsOf;
    var t := FullTrace(p, UpToArg, v);
    FullTraceWellFormed(p, UpToArg, v);
    var last := t[|t| - 1];
    assert last in t;
    if p.KindOf(last).Argument? {
      var calls := CallsOf(p, p.kinds[last].parent, p.instructions);
      forall c | c in calls
        ensures c in p.kinds && p.IsCall(c) && p.kinds[last].number < |p.kinds[c].args|
        ensures p.kinds[c].args[p.kinds[last].number] in p.kinds
      {
        ArgumentFits(p, v, c);
        ArgStays(p, c, p.kinds[last].number);
      }
      if s in BackTraces(p, v) {
        var i :| 0 <= i < |calls| && s == BackTraces(p, v)[i];
        assert calls[i] in calls;
      }
      forall c | c in calls ensures ThroughCall(p, t, c, p.kinds[last].number) in BackTraces(p, v) {
        var i :| 0 <= i < |calls| && calls[i] == c;
        assert BackTraces(p, v)[i] == ThroughCall(p, t, c, p.kinds[last].number);
      }
    }
  }

  lemma ArgStays(p: Program, call: Value, n: nat)
    requires p.WellFormed() && call in p.kinds && p.IsCall(call) && n < |p.kinds[call].args|
    ensures p.kinds[call].args[n] in p.kinds
  {
    var arg := p.kinds[call].args[n];
    assert p.WellFormedValue(call) && arg in p.kinds[call].args;
  }

  /** One call site: a copy of the trace, the call, and the actual argument followed further. */
  method FollowOneCall(p: Program, vt: ValueTrace, call: Value, n: nat) returns (followed: ValueTrace)
    requires p.WellFormed() && call in p.kinds && p.IsCall(call) && n < |p.kinds[call].args|
    ensures fresh(followed) && followed.trace == ThroughCall(p, vt.trace, call, n)
  {
    hide Chain, BackStep;
    followed := new ValueTrace.Clone(vt);
    followed.AddValue(call);
    assert p.WellFormedValue(call);
    var argToFollow := p.kinds[call].args[n];
    followed.AddValue(argToFollow);
    followed := FollowBwdUpToArg(p, followed);
    assert followed.trace == vt.trace + [call] + FullTrace(p, UpToArg, argToFollow);
  }

  method FollowCalls(p: Program, vt: ValueTrace, calls: seq<Value>, n: nat) returns (results: seq<ValueTrace>)
    requires p.WellFormed() && forall c :: c in calls ==> c in p.kinds && p.IsCall(c) && n < |p.kinds[c].args|
    ensures |results| == |calls|
    ensures forall j :: 0 <= j < |calls| ==> results[j].trace == ThroughCall(p, vt.trace, calls[j], n)
  {
    hide FullTrace, Program.WellFormed, ThroughCall;
    results := [];
    for i := 0 to |calls|
      invariant |results| == i
      invariant forall j :: 0 <= j < i ==> results[j].trace == ThroughCall(p, vt.trace, calls[j], n)
    {
      assert calls[i] in calls;
      var followed := FollowOneCall(p, vt, calls[i], n);
      results := results + [followed];
    }
  }

  /** Only one call level is crossed, as BackTraces says. */
  method FollowBwd(p: Program, vt: ValueTrace) returns (results: seq<ValueTrace>)
    requires p.WellFormed() && vt.trace != [] && vt.GetTail() in p.kinds
    modifies vt
    ensures var ts, prefix := BackTraces(p, old(vt.GetTail())), old(vt.trace[..|vt.trace| - 1]);
            |results| == |ts| && forall i :: 0 <= i < |ts| ==> results[i].trace == prefix + ts[i]
  {
    hide Program.WellFormed, Chain, BackStep, CallsOf;
    ghost var v, prefix := vt.GetTail(), vt.trace[..|vt.trace| - 1];
    assert vt.trace == prefix + [v];
    var vt2 := FollowBwdUpToArg(p, vt);
    ghost var t := FullTrace(p, UpToArg, v);
    assert vt2.trace == prefix + t;
    var tail := vt2.GetTail();
    assert tail == t[|t| - 1];
    if p.KindOf(tail).Argument? {
      var calls := FollowArg(p, tail);
      forall c | c in calls ensures c in p.kinds && p.IsCall(c) && p.kinds[tail].number < |p.kinds[c].args| {
        ArgumentFits(p, v, c);
      }
      results := FollowCalls(p, vt2, calls, p.kinds[tail].number);
      forall i | 0 <= i < |calls| ensures results[i].trace == prefix + BackTraces(p, v)[i] {
        assert calls[i] in calls;
        ThroughCallPrefix(p, prefix, t, calls[i], p.kinds[tail].number);
      }
    } else {
      results := [vt2];
    }
  }

  lemma ThroughCallPrefix(p: Program, prefix: seq<Value>, t: seq<Value>, call: Value, n: nat)
    requires p.WellFormed() && call in p.kinds && p.IsCall(call) && n < |p.kinds[call].args|
    ensures ThroughCall(p, prefix + t, call, n) == prefix + ThroughCall(p, t, call, n)
  {
    assert p.WellFormedValue(call);
    assert (prefix + t) + [call] == prefix + (t + [call]);
  }
}
