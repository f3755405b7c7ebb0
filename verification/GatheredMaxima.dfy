/** From the instrumented program to the output file: what the root writes after all ranks have run. */
module GatheredMaxima {
  import opened Collections
  import opened Reachability
  import opened Code
  import opened Execution
  import opened RecordedMaxima
  import Rt = Runtime
  import Gather = RankGather

  /** The runtime call that the next step executes. */
  function NextCall(sem: Meaning, m: Code, s: State): Option<Rt.Op> {
    match TopInstr(m, s)
    case Some(Runtime(c)) => Some(OpOf(sem, c, s.frames[|s.frames| - 1].regs))
    case _ => None
  }

  /** The runtime calls that at most n steps execute. */
  function RuntimeCalls(sem: Meaning, m: Code, s: State, n: nat): seq<Rt.Op>
    decreases n
  {
    if n == 0 then []
    else match Step(sem, m, s)
      case Stuck => []
      case Next(t, _) =>
        (match NextCall(sem, m, s) case Some(op) => [op] case None => []) + RuntimeCalls(sem, m, t, n - 1)
  }

  lemma StepCalls(sem: Meaning, m: Code, s: State)
    requires Step(sem, m, s).Next?
    ensures Step(sem, m, s).state.rt ==
            match NextCall(sem, m, s) { case Some(op) => Rt.Effect(s.rt, op) case None => s.rt }
  {
    hide Rt.Effect, LookupFrom, Bind, Evals, BlockAt;
  }

  /** The runtime's state during a run is what its calls make of it. */
  lemma {:induction false} CallsLead(sem: Meaning, m: Code, s: State, n: nat, before: seq<Rt.Op>)
    requires Gather.RunRank(before).state == s.rt
    ensures Gather.RunRank(before + RuntimeCalls(sem, m, s, n)).state == Run(sem, m, s, n).0.rt
    decreases n
  {
    hide Step, Gather.RunRank, NextCall, Rt.Effect;
    assert before + [] == before;
    if n > 0 && Step(sem, m, s).Next? {
      StepCalls(sem, m, s);
      var t := Step(sem, m, s).state;
      match NextCall(sem, m, s)
      case Some(op) =>
        Gather.RunRankSnoc(before, op);
        CallsLead(sem, m, t, n - 1, before + [op]);
        assert before + [op] + RuntimeCalls(sem, m, t, n - 1) == before + ([op] + RuntimeCalls(sem, m, t, n - 1));
      case None =>
        CallsLead(sem, m, t, n - 1, before);
        assert [] + RuntimeCalls(sem, m, t, n - 1) == RuntimeCalls(sem, m, t, n - 1);
    }
  }

  /** The number of steps before the first print, if there is one within n steps. */
  function StepsToPrint(sem: Meaning, m: Code, s: State, n: nat): (k: nat)
    ensures k <= n
    decreases n
  {
    if n == 0 then 0
    else match NextCall(sem, m, s)
      case Some(Print(_)) => 0
      case _ =>
        match Step(sem, m, s)
        case Stuck => 0
        case Next(t, _) => 1 + StepsToPrint(sem, m, t, n - 1)
  }

  predicate Prints(op: Rt.Op) { op.Print? }

  /** Exactly one of the calls, at j, is a print. */
  ghost predicate PrintsOnceAt(ops: seq<Rt.Op>, j: nat) {
    j < |ops| && forall i :: 0 <= i < |ops| ==> (Prints(ops[i]) <==> i == j)
  }

  /** A print passes on the rank that the program runs as. */
  lemma PrintsOwnRank(sem: Meaning, m: Code, s: State)
    requires NextCall(sem, m, s).Some? && Prints(NextCall(sem, m, s).value)
    ensures NextCall(sem, m, s) == Some(Rt.Print(sem.rank)) && TopInstr(m, s) == Some(Runtime(PrintCall))
  {
  }

  /** The calls before the print are those of the steps before it. */
  lemma {:induction false} CallsBeforePrint(sem: Meaning, m: Code, s: State, n: nat, j: nat)
    requires PrintsOnceAt(RuntimeCalls(sem, m, s, n), j)
    ensures var k := StepsToPrint(sem, m, s, n);
            && RuntimeCalls(sem, m, s, k) == RuntimeCalls(sem, m, s, n)[..j]
            && NextCall(sem, m, Run(sem, m, s, k).0).Some? && Prints(NextCall(sem, m, Run(sem, m, s, k).0).value)
    decreases n
  {
    hide Step, NextCall, PrintsOnceAt;
    var ops := RuntimeCalls(sem, m, s, n);
    SomePrint(ops, j);
    var t := Step(sem, m, s).state;
    var rest := RuntimeCalls(sem, m, t, n - 1);
    match NextCall(sem, m, s)
    case Some(op) =>
      assert ops == [op] + rest;
      PrintsTail(op, rest, j);
      if !op.Print? {
        CallsBeforePrint(sem, m, t, n - 1, j - 1);
        assert ops[..j] == [op] + rest[..j - 1];
      }
    case None =>
      assert ops == rest;
      CallsBeforePrint(sem, m, t, n - 1, j);
  }

  lemma SomePrint(ops: seq<Rt.Op>, j: nat)
    requires PrintsOnceAt(ops, j)
    ensures j < |ops|
  {
  }

  lemma PrintsTail(op: Rt.Op, rest: seq<Rt.Op>, j: nat)
    requires PrintsOnceAt([op] + rest, j)
    ensures if op.Print? then j == 0 else j > 0 && PrintsOnceAt(rest, j - 1)
  {
    var ops := [op] + rest;
    assert Prints(ops[0]) <==> op.Print?;
    assert forall i :: 0 <= i < |rest| ==> ops[i + 1] == rest[i];
  }

  /** What a rank that prints once contributes to the gather is its table at the print. */
  lemma {:induction false} SentAtPrint(ops: seq<Rt.Op>, j: nat)
    requires PrintsOnceAt(ops, j)
    ensures Gather.RunRank(ops).sent == Some(Gather.RunRank(ops[..j]).state.table)
    decreases |ops|
  {
    var k := |ops| - 1;
    if j < k {
      assert forall i :: 0 <= i < k ==> ops[..k][i] == ops[i];
      SentAtPrint(ops[..k], j);
      assert ops[..k][..j] == ops[..j];
      assert !Prints(ops[k]);
    }
  }

  /** One rank's run of the program from the start of main, so many steps of it. */
  datatype RankRun = RankRun(sem: Meaning, regs: Registers, world: World, steps: nat)

  function Start(m: Code, run: RankRun): State {
    StartState(m, run.regs, run.world, Rt.START)
  }

  /** The runtime calls of the instrumented run. */
  function CallsOf(m: Code, vs: seq<Value>, run: RankRun): seq<Rt.Op> {
    RuntimeCalls(run.sem, Weave(vs, m), Start(m, run), run.steps)
  }

  /** What the instrumented run shows before its first print. */
  function EventsToPrint(m: Code, vs: seq<Value>, run: RankRun): seq<Event> {
    var m' := Weave(vs, m);
    Run(run.sem, m', Start(m, run), StepsToPrint(run.sem, m', Start(m, run), run.steps)).1
  }

  ghost predicate PrintsOnce(ops: seq<Rt.Op>) {
    exists j: nat :: PrintsOnceAt(ops, j)
  }

  /** A print stands neither before the initialisation nor for a store. */
  lemma PrintIsSettled(sem: Meaning, vs: seq<Value>, m: Code, e: nat, p: nat, s: State)
    requires NextCall(sem, m, s).Some? && Prints(NextCall(sem, m, s).value) && InitAt(vs, BlockAt(m, e, 0), p)
    ensures s.frames != [] && !AtStart(e, p, s.frames[|s.frames| - 1]) && !IsStore(TopInstr(m, s))
  {
  }

  /**
   A rank that prints once contributes, for every detected instruction, the maximum of -1 and all values it
   produced since main was entered and before the print; and it produced them as the original program does.
   */
  lemma {:induction false} RankContributes(m: Code, vs: seq<Value>, run: RankRun) returns (k: nat)
    requires Runnable(m, vs) && PrintsOnce(CallsOf(m, vs, run))
    ensures var sent := Gather.RunRank(CallsOf(m, vs, run)).sent;
            sent.Some? && Records(vs, EntryIndex(m), EventsToPrint(m, vs, run), sent.value)
    ensures k <= run.steps && EventsToPrint(m, vs, run) == Run(run.sem, m, Start(m, run), k).1
  {
    hide Runnable, Step, NextCall, Records, StepsToPrint, Weave, EntryIndex, AtStart, Same;
    var m', s := Weave(vs, m), Start(m, run);
    var n := StepsToPrint(run.sem, m', s, run.steps);
    var ops := CallsOf(m, vs, run);
    var j: nat :| PrintsOnceAt(ops, j);
    CallsBeforePrint(run.sem, m', s, run.steps, j);
    SentAtPrint(ops, j);
    assert Gather.RunRank([]).state == s.rt;
    CallsLead(run.sem, m', s, n, []);
    assert [] + RuntimeCalls(run.sem, m', s, n) == ops[..j];
    var p;
    k, p := InstrumentedRun(run.sem, m, vs, s, run.regs, run.world, Rt.START, n);
    PrintIsSettled(run.sem, vs, m', EntryIndex(m), p, Run(run.sem, m', s, n).0);
  }

  /** Such a rank's print passes on its rank, and directly after it the rank finalises MPI. */
  lemma {:induction false} RankFinalizes(m: Code, vs: seq<Value>, run: RankRun)
    requires Runnable(m, vs) && PrintsOnce(CallsOf(m, vs, run))
    ensures var m', s := Weave(vs, m), Start(m, run);
            var n := StepsToPrint(run.sem, m', s, run.steps);
            && NextCall(run.sem, m', Run(run.sem, m', s, n).0) == Some(Rt.Print(run.sem.rank))
            && AtFinalize(TopInstr(m', Run(run.sem, m', s, n + 1).0))
  {
    hide Runnable, NextCall, StepsToPrint, Weave, EntryIndex, TopInstr, Run, RuntimeCalls, PrintsOnceAt;
    var m', s := Weave(vs, m), Start(m, run);
    var n := StepsToPrint(run.sem, m', s, run.steps);
    var j: nat :| PrintsOnceAt(CallsOf(m, vs, run), j);
    CallsBeforePrint(run.sem, m', s, run.steps, j);
    PrintsOwnRank(run.sem, m', Run(run.sem, m', s, n).0);
    PrintsBeforeFinalize(run.sem, m, vs, s, run.regs, run.world, Rt.START, n);
  }

  /**
   Let every rank run the instrumented program from main until it has printed once, or
   longer, and let their runtime calls interleave in any way. Then the root's output lists every rank i and
   id j exactly once, with the maximum of -1 and everything that detected instruction j produced on that rank
   before its print.
   */
  lemma {:induction false} OutputIsProducedMaxima(m: Code, vs: seq<Value>, runs: seq<RankRun>,
                                                  events: seq<Gather.Event>, i: nat, j: nat)
    requires Runnable(m, vs) && i < |runs| && j < |vs|
    requires forall r :: 0 <= r < |runs| ==>
               PrintsOnce(CallsOf(m, vs, runs[r])) && Gather.Project(events, r) == CallsOf(m, vs, runs[r])
    ensures var w, len := Gather.RunWorld(|runs|, events), |vs|;
            && Gather.Gathered(w, len)
            && var out := Rt.Entries(|runs|, len, Gather.ReceiveBuffer(w, len));
            && 0 <= i * len + j < |out|
            && out[i * len + j] == Rt.Entry(i, j, MaxProduced(EventsToPrint(m, vs, runs[i]), EntryIndex(m), vs[j]))
            && (forall k :: 0 <= k < |out| && out[k].rank == i && out[k].id == j ==> k == i * len + j)
  {
    hide Runnable, CallsOf, PrintsOnce, EventsToPrint, EntryIndex, MaxProduced, Gather.RunWorld, Gather.RunRank;
    hide Gather.Project;
    var w, len := Gather.RunWorld(|runs|, events), |vs|;
    forall r | 0 <= r < |runs| ensures w[r].sent.Some? && |w[r].sent.value| == len {
      Gather.RanksAreIndependent(|runs|, events, r);
      var k := RankContributes(m, vs, runs[r]);
    }
    Gather.RanksAreIndependent(|runs|, events, i);
    var k := RankContributes(m, vs, runs[i]);
    Gather.BufferAt(w, len, i, j);
    Rt.EntriesListAll(|runs|, len, Gather.ReceiveBuffer(w, len), i, j);
  }
}
