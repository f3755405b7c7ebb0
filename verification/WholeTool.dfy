/** The whole tool: from marked values of a module to the maxima that its instrumented runs report. */
module WholeTool {
  import opened Collections
  import opened Reachability
  import opened ReferenceSearch
  import opened ScaleVariableTracing
  import opened OverflowDetection
  import opened Code
  import opened Instrumentation
  import opened RecordedMaxima
  import opened GatheredMaxima
  import IR
  import Pipeline
  import Rt = Runtime
  import Gather = RankGather

  type Program = IR.Program

  /** Code m is that of the module that p describes: every binary operator is computed by exactly one
      instruction, under its own value and with its own width, and calls have identities of their own. */
  ghost predicate Represents(p: Program, m: Code) {
    && (forall v :: v in p.kinds && p.kinds[v].Binary? ==> ComputedOnce(p, m, v))
    && (forall v :: Count(FinalizeAt(v), AllInstrs(m)) <= 1)
  }

  ghost predicate ComputedOnce(p: Program, m: Code, v: Value)
    requires v in p.kinds && p.kinds[v].Binary?
  {
    && Once(m, ResultOf(v))
    && forall i :: i in AllInstrs(m) && Computes(i, v) ==> p.kinds[v].ty.Integer? ==> i.bits == p.kinds[v].ty.bits
  }

  /** The list of the analysis, for a graph with given vertices: in order, exactly the binary operators among
      them that work on integers of at most 32 bits, with one of the opcodes looked for. */
  ghost predicate Detected(p: Program, ops: set<IR.Opcode>, vertices: set<Value>, overflowable: seq<Value>) {
    && Ascending(overflowable)
    && forall v :: v in overflowable <==>
         && v in vertices && v in p.kinds && p.kinds[v].Binary?
         && p.kinds[v].op in ops && p.kinds[v].ty.Integer? && p.kinds[v].ty.bits <= 32
  }

  lemma DetectedIsBinary(p: Program, ops: set<IR.Opcode>, vertices: set<Value>, overflowable: seq<Value>, v: Value)
    requires Detected(p, ops, vertices, overflowable) && v in overflowable
    ensures v in p.kinds && p.kinds[v].Binary? && p.kinds[v].ty.Integer?
  {
  }

  lemma ListedIsDetected(p: Program, ops: set<IR.Opcode>, vertices: set<Value>, overflowable: seq<Value>)
    requires Ascending(overflowable) && Members(overflowable) == Overflowing(p, ops, vertices)
    ensures Detected(p, ops, vertices, overflowable)
  {
    ListedAreNarrow(p, ops, vertices, overflowable);
  }

  /** What the analysis detects can be instrumented. */
  lemma DetectedInstrumentable(p: Program, ops: set<IR.Opcode>, vertices: set<Value>, overflowable: seq<Value>, m: Code)
    requires Detected(p, ops, vertices, overflowable)
    requires Represents(p, m) && WellFormed(m) && (EntryIndex(m) < |m| ==> m[EntryIndex(m)].blocks != [])
    ensures Instrumentable(m, overflowable)
  {
    forall v | v in overflowable ensures Once(m, ResultOf(v)) {
      DetectedIsBinary(p, ops, vertices, overflowable, v);
      assert ComputedOnce(p, m, v);
    }
    hide WellFormed, EntryIndex;
  }

  /** Analysis and transformation in sequence: exactly the overflowable vertices of the scale graph are
      instrumented. */
  method InstrumentProgram(p: Program, ops: set<IR.Opcode>, vars: seq<Value>, loops: bool, m: Code)
    returns (overflowable: seq<Value>, m': Code)
    requires p.WellFormed() && Members(vars) <= Data(p) && AllSettled(p, Members(vars))
    requires Represents(p, m) && WellFormed(m) && (EntryIndex(m) < |m| ==> m[EntryIndex(m)].blocks != [])
    ensures Members(vars) <= p.kinds.Keys
    ensures Detected(p, ops, Pipeline.ScaleGraphOf(p, Members(vars), loops).vs, overflowable)
    ensures m' == Weave(overflowable, m)
  {
    hide Represents, Instrumentable, WellFormed, EntryIndex, AllSettled, Pipeline.ScaleGraphOf, Detected;
    var sg;
    sg, overflowable := Pipeline.Analyse(p, ops, vars, loops);
    ListedIsDetected(p, ops, sg.graph.Keys, overflowable);
    DetectedInstrumentable(p, ops, sg.graph.Keys, overflowable, m);
    var oi := new OverflowInstrumentation(m);
    oi.Instrument(overflowable);
    m' := oi.m;
  }

  /**
   Let every rank run the instrumented program from main and print once, with the runtime calls of all ranks
   interleaving in any way. Then every overflowable vertex v of the analysed graph has an id j, and the root's
   output lists for every rank i exactly once, under j, the maximum of -1 and everything that v produced on
   that rank before its print. Nothing else is listed.
   */
  lemma {:induction false} ToolOutput(p: Program, ops: set<IR.Opcode>, vertices: set<Value>, m: Code,
                                      overflowable: seq<Value>, runs: seq<RankRun>, events: seq<Gather.Event>,
                                      i: nat, v: Value) returns (j: nat)
    requires Detected(p, ops, vertices, overflowable) && Runnable(m, overflowable)
    requires forall r :: 0 <= r < |runs| ==>
               PrintsOnce(CallsOf(m, overflowable, runs[r])) &&
               Gather.Project(events, r) == CallsOf(m, overflowable, runs[r])
    requires i < |runs| && v in vertices && v in p.kinds && p.kinds[v].Binary?
    requires p.kinds[v].op in ops && p.kinds[v].ty.Integer? && p.kinds[v].ty.bits <= 32
    ensures j < |overflowable| && overflowable[j] == v
    ensures var w, len := Gather.RunWorld(|runs|, events), |overflowable|;
            && Gather.Gathered(w, len)
            && var out := Rt.Entries(|runs|, len, Gather.ReceiveBuffer(w, len));
            && |out| == |runs| * |overflowable| && 0 <= i * len + j < |out|
            && out[i * len + j] ==
                 Rt.Entry(i, j, MaxProduced(EventsToPrint(m, overflowable, runs[i]), EntryIndex(m), v))
            && (forall k :: 0 <= k < |out| && out[k].rank == i && out[k].id == j ==> k == i * len + j)
  {
    hide Runnable, CallsOf, PrintsOnce, EventsToPrint, MaxProduced;
    hide Gather.RunWorld, Gather.Project, EntryIndex, Ascending, Gather.ReceiveBuffer;
    j :| j < |overflowable| && overflowable[j] == v;
    OutputIsProducedMaxima(m, overflowable, runs, events, i, j);
  }

  // ---------- widths ----------

  lemma {:induction false} FlattenMember(bs: seq<BasicBlock>, b: nat, i: Instr)
    requires b < |bs| && i in bs[b]
    ensures i in Flatten(bs)
  {
    if b > 0 { FlattenMember(bs[1..], b - 1, i); }
  }

  lemma {:induction false} AllInstrsMember(m: Code, f: nat, b: nat, i: Instr)
    requires f < |m| && b < |m[f].blocks| && i in m[f].blocks[b]
    ensures i in AllInstrs(m)
  {
    if f > 0 { AllInstrsMember(m[1..], f - 1, b, i); } else { FlattenMember(m[0].blocks, b, i); }
  }

  /** All inserted calls are well typed exactly if every detected operator is one on 32-bit integers. */
  lemma StoresTypedForProgram(p: Program, ops: set<IR.Opcode>, vertices: set<Value>, m: Code, overflowable: seq<Value>)
    requires Detected(p, ops, vertices, overflowable)
    requires Represents(p, m) && WellFormed(m)
    ensures (forall f, b :: 0 <= f < |m| && 0 <= b < |m[f].blocks| ==>
               StoresAre32(Weave(overflowable, m)[f].blocks[b])) <==>
            (forall v :: v in overflowable && v in p.kinds && p.kinds[v].Binary? ==> p.kinds[v].ty == IR.Integer(32))
  {
    StoresTypedIff(overflowable, m);
    hide StoresAre32, WellFormed, Weave, Detected, AllInstrs, Once;
    forall v | v in overflowable ensures v in p.kinds && p.kinds[v].Binary? && p.kinds[v].ty.Integer? {
      DetectedIsBinary(p, ops, vertices, overflowable, v);
    }
    if forall v :: v in overflowable && v in p.kinds && p.kinds[v].Binary? ==> p.kinds[v].ty == IR.Integer(32) {
      forall f, b | 0 <= f < |m| && 0 <= b < |m[f].blocks| ensures DetectedAre32(overflowable, m[f].blocks[b]) {
        forall i | i in m[f].blocks[b] && i.Compute? && i.dst in overflowable ensures i.bits == 32 {
          AllInstrsMember(m, f, b, i);
          assert ComputedOnce(p, m, i.dst);
        }
      }
    }
    if forall f, b :: 0 <= f < |m| && 0 <= b < |m[f].blocks| ==> DetectedAre32(overflowable, m[f].blocks[b]) {
      forall v | v in overflowable ensures p.kinds[v].ty == IR.Integer(32) {
        assert ComputedOnce(p, m, v);
        var f, b, k := PlaceExists(m, ResultOf(v));
        var i := m[f].blocks[b][k];
        AllInstrsMember(m, f, b, i);
        assert i in m[f].blocks[b] && Computes(i, v) && DetectedAre32(overflowable, m[f].blocks[b]);
      }
    }
  }
}
