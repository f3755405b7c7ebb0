/** Code to be instrumented: functions of basic blocks, and how runtime calls are woven into them. */
module Code {
  import opened Reachability

  /** A call into the runtime, as an instruction. */
  datatype RuntimeCall = InitCall(len: nat) | StoreCall(id: nat, value: Value) | PrintCall

  /** Every instruction but a runtime call has an identity, the value it produces. */
  datatype Instr =
    | Phi(dst: Value, incoming: map<nat, Value>)
    | Dbg
    | Compute(dst: Value, bits: nat, op: int, args: seq<Value>)
    | Call(dst: Value, callee: string, args: seq<Value>)
    | Jump(target: nat)
    | CondJump(cond: Value, yes: nat, no: nat)
    | Return(result: Value)
    | Runtime(call: RuntimeCall)

  type BasicBlock = seq<Instr>

  /** A declaration has no blocks; otherwise blocks[0] is the entry block. */
  datatype Function = Function(name: string, params: seq<Value>, blocks: seq<BasicBlock>)

  type Code = seq<Function>

  predicate Computes(i: Instr, v: Value) { i.Compute? && i.dst == v }

  predicate Terminates(i: Instr) { i.Jump? || i.CondJump? || i.Return? }

  predicate PhiOrDbg(i: Instr) { i.Phi? || i.Dbg? }

  predicate FinalizeCall(i: Instr) {
    i.Call? && i.callee in {"MPI_Finalize", "mpi_finalize_", "mpi_finalize_f08_"}
  }

  /** PHIs first, and a terminator at the end and nowhere else. */
  predicate WellFormedBlock(b: BasicBlock, phis: bool) {
    && b != []
    && (b[0].Phi? ==> phis)
    && if |b| == 1 then Terminates(b[0])
       else !Terminates(b[0]) && WellFormedBlock(b[1..], phis && b[0].Phi?)
  }

  predicate Plain(b: BasicBlock) {
    forall i :: i in b ==> !i.Runtime?
  }

  ghost predicate WellFormed(m: Code) {
    forall f, b :: f in m && b in f.blocks ==> Plain(b) && WellFormedBlock(b, true)
  }

  // ---------- erasing ----------

  function Erase(b: BasicBlock): BasicBlock {
    if b == [] then [] else (if b[0].Runtime? then [] else [b[0]]) + Erase(b[1..])
  }

  lemma {:induction false} EraseConcat(a: BasicBlock, b: BasicBlock)
    ensures Erase(a + b) == Erase(a) + Erase(b)
  {
    if a == [] {
      assert a + b == b;
    } else {
      assert (a + b)[1..] == a[1..] + b;
      EraseConcat(a[1..], b);
    }
  }

  lemma {:induction false} ErasePlain(b: BasicBlock)
    requires Plain(b)
    ensures Erase(b) == b
  {
    if b != [] { ErasePlain(b[1..]); }
  }

  // ---------- the single-pass rewrite ----------

  /** The id of v: its position in the list of detected instructions. */
  function IdOf(vs: seq<Value>, v: Value): (k: nat)
    requires v in vs
    ensures k < |vs| && vs[k] == v
  {
    if vs[0] == v then 0 else 1 + IdOf(vs[1..], v)
  }

  /** One instruction with what instrumentation puts around it. */
  function WeaveInstr(vs: seq<Value>, i: Instr): seq<Instr> {
    (if FinalizeCall(i) then [Runtime(PrintCall)] else []) + [i] +
    (if i.Compute? && i.dst in vs then [Runtime(StoreCall(IdOf(vs, i.dst), i.dst))] else [])
  }

  function WeaveBlock(vs: seq<Value>, b: BasicBlock): BasicBlock {
    if b == [] then [] else WeaveInstr(vs, b[0]) + WeaveBlock(vs, b[1..])
  }

  /** The entry block: the initialisation goes before the first instruction that is no PHI or debug intrinsic. */
  function WeaveEntry(vs: seq<Value>, b: BasicBlock): BasicBlock {
    if b != [] && PhiOrDbg(b[0]) then [b[0]] + WeaveEntry(vs, b[1..])
    else [Runtime(InitCall(|vs|))] + WeaveBlock(vs, b)
  }

  function WeaveFunction(vs: seq<Value>, f: Function, isEntry: bool): Function {
    f.(blocks := seq(|f.blocks|, k requires 0 <= k < |f.blocks| =>
      if isEntry && k == 0 then WeaveEntry(vs, f.blocks[k]) else WeaveBlock(vs, f.blocks[k])))
  }

  predicate IsMain(f: Function) { f.name == "main" || f.name == "MAIN_" }

  /** The first function that is named as a main program, or |m|. */
  function EntryIndex(m: Code): (e: nat)
    ensures e <= |m|
    ensures forall k :: 0 <= k < e ==> m[k].name !in {"main", "MAIN_"}
    ensures e < |m| ==> m[e].name in {"main", "MAIN_"}
  {
    if m == [] || IsMain(m[0]) then 0 else 1 + EntryIndex(m[1..])
  }

  /** The whole module in one pass, for the detected instructions vs. */
  function Weave(vs: seq<Value>, m: Code): (r: Code)
    ensures |r| == |m|
  {
    seq(|m|, k requires 0 <= k < |m| => WeaveFunction(vs, m[k], k == EntryIndex(m)))
  }

  lemma {:induction false} WeaveBlockErases(vs: seq<Value>, b: BasicBlock)
    requires Plain(b)
    ensures Erase(WeaveBlock(vs, b)) == b
  {
    if b != [] {
      WeaveBlockErases(vs, b[1..]);
      EraseConcat(WeaveInstr(vs, b[0]), WeaveBlock(vs, b[1..]));
      WeaveInstrErases(vs, b[0]);
    }
  }

  lemma WeaveInstrErases(vs: seq<Value>, i: Instr)
    requires !i.Runtime?
    ensures Erase(WeaveInstr(vs, i)) == [i]
  {
    var pre := if FinalizeCall(i) then [Runtime(PrintCall)] else [];
    var post := if i.Compute? && i.dst in vs then [Runtime(StoreCall(IdOf(vs, i.dst), i.dst))] else [];
    EraseConcat(pre + [i], post);
    EraseConcat(pre, [i]);
    assert Erase(pre) == [] && Erase(post) == [] && Erase([i]) == [i];
  }

  lemma {:induction false} WeaveEntryErases(vs: seq<Value>, b: BasicBlock)
    requires Plain(b)
    ensures Erase(WeaveEntry(vs, b)) == b
  {
    if b != [] && PhiOrDbg(b[0]) {
      WeaveEntryErases(vs, b[1..]);
      EraseConcat([b[0]], WeaveEntry(vs, b[1..]));
      assert Erase([b[0]]) == [b[0]];
    } else {
      WeaveBlockErases(vs, b);
      EraseConcat([Runtime(InitCall(|vs|))], WeaveBlock(vs, b));
      assert Erase([Runtime(InitCall(|vs|))]) == [];
    }
  }

  lemma {:induction false} WeaveBlockShape(vs: seq<Value>, b: BasicBlock, phis: bool)
    requires WellFormedBlock(b, phis)
    ensures WellFormedBlock(WeaveBlock(vs, b), phis)
  {
    var i, rest := b[0], WeaveBlock(vs, b[1..]);
    if |b| > 1 { WeaveBlockShape(vs, b[1..], phis && i.Phi?); }
    var w := WeaveBlock(vs, b);
    if FinalizeCall(i) {
      assert w == [Runtime(PrintCall)] + ([i] + rest);
      assert w[1..] == [i] + rest && ([i] + rest)[1..] == rest;
      PhisOptional(rest, phis && i.Phi?);
    } else if i.Compute? && i.dst in vs {
      var s := Runtime(StoreCall(IdOf(vs, i.dst), i.dst));
      assert w == [i] + ([s] + rest);
      assert w[1..] == [s] + rest && ([s] + rest)[1..] == rest;
    } else {
      assert w == [i] + rest && w[1..] == rest;
    }
  }

  lemma PhisOptional(b: BasicBlock, phis: bool)
    requires WellFormedBlock(b, false)
    ensures WellFormedBlock(b, phis)
  {
  }

  /** Woven blocks still have their PHIs first and their terminator last. */
  lemma {:induction false} WeaveEntryShape(vs: seq<Value>, b: BasicBlock, phis: bool)
    requires WellFormedBlock(b, phis)
    ensures WellFormedBlock(WeaveEntry(vs, b), phis)
  {
    var w := WeaveEntry(vs, b);
    if PhiOrDbg(b[0]) {
      WeaveEntryShape(vs, b[1..], phis && b[0].Phi?);
      assert w[1..] == WeaveEntry(vs, b[1..]);
    } else {
      WeaveBlockShape(vs, b, phis);
      var rest := WeaveBlock(vs, b);
      assert w == [Runtime(InitCall(|vs|))] + rest && w[1..] == rest;
      WeaveFirst(vs, b);
      NoPhiFirst(rest, phis);
    }
  }

  lemma WeaveFirst(vs: seq<Value>, b: BasicBlock)
    requires b != [] && !b[0].Phi?
    ensures WeaveBlock(vs, b) != [] && !WeaveBlock(vs, b)[0].Phi?
  {
    assert WeaveBlock(vs, b) == WeaveInstr(vs, b[0]) + WeaveBlock(vs, b[1..]);
  }

  lemma NoPhiFirst(b: BasicBlock, phis: bool)
    requires WellFormedBlock(b, phis) && !b[0].Phi?
    ensures WellFormedBlock(b, false)
  {
  }

  // ---------- where prints stand ----------

  /** At j: behind a print stands a call that finalises MPI, and before such a call stands a print. */
  ghost predicate PrintAt(b: BasicBlock, j: nat)
    requires j < |b|
  {
    && (b[j] == Runtime(PrintCall) ==>
          j + 1 < |b| && b[j + 1].Call? && b[j + 1].callee in {"MPI_Finalize", "mpi_finalize_", "mpi_finalize_f08_"})
    && (b[j].Call? && b[j].callee in {"MPI_Finalize", "mpi_finalize_", "mpi_finalize_f08_"} ==>
          j > 0 && b[j - 1] == Runtime(PrintCall))
  }

  /** Prints stand directly before the finalisation calls, before each of them, and nowhere else. */
  ghost predicate PrintsPlaced(b: BasicBlock) {
    forall j {:trigger PrintAt(b, j)} :: 0 <= j < |b| ==> PrintAt(b, j)
  }

  lemma PrintsPlacedConcat(a: BasicBlock, b: BasicBlock)
    requires PrintsPlaced(a) && PrintsPlaced(b)
    ensures PrintsPlaced(a + b)
  {
    var w := a + b;
    forall j | 0 <= j < |w| ensures PrintAt(w, j) {
      if j < |a| {
        assert PrintAt(a, j);
      } else {
        assert PrintAt(b, j - |a|);
        assert j > |a| ==> w[j - 1] == b[j - |a| - 1];
      }
    }
  }

  lemma WeaveInstrPrints(vs: seq<Value>, i: Instr)
    requires !i.Runtime?
    ensures PrintsPlaced(WeaveInstr(vs, i))
  {
    var w := WeaveInstr(vs, i);
    if FinalizeCall(i) {
      assert w == [Runtime(PrintCall), i];
    } else if i.Compute? && i.dst in vs {
      assert w == [i, Runtime(StoreCall(IdOf(vs, i.dst), i.dst))];
    } else {
      assert w == [i];
    }
  }

  lemma {:induction false} WeaveBlockPrints(vs: seq<Value>, b: BasicBlock)
    requires Plain(b)
    ensures PrintsPlaced(WeaveBlock(vs, b))
  {
    if b != [] {
      WeaveBlockPrints(vs, b[1..]);
      WeaveInstrPrints(vs, b[0]);
      PrintsPlacedConcat(WeaveInstr(vs, b[0]), WeaveBlock(vs, b[1..]));
    }
  }

  lemma {:induction false} WeaveEntryPrints(vs: seq<Value>, b: BasicBlock)
    requires Plain(b)
    ensures PrintsPlaced(WeaveEntry(vs, b))
  {
    if b != [] && PhiOrDbg(b[0]) {
      WeaveEntryPrints(vs, b[1..]);
      PrintsPlacedConcat([b[0]], WeaveEntry(vs, b[1..]));
    } else {
      WeaveBlockPrints(vs, b);
      PrintsPlacedConcat([Runtime(InitCall(|vs|))], WeaveBlock(vs, b));
    }
  }

  /** In a rewritten module a print stands directly before every finalisation call and nowhere else. */
  lemma WeavePrints(vs: seq<Value>, m: Code)
    requires WellFormed(m)
    ensures forall f, b :: 0 <= f < |m| && 0 <= b < |m[f].blocks| ==> PrintsPlaced(Weave(vs, m)[f].blocks[b])
  {
    hide WeaveBlock, WeaveEntry, PrintsPlaced, IsMain;
    forall f, b | 0 <= f < |m| && 0 <= b < |m[f].blocks| ensures PrintsPlaced(Weave(vs, m)[f].blocks[b]) {
      assert m[f] in m && m[f].blocks[b] in m[f].blocks;
      WeaveBlockPrints(vs, m[f].blocks[b]);
      WeaveEntryPrints(vs, m[f].blocks[b]);
    }
  }
}
