/** Instrumented runs: the program is not disturbed, and the table holds the maxima of what was computed. */
module RecordedMaxima {
  import opened Collections
  import opened Reachability
  import opened Code
  import opened Execution
  import Rt = Runtime

  // ---------- what the rewrite makes of blocks ----------

  /** At j: a store stands behind the instruction it records, and a detected instruction has its store. */
  ghost predicate FollowAt(vs: seq<Value>, b: BasicBlock, j: nat)
    requires j < |b|
  {
    && (b[j].Runtime? && b[j].call.StoreCall? ==>
          var c := b[j].call;
          j > 0 && Computes(b[j - 1], c.value) && c.value in vs && c.id == IdOf(vs, c.value))
    && (b[j].Compute? && b[j].dst in vs ==>
          j + 1 < |b| && b[j + 1] == Runtime(StoreCall(IdOf(vs, b[j].dst), b[j].dst)))
  }

  /** Stores stand exactly behind the detected instructions, with their ids. */
  ghost predicate StoresFollow(vs: seq<Value>, b: BasicBlock) {
    forall j {:trigger FollowAt(vs, b, j)} :: 0 <= j < |b| ==> FollowAt(vs, b, j)
  }

  predicate IsInit(i: Instr) { i.Runtime? && i.call.InitCall? }

  ghost predicate NoInit(b: BasicBlock) {
    forall j :: 0 <= j < |b| ==> !IsInit(b[j])
  }

  /** The initialisation is at p, behind all PHIs and debug intrinsics that the block starts with, and nowhere
      else. */
  ghost predicate InitAt(vs: seq<Value>, b: BasicBlock, p: nat) {
    && p < |b| && b[p] == Runtime(InitCall(|vs|))
    && (forall j :: 0 <= j < p ==> b[j].Phi? || b[j].Dbg?)
    && (p + 1 < |b| ==> !b[p + 1].Phi? && !b[p + 1].Dbg?)
    && (forall j :: 0 <= j < |b| && IsInit(b[j]) ==> j == p)
  }

  lemma StoresFollowConcat(vs: seq<Value>, a: BasicBlock, b: BasicBlock)
    requires StoresFollow(vs, a) && StoresFollow(vs, b)
    ensures StoresFollow(vs, a + b)
  {
    var w := a + b;
    forall j | 0 <= j < |w| ensures FollowAt(vs, w, j) {
      if j < |a| {
        assert FollowAt(vs, a, j);
      } else {
        assert FollowAt(vs, b, j - |a|);
        assert j > |a| ==> w[j - 1] == b[j - |a| - 1];
      }
    }
  }

  lemma {:induction false} WeaveBlockFacts(vs: seq<Value>, b: BasicBlock)
    requires Plain(b)
    ensures StoresFollow(vs, WeaveBlock(vs, b)) && NoInit(WeaveBlock(vs, b))
  {
    if b != [] {
      WeaveBlockFacts(vs, b[1..]);
      assert b[0] in b;
      WeaveInstrFacts(vs, b[0]);
      StoresFollowConcat(vs, WeaveInstr(vs, b[0]), WeaveBlock(vs, b[1..]));
    }
  }

  lemma WeaveInstrFacts(vs: seq<Value>, i: Instr)
    requires !i.Runtime?
    ensures StoresFollow(vs, WeaveInstr(vs, i)) && NoInit(WeaveInstr(vs, i))
  {
    var w := WeaveInstr(vs, i);
    if FinalizeCall(i) {
      assert w == [Runtime(PrintCall), i];
    } else if i.Compute? && i.dst in vs {
      assert w == [i, Runtime(StoreCall(IdOf(vs, i.dst), i.dst))];
    } else {
      assert w == [i];
    }
  }

  lemma {:induction false} WeaveEntryFacts(vs: seq<Value>, b: BasicBlock) returns (p: nat)
    requires Plain(b)
    ensures StoresFollow(vs, WeaveEntry(vs, b)) && InitAt(vs, WeaveEntry(vs, b), p)
  {
    var w := WeaveEntry(vs, b);
    if b != [] && PhiOrDbg(b[0]) {
      var q := WeaveEntryFacts(vs, b[1..]);
      p := q + 1;
      var rest := WeaveEntry(vs, b[1..]);
      assert w == [b[0]] + rest;
      StoresFollowConcat(vs, [b[0]], rest);
      assert forall j :: 0 < j < |w| ==> w[j] == rest[j - 1];
    } else {
      p := 0;
      WeaveBlockFacts(vs, b);
      var rest := WeaveBlock(vs, b);
      assert w == [Runtime(InitCall(|vs|))] + rest;
      StoresFollowConcat(vs, [Runtime(InitCall(|vs|))], rest);
      assert forall j :: 0 < j < |w| ==> w[j] == rest[j - 1];
    }
  }

  /** Ids are a bijection between the detected instructions and the entries of the table. */
  lemma IdsAreBijective(vs: seq<Value>, k: nat)
    requires Distinct(vs) && k < |vs|
    ensures IdOf(vs, vs[k]) == k
  {
  }

  // ---------- what the rewrite makes of modules ----------

  /** No jump leads to an entry block, as LLVM demands. */
  ghost predicate EntryIsNoTarget(m: Code) {
    forall fn, block, j :: 0 <= j < |BlockAt(m, fn, block)| ==>
      var i := BlockAt(m, fn, block)[j];
      (i.Jump? ==> i.target != 0) && (i.CondJump? ==> i.yes != 0 && i.no != 0)
  }

  ghost predicate BlockFacts(vs: seq<Value>, m: Code, e: nat, p: nat, fn: nat, block: nat) {
    var b := BlockAt(m, fn, block);
    && StoresFollow(vs, b) && PrintsPlaced(b)
    && (if fn == e && block == 0 then InitAt(vs, b, p) else NoInit(b))
    && (forall j :: 0 <= j < |b| ==>
          (b[j].Jump? ==> b[j].target != 0) && (b[j].CondJump? ==> b[j].yes != 0 && b[j].no != 0))
  }

  /** m is instrumented for vs, with entry function e and the initialisation at p of its entry block. */
  ghost predicate Instrumented(vs: seq<Value>, m: Code, e: nat, p: nat) {
    Distinct(vs) && forall fn, block {:trigger BlockFacts(vs, m, e, p, fn, block)} :: BlockFacts(vs, m, e, p, fn, block)
  }

  lemma WeaveErases(vs: seq<Value>, m: Code)
    requires WellFormed(m)
    ensures ErasesTo(Weave(vs, m), m)
  {
    var m' := Weave(vs, m);
    forall f | 0 <= f < |m| ensures ErasesToFunction(m'[f], m[f]) {
      forall b | 0 <= b < |m[f].blocks| ensures Erase(m'[f].blocks[b]) == m[f].blocks[b] {
        assert m[f] in m && m[f].blocks[b] in m[f].blocks;
        WeaveBlockErases(vs, m[f].blocks[b]);
        WeaveEntryErases(vs, m[f].blocks[b]);
      }
    }
  }

  /** Every block keeps its PHIs first and its terminator last. */
  lemma WeaveKeepsShape(vs: seq<Value>, m: Code)
    requires WellFormed(m)
    ensures forall f, b :: 0 <= f < |m| && 0 <= b < |Weave(vs, m)[f].blocks| ==>
              WellFormedBlock(Weave(vs, m)[f].blocks[b], true)
  {
    forall f, b | 0 <= f < |m| && 0 <= b < |Weave(vs, m)[f].blocks|
      ensures WellFormedBlock(Weave(vs, m)[f].blocks[b], true)
    {
      assert m[f] in m && m[f].blocks[b] in m[f].blocks;
      WeaveBlockShape(vs, m[f].blocks[b], true);
      WeaveEntryShape(vs, m[f].blocks[b], true);
    }
  }

  // ---------- the widths of what is stored ----------

  /** Every store passes on a value that the instruction before it computes with 32 bits, as the runtime's
      function is declared to take. */
  ghost predicate StoresAre32(b: BasicBlock) {
    forall j :: 0 <= j < |b| && b[j].Runtime? && b[j].call.StoreCall? ==>
      j > 0 && Computes(b[j - 1], b[j].call.value) && b[j - 1].bits == 32
  }

  ghost predicate DetectedAre32(vs: seq<Value>, b: BasicBlock) {
    forall i :: i in b && i.Compute? && i.dst in vs ==> i.bits == 32
  }

  lemma {:induction false} EraseKeeps(b: BasicBlock, i: Instr)
    ensures i in Erase(b) <==> i in b && !i.Runtime?
  {
    if b != [] { EraseKeeps(b[1..], i); }
  }

  lemma BlockWidths(vs: seq<Value>, w: BasicBlock, b: BasicBlock)
    requires StoresFollow(vs, w) && Erase(w) == b
    ensures StoresAre32(w) <==> DetectedAre32(vs, b)
  {
    if DetectedAre32(vs, b) {
      forall j | 0 <= j < |w| && w[j].Runtime? && w[j].call.StoreCall?
        ensures j > 0 && Computes(w[j - 1], w[j].call.value) && w[j - 1].bits == 32
      {
        assert FollowAt(vs, w, j);
        EraseKeeps(w, w[j - 1]);
      }
    }
    if StoresAre32(w) {
      forall i | i in b && i.Compute? && i.dst in vs ensures i.bits == 32 {
        EraseKeeps(w, i);
        var j :| 0 <= j < |w| && w[j] == i;
        assert FollowAt(vs, w, j);
        assert w[j + 1].Runtime?;
      }
    }
  }

  lemma WovenWidths(vs: seq<Value>, m: Code, f: nat, b: nat)
    requires WellFormed(m) && f < |m| && b < |m[f].blocks|
    ensures StoresAre32(Weave(vs, m)[f].blocks[b]) <==> DetectedAre32(vs, m[f].blocks[b])
  {
    hide StoresAre32, DetectedAre32, WellFormedBlock, IsMain, StoresFollow, InitAt, WeaveBlock, WeaveEntry, Erase;
    assert m[f] in m && m[f].blocks[b] in m[f].blocks;
    WeaveErases(vs, m);
    WeaveBlockFacts(vs, m[f].blocks[b]);
    var p := WeaveEntryFacts(vs, m[f].blocks[b]);
    assert ErasesToFunction(Weave(vs, m)[f], m[f]);
    BlockWidths(vs, Weave(vs, m)[f].blocks[b], m[f].blocks[b]);
  }

  /** Every inserted store passes a 32-bit value exactly if every detected instruction computes one. */
  lemma StoresTypedIff(vs: seq<Value>, m: Code)
    requires WellFormed(m)
    ensures (forall f, b :: 0 <= f < |m| && 0 <= b < |m[f].blocks| ==> StoresAre32(Weave(vs, m)[f].blocks[b])) <==>
            (forall f, b :: 0 <= f < |m| && 0 <= b < |m[f].blocks| ==> DetectedAre32(vs, m[f].blocks[b]))
  {
    hide StoresAre32, DetectedAre32, WellFormed, IsMain, WeaveBlock, WeaveEntry;
    forall f, b | 0 <= f < |m| && 0 <= b < |m[f].blocks|
      ensures StoresAre32(Weave(vs, m)[f].blocks[b]) <==> DetectedAre32(vs, m[f].blocks[b])
    {
      WovenWidths(vs, m, f, b);
    }
  }

  // ---------- instrumented modules ----------

  lemma WeaveInstruments(vs: seq<Value>, m: Code) returns (p: nat)
    requires WellFormed(m) && Distinct(vs) && EntryIsNoTarget(m)
    requires EntryIndex(m) < |m| && m[EntryIndex(m)].blocks != []
    ensures Instrumented(vs, Weave(vs, m), EntryIndex(m), p)
  {
    var e, m' := EntryIndex(m), Weave(vs, m);
    assert m[e] in m && m[e].blocks[0] in m[e].blocks;
    p := WeaveEntryFacts(vs, m[e].blocks[0]);
    WeaveErases(vs, m);
    forall fn: nat, block: nat ensures BlockFacts(vs, m', e, p, fn, block) {
      JumpsKept(m', m, fn, block);
      BlockStores(vs, m, p, fn, block);
      BlockPrints(vs, m, fn, block);
    }
  }

  lemma BlockStores(vs: seq<Value>, m: Code, p: nat, fn: nat, block: nat)
    requires WellFormed(m) && EntryIndex(m) < |m| && m[EntryIndex(m)].blocks != []
    requires StoresFollow(vs, WeaveEntry(vs, m[EntryIndex(m)].blocks[0]))
    requires InitAt(vs, WeaveEntry(vs, m[EntryIndex(m)].blocks[0]), p)
    ensures var b' := BlockAt(Weave(vs, m), fn, block);
            && StoresFollow(vs, b')
            && (if fn == EntryIndex(m) && block == 0 then InitAt(vs, b', p) else NoInit(b'))
  {
    hide StoresFollow, InitAt, WeaveEntry, WeaveBlock, IsMain;
    if fn < |m| && block < |m[fn].blocks| {
      assert m[fn] in m && m[fn].blocks[block] in m[fn].blocks;
      WeaveBlockFacts(vs, m[fn].blocks[block]);
    } else {
      NothingFollows(vs);
    }
  }

  lemma BlockPrints(vs: seq<Value>, m: Code, fn: nat, block: nat)
    requires WellFormed(m)
    ensures PrintsPlaced(BlockAt(Weave(vs, m), fn, block))
  {
    WeavePrints(vs, m);
    hide PrintsPlaced, WeaveEntry, WeaveBlock, EntryIndex, WellFormed;
    if !(fn < |m| && block < |m[fn].blocks|) { NothingPrinted(); }
  }

  lemma NothingPrinted()
    ensures PrintsPlaced([])
  {
  }

  lemma NothingFollows(vs: seq<Value>)
    ensures StoresFollow(vs, [])
  {
  }

  lemma JumpsKept(m': Code, m: Code, fn: nat, block: nat)
    requires ErasesTo(m', m) && EntryIsNoTarget(m)
    ensures forall j :: 0 <= j < |BlockAt(m', fn, block)| ==>
              var i := BlockAt(m', fn, block)[j];
              (i.Jump? ==> i.target != 0) && (i.CondJump? ==> i.yes != 0 && i.no != 0)
  {
    BlockErases(m', m, fn, block);
    var b, b' := BlockAt(m, fn, block), BlockAt(m', fn, block);
    forall j | 0 <= j < |b'| && !b'[j].Runtime?
      ensures (b'[j].Jump? ==> b'[j].target != 0) && (b'[j].CondJump? ==> b'[j].yes != 0 && b'[j].no != 0)
    {
      EraseAt(b', j);
      assert b[|Erase(b'[..j])|] == BlockAt(m, fn, block)[|Erase(b'[..j])|];
    }
  }

  // ---------- what was produced ----------

  /** How an event changes the maximum for v: entering the entry function starts afresh. */
  function OnEvent(max: int, e: nat, v: Value, ev: Event): int {
    match ev
    case Entered(fn) => if fn == e then -1 else max
    case Produced(u, x) => if u == v then Rt.Max(max, x) else max
    case Silent => max
  }

  /** max(-1, the values v took in es since the entry function was last entered). */
  function MaxProduced(es: seq<Event>, e: nat, v: Value): int {
    if es == [] then -1 else OnEvent(MaxProduced(es[..|es| - 1], e, v), e, v, es[|es| - 1])
  }

  /** Nothing after position i enters the entry function again. */
  ghost predicate NoEntryFrom(es: seq<Event>, e: nat, i: nat) {
    forall j :: i <= j < |es| ==> es[j] != Entered(e)
  }

  /** v took the value x since the entry function was last entered. */
  ghost predicate ProducedSince(es: seq<Event>, e: nat, v: Value, x: int) {
    exists i :: 0 <= i < |es| && es[i] == Produced(v, x) && NoEntryFrom(es, e, i)
  }

  lemma ProducedSnoc(es: seq<Event>, e: nat, v: Value, x: int, last: Event)
    ensures ProducedSince(es + [last], e, v, x) <==>
              last == Produced(v, x) || (last != Entered(e) && ProducedSince(es, e, v, x))
  {
    var es' := es + [last];
    assert es'[|es|] == last;
    if last == Produced(v, x) {
      assert es'[|es|] == Produced(v, x) && NoEntryFrom(es', e, |es|);
    } else if last != Entered(e) && ProducedSince(es, e, v, x) {
      var i :| 0 <= i < |es| && es[i] == Produced(v, x) && NoEntryFrom(es, e, i);
      assert es'[i] == Produced(v, x) && NoEntryFrom(es', e, i);
    }
    if ProducedSince(es', e, v, x) && last != Produced(v, x) {
      var i :| 0 <= i < |es'| && es'[i] == Produced(v, x) && NoEntryFrom(es', e, i);
      assert forall j :: 0 <= j < |es| ==> es[j] == es'[j];
      assert es[i] == Produced(v, x) && NoEntryFrom(es, e, i);
    }
  }

  /** MaxProduced is that maximum: a bound, and attained unless it is -1. */
  lemma {:induction false} MaxProducedIsMax(es: seq<Event>, e: nat, v: Value)
    ensures var x := MaxProduced(es, e, v);
            && x >= -1
            && (forall y :: ProducedSince(es, e, v, y) ==> y <= x)
            && (x == -1 || ProducedSince(es, e, v, x))
  {
    if es != [] {
      var before, last := es[..|es| - 1], es[|es| - 1];
      assert es == before + [last];
      MaxProducedIsMax(before, e, v);
      forall y ensures ProducedSince(es, e, v, y) <==>
                         last == Produced(v, y) || (last != Entered(e) && ProducedSince(before, e, v, y)) {
        ProducedSnoc(before, e, v, y, last);
      }
    }
  }

  lemma MaxProducedSnoc(es: seq<Event>, e: nat, v: Value, ev: Event)
    ensures MaxProduced(es + [ev], e, v) == OnEvent(MaxProduced(es, e, v), e, v, ev)
  {
    assert (es + [ev])[..|es|] == es;
  }

  /** The table holds the maxima of history h. */
  ghost predicate Records(vs: seq<Value>, e: nat, h: seq<Event>, table: seq<int>) {
    |table| == |vs| && forall k :: 0 <= k < |vs| ==> table[k] == MaxProduced(h, e, vs[k])
  }

  ghost predicate NothingYet(vs: seq<Value>, e: nat, h: seq<Event>) {
    forall k :: 0 <= k < |vs| ==> MaxProduced(h, e, vs[k]) == -1
  }

  // ---------- the invariant of instrumented runs ----------

  /** The entry function has been entered, but its table is not initialised yet. */
  ghost predicate AtStart(e: nat, p: nat, f: Frame) {
    f.fn == e && f.block == 0 && f.index <= p
  }

  predicate IsStore(i: Option<Instr>) {
    i.Some? && i.value.Runtime? && i.value.call.StoreCall?
  }

  /** The store that stands next records the value that was produced last. */
  ghost predicate StorePending(vs: seq<Value>, e: nat, c: RuntimeCall, f: Frame, h: seq<Event>, table: seq<int>) {
    && c.StoreCall? && c.value in vs && c.id == IdOf(vs, c.value)
    && h != [] && h[|h| - 1] == Produced(c.value, Eval(f.regs, c.value))
    && Records(vs, e, h[..|h| - 1], table)
  }

  ghost predicate TopInv(vs: seq<Value>, m: Code, e: nat, p: nat, s: State, h: seq<Event>) {
    if s.frames == [] then Records(vs, e, h, s.rt.table)
    else
      var f, i := s.frames[|s.frames| - 1], TopInstr(m, s);
      if AtStart(e, p, f) then NothingYet(vs, e, h)
      else if IsStore(i) then StorePending(vs, e, i.value.call, f, h, s.rt.table)
      else Records(vs, e, h, s.rt.table)
  }

  ghost predicate Below(m: Code, e: nat, p: nat, s: State) {
    forall k :: 0 <= k < |s.frames| - 1 ==> Waiting(m, s.frames[k]) && !AtStart(e, p, s.frames[k])
  }

  ghost predicate Inv(vs: seq<Value>, m: Code, e: nat, p: nat, s: State, h: seq<Event>) {
    TopInv(vs, m, e, p, s, h) && Below(m, e, p, s)
  }

  function Extended(h: seq<Event>, ev: Event): seq<Event> {
    if ev.Silent? then h else h + [ev]
  }

  lemma RecordsSnoc(vs: seq<Value>, e: nat, h: seq<Event>, table: seq<int>, ev: Event)
    requires Records(vs, e, h, table)
    requires match ev { case Entered(fn) => fn != e case Produced(v, _) => v !in vs case Silent => true }
    ensures Records(vs, e, Extended(h, ev), table)
  {
    forall k | 0 <= k < |vs| { MaxProducedSnoc(h, e, vs[k], ev); }
  }

  /** Executing the pending store brings the table up to date. */
  lemma StoreRecords(vs: seq<Value>, e: nat, h: seq<Event>, rt: Rt.RankState, v: Value, x: int)
    requires Distinct(vs) && v in vs && h != [] && h[|h| - 1] == Produced(v, x)
    requires Records(vs, e, h[..|h| - 1], rt.table)
    ensures Records(vs, e, h, Rt.Effect(rt, Rt.Store(IdOf(vs, v), x)).table)
  {
    var before := h[..|h| - 1];
    assert h == before + [Produced(v, x)];
    forall k | 0 <= k < |vs| { MaxProducedSnoc(before, e, vs[k], Produced(v, x)); }
  }

  lemma InitRecords(vs: seq<Value>, e: nat, h: seq<Event>, rt: Rt.RankState)
    requires NothingYet(vs, e, h)
    ensures Records(vs, e, h, Rt.Effect(rt, Rt.Init(|vs|)).table)
  {
  }

  /** A frame may stand at a store only right behind a detected instruction. */
  lemma NoStoreHere(vs: seq<Value>, m: Code, e: nat, p: nat, f: Frame)
    requires Instrumented(vs, m, e, p)
    requires var b := BlockAt(m, f.fn, f.block);
             f.index > 0 && f.index <= |b| ==> !(b[f.index - 1].Compute? && b[f.index - 1].dst in vs)
    ensures var b := BlockAt(m, f.fn, f.block);
            f.index < |b| ==> !IsStore(Some(b[f.index]))
  {
    assert BlockFacts(vs, m, e, p, f.fn, f.block);
    var b := BlockAt(m, f.fn, f.block);
    if f.index < |b| { assert FollowAt(vs, b, f.index); }
  }

  /** Before the initialisation there are only PHIs, debug intrinsics and the initialisation itself. */
  lemma StartInstr(vs: seq<Value>, m: Code, e: nat, p: nat, s: State)
    requires Instrumented(vs, m, e, p) && s.frames != [] && TopInstr(m, s).Some?
    ensures var f, i := s.frames[|s.frames| - 1], TopInstr(m, s).value;
            && (AtStart(e, p, f) ==> if f.index == p then i == Runtime(InitCall(|vs|)) else PhiOrDbg(i))
            && (IsInit(i) ==> AtStart(e, p, f) && f.index == p && i == Runtime(InitCall(|vs|)))
  {
    var f := s.frames[|s.frames| - 1];
    assert BlockFacts(vs, m, e, p, f.fn, f.block);
  }

  /** The frames below the active one are untouched by steps within a function. */
  lemma BelowKept(m: Code, e: nat, p: nat, s: State, f: Frame, w: World, rt: Rt.RankState)
    requires Below(m, e, p, s) && s.frames != []
    ensures Below(m, e, p, WithTop(s, f).(world := w).(rt := rt))
  {
    hide Waiting, AtStart;
  }

  /** A step to a place that is neither before the initialisation nor at a store. */
  lemma Settled(vs: seq<Value>, m: Code, e: nat, p: nat, s: State, h: seq<Event>)
    requires s.frames != [] ==> !AtStart(e, p, s.frames[|s.frames| - 1]) && !IsStore(TopInstr(m, s))
    requires Records(vs, e, h, s.rt.table) && Below(m, e, p, s)
    ensures Inv(vs, m, e, p, s, h)
  {
  }

  lemma RuntimeKeeps(sem: Meaning, vs: seq<Value>, m: Code, e: nat, p: nat, s: State, h: seq<Event>)
    requires Instrumented(vs, m, e, p) && Inv(vs, m, e, p, s, h)
    requires TopInstr(m, s).Some? && TopInstr(m, s).value.Runtime?
    ensures Inv(vs, m, e, p, Step(sem, m, s).state, h)
  {
    var f, c := s.frames[|s.frames| - 1], TopInstr(m, s).value.call;
    var t := Step(sem, m, s).state;
    StartInstr(vs, m, e, p, s);
    NoStoreHere(vs, m, e, p, Advance(f));
    BelowKept(m, e, p, s, Advance(f), s.world, t.rt);
    match c {
      case InitCall(_) => InitRecords(vs, e, h, s.rt);
      case StoreCall(id, v) => StoreRecords(vs, e, h, s.rt, v, Eval(f.regs, v));
      case PrintCall =>
    }
    assert t.frames[|t.frames| - 1] == Advance(f);
    Settled(vs, m, e, p, t, h);
  }

  /** PHIs, debug intrinsics, jumps, and calls of functions without a body: nothing is recorded. */
  lemma SilentKeeps(vs: seq<Value>, m: Code, e: nat, p: nat, s: State, h: seq<Event>, g: Frame, w: World)
    requires Instrumented(vs, m, e, p) && Inv(vs, m, e, p, s, h)
    requires TopInstr(m, s).Some? && !TopInstr(m, s).value.Runtime? && !TopInstr(m, s).value.Compute?
    requires var f, i := s.frames[|s.frames| - 1], TopInstr(m, s).value;
             if i.Jump? || i.CondJump? then g.fn == f.fn && g.block != 0 && g.index == 0
             else g.fn == f.fn && g.block == f.block && g.index == f.index + 1
    ensures Inv(vs, m, e, p, WithTop(s, g).(world := w), h)
  {
    var f, i := s.frames[|s.frames| - 1], TopInstr(m, s).value;
    var t := WithTop(s, g).(world := w);
    StartInstr(vs, m, e, p, s);
    NoStoreHere(vs, m, e, p, g);
    BelowKept(m, e, p, s, g, w, s.rt);
    assert t.frames[|t.frames| - 1] == g;
    if !AtStart(e, p, g) { Settled(vs, m, e, p, t, h); }
  }

  lemma ComputeKeeps(vs: seq<Value>, m: Code, e: nat, p: nat, s: State, h: seq<Event>, x: int, w: World)
    requires Instrumented(vs, m, e, p) && Inv(vs, m, e, p, s, h)
    requires TopInstr(m, s).Some? && TopInstr(m, s).value.Compute?
    ensures var f, v := s.frames[|s.frames| - 1], TopInstr(m, s).value.dst;
            Inv(vs, m, e, p, WithTop(s, Advance(f).(regs := f.regs[v := x])).(world := w), h + [Produced(v, x)])
  {
    var f, v := s.frames[|s.frames| - 1], TopInstr(m, s).value.dst;
    var g := Advance(f).(regs := f.regs[v := x]);
    var t := WithTop(s, g).(world := w);
    StartInstr(vs, m, e, p, s);
    BelowKept(m, e, p, s, g, w, s.rt);
    assert t.frames[|t.frames| - 1] == g && (h + [Produced(v, x)])[..|h|] == h;
    if v in vs {
      assert BlockFacts(vs, m, e, p, f.fn, f.block);
      assert FollowAt(vs, BlockAt(m, f.fn, f.block), f.index);
    } else {
      NoStoreHere(vs, m, e, p, g);
      RecordsSnoc(vs, e, h, s.rt.table, Produced(v, x));
      Settled(vs, m, e, p, t, h + [Produced(v, x)]);
    }
  }

  lemma CallKeeps(vs: seq<Value>, m: Code, e: nat, p: nat, s: State, h: seq<Event>, fn: nat, regs: Registers)
    requires Instrumented(vs, m, e, p) && Inv(vs, m, e, p, s, h)
    requires TopInstr(m, s).Some? && TopInstr(m, s).value.Call?
    ensures Inv(vs, m, e, p, s.(frames := s.frames + [Frame(fn, 0, 0, 0, regs, regs)]), h + [Entered(fn)])
  {
    var g := Frame(fn, 0, 0, 0, regs, regs);
    var t := s.(frames := s.frames + [g]);
    StartInstr(vs, m, e, p, s);
    NoStoreHere(vs, m, e, p, g);
    assert Below(m, e, p, t);
    assert t.frames[|t.frames| - 1] == g;
    if fn == e {
      forall k | 0 <= k < |vs| ensures MaxProduced(h + [Entered(fn)], e, vs[k]) == -1 {
        MaxProducedSnoc(h, e, vs[k], Entered(fn));
      }
    } else {
      RecordsSnoc(vs, e, h, s.rt.table, Entered(fn));
      Settled(vs, m, e, p, t, h + [Entered(fn)]);
    }
  }

  lemma ReturnKeeps(sem: Meaning, vs: seq<Value>, m: Code, e: nat, p: nat, s: State, h: seq<Event>)
    requires Instrumented(vs, m, e, p) && Inv(vs, m, e, p, s, h)
    requires TopInstr(m, s).Some? && TopInstr(m, s).value.Return?
    ensures Inv(vs, m, e, p, Step(sem, m, s).state, h)
  {
    var t := Step(sem, m, s).state;
    StartInstr(vs, m, e, p, s);
    if |s.frames| > 1 {
      var k := |s.frames| - 2;
      var c := s.frames[k];
      assert Waiting(m, c) && !AtStart(e, p, c);
      var g := t.frames[|t.frames| - 1];
      assert g.fn == c.fn && g.block == c.block && g.index == c.index + 1;
      NoStoreHere(vs, m, e, p, g);
      assert forall j :: 0 <= j < k ==> t.frames[j] == s.frames[j];
    }
    Settled(vs, m, e, p, t, h);
  }

  lemma StepKeeps(sem: Meaning, vs: seq<Value>, m: Code, e: nat, p: nat, s: State, h: seq<Event>)
    requires Instrumented(vs, m, e, p) && Inv(vs, m, e, p, s, h) && Step(sem, m, s).Next?
    ensures Inv(vs, m, e, p, Step(sem, m, s).state, Extended(h, Step(sem, m, s).event))
  {
    var i, f := TopInstr(m, s).value, s.frames[|s.frames| - 1];
    TargetsNotEntry(vs, m, e, p, s);
    hide Inv, Instrumented;
    match i
    case Phi(dst, incoming) =>
      var x := if f.prev in incoming then Eval(f.entry, incoming[f.prev]) else 0;
      SilentKeeps(vs, m, e, p, s, h, Advance(f).(regs := f.regs[dst := x]), s.world);
    case Dbg => SilentKeeps(vs, m, e, p, s, h, Advance(f), s.world);
    case Compute(dst, _, op, args) =>
      var (x, w) := sem.compute(op, Evals(f.regs, args), s.world);
      ComputeKeeps(vs, m, e, p, s, h, x, w);
    case Call(dst, callee, args) =>
      var xs := Evals(f.regs, args);
      match Lookup(m, callee) {
        case Some(fn) => CallKeeps(vs, m, e, p, s, h, fn, Bind(m[fn].params, xs));
        case None =>
          var (x, w) := sem.external(callee, xs, s.world);
          SilentKeeps(vs, m, e, p, s, h, Advance(f).(regs := f.regs[dst := x]), w);
      }
    case Jump(target) => SilentKeeps(vs, m, e, p, s, h, Goto(f, target), s.world);
    case CondJump(cond, yes, no) =>
      SilentKeeps(vs, m, e, p, s, h, Goto(f, if Eval(f.regs, cond) != 0 then yes else no), s.world);
    case Return(_) => ReturnKeeps(sem, vs, m, e, p, s, h);
    case Runtime(_) => RuntimeKeeps(sem, vs, m, e, p, s, h);
  }

  lemma TargetsNotEntry(vs: seq<Value>, m: Code, e: nat, p: nat, s: State)
    requires Instrumented(vs, m, e, p) && TopInstr(m, s).Some?
    ensures var i := TopInstr(m, s).value;
            (i.Jump? ==> i.target != 0) && (i.CondJump? ==> i.yes != 0 && i.no != 0)
  {
    var f := s.frames[|s.frames| - 1];
    assert BlockFacts(vs, m, e, p, f.fn, f.block);
  }

  lemma {:induction false} RunKeeps(sem: Meaning, vs: seq<Value>, m: Code, e: nat, p: nat, s: State, h: seq<Event>,
                                    n: nat)
    requires Instrumented(vs, m, e, p) && Inv(vs, m, e, p, s, h)
    ensures Inv(vs, m, e, p, Run(sem, m, s, n).0, h + Run(sem, m, s, n).1)
    decreases n
  {
    hide Inv, Instrumented, Step;
    if n > 0 && Step(sem, m, s).Next? {
      var o := Step(sem, m, s);
      StepKeeps(sem, vs, m, e, p, s, h);
      RunKeeps(sem, vs, m, e, p, o.state, Extended(h, o.event), n - 1);
      var es := Run(sem, m, o.state, n - 1).1;
      assert Extended(h, o.event) + es == h + ((if o.event.Silent? then [] else [o.event]) + es);
    } else {
      assert h + [] == h;
    }
  }

  // ---------- the theorems ----------

  /** A module whose main function has a body, and in which no jump leads to an entry block. */
  ghost predicate Runnable(m: Code, vs: seq<Value>) {
    && WellFormed(m) && Distinct(vs) && EntryIsNoTarget(m)
    && EntryIndex(m) < |m| && m[EntryIndex(m)].blocks != []
  }

  /** The main function has just been entered. */
  function StartState(m: Code, regs: Registers, world: World, rt: Rt.RankState): State {
    State([Frame(EntryIndex(m), 0, 0, 0, regs, regs)], world, rt)
  }

  lemma StartSame(m: Code, vs: seq<Value>, s: State, regs: Registers, world: World, rt: Rt.RankState)
    requires Runnable(m, vs) && s == StartState(m, regs, world, rt)
    ensures ErasesTo(Weave(vs, m), m) && Same(Weave(vs, m), s, s)
  {
    WeaveErases(vs, m);
    assert BlockAt(Weave(vs, m), EntryIndex(m), 0)[..0] == [];
  }

  /**
   Every run of the instrumented module is, runtime calls aside, a run of the original module: same world,
   registers, control and visible events. And whenever the initialisation has run and no store stands next,
   the table holds for each id the maximum of -1 and of all values its instruction has produced since main
   was last entered; a store that stands next is inside the table.
   */
  lemma InstrumentedRun(sem: Meaning, m: Code, vs: seq<Value>, s: State, regs: Registers, world: World,
                        rt: Rt.RankState, n: nat) returns (k: nat, p: nat)
    requires Runnable(m, vs) && s == StartState(m, regs, world, rt)
    ensures var m' := Weave(vs, m);
            var (s', es) := Run(sem, m', s, n);
            && k <= n && Run(sem, m, s, k).1 == es && Same(m', s', Run(sem, m, s, k).0)
            && InitAt(vs, BlockAt(m', EntryIndex(m), 0), p)
            && var atStart := s'.frames != [] && AtStart(EntryIndex(m), p, s'.frames[|s'.frames| - 1]);
            && var next := TopInstr(m', s');
            && (!atStart && !IsStore(next) ==> Records(vs, EntryIndex(m), es, s'.rt.table))
            && (!atStart && IsStore(next) ==>
                  next.value.call.id < |s'.rt.table| && es != [] &&
                  Records(vs, EntryIndex(m), es[..|es| - 1], s'.rt.table))
            && (atStart ==> !IsStore(next))
  {
    var m', e := Weave(vs, m), EntryIndex(m);
    p := WeaveInstruments(vs, m);
    StartSame(m, vs, s, regs, world, rt);
    k := RunsErase(sem, m', m, s, s, n);
    assert BlockFacts(vs, m', e, p, e, 0);
    StartInv(vs, m', e, p, s);
    RunKeeps(sem, vs, m', e, p, s, [], n);
    var (s', es) := Run(sem, m', s, n);
    assert [] + es == es;
    if TopInstr(m', s').Some? { StartInstr(vs, m', e, p, s'); }
  }

  lemma StartInv(vs: seq<Value>, m: Code, e: nat, p: nat, s: State)
    requires |s.frames| == 1 && s.frames[0].fn == e && s.frames[0].block == 0 && s.frames[0].index == 0
    ensures Inv(vs, m, e, p, s, [])
  {
  }

  /** Conversely, every run of the original module is matched by a run of the instrumented one. */
  lemma OriginalRun(sem: Meaning, m: Code, vs: seq<Value>, s: State, regs: Registers, world: World,
                    rt: Rt.RankState, k: nat) returns (n: nat)
    requires Runnable(m, vs) && s == StartState(m, regs, world, rt)
    ensures var m' := Weave(vs, m);
            Run(sem, m', s, n).1 == Run(sem, m, s, k).1 && Same(m', Run(sem, m', s, n).0, Run(sem, m, s, k).0)
  {
    StartSame(m, vs, s, regs, world, rt);
    n := RunsLift(sem, Weave(vs, m), m, s, s, k);
  }

  // ---------- prints and finalisation ----------

  lemma {:induction false} RunSnoc(sem: Meaning, m: Code, s: State, n: nat)
    ensures Run(sem, m, s, n + 1).0 ==
            match Step(sem, m, Run(sem, m, s, n).0) {
              case Next(t, _) => t
              case Stuck => Run(sem, m, s, n).0
            }
    decreases n
  {
    hide Step;
    if n > 0 && Step(sem, m, s).Next? { RunSnoc(sem, m, Step(sem, m, s).state, n - 1); }
  }

  predicate AtFinalize(i: Option<Instr>) {
    i.Some? && i.value.Call? && i.value.callee in {"MPI_Finalize", "mpi_finalize_", "mpi_finalize_f08_"}
  }

  lemma PrintedNext(sem: Meaning, vs: seq<Value>, m: Code, e: nat, p: nat, s: State)
    requires Instrumented(vs, m, e, p) && TopInstr(m, s) == Some(Runtime(PrintCall))
    ensures Step(sem, m, s).Next? && AtFinalize(TopInstr(m, Step(sem, m, s).state))
  {
    var f := s.frames[|s.frames| - 1];
    assert BlockFacts(vs, m, e, p, f.fn, f.block);
    assert PrintAt(BlockAt(m, f.fn, f.block), f.index);
    assert WithTop(s, Advance(f)).frames[|s.frames| - 1] == Advance(f);
  }

  /** A frame that stands at a finalisation call has a print right behind it. */
  lemma PrintBehind(vs: seq<Value>, m: Code, e: nat, p: nat, s: State)
    requires Instrumented(vs, m, e, p) && AtFinalize(TopInstr(m, s))
    ensures var f := s.frames[|s.frames| - 1];
            f.index > 0 && BlockAt(m, f.fn, f.block)[f.index - 1] == Runtime(PrintCall)
  {
    var f := s.frames[|s.frames| - 1];
    assert BlockFacts(vs, m, e, p, f.fn, f.block);
    assert PrintAt(BlockAt(m, f.fn, f.block), f.index);
  }

  /** Where a step leaves the active frame: at the start of a block, or behind the instruction executed, or behind
      the call that it returns to. */
  lemma StepLands(sem: Meaning, vs: seq<Value>, m: Code, e: nat, p: nat, s: State, h: seq<Event>)
    requires Inv(vs, m, e, p, s, h) && Step(sem, m, s).Next?
    ensures var t := Step(sem, m, s).state;
            t.frames != [] ==>
              var f, g := s.frames[|s.frames| - 1], t.frames[|t.frames| - 1];
              || g.index == 0
              || (g.fn == f.fn && g.block == f.block && g.index == f.index + 1)
              || (g.index <= |BlockAt(m, g.fn, g.block)| && BlockAt(m, g.fn, g.block)[g.index - 1].Call?)
  {
    hide TopInv, Step, AtStart, BlockAt;
    StuckIsEnd(sem, m, s);
    if TopInstr(m, s).value.Return? {
      ReturnFrames(sem, m, s);
      if |s.frames| > 1 {
        var c := s.frames[|s.frames| - 2];
        assert Waiting(m, c);
        ReturnLands(m, c, Eval(s.frames[|s.frames| - 1].regs, TopInstr(m, s).value.result));
      }
    } else {
      OtherFrames(sem, m, s);
    }
  }

  lemma ReturnFrames(sem: Meaning, m: Code, s: State)
    requires TopInstr(m, s).Some? && TopInstr(m, s).value.Return?
    ensures Step(sem, m, s).Next?
    ensures var t, k := Step(sem, m, s).state, |s.frames| - 2;
            if k < 0 then t.frames == []
            else
              var x := Eval(s.frames[k + 1].regs, TopInstr(m, s).value.result);
              t.frames == s.frames[..k] + [ReturnTo(m, s.frames[k], x)]
  {
    hide BlockAt, ReturnTo, LookupFrom, Bind, Evals, Rt.Effect;
    var rest := s.frames[..|s.frames| - 1];
    assert |s.frames| > 1 ==> rest[..|rest| - 1] == s.frames[..|s.frames| - 2];
  }

  lemma OtherFrames(sem: Meaning, m: Code, s: State)
    requires TopInstr(m, s).Some? && !TopInstr(m, s).value.Return? && Step(sem, m, s).Next?
    ensures var t := Step(sem, m, s).state;
            && t.frames != []
            && var f, g := s.frames[|s.frames| - 1], t.frames[|t.frames| - 1];
            g.index == 0 || (g.fn == f.fn && g.block == f.block && g.index == f.index + 1)
  {
    hide BlockAt, ReturnTo, LookupFrom, Bind, Evals, Rt.Effect;
  }

  lemma ReturnLands(m: Code, c: Frame, x: int)
    requires Waiting(m, c)
    ensures var g := ReturnTo(m, c, x);
            0 < g.index <= |BlockAt(m, g.fn, g.block)| && BlockAt(m, g.fn, g.block)[g.index - 1].Call?
  {
  }

  /**
   In an instrumented run a print is executed directly before each call that finalises MPI, and at no other
   time: whenever a print stands next, such a call follows it, and whenever such a call stands next, a print
   was the last step.
   */
  lemma PrintsBeforeFinalize(sem: Meaning, m: Code, vs: seq<Value>, s: State, regs: Registers, world: World,
                             rt: Rt.RankState, n: nat)
    requires Runnable(m, vs) && s == StartState(m, regs, world, rt)
    ensures var m' := Weave(vs, m);
            var next, after := TopInstr(m', Run(sem, m', s, n).0), TopInstr(m', Run(sem, m', s, n + 1).0);
            && (next == Some(Runtime(PrintCall)) ==>
                  after.Some? && after.value.Call? &&
                  after.value.callee in {"MPI_Finalize", "mpi_finalize_", "mpi_finalize_f08_"})
            && (after.Some? && after.value.Call? &&
                after.value.callee in {"MPI_Finalize", "mpi_finalize_", "mpi_finalize_f08_"} ==>
                  next == Some(Runtime(PrintCall)))
    ensures var first := TopInstr(Weave(vs, m), s);
            !(first.Some? && first.value.Call? &&
              first.value.callee in {"MPI_Finalize", "mpi_finalize_", "mpi_finalize_f08_"})
  {
    hide Runnable, Step, Instrumented, Inv, TopInstr, InitAt, Weave, EntryIndex;
    var m', e := Weave(vs, m), EntryIndex(m);
    var p := RunnableInstruments(vs, m);
    StartInv(vs, m', e, p, s);
    RunKeeps(sem, vs, m', e, p, s, [], n);
    RunSnoc(sem, m', s, n);
    var u := Run(sem, m', s, n).0;
    if TopInstr(m', u) == Some(Runtime(PrintCall)) { PrintedNext(sem, vs, m', e, p, u); }
    PrintedBefore(sem, vs, m', e, p, u, [] + Run(sem, m', s, n).1);
    if AtFinalize(TopInstr(m', s)) { PrintBehind(vs, m', e, p, s); }
  }

  lemma RunnableInstruments(vs: seq<Value>, m: Code) returns (p: nat)
    requires Runnable(m, vs)
    ensures Instrumented(vs, Weave(vs, m), EntryIndex(m), p)
  {
    p := WeaveInstruments(vs, m);
  }

  lemma PrintedBefore(sem: Meaning, vs: seq<Value>, m: Code, e: nat, p: nat, s: State, h: seq<Event>)
    requires Instrumented(vs, m, e, p) && Inv(vs, m, e, p, s, h)
    ensures Step(sem, m, s).Next? && AtFinalize(TopInstr(m, Step(sem, m, s).state)) ==>
              TopInstr(m, s) == Some(Runtime(PrintCall))
    ensures Step(sem, m, s).Stuck? ==> TopInstr(m, s).None?
  {
    hide Instrumented, Inv, Step, BlockAt, AtFinalize;
    StuckIsEnd(sem, m, s);
    if Step(sem, m, s).Next? && AtFinalize(TopInstr(m, Step(sem, m, s).state)) {
      FinalizeHasFrame(m, Step(sem, m, s).state);
      PrintBehind(vs, m, e, p, Step(sem, m, s).state);
      StepLands(sem, vs, m, e, p, s, h);
    }
  }

  lemma FinalizeHasFrame(m: Code, s: State)
    requires AtFinalize(TopInstr(m, s))
    ensures s.frames != []
  {
  }

  lemma StuckIsEnd(sem: Meaning, m: Code, s: State)
    ensures Step(sem, m, s).Stuck? <==> TopInstr(m, s).None?
  {
    hide LookupFrom, Bind, Evals, Rt.Effect, BlockAt;
  }
}
