/** Running code step by step, and the simulation between instrumented and original code. */
module Execution {
  import opened Collections
  import opened Reachability
  import opened Code
  import Rt = Runtime

  /** Memory, files and other ranks: whatever instructions may read or change besides registers. */
  type World = int

  /** What instructions do: arbitrary functions, so that every interpretation is covered. */
  datatype Meaning = Meaning(
    compute: (int, seq<int>, World) -> (int, World),
    external: (string, seq<int>, World) -> (int, World),
    rank: int)

  type Registers = map<Value, int>

  /** One activation. entry holds the registers as the block was entered, which PHIs read. */
  datatype Frame = Frame(fn: nat, block: nat, index: nat, prev: nat, entry: Registers, regs: Registers)

  /** The active frame is the last one. */
  datatype State = State(frames: seq<Frame>, world: World, rt: Rt.RankState)

  datatype Event = Silent | Produced(v: Value, x: int) | Entered(fn: nat)

  datatype Outcome = Stuck | Next(state: State, event: Event)

  function Eval(regs: Registers, v: Value): int {
    if v in regs then regs[v] else 0
  }

  function Evals(regs: Registers, vs: seq<Value>): seq<int> {
    seq(|vs|, k requires 0 <= k < |vs| => Eval(regs, vs[k]))
  }

  function Bind(params: seq<Value>, xs: seq<int>): Registers {
    if params == [] || xs == [] then map[] else map[params[0] := xs[0]] + Bind(params[1..], xs[1..])
  }

  function BlockAt(m: Code, fn: nat, block: nat): BasicBlock {
    if fn < |m| && block < |m[fn].blocks| then m[fn].blocks[block] else []
  }

  /** The function with a body that a callee name stands for. */
  function Lookup(m: Code, callee: string): Option<nat> {
    LookupFrom(m, callee, 0)
  }

  function LookupFrom(m: Code, callee: string, k: nat): (r: Option<nat>)
    ensures r.Some? ==> r.value < |m| && m[r.value].blocks != []
    decreases |m| - k
  {
    if k >= |m| then None
    else if m[k].name == callee && m[k].blocks != [] then Some(k)
    else LookupFrom(m, callee, k + 1)
  }

  function TopInstr(m: Code, s: State): Option<Instr> {
    if s.frames == [] then None
    else
      var f := s.frames[|s.frames| - 1];
      var b := BlockAt(m, f.fn, f.block);
      if f.index < |b| then Some(b[f.index]) else None
  }

  function Goto(f: Frame, target: nat): Frame {
    f.(block := target, index := 0, prev := f.block, entry := f.regs)
  }

  function Advance(f: Frame): Frame {
    f.(index := f.index + 1)
  }

  function OpOf(sem: Meaning, c: RuntimeCall, regs: Registers): Rt.Op {
    match c
    case InitCall(len) => Rt.Init(len)
    case StoreCall(id, v) => Rt.Store(id, Eval(regs, v))
    case PrintCall => Rt.Print(sem.rank)
  }

  function WithTop(s: State, f: Frame): State
    requires s.frames != []
  {
    s.(frames := s.frames[..|s.frames| - 1] + [f])
  }

  function Step(sem: Meaning, m: Code, s: State): Outcome {
    match TopInstr(m, s)
    case None => Stuck
    case Some(i) =>
      var rest, top := s.frames[..|s.frames| - 1], s.frames[|s.frames| - 1];
      match i
      case Phi(dst, incoming) =>
        var x := if top.prev in incoming then Eval(top.entry, incoming[top.prev]) else 0;
        Next(WithTop(s, Advance(top).(regs := top.regs[dst := x])), Silent)
      case Dbg => Next(WithTop(s, Advance(top)), Silent)
      case Compute(dst, _, op, args) =>
        var (x, w) := sem.compute(op, Evals(top.regs, args), s.world);
        Next(WithTop(s, Advance(top).(regs := top.regs[dst := x])).(world := w), Produced(dst, x))
      case Call(dst, callee, args) =>
        var xs := Evals(top.regs, args);
        (match Lookup(m, callee)
         case Some(fn) =>
           var regs := Bind(m[fn].params, xs);
           Next(s.(frames := s.frames + [Frame(fn, 0, 0, 0, regs, regs)]), Entered(fn))
         case None =>
           var (x, w) := sem.external(callee, xs, s.world);
           Next(WithTop(s, Advance(top).(regs := top.regs[dst := x])).(world := w), Silent))
      case Jump(target) => Next(WithTop(s, Goto(top, target)), Silent)
      case CondJump(cond, yes, no) =>
        Next(WithTop(s, Goto(top, if Eval(top.regs, cond) != 0 then yes else no)), Silent)
      case Return(result) =>
        if rest == [] then Next(s.(frames := []), Silent)
        else
          var caller := rest[|rest| - 1];
          var x := Eval(top.regs, result);
          Next(s.(frames := rest[..|rest| - 1] + [ReturnTo(m, caller, x)]), Silent)
      case Runtime(c) =>
        Next(WithTop(s, Advance(top)).(rt := Rt.Effect(s.rt, OpOf(sem, c, top.regs))), Silent)
  }

  /** A caller waits at its call; the result goes where the call says. */
  function ReturnTo(m: Code, caller: Frame, x: int): Frame {
    var b := BlockAt(m, caller.fn, caller.block);
    if caller.index < |b| && b[caller.index].Call? then
      Advance(caller).(regs := caller.regs[b[caller.index].dst := x])
    else caller
  }

  /** The state and the visible events after at most n steps. */
  function Run(sem: Meaning, m: Code, s: State, n: nat): (State, seq<Event>)
    decreases n
  {
    if n == 0 then (s, [])
    else match Step(sem, m, s)
      case Stuck => (s, [])
      case Next(t, e) =>
        var (u, es) := Run(sem, m, t, n - 1);
        (u, (if e.Silent? then [] else [e]) + es)
  }

  /** Running on is running longer. */
  lemma {:induction false} RunTwice(sem: Meaning, m: Code, s: State, a: nat, b: nat)
    ensures Run(sem, m, s, a + b) ==
            (Run(sem, m, Run(sem, m, s, a).0, b).0, Run(sem, m, s, a).1 + Run(sem, m, Run(sem, m, s, a).0, b).1)
    decreases a
  {
    hide Step;
    if a > 0 && Step(sem, m, s).Next? {
      var Next(t, e) := Step(sem, m, s);
      RunTwice(sem, m, t, a - 1, b);
      var first, es := if e.Silent? then [] else [e], Run(sem, m, t, a - 1).1;
      var rest := Run(sem, m, Run(sem, m, s, a).0, b).1;
      assert Run(sem, m, s, a + b).1 == first + Run(sem, m, t, a + b - 1).1;
      assert first + (es + rest) == (first + es) + rest;
    } else {
      var rest := Run(sem, m, s, b).1;
      assert [] + rest == rest;
    }
  }

  lemma RunOn(sem: Meaning, m: Code, s: State, t: State, e: Event, n: nat)
    requires Step(sem, m, s) == Next(t, e)
    ensures Run(sem, m, s, n + 1) == (Run(sem, m, t, n).0, (if e.Silent? then [] else [e]) + Run(sem, m, t, n).1)
    ensures e.Silent? ==> Run(sem, m, s, n + 1) == Run(sem, m, t, n)
  {
    hide Step;
    assert [] + Run(sem, m, t, n).1 == Run(sem, m, t, n).1;
  }

  // ---------- simulation ----------

  /** m' is m with runtime calls added. */
  ghost predicate ErasesTo(m': Code, m: Code) {
    && |m'| == |m|
    && forall f :: 0 <= f < |m| ==> ErasesToFunction(m'[f], m[f])
  }

  ghost predicate ErasesToFunction(f': Function, f: Function) {
    && f'.name == f.name && f'.params == f.params && |f'.blocks| == |f.blocks|
    && forall b :: 0 <= b < |f.blocks| ==> Erase(f'.blocks[b]) == f.blocks[b]
  }

  /** The frames stand at the same instruction: what precedes it differs in runtime calls only. */
  ghost predicate SameFrame(m': Code, f': Frame, f: Frame) {
    var b' := BlockAt(m', f'.fn, f'.block);
    && f' == f.(index := f'.index)
    && f'.index <= |b'|
    && f.index == |Erase(b'[..f'.index])|
  }

  /** A frame that waits for a call to return stands at that call. */
  ghost predicate Waiting(m': Code, f': Frame) {
    var b' := BlockAt(m', f'.fn, f'.block);
    f'.index < |b'| && b'[f'.index].Call?
  }

  /** The same program state: world, registers, control; only the runtime's own state is extra. */
  ghost predicate Same(m': Code, s': State, s: State) {
    && s'.world == s.world && |s'.frames| == |s.frames|
    && (forall k :: 0 <= k < |s.frames| ==> SameFrame(m', s'.frames[k], s.frames[k]))
    && (forall k :: 0 <= k < |s.frames| - 1 ==> Waiting(m', s'.frames[k]))
  }

  lemma EraseAt(b: BasicBlock, k: nat)
    requires k < |b|
    ensures |Erase(b[..k + 1])| == |Erase(b[..k])| + if b[k].Runtime? then 0 else 1
    ensures !b[k].Runtime? ==> |Erase(b[..k])| < |Erase(b)| && Erase(b)[|Erase(b[..k])|] == b[k]
  {
    assert b[..k + 1] == b[..k] + [b[k]];
    EraseConcat(b[..k], [b[k]]);
    assert b == b[..k + 1] + b[k + 1..];
    EraseConcat(b[..k + 1], b[k + 1..]);
    assert Erase([b[k]]) == if b[k].Runtime? then [] else [b[k]];
  }

  lemma BlockErases(m': Code, m: Code, fn: nat, block: nat)
    requires ErasesTo(m', m)
    ensures Erase(BlockAt(m', fn, block)) == BlockAt(m, fn, block)
  {
  }

  lemma LookupSame(m': Code, m: Code, callee: string, k: nat)
    requires ErasesTo(m', m)
    ensures LookupFrom(m', callee, k) == LookupFrom(m, callee, k)
    decreases |m| - k
  {
    if k < |m| { LookupSame(m', m, callee, k + 1); }
  }

  /** Both stand at the same instruction, unless the instrumented code stands at a runtime call. */
  lemma SameInstr(m': Code, m: Code, s': State, s: State)
    requires ErasesTo(m', m) && Same(m', s', s)
    ensures var i' := TopInstr(m', s');
            && (i'.None? ==> TopInstr(m, s).None?)
            && (i'.Some? && !i'.value.Runtime? ==> TopInstr(m, s) == i')
  {
    hide Erase, Waiting;
    if s.frames != [] {
      var k := |s.frames| - 1;
      var f', f := s'.frames[k], s.frames[k];
      assert SameFrame(m', f', f);
      var b' := BlockAt(m', f'.fn, f'.block);
      BlockErases(m', m, f.fn, f.block);
      if f'.index < |b'| { EraseAt(b', f'.index); } else { assert b'[..f'.index] == b'; }
    }
  }

  lemma AdvanceSame(m': Code, f': Frame, f: Frame, regs: Registers)
    requires SameFrame(m', f', f) && f'.index < |BlockAt(m', f'.fn, f'.block)|
    ensures !BlockAt(m', f'.fn, f'.block)[f'.index].Runtime? ==>
              SameFrame(m', Advance(f').(regs := regs), Advance(f).(regs := regs))
    ensures BlockAt(m', f'.fn, f'.block)[f'.index].Runtime? ==> SameFrame(m', Advance(f'), f)
  {
    EraseAt(BlockAt(m', f'.fn, f'.block), f'.index);
  }

  /** A runtime call changes nothing but the runtime's state. */
  lemma RuntimeStep(sem: Meaning, m': Code, s': State, s: State)
    requires Same(m', s', s) && TopInstr(m', s').Some? && TopInstr(m', s').value.Runtime?
    ensures var o := Step(sem, m', s');
            o.Next? && o.event == Silent && Same(m', o.state, s)
  {
    var k := |s.frames| - 1;
    AdvanceSame(m', s'.frames[k], s.frames[k], s.frames[k].regs);
  }

  lemma SameTop(m': Code, s': State, s: State, f': Frame, f: Frame, w: World)
    requires Same(m', s', s) && s.frames != [] && SameFrame(m', f', f)
    ensures Same(m', WithTop(s', f').(world := w), WithTop(s, f).(world := w))
  {
    hide SameFrame, Waiting;
  }

  lemma SamePush(m': Code, s': State, s: State, g: Frame)
    requires Same(m', s', s) && s.frames != [] && Waiting(m', s'.frames[|s'.frames| - 1]) && SameFrame(m', g, g)
    ensures Same(m', s'.(frames := s'.frames + [g]), s.(frames := s.frames + [g]))
  {
    hide SameFrame, Waiting;
  }

  lemma SamePop(m': Code, s': State, s: State, c': Frame, c: Frame)
    requires Same(m', s', s) && |s.frames| > 1 && SameFrame(m', c', c)
    ensures Same(m', s'.(frames := s'.frames[..|s'.frames| - 2] + [c']), s.(frames := s.frames[..|s.frames| - 2] + [c]))
  {
    hide SameFrame, Waiting;
  }

  lemma GotoSame(m': Code, f': Frame, f: Frame, target: nat)
    requires SameFrame(m', f', f)
    ensures SameFrame(m', Goto(f', target), Goto(f, target))
  {
    assert BlockAt(m', f.fn, target)[..0] == [];
  }

  /** Any other step is the same step in both, and shows the same event. */
  lemma OtherStep(sem: Meaning, m': Code, m: Code, s': State, s: State)
    requires ErasesTo(m', m) && Same(m', s', s)
    requires TopInstr(m', s').Some? && !TopInstr(m', s').value.Runtime?
    ensures var o', o := Step(sem, m', s'), Step(sem, m, s);
            o'.Next? && o.Next? && o'.event == o.event && Same(m', o'.state, o.state)
  {
    SameInstr(m', m, s', s);
    var i := TopInstr(m, s).value;
    if i.Call? {
      CallStep(sem, m', m, s', s);
    } else if i.Return? {
      ReturnStep(sem, m', m, s', s);
    } else {
      LocalStep(sem, m', m, s', s);
    }
  }

  lemma LocalStep(sem: Meaning, m': Code, m: Code, s': State, s: State)
    requires ErasesTo(m', m) && Same(m', s', s)
    requires TopInstr(m', s').Some? && TopInstr(m, s) == TopInstr(m', s')
    requires var i := TopInstr(m, s).value; !i.Runtime? && !i.Call? && !i.Return?
    ensures var o', o := Step(sem, m', s'), Step(sem, m, s);
            o'.Next? && o.Next? && o'.event == o.event && Same(m', o'.state, o.state)
  {
    hide Same, SameFrame, ErasesTo, BlockAt, Evals;
    SameWorld(m', s', s);
    var f', f := s'.frames[|s'.frames| - 1], s.frames[|s.frames| - 1];
    var i := TopInstr(m, s).value;
    match i
    case Phi(dst, incoming) =>
      var x := if f.prev in incoming then Eval(f.entry, incoming[f.prev]) else 0;
      TopMoves(m', s', s, f.regs[dst := x], s.world);
    case Dbg => TopMoves(m', s', s, f.regs, s.world);
    case Compute(dst, _, op, args) =>
      var (x, w) := sem.compute(op, Evals(f.regs, args), s.world);
      TopMoves(m', s', s, f.regs[dst := x], w);
    case Jump(target) =>
      GotoSame(m', f', f, target);
      SameTop(m', s', s, Goto(f', target), Goto(f, target), s.world);
    case CondJump(cond, yes, no) =>
      var target := if Eval(f.regs, cond) != 0 then yes else no;
      GotoSame(m', f', f, target);
      SameTop(m', s', s, Goto(f', target), Goto(f, target), s.world);
  }

  lemma SameWorld(m': Code, s': State, s: State)
    requires Same(m', s', s)
    ensures s'.world == s.world && |s'.frames| == |s.frames|
    ensures s.frames != [] ==>
              var f', f := s'.frames[|s.frames| - 1], s.frames[|s.frames| - 1];
              f' == f.(index := f'.index) && SameFrame(m', f', f)
  {
  }

  /** Both active frames move on past an instruction with the same effect on registers and world. */
  lemma TopMoves(m': Code, s': State, s: State, regs: Registers, w: World)
    requires Same(m', s', s) && TopInstr(m', s').Some? && !TopInstr(m', s').value.Runtime?
    ensures var f', f := s'.frames[|s'.frames| - 1], s.frames[|s.frames| - 1];
            && f' == f.(index := f'.index) && s'.world == s.world
            && Same(m', WithTop(s', Advance(f').(regs := regs)).(world := w),
                    WithTop(s, Advance(f).(regs := regs)).(world := w))
  {
    var f', f := s'.frames[|s'.frames| - 1], s.frames[|s.frames| - 1];
    AdvanceSame(m', f', f, regs);
    SameTop(m', s', s, Advance(f').(regs := regs), Advance(f).(regs := regs), w);
  }

  lemma CallStep(sem: Meaning, m': Code, m: Code, s': State, s: State)
    requires ErasesTo(m', m) && Same(m', s', s)
    requires TopInstr(m', s').Some? && TopInstr(m', s').value.Call? && TopInstr(m, s) == TopInstr(m', s')
    ensures var o', o := Step(sem, m', s'), Step(sem, m, s);
            o'.Next? && o.Next? && o'.event == o.event && Same(m', o'.state, o.state)
  {
    hide Same, SameFrame, ErasesTo, Waiting, BlockAt, Bind, Evals, LookupFrom;
    var i := TopInstr(m, s).value;
    LookupSame(m', m, i.callee, 0);
    SameWorld(m', s', s);
    var f', f := s'.frames[|s'.frames| - 1], s.frames[|s.frames| - 1];
    match Lookup(m, i.callee)
    case Some(fn) =>
      var regs := Bind(m[fn].params, Evals(f.regs, i.args));
      CalleeSame(m', m, s', fn, regs);
      SamePush(m', s', s, Frame(fn, 0, 0, 0, regs, regs));
    case None =>
      var (x, w) := sem.external(i.callee, Evals(f.regs, i.args), s.world);
      TopMoves(m', s', s, f.regs[i.dst := x], w);
  }

  lemma CalleeSame(m': Code, m: Code, s': State, fn: nat, regs: Registers)
    requires ErasesTo(m', m) && fn < |m| && TopInstr(m', s').Some? && TopInstr(m', s').value.Call?
    ensures m'[fn].params == m[fn].params
    ensures Waiting(m', s'.frames[|s'.frames| - 1])
    ensures SameFrame(m', Frame(fn, 0, 0, 0, regs, regs), Frame(fn, 0, 0, 0, regs, regs))
  {
    assert ErasesToFunction(m'[fn], m[fn]);
    assert BlockAt(m', fn, 0)[..0] == [];
  }

  lemma ReturnStep(sem: Meaning, m': Code, m: Code, s': State, s: State)
    requires ErasesTo(m', m) && Same(m', s', s)
    requires TopInstr(m', s').Some? && TopInstr(m', s').value.Return? && TopInstr(m, s) == TopInstr(m', s')
    ensures var o', o := Step(sem, m', s'), Step(sem, m, s);
            o'.Next? && o.Next? && o'.event == o.event && Same(m', o'.state, o.state)
  {
    hide Same, SameFrame, ErasesTo, Waiting, BlockAt, ReturnTo;
    SameWorld(m', s', s);
    if |s.frames| > 1 {
      var k := |s.frames| - 2;
      var x := Eval(s.frames[k + 1].regs, TopInstr(m, s).value.result);
      CallerSame(m', s', s);
      ReturnSame(m', m, s'.frames[k], s.frames[k], x);
      SamePop(m', s', s, ReturnTo(m', s'.frames[k], x), ReturnTo(m, s.frames[k], x));
      assert s.frames[..k + 1][..k] == s.frames[..k] && s'.frames[..k + 1][..k] == s'.frames[..k];
    } else {
      NoFrames(m', s', s);
    }
  }

  lemma CallerSame(m': Code, s': State, s: State)
    requires Same(m', s', s) && |s.frames| > 1
    ensures var k := |s.frames| - 2;
            |s'.frames| == |s.frames| && SameFrame(m', s'.frames[k], s.frames[k]) && Waiting(m', s'.frames[k])
  {
  }

  lemma NoFrames(m': Code, s': State, s: State)
    requires Same(m', s', s)
    ensures Same(m', s'.(frames := []), s.(frames := []))
  {
  }

  lemma ReturnSame(m': Code, m: Code, c': Frame, c: Frame, x: int)
    requires ErasesTo(m', m) && SameFrame(m', c', c) && Waiting(m', c')
    ensures SameFrame(m', ReturnTo(m', c', x), ReturnTo(m, c, x))
  {
    var b' := BlockAt(m', c'.fn, c'.block);
    BlockErases(m', m, c.fn, c.block);
    EraseAt(b', c'.index);
    AdvanceSame(m', c', c, c.regs[b'[c'.index].dst := x]);
  }

  /** Every run of the instrumented code, with runtime calls left out, is a run of the original code. */
  lemma {:induction false} RunsErase(sem: Meaning, m': Code, m: Code, s': State, s: State, n: nat) returns (k: nat)
    requires ErasesTo(m', m) && Same(m', s', s)
    ensures k <= n && Run(sem, m', s', n).1 == Run(sem, m, s, k).1
    ensures Same(m', Run(sem, m', s', n).0, Run(sem, m, s, k).0)
    decreases n
  {
    hide Step, Same, ErasesTo, TopInstr;
    k := 0;
    if n > 0 {
      StuckTogether(sem, m', m, s', s);
      var i' := TopInstr(m', s');
      if i'.Some? && i'.value.Runtime? {
        RuntimeStep(sem, m', s', s);
        k := RunsErase(sem, m', m, Step(sem, m', s').state, s, n - 1);
      } else if i'.Some? {
        OtherStep(sem, m', m, s', s);
        k := RunsErase(sem, m', m, Step(sem, m', s').state, Step(sem, m, s).state, n - 1);
        k := k + 1;
      }
    }
  }

  lemma StuckTogether(sem: Meaning, m': Code, m: Code, s': State, s: State)
    requires ErasesTo(m', m) && Same(m', s', s)
    ensures TopInstr(m', s').None? <==> Step(sem, m', s').Stuck?
    ensures TopInstr(m', s').None? ==> Step(sem, m, s).Stuck?
  {
    hide Same, ErasesTo, LookupFrom, Bind, Evals, Rt.Effect;
    SameInstr(m', m, s', s);
  }

  /** How far the active frame is from the end of its block. */
  ghost function Left(m: Code, s: State): nat {
    if s.frames == [] then 0
    else
      var f := s.frames[|s.frames| - 1];
      var b := BlockAt(m, f.fn, f.block);
      if f.index < |b| then |b| - f.index else 0
  }

  /** ... and conversely: runtime calls never hold the original run up. */
  lemma {:induction false} RunsLift(sem: Meaning, m': Code, m: Code, s': State, s: State, k: nat) returns (n: nat)
    requires ErasesTo(m', m) && Same(m', s', s)
    ensures k <= n || Step(sem, m, Run(sem, m, s, k).0).Stuck?
    ensures Run(sem, m', s', n).1 == Run(sem, m, s, k).1
    ensures Same(m', Run(sem, m', s', n).0, Run(sem, m, s, k).0)
    decreases k, Left(m', s')
  {
    hide Same, ErasesTo, TopInstr, Step, Left;
    n := 0;
    if k > 0 {
      StuckTogether(sem, m', m, s', s);
      var i' := TopInstr(m', s');
      if i'.Some? && i'.value.Runtime? {
        RuntimeStep(sem, m', s', s);
        RuntimeLeft(sem, m', s');
        n := RunsLift(sem, m', m, Step(sem, m', s').state, s, k);
        n := n + 1;
      } else if i'.Some? {
        OtherStep(sem, m', m, s', s);
        n := RunsLift(sem, m', m, Step(sem, m', s').state, Step(sem, m, s).state, k - 1);
        n := n + 1;
      }
    }
  }

  lemma RuntimeLeft(sem: Meaning, m': Code, s': State)
    requires TopInstr(m', s').Some? && TopInstr(m', s').value.Runtime?
    ensures Left(m', Step(sem, m', s').state) < Left(m', s')
  {
  }
}
