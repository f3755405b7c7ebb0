/** A run in which arguments, PHIs, branches and results all matter. */
module ExecutionExample {
  import opened Reachability
  import opened Code
  import opened Execution
  import Rt = Runtime

  /** The program computes a value and calls a function, in which a loop swaps it with zero. */
  function SwapLoop(): Code {
    [Function("main", [], [[Compute(1, 32, 7, []), Call(2, "f", [1]), Return(2)]]),
     Function("f", [3], [[Jump(1)],
                         [Phi(4, map[0 := 3, 1 := 5]), Phi(5, map[0 := 6, 1 := 4]), CondJump(5, 2, 1)],
                         [Return(4)]])]
  }

  lemma Facts()
    ensures var m := SwapLoop();
            && BlockAt(m, 0, 0) == [Compute(1, 32, 7, []), Call(2, "f", [1]), Return(2)]
            && BlockAt(m, 1, 0) == [Jump(1)]
            && BlockAt(m, 1, 1) ==
                 [Phi(4, map[0 := 3, 1 := 5]), Phi(5, map[0 := 6, 1 := 4]), CondJump(5, 2, 1)]
            && BlockAt(m, 1, 2) == [Return(4)]
            && |m| == 2 && m[1].params == [3] && m[1].blocks != [] && m[1].name == "f" && m[0].name == "main"
  {
  }

  /** The caller, from its call on, with the value x. */
  function Caller(index: nat, regs: Registers): Frame {
    Frame(0, 0, index, 0, map[], regs)
  }

  function Callee(block: nat, index: nat, prev: nat, entry: Registers, regs: Registers): Frame {
    Frame(1, block, index, prev, entry, regs)
  }

  lemma FirstSteps(sem: Meaning, w: World, rt: Rt.RankState)
    ensures var m, (x, w') := SwapLoop(), sem.compute(7, [], w);
            && Step(sem, m, State([Caller(0, map[])], w, rt)) ==
                 Next(State([Caller(1, map[1 := x])], w', rt), Produced(1, x))
            && Step(sem, m, State([Caller(1, map[1 := x])], w', rt)) ==
                 Next(State([Caller(1, map[1 := x]), Callee(0, 0, 0, map[3 := x], map[3 := x])], w', rt), Entered(1))
  {
    Facts();
    hide SwapLoop;
    var m := SwapLoop();
    var (x, w') := sem.compute(7, [], w);
    assert Evals(map[], []) == [] && Evals(map[1 := x], [1]) == [x];
    assert "f" != "main" by { assert |"f"| != |"main"|; }
    assert Bind([3], [x]) == map[3 := x] by { assert map[3 := x] + map[] == map[3 := x]; }
    assert LookupFrom(m, "f", 1).value == 1;
  }

  /** One turn of the loop: both PHIs read the registers as the block was entered. */
  lemma Turn(sem: Meaning, c: Frame, prev: nat, entry: Registers, w: World, rt: Rt.RankState)
    requires prev in {0, 1}
    ensures var a, b := Eval(entry, if prev == 0 then 3 else 5), Eval(entry, if prev == 0 then 6 else 4);
            var regs := entry[4 := a][5 := b];
            Run(sem, SwapLoop(), State([c, Callee(1, 0, prev, entry, entry)], w, rt), 3) ==
            (State([c, Callee(if b != 0 then 2 else 1, 0, 1, regs, regs)], w, rt), [])
  {
    Facts();
    hide SwapLoop, BlockAt;
    var m := SwapLoop();
    var a, b := Eval(entry, if prev == 0 then 3 else 5), Eval(entry, if prev == 0 then 6 else 4);
    var s := State([c, Callee(1, 0, prev, entry, entry)], w, rt);
    var s1 := State([c, Callee(1, 1, prev, entry, entry[4 := a])], w, rt);
    var regs := entry[4 := a][5 := b];
    var s2 := State([c, Callee(1, 2, prev, entry, regs)], w, rt);
    var s3 := State([c, Callee(if b != 0 then 2 else 1, 0, 1, regs, regs)], w, rt);
    assert Step(sem, m, s) == Next(s1, Silent);
    assert Step(sem, m, s1) == Next(s2, Silent);
    assert Step(sem, m, s2) == Next(s3, Silent);
    hide Step, Callee, Run;
    RunOn(sem, m, s2, s3, Silent, 0);
    RunOn(sem, m, s1, s2, Silent, 1);
    RunOn(sem, m, s, s1, Silent, 2);
    RunNone(sem, m, s3);
  }

  lemma InAndOut(sem: Meaning, c: Frame, regs: Registers, w: World, rt: Rt.RankState)
    requires c.fn == 0 && c.block == 0 && c.index == 1
    ensures Step(sem, SwapLoop(), State([c, Callee(0, 0, 0, regs, regs)], w, rt)) ==
            Next(State([c, Callee(1, 0, 0, regs, regs)], w, rt), Silent)
    ensures Step(sem, SwapLoop(), State([c, Callee(2, 0, 1, regs, regs)], w, rt)) ==
            Next(State([c.(index := 2, regs := c.regs[2 := Eval(regs, 4)])], w, rt), Silent)
  {
    Facts();
    hide SwapLoop, BlockAt;
  }

  /** The callee's registers as it is entered, after one turn and after two. */
  function Registers0(x: int): Registers { map[3 := x] }

  function Registers1(x: int): Registers { map[3 := x][4 := x][5 := 0] }

  function Registers2(x: int): Registers { map[3 := x][4 := x][5 := 0][4 := 0][5 := x] }

  lemma TwoTurns(sem: Meaning, c: Frame, x: int, w: World, rt: Rt.RankState)
    requires x != 0
    ensures Run(sem, SwapLoop(), State([c, Callee(1, 0, 0, Registers0(x), Registers0(x))], w, rt), 3) ==
            (State([c, Callee(1, 0, 1, Registers1(x), Registers1(x))], w, rt), [])
    ensures Run(sem, SwapLoop(), State([c, Callee(1, 0, 1, Registers1(x), Registers1(x))], w, rt), 3) ==
            (State([c, Callee(2, 0, 1, Registers2(x), Registers2(x))], w, rt), [])
    ensures Eval(Registers2(x), 4) == 0
  {
    hide Run, SwapLoop, Callee;
    Turn(sem, c, 0, Registers0(x), w, rt);
    Turn(sem, c, 1, Registers1(x), w, rt);
  }

  /** What was called runs to its return within eight steps. */
  lemma CalleeRuns(sem: Meaning, c: Frame, x: int, w: World, rt: Rt.RankState)
    requires x != 0 && c.fn == 0 && c.block == 0 && c.index == 1
    ensures Run(sem, SwapLoop(), State([c, Callee(0, 0, 0, Registers0(x), Registers0(x))], w, rt), 8) ==
            (State([c.(index := 2, regs := c.regs[2 := 0])], w, rt), [])
  {
    TwoTurns(sem, c, x, w, rt);
    InAndOut(sem, c, Registers0(x), w, rt);
    InAndOut(sem, c, Registers2(x), w, rt);
    hide Run, Step, SwapLoop, Callee, Eval, Registers0, Registers1, Registers2;
    var m := SwapLoop();
    var entered := State([c, Callee(0, 0, 0, Registers0(x), Registers0(x))], w, rt);
    var first := State([c, Callee(1, 0, 0, Registers0(x), Registers0(x))], w, rt);
    var last := State([c, Callee(2, 0, 1, Registers2(x), Registers2(x))], w, rt);
    var end := State([c.(index := 2, regs := c.regs[2 := 0])], w, rt);
    RunNone(sem, m, end);
    RunOn(sem, m, last, end, Silent, 0);
    RunTwice(sem, m, first, 3, 3);
    RunTwice(sem, m, first, 6, 1);
    RunOn(sem, m, entered, first, Silent, 7);
  }

  lemma RunNone(sem: Meaning, m: Code, s: State)
    ensures Run(sem, m, s, 0) == (s, [])
  {
  }

  /** The value is produced and swapped for zero, which the call returns. */
  lemma SwapLoopRuns(sem: Meaning, w: World, rt: Rt.RankState, x: int, w': World)
    requires sem.compute(7, [], w) == (x, w') && x != 0
    ensures var (t, es) := Run(sem, SwapLoop(), State([Caller(0, map[])], w, rt), 10);
            t == State([Caller(2, map[1 := x, 2 := 0])], w', rt) && es == [Produced(1, x), Entered(1)]
  {
    FirstSteps(sem, w, rt);
    var c := Caller(1, map[1 := x]);
    CalleeRuns(sem, c, x, w', rt);
    ResultStored(x);
    hide Step, SwapLoop, Run, Callee, Caller;
    var m, s := SwapLoop(), State([Caller(0, map[])], w, rt);
    RunOn(sem, m, State([c], w', rt), State([c, Callee(0, 0, 0, Registers0(x), Registers0(x))], w', rt), Entered(1), 8);
    RunOn(sem, m, s, State([c], w', rt), Produced(1, x), 9);
    assert [Produced(1, x)] + ([Entered(1)] + []) == [Produced(1, x), Entered(1)];
  }

  lemma ResultStored(x: int)
    ensures var c := Caller(1, map[1 := x]);
            c.(index := 2, regs := c.regs[2 := 0]) == Caller(2, map[1 := x, 2 := 0])
  {
    assert map[1 := x][2 := 0] == map[1 := x, 2 := 0];
  }
}
