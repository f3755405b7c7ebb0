/** All ranks together: any interleaving of their runtime calls, and the gathered output. */
module RankGather {
  import opened Collections
  import opened Runtime

  /** One rank and what it has contributed to the gather (section 5.5 of MPI 3.1) so far. */
  datatype View = View(state: RankState, sent: Option<seq<int>>)

  const UNSTARTED := View(START, None)

  /** One call of one rank; a print contributes the rank's table to the gather. */
  function Apply(v: View, op: Op): View {
    View(Effect(v.state, op), if op.Print? then Some(v.state.table) else v.sent)
  }

  /** A rank on its own, from program start. */
  function RunRank(ops: seq<Op>): View {
    if ops == [] then UNSTARTED else Apply(RunRank(ops[..|ops| - 1]), ops[|ops| - 1])
  }

  datatype Event = Event(rank: nat, op: Op)

  type World = seq<View>

  function Step(w: World, e: Event): (w': World)
    ensures |w'| == |w|
  {
    if e.rank < |w| then w[e.rank := Apply(w[e.rank], e.op)] else w
  }

  /** An interleaving, from the start of all ranks. */
  function RunWorld(worldSize: nat, events: seq<Event>): (w: World)
    ensures |w| == worldSize
  {
    if events == [] then seq(worldSize, _ => UNSTARTED)
    else Step(RunWorld(worldSize, events[..|events| - 1]), events[|events| - 1])
  }

  /** The calls of one rank within an interleaving. */
  function Project(events: seq<Event>, rank: nat): seq<Op> {
    if events == [] then []
    else
      var last := events[|events| - 1];
      Project(events[..|events| - 1], rank) + if last.rank == rank then [last.op] else []
  }

  lemma RunRankSnoc(ops: seq<Op>, op: Op)
    ensures RunRank(ops + [op]) == Apply(RunRank(ops), op)
  {
    assert (ops + [op])[..|ops|] == ops;
  }

  /** Ranks do not influence each other: each ends where its own calls lead it, whatever the interleaving. */
  lemma {:induction false} RanksAreIndependent(worldSize: nat, events: seq<Event>, rank: nat)
    requires rank < worldSize
    ensures RunWorld(worldSize, events)[rank] == RunRank(Project(events, rank))
    decreases |events|
  {
    hide Apply;
    if events != [] {
      var before, last := events[..|events| - 1], events[|events| - 1];
      RanksAreIndependent(worldSize, before, rank);
      var ops := Project(before, rank);
      RunRankSnoc(ops, last.op);
      assert Project(events, rank) == if last.rank == rank then ops + [last.op] else ops;
    }
  }

  // ---------- one rank ----------

  /** No Init after position i. */
  ghost predicate LastInit(ops: seq<Op>, i: nat) {
    i < |ops| && ops[i].Init? && forall j :: i < j < |ops| ==> !ops[j].Init?
  }

  /** Every store comes after an Init and stays inside the table that the latest one made. */
  ghost predicate Safe(ops: seq<Op>) {
    forall j :: 0 <= j < |ops| && ops[j].Store? ==>
      exists i :: 0 <= i < j && LastInit(ops[..j], i) && ops[j].id < ops[i].len
  }

  /** x is max(-1, every value stored for id after position i). */
  ghost predicate IsMaxSince(ops: seq<Op>, i: nat, id: nat, x: int) {
    && x >= -1
    && (forall j, v :: i < j < |ops| && ops[j] == Store(id, v) ==> v <= x)
    && (x == -1 || exists j :: i < j < |ops| && ops[j] == Store(id, x))
  }

  /** The table of a rank: as long as its last Init says, and at each id the maximum stored since. */
  lemma {:induction false} TableIsMax(ops: seq<Op>, i: nat)
    requires LastInit(ops, i)
    ensures |RunRank(ops).state.table| == ops[i].len
    ensures forall id: nat :: id < ops[i].len ==> IsMaxSince(ops, i, id, RunRank(ops).state.table[id])
    decreases |ops|
  {
    var k := |ops| - 1;
    var before := ops[..k];
    if i < k {
      assert LastInit(before, i);
      TableIsMax(before, i);
      assert ops[i] == before[i];
      var s := RunRank(before).state;
      forall id: nat | id < ops[i].len ensures IsMaxSince(ops, i, id, RunRank(ops).state.table[id]) {
        assert IsMaxSince(before, i, id, s.table[id]);
        MaxSinceSnoc(before, ops[k], i, id, s.table[id]);
        assert ops == before + [ops[k]];
      }
    }
  }

  lemma MaxSinceSnoc(before: seq<Op>, op: Op, i: nat, id: nat, x: int)
    requires i < |before| && IsMaxSince(before, i, id, x)
    ensures IsMaxSince(before + [op], i, id, if op.Store? && op.id == id then Max(x, op.value) else x)
  {
    var ops := before + [op];
    var y := if op.Store? && op.id == id then Max(x, op.value) else x;
    if y != -1 {
      if y == x {
        var j :| i < j < |before| && before[j] == Store(id, x);
        assert ops[j] == Store(id, y);
      } else {
        assert ops[|before|] == Store(id, y);
      }
    }
  }

  /** Some store follows a print, with no Init after the print. */
  ghost predicate StoredAfterPrint(ops: seq<Op>) {
    exists i, j :: 0 <= i < j < |ops| && ops[i].Print? && ops[j].Store? && NoInitAfter(ops, i)
  }

  ghost predicate PrintedSinceInit(ops: seq<Op>) {
    exists i :: 0 <= i < |ops| && ops[i].Print? && NoInitAfter(ops, i)
  }

  ghost predicate NoInitAfter(ops: seq<Op>, i: nat) {
    forall k :: i < k < |ops| ==> !ops[k].Init?
  }

  /** The after-finalize flag is set exactly if some store follows a print since the last Init. */
  lemma {:induction false} ActiveIff(ops: seq<Op>)
    requires Safe(ops)
    ensures RunRank(ops).state.finalized <==> PrintedSinceInit(ops)
    ensures RunRank(ops).state.active <==> StoredAfterPrint(ops)
  {
    if ops != [] {
      var k := |ops| - 1;
      var before, op := ops[..k], ops[k];
      SafePrefix(ops, k);
      ActiveIff(before);
      assert ops == before + [op];
      PrintedSnoc(before, op);
      StoredSnoc(before, op);
      if op.Store? {
        var i :| 0 <= i < k && LastInit(ops[..k], i) && op.id < ops[i].len;
        TableIsMax(before, i);
      }
    }
  }

  lemma SafePrefix(ops: seq<Op>, k: nat)
    requires Safe(ops) && k <= |ops|
    ensures Safe(ops[..k])
  {
    forall j | 0 <= j < k && ops[..k][j].Store?
      ensures exists i :: 0 <= i < j && LastInit(ops[..k][..j], i) && ops[..k][j].id < ops[..k][i].len
    {
      assert ops[..k][..j] == ops[..j];
      var i :| 0 <= i < j && LastInit(ops[..j], i) && ops[j].id < ops[i].len;
      assert LastInit(ops[..k][..j], i);
    }
  }

  lemma PrintedSnoc(before: seq<Op>, op: Op)
    ensures PrintedSinceInit(before + [op]) <==> !op.Init? && (op.Print? || PrintedSinceInit(before))
  {
    var ops := before + [op];
    assert ops[|before|] == op;
    if op.Print? { assert ops[|before|].Print? && NoInitAfter(ops, |before|); }
    if !op.Init? && PrintedSinceInit(before) {
      var i :| 0 <= i < |before| && before[i].Print? && NoInitAfter(before, i);
      assert ops[i].Print? && NoInitAfter(ops, i);
    }
    if PrintedSinceInit(ops) {
      var i :| 0 <= i < |ops| && ops[i].Print? && NoInitAfter(ops, i);
      if i < |before| {
        assert forall k :: i < k < |before| ==> ops[k] == before[k];
        assert before[i].Print? && NoInitAfter(before, i);
      }
    }
  }

  lemma StoredSnoc(before: seq<Op>, op: Op)
    ensures StoredAfterPrint(before + [op]) <==>
              !op.Init? && (StoredAfterPrint(before) || (op.Store? && PrintedSinceInit(before)))
  {
    var ops := before + [op];
    assert ops[|before|] == op;
    if !op.Init? && op.Store? && PrintedSinceInit(before) {
      var i :| 0 <= i < |before| && before[i].Print? && NoInitAfter(before, i);
      assert ops[i].Print? && ops[|before|].Store? && NoInitAfter(ops, i);
    }
    if !op.Init? && StoredAfterPrint(before) {
      var i, j :| 0 <= i < j < |before| && before[i].Print? && before[j].Store? && NoInitAfter(before, i);
      assert ops[i].Print? && ops[j].Store? && NoInitAfter(ops, i);
    }
    if StoredAfterPrint(ops) {
      var i, j :| 0 <= i < j < |ops| && ops[i].Print? && ops[j].Store? && NoInitAfter(ops, i);
      assert !ops[|before|].Init?;
      assert forall k :: i < k < |before| ==> ops[k] == before[k];
      assert before[i].Print? && NoInitAfter(before, i);
      if j < |before| { assert before[j].Store?; }
    }
  }

  /** The last print is at i, and nothing is initialised after it. */
  ghost predicate LastPrint(ops: seq<Op>, i: nat) {
    i < |ops| && ops[i].Print? && NoInitAfter(ops, i) && forall j :: i < j < |ops| ==> !ops[j].Print?
  }

  /** A rank remembers the number passed on by the last print since its last initialisation; before there is one,
      it takes itself for unknown. */
  lemma {:induction false} RankIsLastPrinted(ops: seq<Op>, i: nat)
    requires i < |ops|
    ensures LastPrint(ops, i) ==> RunRank(ops).state.rank == ops[i].rank
    ensures LastInit(ops, i) && !PrintedSinceInit(ops) ==> RunRank(ops).state.rank == -1
    decreases |ops|
  {
    var k := |ops| - 1;
    var before, op := ops[..k], ops[k];
    assert ops == before + [op];
    PrintedSnoc(before, op);
    if i < k {
      RankIsLastPrinted(before, i);
      assert LastPrint(ops, i) ==> LastPrint(before, i);
      assert LastInit(ops, i) ==> LastInit(before, i);
    }
  }

  /** So a rank whose last print passed on r warns at exit exactly if it stored after it and r is 0, or unknown. */
  lemma WarnedIff(ops: seq<Op>, i: nat)
    requires Safe(ops) && LastPrint(ops, i)
    ensures var s := RunRank(ops).state;
            s.active && s.rank in {0, -1} <==> ops[i].rank in {0, -1} && StoredAfterPrint(ops)
  {
    ActiveIff(ops);
    RankIsLastPrinted(ops, i);
  }

  /** ... and so it is for each rank in any interleaving. */
  lemma FlagInInterleaving(worldSize: nat, events: seq<Event>, rank: nat)
    requires rank < worldSize && Safe(Project(events, rank))
    ensures RunWorld(worldSize, events)[rank].state.active <==> StoredAfterPrint(Project(events, rank))
  {
    RanksAreIndependent(worldSize, events, rank);
    ActiveIff(Project(events, rank));
  }

  // ---------- the gathered output ----------

  /** A rank that initialises a table of len entries, prints once, and stores before and after that. */
  ghost predicate Script(ops: seq<Op>, len: nat, k: nat) {
    && 0 < k < |ops|
    && ops[0] == Init(len) && ops[k].Print?
    && forall j :: 0 < j < |ops| && j != k ==> ops[j].Store? && ops[j].id < len
  }

  /** What such a rank contributes is its table at the print. */
  lemma {:induction false} ScriptSends(ops: seq<Op>, len: nat, k: nat)
    requires Script(ops, len, k)
    ensures RunRank(ops).sent.Some? && |RunRank(ops).sent.value| == len
    ensures forall id: nat :: id < len ==> IsMaxSince(ops[..k], 0, id, RunRank(ops).sent.value[id])
    decreases |ops|
  {
    var n := |ops| - 1;
    if k < n {
      assert ops[..n][..k] == ops[..k];
      ScriptSends(ops[..n], len, k);
    } else {
      assert LastInit(ops[..k], 0);
      TableIsMax(ops[..k], 0);
    }
  }

  lemma ScriptIsSafe(ops: seq<Op>, len: nat, k: nat)
    requires Script(ops, len, k)
    ensures Safe(ops)
  {
    forall j | 0 <= j < |ops| && ops[j].Store?
      ensures exists i :: 0 <= i < j && LastInit(ops[..j], i) && ops[j].id < ops[i].len
    {
      assert LastInit(ops[..j], 0);
    }
  }

  /** After such calls the after-finalize flag is set exactly if the print was not the last of them, and the rank is
      the one printed. */
  lemma ScriptFlag(ops: seq<Op>, len: nat, k: nat)
    requires Script(ops, len, k)
    ensures RunRank(ops).state.active <==> k + 1 < |ops|
    ensures RunRank(ops).state.rank == ops[k].rank
  {
    RankIsLastPrinted(ops, k);
    ScriptIsSafe(ops, len, k);
    ActiveIff(ops);
    assert NoInitAfter(ops, k);
    if k + 1 < |ops| {
      assert ops[k].Print? && ops[k + 1].Store?;
    }
  }

  /** The gather has completed: every rank has contributed a table of len entries. */
  ghost predicate Gathered(w: World, len: nat) {
    forall r :: 0 <= r < |w| ==> w[r].sent.Some? && |w[r].sent.value| == len
  }

  /** The receive buffer of the root: the contributions in rank order. */
  function ReceiveBuffer(w: World, len: nat): (all: seq<int>)
    requires forall r :: 0 <= r < |w| ==> w[r].sent.Some? && |w[r].sent.value| == len
    ensures |all| == |w| * len
  {
    if w == [] then [] else ReceiveBuffer(w[..|w| - 1], len) + w[|w| - 1].sent.value
  }

  lemma {:induction false} BufferAt(w: World, len: nat, i: nat, j: nat)
    requires Gathered(w, len) && i < |w| && j < len
    ensures 0 <= i * len + j < |w| * len
    ensures ReceiveBuffer(w, len)[i * len + j] == w[i].sent.value[j]
  {
    IndexInRange(i, j, |w|, len);
    var k := |w| - 1;
    if i < k {
      BufferAt(w[..k], len, i, j);
    }
  }

  /**
   For every interleaving in which each rank follows a script, the gather completes, and the output lists
   each rank and id exactly once with max(-1, the values the rank stored for the id before its print). A rank
   has its after-finalize flag set exactly if it went on to store after its print, and it warns of that at exit
   exactly if its print was that of rank 0.
   */
  lemma OutputIsMaxima(worldSize: nat, len: nat, events: seq<Event>, prints: seq<nat>, i: nat, j: nat)
    requires |prints| == worldSize && forall r :: 0 <= r < worldSize ==> Script(Project(events, r), len, prints[r])
    requires i < worldSize && j < len
    ensures prints[i] < |Project(events, i)|
    ensures var w := RunWorld(worldSize, events);
            && Gathered(w, len)
            && var out := Entries(worldSize, len, ReceiveBuffer(w, len));
            && 0 <= i * len + j < |out|
            && out[i * len + j].rank == i && out[i * len + j].id == j
            && IsMaxSince(Project(events, i)[..prints[i]], 0, j, out[i * len + j].value)
            && (forall k :: 0 <= k < |out| && out[k].rank == i && out[k].id == j ==> k == i * len + j)
            && (w[i].state.active <==> prints[i] + 1 < |Project(events, i)|)
            && (Project(events, i)[prints[i]] == Print(i) ==>
                  (w[i].state.active && w[i].state.rank in {0, -1} <==> i == 0 && prints[i] + 1 < |Project(events, i)|))
  {
    assert prints[i] < |Project(events, i)| by { assert Script(Project(events, i), len, prints[i]); }
    hide IsMaxSince, RunWorld, RunRank, Project;
    var w := RunWorld(worldSize, events);
    forall r | 0 <= r < worldSize ensures w[r].sent.Some? && |w[r].sent.value| == len {
      RanksAreIndependent(worldSize, events, r);
      ScriptSends(Project(events, r), len, prints[r]);
    }
    RanksAreIndependent(worldSize, events, i);
    ScriptSends(Project(events, i), len, prints[i]);
    ScriptFlag(Project(events, i), len, prints[i]);
    BufferAt(w, len, i, j);
    EntriesListAll(worldSize, len, ReceiveBuffer(w, len), i, j);
  }
}
