/** The instrumentation runtime of one rank: a table of running maxima and the after-finalize flag. */
module Runtime {
  type Int32 = x: int | -0x8000_0000 <= x < 0x8000_0000

  /** The globals of one process. Before oft_init_vals there is no table. */
  datatype RankState = RankState(table: seq<int>, finalized: bool, rank: int, active: bool)

  const START := RankState([], false, 0, false)

  /** Calls into the runtime. */
  datatype Op = Init(len: nat) | Store(id: nat, value: int) | Print(rank: int)

  function Max(a: int, b: int): int {
    if a > b then a else b
  }

  function AfterInit(len: nat): RankState {
    RankState(seq(len, _ => -1), false, -1, false)
  }

  function AfterStore(s: RankState, id: nat, value: int): RankState
    requires id < |s.table|
  {
    s.(table := s.table[id := Max(s.table[id], value)], active := s.active || s.finalized)
  }

  function AfterPrint(s: RankState, rank: int): RankState {
    s.(finalized := true, rank := rank)
  }

  /** The effect of one call. Outside the table a store is undefined in C; safe runs do not do that. */
  function Effect(s: RankState, op: Op): RankState {
    match op
    case Init(len) => AfterInit(len)
    case Store(id, x) => if id < |s.table| then AfterStore(s, id, x) else s
    case Print(rank) => AfterPrint(s, rank)
  }

  /** A line of the output file. */
  datatype Entry = Entry(rank: nat, id: nat, value: int)

  /** What the root writes, given the gathered tables. */
  function Entries(worldSize: nat, len: nat, all: seq<int>): (out: seq<Entry>)
    requires |all| == worldSize * len
    ensures |out| == worldSize * len
  {
    seq(worldSize * len, k requires 0 <= k < worldSize * len => NonEmptyTable(worldSize, len, k);
      Entry(k / len, k % len, all[k]))
  }

  lemma NonEmptyTable(worldSize: nat, len: nat, k: nat)
    requires k < worldSize * len
    ensures len != 0
  {
  }

  /** Rows and columns address the gathered values without gap or overlap. */
  lemma IndexInRange(i: nat, j: nat, worldSize: nat, len: nat)
    requires i < worldSize && j < len
    ensures 0 <= i * len + j < worldSize * len
    ensures (i * len + j) / len == i && (i * len + j) % len == j
  {
    assert (i + 1) * len <= worldSize * len by { MulMono(i + 1, worldSize, len); }
    DivUnique(i, j, len);
  }

  lemma MulMono(a: nat, b: nat, c: nat)
    requires a <= b
    ensures a * c <= b * c
  {
  }

  lemma DivUnique(i: nat, j: nat, len: nat)
    requires j < len
    ensures (i * len + j) / len == i && (i * len + j) % len == j
  {
    var k := i * len + j;
    var q, r := k / len, k % len;
    assert k == q * len + r && 0 <= r < len;
    if q < i { MulMono(q + 1, i, len); }
    if q > i { MulMono(i + 1, q, len); }
  }

  /** Every (rank, id) pair is listed exactly once, at the index the code computes. */
  lemma EntriesListAll(worldSize: nat, len: nat, all: seq<int>, i: nat, j: nat)
    requires |all| == worldSize * len && i < worldSize && j < len
    ensures 0 <= i * len + j < worldSize * len
    ensures Entries(worldSize, len, all)[i * len + j] == Entry(i, j, all[i * len + j])
    ensures forall k :: 0 <= k < worldSize * len ==>
              var e := Entries(worldSize, len, all)[k];
              (e.rank == i && e.id == j ==> k == i * len + j)
  {
    IndexInRange(i, j, worldSize, len);
  }

  /** The nested output loops of the root; the index stays within the gathered values and within 32 bits. */
  method WriteOutput(worldSize: Int32, len: Int32, all: seq<Int32>) returns (out: seq<Entry>)
    requires 0 <= worldSize && 0 <= len && |all| == worldSize * len < 0x8000_0000
    ensures out == Entries(worldSize, len, all)
  {
    out := [];
    for i := 0 to worldSize
      invariant |out| == i * len <= worldSize * len && out == Entries(worldSize, len, all)[..|out|]
    {
      MulMono(i + 1, worldSize, len);
      for j := 0 to len
        invariant |out| == i * len + j <= worldSize * len && out == Entries(worldSize, len, all)[..|out|]
      {
        IndexInRange(i, j, worldSize, len);
        var index: Int32 := i * len + j;
        out := out + [Entry(i, j, all[index])];
      }
    }
  }

  class OftRuntime {
    var values: array<Int32>
    var tableLen: Int32
    var mpiFinalizeHasBeenCalled: bool
    var mpiRank: Int32
    var instrActiveAfterFinalize: bool

    ghost predicate Valid()
      reads this
    {
      tableLen == values.Length
    }

    ghost function State(): RankState
      reads this, values
    {
      RankState(values[..], mpiFinalizeHasBeenCalled, mpiRank, instrActiveAfterFinalize)
    }

    /** Program start: globals are zero. */
    constructor ()
      ensures Valid() && State() == START && fresh(values)
    {
      values := new Int32[0];
      tableLen, mpiFinalizeHasBeenCalled, mpiRank, instrActiveAfterFinalize := 0, false, 0, false;
    }

    method InitVals(len: Int32)
      requires 0 <= len
      modifies this
      ensures Valid() && fresh(values) && State() == AfterInit(len)
    {
      tableLen := len;
      values := new Int32[len];
      for i := 0 to tableLen
        invariant tableLen == len == values.Length && fresh(values)
        invariant forall k :: 0 <= k < i ==> values[k] == -1
        modifies values
      {
        values[i] := -1;
      }
      mpiFinalizeHasBeenCalled, mpiRank, instrActiveAfterFinalize := false, -1, false;
    }

    method StoreMaxVal(id: Int32, v: Int32)
      requires Valid() && 0 <= id < tableLen
      modifies this`instrActiveAfterFinalize, values
      ensures Valid() && State() == AfterStore(old(State()), id, v)
    {
      if v > values[id] {
        values[id] := v;
      }
      if mpiFinalizeHasBeenCalled {
        instrActiveAfterFinalize := true;
      }
    }

    /**
     The collective print. MPI supplies rank and size, and at rank 0 the gathered tables; sent is what
     this rank contributes to the gather.
     */
    method PrintMaxVals(rank: Int32, worldSize: Int32, allRankValues: seq<Int32>)
      returns (sent: seq<Int32>, out: seq<Entry>)
      requires Valid() && 0 <= rank < worldSize && worldSize * tableLen < 0x8000_0000
      requires rank == 0 ==> |allRankValues| == worldSize * tableLen
      modifies this
      ensures Valid() && State() == AfterPrint(old(State()), rank) && sent == old(State()).table
      ensures out == if rank == 0 then Entries(worldSize, old(tableLen), allRankValues) else []
    {
      mpiRank := rank;
      sent := values[..];
      out := [];
      if rank == 0 {
        out := WriteOutput(worldSize, tableLen, allRankValues);
      }
      mpiFinalizeHasBeenCalled := true;
    }

    /** At exit: whether the warning file is written. */
    method FinalCheck() returns (warned: bool)
      requires Valid()
      ensures warned == (State().active && State().rank in {0, -1})
    {
      warned := false;
      if instrActiveAfterFinalize {
        if mpiRank == 0 || mpiRank == -1 {
          warned := true;
        }
      }
    }
  }
}
