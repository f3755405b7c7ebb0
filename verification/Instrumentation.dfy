/** The instrumentation pass: runtime calls are inserted in place, one at a time. */
module Instrumentation {
  import opened Collections
  import opened Reachability
  import opened Code

  /** The instruction that an insertion refers to: the one that computes a value, or a finalisation call. */
  datatype Site = ResultOf(v: Value) | FinalizeAt(v: Value)

  predicate At(s: Site, i: Instr) {
    match s
    case ResultOf(v) => Computes(i, v)
    case FinalizeAt(v) => FinalizeCall(i) && i.dst == v
  }

  /** Stores go after the instruction that computes the value, prints before the finalisation call. */
  function Around(s: Site, c: Instr, i: Instr): seq<Instr> {
    if !At(s, i) then [i] else if s.ResultOf? then [i, c] else [c, i]
  }

  function InsertBlock(s: Site, c: Instr, b: BasicBlock): BasicBlock {
    if b == [] then [] else Around(s, c, b[0]) + InsertBlock(s, c, b[1..])
  }

  function Count(s: Site, b: BasicBlock): nat {
    if b == [] then 0 else (if At(s, b[0]) then 1 else 0) + Count(s, b[1..])
  }

  lemma {:induction false} CountConcat(s: Site, a: BasicBlock, b: BasicBlock)
    ensures Count(s, a + b) == Count(s, a) + Count(s, b)
  {
    if a == [] {
      assert a + b == b;
    } else {
      assert (a + b)[1..] == a[1..] + b;
      CountConcat(s, a[1..], b);
    }
  }

  lemma {:induction false} CountPositive(s: Site, b: BasicBlock, k: nat)
    requires k < |b| && At(s, b[k])
    ensures Count(s, b) > 0
  {
    if k > 0 { CountPositive(s, b[1..], k - 1); }
  }

  lemma {:induction false} FindSite(s: Site, b: BasicBlock) returns (k: nat)
    requires Count(s, b) > 0
    ensures k < |b| && At(s, b[k])
  {
    if At(s, b[0]) { k := 0; } else { k := FindSite(s, b[1..]); k := k + 1; }
  }

  lemma {:induction false} InsertNone(s: Site, c: Instr, b: BasicBlock)
    requires Count(s, b) == 0
    ensures InsertBlock(s, c, b) == b
  {
    if b != [] { InsertNone(s, c, b[1..]); }
  }

  function Splice(s: Site, c: Instr, b: BasicBlock, k: nat): BasicBlock
    requires k < |b|
  {
    var k' := if s.ResultOf? then k + 1 else k;
    b[..k'] + [c] + b[k'..]
  }

  lemma SpliceFirst(s: Site, c: Instr, b: BasicBlock)
    requires b != [] && At(s, b[0])
    ensures Splice(s, c, b, 0) == Around(s, c, b[0]) + b[1..]
  {
  }

  lemma SpliceLater(s: Site, c: Instr, b: BasicBlock, k: nat)
    requires 0 < k < |b|
    ensures Splice(s, c, b, k) == [b[0]] + Splice(s, c, b[1..], k - 1)
  {
    var k' := if s.ResultOf? then k + 1 else k;
    assert b[..k'] == [b[0]] + b[1..][..k' - 1];
  }

  /** Inserting at the one matching instruction is inserting at every matching instruction. */
  lemma {:induction false} InsertOnce(s: Site, c: Instr, b: BasicBlock, k: nat)
    requires k < |b| && At(s, b[k]) && Count(s, b) == 1
    ensures InsertBlock(s, c, b) == Splice(s, c, b, k)
  {
    hide Splice;
    if k == 0 {
      InsertNone(s, c, b[1..]);
      SpliceFirst(s, c, b);
    } else {
      CountPositive(s, b[1..], k - 1);
      InsertOnce(s, c, b[1..], k - 1);
      SpliceLater(s, c, b, k);
    }
  }

  // ---------- whole modules ----------

  /** What is done to every block. */
  datatype Pass = Insert(s: Site, c: Instr) | Stores(vs: seq<Value>) | Prints(cs: seq<Value>)

  function StoreOf(vs: seq<Value>, i: Instr): seq<Instr> {
    if i.Compute? && i.dst in vs then [Runtime(StoreCall(IdOf(vs, i.dst), i.dst))] else []
  }

  function StoresBlock(vs: seq<Value>, b: BasicBlock): BasicBlock {
    if b == [] then [] else [b[0]] + StoreOf(vs, b[0]) + StoresBlock(vs, b[1..])
  }

  function PrintOf(cs: seq<Value>, i: Instr): seq<Instr> {
    if FinalizeCall(i) && i.dst in cs then [Runtime(PrintCall)] else []
  }

  function PrintsBlock(cs: seq<Value>, b: BasicBlock): BasicBlock {
    if b == [] then [] else PrintOf(cs, b[0]) + [b[0]] + PrintsBlock(cs, b[1..])
  }

  function PassBlock(pass: Pass, b: BasicBlock): BasicBlock {
    match pass
    case Insert(s, c) => InsertBlock(s, c, b)
    case Stores(vs) => StoresBlock(vs, b)
    case Prints(cs) => PrintsBlock(cs, b)
  }

  function PassFunction(pass: Pass, f: Function): Function {
    f.(blocks := seq(|f.blocks|, k requires 0 <= k < |f.blocks| => PassBlock(pass, f.blocks[k])))
  }

  function PassCode(pass: Pass, m: Code): (r: Code)
    ensures |r| == |m|
  {
    seq(|m|, k requires 0 <= k < |m| => PassFunction(pass, m[k]))
  }

  /** All instructions, in the order inst_begin visits them. */
  function Flatten(bs: seq<BasicBlock>): seq<Instr> {
    if bs == [] then [] else bs[0] + Flatten(bs[1..])
  }

  function AllInstrs(m: Code): seq<Instr> {
    if m == [] then [] else Flatten(m[0].blocks) + AllInstrs(m[1..])
  }

  lemma {:induction false} CountFlatten(s: Site, bs: seq<BasicBlock>, b: nat)
    requires b < |bs|
    ensures Count(s, bs[b]) <= Count(s, Flatten(bs))
    ensures Count(s, bs[b]) == Count(s, Flatten(bs)) ==>
              forall b' :: 0 <= b' < |bs| && b' != b ==> Count(s, bs[b']) == 0
  {
    CountConcat(s, bs[0], Flatten(bs[1..]));
    if b > 0 {
      CountFlatten(s, bs[1..], b - 1);
    }
    forall b' | 0 < b' < |bs| ensures Count(s, bs[b']) <= Count(s, Flatten(bs[1..])) {
      CountBelow(s, bs[1..], b' - 1);
    }
  }

  lemma {:induction false} CountBelow(s: Site, bs: seq<BasicBlock>, b: nat)
    requires b < |bs|
    ensures Count(s, bs[b]) <= Count(s, Flatten(bs))
  {
    CountConcat(s, bs[0], Flatten(bs[1..]));
    if b > 0 { CountBelow(s, bs[1..], b - 1); }
  }

  lemma {:induction false} CountBelowAll(s: Site, m: Code, f: nat)
    requires f < |m|
    ensures Count(s, Flatten(m[f].blocks)) <= Count(s, AllInstrs(m))
  {
    CountConcat(s, Flatten(m[0].blocks), AllInstrs(m[1..]));
    if f > 0 { CountBelowAll(s, m[1..], f - 1); }
  }

  lemma {:induction false} CountAll(s: Site, m: Code, f: nat)
    requires f < |m|
    ensures Count(s, Flatten(m[f].blocks)) == Count(s, AllInstrs(m)) ==>
              forall f' :: 0 <= f' < |m| && f' != f ==> Count(s, Flatten(m[f'].blocks)) == 0
  {
    CountConcat(s, Flatten(m[0].blocks), AllInstrs(m[1..]));
    if f > 0 {
      CountAll(s, m[1..], f - 1);
      CountBelowAll(s, m[1..], f - 1);
    }
    forall f' | 0 < f' < |m| ensures Count(s, Flatten(m[f'].blocks)) <= Count(s, AllInstrs(m[1..])) {
      CountBelowAll(s, m[1..], f' - 1);
    }
  }

  lemma {:induction false} FindBlock(s: Site, bs: seq<BasicBlock>) returns (b: nat)
    requires Count(s, Flatten(bs)) > 0
    ensures b < |bs| && Count(s, bs[b]) > 0
  {
    CountConcat(s, bs[0], Flatten(bs[1..]));
    if Count(s, bs[0]) > 0 { b := 0; } else { b := FindBlock(s, bs[1..]); b := b + 1; }
  }

  lemma {:induction false} FindFunction(s: Site, m: Code) returns (f: nat)
    requires Count(s, AllInstrs(m)) > 0
    ensures f < |m| && Count(s, Flatten(m[f].blocks)) > 0
  {
    CountConcat(s, Flatten(m[0].blocks), AllInstrs(m[1..]));
    if Count(s, Flatten(m[0].blocks)) > 0 { f := 0; } else { f := FindFunction(s, m[1..]); f := f + 1; }
  }

  /** The place of an instruction: function, block, and index in the block. */
  predicate IsPlace(m: Code, s: Site, f: nat, b: nat, k: nat) {
    f < |m| && b < |m[f].blocks| && k < |m[f].blocks[b]| && At(s, m[f].blocks[b][k])
  }

  /** Some instruction of the module is the site, and no other. */
  ghost predicate Once(m: Code, s: Site) {
    Count(s, AllInstrs(m)) == 1
  }

  lemma PlaceExists(m: Code, s: Site) returns (f: nat, b: nat, k: nat)
    requires Once(m, s)
    ensures IsPlace(m, s, f, b, k)
  {
    f := FindFunction(s, m);
    b := FindBlock(s, m[f].blocks);
    k := FindSite(s, m[f].blocks[b]);
  }

  function SpliceAt(m: Code, s: Site, c: Instr, f: nat, b: nat, k: nat): Code
    requires IsPlace(m, s, f, b, k)
  {
    m[f := m[f].(blocks := m[f].blocks[b := Splice(s, c, m[f].blocks[b], k)])]
  }

  /** An insertion in place does what the pass over all blocks does. */
  lemma SpliceIsPass(m: Code, s: Site, c: Instr, f: nat, b: nat, k: nat)
    requires Once(m, s) && IsPlace(m, s, f, b, k)
    ensures SpliceAt(m, s, c, f, b, k) == PassCode(Insert(s, c), m)
  {
    var bs := m[f].blocks;
    CountPositive(s, bs[b], k);
    CountBelow(s, bs, b);
    CountBelowAll(s, m, f);
    CountFlatten(s, bs, b);
    CountAll(s, m, f);
    InsertOnce(s, c, bs[b], k);
    forall b' | 0 <= b' < |bs| && b' != b ensures InsertBlock(s, c, bs[b']) == bs[b'] {
      InsertNone(s, c, bs[b']);
    }
    forall f' | 0 <= f' < |m| && f' != f ensures PassFunction(Insert(s, c), m[f']) == m[f'] {
      forall b' | 0 <= b' < |m[f'].blocks| ensures InsertBlock(s, c, m[f'].blocks[b']) == m[f'].blocks[b'] {
        CountBelow(s, m[f'].blocks, b');
        InsertNone(s, c, m[f'].blocks[b']);
      }
      assert PassFunction(Insert(s, c), m[f']).blocks == m[f'].blocks;
    }
    assert PassFunction(Insert(s, c), m[f]).blocks == bs[b := Splice(s, c, bs[b], k)];
    assert SpliceAt(m, s, c, f, b, k) == PassCode(Insert(s, c), m);
  }

  // ---------- insertions add up to passes ----------

  lemma {:induction false} InsertConcat(s: Site, c: Instr, a: BasicBlock, b: BasicBlock)
    ensures InsertBlock(s, c, a + b) == InsertBlock(s, c, a) + InsertBlock(s, c, b)
  {
    if a == [] {
      assert a + b == b;
    } else {
      assert (a + b)[1..] == a[1..] + b;
      InsertConcat(s, c, a[1..], b);
    }
  }

  lemma {:induction false} IdOfSnoc(vs: seq<Value>, v: Value, u: Value)
    requires u in vs + [v] && v !in vs
    ensures IdOf(vs + [v], u) == if u == v then |vs| else IdOf(vs, u)
  {
    if vs != [] && vs[0] != u {
      assert (vs + [v])[1..] == vs[1..] + [v];
      IdOfSnoc(vs[1..], v, u);
    }
  }

  /** One more store inserted is the pass for one more detected instruction. */
  lemma {:induction false} StoresSnoc(vs: seq<Value>, v: Value, b: BasicBlock)
    requires v !in vs && Plain(b)
    ensures InsertBlock(ResultOf(v), Runtime(StoreCall(|vs|, v)), StoresBlock(vs, b)) == StoresBlock(vs + [v], b)
  {
    var s, c := ResultOf(v), Runtime(StoreCall(|vs|, v));
    if b != [] {
      StoresSnoc(vs, v, b[1..]);
      InsertConcat(s, c, [b[0]] + StoreOf(vs, b[0]), StoresBlock(vs, b[1..]));
      InsertConcat(s, c, [b[0]], StoreOf(vs, b[0]));
      InsertNone(s, c, StoreOf(vs, b[0]));
      assert InsertBlock(s, c, [b[0]]) == Around(s, c, b[0]);
      if b[0].Compute? && b[0].dst in vs + [v] { IdOfSnoc(vs, v, b[0].dst); }
      assert Around(s, c, b[0]) + StoreOf(vs, b[0]) == [b[0]] + StoreOf(vs + [v], b[0]);
    }
  }

  lemma {:induction false} PrintsSnoc(cs: seq<Value>, v: Value, b: BasicBlock)
    requires v !in cs
    ensures InsertBlock(FinalizeAt(v), Runtime(PrintCall), PrintsBlock(cs, b)) == PrintsBlock(cs + [v], b)
  {
    var s, c := FinalizeAt(v), Runtime(PrintCall);
    if b != [] {
      PrintsSnoc(cs, v, b[1..]);
      InsertConcat(s, c, PrintOf(cs, b[0]) + [b[0]], PrintsBlock(cs, b[1..]));
      InsertConcat(s, c, PrintOf(cs, b[0]), [b[0]]);
      InsertNone(s, c, PrintOf(cs, b[0]));
      assert InsertBlock(s, c, [b[0]]) == Around(s, c, b[0]);
      assert PrintOf(cs, b[0]) + Around(s, c, b[0]) == PrintOf(cs + [v], b[0]) + [b[0]];
    }
  }

  lemma {:induction false} NoStores(b: BasicBlock)
    ensures StoresBlock([], b) == b && PrintsBlock([], b) == b
  {
    if b != [] { NoStores(b[1..]); }
  }

  /** Passes leave the counts of sites alone: runtime calls are no sites. */
  lemma {:induction false} CountPassBlock(pass: Pass, s: Site, b: BasicBlock)
    requires pass.Insert? ==> pass.c.Runtime?
    ensures Count(s, PassBlock(pass, b)) == Count(s, b)
  {
    if b != [] {
      CountPassBlock(pass, s, b[1..]);
      var around := match pass
        case Insert(s', c) => Around(s', c, b[0])
        case Stores(vs) => [b[0]] + StoreOf(vs, b[0])
        case Prints(cs) => PrintOf(cs, b[0]) + [b[0]];
      CountConcat(s, around, PassBlock(pass, b[1..]));
      assert PassBlock(pass, b) == around + PassBlock(pass, b[1..]);
      assert |around| == 2 ==> around == [around[0]] + [around[1]];
    }
  }

  lemma {:induction false} CountPassFlatten(pass: Pass, s: Site, f: Function)
    requires pass.Insert? ==> pass.c.Runtime?
    ensures Count(s, Flatten(PassFunction(pass, f).blocks)) == Count(s, Flatten(f.blocks))
    decreases |f.blocks|
  {
    if f.blocks != [] {
      var rest := f.(blocks := f.blocks[1..]);
      CountPassFlatten(pass, s, rest);
      assert PassFunction(pass, f).blocks[1..] == PassFunction(pass, rest).blocks;
      CountPassBlock(pass, s, f.blocks[0]);
      CountConcat(s, PassBlock(pass, f.blocks[0]), Flatten(PassFunction(pass, rest).blocks));
      CountConcat(s, f.blocks[0], Flatten(rest.blocks));
    }
  }

  lemma {:induction false} CountPass(pass: Pass, s: Site, m: Code)
    requires pass.Insert? ==> pass.c.Runtime?
    ensures Count(s, AllInstrs(PassCode(pass, m))) == Count(s, AllInstrs(m))
  {
    if m != [] {
      CountPass(pass, s, m[1..]);
      assert PassCode(pass, m)[1..] == PassCode(pass, m[1..]);
      CountPassFlatten(pass, s, m[0]);
      CountConcat(s, Flatten(PassFunction(pass, m[0]).blocks), AllInstrs(PassCode(pass, m[1..])));
      CountConcat(s, Flatten(m[0].blocks), AllInstrs(m[1..]));
    }
  }

  /** Two passes after each other are one pass if they are on every block. */
  lemma PassesAdd(p1: Pass, p2: Pass, p: Pass, m: Code)
    requires forall f, b :: 0 <= f < |m| && 0 <= b < |m[f].blocks| ==>
               PassBlock(p2, PassBlock(p1, m[f].blocks[b])) == PassBlock(p, m[f].blocks[b])
    ensures PassCode(p2, PassCode(p1, m)) == PassCode(p, m)
  {
    hide PassBlock;
    forall f | 0 <= f < |m| ensures PassFunction(p2, PassFunction(p1, m[f])) == PassFunction(p, m[f]) {
      assert PassFunction(p2, PassFunction(p1, m[f])).blocks == PassFunction(p, m[f]).blocks;
    }
    assert PassCode(p2, PassCode(p1, m)) == PassCode(p, m);
  }

  lemma PassNothing(pass: Pass, m: Code)
    requires pass == Stores([]) || pass == Prints([])
    ensures PassCode(pass, m) == m
  {
    forall f | 0 <= f < |m| ensures PassFunction(pass, m[f]) == m[f] {
      forall b | 0 <= b < |m[f].blocks| ensures PassBlock(pass, m[f].blocks[b]) == m[f].blocks[b] {
        NoStores(m[f].blocks[b]);
      }
      assert PassFunction(pass, m[f]).blocks == m[f].blocks;
    }
    assert PassCode(pass, m) == m;
  }

  // ---------- the initialisation ----------

  function InitBlock(len: nat, b: BasicBlock): BasicBlock {
    if b != [] && PhiOrDbg(b[0]) then [b[0]] + InitBlock(len, b[1..]) else [Runtime(InitCall(len))] + b
  }

  lemma {:induction false} InitBlockAt(len: nat, b: BasicBlock, k: nat)
    requires k <= |b| && (forall j :: 0 <= j < k ==> PhiOrDbg(b[j])) && (k < |b| ==> !PhiOrDbg(b[k]))
    ensures InitBlock(len, b) == b[..k] + [Runtime(InitCall(len))] + b[k..]
  {
    hide PhiOrDbg;
    if k > 0 {
      var init, rest := [Runtime(InitCall(len))], b[1..];
      InitBlockAt(len, rest, k - 1);
      assert InitBlock(len, b) == [b[0]] + InitBlock(len, rest);
      assert b[..k] == [b[0]] + rest[..k - 1] && b[k..] == rest[k - 1..];
      assert [b[0]] + (rest[..k - 1] + init + rest[k - 1..]) == [b[0]] + rest[..k - 1] + init + rest[k - 1..];
    }
  }

  function InitCode(len: nat, m: Code): (r: Code)
    ensures |r| == |m|
  {
    var e := EntryIndex(m);
    if e < |m| && m[e].blocks != [] then
      m[e := m[e].(blocks := m[e].blocks[0 := InitBlock(len, m[e].blocks[0])])]
    else m
  }

  lemma {:induction false} PassEntry(pass: Pass, m: Code)
    ensures EntryIndex(PassCode(pass, m)) == EntryIndex(m)
  {
    if m != [] && !IsMain(m[0]) {
      assert PassCode(pass, m)[1..] == PassCode(pass, m[1..]);
      PassEntry(pass, m[1..]);
    }
  }

  lemma {:induction false} CountInitBlock(len: nat, s: Site, b: BasicBlock)
    ensures Count(s, InitBlock(len, b)) == Count(s, b)
  {
    if b != [] && PhiOrDbg(b[0]) {
      CountInitBlock(len, s, b[1..]);
      assert ([b[0]] + InitBlock(len, b[1..]))[1..] == InitBlock(len, b[1..]);
    } else {
      assert ([Runtime(InitCall(len))] + b)[1..] == b;
    }
  }

  lemma {:induction false} CountReplace(s: Site, m: Code, e: nat, f: Function)
    requires e < |m| && Count(s, Flatten(f.blocks)) == Count(s, Flatten(m[e].blocks))
    ensures Count(s, AllInstrs(m[e := f])) == Count(s, AllInstrs(m))
  {
    CountConcat(s, Flatten(m[0].blocks), AllInstrs(m[1..]));
    CountConcat(s, Flatten(m[e := f][0].blocks), AllInstrs(m[e := f][1..]));
    if e > 0 {
      assert m[e := f][1..] == m[1..][e - 1 := f];
      CountReplace(s, m[1..], e - 1, f);
    } else {
      assert m[e := f][1..] == m[1..];
    }
  }

  lemma CountInit(len: nat, s: Site, m: Code)
    ensures Count(s, AllInstrs(InitCode(len, m))) == Count(s, AllInstrs(m))
  {
    var e := EntryIndex(m);
    if e < |m| && m[e].blocks != [] {
      var bs := m[e].blocks;
      var bs' := bs[0 := InitBlock(len, bs[0])];
      CountInitBlock(len, s, bs[0]);
      CountConcat(s, bs[0], Flatten(bs[1..]));
      CountConcat(s, bs'[0], Flatten(bs'[1..]));
      assert bs'[1..] == bs[1..];
      CountReplace(s, m, e, m[e].(blocks := bs'));
    }
  }

  // ---------- the passes together are the single-pass rewrite ----------

  /** cs lists all finalisation calls of a block. */
  ghost predicate AllCalls(cs: seq<Value>, b: BasicBlock) {
    forall i :: i in b && FinalizeCall(i) ==> i.dst in cs
  }

  lemma {:induction false} PrintsConcat(cs: seq<Value>, a: BasicBlock, b: BasicBlock)
    ensures PrintsBlock(cs, a + b) == PrintsBlock(cs, a) + PrintsBlock(cs, b)
  {
    if a == [] {
      assert a + b == b;
    } else {
      assert (a + b)[1..] == a[1..] + b;
      PrintsConcat(cs, a[1..], b);
    }
  }

  lemma InstrWoven(vs: seq<Value>, cs: seq<Value>, i: Instr)
    requires FinalizeCall(i) ==> i.dst in cs
    ensures PrintsBlock(cs, [i] + StoreOf(vs, i)) == WeaveInstr(vs, i)
  {
    PrintsConcat(cs, [i], StoreOf(vs, i));
    assert PrintsBlock(cs, [i]) == PrintOf(cs, i) + [i];
    assert PrintsBlock(cs, StoreOf(vs, i)) == StoreOf(vs, i);
  }

  lemma {:induction false} BlockWoven(vs: seq<Value>, cs: seq<Value>, b: BasicBlock)
    requires AllCalls(cs, b)
    ensures PrintsBlock(cs, StoresBlock(vs, b)) == WeaveBlock(vs, b)
  {
    if b != [] {
      hide WeaveInstr, FinalizeCall;
      assert AllCalls(cs, b[1..]);
      BlockWoven(vs, cs, b[1..]);
      assert b[0] in b;
      InstrWoven(vs, cs, b[0]);
      PrintsConcat(cs, [b[0]] + StoreOf(vs, b[0]), StoresBlock(vs, b[1..]));
    }
  }

  lemma EntrySkips(vs: seq<Value>, cs: seq<Value>, b: BasicBlock)
    requires b != [] && PhiOrDbg(b[0])
    ensures PrintsBlock(cs, InitBlock(|vs|, StoresBlock(vs, b))) ==
            [b[0]] + PrintsBlock(cs, InitBlock(|vs|, StoresBlock(vs, b[1..])))
  {
    var rest := InitBlock(|vs|, StoresBlock(vs, b[1..]));
    var s := [b[0]] + StoresBlock(vs, b[1..]);
    assert StoresBlock(vs, b) == s && s[1..] == StoresBlock(vs, b[1..]);
    assert InitBlock(|vs|, s) == [b[0]] + rest && ([b[0]] + rest)[1..] == rest;
  }

  lemma EntryStarts(vs: seq<Value>, cs: seq<Value>, b: BasicBlock)
    requires b != [] ==> !PhiOrDbg(b[0])
    ensures PrintsBlock(cs, InitBlock(|vs|, StoresBlock(vs, b))) ==
            [Runtime(InitCall(|vs|))] + PrintsBlock(cs, StoresBlock(vs, b))
  {
    var s := StoresBlock(vs, b);
    assert b != [] ==> s[0] == b[0];
    var w := [Runtime(InitCall(|vs|))] + s;
    assert InitBlock(|vs|, s) == w && w[1..] == s;
  }

  lemma {:induction false} EntryWoven(vs: seq<Value>, cs: seq<Value>, b: BasicBlock)
    requires AllCalls(cs, b)
    ensures PrintsBlock(cs, InitBlock(|vs|, StoresBlock(vs, b))) == WeaveEntry(vs, b)
  {
    hide PrintsBlock, InitBlock, StoresBlock, WeaveBlock, FinalizeCall;
    if b != [] && PhiOrDbg(b[0]) {
      EntrySkips(vs, cs, b);
      assert AllCalls(cs, b[1..]);
      EntryWoven(vs, cs, b[1..]);
    } else {
      EntryStarts(vs, cs, b);
      BlockWoven(vs, cs, b);
    }
  }

  /** Instrumenting step by step gives exactly the single-pass rewrite. */
  lemma PassesAreWeave(vs: seq<Value>, cs: seq<Value>, m: Code)
    requires forall f, b :: 0 <= f < |m| && 0 <= b < |m[f].blocks| ==> AllCalls(cs, m[f].blocks[b])
    ensures PassCode(Prints(cs), InitCode(|vs|, PassCode(Stores(vs), m))) == Weave(vs, m)
  {
    hide AllCalls, IsMain;
    PassEntry(Stores(vs), m);
    var mid := InitCode(|vs|, PassCode(Stores(vs), m));
    forall f | 0 <= f < |m| ensures PassFunction(Prints(cs), mid[f]) == WeaveFunction(vs, m[f], f == EntryIndex(m)) {
      forall b | 0 <= b < |m[f].blocks|
        ensures PassFunction(Prints(cs), mid[f]).blocks[b] == WeaveFunction(vs, m[f], f == EntryIndex(m)).blocks[b]
      {
        BlockWoven(vs, cs, m[f].blocks[b]);
        EntryWoven(vs, cs, m[f].blocks[b]);
      }
      assert PassFunction(Prints(cs), mid[f]).blocks == WeaveFunction(vs, m[f], f == EntryIndex(m)).blocks;
    }
    assert PassCode(Prints(cs), mid) == Weave(vs, m);
  }

  // ---------- the pass ----------

  /** The finalisation calls among some instructions. */
  function FinalizeCalls(instrs: seq<Instr>): seq<Value> {
    if instrs == [] then [] else CallOf(instrs[0]) + FinalizeCalls(instrs[1..])
  }

  function CallOf(i: Instr): seq<Value> {
    if FinalizeCall(i) then [i.dst] else []
  }

  lemma {:induction false} FinalizeCallsMeans(instrs: seq<Instr>, v: Value)
    ensures v in FinalizeCalls(instrs) <==> Count(FinalizeAt(v), instrs) > 0
  {
    if instrs != [] { FinalizeCallsMeans(instrs[1..], v); }
  }

  lemma {:induction false} FinalizeCallsDistinct(instrs: seq<Instr>)
    requires forall v :: Count(FinalizeAt(v), instrs) <= 1
    ensures Distinct(FinalizeCalls(instrs))
  {
    if instrs != [] {
      forall v ensures Count(FinalizeAt(v), instrs[1..]) <= 1 {
        assert Count(FinalizeAt(v), instrs) <= 1;
      }
      FinalizeCallsDistinct(instrs[1..]);
      if FinalizeCall(instrs[0]) {
        FinalizeCallsMeans(instrs[1..], instrs[0].dst);
        assert Count(FinalizeAt(instrs[0].dst), instrs) <= 1;
        forall j | 0 <= j < |FinalizeCalls(instrs[1..])| ensures FinalizeCalls(instrs[1..])[j] != instrs[0].dst {
          assert FinalizeCalls(instrs[1..])[j] in FinalizeCalls(instrs[1..]);
        }
      }
    }
  }

  lemma {:induction false} FinalizeCallsSnoc(instrs: seq<Instr>, i: Instr)
    ensures FinalizeCalls(instrs + [i]) == FinalizeCalls(instrs) + CallOf(i)
  {
    hide CallOf;
    if instrs == [] {
      assert instrs + [i] == [i];
    } else {
      assert (instrs + [i])[1..] == instrs[1..] + [i];
      FinalizeCallsSnoc(instrs[1..], i);
    }
  }

  lemma {:induction false} CountMember(s: Site, b: BasicBlock, i: Instr)
    requires i in b && At(s, i)
    ensures Count(s, b) > 0
  {
    if b[0] != i { CountMember(s, b[1..], i); }
  }

  lemma CallsOfCode(m: Code, f: nat, b: nat)
    requires f < |m| && b < |m[f].blocks|
    ensures AllCalls(FinalizeCalls(AllInstrs(m)), m[f].blocks[b])
  {
    forall i | i in m[f].blocks[b] && FinalizeCall(i) ensures i.dst in FinalizeCalls(AllInstrs(m)) {
      CountMember(FinalizeAt(i.dst), m[f].blocks[b], i);
      CountBelow(FinalizeAt(i.dst), m[f].blocks, b);
      CountBelowAll(FinalizeAt(i.dst), m, f);
      FinalizeCallsMeans(AllInstrs(m), i.dst);
    }
  }

  ghost predicate NoPrints(b: BasicBlock) {
    Runtime(PrintCall) !in b
  }

  /** Printing before all collected calls puts prints where they belong, and only there. */
  lemma {:induction false} PrintsBlockPlaced(cs: seq<Value>, b: BasicBlock)
    requires NoPrints(b) && AllCalls(cs, b)
    ensures PrintsPlaced(PrintsBlock(cs, b))
  {
    if b != [] {
      var i := b[0];
      PrintsBlockPlaced(cs, b[1..]);
      assert i in b;
      assert PrintOf(cs, i) + [i] == if FinalizeCall(i) then [Runtime(PrintCall), i] else [i];
      PrintsPlacedConcat(PrintOf(cs, i) + [i], PrintsBlock(cs, b[1..]));
    }
  }

  /** Once the pass has collected all finalisation calls, so it is in every block without earlier prints. */
  lemma PrintsPassPlaced(m: Code)
    ensures forall f, b :: 0 <= f < |m| && 0 <= b < |m[f].blocks| && NoPrints(m[f].blocks[b]) ==>
              PrintsPlaced(PassCode(Prints(FinalizeCalls(AllInstrs(m))), m)[f].blocks[b])
  {
    hide PrintsPlaced, NoPrints, AllInstrs, FinalizeCalls;
    forall f, b | 0 <= f < |m| && 0 <= b < |m[f].blocks| && NoPrints(m[f].blocks[b])
      ensures PrintsPlaced(PassCode(Prints(FinalizeCalls(AllInstrs(m))), m)[f].blocks[b])
    {
      CallsOfCode(m, f, b);
      PrintsBlockPlaced(FinalizeCalls(AllInstrs(m)), m[f].blocks[b]);
    }
  }

  /** What the pass may rely on: identities are unique, detected values are computed once, and the entry
      function has a body. */
  ghost predicate Instrumentable(m: Code, vs: seq<Value>) {
    && WellFormed(m)
    && Distinct(vs)
    && (forall v :: v in vs ==> Once(m, ResultOf(v)))
    && (forall v :: Count(FinalizeAt(v), AllInstrs(m)) <= 1)
    && (EntryIndex(m) < |m| ==> m[EntryIndex(m)].blocks != [])
  }

  method CollectCalls(instrs: seq<Instr>) returns (calls: seq<Value>)
    ensures calls == FinalizeCalls(instrs)
  {
    calls := [];
    for k := 0 to |instrs|
      invariant calls == FinalizeCalls(instrs[..k])
    {
      assert instrs[..k + 1] == instrs[..k] + [instrs[k]];
      FinalizeCallsSnoc(instrs[..k], instrs[k]);
      if FinalizeCall(instrs[k]) {
        calls := calls + [instrs[k].dst];
      }
    }
    assert instrs[..|instrs|] == instrs;
  }

  class OverflowInstrumentation {
    var m: Code

    constructor (m: Code)
      ensures this.m == m
    {
      this.m := m;
    }

    /** insertAfter or insertBefore at the place of the site. */
    method InsertAt(s: Site, c: Instr)
      requires Once(m, s)
      modifies this
      ensures m == PassCode(Insert(s, c), old(m))
    {
      ghost var f0, b0, k0 := PlaceExists(m, s);
      var f: nat, b: nat, k: nat :| f < |m| && b < |m[f].blocks| && k < |m[f].blocks[b]| && IsPlace(m, s, f, b, k);
      SpliceIsPass(m, s, c, f, b, k);
      m := SpliceAt(m, s, c, f, b, k);
    }

    method InstrumentInstruction(v: Value, id: nat)
      requires Once(m, ResultOf(v))
      modifies this
      ensures m == PassCode(Insert(ResultOf(v), Runtime(StoreCall(id, v))), old(m))
    {
      InsertAt(ResultOf(v), Runtime(StoreCall(id, v)));
    }

    /** Initialise at the start of the first main function, after PHIs and debug intrinsics. */
    method InitInstrumentation(tableLen: nat)
      requires EntryIndex(m) < |m| ==> m[EntryIndex(m)].blocks != []
      modifies this
      ensures m == InitCode(tableLen, old(m))
    {
      for f := 0 to |m|
        invariant m == old(m) && f <= EntryIndex(m)
      {
        if IsMain(m[f]) {
          var block := m[f].blocks[0];
          var k := 0;
          while k < |block| && PhiOrDbg(block[k])
            invariant k <= |block| && forall j :: 0 <= j < k ==> PhiOrDbg(block[j])
          {
            k := k + 1;
          }
          InitBlockAt(tableLen, block, k);
          var block' := block[..k] + [Runtime(InitCall(tableLen))] + block[k..];
          m := m[f := m[f].(blocks := m[f].blocks[0 := block'])];
          break;
        }
      }
    }

    /** Print before every call of MPI_Finalize: the calls are collected first. */
    method FinaliseInstrumentation()
      requires forall v :: Count(FinalizeAt(v), AllInstrs(m)) <= 1
      modifies this
      ensures m == PassCode(Prints(FinalizeCalls(AllInstrs(old(m)))), old(m))
      ensures forall f, b :: 0 <= f < |old(m)| && 0 <= b < |old(m)[f].blocks| && NoPrints(old(m)[f].blocks[b]) ==>
                PrintsPlaced(m[f].blocks[b])
    {
      PrintsPassPlaced(m);
      hide PassCode, FinalizeCalls, Count, AllInstrs;
      ghost var m0 := m;
      var calls := CollectCalls(AllInstrs(m));
      FinalizeCallsDistinct(AllInstrs(m));
      PassNothing(Prints([]), m0);
      assert calls[..0] == [];
      for k := 0 to |calls|
        invariant m == PassCode(Prints(calls[..k]), m0)
      {
        assert calls[k] in calls;
        FinalizeCallsMeans(AllInstrs(m0), calls[k]);
        CountPass(Prints(calls[..k]), FinalizeAt(calls[k]), m0);
        InsertAt(FinalizeAt(calls[k]), Runtime(PrintCall));
        PrintsStep(m0, calls, k);
      }
      assert calls[..|calls|] == calls;
    }

    /** The whole pass: ids are handed out in the order of the list, and its length sizes the table. */
    method Instrument(overflowable: seq<Value>)
      requires Instrumentable(m, overflowable)
      modifies this
      ensures m == Weave(overflowable, old(m))
      ensures forall f, b :: 0 <= f < |m| && 0 <= b < |m[f].blocks| ==> PrintsPlaced(m[f].blocks[b])
    {
      WeavePrints(overflowable, m);
      hide WellFormed, PrintsPlaced;
      ghost var m0 := m;
      PassNothing(Stores([]), m0);
      var instrId := 0;
      for k := 0 to |overflowable|
        invariant instrId == k && m == PassCode(Stores(overflowable[..k]), m0)
      {
        assert overflowable[k] in overflowable;
        CountPass(Stores(overflowable[..k]), ResultOf(overflowable[k]), m0);
        InstrumentInstruction(overflowable[k], instrId);
        StoresStep(m0, overflowable, k);
        instrId := instrId + 1;
      }
      assert overflowable[..|overflowable|] == overflowable;
      PassEntry(Stores(overflowable), m0);
      InitInstrumentation(instrId);
      CallsUnchanged(m0, overflowable);
      FinaliseInstrumentation();
      forall f, b | 0 <= f < |m0| && 0 <= b < |m0[f].blocks|
        ensures AllCalls(FinalizeCalls(AllInstrs(InitCode(instrId, PassCode(Stores(overflowable), m0)))),
                         m0[f].blocks[b])
      {
        CallsKept(m0, overflowable, f, b);
      }
      PassesAreWeave(overflowable, FinalizeCalls(AllInstrs(InitCode(instrId, PassCode(Stores(overflowable), m0)))), m0);
    }
  }

  lemma PrintsStep(m0: Code, calls: seq<Value>, k: nat)
    requires k < |calls| && Distinct(calls)
    ensures PassCode(Insert(FinalizeAt(calls[k]), Runtime(PrintCall)), PassCode(Prints(calls[..k]), m0)) ==
            PassCode(Prints(calls[..k + 1]), m0)
  {
    assert calls[..k + 1] == calls[..k] + [calls[k]];
    forall f, b | 0 <= f < |m0| && 0 <= b < |m0[f].blocks|
      ensures PassBlock(Insert(FinalizeAt(calls[k]), Runtime(PrintCall)),
                        PassBlock(Prints(calls[..k]), m0[f].blocks[b])) ==
              PassBlock(Prints(calls[..k + 1]), m0[f].blocks[b])
    {
      PrintsSnoc(calls[..k], calls[k], m0[f].blocks[b]);
    }
    PassesAdd(Prints(calls[..k]), Insert(FinalizeAt(calls[k]), Runtime(PrintCall)), Prints(calls[..k + 1]), m0);
  }

  lemma StoresStep(m0: Code, vs: seq<Value>, k: nat)
    requires k < |vs| && Distinct(vs) && WellFormed(m0)
    ensures PassCode(Insert(ResultOf(vs[k]), Runtime(StoreCall(k, vs[k]))), PassCode(Stores(vs[..k]), m0)) ==
            PassCode(Stores(vs[..k + 1]), m0)
  {
    assert vs[..k + 1] == vs[..k] + [vs[k]];
    forall f, b | 0 <= f < |m0| && 0 <= b < |m0[f].blocks|
      ensures PassBlock(Insert(ResultOf(vs[k]), Runtime(StoreCall(k, vs[k]))),
                        PassBlock(Stores(vs[..k]), m0[f].blocks[b])) ==
              PassBlock(Stores(vs[..k + 1]), m0[f].blocks[b])
    {
      assert m0[f] in m0 && m0[f].blocks[b] in m0[f].blocks;
      StoresSnoc(vs[..k], vs[k], m0[f].blocks[b]);
    }
    PassesAdd(Stores(vs[..k]), Insert(ResultOf(vs[k]), Runtime(StoreCall(k, vs[k]))), Stores(vs[..k + 1]), m0);
  }

  lemma CallsUnchanged(m0: Code, vs: seq<Value>)
    ensures forall v :: Count(FinalizeAt(v), AllInstrs(InitCode(|vs|, PassCode(Stores(vs), m0)))) ==
                        Count(FinalizeAt(v), AllInstrs(m0))
  {
    forall v
      ensures Count(FinalizeAt(v), AllInstrs(InitCode(|vs|, PassCode(Stores(vs), m0)))) ==
              Count(FinalizeAt(v), AllInstrs(m0))
    {
      CountInit(|vs|, FinalizeAt(v), PassCode(Stores(vs), m0));
      CountPass(Stores(vs), FinalizeAt(v), m0);
    }
  }

  lemma CallsKept(m0: Code, vs: seq<Value>, f: nat, b: nat)
    requires f < |m0| && b < |m0[f].blocks|
    ensures AllCalls(FinalizeCalls(AllInstrs(InitCode(|vs|, PassCode(Stores(vs), m0)))), m0[f].blocks[b])
  {
    var m1 := InitCode(|vs|, PassCode(Stores(vs), m0));
    CallsUnchanged(m0, vs);
    CallsOfCode(m0, f, b);
    forall i | i in m0[f].blocks[b] && FinalizeCall(i) ensures i.dst in FinalizeCalls(AllInstrs(m1)) {
      FinalizeCallsMeans(AllInstrs(m0), i.dst);
      FinalizeCallsMeans(AllInstrs(m1), i.dst);
    }
  }
}
