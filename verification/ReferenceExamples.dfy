/** Marked fields of structures: one that is lost, one that is told from its neighbour, one that is indexed in a
    called function. */
module ReferenceExamples {
  import opened Collections
  import opened Reachability
  import opened IR
  import opened ForwardTracing
  import opened BackwardTracing
  import opened IndexComparison
  import opened GepSearch
  import opened ReferenceSearch

  // ---------- a field that is lost ----------

  /** A pointer to a field of a structure is stored in its first field, read back, and indexed again. */
  function SelfPointer(): Program {
    Program(map[1 := Alloca, 2 := Gep(1, [10], false), 3 := Store(2, 1), 4 := Load(1), 5 := Gep(4, [11], false),
                10 := OtherConstant, 11 := OtherConstant],
            map[1 := [2, 3, 4], 2 := [3], 4 := [5]], map[3 := [4]], map[4 := 3], map[], [], map[], map[], map[])
  }

  lemma SelfPointerSteps()
    ensures var p := SelfPointer();
            && p.kinds.Keys == {1, 2, 3, 4, 5, 10, 11}
            && p.kinds[1] == Alloca && p.kinds[2] == Gep(1, [10], false) && p.kinds[3] == Store(2, 1)
            && p.kinds[4] == Load(1) && p.kinds[5] == Gep(4, [11], false)
            && p.kinds[10] == OtherConstant && p.kinds[11] == OtherConstant
            && p.StoreOf(4) == 3 && p.functions == map[] && p.instructions == [] && p.blocks == map[]
            && p.UsersOf(1) == [2, 3, 4] && p.UsersOf(2) == [3] && p.UsersOf(4) == [5] && p.LoadsOf(3) == [4]
            && (forall v :: v in {3, 5, 10, 11} ==> p.UsersOf(v) == [])
            && (forall v :: v in p.kinds && v != 3 ==> p.LoadsOf(v) == [])
            && (forall mode, v :: v in {1, 10, 11} ==> BackStep(p, mode, v) == v)
            && (forall mode :: BackStep(p, mode, 2) == 1 && BackStep(p, mode, 3) == 2)
            && (forall mode :: BackStep(p, mode, 4) == 3 && BackStep(p, mode, 5) == 4)
  {
  }

  lemma SelfPointerValues()
    ensures var p := SelfPointer(); forall v | v in p.kinds :: p.WellFormedValue(v)
  {
    SelfPointerSteps();
    hide BackStep, Program.UsersOf, Program.LoadsOf, SelfPointer;
    var p := SelfPointer();
    forall v | v in p.kinds ensures p.WellFormedValue(v) {
      assert v in {1, 2, 3, 4, 5, 10, 11};
    }
  }

  lemma SelfPointerWellFormed()
    ensures SelfPointer().WellFormed()
  {
    SelfPointerSteps();
    SelfPointerValues();
    hide BackStep, Program.UsersOf, Program.LoadsOf, SelfPointer, Program.WellFormedValue;
    var p := SelfPointer();
    forall v, u | v in p.kinds && u in p.UsersOf(v) ensures u in {2, 3, 4, 5} {
      assert v in {1, 2, 3, 4, 5, 10, 11};
    }
    forall v, l | v in p.kinds && l in p.LoadsOf(v) ensures l == 4 {
      assert v in {1, 2, 3, 4, 5, 10, 11};
    }
  }

  lemma SelfPointerTrace()
    ensures SelfPointer().WellFormed() && FullTrace(SelfPointer(), UpToArg, 5) == [5, 4, 3, 2, 1]
  {
    SelfPointerWellFormed();
    SelfPointerSteps();
    hide Program.WellFormed, BackStep, SelfPointer;
    var p := SelfPointer();
    assert {5} + {4} == {5, 4} && {5, 4} + {3} == {5, 4, 3} && {5, 4, 3} + {2} == {5, 4, 3, 2};
    assert {5, 4, 3, 2} + {1} == {5, 4, 3, 2, 1};
    assert Chain(p, UpToArg, 1, {5, 4, 3, 2, 1}) == [];
    assert Chain(p, UpToArg, 2, {5, 4, 3, 2}) == [1];
    assert Chain(p, UpToArg, 3, {5, 4, 3}) == [2, 1];
    assert Chain(p, UpToArg, 4, {5, 4}) == [3, 2, 1];
    assert Chain(p, UpToArg, 5, {5}) == [4, 3, 2, 1];
  }

  lemma SelfPointerScan()
    ensures ScanRoot(SelfPointer(), [5, 4, 3, 2, 1]) == Some(1) && ScanGeps(SelfPointer(), [5, 4, 3, 2, 1]) == [5, 2]
  {
    SelfPointerSteps();
    hide BackStep, Program.UsersOf, Program.LoadsOf, SelfPointer;
    var p := SelfPointer();
    assert [5, 4, 3, 2, 1][1..] == [4, 3, 2, 1] && [4, 3, 2, 1][1..] == [3, 2, 1];
    assert [3, 2, 1][1..] == [2, 1] && [2, 1][1..] == [1];
    assert ScanGeps(p, [1]) == [] && ScanGeps(p, [2, 1]) == [2] && ScanGeps(p, [3, 2, 1]) == [2];
    assert ScanGeps(p, [4, 3, 2, 1]) == [2];
  }

  lemma SelfPointerLinks()
    ensures forall v, w :: (v, w) in GepLinks(SelfPointer()) <==> (v, w) in {(1, 4), (2, 4)}
  {
    var p := SelfPointer();
    SelfPointerSteps();
    hide Program.UsersOf, Program.LoadsOf, SelfPointer;
    assert 3 in p.UsersOf(1) && 4 in Onward(p, 1, 3) && 3 in p.UsersOf(2) && 4 in Onward(p, 2, 3);
    forall v, w, u | v in p.kinds && u in p.UsersOf(v) && w in Onward(p, v, u) ensures v in {1, 2} && w == 4 {
      assert u in {2, 3, 4, 5};
    }
  }

  /** In a nest the marked GEP can be lost although it is below the root: the first level visits the
      value that the second level would have found it through. */
  lemma NestedGepLost()
    ensures var p := SelfPointer();
            && p.WellFormed()
            && FullTrace(p, UpToArg, 5) == [5, 4, 3, 2, 1]
            && TraceSettled(p, [5, 4, 3, 2, 1])
            && 5 in GepsBelow(p, 1) && Refs(p, [5, 4, 3, 2, 1]) == {}
  {
    var p, links := SelfPointer(), GepLinks(SelfPointer());
    SelfPointerWellFormed();
    SelfPointerTrace();
    SelfPointerScan();
    SelfPointerLinks();
    SelfPointerSteps();
    SelfPointerSettled();
    hide Program.WellFormed, Chain, SearchesTo, ReachSet, SelfPointer, IndicesEqual, BackStep, Program.UsersOf;
    hide TraceSettled, FullTrace, GepsEqual;
    ReachSetClosed(links, {1});
    assert (1, 4) in links;
    var r1 := ReachSet(links, {1});
    ReachSetLeast(links, {1}, {1, 4});
    assert r1 == {1, 4};
    assert 5 in p.UsersOf(4) && 5 in GepUsers(p, r1);
    var found1 := GepUsers(p, r1 - {});
    SelfPointerFound();
    assert r1 - {} == {1, 4};
    var next := Matching(p, 2, found1);
    ReachSetLeast(links, next, {2, 4, 5});
    assert Unroll(p, [5], next, {} + r1) == {} by {
      var reached := ReachSet(links, next);
      assert reached - ({} + r1) <= {2, 5};
      assert GepUsers(p, reached - ({} + r1)) <= GepUsers(p, {2, 5}) == {};
      assert [5][..0] == [];
      assert Matching(p, 5, {}) == {};
    }
    assert [5, 2][..1] == [5];
  }

  lemma SelfPointerSettled()
    ensures SelfPointer().WellFormed() && TraceSettled(SelfPointer(), [5, 4, 3, 2, 1])
  {
    SelfPointerWellFormed();
    SelfPointerScan();
    SelfPointerSteps();
    hide Program.WellFormed, SelfPointer, Settled, BackStep, Program.UsersOf;
    ConstantsSettled(SelfPointer(), 2);
    ConstantsSettled(SelfPointer(), 5);
    SettledIsEnough(SelfPointer(), [5, 4, 3, 2, 1]);
  }

  lemma SelfPointerFound()
    ensures GepUsers(SelfPointer(), {1, 4}) == {2, 5} && GepUsers(SelfPointer(), {2, 5}) == {}
  {
    var p := SelfPointer();
    SelfPointerSteps();
    hide Program.UsersOf, Program.LoadsOf, SelfPointer;
    GepUsersUnion(p, {1}, {4});
    GepUsersUnion(p, {2}, {5});
    assert {1} + {4} == {1, 4} && {2} + {5} == {2, 5};
    GepUsersOne(p, 1);
    GepUsersOne(p, 4);
    GepUsersOne(p, 2);
    GepUsersOne(p, 5);
    assert 2 in p.UsersOf(1) && 5 in p.UsersOf(4);
    assert GepsAmong(p, [2, 3, 4]) == {2} && GepsAmong(p, [5]) == {5} && GepsAmong(p, [3]) == {};
  }

  // ---------- two fields of one structure ----------

  /** Two fields of a local structure. */
  function TwoFields(): Program {
    Program(map[1 := Alloca, 2 := Gep(1, [10, 11], false), 3 := Gep(1, [10, 12], false),
                10 := OtherConstant, 11 := OtherConstant, 12 := OtherConstant],
            map[1 := [2, 3]], map[], map[], map[], [1, 2, 3], map[], map[], map[])
  }

  lemma TwoFieldsFacts()
    ensures var p := TwoFields();
            && p.kinds.Keys == {1, 2, 3, 10, 11, 12} && p.kinds[1] == Alloca
            && p.kinds[2] == Gep(1, [10, 11], false) && p.kinds[3] == Gep(1, [10, 12], false)
            && p.kinds[10] == OtherConstant && p.kinds[11] == OtherConstant && p.kinds[12] == OtherConstant
            && p.functions == map[] && p.instructions == [1, 2, 3] && p.blocks == map[]
            && p.UsersOf(1) == [2, 3] && (forall v :: v != 1 ==> p.UsersOf(v) == []) && forall v :: p.LoadsOf(v) == []
  {
  }

  lemma TwoFieldsWellFormed()
    ensures TwoFields().WellFormed()
  {
    TwoFieldsFacts();
    hide TwoFields, Program.UsersOf, Program.LoadsOf;
    var p := TwoFields();
    forall v | v in p.kinds ensures p.WellFormedValue(v) {}
    forall v, u | v in p.kinds && u in p.UsersOf(v) ensures u in {2, 3} {}
  }

  lemma TwoFieldsBelow()
    ensures {2, 3} <= GepsBelow(TwoFields(), 1)
  {
    TwoFieldsFacts();
    hide TwoFields, Program.UsersOf, ReachSet;
    var p := TwoFields();
    ReachSetClosed(GepLinks(p), {1});
    assert 2 in p.UsersOf(1) && 3 in p.UsersOf(1);
  }

  lemma TwoFieldsScan()
    ensures ScanRoot(TwoFields(), [2, 1]) == Some(1) && ScanGeps(TwoFields(), [2, 1]) == [2]
  {
    TwoFieldsFacts();
    hide TwoFields, Program.UsersOf, Program.LoadsOf;
    assert [2, 1][1..] == [1];
    assert ScanGeps(TwoFields(), [1]) == [];
  }

  /** The two fields are told from each other: a marked one is its only reference. */
  lemma FieldsAreApart()
    ensures var p := TwoFields();
            && p.WellFormed() && IsGep(p, 2) && IsGep(p, 3)
            && !GepsEqual(p, 2, 3, 1, 1)
            && {2, 3} <= GepsBelow(p, 1) && 2 in Refs(p, [2, 1]) && 3 !in Refs(p, [2, 1])
  {
    TwoFieldsWellFormed();
    TwoFieldsBelow();
    TwoFieldsScan();
    TwoFieldsFacts();
    hide TwoFields, Program.WellFormed, Program.UsersOf, Program.LoadsOf, IndicesEqual, Refs, GepsBelow;
    var p := TwoFields();
    IndicesEqualIff(p, 11, 12);
    assert !GepsEqual(p, 2, 3, 1, 1) by {
      assert p.kinds[2].indices[1] == 11 && p.kinds[3].indices[1] == 12;
    }
    MarkedGepKept(p, [2, 1], 1, 2);
  }

  // ---------- a structure passed to a function ----------

  /** The address of a local structure is passed to a function, which indexes it. */
  function PassedStructure(): Program {
    Program(map[1 := Alloca, 2 := Call(100, [1], 20), 3 := Argument(100, 0), 4 := Gep(3, [10], false),
                10 := OtherConstant, 20 := CodePointer],
            map[1 := [2], 3 := [4], 20 := [2]], map[], map[],
            map[100 := Function("f", false, false, [3])], [2], map[], map[], map[])
  }

  lemma PassedStructureFacts()
    ensures var p := PassedStructure();
            && p.kinds.Keys == {1, 2, 3, 4, 10, 20} && p.kinds[1] == Alloca && p.kinds[2] == Call(100, [1], 20)
            && p.kinds[3] == Argument(100, 0) && p.kinds[4] == Gep(3, [10], false)
            && p.kinds[10] == OtherConstant && p.kinds[20] == CodePointer
            && p.functions.Keys == {100} && p.functions[100] == Function("f", false, false, [3])
            && p.instructions == [2] && p.blocks == map[]
            && p.UsersOf(1) == [2] && p.UsersOf(3) == [4] && p.UsersOf(20) == [2]
            && (forall v :: v in {2, 4, 10} ==> p.UsersOf(v) == []) && forall v :: p.LoadsOf(v) == []
  {
  }

  lemma PassedStructureWellFormed()
    ensures PassedStructure().WellFormed()
  {
    PassedStructureFacts();
    hide PassedStructure, Program.UsersOf, Program.LoadsOf;
    var p := PassedStructure();
    forall v | v in p.kinds ensures p.WellFormedValue(v) {}
    forall v, u | v in p.kinds && u in p.UsersOf(v) ensures u in {2, 4} {}
  }

  lemma PassedStructureArgs()
    ensures var p := PassedStructure();
            && p.IsCall(2) && CallArgs(p, 2, 1) == [3]
  {
    PassedStructureFacts();
    hide PassedStructure, Program.UsersOf, Program.LoadsOf;
    var p := PassedStructure();
    assert p.Operands(2) == [1, 20];
    assert PassedAs([1, 20], [3], 1, 1) == [3];
  }

  lemma FormalSearch()
    ensures var p := PassedStructure();
            && p.WellFormed() && 3 in p.kinds && !p.KindOf(3).CodePointer? && {1} <= p.kinds.Keys
            && Search(p, 3, Found([], {1})) == Found([4], {1, 3})
  {
    PassedStructureWellFormed();
    PassedStructureFacts();
    hide PassedStructure, Program.WellFormed, Program.UsersOf, Program.LoadsOf, SearchAll;
    var p := PassedStructure();
    assert [4][1..] == [] && {1} + {3} == {1, 3};
    assert SearchUsers(p, 3, [4], Found([], {1, 3})) == Found([4], {1, 3});
  }

  /** From the local the search enters the function, and finds the GEP in it. */
  lemma PassedStructureSearch()
    ensures var p := PassedStructure();
            && p.WellFormed() && 1 in p.kinds && !p.KindOf(1).CodePointer?
            && Search(p, 1, Found([], {})).geps == [4]
  {
    FormalSearch();
    PassedStructureArgs();
    PassedStructureFacts();
    hide PassedStructure, Program.WellFormed, Program.UsersOf, Program.LoadsOf, CallArgs;
    var p := PassedStructure();
    LinksStay(p, 1, 2);
    assert [2][1..] == [] && [3][1..] == [] && {} + {1} == {1};
    hide Search;
    assert SearchAll(p, [3], Found([], {1})) == Found([4], {1, 3});
    assert SearchUsers(p, 1, [2], Found([], {1})) == Found([4], {1, 3});
  }

  lemma PassedStructureScan()
    ensures ScanRoot(PassedStructure(), [4, 3, 2, 1]) == Some(1) && ScanGeps(PassedStructure(), [4, 3, 2, 1]) == [4]
  {
    PassedStructureFacts();
    hide PassedStructure, Program.UsersOf, Program.LoadsOf;
    var p := PassedStructure();
    assert [4, 3, 2, 1][1..] == [3, 2, 1] && [3, 2, 1][1..] == [2, 1] && [2, 1][1..] == [1];
    assert ScanGeps(p, [2, 1]) == [] && ScanRoot(p, [2, 1]) == Some(1);
    assert ScanGeps(p, [3, 2, 1]) == [] && ScanRoot(p, [3, 2, 1]) == Some(1);
  }

  /** The marked GEP in the called function is the reference of its trace through the call. */
  lemma FieldIsFoundInCallee()
    ensures var p := PassedStructure();
            && p.WellFormed()
            && Search(p, 1, Found([], {})).geps == [4]
            && Refs(p, [4, 3, 2, 1]) == {4}
  {
    PassedStructureSearch();
    PassedStructureScan();
    hide PassedStructure, Program.WellFormed, Search, Refs, GepsEqual, GepsBelow, Program.UsersOf, Members;
    var p := PassedStructure();
    FindGEPsExact(p, 1);
    OneMember([4]);
    assert GepsBelow(p, 1) == {4};
    MarkedGepKept(p, [4, 3, 2, 1], 1, 4);
    assert forall r :: r in Refs(p, [4, 3, 2, 1]) ==> r in GepsBelow(p, 1);
  }
}
