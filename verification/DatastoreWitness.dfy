/** Concrete runs: two crashes inside a flush that leave two empty logs, and a mid-split crash that costs a write. */
module DatastoreWitness {
  import opened ByteStrings
  import opened DatastoreModel
  import opened DatastoreSteps
  import opened DatastoreProofs
  import opened DatastoreSplit
  import opened DatastoreCrash
  import opened DatastoreSafe
  import opened DatastoreRuns

  const VALUE := Sample(1, 1.0)

  function One(): Stream {
    Stream([1], [VALUE])
  }

  function NewBlock(id: Id): BlockState {
    BlockState([1], id, {}, map[], [One()])
  }

  // ---------- two empty logs ----------

  function Nothing(): State {
    State(map[], [], Disk(map[], map[], map[]), 0)
  }

  function OneLog(): Disk {
    Disk(map[], map["a" := []], map[])
  }

  function TwoLogs(): Disk {
    Disk(map[], map["a" := [], "b" := []], map[])
  }

  /** Block "a" has been started and not flushed. */
  function Started(): State {
    State(map[[1] := NewBlock("a")], [[1]], Disk(map[], map[], map[]), 0)
  }

  /** A crash inside the flush left its log created and empty; the process is back. */
  function Back(): State {
    State(map[[] := BlockState([], "a", {}, map[], [])], [[]], OneLog(), 1)
  }

  /** The next write starts block "b". */
  function StartedAgain(): State {
    State(map[[] := BlockState([], "a", {}, map[], []), [1] := NewBlock("b")], [[], [1]], OneLog(), 1)
  }

  function Runs(): seq<State> {
    [Nothing(), Started(), Back(), StartedAgain()]
  }

  function Happenings(): seq<Event> {
    [Does(Write(One(), "a")), Crashes(InFlush, OneLog(), 1), Does(Write(One(), "b"))]
  }

  lemma FirstWrite()
    ensures Happens(Nothing(), Does(Write(One(), "a")), Started())
  {
    assert Elements([[1]]) == {[1]};
    assert StartBlock(Nothing(), Started(), One(), "a");
  }

  lemma EmptyLogEnds(d: Disk, id: Id)
    requires d.files == map[] && LogOf(d, id) == []
    ensures EndOf(d, id) == []
  {
  }

  lemma FirstCrash()
    ensures Happens(Started(), Crashes(InFlush, OneLog(), 1), Back())
  {
    var s, d := Started(), OneLog();
    EmptyLogEnds(d, "a");
    assert s.blocks[[1]].id == "a" && Owned(s, "a");
    assert LogOf(d, "a") == LogOf(s.disk, "a") + s.blocks[[1]].newStreams[..0];
    assert LogGrew(s.blocks[[1]], s.disk, d);
    assert Elements([[]]) == {[]};
    assert Variables([]) == {};
    assert LoadedBlock(d, "a") == Back().blocks[[]];
  }

  lemma SecondWrite()
    ensures Happens(Back(), Does(Write(One(), "b")), StartedAgain())
  {
    assert Elements([[], [1]]) == {[], [1]};
    assert Less([], [1]);
    assert StartBlock(Back(), StartedAgain(), One(), "b");
  }

  /** From an empty directory, two crashes inside a flush, each just after a log was created, leave two blocks that would both
      end at the empty string: no state is the reopening of that directory. */
  lemma TwoEmptyLogs()
    ensures Safe(Nothing()) && History(Runs(), Happenings()) && FlushCrash(StartedAgain(), TwoLogs())
    ensures !DiskSound(TwoLogs()) && forall pid, s :: !IsReopened(TwoLogs(), pid, s)
  {
    TheRun();
    SecondCrash();
    EmptyStoreInv(0);
    InvIsSafe(Nothing());
    EmptyLogEnds(TwoLogs(), "a");
    EmptyLogEnds(TwoLogs(), "b");
    hide *;
    NotOpened(TwoLogs(), "a", "b");
  }

  lemma TheRun()
    ensures History(Runs(), Happenings())
  {
    FirstWrite();
    FirstCrash();
    SecondWrite();
    hide Happens;
    assert Runs()[0] == Nothing() && Runs()[1] == Started() && Runs()[2] == Back() && Runs()[3] == StartedAgain();
  }

  lemma NotOpened(d: Disk, i: Id, j: Id)
    requires i in OnDisk(d) && j in OnDisk(d) && i != j && EndOf(d, i) == EndOf(d, j)
    ensures !DiskSound(d) && forall pid, s :: !IsReopened(d, pid, s)
  {
    hide EndOf, OnDisk, FilesSound;
    forall pid, s ensures !IsReopened(d, pid, s) {
      assert IsReopened(d, pid, s) ==> LoadedBlock(d, i) == LoadedBlock(d, j);
    }
  }

  lemma SecondCrash()
    ensures FlushCrash(StartedAgain(), TwoLogs())
  {
    var s, d := StartedAgain(), TwoLogs();
    assert s.blocks[[]].id == "a" && Owned(s, "a") && s.blocks[[1]].id == "b" && Owned(s, "b");
    assert LogOf(d, "a") == LogOf(s.disk, "a") + s.blocks[[]].newStreams[..0];
    assert LogOf(d, "b") == LogOf(s.disk, "b") + s.blocks[[1]].newStreams[..0];
    assert LogGrew(s.blocks[[]], s.disk, d) && LogGrew(s.blocks[[1]], s.disk, d);
  }

  // ---------- a write lost ----------

  const LATE := Sample(2, 2.0)

  function Two(): Stream {
    Stream([2], [VALUE])
  }

  function Late(): Stream {
    Stream([1], [LATE])
  }

  /** One block with two keys, both in its log. */
  function Logged(): State {
    State(map[[2] := BlockState([2], "a", {}, map[[1] := [VALUE], [2] := [VALUE]], [])], [[2]],
          Disk(map[], map["a" := [One(), Two()]], map[]), 0)
  }

  /** The crash: the left half is in place and the old block still holds both. */
  function Halfway(): Disk {
    Disk(map["a" := BlockFile([2], [One(), Two()]), "b" := BlockFile([1], [One()])], map[], map[])
  }

  function Recovered(): State {
    State(map[[1] := BlockState([1], "b", {[1]}, map[], []), [2] := BlockState([2], "a", {[1], [2]}, map[], [])], [[1], [2]], Halfway(), 1)
  }

  function WrittenLate(): State {
    Recovered().(blocks := Recovered().blocks[[1] := BlockState([1], "b", {[1]}, map[], [Late()])])
  }

  function SplitAgain(): State {
    State(map[[1] := BlockState([1], "c", {[1]}, map[], []), [2] := BlockState([2], "a", {[2]}, map[], [])], [[1], [2]],
          Disk(map["a" := BlockFile([2], [Two()]), "b" := BlockFile([1], [One()]), "c" := BlockFile([1], [One()])], map[], map[]), 1)
  }

  lemma SmallKeys()
    ensures Less([1], [2]) && !Less([2], [1]) && [1] != [2] && !Less([1], [1]) && !Less([2], [2])
    ensures Elements([[1], [2]]) == {[1], [2]} && Elements([[2]]) == {[2]}
  {
  }

  lemma SmallStreams()
    ensures Variables([One()]) == {[1]} && Variables([Two()]) == {[2]} && Variables([One(), Two()]) == {[1], [2]}
    ensures Variables([Late()]) == {[1]}
  {
    SingleStream(One());
    SingleStream(Two());
    SingleStream(Late());
    VariablesConcat([One()], [Two()]);
    assert [One()] + [Two()] == [One(), Two()];
  }

  lemma SmallMaps()
    ensures AbsorbAll(map[], [One()]) == map[[1] := [VALUE]]
    ensures AbsorbAll(map[], [One(), Two()]) == map[[1] := [VALUE], [2] := [VALUE]]
  {
    assert [One(), Two()][..1] == [One()] && [One()][..0] == [];
    FirstStream(map[], One());
    FirstStream(map[[1] := [VALUE]], Two());
  }

  lemma FirstStream(m: Streams, st: Stream)
    requires st.variable !in m
    ensures Absorb(m, st) == m[st.variable := st.values]
  {
    assert Get(m, st.variable) + st.values == st.values;
  }

  lemma SingleFile(st: Stream)
    requires |st.values| == 1
    ensures IsWritten(BlockFile(st.variable, [st]), map[st.variable := st.values])
  {
    SingleStream(st);
    hide Less;
    var m := map[st.variable := st.values];
    assert [st][..0] == [] && m.Keys == {st.variable} && |m| == 1;
    forall k ensures StreamsAt([st], k) == MapAt(m, k) {
    }
    assert SortedByTime(st.values);
  }

  lemma BothFile()
    ensures IsWritten(BlockFile([2], [One(), Two()]), map[[1] := [VALUE], [2] := [VALUE]])
  {
    SmallKeys();
    SmallStreams();
    hide Less;
    forall k ensures StreamsAt([One(), Two()], k) == MapAt(map[[1] := [VALUE], [2] := [VALUE]], k) {
      BothAt(k);
    }
    assert map[[1] := [VALUE], [2] := [VALUE]].Keys == {[1], [2]};
  }

  lemma BothAt(k: Key)
    ensures StreamsAt([One(), Two()], k) == MapAt(map[[1] := [VALUE], [2] := [VALUE]], k)
  {
    assert [One(), Two()][..1] == [One()] && [One()][..0] == [];
    var m := map[[1] := [VALUE], [2] := [VALUE]];
    assert StreamsAt([One()], k) == if k == [1] then multiset([VALUE]) else multiset{};
    assert StreamsAt([One(), Two()], k) == StreamsAt([One()], k) + if k == [2] then multiset([VALUE]) else multiset{};
    assert MapAt(m, k) == if k == [1] || k == [2] then multiset([VALUE]) else multiset{};
  }

  function Both(): Streams {
    map[[1] := [VALUE], [2] := [VALUE]]
  }

  lemma LoggedFiles()
    ensures FilesSound(Logged().disk, "a") && EndOf(Logged().disk, "a") == [2]
  {
    var d := Logged().disk;
    SmallKeys();
    SmallStreams();
    assert LogOf(d, "a") == [One(), Two()] && FileOf(d, "a") == [];
    MaxVariableIsEnd([One(), Two()]);
    IsEndUnique(MaxVariable([One(), Two()]), [2], {[1], [2]});
    hide Less, MaxVariable;
    assert DiskKeys(d, "a") == {[1], [2]} by { assert Variables([]) == {}; }
  }

  lemma LoggedBlockSound()
    ensures BlockSound(Logged().blocks[[2]], Logged().disk)
  {
    LoggedFiles();
    SmallMaps();
    hide FilesSound, EndOf, AbsorbAll, Less;
    assert Variables([]) == {};
    assert Logged().blocks[[2]].id == "a";
  }

  lemma LoggedInv()
    ensures Inv(Logged()) && Sound(Logged())
  {
    LoggedFiles();
    LoggedBlockSound();
    SmallKeys();
    hide FilesSound, BlockSound, Less, EndOf, BlockKeys;
    assert Logged().blocks[[2]].id == "a" && Owned(Logged(), "a");
  }

  lemma SplitAtOne()
    ensures IsSplitKey({[1], [2]}, [1])
  {
    SmallKeys();
    assert [[1], [2]][|[[1], [2]]| / 2 - 1] == [1];
    assert Increasing([[1], [2]]);
  }

  lemma Halves()
    ensures UpTo(Both(), [1]) == map[[1] := [VALUE]] && After(Both(), [1]) == map[[2] := [VALUE]]
  {
    SmallKeys();
  }

  /** What Read collects from block "a", in its log or in its file. */
  lemma MergedBoth()
    ensures Merged(Logged().blocks[[2]], Logged().disk) == Both()
    ensures Merged(WrittenLate().blocks[[2]], WrittenLate().disk) == Both()
  {
    SmallMaps();
    hide AbsorbAll;
    assert Logged().blocks[[2]].id == "a" == WrittenLate().blocks[[2]].id;
    assert AbsorbAll(map[], []) == map[] by { AbsorbNothing(); }
    CombineNothing(Both());
  }

  lemma CombineNothing(m: Streams)
    ensures Combine(map[], m) == m && Combine(m, map[]) == m
  {
    forall k | k in m ensures Get(map[], k) + m[k] == m[k] && m[k] + Get(map[], k) == m[k] {
    }
  }

  lemma SplitFiles()
    ensures IsWritten(BlockFile([2], [One(), Two()]), Both())
    ensures IsWritten(BlockFile([1], [One()]), UpTo(Both(), [1]))
    ensures IsWritten(BlockFile([2], [Two()]), After(Both(), [1]))
  {
    Halves();
    SingleFile(One());
    SingleFile(Two());
    BothFile();
    hide IsWritten, UpTo, After;
  }

  lemma FirstSplit()
    ensures FreshId(Logged(), "b") && IsSplitKey(BlockKeys(Logged().blocks[[2]]), [1])
  {
    SplitAtOne();
    hide IsSplitKey;
    assert BlockKeys(Logged().blocks[[2]]) == {[1], [2]};
  }

  lemma FirstSplitCrash()
    ensures MidSplit(Logged(), [2], "b", [1], Halfway())
  {
    MergedBoth();
    SplitFiles();
    hide IsWritten, Merged, UpTo, After, Both;
  }

  lemma Reopened()
    ensures IsReopened(Halfway(), 1, Recovered())
  {
    SmallKeys();
    SmallStreams();
    hide Less;
    var d := Halfway();
    assert AbsorbAll(map[], []) == map[];
    assert LoadedBlock(d, "a") == Recovered().blocks[[2]] && LoadedBlock(d, "b") == Recovered().blocks[[1]];
    assert forall id :: id in OnDisk(d) ==> id == "a" || id == "b";
  }

  lemma LateWrite()
    ensures AppendTo(Recovered(), WrittenLate(), Late(), [1])
  {
    SmallKeys();
    hide Less;
    assert [] + [Late()] == [Late()];
    assert IsRoute(Recovered(), [1], [1]);
  }

  lemma SecondSplit()
    ensures [2] in WrittenLate().blocks && FreshId(WrittenLate(), "c")
    ensures SplitStep(WrittenLate(), SplitAgain(), [2], "c", [1])
  {
    SplitAtOne();
    MergedBoth();
    SplitFiles();
    SmallKeys();
    SecondBlocks();
    SecondDisk();
    hide IsWritten, Merged, UpTo, After, IsSplitKey, Less, Both, SplitDisk;
    assert BlockKeys(WrittenLate().blocks[[2]]) == {[1], [2]};
  }

  lemma SecondBlocks()
    ensures SplitAgain().blocks
         == WrittenLate().blocks[[2] := WrittenLate().blocks[[2]].(index := After(Both(), [1]).Keys, logStreams := map[])]
                                [[1] := BlockState([1], "c", UpTo(Both(), [1]).Keys, map[], [])]
  {
    Halves();
    hide UpTo, After;
    assert After(Both(), [1]).Keys == {[2]} && UpTo(Both(), [1]).Keys == {[1]};
  }

  lemma SecondDisk()
    ensures SplitAgain().disk == SplitDisk(WrittenLate().disk, "a", BlockFile([2], [Two()]), "c", BlockFile([1], [One()]))
  {
  }

  lemma LoggedAtOne()
    ensures RecoveredAt(Logged().disk, [1]) == multiset{VALUE}
  {
    var d := Logged().disk;
    assert OnDisk(d) == {"a"};
    SumRemove(OnDisk(d), DiskValues(d, [1]), "a");
    assert OnDisk(d) - {"a"} == {};
    BothAt([1]);
    assert DiskAt(d, "a", [1]) == multiset{VALUE};
  }

  lemma LoggedBlocks()
    ensures [2] in Logged().blocks && [1] !in Logged().blocks && Logged().blocks[[2]].newStreams == []
  {
  }

  lemma LeftBehind()
    ensures CrashLeaves(Logged(), InSplit([2], "b", [1]), Halfway())
  {
    hide *;
    LoggedBlocks();
    FirstSplit();
    FirstSplitCrash();
    HalfwayLeft(Logged(), [2], "b", [1], Halfway());
  }

  lemma HalfwayLeft(s: State, e: Key, uuid: Id, m: Key, d: Disk)
    requires e in s.blocks && s.blocks[e].newStreams == [] && FreshId(s, uuid) && m !in s.blocks
    requires IsSplitKey(BlockKeys(s.blocks[e]), m) && MidSplit(s, e, uuid, m, d)
    ensures CrashLeaves(s, InSplit(e, uuid, m), d)
  {
    NothingUnflushed(s.blocks[e], m);
    hide FreshId, IsSplitKey, BlockKeys, MidSplit, UnflushedAbove, CompactCrash, SplitDone;
  }

  /** The loss in one run: the block of keys 1 and 2 is split and the process dies halfway; it comes back, a value for variable 1
      is written and served, the block is split again, and the value is gone. */
  lemma WriteLost()
    ensures Inv(Logged()) && CrashLeaves(Logged(), InSplit([2], "b", [1]), Halfway()) && IsReopened(Halfway(), 1, Recovered())
    ensures WriteStep(Recovered(), WrittenLate(), Late(), "c")
    ensures [2] in WrittenLate().blocks && SplitStep(WrittenLate(), SplitAgain(), [2], "c", [1])
    ensures LATE in StoreAt(WrittenLate(), [1]) && LATE !in StoreAt(SplitAgain(), [1])
  {
    LeftBehind();
    LoggedInv();
    Reopened();
    LateWrite();
    SecondSplit();
    LateValues();
    hide *;
    WroteLate();
  }

  lemma WroteLate()
    requires AppendTo(Recovered(), WrittenLate(), Late(), [1])
    ensures WriteStep(Recovered(), WrittenLate(), Late(), "c")
  {
    hide AppendTo;
  }

  lemma LateFacts()
    ensures StreamsAt([Late()], [1]) == multiset{LATE} && LATE != VALUE && Late().values != []
    ensures Halfway().temps == map[] && [2] in WrittenLate().blocks
  {
    assert [Late()][..0] == [];
  }

  lemma LateValues()
    ensures StoreAt(SplitAgain(), [1]) == multiset{VALUE}
    ensures LATE in StoreAt(WrittenLate(), [1]) && LATE !in StoreAt(SplitAgain(), [1])
  {
    hide *;
    LoggedBlocks();
    FirstSplit();
    FirstSplitCrash();
    LoggedInv();
    Reopened();
    LateWrite();
    SecondSplit();
    LoggedAtOne();
    LateFacts();
    CrashThenSplitLosesWrites(Logged(), [2], "b", [1], Halfway(), 1, Recovered(), Late(), WrittenLate(), "c", [1], SplitAgain(), [1]);
  }
}
