/** Whole runs of the block datastore: invariants, conservation, durability across crashes, and the one way values are lost. */
module DatastoreRuns {
  import opened ByteStrings
  import opened DatastoreModel
  import opened DatastoreSteps
  import opened DatastoreProofs
  import opened DatastoreSplit
  import opened DatastoreCrash
  import opened DatastoreSafe

  // ---------- what a crash inside a flush leaves ----------

  lemma {:induction false} SumMonotone<T(!new), V(!new)>(S: set<T>, f: T -> multiset<V>, g: T -> multiset<V>)
    requires forall x :: x in S ==> f(x) <= g(x)
    ensures Sum(S, f) <= Sum(S, g)
  {
    if S != {} {
      var x :| x in S;
      SumRemove(S, f, x);
      SumRemove(S, g, x);
      SumMonotone(S - {x}, f, g);
    }
  }

  lemma {:induction false} SumSubset<T(!new), V(!new)>(S: set<T>, R: set<T>, f: T -> multiset<V>)
    requires S <= R
    ensures Sum(S, f) <= Sum(R, f)
  {
    if S != {} {
      var x :| x in S;
      SumRemove(S, f, x);
      SumRemove(R, f, x);
      SumSubset(S - {x}, R - {x}, f);
    }
  }

  /** If no file holds more than its block serves, the directory holds no more than the store serves. */
  lemma BlocksCoverDisk(s: State, d: Disk, k: Key)
    requires IdsDistinct(s) && forall i :: i in OnDisk(d) ==> Owned(s, i)
    requires forall e :: e in s.blocks ==> DiskAt(d, s.blocks[e].id, k) <= BlockAt(s.blocks[e], s.disk, k)
    ensures RecoveredAt(d, k) <= StoreAt(s, k)
  {
    hide Sum, BlockAt, DiskAt, OnDisk;
    var ids := set e | e in s.blocks :: s.blocks[e].id;
    var h: Key -> Id := e => if e in s.blocks then s.blocks[e].id else "";
    var f: Key -> multiset<Sample> := e => DiskAt(d, h(e), k);
    forall i | i in OnDisk(d) ensures i in ids {
      assert Owned(s, i);
    }
    SumSubset(OnDisk(d), ids, DiskValues(d, k));
    forall i | i in ids ensures exists e :: e in s.blocks.Keys && h(e) == i {
      var e :| e in s.blocks && s.blocks[e].id == i;
      assert h(e) == i;
    }
    SumRename(s.blocks.Keys, ids, f, DiskValues(d, k), h);
    SumMonotone(s.blocks.Keys, f, BlockValues(s, k));
  }

  /** A store serves at least what its directory holds. */
  lemma SoundServesDisk(s: State, k: Key)
    requires Sound(s)
    ensures RecoveredAt(s.disk, k) <= StoreAt(s, k)
  {
    hide Less, BlockSound, FilesSound, BlockAt, DiskAt, RecoveredAt, StoreAt;
    forall e | e in s.blocks ensures DiskAt(s.disk, s.blocks[e].id, k) <= BlockAt(s.blocks[e], s.disk, k) {
      BlockMirrorsDisk(s.blocks[e], s.disk, k);
    }
    BlocksCoverDisk(s, s.disk, k);
  }

  lemma LogGrewAt(b: BlockState, d: Disk, d': Disk, k: Key)
    requires BlockSound(b, d) && d'.files == d.files && LogGrew(b, d, d')
    ensures DiskAt(d, b.id, k) <= DiskAt(d', b.id, k) <= BlockAt(b, d, k)
  {
    hide BlockSound, StreamsAt, BlockAt, LogOf, FileOf;
    BlockMirrorsDisk(b, d, k);
    var n :| 0 <= n <= |b.newStreams| && LogOf(d', b.id) == LogOf(d, b.id) + b.newStreams[..n];
    var part, rest := b.newStreams[..n], b.newStreams[n..];
    assert FileOf(d', b.id) == FileOf(d, b.id) by { SameFile(d, d', b.id); }
    StreamsAtConcat(LogOf(d, b.id), part, k);
    StreamsAtConcat(part, rest, k);
    assert part + rest == b.newStreams;
    Between(StreamsAt(FileOf(d, b.id), k), StreamsAt(LogOf(d, b.id), k), StreamsAt(part, k), StreamsAt(rest, k));
  }

  lemma SameFile(d: Disk, d': Disk, id: Id)
    requires d'.files == d.files
    ensures FileOf(d', id) == FileOf(d, id)
  {
  }

  lemma Between<V>(file: multiset<V>, log: multiset<V>, part: multiset<V>, rest: multiset<V>)
    ensures file + log <= file + (log + part) <= (file + log) + (part + rest)
  {
  }

  /** A crash inside a flush loses no flushed value and invents none: what is on disk afterwards was being served. */
  lemma FlushCrashSurvives(s: State, d: Disk, k: Key)
    requires Sound(s) && FlushCrash(s, d)
    ensures RecoveredAt(s.disk, k) <= RecoveredAt(d, k) <= StoreAt(s, k)
  {
    hide Less, BlockSound, FilesSound, BlockAt, DiskAt, Sum, LogGrew, StoreAt;
    forall e | e in s.blocks
      ensures DiskAt(s.disk, s.blocks[e].id, k) <= DiskAt(d, s.blocks[e].id, k) <= BlockAt(s.blocks[e], s.disk, k)
    {
      LogGrewAt(s.blocks[e], s.disk, d, k);
    }
    forall i | i in OnDisk(d) ensures Owned(s, i) {
    }
    BlocksCoverDisk(s, d, k);
    forall i | i in OnDisk(s.disk) ensures DiskValues(s.disk, k)(i) <= DiskValues(d, k)(i) {
      assert Owned(s, i);
    }
    SumMonotone(OnDisk(s.disk), DiskValues(s.disk, k), DiskValues(d, k));
    SumSubset(OnDisk(s.disk), OnDisk(d), DiskValues(d, k));
  }

  // ---------- runs ----------

  datatype Op =
    | Write(stream: Stream, uuid: Id)
    | Flush
    | Compact(endKey: Key)
    | Split(endKey: Key, uuid: Id, at: Key)
    | Restart(pid: nat)

  /** One operation, under the conditions the datastore relies on: new ids are new, compaction runs on a block
      with logged streams, a split leaves nothing unflushed below it, a clean restart follows a flush. */
  ghost predicate Step(s: State, op: Op, s': State) {
    match op
    case Write(st, uuid) => st.values != [] && FreshId(s, uuid) && WriteStep(s, s', st, uuid)
    case Flush => FlushStep(s, s')
    case Compact(e) => e in s.blocks && s.blocks[e].logStreams != map[] && CompactStep(s, s', e)
    case Split(e, uuid, m) => e in s.blocks && FreshId(s, uuid) && UnflushedAbove(s.blocks[e], m) && SplitStep(s, s', e, uuid, m)
    case Restart(pid) => Flushed(s) && (forall t :: t in s.disk.temps ==> t.pid != pid) && IsReopened(s.disk, pid, s')
  }

  ghost predicate Run(states: seq<State>, ops: seq<Op>) {
    |states| == |ops| + 1 && forall i :: 0 <= i < |ops| ==> Step(states[i], ops[i], states[i + 1])
  }

  /** What the writes of a run put in for variable k. */
  ghost function Written(ops: seq<Op>, k: Key): multiset<Sample> {
    if ops == [] then multiset{} else
      var last := ops[|ops| - 1];
      Written(ops[..|ops| - 1], k) + if last.Write? then StreamsAt([last.stream], k) else multiset{}
  }

  lemma StepKeepsInv(s: State, op: Op, s': State)
    requires Inv(s) && Step(s, op, s')
    ensures Inv(s')
  {
    hide Less, Sound, WriteStep, FlushStep, CompactStep, SplitStep, FreshId, UnflushedAbove, Flushed, Routed;
    match op
    case Write(st, uuid) =>
      WriteKeepsSound(s, s', st, uuid);
      WriteKeepsRouted(s, s', st, uuid);
    case Flush =>
      FlushKeepsSound(s, s');
      FlushKeepsRouted(s, s');
    case Compact(e) =>
      LoggedMeansOnDisk(s, e);
      CompactKeepsSound(s, s', e);
      CompactKeepsRouted(s, s', e);
    case Split(e, uuid, m) =>
      SplitKeepsInvIff(s, s', e, uuid, m);
    case Restart(pid) =>
      RestartEquivalence(s, pid, s');
      SoundMeansDiskSound(s);
      ReopenedIsSound(s.disk, pid, s');
      RestartKeepsRouted(s, s');
  }

  lemma RestartKeepsRouted(s: State, s': State)
    requires Routed(s) && s'.blocks == s.blocks
    ensures Routed(s')
  {
  }

  lemma StepConserves(s: State, op: Op, s': State, k: Key)
    requires Inv(s) && Step(s, op, s')
    ensures StoreAt(s', k) == StoreAt(s, k) + Written([op], k)
  {
    WrittenOne(op, k);
    hide Less, Sound, WriteStep, FlushStep, CompactStep, SplitStep, FreshId, UnflushedAbove, Flushed, Routed, StoreAt, Written;
    match op
    case Write(st, uuid) =>
      WriteConserves(s, s', st, uuid, k);
    case Flush =>
      FlushConserves(s, s', k);
    case Compact(e) =>
      SoundIds(s);
      CompactConserves(s, s', e, k);
    case Split(e, uuid, m) =>
      SplitIntoFreeKey(s, s', e, uuid, m);
      SplitConserves(s, s', e, uuid, m, k);
    case Restart(pid) =>
      RestartEquivalence(s, pid, s');
      SameBlocksSameStore(s, s', k);
  }

  lemma WrittenOne(op: Op, k: Key)
    ensures Written([op], k) == if op.Write? then StreamsAt([op.stream], k) else multiset{}
  {
    assert [op][..0] == [];
  }

  lemma SoundIds(s: State)
    requires Sound(s)
    ensures IdsDistinct(s)
  {
  }

  lemma SplitIntoFreeKey(s: State, s': State, e: Key, uuid: Id, m: Key)
    requires Inv(s) && e in s.blocks && SplitStep(s, s', e, uuid, m)
    ensures m !in s.blocks
  {
    hide Inv, BlockKeys, Merged, IsWritten;
    SplitKeyIsFree(s, e, m);
  }

  lemma SameBlocksSameStore(s: State, s': State, k: Key)
    requires s'.blocks == s.blocks && s'.disk == s.disk
    ensures StoreAt(s', k) == StoreAt(s, k)
  {
    SumSame(s.blocks.Keys, BlockValues(s, k), BlockValues(s', k));
  }

  /** Routing, in every state of every run: blockKeys sorted and exact, every key inside its block's range. */
  lemma {:induction false} RunKeepsInv(states: seq<State>, ops: seq<Op>, i: nat)
    requires Run(states, ops) && Inv(states[0]) && i < |states|
    ensures Inv(states[i])
  {
    hide Inv, Step;
    if i > 0 {
      RunKeepsInv(states, ops, i - 1);
      assert Step(states[i - 1], ops[i - 1], states[i]);
      StepKeepsInv(states[i - 1], ops[i - 1], states[i]);
    }
  }

  /** Conservation over whole runs: at the end the store serves what it served at the start and what was written. */
  lemma {:induction false} RunConserves(states: seq<State>, ops: seq<Op>, k: Key)
    requires Run(states, ops) && Inv(states[0])
    ensures StoreAt(states[|ops|], k) == StoreAt(states[0], k) + Written(ops, k)
  {
    hide Inv, Step, StoreAt;
    if ops != [] {
      var n := |ops| - 1;
      assert Step(states[n], ops[n], states[n + 1]);
      assert Run(states[..n + 1], ops[..n]);
      RunConserves(states[..n + 1], ops[..n], k);
      RunKeepsInv(states, ops, n);
      StepConserves(states[n], ops[n], states[n + 1], k);
      WrittenOne(ops[n], k);
    }
  }

  /** An empty directory opens into a state that satisfies the invariant. */
  lemma EmptyStoreInv(pid: nat)
    ensures Inv(State(map[], [], Disk(map[], map[], map[]), pid))
  {
  }

  // ---------- runs with crashes ----------

  /** Where the process may stop for good. */
  datatype CrashPoint = InCompaction(endKey: Key) | InSplit(endKey: Key, uuid: Id, at: Key) | InFlush

  datatype Event = Does(op: Op) | Crashes(point: CrashPoint, disk: Disk, pid: nat)

  /** The directory a crash at that point may leave. A flush is taken to leave at most one block ending at the empty string,
      which a log that was created and not yet written to does: `FlushCrashDiskSoundIff`. */
  ghost predicate CrashLeaves(s: State, point: CrashPoint, d: Disk) {
    match point
    case InCompaction(e) => e in s.blocks && s.blocks[e].logStreams != map[] && CompactCrash(s, e, d)
    case InSplit(e, uuid, m) =>
      && e in s.blocks && FreshId(s, uuid) && UnflushedAbove(s.blocks[e], m) && m !in s.blocks
      && IsSplitKey(BlockKeys(s.blocks[e]), m) && SplitCrash(s, e, uuid, m, d)
    case InFlush => FlushCrash(s, d) && OneEmptyEnd(d)
  }

  /** Operations and crashes, with every split going to an end key that is free. */
  ghost predicate Happens(s: State, event: Event, s': State) {
    match event
    case Does(op) => Step(s, op, s') && (op.Split? ==> op.at !in s.blocks)
    case Crashes(point, d, pid) =>
      CrashLeaves(s, point, d) && (forall t :: t in d.temps ==> t.pid != pid) && IsReopened(d, pid, s')
  }

  ghost predicate History(states: seq<State>, events: seq<Event>) {
    |states| == |events| + 1 && forall i :: 0 <= i < |events| ==> Happens(states[i], events[i], states[i + 1])
  }

  /** The directory keeps every value it holds. */
  ghost predicate DiskGrows(d: Disk, d': Disk) {
    forall k :: RecoveredAt(d, k) <= RecoveredAt(d', k)
  }

  lemma CrashIsSound(s: State, point: CrashPoint, d: Disk)
    requires Safe(s) && CrashLeaves(s, point, d)
    ensures DiskSound(d) && DiskGrows(s.disk, d)
  {
    hide Sound, NewRouted, CompactCrash, SplitCrash, FlushCrash, DiskSound, OneEmptyEnd, FreshId, UnflushedAbove, IsSplitKey, BlockKeys, RecoveredAt, OnDisk;
    match point
    case InCompaction(e) =>
      LoggedMeansOnDisk(s, e);
      CompactCrashDiskSound(s, e, d);
      CompactCrashSurvives(s, e, d);
    case InSplit(e, uuid, m) =>
      SplitKeysOnDisk(s, e, m);
      SplitCrashDiskSound(s, e, uuid, m, d);
      SplitCrashSurvives(s, e, uuid, m, d);
    case InFlush =>
      FlushCrashDiskSoundIff(s, d);
      forall k ensures RecoveredAt(s.disk, k) <= RecoveredAt(d, k) {
        FlushCrashSurvives(s, d, k);
      }
  }

  lemma EventKeepsSafe(s: State, event: Event, s': State)
    requires Safe(s) && Happens(s, event, s')
    ensures Safe(s')
  {
    hide Less, Sound, NewRouted, WriteStep, FlushStep, CompactStep, SplitStep, FreshId, UnflushedAbove, Flushed, DiskSound, CrashLeaves,
      IsReopened;
    match event
    case Crashes(point, d, pid) =>
      CrashIsSound(s, point, d);
      ReopenedIsSound(d, pid, s');
      ReopenedIsNewRouted(d, pid, s');
    case Does(op) =>
      match op
      case Write(st, uuid) =>
        WriteKeepsSound(s, s', st, uuid);
        WriteKeepsNewRouted(s, s', st, uuid);
      case Flush =>
        FlushKeepsSound(s, s');
        FlushedIsNewRouted(s');
      case Compact(e) =>
        LoggedMeansOnDisk(s, e);
        CompactKeepsSound(s, s', e);
        CompactKeepsNewRouted(s, s', e);
      case Split(e, uuid, m) =>
        SplitKeepsSound(s, s', e, uuid, m);
        SplitKeepsNewRouted(s, s', e, uuid, m);
      case Restart(pid) =>
        SoundMeansDiskSound(s);
        ReopenedIsSound(s.disk, pid, s');
        ReopenedIsNewRouted(s.disk, pid, s');
  }

  lemma WriteLeavesDisk(s: State, s': State, st: Stream, uuid: Id)
    requires WriteStep(s, s', st, uuid)
    ensures s'.disk == s.disk
  {
  }

  /** A finished flush, compaction or split leaves a directory that a crash at its very end would. */
  lemma FlushEndsAsCrash(s: State, s': State)
    requires Sound(s) && FlushStep(s, s')
    ensures FlushCrash(s, s'.disk)
  {
    hide BlocksSound, FilesOwned, AbsorbAll;
    forall e | e in s.blocks ensures LogGrew(s.blocks[e], s.disk, s'.disk) {
      assert s.blocks[e].newStreams[..|s.blocks[e].newStreams|] == s.blocks[e].newStreams;
    }
  }

  lemma CompactEndsAsCrash(s: State, s': State, e: Key)
    requires e in s.blocks && CompactStep(s, s', e)
    ensures CompactCrash(s, e, s'.disk)
  {
    hide IsWritten, Merged;
  }

  lemma SplitEndsAsCrash(s: State, s': State, e: Key, uuid: Id, m: Key)
    requires Sound(s) && FreshId(s, uuid) && e in s.blocks && SplitStep(s, s', e, uuid, m)
    ensures SplitCrash(s, e, uuid, m, s'.disk)
  {
    hide IsWritten, Merged, UpTo, After, BlocksSound, FilesOwned, IsSplitKey, Tables, CompactCrash, MidSplit;
    assert s.blocks[e].id != uuid by { assert Owned(s, s.blocks[e].id); }
    assert SplitDone(s, e, uuid, m, s'.disk);
  }

  lemma EventGrowsDisk(s: State, event: Event, s': State)
    requires Safe(s) && Happens(s, event, s')
    ensures DiskGrows(s.disk, s'.disk)
  {
    hide Less, Sound, NewRouted, WriteStep, FlushStep, CompactStep, SplitStep, FreshId, UnflushedAbove, Flushed, DiskSound, CrashLeaves, IsReopened,
      SplitCrash, CompactCrash, FlushCrash, RecoveredAt, OnDisk;
    match event
    case Crashes(point, d, pid) =>
      CrashIsSound(s, point, d);
      ReopenedDisk(d, pid, s');
    case Does(op) =>
      match op
      case Write(st, uuid) => WriteLeavesDisk(s, s', st, uuid);
      case Flush =>
        FlushEndsAsCrash(s, s');
        forall k ensures RecoveredAt(s.disk, k) <= RecoveredAt(s'.disk, k) {
          FlushCrashSurvives(s, s'.disk, k);
        }
      case Compact(e) =>
        LoggedMeansOnDisk(s, e);
        CompactEndsAsCrash(s, s', e);
        CompactCrashSurvives(s, e, s'.disk);
      case Split(e, uuid, m) =>
        SplitReachedDisk(s, s', e, uuid, m);
        SplitEndsAsCrash(s, s', e, uuid, m);
        SplitCrashSurvives(s, e, uuid, m, s'.disk);
      case Restart(pid) => ReopenedDisk(s.disk, pid, s');
  }

  lemma SplitReachedDisk(s: State, s': State, e: Key, uuid: Id, m: Key)
    requires Sound(s) && e in s.blocks && UnflushedAbove(s.blocks[e], m) && SplitStep(s, s', e, uuid, m)
    ensures s.blocks[e].id in OnDisk(s.disk)
  {
    hide Sound, UnflushedAbove, IsWritten, Merged;
    SplitKeysOnDisk(s, e, m);
  }

  /** Soundness survives any number of crashes and restarts. */
  lemma {:induction false} HistoryKeepsSafe(states: seq<State>, events: seq<Event>, i: nat)
    requires History(states, events) && Safe(states[0]) && i < |states|
    ensures Safe(states[i])
  {
    hide Safe, Happens;
    if i > 0 {
      HistoryKeepsSafe(states, events, i - 1);
      assert Happens(states[i - 1], events[i - 1], states[i]);
      EventKeepsSafe(states[i - 1], events[i - 1], states[i]);
    }
  }

  /** Durability: what is on disk at one moment is served at every later one, however often the process crashes in between. */
  lemma {:induction false} FlushedIsServedForever(states: seq<State>, events: seq<Event>, i: nat, j: nat, k: Key)
    requires History(states, events) && Safe(states[0]) && i <= j < |states|
    ensures RecoveredAt(states[i].disk, k) <= RecoveredAt(states[j].disk, k) <= StoreAt(states[j], k)
  {
    hide Sound, NewRouted, Happens, RecoveredAt, StoreAt;
    HistoryKeepsSafe(states, events, j);
    SoundServesDisk(states[j], k);
    if i < j {
      FlushedIsServedForever(states, events, i, j - 1, k);
      HistoryKeepsSafe(states, events, j - 1);
      assert Happens(states[j - 1], events[j - 1], states[j]);
      EventGrowsDisk(states[j - 1], events[j - 1], states[j]);
    }
  }

  // ---------- the way values are lost ----------

  lemma SplitKeyUnique(keys: set<Key>, m: Key, m': Key)
    requires IsSplitKey(keys, m) && IsSplitKey(keys, m')
    ensures m == m'
  {
    var a: seq<Key> :| Increasing(a) && Elements(a) == keys && |a| >= 2 && m == a[|a| / 2 - 1];
    var b: seq<Key> :| Increasing(b) && Elements(b) == keys && |b| >= 2 && m' == b[|b| / 2 - 1];
    IncreasingUnique(a, b);
  }

  lemma CompactedFileEnd(s: State, e: Key, uuid: Id, m: Key, d: Disk)
    requires Sound(s) && FreshId(s, uuid) && e in s.blocks && s.blocks[e].newStreams == [] && UnflushedAbove(s.blocks[e], m)
    requires IsSplitKey(BlockKeys(s.blocks[e]), m) && MidSplit(s, e, uuid, m, d)
    ensures s.blocks[e].id in d.files && uuid in d.files && uuid !in d.logs && s.blocks[e].id !in d.logs
    ensures EndOf(d, s.blocks[e].id) == e && EndOf(d, uuid) == m
    ensures Variables(d.files[s.blocks[e].id].streams) == BlockKeys(s.blocks[e])
  {
    hide Less, FilesSound, IsSplitKey, AbsorbAll, MaxVariable, StreamsAt, CompactCrash, UnflushedAbove, Merged, UpTo;
    var b := s.blocks[e];
    MidSplitIsCompactedPlusLeft(s, e, uuid, m, d);
    SplitKeysOnDisk(s, e, m);
    LeftFileSound(s, e, m, d, uuid);
    assert b.id !in d.logs;
    assert BlockSound(b, s.disk);
    CompactedFileSound(b, s.disk, d);
    BlockMirrorsKeys(b, s.disk);
  }

  /** After a crash in the middle of a split, block e still holds the same keys, and m is a block of its own. */
  lemma ReopenedMidSplit(s: State, e: Key, uuid: Id, m: Key, d: Disk, pid: nat, s1: State)
    requires Sound(s) && FreshId(s, uuid) && e in s.blocks && s.blocks[e].newStreams == [] && UnflushedAbove(s.blocks[e], m)
    requires IsSplitKey(BlockKeys(s.blocks[e]), m) && MidSplit(s, e, uuid, m, d) && IsReopened(d, pid, s1)
    ensures e in s1.blocks && BlockKeys(s1.blocks[e]) == BlockKeys(s.blocks[e])
    ensures m in s1.blocks && s1.blocks[m] == LoadedBlock(d, uuid)
  {
    hide Sound, FreshId, IsSplitKey, MidSplit, UnflushedAbove, EndOf, MaxVariable, AbsorbAll, Less;
    CompactedFileEnd(s, e, uuid, m, d);
    assert s1.blocks[e] == LoadedBlock(d, s.blocks[e].id);
    assert LogOf(d, s.blocks[e].id) == [];
    assert AbsorbAll(map[], []) == map[] by { AbsorbNothing(); }
    assert Variables([]) == {};
  }

  lemma AbsorbNothing()
    ensures AbsorbAll(map[], []) == map[]
  {
  }

  lemma LoadedBlockAt(d: Disk, id: Id, k: Key)
    ensures BlockAt(LoadedBlock(d, id), d, k) == DiskAt(d, id, k)
  {
    AbsorbAllAt(map[], LogOf(d, id), k);
    EmptyMapAt(k);
  }

  lemma AppendedBlockAt(b: BlockState, d: Disk, st: Stream, k: Key)
    ensures BlockAt(b.(newStreams := b.newStreams + [st]), d, k) == BlockAt(b, d, k) + StreamsAt([st], k)
  {
    AppendStream(b.newStreams, st, k);
  }

  lemma CancelBlock<V>(before: multiset<V>, half: multiset<V>, written: multiset<V>, after: multiset<V>)
    requires before + half + written == after + (half + written)
    ensures after == before
  {
    forall v ensures after[v] == before[v] {
      assert (before + half + written)[v] == (after + (half + written))[v];
    }
  }

  /** Crash mid-split, restart, write to the left block, split again: the second split takes the same end key, overwrites
      the left block in memory, and every such write is gone. The store serves what was on disk before the first split. */
  lemma CrashThenSplitLosesWrites(s: State, e: Key, uuid: Id, m: Key, d: Disk, pid: nat, s1: State, st: Stream, s2: State,
                                  uuid2: Id, m2: Key, s3: State, k: Key)
    requires Sound(s) && FreshId(s, uuid) && e in s.blocks && s.blocks[e].newStreams == [] && m !in s.blocks
    requires IsSplitKey(BlockKeys(s.blocks[e]), m) && MidSplit(s, e, uuid, m, d)
    requires (forall t :: t in d.temps ==> t.pid != pid) && IsReopened(d, pid, s1)
    requires st.values != [] && AppendTo(s1, s2, st, m)
    requires e in s2.blocks && FreshId(s2, uuid2) && SplitStep(s2, s3, e, uuid2, m2)
    ensures m2 == m && m in s2.blocks
    ensures StoreAt(s2, k) == StoreAt(s1, k) + StreamsAt([st], k)
    ensures StoreAt(s3, k) == RecoveredAt(s.disk, k)
  {
    hide Sound, FreshId, IsSplitKey, MidSplit, DiskSound, IsReopened, StoreAt, RecoveredAt, BlockAt, DiskAt,
      BlockKeys, StreamsAt, Less, IsRoute, AppendTo, SplitStep;
    RestartedMidSplit(s, e, uuid, m, d, pid, s1, k);
    AppendChanges(s1, s2, st, m);
    AppendConserves(s1, s2, st, m, k);
    AppendKeepsSound(s1, s2, st, m);
    SplitStepKey(s2, s3, e, uuid2, m2);
    SplitKeyUnique(BlockKeys(s.blocks[e]), m, m2);
    SplitConserves(s2, s3, e, uuid2, m, k);
    AppendedBlockAt(s1.blocks[m], d, st, k);
    CancelBlock(RecoveredAt(s.disk, k), DiskAt(d, uuid, k), StreamsAt([st], k), StoreAt(s3, k));
  }

  /** The store after a crash in the middle of a split and a restart: block m serves its values a second time. */
  lemma RestartedMidSplit(s: State, e: Key, uuid: Id, m: Key, d: Disk, pid: nat, s1: State, k: Key)
    requires Sound(s) && FreshId(s, uuid) && e in s.blocks && s.blocks[e].newStreams == [] && m !in s.blocks
    requires IsSplitKey(BlockKeys(s.blocks[e]), m) && MidSplit(s, e, uuid, m, d)
    requires (forall t :: t in d.temps ==> t.pid != pid) && IsReopened(d, pid, s1)
    ensures Sound(s1) && s1.disk == d && e in s1.blocks && BlockKeys(s1.blocks[e]) == BlockKeys(s.blocks[e])
    ensures m != e && m in s1.blocks && BlockAt(s1.blocks[m], d, k) == DiskAt(d, uuid, k)
    ensures StoreAt(s1, k) == RecoveredAt(s.disk, k) + DiskAt(d, uuid, k)
  {
    hide Sound, FreshId, IsSplitKey, MidSplit, UnflushedAbove, DiskSound, IsReopened, StoreAt, RecoveredAt, BlockAt, DiskAt,
      BlockKeys, StreamsAt, LoadedBlock, EndOf, Less, OnDisk;
    NothingUnflushed(s.blocks[e], m);
    MidSplitDiskSound(s, e, uuid, m, d);
    ReopenedIsSound(d, pid, s1);
    ReopenedServesDisk(d, pid, s1, k);
    ReopenedMidSplit(s, e, uuid, m, d, pid, s1);
    SplitKeysOnDisk(s, e, m);
    MidSplitRecovered(s, e, uuid, m, d, k);
    LoadedBlockAt(d, uuid, k);
    ReopenedDisk(d, pid, s1);
    LessIrreflexive(e);
  }

  lemma NothingUnflushed(b: BlockState, m: Key)
    requires b.newStreams == []
    ensures UnflushedAbove(b, m)
  {
  }

  lemma AppendChanges(s: State, s': State, st: Stream, e: Key)
    requires AppendTo(s, s', st, e)
    ensures e in s.blocks && s'.disk == s.disk && s'.blocks.Keys == s.blocks.Keys
    ensures s'.blocks[e] == s.blocks[e].(newStreams := s.blocks[e].newStreams + [st])
    ensures forall f :: f in s.blocks && f != e ==> s'.blocks[f] == s.blocks[f]
  {
  }
}
