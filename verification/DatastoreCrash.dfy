/** Restarting from the directory, and what is left of the data when the process stops inside an operation. */
module DatastoreCrash {
  import opened ByteStrings
  import opened DatastoreModel
  import opened DatastoreSteps
  import opened DatastoreProofs
  import opened DatastoreSplit

  // ---------- restart ----------

  lemma SoundMeansDiskSound(s: State)
    requires Sound(s)
    ensures DiskSound(s.disk)
  {
    hide Less, FilesSound, AbsorbAll, MaxVariable;
    forall i, j | i in OnDisk(s.disk) && j in OnDisk(s.disk) && EndOf(s.disk, i) == EndOf(s.disk, j) ensures i == j {
      assert Owned(s, i) && Owned(s, j);
      var e :| e in s.blocks && s.blocks[e].id == i;
      var f :| f in s.blocks && s.blocks[f].id == j;
      assert BlockSound(s.blocks[e], s.disk) && BlockSound(s.blocks[f], s.disk);
    }
  }

  lemma LoadedBlockSound(d: Disk, id: Id)
    requires id in OnDisk(d)
    ensures BlockSound(LoadedBlock(d, id), d)
  {
  }

  /** Whatever sound directory is opened, the store starts in a sound state with nothing unflushed. */
  lemma ReopenedIsSound(d: Disk, pid: nat, s: State)
    requires DiskSound(d) && IsReopened(d, pid, s) && forall t :: t in d.temps ==> t.pid != pid
    ensures Sound(s) && Flushed(s)
  {
    hide Less, FilesSound, BlockSound, EndOf, LoadedBlock;
    forall e | e in s.blocks ensures s.blocks[e] == LoadedBlock(d, s.blocks[e].id) && s.blocks[e].id in OnDisk(d) {
    }
    forall id | id in OnDisk(d) ensures Owned(s, id) {
      ReopenedOwner(d, pid, s, id);
    }
    forall e | e in s.blocks ensures s.blocks[e].endKey == e && s.blocks[e].newStreams == [] && BlockSound(s.blocks[e], d) {
      LoadedBlockSound(d, s.blocks[e].id);
      LoadedBlockEnd(d, s.blocks[e].id);
    }
    assert BlocksSound(s) && FilesOwned(s);
  }

  lemma LoadedBlockEnd(d: Disk, id: Id)
    ensures LoadedBlock(d, id).endKey == EndOf(d, id) && LoadedBlock(d, id).id == id && LoadedBlock(d, id).newStreams == []
  {
  }

  lemma ReopenedOwner(d: Disk, pid: nat, s: State, id: Id)
    requires IsReopened(d, pid, s) && id in OnDisk(d)
    ensures Owned(s, id)
  {
    assert s.blocks[EndOf(d, id)].id == id;
  }

  /** Restarting a flushed store gives back the very same blocks: end keys, indexes, log streams and all. */
  lemma RestartEquivalence(s: State, pid: nat, s': State)
    requires Sound(s) && Flushed(s) && IsReopened(s.disk, pid, s')
    ensures s'.blocks == s.blocks && s'.blockKeys == s.blockKeys && s'.disk == s.disk
  {
    hide Less, FilesSound, AbsorbAll, MaxVariable;
    forall e | e in s.blocks ensures e in s'.blocks && s'.blocks[e] == s.blocks[e] {
      assert BlockSound(s.blocks[e], s.disk);
      assert s.blocks[e].id in OnDisk(s.disk);
    }
    forall e | e in s'.blocks ensures e in s.blocks {
      assert Owned(s, s'.blocks[e].id);
      var f :| f in s.blocks && s.blocks[f].id == s'.blocks[e].id;
      assert BlockSound(s.blocks[f], s.disk);
    }
    assert s'.blocks.Keys == s.blocks.Keys;
    IncreasingUnique(s.blockKeys, s'.blockKeys);
  }

  /** With nothing unflushed, the directory alone holds exactly what the store serves. */
  lemma FlushedIsRecovered(s: State, k: Key)
    requires Sound(s) && Flushed(s)
    ensures StoreAt(s, k) == RecoveredAt(s.disk, k)
  {
    hide Less, FilesSound, Sum, BlockSound, BlockAt;
    var h: Key -> Id := e => if e in s.blocks then s.blocks[e].id else "";
    forall e | e in s.blocks ensures h(e) in OnDisk(s.disk) && BlockValues(s, k)(e) == DiskValues(s.disk, k)(h(e)) {
      FlushedBlockOnDisk(s.blocks[e], s.disk);
      BlockMirrorsDisk(s.blocks[e], s.disk, k);
    }
    forall id | id in OnDisk(s.disk) ensures exists e :: e in s.blocks.Keys && h(e) == id {
      assert Owned(s, id);
      var e :| e in s.blocks && s.blocks[e].id == id;
      assert h(e) == id;
    }
    SumRename(s.blocks.Keys, OnDisk(s.disk), BlockValues(s, k), DiskValues(s.disk, k), h);
  }

  lemma FlushedBlockOnDisk(b: BlockState, d: Disk)
    requires BlockSound(b, d) && b.newStreams == []
    ensures b.id in OnDisk(d)
  {
  }

  /** A reopened store serves exactly what the directory held. */
  lemma ReopenedServesDisk(d: Disk, pid: nat, s: State, k: Key)
    requires DiskSound(d) && IsReopened(d, pid, s) && forall t :: t in d.temps ==> t.pid != pid
    ensures StoreAt(s, k) == RecoveredAt(d, k)
  {
    ReopenedIsSound(d, pid, s);
    hide *;
    assert s.disk == d by { ReopenedDisk(d, pid, s); }
    FlushedIsRecovered(s, k);
  }

  lemma ReopenedDisk(d: Disk, pid: nat, s: State)
    requires IsReopened(d, pid, s)
    ensures s.disk == d
  {
  }

  // ---------- crash points ----------

  /** Nothing flushed is lost, and nothing is there more than twice as often as before. */
  ghost predicate Survives(d: Disk, d': Disk) {
    forall k :: RecoveredAt(d, k) <= RecoveredAt(d', k) <= RecoveredAt(d, k) + RecoveredAt(d, k)
  }

  /** Only one block's files differ, and they hold what they held and possibly some of it again. */
  lemma OneBlockChanged(d: Disk, d': Disk, id: Id, more: multiset<Sample>, k: Key)
    requires id in OnDisk(d) && id in OnDisk(d') && forall i :: i != id ==> SameFiles(d, d', i)
    requires DiskAt(d', id, k) == DiskAt(d, id, k) + more
    ensures RecoveredAt(d', k) == RecoveredAt(d, k) + more
  {
    hide Sum, StreamsAt;
    forall i | i in OnDisk(d) && i != id ensures DiskValues(d, k)(i) == DiskValues(d', k)(i) {
      SameFilesSame(d, d', i);
    }
    forall i ensures i in OnDisk(d) <==> i in OnDisk(d') {
      if i != id {
        SameFilesSame(d, d', i);
      }
    }
    assert OnDisk(d) == OnDisk(d');
    SumGrow(OnDisk(d), DiskValues(d, k), DiskValues(d', k), id, more);
  }

  lemma PartOfSum<T(!new), V(!new)>(S: set<T>, f: T -> multiset<V>, x: T)
    requires x in S
    ensures f(x) <= Sum(S, f)
  {
    SumRemove(S, f, x);
  }

  lemma CompactCrashFrame(s: State, e: Key, d: Disk)
    requires e in s.blocks && CompactCrash(s, e, d)
    ensures forall i :: i != s.blocks[e].id ==> SameFiles(s.disk, d, i)
    ensures s.blocks[e].id in OnDisk(s.disk) ==> s.blocks[e].id in OnDisk(d)
  {
    hide IsWritten, Merged;
  }

  /** The compacted block's files hold the block's values, once or (log not yet removed) the logged ones twice. */
  lemma CompactCrashAt(s: State, e: Key, d: Disk, k: Key) returns (more: multiset<Sample>)
    requires Sound(s) && e in s.blocks && CompactCrash(s, e, d)
    ensures DiskAt(d, s.blocks[e].id, k) == DiskAt(s.disk, s.blocks[e].id, k) + more
    ensures more <= DiskAt(s.disk, s.blocks[e].id, k)
  {
    hide Less, FilesSound, AbsorbAll, MaxVariable, Merged;
    var b := s.blocks[e];
    assert BlockSound(b, s.disk);
    BlockMirrorsDisk(b, s.disk, k);
    hide StreamsAt, BlockSound;
    if d.files == s.disk.files && d.logs == s.disk.logs {
      more := multiset{};
    } else if d.logs == s.disk.logs {
      more := StreamsAt(LogOf(s.disk, b.id), k);
    } else {
      more := multiset{};
      assert LogOf(d, b.id) == [];
      assert StreamsAt([], k) == multiset{} by { StreamsAtAbsent([], k); }
    }
  }

  /** A crash anywhere inside a compaction loses no flushed value. */
  lemma CompactCrashSurvives(s: State, e: Key, d: Disk)
    requires Sound(s) && e in s.blocks && s.blocks[e].id in OnDisk(s.disk) && CompactCrash(s, e, d)
    ensures Survives(s.disk, d)
  {
    hide Sound, CompactCrash, DiskAt, Sum, OnDisk, SameFiles;
    CompactCrashFrame(s, e, d);
    forall k ensures RecoveredAt(s.disk, k) <= RecoveredAt(d, k) <= RecoveredAt(s.disk, k) + RecoveredAt(s.disk, k) {
      var more := CompactCrashAt(s, e, d, k);
      OneBlockChanged(s.disk, d, s.blocks[e].id, more, k);
      PartOfSum(OnDisk(s.disk), DiskValues(s.disk, k), s.blocks[e].id);
    }
  }

  lemma CompactCrashFileSound(s: State, e: Key, d: Disk)
    requires Sound(s) && e in s.blocks && s.blocks[e].id in OnDisk(s.disk) && CompactCrash(s, e, d)
    ensures FilesSound(d, s.blocks[e].id) && EndOf(d, s.blocks[e].id) == e
  {
    hide Less, StreamsAt, AbsorbAll, MaxVariable;
    var b := s.blocks[e];
    assert BlockSound(b, s.disk) && FilesSound(s.disk, b.id);
    if d.files == s.disk.files && d.logs == s.disk.logs {
    } else if d.logs == s.disk.logs {
      ReplacedFileSound(b, s.disk, d);
    } else {
      CompactedFileSound(b, s.disk, d);
    }
  }

  /** The file already rewritten, the log not yet removed. */
  lemma ReplacedFileSound(b: BlockState, d: Disk, d': Disk)
    requires BlockSound(b, d) && FilesSound(d, b.id) && b.id in OnDisk(d)
    requires b.id in d'.files && IsWritten(d'.files[b.id], Merged(b, d)) && d'.logs == d.logs
    ensures FilesSound(d', b.id) && EndOf(d', b.id) == b.endKey
  {
    var dd := d'.(logs := d'.logs - {b.id});
    CompactedFileSound(b, d, dd);
    hide Less, StreamsAt, AbsorbAll, MaxVariable, IsWritten, Merged;
    assert FileOf(d', b.id) == FileOf(dd, b.id) && LogOf(dd, b.id) == [] && LogOf(d', b.id) == LogOf(d, b.id);
    assert Variables([]) == {};
    assert DiskKeys(d', b.id) == DiskKeys(d, b.id);
  }

  /** Replacing one block's files by sound ones with the same end key keeps the directory sound. */
  lemma OneBlockDiskSound(d: Disk, d': Disk, id: Id)
    requires DiskSound(d) && id in OnDisk(d) && forall i :: i != id ==> SameFiles(d, d', i)
    requires FilesSound(d', id) && EndOf(d', id) == EndOf(d, id)
    ensures DiskSound(d')
  {
    hide Less, StreamsAt, AbsorbAll, MaxVariable, FilesSound, EndOf;
    forall i | i in OnDisk(d') ensures i in OnDisk(d) && FilesSound(d', i) && EndOf(d', i) == EndOf(d, i) {
      if i != id {
        SameFilesSame(d, d', i);
      }
    }
  }

  /** After a crash anywhere inside a compaction the directory can be reopened: it is sound. */
  lemma CompactCrashDiskSound(s: State, e: Key, d: Disk)
    requires Sound(s) && e in s.blocks && s.blocks[e].id in OnDisk(s.disk) && CompactCrash(s, e, d)
    ensures DiskSound(d)
  {
    SoundMeansDiskSound(s);
    CompactCrashFrame(s, e, d);
    CompactCrashFileSound(s, e, d);
    assert EndOf(s.disk, s.blocks[e].id) == e by {
      assert BlockSound(s.blocks[e], s.disk);
    }
    hide DiskSound, FilesSound, EndOf, SameFiles, CompactCrash;
    OneBlockDiskSound(s.disk, d, s.blocks[e].id);
  }

  // ---------- inside a split ----------

  /** Removing the new left file from a mid-split directory leaves a finished compaction. */
  ghost function WithoutFile(d: Disk, id: Id): Disk {
    d.(files := d.files - {id})
  }

  lemma MidSplitIsCompactedPlusLeft(s: State, e: Key, uuid: Id, m: Key, d: Disk)
    requires Sound(s) && FreshId(s, uuid) && e in s.blocks && MidSplit(s, e, uuid, m, d)
    ensures s.blocks[e].id != uuid && uuid in d.files && uuid !in d.logs
    ensures CompactCrash(s, e, WithoutFile(d, uuid)) && uuid !in OnDisk(WithoutFile(d, uuid))
    ensures forall i :: i != uuid ==> SameFiles(WithoutFile(d, uuid), d, i)
    ensures IsWritten(d.files[uuid], UpTo(Merged(s.blocks[e], s.disk), m))
    ensures s.blocks[e].id in d.files && IsWritten(d.files[s.blocks[e].id], Merged(s.blocks[e], s.disk))
  {
    hide IsWritten, Merged, UpTo, BlocksSound, FilesOwned;
    assert Owned(s, s.blocks[e].id);
    assert WithoutFile(d, uuid).files == s.disk.files[s.blocks[e].id := d.files[s.blocks[e].id]];
  }

  /** A new block's files add what they hold. */
  lemma OneBlockAdded(d: Disk, d': Disk, id: Id, k: Key)
    requires id !in OnDisk(d) && id in OnDisk(d') && forall i :: i != id ==> SameFiles(d, d', i)
    ensures RecoveredAt(d', k) == RecoveredAt(d, k) + DiskAt(d', id, k)
  {
    hide Sum, StreamsAt;
    forall i | i != id ensures i in OnDisk(d) <==> i in OnDisk(d') {
      SameFilesSame(d, d', i);
    }
    assert OnDisk(d') - {id} == OnDisk(d);
    forall i | i in OnDisk(d) ensures DiskValues(d, k)(i) == DiskValues(d', k)(i) {
      SameFilesSame(d, d', i);
    }
    SumRemove(OnDisk(d'), DiskValues(d', k), id);
    SumSame(OnDisk(d), DiskValues(d, k), DiskValues(d', k));
  }

  lemma HalfAt(all: Streams, m: Key, k: Key)
    ensures MapAt(UpTo(all, m), k) <= MapAt(all, k)
  {
  }

  lemma WrittenDiskAt(d: Disk, id: Id, m: Streams, k: Key)
    requires id in d.files && id !in d.logs && IsWritten(d.files[id], m)
    ensures DiskAt(d, id, k) == MapAt(m, k)
  {
    assert LogOf(d, id) == [];
  }

  lemma MergedDiskAt(s: State, e: Key, k: Key)
    requires Sound(s) && e in s.blocks
    ensures MapAt(Merged(s.blocks[e], s.disk), k) == DiskAt(s.disk, s.blocks[e].id, k)
  {
    hide BlockSound, Merged;
    BlockMirrorsDisk(s.blocks[e], s.disk, k);
  }

  /** In the middle of a split everything is there once, and the left half twice. */
  lemma MidSplitRecovered(s: State, e: Key, uuid: Id, m: Key, d: Disk, k: Key)
    requires Sound(s) && FreshId(s, uuid) && e in s.blocks && s.blocks[e].id in OnDisk(s.disk) && MidSplit(s, e, uuid, m, d)
    ensures RecoveredAt(d, k) == RecoveredAt(s.disk, k) + DiskAt(d, uuid, k)
    ensures DiskAt(d, uuid, k) <= DiskAt(s.disk, s.blocks[e].id, k)
  {
    hide Sound, DiskAt, IsWritten, Merged, UpTo, MidSplit, CompactCrash, Sum, SameFiles, FreshId, RecoveredAt;
    var b := s.blocks[e];
    var d0 := WithoutFile(d, uuid);
    MidSplitIsCompactedPlusLeft(s, e, uuid, m, d);
    WrittenDiskAt(d, uuid, UpTo(Merged(b, s.disk), m), k);
    HalfAt(Merged(b, s.disk), m, k);
    MergedDiskAt(s, e, k);
    CompactCrashFrame(s, e, d0);
    hide WithoutFile;
    assert DiskAt(d0, b.id, k) == DiskAt(s.disk, b.id, k) + multiset{} by {
      MidSplitWithoutLeftAt(s, e, uuid, m, d, k);
    }
    OneBlockChanged(s.disk, d0, b.id, multiset{}, k);
    OneBlockAdded(d0, d, uuid, k);
  }

  lemma MidSplitWithoutLeftAt(s: State, e: Key, uuid: Id, m: Key, d: Disk, k: Key)
    requires Sound(s) && FreshId(s, uuid) && e in s.blocks && MidSplit(s, e, uuid, m, d)
    ensures DiskAt(WithoutFile(d, uuid), s.blocks[e].id, k) == DiskAt(s.disk, s.blocks[e].id, k)
  {
    hide Sound, DiskAt, IsWritten, Merged, UpTo, CompactCrash, SameFiles, FreshId;
    MidSplitIsCompactedPlusLeft(s, e, uuid, m, d);
    MergedDiskAt(s, e, k);
    WrittenDiskAt(WithoutFile(d, uuid), s.blocks[e].id, Merged(s.blocks[e], s.disk), k);
  }

  lemma MidSplitSurvives(s: State, e: Key, uuid: Id, m: Key, d: Disk)
    requires Sound(s) && FreshId(s, uuid) && e in s.blocks && s.blocks[e].id in OnDisk(s.disk) && MidSplit(s, e, uuid, m, d)
    ensures Survives(s.disk, d)
  {
    hide Sound, MidSplit, FreshId, Sum, DiskAt, OnDisk;
    forall k ensures RecoveredAt(s.disk, k) <= RecoveredAt(d, k) <= RecoveredAt(s.disk, k) + RecoveredAt(s.disk, k) {
      MidSplitRecovered(s, e, uuid, m, d, k);
      PartOfSum(OnDisk(s.disk), DiskValues(s.disk, k), s.blocks[e].id);
    }
  }

  /** A crash anywhere inside a split loses no flushed value either. */
  lemma SplitCrashSurvives(s: State, e: Key, uuid: Id, m: Key, d: Disk)
    requires Sound(s) && FreshId(s, uuid) && e in s.blocks && s.blocks[e].id in OnDisk(s.disk) && SplitCrash(s, e, uuid, m, d)
    ensures Survives(s.disk, d)
  {
    hide Sound, CompactCrash, MidSplit, SplitDone, FreshId, RecoveredAt, OnDisk;
    if CompactCrash(s, e, d) {
      CompactCrashSurvives(s, e, d);
    } else if MidSplit(s, e, uuid, m, d) {
      MidSplitSurvives(s, e, uuid, m, d);
    } else {
      forall k ensures RecoveredAt(d, k) == RecoveredAt(s.disk, k) {
        SplitDoneRecovered(s, e, uuid, m, d, k);
      }
    }
  }

  lemma SplitDoneRecovered(s: State, e: Key, uuid: Id, m: Key, d: Disk, k: Key)
    requires Sound(s) && FreshId(s, uuid) && e in s.blocks && s.blocks[e].id in OnDisk(s.disk) && SplitDone(s, e, uuid, m, d)
    ensures RecoveredAt(d, k) == RecoveredAt(s.disk, k)
  {
    hide Sound, StreamsAt, DiskAt, IsWritten, Merged, UpTo, After, Sum, FreshId, OnDisk, SameFiles;
    var b := s.blocks[e];
    var all := Merged(b, s.disk);
    SplitDoneFrame(s, e, uuid, m, d);
    assert DiskAt(s.disk, b.id, k) == DiskAt(d, b.id, k) + DiskAt(d, uuid, k) by {
      WrittenDiskAt(d, b.id, After(all, m), k);
      WrittenDiskAt(d, uuid, UpTo(all, m), k);
      HalvesAt(all, m, k);
      MergedDiskAt(s, e, k);
    }
    hide SplitDone;
    forall i | i in OnDisk(s.disk) && i != b.id && i != uuid ensures DiskValues(s.disk, k)(i) == DiskValues(d, k)(i) {
      SameFilesSame(s.disk, d, i);
    }
    SumSplit(OnDisk(s.disk), DiskValues(s.disk, k), DiskValues(d, k), b.id, uuid);
  }

  lemma SplitDoneFrame(s: State, e: Key, uuid: Id, m: Key, d: Disk)
    requires Sound(s) && FreshId(s, uuid) && e in s.blocks && s.blocks[e].id in OnDisk(s.disk) && SplitDone(s, e, uuid, m, d)
    ensures s.blocks[e].id != uuid && uuid !in OnDisk(s.disk) && OnDisk(d) == OnDisk(s.disk) + {uuid}
    ensures s.blocks[e].id !in d.logs && uuid !in d.logs
    ensures forall i :: i != s.blocks[e].id && i != uuid ==> SameFiles(s.disk, d, i)
  {
    hide IsWritten, Merged, UpTo, After, BlocksSound, FilesOwned;
    assert Owned(s, s.blocks[e].id);
  }

  /** A new block's file whose end key nobody has keeps the directory sound. */
  lemma AddedDiskSound(d: Disk, d': Disk, id: Id)
    requires DiskSound(d) && id !in OnDisk(d) && forall i :: i != id ==> SameFiles(d, d', i)
    requires FilesSound(d', id) && forall i :: i in OnDisk(d) ==> EndOf(d, i) != EndOf(d', id)
    ensures DiskSound(d')
  {
    hide Less, StreamsAt, AbsorbAll, MaxVariable, FilesSound, EndOf;
    forall i | i in OnDisk(d') && i != id ensures i in OnDisk(d) && FilesSound(d', i) && EndOf(d', i) == EndOf(d, i) {
      SameFilesSame(d, d', i);
    }
  }

  /** Every end key on disk is the end key of a block. */
  lemma EndsAreBlocks(s: State, i: Id)
    requires Sound(s) && i in OnDisk(s.disk)
    ensures EndOf(s.disk, i) in s.blocks
  {
    hide FilesSound, EndOf, AbsorbAll;
    assert Owned(s, i);
    var e :| e in s.blocks && s.blocks[e].id == i;
    assert BlockSound(s.blocks[e], s.disk);
  }

  lemma MidSplitDiskSound(s: State, e: Key, uuid: Id, m: Key, d: Disk)
    requires Sound(s) && FreshId(s, uuid) && e in s.blocks && UnflushedAbove(s.blocks[e], m) && m !in s.blocks
    requires IsSplitKey(BlockKeys(s.blocks[e]), m) && MidSplit(s, e, uuid, m, d)
    ensures DiskSound(d)
  {
    hide Sound, IsWritten, Merged, UpTo, MidSplit, CompactCrash, SameFiles, FreshId, FilesSound, DiskSound, UnflushedAbove, OnDisk;
    var d0 := WithoutFile(d, uuid);
    MidSplitIsCompactedPlusLeft(s, e, uuid, m, d);
    SplitKeysOnDisk(s, e, m);
    CompactCrashDiskSound(s, e, d0);
    LeftFileSound(s, e, m, d, uuid);
    forall i | i in OnDisk(d0) ensures EndOf(d0, i) != m {
      CompactCrashEnds(s, e, d0, i);
    }
    AddedDiskSound(d0, d, uuid);
  }

  lemma CompactCrashEnds(s: State, e: Key, d: Disk, i: Id)
    requires Sound(s) && e in s.blocks && s.blocks[e].id in OnDisk(s.disk) && CompactCrash(s, e, d) && i in OnDisk(d)
    ensures EndOf(d, i) in s.blocks
  {
    hide Sound, FilesSound, EndOf, CompactCrash, SameFiles;
    if i == s.blocks[e].id {
      CompactCrashFileSound(s, e, d);
    } else {
      CompactCrashFrame(s, e, d);
      SameFilesSame(s.disk, d, i);
      EndsAreBlocks(s, i);
    }
  }

  lemma SplitDoneDiskSound(s: State, e: Key, uuid: Id, m: Key, d: Disk)
    requires Sound(s) && FreshId(s, uuid) && e in s.blocks && UnflushedAbove(s.blocks[e], m) && m !in s.blocks
    requires IsSplitKey(BlockKeys(s.blocks[e]), m) && SplitDone(s, e, uuid, m, d)
    ensures DiskSound(d)
  {
    hide Sound, IsWritten, Merged, UpTo, After, SameFiles, FilesSound, UnflushedAbove;
    var id := s.blocks[e].id;
    SplitKeysOnDisk(s, e, m);
    LeftFileSound(s, e, m, d, uuid) by { SplitDoneFrame(s, e, uuid, m, d); }
    RightFileSound(s, e, m, d) by { SplitDoneFrame(s, e, uuid, m, d); }
    SoundMeansDiskSound(s);
    assert EndOf(s.disk, id) == e by { SoundBlockEnd(s, e); }
    forall i | i in OnDisk(d)
      ensures FilesSound(d, i)
      ensures EndOf(d, i) == (if i == uuid then m else EndOf(s.disk, i))
      ensures i != uuid ==> i in OnDisk(s.disk) && EndOf(s.disk, i) in s.blocks
    {
      SplitDoneFrame(s, e, uuid, m, d);
      if i != uuid && i != id {
        SameFilesSame(s.disk, d, i);
      }
      if i != uuid {
        EndsAreBlocks(s, i);
      }
    }
  }

  lemma SoundBlockEnd(s: State, e: Key)
    requires Sound(s) && e in s.blocks && s.blocks[e].id in OnDisk(s.disk)
    ensures EndOf(s.disk, s.blocks[e].id) == e
  {
    assert BlockSound(s.blocks[e], s.disk);
  }

  /** After a crash anywhere inside a split the directory is sound. */
  lemma SplitCrashDiskSound(s: State, e: Key, uuid: Id, m: Key, d: Disk)
    requires Sound(s) && FreshId(s, uuid) && e in s.blocks && UnflushedAbove(s.blocks[e], m) && m !in s.blocks
    requires IsSplitKey(BlockKeys(s.blocks[e]), m) && SplitCrash(s, e, uuid, m, d)
    ensures DiskSound(d)
  {
    hide Sound, CompactCrash, MidSplit, SplitDone, FreshId, UnflushedAbove, DiskSound, IsSplitKey;
    SplitKeysOnDisk(s, e, m);
    if CompactCrash(s, e, d) {
      CompactCrashDiskSound(s, e, d);
    } else if MidSplit(s, e, uuid, m, d) {
      MidSplitDiskSound(s, e, uuid, m, d);
    } else {
      SplitDoneDiskSound(s, e, uuid, m, d);
    }
  }
}
