/** What every run keeps across crashes inside a flush: blocks that have never reached the disk keep clear of all others. */
module DatastoreSafe {
  import opened ByteStrings
  import opened DatastoreModel
  import opened DatastoreSteps
  import opened DatastoreProofs
  import opened DatastoreSplit
  import opened DatastoreCrash

  /** No key of block e could have gone to block f: every end key at or after it is at or after e. */
  ghost predicate Apart(s: State, e: Key, f: Key)
    requires e in s.blocks && f in s.blocks
  {
    forall k :: k in BlockKeys(s.blocks[e]) && AtMost(k, f) ==> AtMost(e, f)
  }

  predicate IsNew(s: State, e: Key)
    requires e in s.blocks
  {
    s.blocks[e].id !in OnDisk(s.disk)
  }

  /** Routing, for every pair with a block that has no file and no log yet. A mid-split crash breaks `Routed`, never this. */
  ghost predicate NewRouted(s: State) {
    forall e, f {:trigger Apart(s, e, f)} :: e in s.blocks && f in s.blocks && (IsNew(s, e) || IsNew(s, f)) ==> Apart(s, e, f)
  }

  ghost predicate Safe(s: State) {
    Sound(s) && NewRouted(s)
  }

  lemma RoutedIsApart(s: State)
    ensures Routed(s) <==> forall e, f :: e in s.blocks && f in s.blocks ==> Apart(s, e, f)
  {
    hide Less, BlockKeys;
    if forall e, f :: e in s.blocks && f in s.blocks ==> Apart(s, e, f) {
      forall e, f, k | e in s.blocks && f in s.blocks && k in BlockKeys(s.blocks[e]) && AtMost(k, f) ensures AtMost(e, f) {
        assert Apart(s, e, f);
      }
    }
  }

  lemma InvIsSafe(s: State)
    requires Inv(s)
    ensures Safe(s)
  {
    RoutedIsApart(s);
    hide Sound, Routed, Apart;
  }

  // ---------- which steps keep it ----------

  /** Once every block is on disk there is nothing left to keep clear. */
  lemma OnDiskIsNewRouted(s: State)
    requires forall e :: e in s.blocks ==> !IsNew(s, e)
    ensures NewRouted(s)
  {
  }

  lemma FlushedIsNewRouted(s: State)
    requires Sound(s) && Flushed(s)
    ensures NewRouted(s)
  {
    forall e | e in s.blocks ensures !IsNew(s, e) {
      assert BlockSound(s.blocks[e], s.disk);
    }
    hide Sound, BlockKeys;
    OnDiskIsNewRouted(s);
  }

  lemma ReopenedIsNewRouted(d: Disk, pid: nat, s: State)
    requires IsReopened(d, pid, s)
    ensures NewRouted(s)
  {
    hide LoadedBlock, EndOf, BlockKeys, Less, Tables;
    OnDiskIsNewRouted(s);
  }

  lemma AppendedKeys(s: State, s': State, st: Stream, e: Key)
    requires AppendTo(s, s', st, e)
    ensures s'.disk == s.disk && s'.blocks.Keys == s.blocks.Keys && e in s.blocks
    ensures forall f :: f in s.blocks ==> s'.blocks[f].id == s.blocks[f].id
    ensures forall f :: f in s.blocks && f != e ==> s'.blocks[f] == s.blocks[f]
    ensures BlockKeys(s'.blocks[e]) == BlockKeys(s.blocks[e]) + {st.variable}
  {
    hide Less;
    AppendStream(s.blocks[e].newStreams, st, []);
  }

  lemma AppendKeepsApart(s: State, s': State, st: Stream, e: Key, a: Key, b: Key)
    requires AppendTo(s, s', st, e) && a in s.blocks && b in s.blocks && Apart(s, a, b)
    ensures a in s'.blocks && b in s'.blocks && Apart(s', a, b)
  {
    AppendedKeys(s, s', st, e);
    hide Less, BlockKeys;
    assert IsRoute(s, st.variable, e);
  }

  lemma AppendKeepsNewRouted(s: State, s': State, st: Stream, e: Key)
    requires NewRouted(s) && AppendTo(s, s', st, e)
    ensures NewRouted(s')
  {
    AppendedKeys(s, s', st, e);
    hide Less, BlockKeys, Apart, AppendTo;
    forall a, b | a in s'.blocks && b in s'.blocks && (IsNew(s', a) || IsNew(s', b)) ensures Apart(s', a, b) {
      AppendKeepsApart(s, s', st, e, a, b);
    }
  }

  lemma StartedKeys(s: State, s': State, st: Stream, uuid: Id)
    requires StartBlock(s, s', st, uuid)
    ensures s'.disk == s.disk && s'.blocks.Keys == s.blocks.Keys + {st.variable}
    ensures forall f :: f in s.blocks ==> s'.blocks[f] == s.blocks[f] && !AtMost(st.variable, f)
    ensures BlockKeys(s'.blocks[st.variable]) == {st.variable}
  {
    hide Less, Tables;
    SingleStream(st);
    NewestIsFree(s, st.variable);
  }

  lemma StartKeepsNewRouted(s: State, s': State, st: Stream, uuid: Id)
    requires NewRouted(s) && StartBlock(s, s', st, uuid)
    ensures NewRouted(s')
  {
    Order();
    StartedKeys(s, s', st, uuid);
    hide Less, BlockKeys, StartBlock;
    var v := st.variable;
    forall a, b | a in s'.blocks && b in s'.blocks && (IsNew(s', a) || IsNew(s', b)) ensures Apart(s', a, b) {
      if a in s.blocks && b in s.blocks {
        assert Apart(s, a, b);
      }
    }
  }

  lemma WriteKeepsNewRouted(s: State, s': State, st: Stream, uuid: Id)
    requires NewRouted(s) && WriteStep(s, s', st, uuid)
    ensures NewRouted(s')
  {
    hide NewRouted, AppendTo, StartBlock;
    if e :| AppendTo(s, s', st, e) {
      AppendKeepsNewRouted(s, s', st, e);
    } else {
      StartKeepsNewRouted(s, s', st, uuid);
    }
  }

  /** A block with logged streams has a file or a log. */
  lemma LoggedMeansOnDisk(s: State, e: Key)
    requires Sound(s) && e in s.blocks && s.blocks[e].logStreams != map[]
    ensures s.blocks[e].id in OnDisk(s.disk)
  {
    assert BlockSound(s.blocks[e], s.disk);
  }

  lemma CompactedKeys(s: State, s': State, e: Key)
    requires Sound(s) && e in s.blocks && s.blocks[e].id in OnDisk(s.disk) && CompactStep(s, s', e)
    ensures s'.blocks.Keys == s.blocks.Keys
    ensures forall f :: f in s.blocks ==> BlockKeys(s'.blocks[f]) == BlockKeys(s.blocks[f])
    ensures forall f :: f in s.blocks ==> (IsNew(s', f) <==> IsNew(s, f))
  {
    CompactEffect(s, s', e);
    CompactedBlockKeys(s.blocks[e], s.disk);
    hide Less, AbsorbAll, BlockSound, FilesSound, Merged, IsWritten, BlockKeys, CompactStep;
    forall f | f in s.blocks ensures IsNew(s', f) <==> IsNew(s, f) {
      if f != e {
        assert SameFiles(s.disk, s'.disk, s.blocks[f].id);
      }
    }
  }

  lemma CompactKeepsNewRouted(s: State, s': State, e: Key)
    requires Safe(s) && e in s.blocks && s.blocks[e].id in OnDisk(s.disk) && CompactStep(s, s', e)
    ensures NewRouted(s')
  {
    CompactedKeys(s, s', e);
    hide Less, BlockKeys, CompactStep, Sound, IsNew;
    forall a, b | a in s'.blocks && b in s'.blocks && (IsNew(s', a) || IsNew(s', b)) ensures Apart(s', a, b) {
      assert Apart(s, a, b);
    }
  }

  lemma SplitStepKey(s: State, s': State, e: Key, uuid: Id, m: Key)
    requires e in s.blocks && SplitStep(s, s', e, uuid, m)
    ensures IsSplitKey(BlockKeys(s.blocks[e]), m)
  {
  }

  lemma SplitNews(s: State, s': State, e: Key, uuid: Id, m: Key)
    requires Sound(s) && FreshId(s, uuid) && e in s.blocks && m !in s.blocks && SplitStep(s, s', e, uuid, m)
    ensures s'.blocks.Keys == s.blocks.Keys + {m} && !IsNew(s', e) && !IsNew(s', m)
    ensures forall f :: f in s.blocks && f != e ==> s'.blocks[f] == s.blocks[f] && (IsNew(s', f) <==> IsNew(s, f))
  {
    SplitEffect(s, s', e, uuid, m);
    hide Less, IsWritten, Merged, UpTo, After, SplitStep, BlockSound, FilesSound;
    forall f | f in s.blocks && f != e ensures s'.blocks[f] == s.blocks[f] && (IsNew(s', f) <==> IsNew(s, f)) {
      assert SameFiles(s.disk, s'.disk, s.blocks[f].id);
    }
  }

  /** Splitting e at m: block g, clear of e before, is clear of both halves. */
  lemma HalvesApart(s: State, s': State, e: Key, m: Key, g: Key)
    requires e in s.blocks && g in s.blocks && Apart(s, e, g) && Apart(s, g, e) && g != e
    requires m in BlockKeys(s.blocks[e]) && Less(m, e)
    requires e in s'.blocks && m in s'.blocks && g in s'.blocks && s'.blocks[g] == s.blocks[g]
    requires forall k :: k in BlockKeys(s'.blocks[m]) + BlockKeys(s'.blocks[e]) ==> k in BlockKeys(s.blocks[e])
    ensures Apart(s', e, g) && Apart(s', g, e) && Apart(s', m, g) && Apart(s', g, m)
  {
    Order();
    hide Less, BlockKeys;
    forall k | k in BlockKeys(s'.blocks[g]) && AtMost(k, m) ensures AtMost(g, m) {
      assert AtMost(k, e) && AtMost(g, e);
      assert AtMost(m, g) ==> AtMost(e, g);
    }
    forall k | k in BlockKeys(s'.blocks[m]) && AtMost(k, g) ensures AtMost(m, g) {
      assert AtMost(e, g);
    }
  }

  lemma NewApart(s: State, a: Key, b: Key)
    requires NewRouted(s) && a in s.blocks && b in s.blocks && (IsNew(s, a) || IsNew(s, b))
    ensures Apart(s, a, b) && Apart(s, b, a)
  {
    hide Apart, IsNew;
  }

  lemma SplitKeepsNewRouted(s: State, s': State, e: Key, uuid: Id, m: Key)
    requires Safe(s) && FreshId(s, uuid) && e in s.blocks && m !in s.blocks && SplitStep(s, s', e, uuid, m)
    ensures NewRouted(s')
  {
    hide Less, BlockKeys, SplitStep, Sound, IsNew, Apart, IsSplitKey, FreshId, UnflushedAbove, NewRouted;
    SplitStepKey(s, s', e, uuid, m);
    SplitKeyBelowEnd(s, e, m);
    SplitNews(s, s', e, uuid, m);
    SplitBlockKeys(s, s', e, uuid, m);
    forall a, b | a in s'.blocks && b in s'.blocks && (IsNew(s', a) || IsNew(s', b)) ensures Apart(s', a, b) {
      if a == e || a == m {
        NewApart(s, b, e);
        HalvesApart(s, s', e, m, b);
      } else if b == e || b == m {
        NewApart(s, a, e);
        HalvesApart(s, s', e, m, a);
      } else {
        NewApart(s, a, b);
        UntouchedApart(s, s', a, b);
      }
    }
    NewRoutedFrom(s');
  }

  lemma NewRoutedFrom(s: State)
    requires forall a, b :: a in s.blocks && b in s.blocks && (IsNew(s, a) || IsNew(s, b)) ==> Apart(s, a, b)
    ensures NewRouted(s)
  {
    hide Apart, IsNew;
  }

  lemma UntouchedApart(s: State, s': State, a: Key, b: Key)
    requires a in s.blocks && b in s.blocks && Apart(s, a, b)
    requires a in s'.blocks && b in s'.blocks && s'.blocks[a] == s.blocks[a]
    ensures Apart(s', a, b)
  {
  }

  // ---------- what a crash inside a flush leaves ----------

  /** With a log alone, the end key is the largest logged variable. */
  lemma LogEnd(d: Disk, id: Id)
    requires id !in d.files && LogOf(d, id) != []
    ensures IsEnd(EndOf(d, id), DiskKeys(d, id)) && EndOf(d, id) in DiskKeys(d, id)
  {
    hide Less, MaxVariable;
    assert DiskKeys(d, id) == Variables(LogOf(d, id));
    MaxVariableIsEnd(LogOf(d, id));
    assert LogOf(d, id)[0] in LogOf(d, id);
    assert LogOf(d, id)[0].variable in Variables(LogOf(d, id));
  }

  /** A log that has been created and not yet written to is sound, and its block would end at the empty string. */
  lemma EmptyLogEnd(d: Disk, id: Id)
    requires id !in d.files && LogOf(d, id) == []
    ensures FilesSound(d, id) && EndOf(d, id) == []
  {
    assert Variables([]) == {};
  }

  /** A log that grew keeps the block's end key; a new log has a key of the block for end key, or the empty string. */
  lemma LogGrewSound(b: BlockState, d: Disk, d': Disk)
    requires BlockSound(b, d) && (b.id in OnDisk(d) ==> FilesSound(d, b.id))
    requires d'.files == d.files && LogGrew(b, d, d') && b.id in OnDisk(d') && (b.id in d.logs ==> b.id in d'.logs)
    ensures FilesSound(d', b.id)
    ensures b.id in OnDisk(d) ==> EndOf(d', b.id) == b.endKey
    ensures b.id !in OnDisk(d) ==> (LogOf(d', b.id) == [] && EndOf(d', b.id) == []) || EndOf(d', b.id) in Variables(b.newStreams)
  {
    hide Less, AbsorbAll, MaxVariable, StreamsAt, BlockKeys;
    var id, e := b.id, b.endKey;
    var n :| 0 <= n <= |b.newStreams| && LogOf(d', id) == LogOf(d, id) + b.newStreams[..n];
    var part := b.newStreams[..n];
    VariablesConcat(LogOf(d, id), part);
    assert Variables(part) <= Variables(b.newStreams);
    assert DiskKeys(d', id) == DiskKeys(d, id) + Variables(part);
    assert id in OnDisk(d) ==> IsEnd(e, DiskKeys(d', id)) by {
      if id in OnDisk(d) {
        EndExtends(e, DiskKeys(d, id), Variables(part));
      }
    }
    if id !in d.files {
      if LogOf(d', id) == [] {
        EmptyLogEnd(d', id);
      } else {
        LogEnd(d', id);
      }
      assert id in OnDisk(d) ==> EndOf(d', id) == e by {
        if id in OnDisk(d) {
          IsEndUnique(e, EndOf(d', id), DiskKeys(d', id));
        }
      }
    }
  }

  lemma LessAntisymmetric(a: Key, b: Key)
    ensures AtMost(a, b) && AtMost(b, a) ==> a == b
  {
    if Less(a, b) {
      LessNotBack(a, b);
    }
  }

  /** Two blocks that keep clear of each other share no key and no end key. */
  lemma SharedKeyOneBlock(s: State, e: Key, f: Key, x: Key)
    requires Sound(s) && e in s.blocks && f in s.blocks && Apart(s, e, f) && Apart(s, f, e)
    requires x in BlockKeys(s.blocks[e]) || x == e
    requires x in BlockKeys(s.blocks[f]) || x == f
    ensures e == f
  {
    hide Less, Sound, BlockKeys;
    KeysAtMostEnd(s, e);
    KeysAtMostEnd(s, f);
    assert AtMost(x, e) && AtMost(x, f);
    LessAntisymmetric(e, f);
    assert x in BlockKeys(s.blocks[e]) ==> AtMost(e, f);
    assert x in BlockKeys(s.blocks[f]) ==> AtMost(f, e);
  }

  /** At most one block of the directory would end at the empty string. */
  ghost predicate OneEmptyEnd(d: Disk) {
    forall i, j :: i in OnDisk(d) && j in OnDisk(d) && EndOf(d, i) == [] && EndOf(d, j) == [] ==> i == j
  }

  ghost predicate NewAndEmpty(d: Disk, i: Id) {
    i in d.logs && i !in d.files && d.logs[i] == []
  }

  /** Block e has id i, and x is its end key or, if it is new, one of its keys; a new log that is still empty has the empty key. */
  ghost predicate CrashEnd(s: State, d: Disk, i: Id, x: Key, e: Key) {
    && e in s.blocks && s.blocks[e].id == i
    && (i in OnDisk(s.disk) ==> x == e)
    && (i !in OnDisk(s.disk) ==> (NewAndEmpty(d, i) && x == []) || x in BlockKeys(s.blocks[e]))
  }

  lemma FlushCrashFile(s: State, d: Disk, i: Id) returns (e: Key)
    requires Sound(s) && FlushCrash(s, d) && i in OnDisk(d)
    ensures FilesSound(d, i) && CrashEnd(s, d, i, EndOf(d, i), e)
  {
    hide Less, FilesSound, BlockSound, LogGrew, EndOf;
    assert Owned(s, i);
    e :| e in s.blocks && s.blocks[e].id == i;
    LogGrewSound(s.blocks[e], s.disk, d);
  }

  lemma CrashEndsDiffer(s: State, d: Disk, i: Id, j: Id, x: Key, e: Key, f: Key)
    requires Safe(s) && CrashEnd(s, d, i, x, e) && CrashEnd(s, d, j, x, f)
    requires x != [] || !(NewAndEmpty(d, i) || NewAndEmpty(d, j))
    ensures i == j
  {
    hide Less, Sound, BlockKeys, Apart;
    if IsNew(s, e) || IsNew(s, f) {
      SharedKeyOneBlock(s, e, f, x);
    }
  }

  /** The exact condition for the directory that a crash inside a flush leaves to open without two blocks claiming one end key. */
  lemma FlushCrashDiskSoundIff(s: State, d: Disk)
    requires Safe(s) && FlushCrash(s, d)
    ensures DiskSound(d) <==> OneEmptyEnd(d)
  {
    hide Less, FilesSound, EndOf, BlockKeys, Sound, FlushCrash, NewRouted, OnDisk, CrashEnd;
    forall i | i in OnDisk(d) ensures FilesSound(d, i) {
      var e := FlushCrashFile(s, d, i);
    }
    if OneEmptyEnd(d) {
      forall i, j | i in OnDisk(d) && j in OnDisk(d) && EndOf(d, i) == EndOf(d, j) ensures i == j {
        if EndOf(d, i) != [] {
          var e := FlushCrashFile(s, d, i);
          var f := FlushCrashFile(s, d, j);
          CrashEndsDiffer(s, d, i, j, EndOf(d, i), e, f);
        }
      }
    }
  }

  /** In a routed store, a crash that leaves no log created and still empty leaves a sound directory. */
  lemma FlushCrashDiskSound(s: State, d: Disk)
    requires Inv(s) && FlushCrash(s, d)
    requires forall i :: i in d.logs && i !in d.files ==> d.logs[i] != []
    ensures DiskSound(d)
  {
    hide Less, FilesSound, EndOf, BlockKeys, Sound, FlushCrash, Routed, NewRouted, OnDisk, CrashEnd;
    InvIsSafe(s);
    forall i, j | i in OnDisk(d) && j in OnDisk(d) && EndOf(d, i) == [] && EndOf(d, j) == [] ensures i == j {
      var e := FlushCrashFile(s, d, i);
      var f := FlushCrashFile(s, d, j);
      CrashEndsDiffer(s, d, i, j, [], e, f);
    }
    FlushCrashDiskSoundIff(s, d);
  }
}
