/** Every operation of the block datastore keeps the invariants and conserves the stored values. */
module DatastoreProofs {
  import opened ByteStrings
  import opened DatastoreModel
  import opened DatastoreSteps

  // ---------- one block ----------

  lemma CombineAt(m: Streams, log: Streams, k: Key)
    ensures MapAt(Combine(m, log), k) == MapAt(m, k) + MapAt(log, k)
  {
    assert Get(Combine(m, log), k) == Get(m, k) + Get(log, k);
  }

  lemma MergedAt(b: BlockState, d: Disk, k: Key)
    ensures MapAt(Merged(b, d), k) == StreamsAt(FileOf(d, b.id), k) + MapAt(b.logStreams, k)
  {
    CombineAt(AbsorbAll(map[], FileOf(d, b.id)), b.logStreams, k);
    AbsorbAllAt(map[], FileOf(d, b.id), k);
  }

  lemma MergedKeys(b: BlockState, d: Disk)
    ensures Merged(b, d).Keys == Variables(FileOf(d, b.id)) + b.logStreams.Keys
  {
    AbsorbAllKeys(map[], FileOf(d, b.id));
  }

  /** A sound block's keys are those on disk plus the unflushed ones. */
  lemma BlockMirrorsKeys(b: BlockState, d: Disk)
    requires BlockSound(b, d)
    ensures Merged(b, d).Keys == DiskKeys(d, b.id) && b.logStreams.Keys == Variables(LogOf(d, b.id))
    ensures BlockKeys(b) == DiskKeys(d, b.id) + Variables(b.newStreams)
  {
    MergedKeys(b, d);
    AbsorbAllKeys(map[], LogOf(d, b.id));
  }

  /** A sound block holds in memory exactly what its files hold, and the unflushed values. */
  lemma BlockMirrorsDisk(b: BlockState, d: Disk, k: Key)
    requires BlockSound(b, d)
    ensures MapAt(Merged(b, d), k) == DiskAt(d, b.id, k)
    ensures BlockAt(b, d, k) == DiskAt(d, b.id, k) + StreamsAt(b.newStreams, k)
  {
    MergedAt(b, d, k);
    AbsorbAllAt(map[], LogOf(d, b.id), k);
  }

  lemma {:induction false} AbsorbAllValues(m: Streams, ss: seq<Stream>, k: Key)
    requires NonEmptyStreams(ss) && k in AbsorbAll(m, ss)
    requires k in m ==> m[k] != []
    ensures AbsorbAll(m, ss)[k] != []
  {
    if ss != [] {
      var init, last := ss[..|ss| - 1], ss[|ss| - 1];
      assert last in ss;
      if k in AbsorbAll(m, init) {
        AbsorbAllValues(m, init, k);
      }
    }
  }

  lemma MergedValues(b: BlockState, d: Disk, k: Key)
    requires BlockSound(b, d) && FilesSound(d, b.id) && k in Merged(b, d)
    ensures Merged(b, d)[k] != []
  {
    if k in AbsorbAll(map[], FileOf(d, b.id)) {
      AbsorbAllValues(map[], FileOf(d, b.id), k);
    } else {
      AbsorbAllValues(map[], LogOf(d, b.id), k);
    }
  }

  /** A written file of non-empty streams is a sound block file. */
  lemma WrittenFileSound(f: BlockFile, m: Streams, d: Disk, id: Id)
    requires IsWritten(f, m) && forall k :: k in m ==> m[k] != []
    requires id in d.files && d.files[id] == f && id !in d.logs
    ensures FilesSound(d, id) && DiskKeys(d, id) == m.Keys && EndOf(d, id) == f.endKey
  {
    forall st | st in f.streams ensures st.values != [] {
      assert st.variable in Variables(f.streams);
      assert m[st.variable][0] in MapAt(m, st.variable);
    }
  }

  lemma EmptyMapAt(k: Key)
    ensures MapAt(map[], k) == multiset{}
  {
  }

  // ---------- write ----------

  lemma AppendStream(ss: seq<Stream>, st: Stream, k: Key)
    ensures StreamsAt(ss + [st], k) == StreamsAt(ss, k) + StreamsAt([st], k)
    ensures Variables(ss + [st]) == Variables(ss) + {st.variable}
  {
    StreamsAtConcat(ss, [st], k);
    VariablesConcat(ss, [st]);
    assert st in [st] && Variables([st]) == {st.variable};
  }

  lemma AppendConserves(s: State, s': State, st: Stream, e: Key, k: Key)
    requires AppendTo(s, s', st, e)
    ensures StoreAt(s', k) == StoreAt(s, k) + StreamsAt([st], k)
  {
    hide Less, Sum;
    AppendStream(s.blocks[e].newStreams, st, k);
    assert s'.blocks.Keys == s.blocks.Keys;
    var f, g := BlockValues(s, k), BlockValues(s', k);
    assert g(e) == f(e) + StreamsAt([st], k);
    SumGrow(s.blocks.Keys, f, g, e, StreamsAt([st], k));
  }

  /** A fresh id has no file and no log. */
  lemma StartedFiles(s: State, uuid: Id, k: Key)
    requires FreshId(s, uuid)
    ensures StreamsAt(FileOf(s.disk, uuid), k) == multiset{}
  {
  }

  lemma NewestIsFree(s: State, v: Key)
    requires forall e :: e in s.blocks ==> !AtMost(v, e)
    ensures v !in s.blocks
  {
  }

  lemma StartConserves(s: State, s': State, st: Stream, uuid: Id, k: Key)
    requires Sound(s) && FreshId(s, uuid) && StartBlock(s, s', st, uuid)
    ensures StoreAt(s', k) == StoreAt(s, k) + StreamsAt([st], k)
  {
    hide Less, StreamsAt, Sum, BlockSound, FilesSound;
    var f, g, v := BlockValues(s, k), BlockValues(s', k), st.variable;
    EmptyMapAt(k);
    StartedFiles(s, uuid, k);
    NewestIsFree(s, v);
    assert g(v) == StreamsAt([st], k);
    SumRemove(s'.blocks.Keys, g, v);
    assert s'.blocks.Keys - {v} == s.blocks.Keys;
    SumSame(s.blocks.Keys, f, g);
  }

  /** A write adds the written values, and nothing else changes anywhere in the store. */
  lemma WriteConserves(s: State, s': State, st: Stream, uuid: Id, k: Key)
    requires Sound(s) && FreshId(s, uuid) && WriteStep(s, s', st, uuid)
    ensures StoreAt(s', k) == StoreAt(s, k) + StreamsAt([st], k)
  {
    if e :| AppendTo(s, s', st, e) {
      AppendConserves(s, s', st, e, k);
    } else {
      assert StartBlock(s, s', st, uuid);
      StartConserves(s, s', st, uuid, k);
    }
  }

  lemma AppendedBlockSound(b: BlockState, d: Disk, st: Stream)
    requires BlockSound(b, d) && st.values != [] && AtMost(st.variable, b.endKey)
    ensures BlockSound(b.(newStreams := b.newStreams + [st]), d)
  {
    hide Less, AbsorbAll, EndOf;
    AppendStream(b.newStreams, st, []);
  }

  lemma AppendKeepsSound(s: State, s': State, st: Stream, e: Key)
    requires Sound(s) && st.values != [] && AppendTo(s, s', st, e)
    ensures Sound(s')
  {
    hide Less, BlockSound, FilesSound;
    AppendedBlockSound(s.blocks[e], s.disk, st);
    OwnersKept(s, s');
    hide Owned;
  }

  /** Adding or updating blocks without changing an id keeps every file owned. */
  lemma OwnersKept(s: State, s': State)
    requires forall e :: e in s.blocks ==> e in s'.blocks && s'.blocks[e].id == s.blocks[e].id
    ensures forall id :: Owned(s, id) ==> Owned(s', id)
  {
    forall id | Owned(s, id) ensures Owned(s', id) {
      var e :| e in s.blocks && s.blocks[e].id == id;
      assert s'.blocks[e].id == id;
    }
  }

  lemma SingleStream(st: Stream)
    ensures Variables([st]) == {st.variable}
  {
    assert st in [st];
  }

  lemma StartedBlockSound(d: Disk, st: Stream, uuid: Id)
    requires uuid !in OnDisk(d) && st.values != []
    ensures BlockSound(BlockState(st.variable, uuid, {}, map[], [st]), d)
  {
    hide Less;
    SingleStream(st);
    assert LogOf(d, uuid) == [] && FileOf(d, uuid) == [];
  }

  lemma StartKeepsSound(s: State, s': State, st: Stream, uuid: Id)
    requires Sound(s) && FreshId(s, uuid) && st.values != [] && StartBlock(s, s', st, uuid)
    ensures Sound(s')
  {
    hide Less, BlockSound, FilesSound;
    StartedBlockSound(s.disk, st, uuid);
    assert AtMost(st.variable, st.variable) && st.variable !in s.blocks;
    OwnersKept(s, s');
    assert forall e :: e in s.blocks ==> s'.blocks[e] == s.blocks[e] && s.blocks[e].id != uuid;
    hide Owned;
    assert IdsDistinct(s') && BlocksSound(s') && FilesOwned(s');
  }

  lemma WriteKeepsSound(s: State, s': State, st: Stream, uuid: Id)
    requires Sound(s) && FreshId(s, uuid) && st.values != [] && WriteStep(s, s', st, uuid)
    ensures Sound(s')
  {
    if e :| AppendTo(s, s', st, e) {
      AppendKeepsSound(s, s', st, e);
    } else {
      StartKeepsSound(s, s', st, uuid);
    }
  }

  lemma WriteKeepsRouted(s: State, s': State, st: Stream, uuid: Id)
    requires Inv(s) && WriteStep(s, s', st, uuid)
    ensures Routed(s')
  {
    hide Less, Sound;
    Order();
    SingleStream(st);
    if e :| AppendTo(s, s', st, e) {
      AppendStream(s.blocks[e].newStreams, st, []);
      assert BlockKeys(s'.blocks[e]) == BlockKeys(s.blocks[e]) + {st.variable};
      hide BlockKeys;
    } else {
      assert BlockKeys(s'.blocks[st.variable]) == {st.variable};
      hide BlockKeys;
    }
  }

  // ---------- framing ----------

  /** Two directories agree on the file and the log of one block. */
  ghost predicate SameFiles(d: Disk, d': Disk, id: Id) {
    && (id in d.files <==> id in d'.files) && (id in d.logs <==> id in d'.logs)
    && (id in d.files ==> d'.files[id] == d.files[id])
    && (id in d.logs ==> d'.logs[id] == d.logs[id])
  }

  lemma SameFilesSame(d: Disk, d': Disk, id: Id)
    requires SameFiles(d, d', id)
    ensures id in OnDisk(d) <==> id in OnDisk(d')
    ensures FileOf(d', id) == FileOf(d, id) && LogOf(d', id) == LogOf(d, id) && EndOf(d', id) == EndOf(d, id)
    ensures FilesSound(d, id) <==> FilesSound(d', id)
    ensures forall b: BlockState :: b.id == id ==> (BlockSound(b, d) <==> BlockSound(b, d'))
    ensures forall b: BlockState, k :: b.id == id ==> BlockAt(b, d, k) == BlockAt(b, d', k)
    ensures forall k :: DiskAt(d, id, k) == DiskAt(d', id, k)
  {
    hide Less, AbsorbAll, StreamsAt, MaxVariable;
  }

  lemma EndExtends(e: Key, keys: set<Key>, more: set<Key>)
    requires IsEnd(e, keys) && forall k :: k in more ==> AtMost(k, e)
    ensures IsEnd(e, keys + more)
  {
    if keys == {} && more != {} {
      var k :| k in more;
      assert k == e;
    }
  }

  /** Every key of a sound block is at most its end key. */
  lemma KeysAtMostEnd(s: State, e: Key)
    requires Sound(s) && e in s.blocks
    ensures forall k :: k in BlockKeys(s.blocks[e]) ==> AtMost(k, e)
  {
    hide Less, AbsorbAll;
    assert s.blocks[e].id in OnDisk(s.disk) ==> FilesSound(s.disk, s.blocks[e].id);
    BlockMirrorsKeys(s.blocks[e], s.disk);
  }

  // ---------- flush ----------

  lemma FlushedBlockAt(b: BlockState, d: Disk, d': Disk, k: Key)
    requires FileOf(d', b.id) == FileOf(d, b.id)
    ensures BlockAt(FlushBlock(b), d', k) == BlockAt(b, d, k)
    ensures BlockKeys(FlushBlock(b)) == BlockKeys(b)
  {
    AbsorbAllAt(b.logStreams, b.newStreams, k);
    AbsorbAllKeys(b.logStreams, b.newStreams);
  }

  lemma FlushedBlockSound(b: BlockState, d: Disk, d': Disk)
    requires BlockSound(b, d) && (b.id in OnDisk(d) ==> FilesSound(d, b.id))
    requires d'.files == d.files && LogOf(d', b.id) == LogOf(d, b.id) + b.newStreams
    requires b.id in d'.logs <==> b.id in d.logs || b.newStreams != []
    ensures BlockSound(FlushBlock(b), d') && b.id in OnDisk(d') && FilesSound(d', b.id)
  {
    hide Less, AbsorbAll, MaxVariable;
    var id, e := b.id, b.endKey;
    AbsorbAllConcat(map[], LogOf(d, id), b.newStreams);
    VariablesConcat(LogOf(d, id), b.newStreams);
    assert DiskKeys(d', id) == DiskKeys(d, id) + Variables(b.newStreams);
    if id in OnDisk(d) {
      EndExtends(e, DiskKeys(d, id), Variables(b.newStreams));
    } else {
      assert DiskKeys(d', id) == Variables(b.newStreams);
    }
    assert IsEnd(e, DiskKeys(d', id));
    if id !in d.files {
      assert DiskKeys(d', id) == Variables(LogOf(d', id));
      MaxVariableIsEnd(LogOf(d', id));
      IsEndUnique(e, EndOf(d', id), DiskKeys(d', id));
    }
  }

  lemma FlushKeepsSound(s: State, s': State)
    requires Sound(s) && FlushStep(s, s')
    ensures Sound(s') && Flushed(s')
  {
    hide Less, AbsorbAll, BlockSound, FilesSound;
    forall e | e in s.blocks
      ensures BlockSound(s'.blocks[e], s'.disk) && FilesSound(s'.disk, s.blocks[e].id)
    {
      FlushedBlockSound(s.blocks[e], s.disk, s'.disk);
    }
    OwnersKept(s, s');
    forall id | id in OnDisk(s'.disk) ensures Owned(s', id) {
      if id !in OnDisk(s.disk) {
        var e :| e in s.blocks && s.blocks[e].id == id;
        assert s'.blocks[e].id == id;
      }
    }
  }

  lemma FlushKeepsRouted(s: State, s': State)
    requires Routed(s) && FlushStep(s, s')
    ensures Routed(s')
  {
    hide Less, AbsorbAll;
    forall e | e in s.blocks ensures BlockKeys(s'.blocks[e]) == BlockKeys(s.blocks[e]) {
      FlushedBlockAt(s.blocks[e], s.disk, s'.disk, []);
    }
  }

  /** A flush moves values; it changes none. */
  lemma FlushConserves(s: State, s': State, k: Key)
    requires FlushStep(s, s')
    ensures StoreAt(s', k) == StoreAt(s, k)
  {
    hide Less, AbsorbAll, Sum, BlockAt, StreamsAt;
    assert s'.blocks.Keys == s.blocks.Keys;
    forall e | e in s.blocks ensures BlockValues(s, k)(e) == BlockValues(s', k)(e) {
      FlushedBlockAt(s.blocks[e], s.disk, s'.disk, k);
    }
    SumSame(s.blocks.Keys, BlockValues(s, k), BlockValues(s', k));
  }

  // ---------- compaction ----------

  function CompactedBlock(b: BlockState, keys: set<Key>): BlockState {
    b.(index := keys, logStreams := map[])
  }

  /** What a compaction touches: the block, its file and its log. */
  lemma CompactEffect(s: State, s': State, e: Key)
    requires IdsDistinct(s) && e in s.blocks && CompactStep(s, s', e)
    ensures s'.blocks.Keys == s.blocks.Keys
    ensures s'.blocks[e] == CompactedBlock(s.blocks[e], Merged(s.blocks[e], s.disk).Keys)
    ensures s.blocks[e].id in s'.disk.files && s.blocks[e].id !in s'.disk.logs
    ensures IsWritten(s'.disk.files[s.blocks[e].id], Merged(s.blocks[e], s.disk))
    ensures forall f :: f in s.blocks && f != e ==> s'.blocks[f] == s.blocks[f] && s.blocks[f].id != s.blocks[e].id
    ensures forall id :: id != s.blocks[e].id ==> SameFiles(s.disk, s'.disk, id)
  {
    hide IsWritten, Merged;
  }

  lemma CompactedBlockAt(b: BlockState, d: Disk, d': Disk, k: Key)
    requires b.id in d'.files && IsWritten(d'.files[b.id], Merged(b, d))
    ensures BlockAt(CompactedBlock(b, Merged(b, d).Keys), d', k) == BlockAt(b, d, k)
  {
    MergedAt(b, d, k);
    EmptyMapAt(k);
  }

  /** A compaction changes how values are stored and nothing about which are. */
  lemma CompactConserves(s: State, s': State, e: Key, k: Key)
    requires IdsDistinct(s) && e in s.blocks && CompactStep(s, s', e)
    ensures StoreAt(s', k) == StoreAt(s, k)
  {
    CompactEffect(s, s', e);
    hide Less, AbsorbAll, Merged, IsWritten, CompactStep, BlockAt, Sum, CompactedBlock;
    forall f | f in s.blocks ensures BlockValues(s, k)(f) == BlockValues(s', k)(f) {
      if f == e {
        CompactedBlockAt(s.blocks[e], s.disk, s'.disk, k);
      } else {
        SameFilesSame(s.disk, s'.disk, s.blocks[f].id);
      }
    }
    SumSame(s.blocks.Keys, BlockValues(s, k), BlockValues(s', k));
  }

  /** On disk already, or with the empty string for end key, which is what a file without streams gets. */
  ghost predicate Compactable(b: BlockState, d: Disk) {
    b.id in OnDisk(d) || b.endKey == []
  }

  lemma UnflushedFiles(b: BlockState, d: Disk)
    requires b.id !in OnDisk(d)
    ensures FilesSound(d, b.id) && DiskKeys(d, b.id) == {} && EndOf(d, b.id) == []
  {
    assert FileOf(d, b.id) == [] && LogOf(d, b.id) == [] && Variables([]) == {};
  }

  lemma CompactedFileSound(b: BlockState, d: Disk, d': Disk)
    requires BlockSound(b, d) && FilesSound(d, b.id) && Compactable(b, d)
    requires b.id in d'.files && IsWritten(d'.files[b.id], Merged(b, d)) && b.id !in d'.logs
    ensures FilesSound(d', b.id) && EndOf(d', b.id) == b.endKey
    ensures DiskKeys(d', b.id) == Merged(b, d).Keys == DiskKeys(d, b.id)
  {
    hide Less, StreamsAt, AbsorbAll;
    var m := Merged(b, d);
    BlockMirrorsKeys(b, d);
    forall k | k in m ensures m[k] != [] {
      MergedValues(b, d, k);
    }
    WrittenFileSound(d'.files[b.id], m, d', b.id);
    assert IsEnd(b.endKey, m.Keys) by {
      if b.id !in OnDisk(d) {
        UnflushedFiles(b, d);
      }
    }
    IsEndUnique(b.endKey, d'.files[b.id].endKey, m.Keys);
  }

  /** A block kept in its file alone is sound when its index lists the file and its end key is the file's. */
  lemma FiledBlockSound(b: BlockState, d: Disk)
    requires b.id in d.files && b.id !in d.logs && b.logStreams == map[]
    requires b.index == Variables(d.files[b.id].streams) && d.files[b.id].endKey == b.endKey
    requires NonEmptyStreams(b.newStreams) && forall k :: k in Variables(b.newStreams) ==> AtMost(k, b.endKey)
    ensures BlockSound(b, d)
  {
    hide Less;
    assert LogOf(d, b.id) == [];
  }

  lemma CompactedBlockSound(b: BlockState, d: Disk, d': Disk)
    requires BlockSound(b, d) && FilesSound(d, b.id) && Compactable(b, d)
    requires b.id in d'.files && IsWritten(d'.files[b.id], Merged(b, d)) && b.id !in d'.logs
    ensures BlockSound(CompactedBlock(b, Merged(b, d).Keys), d')
  {
    CompactedFileSound(b, d, d');
    FiledBlockSound(CompactedBlock(b, Merged(b, d).Keys), d');
  }

  lemma CompactedBlockKeys(b: BlockState, d: Disk)
    requires BlockSound(b, d)
    ensures BlockKeys(CompactedBlock(b, Merged(b, d).Keys)) == BlockKeys(b)
  {
    BlockMirrorsKeys(b, d);
  }

  /** Blocks whose files did not change stay sound. */
  lemma OthersSound(s: State, s': State, e: Key)
    requires Sound(s) && e in s.blocks
    requires forall f :: f in s.blocks && f != e ==> f in s'.blocks && s'.blocks[f] == s.blocks[f]
    requires forall id :: id in OnDisk(s.disk) + OnDisk(s'.disk) && id != s.blocks[e].id ==> SameFiles(s.disk, s'.disk, id)
    ensures forall f :: f in s.blocks && f != e ==> BlockSound(s'.blocks[f], s'.disk)
    ensures forall id :: id in OnDisk(s'.disk) && id != s.blocks[e].id ==> id in OnDisk(s.disk) && FilesSound(s'.disk, id)
  {
    hide Less, AbsorbAll, BlockSound, FilesSound;
    forall f | f in s.blocks && f != e ensures BlockSound(s'.blocks[f], s'.disk) {
      assert SameFiles(s.disk, s'.disk, s.blocks[f].id);
      SameFilesSame(s.disk, s'.disk, s.blocks[f].id);
    }
    forall id | id in OnDisk(s'.disk) && id != s.blocks[e].id ensures id in OnDisk(s.disk) && FilesSound(s'.disk, id) {
      SameFilesSame(s.disk, s'.disk, id);
    }
  }

  lemma FilesSoundAnyway(s: State, e: Key)
    requires Sound(s) && e in s.blocks
    ensures FilesSound(s.disk, s.blocks[e].id)
  {
    hide FilesSound, BlockSound;
    if s.blocks[e].id !in OnDisk(s.disk) {
      UnflushedFiles(s.blocks[e], s.disk);
    }
  }

  lemma CompactBlocksSound(s: State, s': State, e: Key)
    requires Sound(s) && e in s.blocks && Compactable(s.blocks[e], s.disk) && CompactStep(s, s', e)
    ensures BlocksSound(s')
  {
    var b := s.blocks[e];
    hide Less, Merged, IsWritten, BlockSound, FilesSound, CompactStep, SameFiles;
    assert s'.blocks.Keys == s.blocks.Keys by { CompactEffect(s, s', e); }
    assert BlockSound(s'.blocks[e], s'.disk) && s'.blocks[e].endKey == e by {
      CompactEffect(s, s', e);
      FilesSoundAnyway(s, e);
      CompactedBlockSound(b, s.disk, s'.disk);
    }
    forall f | f in s.blocks && f != e ensures BlockSound(s'.blocks[f], s'.disk) && s'.blocks[f].endKey == f {
      CompactEffect(s, s', e);
      OthersSound(s, s', e);
    }
  }

  lemma CompactFilesOwned(s: State, s': State, e: Key)
    requires Sound(s) && e in s.blocks && Compactable(s.blocks[e], s.disk) && CompactStep(s, s', e)
    ensures FilesOwned(s')
  {
    hide Less, Merged, IsWritten, BlockSound, FilesSound, SameFiles, CompactStep, Owned, OnDisk, Tables;
    var b := s.blocks[e];
    CompactEffect(s, s', e);
    FilesSoundAnyway(s, e);
    CompactedFileSound(b, s.disk, s'.disk);
    OwnersKept(s, s');
    OthersSound(s, s', e);
    OwnedBy(s, e);
    forall id | id in OnDisk(s'.disk) ensures FilesSound(s'.disk, id) && Owned(s', id) {
    }
  }

  lemma OwnedBy(s: State, e: Key)
    requires e in s.blocks
    ensures Owned(s, s.blocks[e].id)
  {
  }

  /** Compacting a block that has reached the disk keeps the invariant. */
  lemma CompactKeepsSound(s: State, s': State, e: Key)
    requires Sound(s) && e in s.blocks && Compactable(s.blocks[e], s.disk) && CompactStep(s, s', e)
    ensures Sound(s')
  {
    CompactTemps(s, s', e);
    CompactBlocksSound(s, s', e);
    CompactFilesOwned(s, s', e);
    hide BlocksSound, FilesOwned, CompactStep, IdsDistinct, Tables;
  }

  lemma CompactTemps(s: State, s': State, e: Key)
    requires Sound(s) && e in s.blocks && CompactStep(s, s', e)
    ensures Tables(s') && IdsDistinct(s') && s'.pid == s.pid && s'.disk.temps == s.disk.temps
  {
    hide Less, Merged, IsWritten, BlocksSound, FilesOwned;
    assert forall f :: f in s.blocks ==> f in s'.blocks && s'.blocks[f].id == s.blocks[f].id;
  }

  lemma CompactKeepsRouted(s: State, s': State, e: Key)
    requires Inv(s) && e in s.blocks && CompactStep(s, s', e)
    ensures Routed(s')
  {
    CompactEffect(s, s', e);
    CompactedBlockKeys(s.blocks[e], s.disk);
    hide Less, AbsorbAll, BlockSound, FilesSound, Merged, IsWritten, BlockKeys;
    assert forall f :: f in s.blocks ==> BlockKeys(s'.blocks[f]) == BlockKeys(s.blocks[f]);
  }

  /** The exact guard of a compaction: a block that has never been flushed gets a file whose header lacks its end key,
      unless that end key is the empty string anyway. */
  lemma CompactKeepsSoundIff(s: State, s': State, e: Key)
    requires Sound(s) && e in s.blocks && CompactStep(s, s', e)
    ensures Sound(s') <==> Compactable(s.blocks[e], s.disk)
  {
    hide Less, AbsorbAll, Merged, IsWritten, MaxVariable, FilesSound;
    if Compactable(s.blocks[e], s.disk) {
      CompactKeepsSound(s, s', e);
    } else {
      NeverFlushedEnd(s, s', e);
      assert BlockSound(s'.blocks[e], s'.disk) ==> EndOf(s'.disk, s'.blocks[e].id) == e;
    }
  }

  lemma NeverFlushedEnd(s: State, s': State, e: Key)
    requires Sound(s) && e in s.blocks && CompactStep(s, s', e) && s.blocks[e].id !in OnDisk(s.disk)
    ensures e in s'.blocks && s'.blocks[e].endKey == e && s'.blocks[e].id in s'.disk.files
    ensures s'.disk.files[s'.blocks[e].id].endKey == []
  {
    hide Less, FilesOwned, StreamsAt;
    assert BlockSound(s.blocks[e], s.disk);
    BlockMirrorsKeys(s.blocks[e], s.disk);
    UnflushedFiles(s.blocks[e], s.disk);
  }
}
