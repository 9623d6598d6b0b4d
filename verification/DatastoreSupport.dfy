/** How the partial results of the datastore's methods add up to the steps of the model. */
module DatastoreSupport {
  import opened ByteStrings
  import opened DatastoreModel
  import opened DatastoreSteps
  import opened DatastoreProofs
  import opened DatastoreSplit
  import opened DatastoreCrash

  ghost function SplitBlocks(s: State, e: Key, uuid: Id, m: Key): map<Key, BlockState>
    requires e in s.blocks
  {
    var all := Merged(s.blocks[e], s.disk);
    s.blocks[e := CompactedBlock(s.blocks[e], After(all, m).Keys)][m := BlockState(m, uuid, UpTo(all, m).Keys, map[], [])]
  }

  /** The stages of writing the two halves: neither file yet (unless done), the left one, both. */
  ghost predicate HalvesWritten(id: Id, uuid: Id, all: Streams, m: Key, d: Disk, d': Disk, done: bool) {
    && d'.logs == d.logs
    && (|| (!done && d'.files == d.files)
        || (!done && uuid in d'.files && IsWritten(d'.files[uuid], UpTo(all, m)) && d'.files == d.files[uuid := d'.files[uuid]])
        || (uuid in d'.files && id in d'.files && IsWritten(d'.files[uuid], UpTo(all, m)) && IsWritten(d'.files[id], After(all, m))
            && d'.files == d.files[uuid := d'.files[uuid]][id := d'.files[id]]))
  }

  ghost predicate SplitFiles(s: State, e: Key, uuid: Id, m: Key, d: Disk, done: bool)
    requires e in s.blocks
  {
    HalvesWritten(s.blocks[e].id, uuid, Merged(s.blocks[e], s.disk), m, s.disk, d, done)
  }

  /** What holds before a split starts. */
  lemma SplitReady(s: State, e: Key, uuid: Id, m: Key)
    requires Sound(s) && e in s.blocks && FreshId(s, uuid) && IsSplitKey(BlockKeys(s.blocks[e]), m)
    ensures m != e && uuid != s.blocks[e].id && NoOwnTemps(s) && Tables(s) && IdsDistinct(s)
  {
    hide Less, BlocksSound, FilesOwned, IsSplitKey, BlockKeys;
    SplitKeyBelowEnd(s, e, m);
    LessIrreflexive(e);
    assert Owned(s, s.blocks[e].id);
  }

  /** Compaction leaves every value where it was: same variables, same values for each. */
  lemma CompactedMerged(s: State, s1: State, e: Key)
    requires IdsDistinct(s) && e in s.blocks && CompactStep(s, s1, e)
    ensures e in s1.blocks && Merged(s1.blocks[e], s1.disk).Keys == Merged(s.blocks[e], s.disk).Keys
    ensures forall k :: MapAt(Merged(s1.blocks[e], s1.disk), k) == MapAt(Merged(s.blocks[e], s.disk), k)
  {
    hide Less, AbsorbAll, IsEnd, SortedByTime, SameFiles;
    var b, b1 := s.blocks[e], s1.blocks[e];
    CompactEffect(s, s1, e);
    MergedKeys(b1, s1.disk);
    hide Merged, CompactStep;
    forall k ensures MapAt(Merged(b1, s1.disk), k) == MapAt(Merged(b, s.disk), k) {
      MergedAt(b1, s1.disk, k);
      EmptyMapAt(k);
    }
  }

  lemma CompactedReady(s: State, s1: State, e: Key, uuid: Id)
    requires Sound(s) && e in s.blocks && CompactStep(s, s1, e)
    ensures e in s1.blocks && s1.blocks[e].logStreams == map[] && s1.blocks[e].id == s.blocks[e].id
    ensures forall k :: k in Merged(s1.blocks[e], s1.disk) ==> Merged(s1.blocks[e], s1.disk)[k] != []
    ensures Tables(s1) && s1.pid == s.pid && forall id :: TempName(id, s1.pid) !in s1.disk.temps
  {
    hide Less, Merged, IsWritten, BlocksSound, FilesOwned;
    CompactedMerged(s, s1, e);
    MergedNonEmpty(s, e);
    var all, all1 := Merged(s.blocks[e], s.disk), Merged(s1.blocks[e], s1.disk);
    forall k | k in all1 ensures all1[k] != [] {
      assert all[k][0] in MapAt(all, k);
      assert MapAt(all1, k) == multiset(all1[k]);
    }
  }

  /** A written file does not depend on the order of the values it was given. */
  lemma WrittenEither(f: BlockFile, a: Streams, b: Streams)
    requires IsWritten(f, a) && a.Keys == b.Keys && forall k :: MapAt(a, k) == MapAt(b, k)
    ensures IsWritten(f, b)
  {
    assert |a| == |a.Keys| && |b| == |b.Keys|;
  }

  lemma HalvesEither(a: Streams, b: Streams, m: Key)
    requires a.Keys == b.Keys && forall k :: MapAt(a, k) == MapAt(b, k)
    ensures UpTo(a, m).Keys == UpTo(b, m).Keys && forall k :: MapAt(UpTo(a, m), k) == MapAt(UpTo(b, m), k)
    ensures After(a, m).Keys == After(b, m).Keys && forall k :: MapAt(After(a, m), k) == MapAt(After(b, m), k)
  {
    hide Less;
    forall k ensures MapAt(UpTo(a, m), k) == MapAt(UpTo(b, m), k) && MapAt(After(a, m), k) == MapAt(After(b, m), k) {
      assert MapAt(a, k) == MapAt(b, k);
    }
  }

  lemma SplitFrom(s: State, s1: State, s': State, e: Key, uuid: Id, m: Key)
    requires IdsDistinct(s) && e in s.blocks && IsSplitKey(BlockKeys(s.blocks[e]), m) && uuid != s.blocks[e].id && m != e
    requires CompactStep(s, s1, e) && s'.pid == s.pid && Tables(s')
    requires e in s1.blocks && s'.blocks == SplitBlocks(s1, e, uuid, m) && SplitFiles(s1, e, uuid, m, s'.disk, true)
    requires s'.disk.temps == s1.disk.temps
    ensures SplitStep(s, s', e, uuid, m)
  {
    hide Less, IsSplitKey, BlockKeys, Merged, IsWritten, UpTo, After, Tables, SameFiles;
    var all1, all := Merged(s1.blocks[e], s1.disk), Merged(s.blocks[e], s.disk);
    CompactedMerged(s, s1, e);
    SplitWritten(all1, all, m, s'.disk, uuid, s.blocks[e].id);
    assert s'.disk.files == s.disk.files[s.blocks[e].id := s'.disk.files[s.blocks[e].id]][uuid := s'.disk.files[uuid]];
  }

  lemma SplitWritten(a: Streams, b: Streams, m: Key, d: Disk, uuid: Id, id: Id)
    requires a.Keys == b.Keys && forall k :: MapAt(a, k) == MapAt(b, k)
    ensures UpTo(a, m).Keys == UpTo(b, m).Keys && After(a, m).Keys == After(b, m).Keys
    ensures uuid in d.files && IsWritten(d.files[uuid], UpTo(a, m)) ==> IsWritten(d.files[uuid], UpTo(b, m))
    ensures id in d.files && IsWritten(d.files[id], After(a, m)) ==> IsWritten(d.files[id], After(b, m))
  {
    hide Less, IsWritten, UpTo, After;
    HalvesEither(a, b, m);
    if uuid in d.files && IsWritten(d.files[uuid], UpTo(a, m)) {
      WrittenEither(d.files[uuid], UpTo(a, m), UpTo(b, m));
    }
    if id in d.files && IsWritten(d.files[id], After(a, m)) {
      WrittenEither(d.files[id], After(a, m), After(b, m));
    }
  }

  lemma SplitCrashFrom(s: State, s1: State, e: Key, uuid: Id, m: Key, d: Disk)
    requires IdsDistinct(s) && e in s.blocks && uuid != s.blocks[e].id
    requires CompactStep(s, s1, e) && e in s1.blocks && SplitFiles(s1, e, uuid, m, d, false)
    ensures SplitCrash(s, e, uuid, m, d)
  {
    hide Less, Merged, IsWritten, UpTo, After, SameFiles;
    var b := s.blocks[e];
    CompactedMerged(s, s1, e);
    SplitWritten(Merged(s1.blocks[e], s1.disk), Merged(b, s.disk), m, d, uuid, b.id);
    if d.files == s1.disk.files {
      assert CompactCrash(s, e, d);
    } else if uuid in d.files && d.files == s1.disk.files[uuid := d.files[uuid]] {
      assert MidSplit(s, e, uuid, m, d);
    } else {
      assert SplitDone(s, e, uuid, m, d);
    }
  }

  lemma {:induction false} SameSize(sorted: seq<Key>, keys: set<Key>)
    requires Increasing(sorted) && Elements(sorted) == keys
    ensures |sorted| == |keys|
    decreases |sorted|
  {
    hide Less;
    if sorted != [] {
      var n := |sorted| - 1;
      LessIrreflexive(sorted[n]);
      assert sorted == sorted[..n] + [sorted[n]];
      assert Elements(sorted) == Elements(sorted[..n]) + {sorted[n]};
      assert forall j :: 0 <= j < n ==> Less(sorted[j], sorted[n]);
      SameSize(sorted[..n], Elements(sorted[..n]));
    }
  }

  lemma AtMostInSorted(sorted: seq<Key>, i: nat)
    requires Increasing(sorted) && i < |sorted|
    ensures (set k | k in Elements(sorted) && AtMost(k, sorted[i])) == Elements(sorted[..i + 1])
  {
    Order();
    hide Less;
    forall k | k in Elements(sorted) ensures AtMost(k, sorted[i]) <==> k in Elements(sorted[..i + 1]) {
      var j :| 0 <= j < |sorted| && sorted[j] == k;
      assert j <= i ==> k in sorted[..i + 1];
      assert j > i ==> Less(sorted[i], k);
      assert j > i ==> !AtMost(k, sorted[i]);
      assert j > i ==> forall l :: 0 <= l <= i ==> sorted[l] != k;
    }
  }

  /** Half of the block's keys, rounded down, are at or below the split key: the lower half and nothing else. */
  lemma SplitKeyHalves(keys: set<Key>, m: Key)
    requires IsSplitKey(keys, m)
    ensures m in keys && |set k | k in keys && AtMost(k, m)| == |keys| / 2
  {
    hide Less, AtMost;
    var sorted: seq<Key> :| Increasing(sorted) && Elements(sorted) == keys && |sorted| >= 2 && m == sorted[|sorted| / 2 - 1];
    var half := |sorted| / 2;
    SameSize(sorted, keys);
    AtMostInSorted(sorted, half - 1);
    SameSize(sorted[..half], Elements(sorted[..half]));
    assert m in sorted;
  }

  lemma CompactedInPlace(s: State, s': State, e: Key)
    requires e in s.blocks && s.blocks[e].id in s'.disk.files
    requires IsWritten(s'.disk.files[s.blocks[e].id], Merged(s.blocks[e], s.disk))
    requires s' == s.(disk := Compacted(s.disk, s.blocks[e].id, s'.disk.files[s.blocks[e].id]),
      blocks := s.blocks[e := CompactedBlock(s.blocks[e], Merged(s.blocks[e], s.disk).Keys)])
    ensures CompactStep(s, s', e)
  {
    hide IsWritten, Merged;
  }

  lemma MergedNonEmpty(s: State, e: Key)
    requires Sound(s) && e in s.blocks
    ensures forall k :: k in Merged(s.blocks[e], s.disk) ==> Merged(s.blocks[e], s.disk)[k] != []
  {
    hide BlockSound, FilesSound, Merged;
    FilesSoundAnyway(s, e);
    forall k | k in Merged(s.blocks[e], s.disk) ensures Merged(s.blocks[e], s.disk)[k] != [] {
      MergedValues(s.blocks[e], s.disk, k);
    }
  }

  /** The directory after n of a block's unflushed streams have been appended to its log. */
  ghost function LogPart(d: Disk, id: Id, streams: seq<Stream>, n: nat): Disk
    requires n <= |streams|
  {
    d.(logs := d.logs[id := LogOf(d, id) + streams[..n]])
  }

  ghost predicate SomeLogPart(d: Disk, d': Disk, id: Id, streams: seq<Stream>) {
    exists n | 0 <= n <= |streams| :: d' == LogPart(d, id, streams, n)
  }

  lemma LogPartStarts(d: Disk, id: Id, streams: seq<Stream>)
    ensures LogPart(d, id, streams, 0) == d.(logs := d.logs[id := LogOf(d, id)])
    ensures SomeLogPart(d, LogPart(d, id, streams, 0), id, streams)
  {
    assert LogOf(d, id) + streams[..0] == LogOf(d, id);
  }

  lemma LogPartGrows(d: Disk, id: Id, streams: seq<Stream>, n: nat)
    requires n < |streams|
    ensures id in LogPart(d, id, streams, n).logs
    ensures LogPart(d, id, streams, n + 1) ==
      LogPart(d, id, streams, n).(logs := LogPart(d, id, streams, n).logs[id := LogPart(d, id, streams, n).logs[id] + [streams[n]]])
    ensures SomeLogPart(d, LogPart(d, id, streams, n + 1), id, streams)
  {
    assert streams[..n + 1] == streams[..n] + [streams[n]];
    assert LogOf(d, id) + streams[..n] + [streams[n]] == LogOf(d, id) + streams[..n + 1];
  }

  lemma AbsorbedNone(m: Streams, streams: seq<Stream>)
    ensures AbsorbAll(m, streams[..0]) == m
  {
  }

  lemma AbsorbedOneMore(m: Streams, streams: seq<Stream>, n: nat)
    requires n < |streams|
    ensures AbsorbAll(m, streams[..n + 1]) == Absorb(AbsorbAll(m, streams[..n]), streams[n])
  {
    assert streams[..n + 1][..n] == streams[..n];
  }

  ghost function AfterFlushing(s: State, e: Key): State
    requires e in s.blocks
  {
    s.(blocks := s.blocks[e := FlushBlock(s.blocks[e])],
       disk := LogPart(s.disk, s.blocks[e].id, s.blocks[e].newStreams, |s.blocks[e].newStreams|))
  }

  ghost predicate LogHas(s: State, d: Disk, left: set<Key>, e: Key)
    requires e in s.blocks
  {
    LogOf(d, s.blocks[e].id) == LogOf(s.disk, s.blocks[e].id) + if e in left then [] else s.blocks[e].newStreams
  }

  /** Which logs there are once all blocks but those of `left` have been flushed. */
  ghost predicate LogNames(s: State, d: Disk, left: set<Key>) {
    forall id :: id in d.logs <==>
      id in s.disk.logs || exists e :: e in s.blocks && e !in left && s.blocks[e].id == id && s.blocks[e].newStreams != []
  }

  /** Flushed, except for the blocks of `left`. */
  ghost predicate PartlyFlushed(s: State, s': State, left: set<Key>) {
    && s'.blockKeys == s.blockKeys && s'.pid == s.pid && s'.blocks.Keys == s.blocks.Keys
    && s'.disk.files == s.disk.files && s'.disk.temps == s.disk.temps
    && (forall e :: e in s.blocks ==> s'.blocks[e] == if e in left then s.blocks[e] else FlushBlock(s.blocks[e]))
    && (forall e :: e in s.blocks ==> LogHas(s, s'.disk, left, e))
    && LogNames(s, s'.disk, left)
    && (forall id :: id in s.disk.logs && !Owned(s, id) ==> s'.disk.logs[id] == s.disk.logs[id])
  }

  lemma NothingFlushed(s: State)
    ensures PartlyFlushed(s, s, s.blocks.Keys)
  {
  }

  lemma FlushedNothing(s: State, s1: State, left: set<Key>, e: Key)
    requires PartlyFlushed(s, s1, left) && e in left && left <= s.blocks.Keys && s1.blocks[e].newStreams == []
    ensures PartlyFlushed(s, s1, left - {e})
  {
    assert FlushBlock(s.blocks[e]) == s.blocks[e];
  }

  lemma FlushedAll(s: State, s': State)
    requires PartlyFlushed(s, s', {})
    ensures FlushStep(s, s')
  {
  }

  lemma FlushedOneMore(s: State, s1: State, left: set<Key>, e: Key)
    requires Sound(s) && PartlyFlushed(s, s1, left) && e in left && left <= s.blocks.Keys && s1.blocks[e].newStreams != []
    ensures PartlyFlushed(s, AfterFlushing(s1, e), left - {e})
    ensures forall d :: SomeLogPart(s1.disk, d, s1.blocks[e].id, s1.blocks[e].newStreams) ==> FlushCrash(s, d)
  {
    hide Less, AbsorbAll, Sound, FlushCrash, LogPart;
    BlockFlushed(s, s1, left, e);
    forall n | 0 <= n <= |s1.blocks[e].newStreams|
      ensures FlushCrash(s, LogPart(s1.disk, s1.blocks[e].id, s1.blocks[e].newStreams, n)) {
      PartialFlush(s, s1, left, e, n);
    }
  }

  lemma BlockFlushed(s: State, s1: State, left: set<Key>, e: Key)
    requires Sound(s) && PartlyFlushed(s, s1, left) && e in left && left <= s.blocks.Keys && s1.blocks[e].newStreams != []
    ensures PartlyFlushed(s, AfterFlushing(s1, e), left - {e})
  {
    hide Sound, LogNames, LogHas, FlushBlock, Owned;
    var s2 := AfterFlushing(s1, e);
    assert LogNames(s, s2.disk, left - {e}) by {
      SoundTables(s);
      NamesFlushed(s, s1, left, e);
    }
    forall f | f in s.blocks ensures LogHas(s, s2.disk, left - {e}, f) {
      LogsFlushed(s, s1, left, e, f);
    }
    LogsStay(s, s1.disk, left);
    forall id | id in s.disk.logs && !Owned(s, id) ensures s2.disk.logs[id] == s1.disk.logs[id] {
      BlockOwnsFiles(s, e);
    }
  }

  lemma LogsStay(s: State, d: Disk, left: set<Key>)
    requires LogNames(s, d, left)
    ensures forall id :: id in s.disk.logs ==> id in d.logs
  {
  }

  lemma BlockOwnsFiles(s: State, e: Key)
    requires e in s.blocks
    ensures Owned(s, s.blocks[e].id)
  {
  }

  lemma LogsFlushed(s: State, s1: State, left: set<Key>, e: Key, f: Key)
    requires Sound(s) && PartlyFlushed(s, s1, left) && e in left && left <= s.blocks.Keys && f in s.blocks
    ensures LogHas(s, AfterFlushing(s1, e).disk, left - {e}, f)
  {
    hide Less, AbsorbAll, BlocksSound, FilesOwned, LogNames, FlushBlock;
    var b := s.blocks[e];
    assert b.newStreams[..|b.newStreams|] == b.newStreams;
    assert LogHas(s, s1.disk, left, f) && LogHas(s, s1.disk, left, e);
    assert LogOf(s.disk, b.id) + [] == LogOf(s.disk, b.id);
  }

  lemma NamesFlushed(s: State, s1: State, left: set<Key>, e: Key)
    requires IdsDistinct(s) && LogNames(s, s1.disk, left) && e in left && e in s.blocks && e in s1.blocks
    requires s1.blocks[e] == s.blocks[e] && s.blocks[e].newStreams != []
    ensures LogNames(s, AfterFlushing(s1, e).disk, left - {e})
  {
    var b := s.blocks[e];
    forall id ensures id in s1.disk.logs || id == b.id <==>
      id in s.disk.logs || exists f :: f in s.blocks && f !in left - {e} && s.blocks[f].id == id && s.blocks[f].newStreams != []
    {
      if id == b.id {
        assert e !in left - {e};
      }
    }
  }

  lemma PartialFlush(s: State, s1: State, left: set<Key>, e: Key, n: nat)
    requires Sound(s) && PartlyFlushed(s, s1, left) && e in left && left <= s.blocks.Keys && n <= |s1.blocks[e].newStreams|
    ensures FlushCrash(s, LogPart(s1.disk, s1.blocks[e].id, s1.blocks[e].newStreams, n))
  {
    hide Sound, LogGrew, LogHas, LogNames, FlushBlock, Owned;
    var d := LogPart(s1.disk, s1.blocks[e].id, s1.blocks[e].newStreams, n);
    SoundTables(s);
    forall f | f in s.blocks ensures LogGrew(s.blocks[f], s.disk, d) {
      PartGrew(s, s1, left, e, n, f);
    }
    NamesOwned(s, s1.disk, left);
    LogsStay(s, s1.disk, left);
    BlockOwnsFiles(s, e);
  }

  lemma NamesOwned(s: State, d: Disk, left: set<Key>)
    requires LogNames(s, d, left)
    ensures forall id :: id in d.logs ==> id in s.disk.logs || Owned(s, id)
  {
  }

  lemma PartGrew(s: State, s1: State, left: set<Key>, e: Key, n: nat, f: Key)
    requires IdsDistinct(s) && PartlyFlushed(s, s1, left) && e in left && left <= s.blocks.Keys && n <= |s1.blocks[e].newStreams|
    requires f in s.blocks
    ensures LogGrew(s.blocks[f], s.disk, LogPart(s1.disk, s1.blocks[e].id, s1.blocks[e].newStreams, n))
  {
    hide LogNames, FlushBlock, Owned;
    var b := s.blocks[f];
    var d := LogPart(s1.disk, s1.blocks[e].id, s1.blocks[e].newStreams, n);
    var m := if f == e then n else if f in left then 0 else |b.newStreams|;
    assert b.newStreams[..|b.newStreams|] == b.newStreams && b.newStreams[..0] == [];
    assert LogHas(s, s1.disk, left, f);
    assert LogOf(d, b.id) == LogOf(s.disk, b.id) + b.newStreams[..m];
  }

  /** Ids that no block has, no two the same. */
  ghost predicate FreshIds(s: State, ids: seq<Id>) {
    && (forall i :: 0 <= i < |ids| ==> FreshId(s, ids[i]))
    && forall i, j :: 0 <= i < j < |ids| ==> ids[i] != ids[j]
  }

  lemma NothingAt(streams: seq<Stream>)
    ensures forall k :: StreamsAt(streams[..0], k) == multiset{}
  {
  }

  lemma WroteFirst(s: State, s': State, st: Stream, ids: seq<Id>)
    requires Sound(s) && ids != [] && FreshIds(s, ids) && st.values != [] && WriteStep(s, s', st, ids[0])
    ensures Sound(s') && (Routed(s) ==> Routed(s')) && FreshIds(s', ids[1..])
  {
    hide Sound, Routed, WriteStep;
    assert FreshId(s, ids[0]);
    WriteKeepsSound(s, s', st, ids[0]);
    if Routed(s) {
      WriteKeepsRouted(s, s', st, ids[0]);
    }
    forall i | 0 <= i < |ids| - 1 ensures FreshId(s', ids[1..][i]) {
      assert FreshId(s, ids[i + 1]);
      WriteKeepsFresh(s, s', st, ids[0], ids[i + 1]);
    }
  }

  lemma WriteKeepsFresh(s: State, s': State, st: Stream, uuid: Id, id: Id)
    requires WriteStep(s, s', st, uuid) && FreshId(s, id) && id != uuid
    ensures FreshId(s', id)
  {
    hide Less, Tables;
    forall e | e in s'.blocks ensures s'.blocks[e].id != id {
      if f :| AppendTo(s, s', st, f) {
        BlockOwnsFiles(s, e);
      } else {
        assert StartBlock(s, s', st, uuid);
        if e != st.variable {
          BlockOwnsFiles(s, e);
        }
      }
    }
  }

  lemma Wrote(s: State, s1: State, s2: State, st: Stream, uuid: Id, e: Key)
    requires s1.disk == s.disk && s1.pid == s.pid && Tables(s1) && e in s1.blocks
    requires (exists f :: f in s.blocks && AtMost(st.variable, f)) ==> s1 == s && IsRoute(s, st.variable, e)
    requires !(exists f :: f in s.blocks && AtMost(st.variable, f)) ==>
      e == st.variable && s1.blocks == s.blocks[st.variable := BlockState(st.variable, uuid, {}, map[], [])]
    requires s2 == s1.(blocks := s1.blocks[e := s1.blocks[e].(newStreams := s1.blocks[e].newStreams + [st])])
    ensures WriteStep(s, s2, st, uuid)
  {
    hide Less, Increasing, Elements;
    if exists f :: f in s.blocks && AtMost(st.variable, f) {
      assert AppendTo(s, s2, st, e);
    } else {
      assert [] + [st] == [st];
      assert s2.blocks == s.blocks[st.variable := BlockState(st.variable, uuid, {}, map[], [st])];
      assert StartBlock(s, s2, st, uuid);
    }
  }

  /** A block read from its file, and from its log if that is among `logs`. */
  ghost function PartBlock(d: Disk, id: Id, logs: set<Id>): BlockState {
    BlockState(EndOf(d, id), id, Variables(FileOf(d, id)), if id in logs then AbsorbAll(map[], LogOf(d, id)) else map[], [])
  }

  /** The blocks are exactly those whose file is among `files` or whose log is among `logs`. */
  ghost predicate LoadedSoFar(d: Disk, files: set<Id>, logs: set<Id>, blocks: map<Key, BlockState>) {
    && (forall id :: id in files + logs ==> EndOf(d, id) in blocks && blocks[EndOf(d, id)] == PartBlock(d, id, logs))
    && (forall e :: e in blocks ==> blocks[e].id in files + logs && EndOf(d, blocks[e].id) == e)
  }

  lemma NoVariables()
    ensures Variables([]) == {}
  {
  }

  lemma NothingLoaded(d: Disk)
    ensures LoadedSoFar(d, d.files.Keys - d.files.Keys, {}, map[])
  {
  }

  lemma FileLoaded(d: Disk, files: set<Id>, id: Id, blocks: map<Key, BlockState>)
    requires files <= d.files.Keys && id in d.files && id !in files
    ensures DistinctEnds(d) && LoadedSoFar(d, files, {}, blocks) ==>
      LoadedSoFar(d, files + {id}, {}, blocks[EndOf(d, id) := PartBlock(d, id, {})])
  {
    hide EndOf;
    assert forall i :: i in files ==> i in OnDisk(d);
    assert id in OnDisk(d);
  }

  lemma LogLoaded(d: Disk, logs: set<Id>, id: Id, blocks: map<Key, BlockState>)
    requires logs <= d.logs.Keys && id in d.logs && id !in logs
    ensures DistinctEnds(d) && LoadedSoFar(d, d.files.Keys, logs, blocks) ==>
      LoadedSoFar(d, d.files.Keys, logs + {id}, blocks[EndOf(d, id) := PartBlock(d, id, logs + {id})])
  {
    hide EndOf, AbsorbAll, Variables;
    if DistinctEnds(d) && LoadedSoFar(d, d.files.Keys, logs, blocks) {
      var b' := blocks[EndOf(d, id) := PartBlock(d, id, logs + {id})];
      forall i | i in d.files.Keys + logs + {id} ensures EndOf(d, i) in b' && b'[EndOf(d, i)] == PartBlock(d, i, logs + {id}) {
        assert i in OnDisk(d) && id in OnDisk(d);
      }
      assert LoadedSoFar(d, d.files.Keys, logs + {id}, b');
    }
  }

  /** The log of a block that is already there. */
  lemma FoundLogBlock(d: Disk, done: set<Id>, blocks: map<Key, BlockState>, id: Id, e: Key)
    requires id in d.logs && e in blocks && blocks[e].id == id
    ensures LoadedSoFar(d, d.files.Keys, done, blocks) && id !in done ==>
      EndOf(d, id) == e && PartBlock(d, id, done + {id}) == blocks[e].(logStreams := AbsorbAll(map[], LogOf(d, id)))
  {
    hide MaxVariable, AbsorbAll;
    assert id in d.files.Keys + done <==> id in d.files || id in done;
  }

  /** The log of no block there is. */
  lemma NewLogBlock(d: Disk, done: set<Id>, blocks: map<Key, BlockState>, id: Id)
    requires id in d.logs && forall e :: e in blocks ==> blocks[e].id != id
    ensures LoadedSoFar(d, d.files.Keys, done, blocks) ==> EndOf(d, id) == MaxVariable(LogOf(d, id))
    ensures LoadedSoFar(d, d.files.Keys, done, blocks) ==>
      PartBlock(d, id, done + {id}) == BlockState(MaxVariable(LogOf(d, id)), id, {}, AbsorbAll(map[], LogOf(d, id)), [])
  {
    hide MaxVariable, AbsorbAll;
    NoVariables();
    assert id in d.files.Keys + done <==> id in d.files || id in done;
  }

  lemma AllLoaded(s: State)
    requires Tables(s) && LoadedSoFar(s.disk, s.disk.files.Keys, s.disk.logs.Keys, s.blocks)
    ensures IsReopened(s.disk, s.pid, s)
  {
    hide EndOf;
    forall id | id in OnDisk(s.disk) ensures EndOf(s.disk, id) in s.blocks && s.blocks[EndOf(s.disk, id)] == LoadedBlock(s.disk, id) {
      if id !in s.disk.logs {
        assert LogOf(s.disk, id) == [] && AbsorbAll(map[], []) == map[];
      }
    }
  }

  lemma SoundTables(s: State)
    requires Sound(s)
    ensures Tables(s) && NoOwnTemps(s) && IdsDistinct(s)
  {
  }

  lemma AddedKey(keys: seq<Key>, k: Key)
    requires Increasing(keys) && k !in Elements(keys)
    ensures Elements(keys + [k]) == Elements(keys) + {k}
    ensures forall i, j :: 0 <= i < j < |keys + [k]| ==> (keys + [k])[i] != (keys + [k])[j]
  {
    hide Less;
    Order();
    assert forall i :: 0 <= i < |keys| ==> keys[i] in Elements(keys);
  }

  lemma FirstKey(keys: seq<Key>, v: Key, i: nat)
    requires Increasing(keys) && i < |keys| && AtMost(v, keys[i])
    requires forall j :: 0 <= j < i ==> !AtMost(v, keys[j])
    ensures forall f :: f in Elements(keys) && AtMost(v, f) ==> AtMost(keys[i], f)
  {
    hide Less;
    forall f | f in Elements(keys) && AtMost(v, f) ensures AtMost(keys[i], f) {
      var j :| 0 <= j < |keys| && keys[j] == f;
    }
  }

  lemma NoKey(keys: seq<Key>, v: Key)
    requires forall j :: 0 <= j < |keys| ==> !AtMost(v, keys[j])
    ensures forall f :: f in Elements(keys) ==> !AtMost(v, f)
  {
  }

  /** A temporary file to which every stream but those of `left` has been written. */
  ghost predicate Partly(f: BlockFile, endKey: Key, m: Streams, left: set<Key>) {
    && f.endKey == endKey
    && Variables(f.streams) == m.Keys - left
    && |f.streams| + |left| == |m|
    && (forall k :: StreamsAt(f.streams, k) == if k in left then multiset{} else MapAt(m, k))
    && (forall st :: st in f.streams ==> SortedByTime(st.values) && multiset(st.values) == MapAt(m, st.variable))
  }

  lemma AllUnwritten(m: Streams)
    ensures forall endKey :: Partly(BlockFile(endKey, []), endKey, m, m.Keys)
  {
    assert Variables([]) == {};
  }

  lemma WriteOneMore(f: BlockFile, endKey: Key, m: Streams, left: set<Key>, st: Stream)
    requires Partly(f, endKey, m, left) && left <= m.Keys && st.variable in left
    requires SortedByTime(st.values) && multiset(st.values) == multiset(m[st.variable])
    ensures Partly(BlockFile(f.endKey, f.streams + [st]), endKey, m, left - {st.variable})
  {
    hide SortedByTime, StreamsAt, MapAt;
    var k := st.variable;
    AppendStream(f.streams, st, k);
    assert forall x :: x in f.streams + [st] ==> x in f.streams || x == st;
    assert multiset(st.values) == MapAt(m, k) by { FoundAt(m, k); }
    forall j ensures StreamsAt(f.streams + [st], j) == if j in left - {k} then multiset{} else MapAt(m, j) {
      AppendStream(f.streams, st, j);
      SingleStreamAt(st, j);
    }
  }

  lemma FoundAt(m: Streams, k: Key)
    requires k in m
    ensures MapAt(m, k) == multiset(m[k])
  {
  }

  lemma PartlyWithNothingLeft(f: BlockFile, endKey: Key, m: Streams)
    requires Partly(f, endKey, m, {}) && IsEnd(endKey, m.Keys)
    ensures IsWritten(f, m)
  {
  }

  lemma SingleStreamAt(st: Stream, k: Key)
    ensures StreamsAt([st], k) == if st.variable == k then multiset(st.values) else multiset{}
  {
    assert [st][..0] == [];
  }

  lemma LargerEnd(e: Key, keys: set<Key>, k: Key)
    requires IsEnd(e, keys)
    ensures IsEnd(if Less(e, k) then k else e, keys + {k})
  {
    hide Less;
    Order();
    if keys == {} && !Less(e, k) {
      EmptyIsLeast(k);
    }
  }

  lemma EmptyIsLeast(k: Key)
    ensures AtMost([], k)
  {
  }
}
