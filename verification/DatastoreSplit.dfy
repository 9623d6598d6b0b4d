/** Splitting a block: what it conserves, what it loses when the new end key is taken, and when it keeps the invariants. */
module DatastoreSplit {
  import opened ByteStrings
  import opened DatastoreModel
  import opened DatastoreSteps
  import opened DatastoreProofs

  /** The split key is one of the block's keys and lies strictly below another, so strictly below the end key. */
  lemma SplitKeyBelowEnd(s: State, e: Key, m: Key)
    requires Sound(s) && e in s.blocks && IsSplitKey(BlockKeys(s.blocks[e]), m)
    ensures m in BlockKeys(s.blocks[e]) && Less(m, e)
  {
    hide BlockSound, FilesSound, BlockKeys;
    var keys := BlockKeys(s.blocks[e]);
    KeysAtMostEnd(s, e);
    var sorted: seq<Key> :| Increasing(sorted) && Elements(sorted) == keys && |sorted| >= 2 && m == sorted[|sorted| / 2 - 1];
    var last := sorted[|sorted| - 1];
    assert m in Elements(sorted) && last in Elements(sorted);
    assert Less(m, last) && AtMost(last, e);
    if last != e {
      LessTransitive(m, last, e);
    }
  }

  /** What a split touches: the two blocks and their files. */
  lemma SplitEffect(s: State, s': State, e: Key, uuid: Id, m: Key)
    requires IdsDistinct(s) && FreshId(s, uuid) && e in s.blocks && m != e && SplitStep(s, s', e, uuid, m)
    ensures Tables(s') && s'.pid == s.pid && s'.disk.temps == s.disk.temps
    ensures s'.blocks.Keys == s.blocks.Keys + {m}
    ensures s'.blocks[m] == BlockState(m, uuid, UpTo(Merged(s.blocks[e], s.disk), m).Keys, map[], [])
    ensures s'.blocks[e] == CompactedBlock(s.blocks[e], After(Merged(s.blocks[e], s.disk), m).Keys)
    ensures forall f :: f in s.blocks && f != e && f != m ==> s'.blocks[f] == s.blocks[f]
    ensures s.blocks[e].id != uuid
    ensures forall f :: f in s.blocks && f != e ==> s.blocks[f].id != s.blocks[e].id && s.blocks[f].id != uuid
    ensures forall id :: id != s.blocks[e].id && id != uuid ==> SameFiles(s.disk, s'.disk, id)
    ensures s.blocks[e].id in s'.disk.files && s.blocks[e].id !in s'.disk.logs
    ensures uuid in s'.disk.files && uuid !in s'.disk.logs
    ensures IsWritten(s'.disk.files[uuid], UpTo(Merged(s.blocks[e], s.disk), m))
    ensures IsWritten(s'.disk.files[s.blocks[e].id], After(Merged(s.blocks[e], s.disk), m))
  {
    hide IsWritten, Merged, UpTo, After, IsSplitKey;
    assert s.blocks[e].id != uuid by {
      assert Owned(s, s.blocks[e].id);
    }
    forall f | f in s.blocks && f != e ensures s.blocks[f].id != s.blocks[e].id && s.blocks[f].id != uuid {
      assert Owned(s, s.blocks[f].id);
    }
  }

  lemma HalvesAt(all: Streams, m: Key, k: Key)
    ensures MapAt(all, k) == MapAt(UpTo(all, m), k) + MapAt(After(all, m), k)
  {
  }

  /** The old block's values are those of the two new ones. */
  lemma HalvesHoldAll(b: BlockState, d: Disk, d': Disk, uuid: Id, m: Key, k: Key)
    requires b.id in d'.files && uuid in d'.files
    requires IsWritten(d'.files[uuid], UpTo(Merged(b, d), m)) && IsWritten(d'.files[b.id], After(Merged(b, d), m))
    ensures BlockAt(b, d, k) == BlockAt(CompactedBlock(b, After(Merged(b, d), m).Keys), d', k)
                              + BlockAt(BlockState(m, uuid, UpTo(Merged(b, d), m).Keys, map[], []), d', k)
  {
    MergedAt(b, d, k);
    HalvesAt(Merged(b, d), m, k);
    EmptyMapAt(k);
  }

  lemma SplitBlockAt(s: State, s': State, e: Key, uuid: Id, m: Key, k: Key)
    requires IdsDistinct(s) && FreshId(s, uuid) && e in s.blocks && m != e && SplitStep(s, s', e, uuid, m)
    ensures e in s'.blocks && m in s'.blocks
    ensures BlockAt(s.blocks[e], s.disk, k) == BlockAt(s'.blocks[e], s'.disk, k) + BlockAt(s'.blocks[m], s'.disk, k)
  {
    hide BlockAt, IsWritten, Merged, UpTo, After, SameFiles, SplitStep, CompactedBlock;
    SplitEffect(s, s', e, uuid, m);
    HalvesHoldAll(s.blocks[e], s.disk, s'.disk, uuid, m, k);
  }

  lemma SplitOtherAt(s: State, s': State, e: Key, uuid: Id, m: Key, f: Key, k: Key)
    requires IdsDistinct(s) && FreshId(s, uuid) && e in s.blocks && m != e && SplitStep(s, s', e, uuid, m)
    requires f in s.blocks && f != e && f != m
    ensures f in s'.blocks && BlockAt(s.blocks[f], s.disk, k) == BlockAt(s'.blocks[f], s'.disk, k)
  {
    hide BlockAt, IsWritten, Merged, UpTo, After, SameFiles, SplitStep, CompactedBlock;
    SplitEffect(s, s', e, uuid, m);
    SameFilesSame(s.disk, s'.disk, s.blocks[f].id);
  }

  lemma SplitKeys(s: State, s': State, e: Key, uuid: Id, m: Key)
    requires e in s.blocks && SplitStep(s, s', e, uuid, m)
    ensures s'.blocks.Keys == s.blocks.Keys + {m}
    ensures forall f :: f in s.blocks && f != e && f != m ==> s'.blocks[f] == s.blocks[f]
  {
    hide IsWritten, Merged, UpTo, After, IsSplitKey, Tables;
  }

  lemma SplitSums(s: State, s': State, e: Key, uuid: Id, m: Key, k: Key)
    requires IdsDistinct(s) && FreshId(s, uuid) && e in s.blocks && m != e && SplitStep(s, s', e, uuid, m)
    ensures StoreAt(s, k) == StoreAt(s', k) + if m in s.blocks then BlockAt(s.blocks[m], s.disk, k) else multiset{}
  {
    hide BlockAt, Sum, SplitStep, FreshId, IdsDistinct;
    var f, g := BlockValues(s, k), BlockValues(s', k);
    SplitKeys(s, s', e, uuid, m);
    SplitBlockAt(s, s', e, uuid, m, k);
    forall x | x in s.blocks && x != e && x != m ensures f(x) == g(x) {
      SplitOtherAt(s, s', e, uuid, m, x, k);
    }
    SumSplit(s.blocks.Keys, f, g, e, m);
  }

  /** A split loses exactly the block, if any, that already had the new end key: insertBlock overwrites it. */
  lemma SplitConserves(s: State, s': State, e: Key, uuid: Id, m: Key, k: Key)
    requires Sound(s) && FreshId(s, uuid) && e in s.blocks && SplitStep(s, s', e, uuid, m)
    ensures StoreAt(s, k) == StoreAt(s', k) + if m in s.blocks then BlockAt(s.blocks[m], s.disk, k) else multiset{}
  {
    hide BlockAt, StoreAt, FreshId, BlocksSound, FilesOwned, Tables, NoOwnTemps, IdsDistinct, IsSplitKey;
    SplitKeyBelowEnd(s, e, m);
    LessIrreflexive(e);
    SplitSums(s, s', e, uuid, m, k);
  }

  /** One summand is divided between its own place and the place m, whose old summand is dropped. */
  lemma SumSplit<T(!new), V(!new)>(S: set<T>, f: T -> multiset<V>, g: T -> multiset<V>, e: T, m: T)
    requires e in S && m != e && f(e) == g(e) + g(m)
    requires forall x :: x in S && x != e && x != m ==> f(x) == g(x)
    ensures Sum(S, f) == Sum(S + {m}, g) + if m in S then f(m) else multiset{}
  {
    var rest := S - {e, m};
    SumSame(rest, f, g);
    SumTwo(S + {m}, g, e, m);
    assert S + {m} - {e, m} == rest;
    if m in S {
      SumTwo(S, f, e, m);
    } else {
      SumRemove(S, f, e);
      assert S - {e} == rest;
    }
  }

  lemma SumTwo<T(!new), V(!new)>(S: set<T>, f: T -> multiset<V>, x: T, y: T)
    requires x in S && y in S && x != y
    ensures Sum(S, f) == f(x) + f(y) + Sum(S - {x, y}, f)
  {
    SumRemove(S, f, x);
    SumRemove(S - {x}, f, y);
    assert S - {x} - {y} == S - {x, y};
  }

  /** Nothing at all is lost exactly when no block with any value already ends at the split key. */
  lemma SplitConservesIff(s: State, s': State, e: Key, uuid: Id, m: Key)
    requires Sound(s) && FreshId(s, uuid) && e in s.blocks && SplitStep(s, s', e, uuid, m)
    ensures (forall k :: StoreAt(s', k) == StoreAt(s, k))
       <==> (m !in s.blocks || forall k :: BlockAt(s.blocks[m], s.disk, k) == multiset{})
  {
    hide *;
    forall k ensures StoreAt(s', k) == StoreAt(s, k) <==> (m !in s.blocks || BlockAt(s.blocks[m], s.disk, k) == multiset{}) {
      SplitConserves(s, s', e, uuid, m, k);
    }
  }

  /** Every unflushed stream of the block belongs in its upper half. */
  ghost predicate UnflushedAbove(b: BlockState, m: Key) {
    forall k :: k in Variables(b.newStreams) ==> Less(m, k)
  }

  lemma KeysAreOnDisk(d: Disk, id: Id)
    ensures DiskKeys(d, id) != {} ==> id in OnDisk(d)
  {
    if id !in OnDisk(d) {
      assert FileOf(d, id) == [] && LogOf(d, id) == [];
    }
  }

  /** When nothing unflushed falls in the lower half, both the split key and the end key are on disk. */
  lemma SplitKeysOnDisk(s: State, e: Key, m: Key)
    requires Sound(s) && e in s.blocks && IsSplitKey(BlockKeys(s.blocks[e]), m) && UnflushedAbove(s.blocks[e], m)
    ensures s.blocks[e].id in OnDisk(s.disk)
    ensures m in Merged(s.blocks[e], s.disk) && e in Merged(s.blocks[e], s.disk)
    ensures Less(m, e) && forall k :: k in Merged(s.blocks[e], s.disk) ==> AtMost(k, e)
  {
    var b := s.blocks[e];
    SplitKeyBelowEnd(s, e, m);
    LessIrreflexive(m);
    BlockMirrorsKeys(b, s.disk);
    hide Less, Merged, AbsorbAll, MaxVariable, IsSplitKey, BlockKeys;
    assert m in DiskKeys(s.disk, b.id);
    KeysAreOnDisk(s.disk, b.id);
    assert FilesSound(s.disk, b.id);
  }

  lemma HalfSound(b: BlockState, d: Disk, half: Streams, end: Key, d': Disk, id: Id)
    requires BlockSound(b, d) && FilesSound(d, b.id)
    requires forall k :: k in half ==> k in Merged(b, d) && half[k] == Merged(b, d)[k]
    requires IsEnd(end, half.Keys)
    requires id in d'.files && id !in d'.logs && IsWritten(d'.files[id], half)
    ensures FilesSound(d', id) && d'.files[id].endKey == end && Variables(d'.files[id].streams) == half.Keys
  {
    hide Less, Merged, BlockSound, StreamsAt, Variables;
    forall k | k in half ensures half[k] != [] {
      MergedValues(b, d, k);
    }
    WrittenFileSound(d'.files[id], half, d', id);
    IsEndUnique(end, d'.files[id].endKey, half.Keys);
  }

  lemma HalvesEnd(all: Streams, m: Key, e: Key)
    requires m in all && e in all && Less(m, e) && forall k :: k in all ==> AtMost(k, e)
    ensures IsEnd(m, UpTo(all, m).Keys) && IsEnd(e, After(all, m).Keys)
    ensures forall k :: k in UpTo(all, m) ==> k in all && UpTo(all, m)[k] == all[k]
    ensures forall k :: k in After(all, m) ==> k in all && After(all, m)[k] == all[k]
  {
    LessNotBack(m, e);
    hide Less;
    assert m in UpTo(all, m) && e in After(all, m);
  }

  /** A written left half is a sound file ending at m. */
  lemma LeftFileSound(s: State, e: Key, m: Key, d: Disk, uuid: Id)
    requires Sound(s) && e in s.blocks && UnflushedAbove(s.blocks[e], m) && IsSplitKey(BlockKeys(s.blocks[e]), m)
    requires uuid in d.files && uuid !in d.logs && IsWritten(d.files[uuid], UpTo(Merged(s.blocks[e], s.disk), m))
    ensures FilesSound(d, uuid) && d.files[uuid].endKey == m
    ensures Variables(d.files[uuid].streams) == UpTo(Merged(s.blocks[e], s.disk), m).Keys
  {
    var b := s.blocks[e];
    var all := Merged(b, s.disk);
    SplitKeysOnDisk(s, e, m);
    HalvesEnd(all, m, e);
    hide Less, Merged, IsWritten, BlockSound, FilesSound, IsSplitKey, IsEnd, UpTo, After, Variables;
    HalfSound(b, s.disk, UpTo(all, m), m, d, uuid);
  }

  /** A written right half is a sound file ending where the old block did. */
  lemma RightFileSound(s: State, e: Key, m: Key, d: Disk)
    requires Sound(s) && e in s.blocks && UnflushedAbove(s.blocks[e], m) && IsSplitKey(BlockKeys(s.blocks[e]), m)
    requires s.blocks[e].id in d.files && s.blocks[e].id !in d.logs
    requires IsWritten(d.files[s.blocks[e].id], After(Merged(s.blocks[e], s.disk), m))
    ensures FilesSound(d, s.blocks[e].id) && d.files[s.blocks[e].id].endKey == e
    ensures Variables(d.files[s.blocks[e].id].streams) == After(Merged(s.blocks[e], s.disk), m).Keys
  {
    var b := s.blocks[e];
    var all := Merged(b, s.disk);
    SplitKeysOnDisk(s, e, m);
    HalvesEnd(all, m, e);
    hide Less, Merged, IsWritten, BlockSound, FilesSound, IsSplitKey, IsEnd, UpTo, After, Variables;
    HalfSound(b, s.disk, After(all, m), e, d, b.id);
  }

  /** Both files a split writes are sound, the left ending at m and the right at the old end key. */
  lemma SplitFilesSound(s: State, s': State, e: Key, uuid: Id, m: Key)
    requires Sound(s) && FreshId(s, uuid) && e in s.blocks && UnflushedAbove(s.blocks[e], m)
    requires SplitStep(s, s', e, uuid, m)
    ensures FilesSound(s'.disk, uuid) && s'.disk.files[uuid].endKey == m
    ensures Variables(s'.disk.files[uuid].streams) == UpTo(Merged(s.blocks[e], s.disk), m).Keys
    ensures FilesSound(s'.disk, s.blocks[e].id) && s'.disk.files[s.blocks[e].id].endKey == e
    ensures Variables(s'.disk.files[s.blocks[e].id].streams) == After(Merged(s.blocks[e], s.disk), m).Keys
  {
    SplitKeyBelowEnd(s, e, m);
    LessIrreflexive(e);
    hide Less, Merged, IsWritten, FilesSound, UpTo, After, Variables, BlocksSound, FilesOwned, IsSplitKey;
    SplitEffect(s, s', e, uuid, m);
    LeftFileSound(s, e, m, s'.disk, uuid);
    RightFileSound(s, e, m, s'.disk);
  }

  lemma LessNotBack(a: Key, b: Key)
    requires Less(a, b)
    ensures !AtMost(b, a)
  {
    LessIrreflexive(a);
    if Less(b, a) {
      LessTransitive(a, b, a);
    }
  }

  lemma SplitBlocksSound(s: State, s': State, e: Key, uuid: Id, m: Key)
    requires Sound(s) && FreshId(s, uuid) && e in s.blocks && UnflushedAbove(s.blocks[e], m) && m !in s.blocks
    requires SplitStep(s, s', e, uuid, m)
    ensures BlocksSound(s')
  {
    hide Less, Merged, IsWritten, FilesSound, UpTo, After, IsSplitKey, SplitStep, FilesOwned;
    assert BlockSound(s'.blocks[e], s'.disk) && s'.blocks[e].endKey == e by {
      SplitEffect(s, s', e, uuid, m);
      SplitFilesSound(s, s', e, uuid, m);
      FiledBlockSound(s'.blocks[e], s'.disk);
    }
    assert m in s'.blocks && BlockSound(s'.blocks[m], s'.disk) && s'.blocks[m].endKey == m by {
      SplitEffect(s, s', e, uuid, m);
      SplitFilesSound(s, s', e, uuid, m);
      FiledBlockSound(s'.blocks[m], s'.disk);
    }
    hide BlockSound, SameFiles;
    SplitKeys(s, s', e, uuid, m);
    forall f | f in s.blocks && f != e ensures BlockSound(s'.blocks[f], s'.disk) && s'.blocks[f].endKey == f {
      SplitEffect(s, s', e, uuid, m);
      SameFilesSame(s.disk, s'.disk, s.blocks[f].id);
    }
  }

  lemma SplitFilesOwned(s: State, s': State, e: Key, uuid: Id, m: Key)
    requires Sound(s) && FreshId(s, uuid) && e in s.blocks && UnflushedAbove(s.blocks[e], m) && m !in s.blocks
    requires SplitStep(s, s', e, uuid, m)
    ensures FilesOwned(s') && IdsDistinct(s') && NoOwnTemps(s')
  {
    hide Less, Merged, IsWritten, FilesSound, UpTo, After, IsSplitKey, SplitStep, BlocksSound, SameFiles;
    SplitFilesSound(s, s', e, uuid, m);
    SplitEffect(s, s', e, uuid, m);
    assert forall f :: f in s.blocks ==> f in s'.blocks && s'.blocks[f].id == s.blocks[f].id;
    OwnersKept(s, s');
    assert s'.blocks[m].id == uuid;
    assert Owned(s', uuid) && Owned(s', s.blocks[e].id);
    hide Owned;
    forall id | id in OnDisk(s'.disk) && id != uuid && id != s.blocks[e].id ensures FilesSound(s'.disk, id) && Owned(s', id) {
      SameFilesSame(s.disk, s'.disk, id);
      assert Owned(s, id);
    }
  }

  /** A split with nothing unflushed below the split key, and with that key free, keeps what every run keeps. */
  lemma SplitKeepsSound(s: State, s': State, e: Key, uuid: Id, m: Key)
    requires Sound(s) && FreshId(s, uuid) && e in s.blocks && UnflushedAbove(s.blocks[e], m) && m !in s.blocks
    requires SplitStep(s, s', e, uuid, m)
    ensures Sound(s')
  {
    SplitBlocksSound(s, s', e, uuid, m);
    SplitFilesOwned(s, s', e, uuid, m);
    hide BlocksSound, FilesOwned, IdsDistinct, NoOwnTemps, IsWritten, Merged, UpTo, After, IsSplitKey, FreshId;
  }

  /** In a routed store the split key is never another block's end key. */
  lemma SplitKeyIsFree(s: State, e: Key, m: Key)
    requires Inv(s) && e in s.blocks && IsSplitKey(BlockKeys(s.blocks[e]), m)
    ensures m !in s.blocks
  {
    SplitKeyBelowEnd(s, e, m);
    LessNotBack(m, e);
    hide Less, BlockKeys, BlocksSound, FilesOwned, IsSplitKey;
    assert AtMost(m, m);
  }

  lemma SplitBlockKeys(s: State, s': State, e: Key, uuid: Id, m: Key)
    requires Sound(s) && FreshId(s, uuid) && e in s.blocks && m != e && SplitStep(s, s', e, uuid, m)
    ensures forall k :: k in BlockKeys(s'.blocks[m]) ==> k in BlockKeys(s.blocks[e]) && AtMost(k, m)
    ensures forall k :: k in BlockKeys(s'.blocks[e]) ==> k in BlockKeys(s.blocks[e])
    ensures UnflushedAbove(s.blocks[e], m) ==> forall k :: k in BlockKeys(s'.blocks[e]) ==> !AtMost(k, m)
    ensures Variables(s.blocks[e].newStreams) <= BlockKeys(s'.blocks[e])
  {
    hide Less, IsWritten, SameFiles, IsSplitKey, SplitStep, FilesOwned, BlockSound;
    SplitEffect(s, s', e, uuid, m);
    BlockMirrorsKeys(s.blocks[e], s.disk);
    hide Merged, AbsorbAll;
    if UnflushedAbove(s.blocks[e], m) {
      forall k | k in Variables(s.blocks[e].newStreams) ensures !AtMost(k, m) {
        LessNotBack(m, k);
      }
    }
  }

  ghost function Ranges(s: State): map<Key, set<Key>> {
    map f | f in s.blocks :: BlockKeys(s.blocks[f])
  }

  lemma RoutedIsRangesHold(s: State)
    ensures Routed(s) <==> RangesHold(Ranges(s))
  {
    hide Less, BlockKeys;
    var K := Ranges(s);
    if Routed(s) {
      assert RangesHold(K);
    }
    if RangesHold(K) {
      forall e, f, k | e in s.blocks && f in s.blocks && k in BlockKeys(s.blocks[e]) && AtMost(k, f) ensures AtMost(e, f) {
        assert e in K && f in K && k in K[e];
      }
    }
  }

  lemma SplitRanges(s: State, s': State, e: Key, uuid: Id, m: Key)
    requires Inv(s) && FreshId(s, uuid) && e in s.blocks && m != e && UnflushedAbove(s.blocks[e], m)
    requires SplitStep(s, s', e, uuid, m)
    ensures Ranges(s').Keys == Ranges(s).Keys + {m}
    ensures forall f :: f in Ranges(s) && f != e && f != m ==> Ranges(s')[f] == Ranges(s)[f]
    ensures forall k :: k in Ranges(s')[e] ==> k in Ranges(s)[e] && !AtMost(k, m)
    ensures forall k :: k in Ranges(s')[m] ==> k in Ranges(s)[e] && AtMost(k, m)
  {
    hide Less, SplitStep, BlockKeys, UnflushedAbove, Sound, Routed, FreshId;
    SplitBlockKeys(s, s', e, uuid, m);
    SplitKeys(s, s', e, uuid, m);
    assert Ranges(s').Keys == s'.blocks.Keys && Ranges(s).Keys == s.blocks.Keys;
  }

  lemma SplitKeepsRouted(s: State, s': State, e: Key, uuid: Id, m: Key)
    requires Inv(s) && FreshId(s, uuid) && e in s.blocks && UnflushedAbove(s.blocks[e], m)
    requires SplitStep(s, s', e, uuid, m)
    ensures Routed(s')
  {
    SplitKeyBelowEnd(s, e, m);
    SplitKeyIsFree(s, e, m);
    SplitRanges(s, s', e, uuid, m);
    RoutedIsRangesHold(s);
    RoutedIsRangesHold(s');
    hide Less, SplitStep, BlockKeys, Sound, Routed, RangesHold, IsSplitKey, UnflushedAbove, FreshId;
    RangesAfterSplit(Ranges(s), Ranges(s'), e, m);
  }

  /** Each key of a range ends up in the first range that can hold it. */
  ghost predicate RangesHold(K: map<Key, set<Key>>) {
    forall f, g, k :: f in K && g in K && k in K[f] && AtMost(k, g) ==> AtMost(f, g)
  }

  lemma RangesAfterSplit(K: map<Key, set<Key>>, K': map<Key, set<Key>>, e: Key, m: Key)
    requires RangesHold(K) && e in K && m !in K && m in K[e] && Less(m, e)
    requires K'.Keys == K.Keys + {m} && forall f :: f in K && f != e ==> K'[f] == K[f]
    requires forall k :: k in K'[e] ==> k in K[e] && !AtMost(k, m)
    requires forall k :: k in K'[m] ==> k in K[e] && AtMost(k, m)
    ensures RangesHold(K')
  {
    hide Less;
    forall f, g, k | f in K' && g in K' && k in K'[f] && AtMost(k, g) ensures AtMost(f, g) {
      Order();
      var f' := if f == m then e else f;
      assert k in K[f'];
      if g != m {
        assert AtMost(f', g);
      } else if f' != e {
        assert AtMost(k, e);
        assert AtMost(f', e);
        assert !AtMost(m, f');
      }
    }
  }

  /** The exact guard: a split keeps the invariant if and only if no unflushed stream of the block falls in the lower half. */
  lemma SplitKeepsInvIff(s: State, s': State, e: Key, uuid: Id, m: Key)
    requires Inv(s) && FreshId(s, uuid) && e in s.blocks && SplitStep(s, s', e, uuid, m)
    ensures Inv(s') <==> UnflushedAbove(s.blocks[e], m)
  {
    SplitKeyBelowEnd(s, e, m);
    LessNotBack(m, e);
    SplitKeyIsFree(s, e, m);
    if UnflushedAbove(s.blocks[e], m) {
      SplitKeepsSound(s, s', e, uuid, m);
      SplitKeepsRouted(s, s', e, uuid, m);
    } else {
      var k :| k in Variables(s.blocks[e].newStreams) && !Less(m, k);
      LessTotal(m, k);
      SplitBlockKeys(s, s', e, uuid, m);
      hide Less, Sound, SplitStep, BlockKeys, IsSplitKey;
      assert AtMost(k, m) && k in BlockKeys(s'.blocks[e]);
      SplitKeys(s, s', e, uuid, m);
      assert m in s'.blocks && e in s'.blocks;
    }
  }
}
