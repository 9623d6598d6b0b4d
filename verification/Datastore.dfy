/** The block datastore itself: blocks held in memory, their files, and the operations that change both. */
module Datastores {
  import opened ByteStrings
  import opened DatastoreModel
  import opened DatastoreSteps
  import opened DatastoreProofs
  import opened DatastoreSplit
  import opened DatastoreCrash
  import opened DatastoreOrder
  import opened DatastoreSupport
  import opened FileSystems
  import opened Sorting

  class DatastoreBlock {
    const endKey: Key
    const id: Id
    var headerIndex: set<Key>
    var logStreams: Streams
    var newStreams: seq<Stream>

    constructor (endKey: Key, id: Id)
      ensures View() == BlockState(endKey, id, {}, map[], [])
    {
      this.endKey, this.id := endKey, id;
      headerIndex, logStreams, newStreams := {}, map[], [];
    }

    ghost function View(): BlockState
      reads this
    {
      BlockState(endKey, id, headerIndex, logStreams, newStreams)
    }

    /** The file's streams, with the logged values appended variable by variable. */
    method Read(fs: FileSystem) returns (streams: Streams)
      ensures streams == Merged(View(), fs.View())
      ensures forall k :: Get(streams, k) == ValuesOf(FileOf(fs.View(), id), k) + Get(logStreams, k)
      ensures streams.Keys == Variables(FileOf(fs.View(), id)) + logStreams.Keys
    {
      MergedReads(View(), fs.View());
      streams := map[];
      if id in fs.files {
        var records := fs.files[id].streams;
        for i := 0 to |records|
          invariant streams == AbsorbAll(map[], records[..i])
        {
          assert records[..i + 1][..i] == records[..i];
          streams := Absorb(streams, records[i]);
        }
        assert records[..|records|] == records;
      }
      streams := AppendLogStreams(streams);
    }

    method AppendLogStreams(filed: Streams) returns (streams: Streams)
      ensures streams == Combine(filed, logStreams)
    {
      streams := filed;
      var left := logStreams.Keys;
      while left != {}
        invariant left <= logStreams.Keys
        invariant streams.Keys == filed.Keys + (logStreams.Keys - left)
        invariant forall k :: k in streams ==>
          streams[k] == Get(filed, k) + if k in left then [] else Get(logStreams, k)
      {
        var k :| k in left;
        streams := Absorb(streams, Stream(k, logStreams[k]));
        left := left - {k};
      }
      assert streams == Combine(filed, logStreams);
    }

    /** The first pass of Write: the end key, the header index, and each stream's values sorted by timestamp. */
    method IndexStreams(streams: Streams) returns (endKey: Key, sorted: Streams)
      modifies this`headerIndex
      ensures headerIndex == streams.Keys && IsEnd(endKey, streams.Keys) && sorted.Keys == streams.Keys
      ensures forall k :: k in sorted ==> SortedByTime(sorted[k]) && multiset(sorted[k]) == multiset(streams[k])
    {
      endKey, sorted, headerIndex := [], map[], {};
      var left := streams.Keys;
      while left != {}
        invariant left <= streams.Keys && headerIndex == streams.Keys - left && sorted.Keys == headerIndex
        invariant IsEnd(endKey, headerIndex)
        invariant forall k :: k in sorted ==> SortedByTime(sorted[k]) && multiset(sorted[k]) == multiset(streams[k])
      {
        hide Less, SortedByTime;
        var k :| k in left;
        LargerEnd(endKey, headerIndex, k);
        if Less(endKey, k) {
          endKey := k;
        }
        var values := SortByTimestamp(streams[k]);
        sorted := sorted[k := values];
        headerIndex := headerIndex + {k};
        left := left - {k};
      }
    }

    /** The second pass of Write: the header, then one record for each stream, into the temporary file. */
    method WriteTemp(fs: FileSystem, name: TempName, endKey: Key, ghost streams: Streams, sorted: Streams)
      requires name !in fs.temps
      requires IsEnd(endKey, streams.Keys) && sorted.Keys == streams.Keys
      requires forall k :: k in sorted ==> SortedByTime(sorted[k]) && multiset(sorted[k]) == multiset(streams[k])
      modifies fs
      ensures name in fs.temps && IsWritten(fs.temps[name], streams)
      ensures fs.View() == old(fs.View()).(temps := old(fs.temps)[name := fs.temps[name]])
      ensures old(fs.history) < fs.history && fs.OnlyTempsSince(old(fs.history), old(fs.View()), |fs.history|)
    {
      hide Partly, SortedByTime, IsEnd, IsWritten;
      fs.CreateTemp(name, endKey);
      var left := sorted.Keys;
      AllUnwritten(streams);
      while left != {}
        invariant left <= streams.Keys
        invariant name in fs.temps && Partly(fs.temps[name], endKey, streams, left)
        invariant fs.View() == old(fs.View()).(temps := old(fs.temps)[name := fs.temps[name]])
        invariant old(fs.history) < fs.history && fs.OnlyTempsSince(old(fs.history), old(fs.View()), |fs.history|)
      {
        var k :| k in left;
        WriteOneMore(fs.temps[name], endKey, streams, left, Stream(k, sorted[k]));
        fs.AppendTemp(name, Stream(k, sorted[k]));
        left := left - {k};
      }
      PartlyWithNothingLeft(fs.temps[name], endKey, streams);
    }

    /** Write the streams to a temporary file, each sorted by timestamp, and rename it over the block's file. */
    method Write(fs: FileSystem, pid: nat, streams: Streams)
      requires TempName(id, pid) !in fs.temps
      requires forall k :: k in streams ==> streams[k] != []
      modifies this`headerIndex, fs
      ensures headerIndex == streams.Keys
      ensures id in fs.files && IsWritten(fs.files[id], streams)
      ensures fs.View() == old(fs.View()).(files := old(fs.files)[id := fs.files[id]])
      ensures old(fs.history) < fs.history && fs.OnlyTempsSince(old(fs.history), old(fs.View()), |fs.history| - 1)
      ensures fs.history[|fs.history| - 1] == fs.View()
    {
      hide IsWritten, IsEnd, SortedByTime;
      var name := TempName(id, pid);
      var endKey, sorted := IndexStreams(streams);
      WriteTemp(fs, name, endKey, streams, sorted);
      fs.Rename(name, id);
    }

    /** Rewrite the file with the logged streams merged in, then remove the log and forget it. */
    method Compact(fs: FileSystem, pid: nat)
      requires TempName(id, pid) !in fs.temps
      requires forall k :: k in Merged(View(), fs.View()) ==> Merged(View(), fs.View())[k] != []
      modifies this`headerIndex, this`logStreams, fs
      ensures View() == CompactedBlock(old(View()), Merged(old(View()), old(fs.View())).Keys)
      ensures id in fs.files && IsWritten(fs.files[id], Merged(old(View()), old(fs.View())))
      ensures fs.View() == Compacted(old(fs.View()), id, fs.files[id])
      ensures old(fs.history) <= fs.history
      ensures forall i :: |old(fs.history)| <= i < |fs.history| ==> CompactFiles(old(View()), old(fs.View()), fs.history[i])
    {
      hide IsWritten, Merged, IsEnd;
      var streams := Read(fs);
      Write(fs, pid, streams);
      fs.RemoveLog(id);
      logStreams := map[];
    }

    /** Move the unflushed streams to the log file, one record at a time, and then into logStreams. */
    method FlushTo(fs: FileSystem)
      requires newStreams != []
      modifies this`logStreams, this`newStreams, fs
      ensures View() == FlushBlock(old(View()))
      ensures forall k :: Get(logStreams, k) == old(Get(logStreams, k)) + ValuesOf(old(newStreams), k)
      ensures fs.View() == LogPart(old(fs.View()), id, old(newStreams), |old(newStreams)|)
      ensures old(fs.history) <= fs.history
      ensures forall i :: |old(fs.history)| <= i < |fs.history| ==>
        SomeLogPart(old(fs.View()), fs.history[i], id, old(newStreams))
    {
      hide LogPart, SomeLogPart, AbsorbAll, ValuesOf;
      FlushedLogs(View());
      AppendToLog(fs);
      ghost var before := logStreams;
      AbsorbedNone(before, newStreams);
      for i := 0 to |newStreams|
        modifies this`logStreams
        invariant logStreams == AbsorbAll(before, newStreams[..i])
      {
        AbsorbedOneMore(before, newStreams, i);
        logStreams := Absorb(logStreams, newStreams[i]);
      }
      assert newStreams[..|newStreams|] == newStreams;
      newStreams := [];
    }

    method AppendToLog(fs: FileSystem)
      modifies fs
      ensures fs.View() == LogPart(old(fs.View()), id, newStreams, |newStreams|)
      ensures old(fs.history) <= fs.history
      ensures forall i :: |old(fs.history)| <= i < |fs.history| ==> SomeLogPart(old(fs.View()), fs.history[i], id, newStreams)
    {
      hide LogPart, SomeLogPart;
      ghost var d := fs.View();
      LogPartStarts(d, id, newStreams);
      fs.OpenLog(id);
      for i := 0 to |newStreams|
        invariant fs.View() == LogPart(d, id, newStreams, i)
        invariant old(fs.history) <= fs.history
        invariant forall j :: |old(fs.history)| <= j < |fs.history| ==> SomeLogPart(d, fs.history[j], id, newStreams)
      {
        LogPartGrows(d, id, newStreams, i);
        fs.AppendLog(id, newStreams[i]);
      }
    }
  }

  class Datastore {
    var blocks: map<Key, DatastoreBlock>
    var blockKeys: seq<Key>
    const fs: FileSystem
    const pid: nat

    ghost predicate Linked()
      reads this, blocks.Values
    {
      forall e :: e in blocks ==> blocks[e].endKey == e
    }

    ghost function View(): State
      reads this, blocks.Values, fs
    {
      State(map e | e in blocks :: blocks[e].View(), blockKeys, fs.View(), pid)
    }

    ghost predicate Valid()
      reads this, blocks.Values, fs
    {
      Linked() && Sound(View())
    }

    /** Open a datastore on an existing directory. When no two blocks claim one end key, the result does not
        depend on the order in which the files are listed. */
    constructor Open(fs: FileSystem, pid: nat)
      ensures this.fs == fs && this.pid == pid && fresh(blocks.Values) && Linked()
      ensures DistinctEnds(fs.View()) ==> IsReopened(fs.View(), pid, View())
    {
      this.fs, this.pid := fs, pid;
      blocks, blockKeys := map[], [];
      new;
      ReadBlocks();
    }

    ghost function BlockViews(): map<Key, BlockState>
      reads this, blocks.Values
    {
      map e | e in blocks :: blocks[e].View()
    }

    /** Every block file first, then every log, each in whatever order the directory lists them. */
    method ReadBlocks()
      requires blocks == map[] && blockKeys == []
      modifies this
      ensures fresh(blocks.Values) && Linked() && Tables(View())
      ensures DistinctEnds(fs.View()) ==> IsReopened(fs.View(), pid, View())
    {
      hide Less, EndOf, DistinctEnds, LoadedSoFar;
      ghost var d := fs.View();
      NothingLoaded(d);
      var names := fs.files.Keys;
      while names != {}
        invariant names <= fs.files.Keys
        invariant fresh(blocks.Values) && Linked() && Increasing(blockKeys) && Elements(blockKeys) == blocks.Keys
        invariant DistinctEnds(d) ==> LoadedSoFar(d, fs.files.Keys - names, {}, BlockViews())
      {
        var id :| id in names;
        FileLoaded(d, fs.files.Keys - names, id, BlockViews());
        ReadBlock(id);
        assert fs.files.Keys - (names - {id}) == fs.files.Keys - names + {id};
        names := names - {id};
      }
      assert fs.files.Keys - {} == fs.files.Keys && fs.logs.Keys - fs.logs.Keys == {};
      names := fs.logs.Keys;
      while names != {}
        invariant names <= fs.logs.Keys
        invariant fresh(blocks.Values) && Linked() && Increasing(blockKeys) && Elements(blockKeys) == blocks.Keys
        invariant DistinctEnds(d) ==> LoadedSoFar(d, fs.files.Keys, fs.logs.Keys - names, BlockViews())
      {
        var id :| id in names;
        LogLoaded(d, fs.logs.Keys - names, id, BlockViews());
        ReadBlockLog(id, fs.logs.Keys - names);
        assert fs.logs.Keys - (names - {id}) == fs.logs.Keys - names + {id};
        names := names - {id};
      }
      assert fs.logs.Keys - {} == fs.logs.Keys;
      if DistinctEnds(d) {
        AllLoaded(View());
      }
    }

    method ReadBlock(id: Id)
      requires id in fs.files && Linked() && Increasing(blockKeys) && Elements(blockKeys) == blocks.Keys
      modifies this
      ensures fresh(blocks.Values - old(blocks.Values)) && Linked() && Increasing(blockKeys) && Elements(blockKeys) == blocks.Keys
      ensures BlockViews() == old(BlockViews())[EndOf(fs.View(), id) := PartBlock(fs.View(), id, {})]
    {
      hide Less, Increasing, Elements, Variables, MaxVariable, AbsorbAll;
      var block := new DatastoreBlock(fs.files[id].endKey, id);
      block.headerIndex := Variables(fs.files[id].streams);
      assert block.View() == PartBlock(fs.View(), id, {});
      InsertBlock(block);
    }

    /** The log's streams, variable by variable, and its largest variable. */
    method CollectLog(id: Id) returns (endKey: Key, streams: Streams)
      requires id in fs.logs
      ensures endKey == MaxVariable(fs.logs[id]) && streams == AbsorbAll(map[], fs.logs[id])
    {
      hide Less;
      var records := fs.logs[id];
      endKey, streams := [], map[];
      for i := 0 to |records|
        invariant endKey == MaxVariable(records[..i]) && streams == AbsorbAll(map[], records[..i])
      {
        assert records[..i + 1][..i] == records[..i];
        if Less(endKey, records[i].variable) {
          endKey := records[i].variable;
        }
        streams := Absorb(streams, records[i]);
      }
      assert records[..|records|] == records;
    }

    /** The end key of the block with this id. */
    method FindById(id: Id) returns (found: bool, endKey: Key)
      ensures found ==> endKey in blocks && blocks[endKey].id == id
      ensures !found ==> forall e :: e in blocks ==> blocks[e].id != id
    {
      var keys := blocks.Keys;
      while keys != {}
        invariant keys <= blocks.Keys
        invariant forall e :: e in blocks && e !in keys ==> blocks[e].id != id
      {
        var e :| e in keys;
        if blocks[e].id == id {
          return true, e;
        }
        keys := keys - {e};
      }
      return false, [];
    }

    /** Give the log's streams to the block that has the file, or make a block of them when there is none. */
    method ReadBlockLog(id: Id, ghost done: set<Id>)
      requires id in fs.logs && id !in done
      requires Linked() && Increasing(blockKeys) && Elements(blockKeys) == blocks.Keys
      modifies this, blocks.Values
      ensures fresh(blocks.Values - old(blocks.Values)) && Linked() && Increasing(blockKeys) && Elements(blockKeys) == blocks.Keys
      ensures LoadedSoFar(fs.View(), fs.files.Keys, done, old(BlockViews())) ==>
        BlockViews() == old(BlockViews())[EndOf(fs.View(), id) := PartBlock(fs.View(), id, done + {id})]
      ensures exists e :: e in blocks && blocks[e].id == id && forall k :: Get(blocks[e].logStreams, k) == ValuesOf(fs.logs[id], k)
    {
      hide Less, Increasing, Elements, Variables, MaxVariable, AbsorbAll, PartBlock, LoadedSoFar, EndOf, ValuesOf;
      ghost var d, views := fs.View(), BlockViews();
      LoadedInOrder(fs.logs[id]);
      var endKey, streams := CollectLog(id);
      var found, e := FindById(id);
      if found {
        FoundLogBlock(d, done, views, id, e);
        SetLog(e, streams);
      } else {
        NewLogBlock(d, done, views, id);
        InsertLogBlock(endKey, id, streams);
      }
    }

    method SetLog(e: Key, streams: Streams)
      requires Linked() && e in blocks
      modifies blocks[e]
      ensures Linked() && BlockViews() == old(BlockViews())[e := old(BlockViews())[e].(logStreams := streams)]
    {
      blocks[e].logStreams := streams;
    }

    method InsertLogBlock(endKey: Key, id: Id, streams: Streams)
      requires Linked() && Increasing(blockKeys) && Elements(blockKeys) == blocks.Keys
      modifies this
      ensures fresh(blocks.Values - old(blocks.Values)) && Linked() && Increasing(blockKeys) && Elements(blockKeys) == blocks.Keys
      ensures BlockViews() == old(BlockViews())[endKey := BlockState(endKey, id, {}, streams, [])]
      ensures endKey in blocks && blocks[endKey].id == id && blocks[endKey].logStreams == streams
    {
      hide Less, Increasing, Elements;
      var block := new DatastoreBlock(endKey, id);
      block.logStreams := streams;
      InsertBlock(block);
    }

    /** Register a block under its end key, replacing any block that is there. */
    method InsertBlock(block: DatastoreBlock)
      requires Linked() && Increasing(blockKeys) && Elements(blockKeys) == blocks.Keys
      modifies this
      ensures blocks == old(blocks)[block.endKey := block]
      ensures Linked() && BlockViews() == old(BlockViews())[block.endKey := block.View()]
      ensures Increasing(blockKeys) && Elements(blockKeys) == blocks.Keys
      ensures block.endKey in old(blocks) ==> blockKeys == old(blockKeys)
    {
      hide Less, Increasing, Elements;
      if block.endKey !in blocks {
        AddedKey(blockKeys, block.endKey);
        blockKeys := SortStrings(blockKeys + [block.endKey]);
      }
      blocks := blocks[block.endKey := block];
    }

    /** The block that can take v: the first whose key is at or after it, or a new block ending at v. */
    method FindBlock(v: Key, uuid: Id) returns (block: DatastoreBlock)
      requires Linked() && Increasing(blockKeys) && Elements(blockKeys) == blocks.Keys
      modifies this
      ensures Linked() && Increasing(blockKeys) && Elements(blockKeys) == blocks.Keys
      ensures block.endKey in blocks && block == blocks[block.endKey] && fresh(blocks.Values - old(blocks.Values))
      ensures (exists e :: e in old(blocks) && AtMost(v, e)) ==>
        View() == old(View()) && IsRoute(old(View()), v, block.endKey)
      ensures !(exists e :: e in old(blocks) && AtMost(v, e)) ==>
        block.endKey == v && View().blocks == old(View()).blocks[v := BlockState(v, uuid, {}, map[], [])]
    {
      hide Less;
      for i := 0 to |blockKeys|
        invariant forall j :: 0 <= j < i ==> !AtMost(v, blockKeys[j])
      {
        if AtMost(v, blockKeys[i]) {
          assert blockKeys[i] in Elements(blockKeys);
          FirstKey(blockKeys, v, i);
          return blocks[blockKeys[i]];
        }
      }
      NoKey(blockKeys, v);
      block := new DatastoreBlock(v, uuid);
      InsertBlock(block);
    }

    /** What Writer does with one stream from its channel. */
    method WriteOne(st: Stream, uuid: Id)
      requires Valid()
      modifies this, blocks.Values
      ensures Linked() && fresh(blocks.Values - old(blocks.Values))
      ensures WriteStep(old(View()), View(), st, uuid)
    {
      hide Sound, Less, Increasing, Elements, NoOwnTemps, WriteStep;
      ghost var s := View();
      assert Tables(s) by { SoundTables(s); }
      var block := FindBlock(st.variable, uuid);
      ghost var s1 := View();
      AddTo(block, st);
      Wrote(s, s1, View(), st, uuid, block.endKey);
    }

    /** Write every block's unflushed streams to its log. Stopping anywhere inside leaves a directory that has lost nothing. */
    method Flush()
      requires Valid()
      modifies blocks.Values, fs
      ensures Valid() && Flushed(View()) && FlushStep(old(View()), View())
      ensures forall e, k :: e in blocks ==>
        Get(blocks[e].logStreams, k) == old(Get(blocks[e].logStreams, k)) + ValuesOf(old(blocks[e].newStreams), k)
      ensures old(fs.history) <= fs.history
      ensures forall i :: |old(fs.history)| <= i < |fs.history| ==> FlushCrash(old(View()), fs.history[i])
    {
      hide Sound, PartlyFlushed, FlushCrash, FlushStep;
      ghost var s := View();
      var left := blocks.Keys;
      NothingFlushed(s);
      assert s.blocks.Keys == blocks.Keys;
      while left != {}
        invariant left <= blocks.Keys && Linked()
        invariant PartlyFlushed(s, View(), left)
        invariant old(fs.history) <= fs.history
        invariant forall i :: |old(fs.history)| <= i < |fs.history| ==> FlushCrash(s, fs.history[i])
      {
        var e :| e in left;
        ghost var s1 := View();
        if |blocks[e].newStreams| > 0 {
          FlushOne(e);
          FlushedOneMore(s, s1, left, e);
        } else {
          FlushedNothing(s, s1, left, e);
        }
        left := left - {e};
      }
      FlushedAll(s, View());
      FlushKeepsSound(s, View());
      FlushedInOrder(s, View());
    }

    method FlushOne(e: Key)
      requires Linked() && e in blocks && blocks[e].newStreams != []
      modifies blocks[e], fs
      ensures Linked() && View() == AfterFlushing(old(View()), e)
      ensures old(fs.history) <= fs.history
      ensures forall i :: |old(fs.history)| <= i < |fs.history| ==>
        SomeLogPart(old(fs.View()), fs.history[i], old(View()).blocks[e].id, old(View()).blocks[e].newStreams)
    {
      hide LogPart, SomeLogPart;
      blocks[e].FlushTo(fs);
    }

    /** Rewrite a block's file with its logged streams merged in, then remove the log. */
    method CompactBlock(e: Key)
      requires Valid() && e in blocks
      modifies blocks[e], fs
      ensures Linked() && CompactStep(old(View()), View(), e)
      ensures Compactable(old(View()).blocks[e], old(fs.View())) ==> Valid()
      ensures old(fs.history) <= fs.history
      ensures forall i :: |old(fs.history)| <= i < |fs.history| ==> CompactCrash(old(View()), e, fs.history[i])
    {
      hide Sound, IsWritten, Merged, CompactStep, CompactFiles;
      ghost var s := View();
      SoundTables(s);
      MergedNonEmpty(s, e);
      CompactInPlace(e);
      CompactedInPlace(s, View(), e);
      CompactKeepsSoundIff(s, View(), e);
    }

    method CompactInPlace(e: Key)
      requires Linked() && e in blocks && TempName(blocks[e].id, pid) !in fs.temps
      requires forall k :: k in Merged(blocks[e].View(), fs.View()) ==> Merged(blocks[e].View(), fs.View())[k] != []
      modifies blocks[e], fs
      ensures Linked() && blocks[e].id in fs.files
      ensures IsWritten(fs.files[blocks[e].id], Merged(old(View()).blocks[e], old(fs.View())))
      ensures View() == old(View()).(disk := Compacted(old(fs.View()), blocks[e].id, fs.files[blocks[e].id]),
        blocks := old(View()).blocks[e := CompactedBlock(old(View()).blocks[e], Merged(old(View()).blocks[e], old(fs.View())).Keys)])
      ensures old(fs.history) <= fs.history
      ensures forall i :: |old(fs.history)| <= i < |fs.history| ==>
        CompactFiles(old(View()).blocks[e], old(fs.View()), fs.history[i])
    {
      hide IsWritten, Merged, IsEnd;
      blocks[e].Compact(fs, pid);
    }

    /** Split a block that has at least two keys. The lower half goes to a new block ending at the returned key. */
    method SplitBlock(e: Key, uuid: Id) returns (ok: bool, ghost at: Key)
      requires Valid() && e in blocks && FreshId(View(), uuid)
      modifies this, blocks[e], fs
      ensures Linked() && fresh(blocks.Values - old(blocks.Values))
      ensures ok <==> |BlockKeys(old(View()).blocks[e])| >= 2
      ensures !ok ==> View() == old(View()) && fs.history == old(fs.history)
      ensures ok ==> SplitStep(old(View()), View(), e, uuid, at)
      ensures ok && UnflushedAbove(old(View()).blocks[e], at) && at !in old(View()).blocks ==> Valid()
      ensures old(fs.history) <= fs.history
      ensures forall i :: |old(fs.history)| <= i < |fs.history| ==> SplitCrash(old(View()), e, uuid, at, fs.history[i])
    {
      hide Sound, IsWritten, Merged, CompactStep, SplitStep, CompactFiles, MidSplit, SplitDone, FreshId, IsSplitKey, UpTo, After,
        Increasing, Elements, UnflushedAbove, Less, Compactable, BlockKeys, SplitFiles, NoOwnTemps;
      ghost var s := View();
      at := [];
      var keys := KeysOf(e);
      if |keys| < 2 {
        return false, at;
      }
      var m := MiddleKey(keys);
      at := m;
      SplitReady(s, e, uuid, at);
      CompactBlock(e);
      ghost var s1 := View();
      CompactedReady(s, s1, e, uuid);
      SplitInPlace(e, uuid, m);
      SplitFrom(s, s1, View(), e, uuid, at);
      ok := true;
      if UnflushedAbove(s.blocks[e], at) && at !in s.blocks {
        SplitKeepsSound(s, View(), e, uuid, at);
      }
      forall i | |old(fs.history)| <= i < |fs.history| ensures SplitCrash(s, e, uuid, at, fs.history[i]) {
        if !CompactCrash(s, e, fs.history[i]) {
          SplitCrashFrom(s, s1, e, uuid, at, fs.history[i]);
        }
      }
    }

    method KeysOf(e: Key) returns (keys: set<Key>)
      requires e in blocks
      ensures keys == BlockKeys(blocks[e].View())
    {
      keys := blocks[e].headerIndex + blocks[e].logStreams.Keys + Variables(blocks[e].newStreams);
    }

    /** The last key of the lower half. */
    method MiddleKey(keys: set<Key>) returns (m: Key)
      requires |keys| >= 2
      ensures IsSplitKey(keys, m)
    {
      hide Less;
      var unsorted: seq<Key>, left := [], keys;
      while left != {}
        invariant left <= keys && Elements(unsorted) == keys - left && |unsorted| == |keys| - |left|
        invariant forall i, j :: 0 <= i < j < |unsorted| ==> unsorted[i] != unsorted[j]
      {
        var k :| k in left;
        assert forall i :: 0 <= i < |unsorted| ==> unsorted[i] in Elements(unsorted);
        assert Elements(unsorted + [k]) == Elements(unsorted) + {k};
        unsorted := unsorted + [k];
        left := left - {k};
      }
      var sorted := SortStrings(unsorted);
      SameSize(sorted, keys);
      m := sorted[|sorted| / 2 - 1];
    }

    /** The second half of a split: read the compacted block, write the lower half under the new id and the rest
        over the old file, and register the new block. */
    method SplitInPlace(e: Key, uuid: Id, m: Key)
      requires Linked() && Tables(View()) && e in blocks && m != e && uuid != blocks[e].id && blocks[e].logStreams == map[]
      requires TempName(blocks[e].id, pid) !in fs.temps && TempName(uuid, pid) !in fs.temps
      requires forall k :: k in Merged(blocks[e].View(), fs.View()) ==> Merged(blocks[e].View(), fs.View())[k] != []
      modifies this, blocks[e], fs
      ensures Linked() && Tables(View()) && fresh(blocks.Values - old(blocks.Values))
      ensures View().blocks == SplitBlocks(old(View()), e, uuid, m)
      ensures SplitFiles(old(View()), e, uuid, m, fs.View(), true) && fs.View().temps == old(fs.View()).temps
      ensures old(fs.history) <= fs.history
      ensures forall i :: |old(fs.history)| <= i < |fs.history| ==> SplitFiles(old(View()), e, uuid, m, fs.history[i], false)
    {
      hide Less, IsWritten, Merged, Increasing, Elements, IsEnd, HalvesWritten, UpTo, After;
      ghost var s := View();
      var block := blocks[e];
      var streams := block.Read(fs);
      var leftblock := new DatastoreBlock(m, uuid);
      WriteHalves(block, leftblock, streams, m);
      assert BlockViews() == s.blocks[e := CompactedBlock(s.blocks[e], After(streams, m).Keys)];
      InsertBlock(leftblock);
    }

    method WriteHalves(block: DatastoreBlock, leftblock: DatastoreBlock, streams: Streams, m: Key)
      requires block != leftblock && block.id != leftblock.id
      requires TempName(block.id, pid) !in fs.temps && TempName(leftblock.id, pid) !in fs.temps
      requires forall k :: k in streams ==> streams[k] != []
      modifies block`headerIndex, leftblock`headerIndex, fs
      ensures block.headerIndex == After(streams, m).Keys && leftblock.headerIndex == UpTo(streams, m).Keys
      ensures HalvesWritten(block.id, leftblock.id, streams, m, old(fs.View()), fs.View(), true) && fs.temps == old(fs.temps)
      ensures old(fs.history) <= fs.history
      ensures forall i :: |old(fs.history)| <= i < |fs.history| ==>
        HalvesWritten(block.id, leftblock.id, streams, m, old(fs.View()), fs.history[i], false)
    {
      hide Less, IsWritten;
      ghost var d := fs.View();
      leftblock.Write(fs, pid, UpTo(streams, m));
      ghost var h := fs.history;
      assert forall i :: |old(fs.history)| <= i < |h| ==> HalvesWritten(block.id, leftblock.id, streams, m, d, h[i], false);
      ghost var d1 := fs.View();
      block.Write(fs, pid, After(streams, m));
      forall i | |h| <= i < |fs.history| ensures HalvesWritten(block.id, leftblock.id, streams, m, d, fs.history[i], false) {
        if i < |fs.history| - 1 {
          assert fs.history[i].files == d1.files && fs.history[i].logs == d1.logs;
        }
      }
    }

    /** Writer: route every stream that arrives on the channel, then flush. Afterwards the store serves what it served
        and what arrived, and all of it is on disk. A store whose blocks overlap, as a crash inside a split leaves it, is served too. */
    method Writer(streams: seq<Stream>, uuids: seq<Id>)
      requires Valid() && NonEmptyStreams(streams)
      requires |uuids| == |streams| && FreshIds(View(), uuids)
      modifies this, blocks.Values, fs
      ensures Valid() && Flushed(View())
      ensures Routed(old(View())) ==> Inv(View())
      ensures forall k :: StoreAt(View(), k) == StoreAt(old(View()), k) + StreamsAt(streams, k)
      ensures forall k :: RecoveredAt(fs.View(), k) == StoreAt(View(), k)
    {
      hide Sound, Routed, WriteStep, FlushStep, StoreAt, StreamsAt, Flushed, RecoveredAt, FreshId;
      ghost var s := View();
      assert uuids[0..] == uuids;
      assert forall k :: StreamsAt(streams[..0], k) == multiset{} by { NothingAt(streams); }
      for i := 0 to |streams|
        invariant Valid() && FreshIds(View(), uuids[i..])
        invariant Routed(s) ==> Routed(View())
        invariant fresh(blocks.Values - old(blocks.Values))
        invariant forall k :: StoreAt(View(), k) == StoreAt(s, k) + StreamsAt(streams[..i], k)
      {
        ghost var s1 := View();
        assert uuids[i..][0] == uuids[i] && uuids[i..][1..] == uuids[i + 1..];
        assert streams[i] in streams;
        WriteOne(streams[i], uuids[i]);
        WroteFirst(s1, View(), streams[i], uuids[i..]);
        forall k ensures StoreAt(View(), k) == StoreAt(s, k) + StreamsAt(streams[..i + 1], k) {
          WriteConserves(s1, View(), streams[i], uuids[i], k);
          assert streams[..i + 1] == streams[..i] + [streams[i]];
          StreamsAtConcat(streams[..i], [streams[i]], k);
        }
      }
      assert streams[..|streams|] == streams;
      ghost var s2 := View();
      Flush();
      if Routed(s2) {
        FlushKeepsRouted(s2, View());
      }
      forall k ensures StoreAt(View(), k) == StoreAt(s2, k) && RecoveredAt(fs.View(), k) == StoreAt(View(), k) {
        FlushConserves(s2, View(), k);
        FlushedIsRecovered(View(), k);
      }
    }

    method AddTo(block: DatastoreBlock, st: Stream)
      requires Linked() && block.endKey in blocks && blocks[block.endKey] == block
      modifies block`newStreams
      ensures Linked()
      ensures View() == old(View()).(blocks := old(View()).blocks[block.endKey :=
                old(View()).blocks[block.endKey].(newStreams := old(View()).blocks[block.endKey].newStreams + [st])])
    {
      block.newStreams := block.newStreams + [st];
    }
  }
}
