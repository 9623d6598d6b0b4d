/** The order of values: what is written for a variable comes after what its block already holds, and flushing and restarting
    keep the order. */
module DatastoreOrder {
  import opened ByteStrings
  import opened DatastoreModel
  import opened DatastoreSteps
  import opened DatastoreProofs
  import opened DatastoreCrash

  /** A block's values for a variable: those in its file, then the logged ones, then the unflushed ones. */
  ghost function InOrder(b: BlockState, d: Disk, k: Key): seq<Sample> {
    ValuesOf(FileOf(d, b.id), k) + Get(b.logStreams, k) + ValuesOf(b.newStreams, k)
  }

  /** What the directory alone holds for the block, in order. */
  ghost function OnDiskInOrder(d: Disk, id: Id, k: Key): seq<Sample> {
    ValuesOf(FileOf(d, id), k) + ValuesOf(LogOf(d, id), k)
  }

  ghost predicate SameOrder(s: State, s': State, e: Key) {
    && e in s.blocks && e in s'.blocks
    && forall k :: InOrder(s'.blocks[e], s'.disk, k) == InOrder(s.blocks[e], s.disk, k)
  }

  // ---------- write ----------

  lemma AppendInOrder(s: State, s': State, st: Stream, e: Key, k: Key)
    requires AppendTo(s, s', st, e)
    ensures e in s.blocks && e in s'.blocks
    ensures InOrder(s'.blocks[e], s'.disk, k) == InOrder(s.blocks[e], s.disk, k) + ValuesOf([st], k)
  {
    hide Less, ValuesOf;
    ValuesOfConcat(s.blocks[e].newStreams, [st], k);
  }

  lemma StartInOrder(s: State, s': State, st: Stream, uuid: Id, k: Key)
    requires FreshId(s, uuid) && StartBlock(s, s', st, uuid)
    ensures st.variable in s'.blocks && InOrder(s'.blocks[st.variable], s'.disk, k) == ValuesOf([st], k)
  {
    hide Less, Tables;
    assert FileOf(s.disk, uuid) == [];
  }

  /** A stream that is written goes behind everything its block holds, and every other block keeps its values in order. */
  lemma WriteInOrder(s: State, s': State, st: Stream, uuid: Id) returns (e: Key)
    requires FreshId(s, uuid) && WriteStep(s, s', st, uuid)
    ensures e in s'.blocks && AtMost(st.variable, e)
    ensures e in s.blocks ==> forall k :: InOrder(s'.blocks[e], s'.disk, k) == InOrder(s.blocks[e], s.disk, k) + ValuesOf([st], k)
    ensures e !in s.blocks ==> forall k :: InOrder(s'.blocks[e], s'.disk, k) == ValuesOf([st], k)
    ensures forall f :: f in s.blocks && f != e ==> SameOrder(s, s', f)
  {
    hide Less, ValuesOf, InOrder;
    if f :| AppendTo(s, s', st, f) {
      e := f;
      forall k ensures InOrder(s'.blocks[e], s'.disk, k) == InOrder(s.blocks[e], s.disk, k) + ValuesOf([st], k) {
        AppendInOrder(s, s', st, e, k);
      }
    } else {
      e := st.variable;
      NewestIsFree(s, e);
      forall k ensures InOrder(s'.blocks[e], s'.disk, k) == ValuesOf([st], k) {
        StartInOrder(s, s', st, uuid, k);
      }
    }
  }

  // ---------- flush and restart ----------

  /** Flushing puts the unflushed values behind the logged ones, stream by stream. */
  lemma FlushedLog(b: BlockState, k: Key)
    ensures Get(FlushBlock(b).logStreams, k) == Get(b.logStreams, k) + ValuesOf(b.newStreams, k)
  {
    AbsorbAllInOrder(b.logStreams, b.newStreams, k);
  }

  lemma FlushInOrder(s: State, s': State, e: Key)
    requires FlushStep(s, s') && e in s.blocks
    ensures SameOrder(s, s', e)
  {
    hide AbsorbAll, ValuesOf;
    var b := s.blocks[e];
    assert FileOf(s'.disk, b.id) == FileOf(s.disk, b.id);
    forall k ensures InOrder(s'.blocks[e], s'.disk, k) == InOrder(b, s.disk, k) {
      FlushedLog(b, k);
      assert ValuesOf([], k) == [] by { NoValues(k); }
    }
  }

  lemma NoValues(k: Key)
    ensures ValuesOf([], k) == []
  {
  }

  /** A sound block with nothing unflushed holds its values in the order in which its files do. */
  lemma FlushedAsOnDisk(b: BlockState, d: Disk, k: Key)
    requires BlockSound(b, d) && b.newStreams == []
    ensures InOrder(b, d, k) == OnDiskInOrder(d, b.id, k)
  {
    hide Less, Variables;
    AbsorbAllInOrder(map[], LogOf(d, b.id), k);
  }

  lemma RestartInOrder(s: State, pid: nat, s': State, e: Key)
    requires Sound(s) && Flushed(s) && IsReopened(s.disk, pid, s') && e in s.blocks
    ensures SameOrder(s, s', e)
  {
    hide Sound, Flushed, IsReopened, InOrder;
    RestartEquivalence(s, pid, s');
    ReopenedDisk(s.disk, pid, s');
  }

  /** What DatastoreBlock.Read collects: the file's values and then the logged ones. */
  lemma MergedInOrder(b: BlockState, d: Disk, k: Key)
    ensures Get(Merged(b, d), k) == ValuesOf(FileOf(d, b.id), k) + Get(b.logStreams, k)
    ensures Merged(b, d).Keys == Variables(FileOf(d, b.id)) + b.logStreams.Keys
  {
    AbsorbAllInOrder(map[], FileOf(d, b.id), k);
    AbsorbAllKeys(map[], FileOf(d, b.id));
    hide AbsorbAll, ValuesOf, Variables;
    CombineInOrder(AbsorbAll(map[], FileOf(d, b.id)), b.logStreams, k);
  }

  lemma CombineInOrder(m: Streams, log: Streams, k: Key)
    ensures Get(Combine(m, log), k) == Get(m, k) + Get(log, k)
  {
  }

  lemma MergedReads(b: BlockState, d: Disk)
    ensures Merged(b, d).Keys == Variables(FileOf(d, b.id)) + b.logStreams.Keys
    ensures forall k :: Get(Merged(b, d), k) == ValuesOf(FileOf(d, b.id), k) + Get(b.logStreams, k)
  {
    hide Merged, ValuesOf, Variables;
    MergedInOrder(b, d, []);
    forall k ensures Get(Merged(b, d), k) == ValuesOf(FileOf(d, b.id), k) + Get(b.logStreams, k) {
      MergedInOrder(b, d, k);
    }
  }

  lemma FlushedLogs(b: BlockState)
    ensures forall k :: Get(FlushBlock(b).logStreams, k) == Get(b.logStreams, k) + ValuesOf(b.newStreams, k)
  {
    hide FlushBlock, ValuesOf;
    forall k ensures Get(FlushBlock(b).logStreams, k) == Get(b.logStreams, k) + ValuesOf(b.newStreams, k) {
      FlushedLog(b, k);
    }
  }

  /** After a flush every block's logged values are the old ones and then what was unflushed. */
  lemma FlushedInOrder(s: State, s': State)
    requires FlushStep(s, s')
    ensures forall e, k :: e in s.blocks ==>
      e in s'.blocks && Get(s'.blocks[e].logStreams, k) == Get(s.blocks[e].logStreams, k) + ValuesOf(s.blocks[e].newStreams, k)
  {
    hide ValuesOf, AbsorbAll;
    forall e, k | e in s.blocks
      ensures e in s'.blocks && Get(s'.blocks[e].logStreams, k) == Get(s.blocks[e].logStreams, k) + ValuesOf(s.blocks[e].newStreams, k)
    {
      FlushedLog(s.blocks[e], k);
    }
  }

  /** A log is loaded in its order. */
  lemma LoadedInOrder(log: seq<Stream>)
    ensures forall k :: Get(AbsorbAll(map[], log), k) == ValuesOf(log, k)
  {
    forall k ensures Get(AbsorbAll(map[], log), k) == ValuesOf(log, k) {
      AbsorbAllInOrder(map[], log, k);
    }
  }
}
