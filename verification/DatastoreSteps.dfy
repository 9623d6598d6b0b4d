/** The run invariants of the block datastore, and each operation as a step between two states. */
module DatastoreSteps {
  import opened ByteStrings
  import opened DatastoreModel

  // ---------- what one block's files must look like ----------

  ghost function DiskKeys(d: Disk, id: Id): set<Key> {
    Variables(FileOf(d, id)) + Variables(LogOf(d, id))
  }

  /** The end key a restart gives the block: the file's header if there is a file, else the log's largest variable. */
  function EndOf(d: Disk, id: Id): Key {
    if id in d.files then d.files[id].endKey else MaxVariable(LogOf(d, id))
  }

  ghost predicate FilesSound(d: Disk, id: Id) {
    && NonEmptyStreams(FileOf(d, id)) && NonEmptyStreams(LogOf(d, id))
    && IsEnd(EndOf(d, id), DiskKeys(d, id))
    && (id in d.files ==> IsEnd(d.files[id].endKey, Variables(d.files[id].streams)))
  }

  ghost predicate DistinctEnds(d: Disk) {
    forall i, j :: i in OnDisk(d) && j in OnDisk(d) && EndOf(d, i) == EndOf(d, j) ==> i == j
  }

  ghost predicate DiskSound(d: Disk) {
    && DistinctEnds(d)
    && forall id {:trigger FilesSound(d, id)} :: id in OnDisk(d) ==> FilesSound(d, id)
  }

  // ---------- the invariants ----------

  /** blockKeys lists exactly the keys of Blocks, in order. */
  ghost predicate Tables(s: State) {
    Increasing(s.blockKeys) && Elements(s.blockKeys) == s.blocks.Keys
  }

  /** A block mirrors its files, ends at its largest key, and is on disk once it has nothing left to flush. */
  ghost predicate BlockSound(b: BlockState, d: Disk) {
    && b.logStreams == AbsorbAll(map[], LogOf(d, b.id))
    && b.index == Variables(FileOf(d, b.id))
    && NonEmptyStreams(b.newStreams)
    && (forall k :: k in Variables(b.newStreams) ==> AtMost(k, b.endKey))
    && (if b.id in OnDisk(d) then EndOf(d, b.id) == b.endKey
        else b.newStreams != [] && b.endKey in Variables(b.newStreams))
  }

  ghost predicate IdsDistinct(s: State) {
    forall e, f :: e in s.blocks && f in s.blocks && s.blocks[e].id == s.blocks[f].id ==> e == f
  }

  ghost predicate Owned(s: State, id: Id) {
    exists e :: e in s.blocks && s.blocks[e].id == id
  }

  ghost predicate BlocksSound(s: State) {
    forall e :: e in s.blocks ==> s.blocks[e].endKey == e && BlockSound(s.blocks[e], s.disk)
  }

  /** Every file and log is sound and belongs to a block. */
  ghost predicate FilesOwned(s: State) {
    forall id {:trigger FilesSound(s.disk, id)} {:trigger Owned(s, id)} :: id in OnDisk(s.disk) ==> FilesSound(s.disk, id) && Owned(s, id)
  }

  /** No temporary file bears this process's id: one that did would be appended to, not replaced. */
  ghost predicate NoOwnTemps(s: State) {
    forall t :: t in s.disk.temps ==> t.pid != s.pid
  }

  /** What every run keeps, crashes and restarts included. */
  ghost predicate Sound(s: State) {
    Tables(s) && IdsDistinct(s) && BlocksSound(s) && FilesOwned(s) && NoOwnTemps(s)
  }

  ghost function BlockKeys(b: BlockState): set<Key> {
    b.index + b.logStreams.Keys + Variables(b.newStreams)
  }

  /** Each key lies in (previous end key, own end key]: no other block could also have taken it. */
  ghost predicate Routed(s: State) {
    forall e, f, k :: e in s.blocks && f in s.blocks && k in BlockKeys(s.blocks[e]) && AtMost(k, f) ==> AtMost(e, f)
  }

  ghost predicate Inv(s: State) {
    Sound(s) && Routed(s)
  }

  ghost predicate Flushed(s: State) {
    forall e :: e in s.blocks ==> s.blocks[e].newStreams == []
  }

  // ---------- steps ----------

  ghost predicate FreshId(s: State, id: Id) {
    id !in OnDisk(s.disk) && !Owned(s, id)
  }

  /** The first block key at or after v. */
  ghost predicate IsRoute(s: State, v: Key, e: Key) {
    e in s.blocks && AtMost(v, e) && forall f :: f in s.blocks && AtMost(v, f) ==> AtMost(e, f)
  }

  /** The stream joins the unflushed streams of the block that its variable routes to. */
  ghost predicate AppendTo(s: State, s': State, st: Stream, e: Key) {
    && IsRoute(s, st.variable, e)
    && s' == s.(blocks := s.blocks[e := s.blocks[e].(newStreams := s.blocks[e].newStreams + [st])])
  }

  /** No block can take the variable: a new block ends there and holds just this stream. */
  ghost predicate StartBlock(s: State, s': State, st: Stream, uuid: Id) {
    && (forall e :: e in s.blocks ==> !AtMost(st.variable, e))
    && s'.blocks == s.blocks[st.variable := BlockState(st.variable, uuid, {}, map[], [st])]
    && s'.disk == s.disk && s'.pid == s.pid && Tables(s')
  }

  /** What Writer does with one stream. */
  ghost predicate WriteStep(s: State, s': State, st: Stream, uuid: Id) {
    (exists e :: AppendTo(s, s', st, e)) || StartBlock(s, s', st, uuid)
  }

  function FlushBlock(b: BlockState): BlockState {
    b.(logStreams := AbsorbAll(b.logStreams, b.newStreams), newStreams := [])
  }

  /** Flush: every block's unflushed streams end up in its log file and in LogStreams. */
  ghost predicate FlushStep(s: State, s': State) {
    && s'.blockKeys == s.blockKeys && s'.pid == s.pid
    && s'.blocks == (map e | e in s.blocks :: FlushBlock(s.blocks[e]))
    && s'.disk.files == s.disk.files && s'.disk.temps == s.disk.temps
    && (forall e :: e in s.blocks ==> LogOf(s'.disk, s.blocks[e].id) == LogOf(s.disk, s.blocks[e].id) + s.blocks[e].newStreams)
    && (forall id :: id in s'.disk.logs <==>
          id in s.disk.logs || exists e :: e in s.blocks && s.blocks[e].id == id && s.blocks[e].newStreams != [])
    && (forall id :: id in s.disk.logs && !Owned(s, id) ==> s'.disk.logs[id] == s.disk.logs[id])
  }

  ghost predicate SortedByTime(values: seq<Sample>) {
    forall i, j :: 0 <= i < j < |values| ==> values[i].timestamp <= values[j].timestamp
  }

  /** A file holding exactly the given streams: one record a variable, each sorted by timestamp, and the right end key. */
  ghost predicate IsWritten(f: BlockFile, m: Streams) {
    && IsEnd(f.endKey, m.Keys)
    && Variables(f.streams) == m.Keys
    && |f.streams| == |m|
    && (forall k :: StreamsAt(f.streams, k) == MapAt(m, k))
    && (forall st :: st in f.streams ==> SortedByTime(st.values) && multiset(st.values) == MapAt(m, st.variable))
  }

  /** What DatastoreBlock.Read collects: the file's streams with the log's values appended. */
  ghost function Merged(b: BlockState, d: Disk): Streams {
    Combine(AbsorbAll(map[], FileOf(d, b.id)), b.logStreams)
  }

  ghost function Compacted(d: Disk, id: Id, f: BlockFile): Disk {
    d.(files := d.files[id := f], logs := d.logs - {id})
  }

  ghost predicate CompactStep(s: State, s': State, e: Key)
    requires e in s.blocks
  {
    var b := s.blocks[e];
    && s'.blockKeys == s.blockKeys && s'.pid == s.pid
    && b.id in s'.disk.files
    && IsWritten(s'.disk.files[b.id], Merged(b, s.disk))
    && s'.disk == Compacted(s.disk, b.id, s'.disk.files[b.id])
    && s'.blocks == s.blocks[e := b.(index := Merged(b, s.disk).Keys, logStreams := map[])]
  }

  /** The last of the lower half of the block's keys, in order. */
  ghost predicate IsSplitKey(keys: set<Key>, m: Key) {
    exists sorted: seq<Key> :: Increasing(sorted) && Elements(sorted) == keys && |sorted| >= 2 && m == sorted[|sorted| / 2 - 1]
  }

  function UpTo(streams: Streams, m: Key): Streams {
    map k | k in streams && AtMost(k, m) :: streams[k]
  }

  function After(streams: Streams, m: Key): Streams {
    map k | k in streams && !AtMost(k, m) :: streams[k]
  }

  ghost function SplitDisk(d: Disk, id: Id, right: BlockFile, uuid: Id, left: BlockFile): Disk {
    d.(files := d.files[id := right][uuid := left], logs := d.logs - {id})
  }

  /** A block with at least two keys is split at m: the new block takes the keys up to m, the old one keeps the rest. */
  ghost predicate SplitStep(s: State, s': State, e: Key, uuid: Id, m: Key)
    requires e in s.blocks
  {
    var b := s.blocks[e];
    var all := Merged(b, s.disk);
    && IsSplitKey(BlockKeys(b), m)
    && Tables(s') && s'.pid == s.pid
    && b.id in s'.disk.files && uuid in s'.disk.files
    && IsWritten(s'.disk.files[uuid], UpTo(all, m))
    && IsWritten(s'.disk.files[b.id], After(all, m))
    && s'.disk == SplitDisk(s.disk, b.id, s'.disk.files[b.id], uuid, s'.disk.files[uuid])
    && s'.blocks == s.blocks[e := b.(index := After(all, m).Keys, logStreams := map[])]
                            [m := BlockState(m, uuid, UpTo(all, m).Keys, map[], [])]
  }

  // ---------- restart ----------

  function LoadedBlock(d: Disk, id: Id): BlockState {
    BlockState(EndOf(d, id), id, Variables(FileOf(d, id)), AbsorbAll(map[], LogOf(d, id)), [])
  }

  /** The state that reading the directory gives, when no two blocks claim one end key. */
  ghost predicate IsReopened(d: Disk, pid: nat, s: State) {
    && s.disk == d && s.pid == pid && Tables(s)
    && (forall id :: id in OnDisk(d) ==> EndOf(d, id) in s.blocks && s.blocks[EndOf(d, id)] == LoadedBlock(d, id))
    && (forall e :: e in s.blocks ==> s.blocks[e].id in OnDisk(d) && EndOf(d, s.blocks[e].id) == e)
  }

  // ---------- crash points ----------

  /** The three stages of a compaction on disk: only temporary files touched, the file replaced, the log gone too. */
  ghost predicate CompactFiles(b: BlockState, d: Disk, d': Disk) {
    || (d'.files == d.files && d'.logs == d.logs)
    || (b.id in d'.files && IsWritten(d'.files[b.id], Merged(b, d)) && d'.files == d.files[b.id := d'.files[b.id]]
        && (d'.logs == d.logs || d'.logs == d.logs - {b.id}))
  }

  /** The directory somewhere inside a compaction. */
  ghost predicate CompactCrash(s: State, e: Key, d: Disk)
    requires e in s.blocks
  {
    CompactFiles(s.blocks[e], s.disk, d)
  }

  /** The directory inside a split: inside its compaction, or with the left file in place, or with both. */
  ghost predicate SplitCrash(s: State, e: Key, uuid: Id, m: Key, d: Disk)
    requires e in s.blocks
  {
    || CompactCrash(s, e, d)
    || MidSplit(s, e, uuid, m, d)
    || SplitDone(s, e, uuid, m, d)
  }

  /** The left file is in place and the old block still holds everything. */
  ghost predicate MidSplit(s: State, e: Key, uuid: Id, m: Key, d: Disk)
    requires e in s.blocks
  {
    var b := s.blocks[e];
    && b.id in d.files && uuid in d.files
    && IsWritten(d.files[b.id], Merged(b, s.disk))
    && IsWritten(d.files[uuid], UpTo(Merged(b, s.disk), m))
    && d.files == s.disk.files[b.id := d.files[b.id]][uuid := d.files[uuid]]
    && d.logs == s.disk.logs - {b.id}
  }

  /** Both new files are in place. */
  ghost predicate SplitDone(s: State, e: Key, uuid: Id, m: Key, d: Disk)
    requires e in s.blocks
  {
    var b := s.blocks[e];
    && b.id in d.files && uuid in d.files
    && IsWritten(d.files[uuid], UpTo(Merged(b, s.disk), m))
    && IsWritten(d.files[b.id], After(Merged(b, s.disk), m))
    && d.files == s.disk.files[b.id := d.files[b.id]][uuid := d.files[uuid]]
    && d.logs == s.disk.logs - {b.id}
  }

  /** The block's log has gained a prefix of its unflushed streams. */
  ghost predicate LogGrew(b: BlockState, d: Disk, d': Disk) {
    exists n | 0 <= n <= |b.newStreams| :: LogOf(d', b.id) == LogOf(d, b.id) + b.newStreams[..n]
  }

  /** The directory inside a flush: each log has grown by some of its block's unflushed streams, in order. */
  ghost predicate FlushCrash(s: State, d: Disk) {
    && d.files == s.disk.files
    && (forall e :: e in s.blocks ==> LogGrew(s.blocks[e], s.disk, d))
    && (forall id :: id in d.logs ==> id in s.disk.logs || Owned(s, id))
    && (forall id :: id in s.disk.logs ==> id in d.logs)
    && (forall id :: id in s.disk.logs && !Owned(s, id) ==> d.logs[id] == s.disk.logs[id])
  }
}
