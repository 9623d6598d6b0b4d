# Open Instrument: a verified model

Open Instrument is a store for time series with two implementations, one in C++ and one in Go, on top of a few data
structures of their own. This project models the parts where a mistake loses data or returns the wrong data, and proves
what those parts are for.

`dafny verify dfyconfig.toml` checks everything.

## What is modelled

**The Go block datastore.** A directory of key-range blocks; each block has a file, an append-only log, and streams not
yet flushed. `DatastoreModel`, `DatastoreSteps` hold the state and each operation as a step between two states;
`DatastoreProofs`, `DatastoreSplit`, `DatastoreCrash` prove what each step keeps and loses; `DatastoreOrder` is about the order of values; `DatastoreSafe` adds what survives
a crash inside a flush; `DatastoreRuns` proves it over whole runs, with crashes and restarts, and `DatastoreWitness` has two
runs that go wrong. `Datastore` has the operations as methods of classes that change maps and slices in
place and act on a `FileSystem`, a device that remembers every directory a process stopping in between would leave; each
method is proved to perform its step and to pass only through the crash points that the theorems cover, so that every step
the theorems speak of can happen.
`BlockFormat` goes below that, to the bytes of a block file and the Go record framing, which justifies treating a file as a
header and a list of streams.

**Data structures and codecs.** `Trie` and `TrieIterator` (a sorted-child trie as a finite map, and its explicit-stack
iterator); `Lookup3` (three loops, two tails and the word version of one hash); `Cord` (chunked byte string); `Base64`;
`HashRing` (the C++ ordered map and the Go sorted array).

**C++ records.** `ProtoStream` (framed file with resynchronisation), `RecordLog` (run-length recording, log and replay),
`MergeIterator` (k-way merge and the search in front of it).

**Arithmetic.** `UniformTimeSeries`, `Interpolate`, `Calendar`.

Strings are byte strings in the byte-wise order that Go and the trie use. Unsigned 32-bit arithmetic is written out modulo
2^32; doubles are real numbers. Checksums, message parsing and serialisation, fresh ids and process ids are parameters.

## Where the code differs from what it promises

Where a promise can fail, a lemma or contract says when it holds, or gives the runs in which it does not.

- Compacting a block that has never been flushed writes the empty end key (`DatastoreProofs.CompactKeepsSoundIff`).
- Splitting a block with unflushed streams below the split key leaves them in the wrong block (`DatastoreSplit.SplitKeepsInvIff`).
- After a crash in the middle of a split, a later split overwrites a block in memory (`DatastoreRuns.CrashThenSplitLosesWrites`,
  `DatastoreWitness.WriteLost`).
- Two crashes inside a flush can leave two empty logs, whose blocks claim one end key (`DatastoreSafe.FlushCrashDiskSoundIff`,
  `DatastoreWitness.TwoEmptyLogs`).
- A block header's start time forgets streams that start at time 0 (`BlockFormats.EveryOrderRightIff`, `BlockFormats.StartLost`).
- The comment on `splitBlock` says that the old block is removed; the code rewrites it with the upper half.
- A trie key with a byte of 128 or more can be inserted and walked to, but not found or erased (`Tries.Trie.Find`,
  `Tries.Trie.Erase`); walking from a prefix that is itself a key returns that key twice (`TrieIterators.WalkPrefix`).
- The merge iterator takes timestamp 0 for "none" (`MergeIterators.MergeCompleteIff`); the in-memory store's search without
  an end skips streams that it should not (`MergeIterators.SkippingSafeIff`).
- Replaying the record log resets the ends of runs (`RecordLogs.EndSurvivesIff`). `RecordLog::Flush` is documented to
  return false when streams are left; it returns true (`RecordLogs.RecordLog.Flush`).
- `Base64Decode` counts in signed 32-bit numbers (`Base64.RoundTripIff`).
- A 0 recorded after a text, or an empty text after a number, joins the run before (`RecordLogs.RunLengthIff`).
- `Cord::Consume` loses count when the bytes span buffers (`Cords.Cord.Consume`); the 32-bit sizes of a cord's buffers wrap
  around (`Cords.CordBuffer.Use`, `Cords.CordBuffer.Consume`, `Cords.Cord.Append`).
- Go writes frames with a checksum of 0, which the C++ reader rejects (`BlockFormats.CppReadsGoIff`).
- `Interpolate` puts a sample on a boundary out twice and passes over the next boundary (`Interpolation.EachOnceIff`);
  its comment also speaks of NaN for missing values, which the code does not produce.
- `mkgmtime` is off by a day for most times from 1901 to March 1968 and for many before (`Calendar.MkGmTimeIff`).

## Model

| member | source | states |
|---|---|---|
| DatastoreRuns.RunKeepsInv | go/src/code.google.com/p/open-instrument/datastore/datastore.go:213-241 | every state of every run of writes, flushes, compactions, splits and clean restarts is sound and routed: blockKeys lists the keys of Blocks in order, and each key lies between the previous end key and its block's own |
| DatastoreRuns.RunConserves | go/src/code.google.com/p/open-instrument/datastore/datastore.go:226-241 | at the end of any run each variable has, as a multiset, the values it had at the start and those written |
| DatastoreRuns.HistoryKeepsSafe | go/src/code.google.com/p/open-instrument/datastore/datastore.go:105-137 | the store stays sound through any number of crashes inside compactions, splits and flushes, and the restarts after them, and blocks that have not reached the disk keep clear of all others |
| DatastoreRuns.FlushedIsServedForever | go/src/code.google.com/p/open-instrument/datastore/datastore.go:317-352 | a value that is on disk at one moment is on disk and served at every later moment, crashes included; values may be duplicated, never lost |
| DatastoreRuns.CrashThenSplitLosesWrites | go/src/code.google.com/p/open-instrument/datastore/datastore.go:403-424 | a counterexample family: crash in the middle of a split, restart, write to the left block, split again; the second split takes the same end key, overwrites the left block in memory, and every such write is gone |
| DatastoreRuns.StepKeepsInv | go/src/code.google.com/p/open-instrument/datastore/datastore.go:319-557 | each operation by itself keeps the invariant under the guards it relies on |
| DatastoreRuns.StepConserves | go/src/code.google.com/p/open-instrument/datastore/datastore.go:319-557 | each operation by itself changes the multiset of values by exactly what it wrote |
| DatastoreRuns.FlushCrashSurvives | go/src/code.google.com/p/open-instrument/datastore/datastore.go:333-339 | a crash between two records of a flush leaves at least what was on disk and nothing that was not being served |
| DatastoreSafe.FlushCrashDiskSoundIff | go/src/code.google.com/p/open-instrument/datastore/datastore.go:172-211 | the directory a crash inside a flush leaves opens without two blocks claiming one end key if and only if at most one of its blocks would end at the empty string, as one with an empty log does |
| DatastoreSafe.FlushCrashDiskSound | go/src/code.google.com/p/open-instrument/datastore/datastore.go:327-339 | in a routed store a crash inside a flush that leaves no log created and still empty leaves a directory that can be reopened |
| DatastoreSafe.SplitKeepsNewRouted | go/src/code.google.com/p/open-instrument/datastore/datastore.go:370-424 | a split into a free key, even of blocks that overlap after an earlier crash, leaves every block that has not reached the disk clear of both halves |
| DatastoreWitness.TwoEmptyLogs | go/src/code.google.com/p/open-instrument/datastore/datastore.go:327-339 | where that condition fails: from an empty directory two writes and two crashes, each just after a log was created, lead to a directory with two blocks ending at the empty string, which no state is the reopening of |
| DatastoreWitness.WriteLost | go/src/code.google.com/p/open-instrument/datastore/datastore.go:403-424 | one run of the counterexample family: keys 1 and 2, a crash halfway through their split, a value written after the restart, a second split, and the value is gone |
| DatastoreRuns.EmptyStoreInv | go/src/code.google.com/p/open-instrument/datastore/datastore.go:45-52 | an empty directory opens into a state that satisfies the invariant |
| ByteStrings.LessIsLexicographic | go/src/code.google.com/p/open-instrument/datastore/datastore.go:213-220 | the order of keys is the lexicographic one: at the first difference the shorter string or the smaller byte comes first |
| DatastoreProofs.WriteConserves | go/src/code.google.com/p/open-instrument/datastore/datastore.go:229-237 | one written stream adds its values to its variable and changes nothing else |
| DatastoreProofs.WriteKeepsSound | go/src/code.google.com/p/open-instrument/datastore/datastore.go:498-517 | routing a stream to a block, or starting a new block for it, keeps the store sound |
| DatastoreProofs.WriteKeepsRouted | go/src/code.google.com/p/open-instrument/datastore/datastore.go:498-517 | and keeps every key in the range of exactly one block |
| DatastoreProofs.FlushConserves | go/src/code.google.com/p/open-instrument/datastore/datastore.go:319-352 | a flush moves values and changes none |
| DatastoreProofs.FlushKeepsSound | go/src/code.google.com/p/open-instrument/datastore/datastore.go:319-352 | after a flush the store is sound and nothing is unflushed |
| DatastoreProofs.CompactConserves | go/src/code.google.com/p/open-instrument/datastore/datastore.go:519-557 | a compaction leaves every variable's values as they were |
| DatastoreProofs.CompactKeepsSoundIff | go/src/code.google.com/p/open-instrument/datastore/datastore.go:727-755 | compaction keeps the store sound exactly when the block has reached the disk or its end key is empty; otherwise the new header lacks the end key |
| DatastoreProofs.NeverFlushedEnd | go/src/code.google.com/p/open-instrument/datastore/datastore.go:723-755 | compacting a block that was never flushed writes a header with the empty end key |
| DatastoreProofs.CompactKeepsRouted | go/src/code.google.com/p/open-instrument/datastore/datastore.go:519-557 | compaction moves no key to another block |
| DatastoreSplit.SplitConserves | go/src/code.google.com/p/open-instrument/datastore/datastore.go:403-424 | a split loses exactly the block, if there is one, that already has the new end key |
| DatastoreSplit.SplitConservesIff | go/src/code.google.com/p/open-instrument/datastore/datastore.go:213-220 | a split loses nothing if and only if no block that holds a value already ends at the split key |
| DatastoreSplit.SplitKeyIsFree | go/src/code.google.com/p/open-instrument/datastore/datastore.go:378-386 | in a routed store the split key is never another block's end key |
| DatastoreSplit.SplitKeyBelowEnd | go/src/code.google.com/p/open-instrument/datastore/datastore.go:379-403 | the split key is one of the block's keys and strictly below its end key |
| DatastoreSplit.SplitKeepsInvIff | go/src/code.google.com/p/open-instrument/datastore/datastore.go:370-373 | a split keeps the invariant if and only if every unflushed stream of the block lies above the split key |
| DatastoreCrash.RestartEquivalence | go/src/code.google.com/p/open-instrument/datastore/datastore.go:107-211 | reopening the directory of a flushed store gives the very same blocks: end keys, ids, indexes, log streams |
| DatastoreCrash.ReopenedIsSound | go/src/code.google.com/p/open-instrument/datastore/datastore.go:107-211 | any sound directory opens into a sound store with nothing unflushed |
| DatastoreCrash.ReopenedServesDisk | go/src/code.google.com/p/open-instrument/datastore/datastore.go:107-211 | a reopened store serves exactly the values that the directory holds |
| DatastoreCrash.FlushedIsRecovered | go/src/code.google.com/p/open-instrument/datastore/datastore.go:811-867 | with nothing unflushed the files alone hold exactly what the store serves |
| DatastoreCrash.CompactCrashSurvives | go/src/code.google.com/p/open-instrument/datastore/datastore.go:544-549 | stopping between any two durable actions of a compaction loses no flushed value |
| DatastoreCrash.CompactCrashDiskSound | go/src/code.google.com/p/open-instrument/datastore/datastore.go:544-549 | and leaves a directory that can be reopened |
| DatastoreCrash.MidSplitRecovered | go/src/code.google.com/p/open-instrument/datastore/datastore.go:416-420 | between the two renames of a split everything is on disk once and the left half a second time |
| DatastoreCrash.SplitCrashSurvives | go/src/code.google.com/p/open-instrument/datastore/datastore.go:378-424 | stopping between any two durable actions of a split loses no flushed value |
| DatastoreCrash.SplitCrashDiskSound | go/src/code.google.com/p/open-instrument/datastore/datastore.go:378-424 | and leaves a directory that can be reopened |
| DatastoreModel.AbsorbAllInOrder | go/src/code.google.com/p/open-instrument/datastore/datastore.go:342-346 | streams absorbed into a map put their values behind those there, stream after stream in order |
| DatastoreOrder.WriteInOrder | go/src/code.google.com/p/open-instrument/datastore/datastore.go:229-237 | a written stream goes behind everything its block holds for the variable, and every other block keeps its values in order |
| DatastoreOrder.FlushedInOrder | go/src/code.google.com/p/open-instrument/datastore/datastore.go:342-347 | after a flush the logged values of every block and variable are the old ones followed by the unflushed ones |
| DatastoreOrder.FlushInOrder | go/src/code.google.com/p/open-instrument/datastore/datastore.go:319-352 | a flush leaves the order of each block's values as it was: file, then log, then unflushed |
| DatastoreOrder.FlushedAsOnDisk | go/src/code.google.com/p/open-instrument/datastore/datastore.go:811-867 | with nothing unflushed a block has its values in the order in which file and log have them |
| DatastoreOrder.RestartInOrder | go/src/code.google.com/p/open-instrument/datastore/datastore.go:107-211 | and so after a restart |
| Datastores.Datastore.Open | go/src/code.google.com/p/open-instrument/datastore/datastore.go:45-53 | the constructor: the state that reading the directory gives, independent of the order in which names are listed when no two blocks claim one end key |
| Datastores.Datastore.ReadBlocks | go/src/code.google.com/p/open-instrument/datastore/datastore.go:107-137 | files first, then logs, refine that same state |
| Datastores.Datastore.ReadBlock | go/src/code.google.com/p/open-instrument/datastore/datastore.go:139-170 | a block with the header's end key and index, registered under that key |
| Datastores.Datastore.ReadBlockLog | go/src/code.google.com/p/open-instrument/datastore/datastore.go:172-211 | the log's streams, merged by variable in the order of the log, go to the block with its id or to a new block ending at the largest variable |
| Datastores.Datastore.InsertBlock | go/src/code.google.com/p/open-instrument/datastore/datastore.go:213-220 | registers a block under its end key, replacing any there, and keeps blockKeys sorted and exact |
| Datastores.Datastore.FindBlock | go/src/code.google.com/p/open-instrument/datastore/datastore.go:498-517 | the block with the least key at or after the variable, or a new block ending at it |
| Datastores.Datastore.WriteOne | go/src/code.google.com/p/open-instrument/datastore/datastore.go:229-237 | performs exactly the write step of the model |
| Datastores.Datastore.Writer | go/src/code.google.com/p/open-instrument/datastore/datastore.go:226-241 | after a channel of streams: everything written is served and on disk, nothing else has changed and the store is sound, also when it was reopened after a crash inside a split; a routed store stays routed |
| Datastores.Datastore.Flush | go/src/code.google.com/p/open-instrument/datastore/datastore.go:319-352 | performs the flush step; for every block and variable the logged values become the old ones followed by the unflushed ones; every directory along the way is one that loses nothing |
| Datastores.Datastore.CompactBlock | go/src/code.google.com/p/open-instrument/datastore/datastore.go:519-557 | performs the compaction step; every directory along the way is one of the listed crash points |
| Datastores.Datastore.SplitBlock | go/src/code.google.com/p/open-instrument/datastore/datastore.go:358-428 | performs the split step when there are two keys or more and otherwise does nothing; every directory along the way is one of the listed crash points |
| Datastores.Datastore.MiddleKey | go/src/code.google.com/p/open-instrument/datastore/datastore.go:379-403 | the last key of the lower half of the sorted keys |
| DatastoreSupport.SplitKeyHalves | go/src/code.google.com/p/open-instrument/datastore/datastore.go:379-403 | half of the block's keys, rounded down, lie at or below the split key |
| Datastores.DatastoreBlock.Read | go/src/code.google.com/p/open-instrument/datastore/datastore.go:811-867 | the file's streams with the log's values appended variable by variable |
| Datastores.DatastoreBlock.Write | go/src/code.google.com/p/open-instrument/datastore/datastore.go:719-809 | the file holds each stream once, sorted by time, under the largest key; until the rename only a temporary file is touched |
| Datastores.DatastoreBlock.Compact | go/src/code.google.com/p/open-instrument/datastore/datastore.go:532-550 | the file is rewritten with the log merged in, then the log goes |
| Datastores.DatastoreBlock.FlushTo | go/src/code.google.com/p/open-instrument/datastore/datastore.go:327-349 | the log gains the unflushed streams record by record, then the memory index does |
| BlockFormats.WriteBlock | go/src/code.google.com/p/open-instrument/protofile.go:199-222 | a block written to a new file is header, streams, footer, byte for byte; every index entry gives its stream's offset, count, first and last time; the header's end is the latest time; the header rewritten at offset 0 touches nothing behind it |
| BlockFormats.BuildHeader | go/src/code.google.com/p/open-instrument/datastore/datastore.go:725-757 | one index entry a stream with the times of its first and last sorted value, the largest key, and as overall time range the latest value's time and the start that the visited streams' first times fold to |
| BlockFormats.HeaderStartIff | go/src/code.google.com/p/open-instrument/datastore/datastore.go:725-753 | no value is before the header's start time if and only if no stream starts at time 0, which the code takes for none, or the stream visited last does |
| BlockFormats.EveryOrderRightIff | go/src/code.google.com/p/open-instrument/datastore/datastore.go:728-750 | it is right in whatever order Go visits the map if and only if no stream starts at 0 or all do |
| BlockFormats.StartLost | go/src/code.google.com/p/open-instrument/datastore/datastore.go:748-750 | streams starting at 0 and at 5, visited in that order, give the start 5 |
| BlockFormats.PutStreams | go/src/code.google.com/p/open-instrument/datastore/datastore.go:768-777 | the streams' frames follow the header, and the recorded positions are where they start |
| BlockFormats.SetOffsets | go/src/code.google.com/p/open-instrument/datastore/datastore.go:779-784 | each entry gets the position of its variable and is otherwise unchanged |
| BlockFormats.HeaderSize | lib/openinstrument.proto:159-165 | filling in offsets and the footer position does not change the header's length, since those fields are fixed-width |
| BlockFormats.IndexAgrees | go/src/code.google.com/p/open-instrument/datastore/datastore.go:781-785 | reading at an entry's offset returns the stream of that entry's variable |
| BlockFormats.StreamsAreRead | go/src/code.google.com/p/open-instrument/protofile.go:82-100 | reading from the header's end until the footer position returns exactly the streams, in file order |
| BlockFormats.EndsAreRead | go/src/code.google.com/p/open-instrument/protofile.go:57-60 | the header is read at 0 and the footer at the position the header gives |
| BlockFormats.FrameIsRead | go/src/code.google.com/p/open-instrument/protofile.go:102-157 | a frame is read back wherever it stands, whatever surrounds it |
| BlockFormats.ReadCases | go/src/code.google.com/p/open-instrument/protofile.go:102-157 | what a read does at any position, byte by byte: six bytes that are no header are passed over, a record cut off reads as the end, one to five bytes are an error |
| BlockFormats.FrameBytes | go/src/code.google.com/p/open-instrument/protofile.go:199-222 | a record is the bytes AD DE, the length from its lowest byte, the message and two zeros |
| BlockFormats.VarintIs | lib/openinstrument.proto:181-189 | a varint's seven-bit groups are the number, lowest first, and every byte but the last has its top bit set |
| BlockFormats.KnownHeaderBytes | lib/openinstrument.proto:181-189 | one header on the wire, byte by byte |
| BlockFormats.KnownIndexBytes | lib/openinstrument.proto:159-165 | and its index entry |
| BlockFormats.ProtoFileReader.Read | go/src/code.google.com/p/open-instrument/protofile.go:102-157 | the reading loop, with its skips and errors, computes the specified outcome and position, and ends |
| BlockFormats.ProtoFileReader.ReadAt | go/src/code.google.com/p/open-instrument/protofile.go:57-60 | the outcome and position of a read from the given position, wherever the reader was |
| BlockFormats.ProtoFileReader.ReadUntil | go/src/code.google.com/p/open-instrument/protofile.go:82-100 | every message up to the limit or the first error |
| BlockFormats.ProtoFileWriter.Write | go/src/code.google.com/p/open-instrument/protofile.go:204-222 | magic, length, message and a zero checksum at the current position |
| BlockFormats.CppReadsGoIff | go/src/code.google.com/p/open-instrument/protofile.go:209-214 | the C++ reader accepts a frame that Go wrote if and only if the message's checksum is 0 |
| BlockFormats.GoReadsCpp | go/src/code.google.com/p/open-instrument/protofile.go:138-148 | the Go reader accepts every frame that C++ wrote, since it does not act on the checksum |
| Tries.Trie.Insert | lib/trie.h:212-229 | refines insertion into a finite map, with the size counting the live keys; the empty key is refused |
| Tries.Trie.Erase | lib/trie.h:231-242 | refines removal from a finite map, with the size counting the live keys, for keys that find can find |
| Tries.Trie.Find | lib/trie.h:249-275 | a node exactly when the key is live and all its bytes are below 128, holding the key's value |
| Tries.Trie.Descend | lib/trie.h:249-303 | the node of the key's path exactly when there is one and all bytes are below 128, because an unsigned character is compared with a signed one |
| Tries.Trie.Child | lib/trie.h:68-82 | get_node: the child for a character, created in order if it is missing; every child list stays strictly sorted |
| Tries.TrieNode.Locate | lib/trie.h:69-78 | the child with the character, or the place where it belongs |
| Tries.TrieNode.Grow | lib/trie.h:74-81 | a new child at its place keeps the list strictly sorted |
| TrieIterators.TrieIterator.Next | lib/trie.h:116-150 | operator++ ends, and moves to the least key not yet visited, or to the end when there is none |
| TrieIterators.TrieIterator.Create | lib/trie.h:101-114 | an iterator on a node without a value starts at the least key below it |
| TrieIterators.WalkAll | lib/trie.h:305-311 | from begin() to end(): every live key, once, in strictly increasing byte order |
| TrieIterators.WalkPrefix | lib/trie.h:280-303 | find_prefix and a walk: exactly the live keys extending the prefix, in order; a prefix that is itself live comes twice; one with a byte of 128 or more finds nothing |
| TrieIterators.LeastFirst | lib/trie.h:111-119 | the key an iterator starts at and the keys of the walk after it are together sorted and complete |
| Lookup3.HashLittle | lib/lookup3.c:279-445 | the same function of the key's bytes and the seed, however the key is aligned and whichever tail is compiled |
| Lookup3Tests.HashTest | lib/hash_test.cc:34-42 | the repository's own test: the hash of "This is a test string" is 2119216193, and the pair is 2119216193 and 2107302499, however the key is read |
| Lookup3.RotIs | lib/lookup3.c:65-65 | rot multiplies by a power of two and brings what overflows back at the bottom: it turns to the left |
| Lookup3.StartIs | lib/lookup3.c:284-284 | the registers start at a constant plus length plus first seed, the last one plus the second seed |
| Bits.BitOfXor | lib/lookup3.c:111-119 | exclusive-or is, bit by bit, the sum without carries |
| Lookup3.HashLittle2 | lib/lookup3.c:458-629 | both results are the digest's registers; with a second seed of 0 the first is hashlittle's |
| Lookup3.HashWord | lib/lookup3.c:170-203 | hashword of words is hashlittle of their little-endian bytes |
| Lookup3.HashWord2 | lib/lookup3.c:213-247 | hashword2 of words is hashlittle2 of their bytes |
| Lookup3.Run | lib/lookup3.c:287-443 | the three loops and the tails all compute the digest of the key |
| Lookup3.MaskedTail | lib/lookup3.c:314-330 | masking the last word adds just the bytes that are the key's |
| Lookup3.WordTail | lib/lookup3.c:333-350 | so does taking the rest of it byte by byte |
| Lookup3.HalfTail | lib/lookup3.c:368-400 | and so does taking it by half words |
| Lookup3.ByteTail | lib/lookup3.c:423-440 | and byte by byte |
| Lookup3.MixMacro | lib/lookup3.c:111-119 | the macro's assignments compute mix |
| Lookup3.FinalMacro | lib/lookup3.c:146-155 | the macro's assignments compute final |
| Lookup3.MixReversible | lib/lookup3.c:69-72 | mix is a bijection on the three registers |
| Lookup3.FinalReversible | lib/lookup3.c:146-155 | so is final |
| Lookup3.DigestReversible | lib/lookup3.c:287-443 | for a fixed key the whole computation is a bijection on the registers: nothing in them is lost |
| Lookup3.MixLineReversible | lib/lookup3.c:111-119 | one line of mix can be undone |
| ProtoStreams.ProtoStreamReader.Next | lib/protobuf.cc:178-229 | ends on every file, and computes the specified scan: message and position |
| ProtoStreams.ProtoStreamReader.FindNextHeader | lib/protobuf.cc:231-253 | ends, at the first position that looks like a header or at the end |
| ProtoStreams.ProtoStreamReader.Read | lib/file.cc:133-148 | as many of the bytes as there are, for every length and position |
| ProtoStreams.ProtoStreamWriter.Write | lib/protobuf.cc:255-280 | appends magic, size, message and checksum, or nothing when the message cannot be serialised |
| ProtoStreams.FoundIsFrame | lib/protobuf.cc:201-227 | a returned message is a frame with right magic, size and checksum at or after everything consumed, and the new position is its end |
| ProtoStreams.NoneMissed | lib/protobuf.cc:184-226 | every valid frame passed over lies inside a frame that cannot be parsed, or behind a header that makes the reader stop |
| ProtoStreams.NextAt | lib/protobuf.cc:178-229 | what Next does at a position, byte by byte: look on from the next byte, stop where it is, or stop at the end of the file |
| ProtoStreams.NextNearEnd | lib/protobuf.cc:183-197 | with fewer than six bytes left it stops at the end |
| ProtoStreams.SeekAt | lib/protobuf.cc:231-253 | and what FindNextHeader does there |
| ProtoStreams.FrameBytes | lib/protobuf.cc:255-280 | a frame is the bytes AD DE, the length, the message and the checksum, numbers from their lowest byte |
| LittleEndian.EncodedByte | lib/protobuf.cc:258-274 | byte i of a number is its digit i to base 256 |
| ProtoStreams.ReadsAll | lib/protobuf.cc:178-229 | a file of nothing but frames is read to its end: the messages in order and then no more, however often Next is called |
| ProtoStreams.ReadsBack | lib/protobuf.cc:178-229 | frames of at most 4 MiB are read back in order, whatever precedes and follows them |
| ProtoStreams.WrittenIsRead | lib/protobuf.cc:255-280 | what the writer appends to any file is what the reader returns from there |
| ProtoStreams.SkipsDamage | lib/protobuf.cc:184-219 | damage at one position costs nothing beyond it when nothing up to the next frame looks like a header |
| ProtoStreams.HeadersSkipped | lib/protobuf.cc:233-250 | the search for a header passes over no acceptable one |
| MergeIterators.DatastoreIterator.Next | server/disk_datastore.cc:130-176 | moves to the included value with the least timestamp, the earliest stream's on a tie; at the end it stays there |
| MergeIterators.Collect | server/disk_datastore.cc:130-176 | stepping to the end returns exactly the specified merge |
| MergeIterators.MergeSelects | server/disk_datastore.cc:139-173 | each stream's included values come out in the stream's order, each at most once, and all of them if none is at time 0 |
| MergeIterators.MergeCompleteIff | server/disk_datastore.cc:156-164 | everything included is returned if and only if nothing included has timestamp 0, the value that stands for none |
| MergeIterators.MergeIsPart | server/disk_datastore.cc:139-173 | nothing comes out that no stream holds |
| MergeIterators.MergeSorted | server/disk_datastore.cc:139-173 | sorted streams merge into a sorted run |
| MergeIterators.BestIs | server/disk_datastore.cc:130-171 | the head found is the least of those that no head of time 0 at or after them makes the loop forget, the first one on a tie; none is found exactly when all are forgotten |
| MergeIterators.MergeStable | server/disk_datastore.cc:130-171 | of sorted streams without zero times, values of equal time come out in the order of their streams |
| MergeIterators.BasicDatastore.Find | server/disk_datastore.h:195-212 | the iterator it returns yields the merge of the matching streams that were not skipped |
| MergeIterators.BasicDatastore.Record | server/disk_datastore.h:170-184 | appends the value to the variable's stream or starts one |
| MergeIterators.SkippedIff | server/disk_datastore.h:201-206 | a skipped sorted stream holds an included value exactly when the search had no end and was wrongly skipped for that |
| MergeIterators.SkippingSafeIff | server/disk_datastore.h:198-209 | skipping streams leaves the result as it was exactly when no stream is skipped for want of an end |
| MergeIterators.SearchFindsAll | server/disk_datastore.h:195-212 | a search with an end over sorted streams returns every matching value in range, once, each stream in order, sorted by time |
| MergeIterators.SearchReturns | server/disk_datastore.h:195-212 | in terms of times: those of its values from start to end, both included, in order and each once |
| MergeIterators.MergeWithoutEmpty | server/disk_datastore.cc:141-144 | a stream with nothing left changes nothing, wherever it stands |
| RecordLogs.DiskDatastore.RecordNoLog | server/disk_datastore.cc:91-110 | the last run takes the value if a field that it has set matches, keeps its start and ends at the value's time; else a new run starts with the value as given; no other run or variable changes, and the run it ended up in is returned |
| RecordLogs.DiskDatastore.Record | server/disk_datastore.h:230-234 | records and logs, and keeps the log such that replaying it rebuilds the runs in memory |
| RecordLogs.DiskDatastore.constructor | server/disk_datastore.cc:23-27 | starting up leaves in memory exactly the replay of the files |
| RecordLogs.DiskDatastore.ReplayRecordLog | server/disk_datastore.cc:112-128 | replays every entry of every file, oldest first |
| RecordLogs.DiskDatastore.FlushedIsRebuilt | server/disk_datastore.cc:112-128 | once the log is flushed a restart rebuilds every variable's runs, each with the end it had if and only if it has not grown since the process started or has grown to its own start |
| RecordLogs.RecordLog.Add | server/record_log.cc:38-52 | adds one entry at the end |
| RecordLogs.RecordLog.Flush | server/record_log.cc:58-81 | moves entries from memory to the file, in order, as far as writes succeed; log and files together hold what they held; false when the file cannot be opened, and true even when streams are left |
| RecordLogs.RecordLog.Rotate | server/record_log.cc:83-96 | the entries on file and their order do not change |
| RecordLogs.RecordLog.ReplayLog | server/record_log.cc:115-139 | returns the entries of all files in order, then none, and starts again |
| RecordLogs.RunIsReplayed | server/disk_datastore.cc:91-110 | replaying the run a value ended up in does to the replayed runs what recording it did to the live ones, for number, text and mixed values |
| RecordLogs.LoggedIsReplayed | server/disk_datastore.h:230-234 | so one more logged entry keeps replay and memory in step for every variable, ends of runs included |
| RecordLogs.ReplaySplits | server/disk_datastore.cc:117-121 | an entry with several values replays as entries with one each, in order |
| RecordLogs.After | server/disk_datastore.h:230-234 | for a process that starts on any files and records any points, a replay of its log gives its runs, with the ends of those that have grown reset to their start |
| RecordLogs.ReplayResetsEnds | server/disk_datastore.cc:94-109 | one recorded value keeps it so that after a replay every run that has grown ends at its own start, and every other where it did |
| RecordLogs.EndSurvivesIff | server/disk_datastore.cc:112-128 | over whole logs: the next process has the same runs, and a run's end survives if and only if the run has not grown since the files were read, or has grown to its own start |
| RecordLogs.GrownHasEnd | server/disk_datastore.cc:94-109 | when nothing was on file and no value brings an end of its own, the runs that have grown are exactly those with an end |
| RecordLogs.EndLost | server/disk_datastore.cc:118-120 | equal values at times 1 and 2 are one run from 1 to 2, and from 1 to 1 after a restart |
| RecordLogs.RunsAreRunLength | server/disk_datastore.cc:93-109 | recording numbers and texts is run-length encoding, when no 0 follows a text and no empty text a number: maximal blocks of one datum, first and last time, no two neighbours equal |
| RecordLogs.RunLengthIff | server/disk_datastore.cc:93-109 | and only then |
| RecordLogs.SamplesCovered | server/disk_datastore.cc:93-109 | every sample recorded in time order, number or text, lies in a run that has its datum |
| Base64.Base64Encode | lib/base64.cc:40-78 | the loop computes the encoding specified, for every input |
| Base64.EncodedIsNumeral | lib/base64.cc:47-75 | which is the one of section 4 of RFC 4648: the input, filled up with zero bytes to a multiple of three, as one number written to base 64, with one character at the end replaced by padding for every byte filled in |
| Base64.GroupIsNumber | lib/base64.cc:50-53 | the four sextets of a group are the digits to base 64 of the number that its three bytes are to base 256 |
| Base64.AlphabetIs | lib/base64.cc:30-38 | the alphabet is that of table 1 of RFC 4648, and no other byte is a character |
| Base64.UngroupIsNumber | lib/base64.cc:94-96 | and decoding four sextets gives the bytes that are the same number to base 256 |
| Base64.Base64Decode | lib/base64.cc:80-119 | the loop decodes the leading alphabet characters of the text; its int counters overflow exactly when the length mod 2^32 is 2^31 or more and the characters last until the length has been counted down to the least int; of a text of 2^32 characters or more only a part is decoded |
| Base64.RoundTripIff | lib/base64.cc:80-88 | decoding what was encoded gives it back if and only if the text's length fits in an int |
| Base64.DecodedEncoded | lib/base64.cc:40-119 | groups of three, two and one bytes all come back |
| Base64.EncodedLength | lib/base64.cc:47-75 | four characters for every three bytes begun |
| Base64.EncodedShape | lib/base64.cc:61-75 | alphabet characters, then at most two of padding |
| Base64.DecodedOver | lib/base64.cc:104-116 | the slots never filled are looked up too, but no byte that is kept depends on them |
| Cords.CordBuffer.Alloc | lib/cord.h:198-208 | the capacity is the least power of two at or above a size from 1 to 2^31, and 0 for any other |
| Cords.RoundsUp | lib/cord.h:199-205 | the shifts and ors compute that power |
| Cords.CordBuffer.Use | lib/cord.h:244-249 | claims the bytes exactly when they fit, if and only if the 32-bit sum does not wrap around; one that does is granted and makes the buffer smaller |
| Cords.CordBuffer.Consume | lib/cord.h:230-234 | gives up the first bytes, or all, if and only if the 32-bit sum does not wrap around; otherwise bytes given up before come back |
| Cords.Cord.CopyFrom | lib/cord.cc:44-53 | appends the bytes and ends, for a minimum append size of at least 1 |
| Cords.Cord.CopyCord | lib/cord.cc:55-73 | appends what another cord holds |
| Cords.Cord.Append | lib/cord.cc:75-78 | appends a block without copying it; the size is right if and only if the block is below 2^32 bytes, of which the buffer counts the remainder |
| Cords.Cord.GetAppendBuf | lib/cord.cc:80-94 | room at the end of the cord, and the size counted; what was there is unchanged; a new buffer is taken exactly when there is none or the last has neither enough room nor the least worth using, of the least power of two that fits request and default, and otherwise as much as fits of the request is granted |
| Cords.Cord.ToString | lib/cord.cc:96-105 | all the bytes, in order |
| Cords.Cord.Substr | lib/cord.cc:122-141 | exactly the clipped slice, or an error past the end |
| Cords.Cord.Consume | lib/cord.cc:207-243 | returns the first bytes and leaves the rest; the size stays right if and only if none of them lay in a buffer used up before the last one |
| Cords.WholeZeroIff | lib/cord.cc:233-238 | that is, if and only if the first buffer that is not empty has them all |
| Cords.WholeIs | lib/cord.cc:221-240 | what the size fails to count is the bytes of the buffers before the first that has all that is still needed |
| HashRings.HashRing.AddNode | lib/hash.h:43-48 | every replica is on the ring and maps to the node, the places are the old ones and these, and every other place keeps its node |
| HashRings.HashRing.GetNode | lib/hash.h:62-74 | the node at the first place going round from the data's hash: the least one not below it, or the least of all; an error only on an empty ring |
| HashRings.HashRing.GetBackupNode | lib/hash.h:76-89 | the node that would own the data if the owner's place left the ring |
| HashRings.OwnerAfterAdd | lib/hash.h:43-48 | after adding a node every key's owner is its old owner or the new node, collisions included |
| HashRings.ReplicasAt | lib/hash.h:43-48 | what a new node changes: its places are its own, whoever had them, and the others stay as they were |
| HashRings.MovesForward | lib/hash.h:43-48 | a key only moves to a new place that comes before its old one |
| HashRings.NextOwns | lib/hash.h:82-88 | the place after the owner's, with wrap-around, owns the data once the owner's is gone |
| HashRings.FirstFromOwns | lib/hash.h:67-72 | the ordered map's lower bound with wrap-around is the place nearest clockwise |
| HashRings.GoRing.AddNode | go/src/code.google.com/p/open-instrument/hashring/hashring.go:36-51 | appends one tick for each of the spots 1 to n, with the hash of node and spot |
| HashRings.GoRing.Bake | go/src/code.google.com/p/open-instrument/hashring/hashring.go:53-56 | sorts the ticks and keeps them all |
| HashRings.GoRing.Hash | go/src/code.google.com/p/open-instrument/hashring/hashring.go:58-70 | the node of the tick nearest clockwise among those baked |
| HashRings.GoRing.Search | go/src/code.google.com/p/open-instrument/hashring/hashring.go:63-63 | binary search finds the first tick at or after the hash |
| HashRings.SearchIsSuccessor | go/src/code.google.com/p/open-instrument/hashring/hashring.go:58-70 | with distinct hashes the sorted array gives the owner that the ordered map gives |
| HashRings.OrderDoesNotMatter | go/src/code.google.com/p/open-instrument/hashring/hashring.go:36-56 | with distinct hashes the order in which nodes were added does not matter |
| UniformSeries.UniformTimeSeries.AddPoint | lib/counter.cc:18-64 | for inputs in any time order, without dividing by zero or wrapping: the first sets the base, a later one yields the grid points up to its time, each on the straight line from the input before and the one at its own time itself |
| UniformSeries.GridOnce | lib/counter.cc:22-57 | over a whole series the outputs are the grid points after the base, none skipped or repeated, up to the last one not after the latest input |
| UniformSeries.OutputsInterpolate | lib/counter.cc:47-53 | each output is the new input itself or satisfies the equation of the line to it from the input before, strictly between them in time and between them in value |
| UniformSeries.StepDoes | lib/counter.cc:22-57 | and that is what the step does in every state |
| UniformSeries.PastInput | lib/counter.cc:30-59 | after each input the next grid point lies after it |
| UniformSeries.BaseIsFloor | lib/counter.cc:22-25 | the base is the last multiple of the interval at or before the first input |
| Interpolation.Interpolate | go/src/code.google.com/p/open-instrument/mutations/mutations.go:90-137 | the loop computes the specified outputs |
| Interpolation.Receive | go/src/code.google.com/p/open-instrument/mutations/mutations.go:93-135 | one sample: the first is kept under its boundary and put out only on it; a later one before the next boundary is dropped; any other yields every boundary up to its time, each on the straight line from the sample kept before, itself once more if it is on a boundary, and is kept; the next boundary does not wrap |
| Interpolation.StepDoes | go/src/code.google.com/p/open-instrument/mutations/mutations.go:93-135 | and that is what the step does in every state |
| Interpolation.RunDid | go/src/code.google.com/p/open-instrument/mutations/mutations.go:93-135 | so that the outputs of a whole input are those of its samples in turn, each doing that |
| Interpolation.FillTo | go/src/code.google.com/p/open-instrument/mutations/mutations.go:109-122 | the inner loop fills the boundaries up to the sample with values that satisfy the equation of the line, the sample's own value at its own time; no subtraction wraps |
| Interpolation.OutputsAligned | go/src/code.google.com/p/open-instrument/mutations/mutations.go:87-89 | every output is on a boundary and outputs never go back in time, whatever the order of the samples |
| Interpolation.FillBetween | go/src/code.google.com/p/open-instrument/mutations/mutations.go:113-121 | every generated value satisfies the equation of the line through the previous sample kept and the current one, and lies between them |
| Interpolation.ExactTwice | go/src/code.google.com/p/open-instrument/mutations/mutations.go:113-129 | a sample exactly on a boundary, after the first kept, is put out twice |
| Interpolation.BoundarySkipped | go/src/code.google.com/p/open-instrument/mutations/mutations.go:124-129 | and the boundary after it is never put out, whatever comes later |
| Interpolation.EachOnceIff | go/src/code.google.com/p/open-instrument/mutations/mutations.go:87-137 | over whole inputs the outputs are the boundaries, none skipped or repeated, up to the last one not after the latest sample, if and only if no sample after the first is kept and exactly on a boundary |
| Calendar.MkGmTimeIsSeconds | lib/timer.cc:24-41 | from 1970 on mkgmtime equals counting years and months day by day |
| Calendar.KnownTime | lib/timer_test.cc:75-81 | 23:34:02 on the 6th of January 2011 is 1294356842, as in the repository's own test |
| Calendar.NormalIs | lib/timer.cc:31-36 | the month put into the range 0 to 11 is the same month of the same count of years |
| Calendar.MkGmTimeIff | lib/timer.cc:24-41 | for any year at all it does exactly where the errors of its three divisions towards zero cancel |
| Calendar.RoundsRightIs | lib/timer.cc:38-40 | counting years from March: all from March 1968 on, from 1901 every fourth, from 1601 all but those after leap years, and before that only those |
| Calendar.YearStartIs | lib/timer.cc:39-40 | the closed form for leap days equals the Gregorian rule applied year by year |
| Calendar.MonthStartIs | lib/timer.cc:25-38 | the month table with its leap-year correction equals the month lengths added up |
| Calendar.SecondsIncrease | lib/timer.cc:24-41 | of two valid times the earlier has fewer seconds |
| Calendar.MkGmTimeIncreases | lib/timer.cc:24-41 | mkgmtime is strictly increasing in year, month, day, hour, minute and second from 1970 on |

## Left out

- DatastoreRuns.RunConserves: writes of streams without values are not covered; a block file cannot be written for one, since the writer indexes the first value of each stream.
- DatastoreRuns.HistoryKeepsSafe: a crash inside a flush is taken to leave at most one block ending at the empty string, which is exactly what its directory needs (`FlushCrashDiskSoundIff`), and a split to go to a free end key; where these fail, `TwoEmptyLogs` and `CrashThenSplitLosesWrites` say what happens.
- DatastoreRuns.FlushCrashSurvives: a crash cuts a flush between two records, not inside one; a torn record at the end of a log is not modelled.
- Datastores.Datastore.Open: the directory can be listed and its files read; I/O errors and files of another version are not modelled.
- Datastores.DatastoreBlock.Write: the temporary file's name must be free, because it is opened without truncation; the header's time range is in `BlockFormat`, and the compaction log that the footer holds is left opaque.
- Datastores.Datastore.Flush: the streams in memory are values here; that a logged stream and the unflushed one it came from are one object in Go is not captured, nor are goroutines and locks.
- joinBlocks: it removes entries from Blocks and leaves their keys in blockKeys, so that the routing invariant does not survive it as written.
- The datastore's Reader: its pruning by end key is only sound for a variable given in full.
- BlockFormats.IndexAgrees: serialised lengths are below 2^32, and serialisation of streams and footers is a parameter with its inverse.
- ProtoStreams.WrittenIsRead: writes to disk succeed in full, and the file does not grow while it is read.
- Clearing a trie, and erasing through an iterator that is still used afterwards.
- Cords.Cord.CopyFrom: requests of more than 2^31 bytes, where the capacity wraps to 0 and the buffer is overrun, and a minimum append size of 0, where the loop makes no progress, are excluded; `Alloc` and `GetAppendBuf` state both.
- Cords.Cord.Consume: the original removes a buffer from the deque while iterating over it; the model goes on with the next buffer.
- Base64.Base64Decode: counting a signed length down past its minimum is undefined in C++; the model stops there without a result.
- RecordLogs.DiskDatastore.FlushedIsRebuilt: ReindexRecordLog, which runs after every rotation and moves what the rotated files hold to store files that a replay does not read (server/record_log.cc:108, 256), is not modelled; the files a replay reads are taken to be still there.
- RecordLogs.RecordLog.Flush: a write that fails part-way leaves part of a frame in the file; files are lists of entries here, and the reader's way past such remains is in `ProtoStream`.
- Cord::at, Cord::operator== and ConsumeLine.
- Hash64 and the hash of a list of strings, which call hashlittle and hashlittle2.
- HashRing::RemoveNode: its format string differs from AddNode's, so that it does not name the replicas that were added.
- HashRings.OrderDoesNotMatter: ticks with equal hashes come in any order, since the sort is not stable.
- UniformSeries.UniformTimeSeries.AddPoint: inputs within one interval of the end of 64-bit time, where the next grid point wraps, are excluded.
- Interpolation.Interpolate: samples within two durations of the end of 64-bit time are excluded for the same reason.
- Doubles: rounding, infinities and not-a-number; a value that is not a number would never extend a run.
- MergeValueStreams, ValueStreamCalculation, the mutations other than Interpolate, Duration's text form, retention policies and variable parsing.
- Sockets, HTTP, mmap, inotify, clocks, threads, logging and command-line tools.
