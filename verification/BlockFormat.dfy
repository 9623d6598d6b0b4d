/** A block file byte by byte: the Go record framing, and the block writer whose index must agree with the data. */
module BlockFormats {
  import opened ByteStrings
  import opened DatastoreModel
  import opened DatastoreSteps
  import opened DatastoreProofs
  import opened DatastoreSupport
  import opened Sorting
  import opened Wrappers
  import LE = LittleEndian
  import ProtoStreams

  // ---------- framing ----------

  /** Magic, length, message and a checksum that is always written as 0. */
  function Frame(data: Bytes): (f: Bytes)
    ensures |f| == |data| + 8
  {
    LE.Encode(ProtoStreams.MAGIC, 2) + LE.Encode(|data|, 4) + data + [0, 0]
  }

  /** The file with b written at p, over what was there. */
  function Overwritten(file: Bytes, p: nat, b: Bytes): Bytes
    requires p <= |file|
  {
    file[..p] + b + if p + |b| <= |file| then file[p + |b|..] else []
  }

  class ProtoFileWriter {
    var file: Bytes
    var pos: nat

    ghost predicate Valid()
      reads this
    {
      pos <= |file|
    }

    /** Open a file that exists or is created empty, and go to its end. */
    constructor (file: Bytes)
      ensures Valid() && this.file == file && pos == |file|
    {
      this.file, pos := file, |file|;
    }

    method Put(b: Bytes)
      requires Valid()
      modifies this
      ensures Valid() && file == Overwritten(old(file), old(pos), b) && pos == old(pos) + |b|
    {
      file := Overwritten(file, pos, b);
      pos := pos + |b|;
    }

    /** Write one record at the current position. */
    method Write(data: Bytes)
      requires Valid()
      modifies this
      ensures Valid() && file == Overwritten(old(file), old(pos), Frame(data)) && pos == old(pos) + |data| + 8
    {
      hide LE.Encode;
      Put(LE.Encode(ProtoStreams.MAGIC, 2));
      Put(LE.Encode(|data|, 4));
      Put(data);
      Put([0, 0]);
      FourPuts(old(file), old(pos), LE.Encode(ProtoStreams.MAGIC, 2), LE.Encode(|data|, 4), data, [0, 0]);
    }

    method WriteAt(p: nat, data: Bytes)
      requires Valid() && p <= |file|
      modifies this
      ensures Valid() && file == Overwritten(old(file), p, Frame(data)) && pos == p + |data| + 8
    {
      pos := p;
      Write(data);
    }
  }

  lemma FourPuts(file: Bytes, p: nat, a: Bytes, b: Bytes, c: Bytes, d: Bytes)
    requires p <= |file|
    ensures var f1 := Overwritten(file, p, a);
      var f2 := Overwritten(f1, p + |a|, b);
      var f3 := Overwritten(f2, p + |a| + |b|, c);
      Overwritten(f3, p + |a| + |b| + |c|, d) == Overwritten(file, p, a + b + c + d)
  {
    var f1 := Overwritten(file, p, a);
    TwoPuts(file, p, a, b);
    TwoPuts(file, p, a + b, c);
    TwoPuts(file, p, a + b + c, d);
    hide Overwritten;
  }

  lemma TwoPuts(file: Bytes, p: nat, a: Bytes, b: Bytes)
    requires p <= |file|
    ensures p + |a| <= |Overwritten(file, p, a)|
    ensures Overwritten(Overwritten(file, p, a), p + |a|, b) == Overwritten(file, p, a + b)
  {
    var f1 := Overwritten(file, p, a);
    assert f1[..p + |a|] == file[..p] + a;
    if p + |a + b| <= |file| {
      assert f1[p + |a| + |b|..] == file[p + |a| + |b|..];
    }
  }

  datatype Outcome<T> = Got(msg: T) | EndOfFile | Failed

  type Parser<!T> = Bytes -> Option<T>

  function LengthAt(file: Bytes, p: nat): nat
    requires p + 6 <= |file|
  {
    LE.Decode(file[p + 2..p + 6])
  }

  /** What Read does from p, and where it leaves the file. The checksum is read but not acted on. */
  function ReadFrom<T>(file: Bytes, p: nat, parse: Parser<T>): (r: (Outcome<T>, nat))
    requires p <= |file|
    ensures p <= r.1 <= |file|
    decreases |file| - p
  {
    if p == |file| then (EndOfFile, p)
    else if p + 6 > |file| then (Failed, |file|)
    else if LE.Decode(file[p..p + 2]) != ProtoStreams.MAGIC || LengthAt(file, p) >= |file| then ReadFrom(file, p + 6, parse)
    else if p + 8 + LengthAt(file, p) > |file| then (EndOfFile, |file|)
    else
      match parse(file[p + 6..p + 6 + LengthAt(file, p)])
      case None => (Failed, p + 8 + LengthAt(file, p))
      case Some(m) => (Got(m), p + 8 + LengthAt(file, p))
  }

  class ProtoFileReader {
    const file: Bytes
    var pos: nat

    ghost predicate Valid()
      reads this
    {
      pos <= |file|
    }

    constructor (file: Bytes)
      ensures Valid() && this.file == file && pos == 0
    {
      this.file, pos := file, 0;
    }

    /** Up to n bytes. */
    method Take(n: nat) returns (b: Bytes)
      requires Valid()
      modifies this
      ensures Valid() && old(pos) <= pos && b == file[old(pos)..pos] && pos == if old(pos) + n <= |file| then old(pos) + n else |file|
    {
      var end := if pos + n <= |file| then pos + n else |file|;
      b := file[pos..end];
      pos := end;
    }

    method Read<T>(parse: Parser<T>) returns (r: Outcome<T>)
      requires Valid()
      modifies this
      ensures Valid() && (r, pos) == ReadFrom(file, old(pos), parse)
    {
      while true
        invariant old(pos) <= pos <= |file|
        invariant ReadFrom(file, pos, parse) == ReadFrom(file, old(pos), parse)
        decreases |file| - pos
      {
        var start := pos;
        var h := Take(6);
        if |h| == 0 { return EndOfFile; }
        if |h| < 6 { return Failed; }
        assert h[..2] == file[start..start + 2] && h[2..] == file[start + 2..start + 6];
        if LE.Decode(h[..2]) != ProtoStreams.MAGIC { continue; }
        var length := LE.Decode(h[2..]);
        if length >= |file| { continue; }
        var buf := Take(length);
        if |buf| != length { return EndOfFile; }
        var crc := Take(2);
        if |crc| < 2 { continue; }
        match parse(buf) {
          case None => return Failed;
          case Some(m) => return Got(m);
        }
      }
    }

    method ReadAt<T>(p: nat, parse: Parser<T>) returns (r: Outcome<T>)
      requires p <= |file|
      modifies this
      ensures Valid() && (r, pos) == ReadFrom(file, p, parse)
    {
      pos := p;
      r := Read(parse);
    }

    /** Everything ValueStreamReaderUntil sends: messages while the position is before the limit, up to the first error. */
    method ReadUntil<T>(limit: nat, parse: Parser<T>) returns (ms: seq<T>)
      requires Valid()
      modifies this
      ensures Valid() && (ms, pos) == AllUntil(file, old(pos), limit, parse)
    {
      ms := [];
      ghost var all := AllUntil(file, pos, limit, parse).0;
      assert [] + all == all;
      while pos < limit
        invariant Valid()
        invariant AllUntil(file, old(pos), limit, parse) == (ms + AllUntil(file, pos, limit, parse).0, AllUntil(file, pos, limit, parse).1)
        decreases |file| - pos
      {
        ReadMoves(file, pos, parse);
        var r := Read(parse);
        if !r.Got? {
          assert ms + [] == ms;
          return;
        }
        ghost var rest := AllUntil(file, pos, limit, parse).0;
        assert ms + ([r.msg] + rest) == ms + [r.msg] + rest;
        ms := ms + [r.msg];
      }
      assert ms + [] == ms;
    }
  }

  lemma {:induction false} ReadMoves<T>(file: Bytes, p: nat, parse: Parser<T>)
    requires p <= |file|
    ensures ReadFrom(file, p, parse).0.Got? ==> p + 8 <= ReadFrom(file, p, parse).1
    decreases |file| - p
  {
    if p + 6 <= |file| {
      ReadMoves(file, p + 6, parse);
    }
  }

  function AllUntil<T>(file: Bytes, p: nat, limit: nat, parse: Parser<T>): (r: (seq<T>, nat))
    requires p <= |file|
    ensures r.1 <= |file|
    decreases |file| - p
  {
    if p >= limit then ([], p) else
      var (r, next) := ReadFrom(file, p, parse);
      ReadMoves(file, p, parse);
      match r
      case Got(m) => var (ms, end) := AllUntil(file, next, limit, parse); ([m] + ms, end)
      case _ => ([], next)
  }

  /** A frame is read back wherever it stands, if its length fits in 32 bits. */
  lemma FrameIsRead<T>(pre: Bytes, data: Bytes, post: Bytes, parse: Parser<T>)
    requires |data| < 0x1_0000_0000 && parse(data).Some?
    ensures ReadFrom(pre + Frame(data) + post, |pre|, parse) == (Got(parse(data).value), |pre| + |data| + 8)
  {
    hide LE.Encode, LE.Decode;
    var file, p := pre + Frame(data) + post, |pre|;
    LE.Widths();
    LE.DecodeEncode(ProtoStreams.MAGIC, 2);
    LE.DecodeEncode(|data|, 4);
    assert file[p..p + 2] == LE.Encode(ProtoStreams.MAGIC, 2);
    assert file[p + 2..p + 6] == LE.Encode(|data|, 4);
    assert file[p + 6..p + 6 + |data|] == data;
  }

  /** What a read does at a position, in terms of the bytes there. Six bytes that are no header, for want of the magic or with
      a length that is not less than the file's, are passed over as a whole; a record cut off by the end of the file reads as
      the end; fewer than six bytes are an error, unless there are none. */
  lemma ReadCases<T>(file: Bytes, p: nat, parse: Parser<T>)
    requires p <= |file|
    ensures p == |file| ==> ReadFrom(file, p, parse) == (EndOfFile, p)
    ensures p < |file| < p + 6 ==> ReadFrom(file, p, parse) == (Failed, |file|)
    ensures p + 6 <= |file| ==> var n := ProtoStreams.Four(file[p + 2], file[p + 3], file[p + 4], file[p + 5]);
      ReadFrom(file, p, parse) ==
        if file[p] != 0xAD || file[p + 1] != 0xDE || n >= |file| then ReadFrom(file, p + 6, parse)
        else if p + 8 + n > |file| then (EndOfFile, |file|)
        else (if parse(file[p + 6..p + 6 + n]) == None then Failed else Got(parse(file[p + 6..p + 6 + n]).value), p + 8 + n)
  {
    if p + 6 <= |file| {
      ProtoStreams.DecodeTwo(file[p..p + 2]);
      ProtoStreams.DecodeFour(file[p + 2..p + 6]);
      ProtoStreams.MagicBytes(file[p], file[p + 1]);
      hide LE.Decode, ProtoStreams.Two, ProtoStreams.Four;
    }
  }

  /** A record on disk: 0xAD, 0xDE, the length from its lowest byte, the message and two zeros. */
  lemma FrameBytes(data: Bytes)
    requires |data| < 0x1_0000_0000
    ensures var n := |data|;
      Frame(data) == [0xAD, 0xDE, n % 0x100, n / 0x100 % 0x100, n / 0x1_0000 % 0x100, n / 0x100_0000] + data + [0, 0]
  {
    ProtoStreams.EncodeTwo(ProtoStreams.MAGIC);
    ProtoStreams.EncodeFour(|data|);
    hide LE.Encode;
  }

  // ---------- messages ----------

  datatype Index = Index(variable: Key, offset: nat, minTimestamp: nat, maxTimestamp: nat, numValues: nat)

  datatype Header = Header(version: nat, startTimestamp: nat, endTimestamp: nat, index: seq<Index>, endKey: Key, footerPosition: nat)

  /** Serialisation of what this model does not look into: variables, value streams and the footer. */
  datatype Codec<!F> = Codec(
    variable: Key -> Bytes, stream: Stream -> Bytes, footer: F -> Bytes,
    parseHeader: Parser<Header>, parseStream: Parser<Stream>, parseFooter: Parser<F>)

  /** A base-128 number, lowest digits first. */
  function Varint(n: nat): Bytes {
    if n < 128 then [n] else [128 + n % 128] + Varint(n / 128)
  }

  /** The number that a varint's bytes stand for: seven bits of each, from the lowest. */
  function VarintValue(b: Bytes): nat {
    if b == [] then 0 else b[0] % 128 + 128 * VarintValue(b[1..])
  }

  /** Every byte but the last has its top bit set. */
  lemma {:induction false} VarintIs(n: nat)
    ensures var b := Varint(n);
      b != [] && VarintValue(b) == n && b[|b| - 1] < 128 && forall i :: 0 <= i < |b| - 1 ==> b[i] >= 128
  {
    if n >= 128 {
      VarintIs(n / 128);
      assert Varint(n)[1..] == Varint(n / 128);
    } else {
      assert VarintValue([n][1..]) == 0;
    }
  }

  function Delimited(tag: Byte, data: Bytes): Bytes {
    [tag] + Varint(|data|) + data
  }

  /** An index entry on the wire: the offset and the timestamps are fixed64, the count fixed32. */
  function EncodeIndex(ix: Index, variable: Key -> Bytes): Bytes {
    Delimited(0x2a, Delimited(0x0a, variable(ix.variable)) + [0x11] + LE.Encode(ix.offset, 8) + [0x1d] + LE.Encode(ix.numValues, 4)
                    + [0x21] + LE.Encode(ix.minTimestamp, 8) + [0x29] + LE.Encode(ix.maxTimestamp, 8))
  }

  function EncodeIndexes(index: seq<Index>, variable: Key -> Bytes): Bytes {
    if index == [] then [] else EncodeIndex(index[0], variable) + EncodeIndexes(index[1..], variable)
  }

  /** The header on the wire, field by field in the order of their numbers; the footer's position is fixed64. */
  function EncodeHeader(h: Header, variable: Key -> Bytes): Bytes {
    [0x08] + Varint(h.startTimestamp) + [0x10] + Varint(h.endTimestamp) + EncodeIndexes(h.index, variable)
    + [0x30] + Varint(h.version) + Delimited(0x3a, h.endKey) + [0x49] + LE.Encode(h.footerPosition, 8)
  }

  lemma EncodeEight(n: Byte)
    ensures LE.Encode(n, 8) == [n, 0, 0, 0, 0, 0, 0, 0]
  {
    ProtoStreams.EncodeFour(0);
    assert LE.Encode(n, 8) == [n % 0x100] + LE.Encode(n / 0x100, 7);
    assert LE.Encode(0, 7) == [0] + LE.Encode(0, 6) && LE.Encode(0, 6) == [0] + LE.Encode(0, 5) && LE.Encode(0, 5) == [0] + LE.Encode(0, 4);
  }

  function KnownIndex(): Index { Index([65], 2, 3, 4, 5) }

  function KnownHeader(): Header { Header(2, 1, 300, [KnownIndex()], [65, 66], 6) }

  lemma DelimitedIs(tag: Byte, data: Bytes)
    requires |data| < 128
    ensures Delimited(tag, data) == [tag, |data|] + data
  {
    assert Varint(|data|) == [|data|];
  }

  function KnownBody(): (b: Bytes)
    ensures |b| == 35
  {
    [0x0a, 1, 99] + [0x11] + [2, 0, 0, 0, 0, 0, 0, 0] + [0x1d] + [5, 0, 0, 0] + [0x21] + [3, 0, 0, 0, 0, 0, 0, 0]
    + [0x29] + [4, 0, 0, 0, 0, 0, 0, 0]
  }

  lemma KnownIndexBytes(variable: Key -> Bytes)
    requires variable([65]) == [99]
    ensures EncodeIndex(KnownIndex(), variable) == [0x2a, 35] + KnownBody()
  {
    hide LE.Encode, Delimited;
    EncodeEight(2);
    EncodeEight(3);
    EncodeEight(4);
    ProtoStreams.EncodeFour(5);
    DelimitedIs(0x0a, [99]);
    assert [0x0a, 1] + [99] == [0x0a, 1, 99];
    assert EncodeIndex(KnownIndex(), variable) == Delimited(0x2a, KnownBody());
    hide KnownBody, EncodeIndex;
    DelimitedIs(0x2a, KnownBody());
  }

  /** One header on the wire, byte by byte, with the field numbers and wire types of the message's definition. */
  lemma KnownHeaderBytes(variable: Key -> Bytes)
    requires variable([65]) == [99]
    ensures EncodeHeader(KnownHeader(), variable) == [0x08] + [1] + [0x10] + [0xac, 0x02] + EncodeIndex(KnownIndex(), variable)
      + [0x30] + [2] + [0x3a, 2, 65, 66] + [0x49] + [6, 0, 0, 0, 0, 0, 0, 0]
  {
    EncodeEight(6);
    DelimitedIs(0x3a, [65, 66]);
    assert [0x3a, 2] + [65, 66] == [0x3a, 2, 65, 66];
    assert Varint(300) == [0xac] + Varint(2) == [0xac, 0x02];
    OneIndex(KnownIndex(), variable);
    hide LE.Encode, EncodeIndex, EncodeIndexes, Delimited;
  }

  lemma OneIndex(ix: Index, variable: Key -> Bytes)
    ensures EncodeIndexes([ix], variable) == EncodeIndex(ix, variable)
  {
    hide EncodeIndex;
    assert EncodeIndexes([], variable) == [];
  }

  /** The same header but for offsets, counts and timestamps in the index, and for the footer's position. */
  ghost predicate SameButFixed(h: Header, h': Header) {
    && h'.version == h.version && h'.startTimestamp == h.startTimestamp && h'.endTimestamp == h.endTimestamp && h'.endKey == h.endKey
    && |h'.index| == |h.index| && forall i :: 0 <= i < |h.index| ==> h'.index[i].variable == h.index[i].variable
  }

  lemma IndexSize(ix: Index, ix': Index, variable: Key -> Bytes)
    requires ix'.variable == ix.variable
    ensures |EncodeIndex(ix, variable)| == |EncodeIndex(ix', variable)|
  {
  }

  lemma {:induction false} IndexesSize(a: seq<Index>, b: seq<Index>, variable: Key -> Bytes)
    requires |a| == |b| && forall i :: 0 <= i < |a| ==> a[i].variable == b[i].variable
    ensures |EncodeIndexes(a, variable)| == |EncodeIndexes(b, variable)|
  {
    hide EncodeIndex;
    if a != [] {
      IndexSize(a[0], b[0], variable);
      IndexesSize(a[1..], b[1..], variable);
    }
  }

  /** Filling in the offsets and the footer's position does not change the header's length. */
  lemma HeaderSize(h: Header, h': Header, variable: Key -> Bytes)
    requires SameButFixed(h, h')
    ensures |EncodeHeader(h, variable)| == |EncodeHeader(h', variable)|
  {
    hide EncodeIndexes, Varint;
    IndexesSize(h.index, h'.index, variable);
  }

  // ---------- the file ----------

  function StreamFrames(streams: seq<Stream>, encode: Stream -> Bytes): Bytes {
    if streams == [] then [] else StreamFrames(streams[..|streams| - 1], encode) + Frame(encode(streams[|streams| - 1]))
  }

  /** Header, streams, footer. */
  function Image<F>(h: Header, streams: seq<Stream>, footer: F, codec: Codec<F>): Bytes {
    Frame(EncodeHeader(h, codec.variable)) + StreamFrames(streams, codec.stream) + Frame(codec.footer(footer))
  }

  /** Where stream i starts. */
  function OffsetOf<F>(h: Header, streams: seq<Stream>, i: nat, codec: Codec<F>): nat
    requires i <= |streams|
  {
    |Frame(EncodeHeader(h, codec.variable))| + |StreamFrames(streams[..i], codec.stream)|
  }

  lemma LastOffset<F>(h: Header, streams: seq<Stream>, codec: Codec<F>)
    ensures OffsetOf(h, streams, |streams|, codec) == |Frame(EncodeHeader(h, codec.variable))| + |StreamFrames(streams, codec.stream)|
    ensures OffsetOf(h, streams, 0, codec) == |Frame(EncodeHeader(h, codec.variable))|
  {
    assert streams[..|streams|] == streams;
  }

  ghost predicate OneOfEach(streams: seq<Stream>, from: map<Key, seq<Sample>>) {
    && Variables(streams) == from.Keys && |streams| == |from|
    && forall st :: st in streams ==> SortedByTime(st.values) && multiset(st.values) == multiset(from[st.variable])
  }

  /** An index entry that tells of the stream at position i and nothing else. */
  ghost predicate Describes<F>(h: Header, ix: Index, streams: seq<Stream>, i: int, codec: Codec<F>) {
    && 0 <= i < |streams| && streams[i].variable == ix.variable && ix.offset == OffsetOf(h, streams, i, codec)
    && ix.numValues == |streams[i].values| % 0x1_0000_0000 && streams[i].values != []
    && ix.minTimestamp == streams[i].values[0].timestamp && ix.maxTimestamp == streams[i].values[|streams[i].values| - 1].timestamp
    && forall v :: v in streams[i].values ==> ix.minTimestamp <= v.timestamp <= ix.maxTimestamp
  }

  ghost predicate Described<F>(h: Header, ix: Index, streams: seq<Stream>, codec: Codec<F>) {
    exists i :: Describes(h, ix, streams, i, codec)
  }

  ghost predicate IndexRight<F>(h: Header, streams: seq<Stream>, codec: Codec<F>) {
    && |h.index| == |streams|
    && (forall j :: 0 <= j < |h.index| ==> Described(h, h.index[j], streams, codec))
    && h.footerPosition == OffsetOf(h, streams, |streams|, codec)
  }

  // ---------- writing a block ----------

  /** The entries are one for each key, and tell of its sorted values. */
  ghost predicate IndexFor(index: seq<Index>, keys: set<Key>, sorted: map<Key, seq<Sample>>) {
    && |index| == |keys| && IndexKeys(index) == keys <= sorted.Keys
    && forall j :: 0 <= j < |index| ==> Summarises(index[j], Get(sorted, index[j].variable))
  }

  function IndexKeys(index: seq<Index>): set<Key> {
    set j | 0 <= j < |index| :: index[j].variable
  }

  ghost predicate Summarises(ix: Index, values: seq<Sample>) {
    && values != [] && ix.numValues == |values| % 0x1_0000_0000
    && ix.minTimestamp == values[0].timestamp && ix.maxTimestamp == values[|values| - 1].timestamp
  }

  ghost predicate AtTime(t: nat, keys: set<Key>, sorted: map<Key, seq<Sample>>, k: Key, v: Sample)
    requires keys <= sorted.Keys
  {
    k in keys && v in sorted[k] && v.timestamp == t
  }

  /** The later time is that of the latest value, or 0 without any; the earlier one is only right if no value is at time 0. */
  ghost predicate Spans(start: nat, end: nat, keys: set<Key>, sorted: map<Key, seq<Sample>>)
    requires keys <= sorted.Keys
  {
    && (forall k, v :: k in keys && v in sorted[k] ==> v.timestamp <= end)
    && (if keys == {} then end == 0 else exists k, v :: AtTime(end, keys, sorted, k, v))
    && ((forall k, v :: k in keys && v in sorted[k] ==> v.timestamp != 0) ==>
          (start == 0 <==> keys == {}) && forall k, v :: k in keys && v in sorted[k] ==> start <= v.timestamp)
  }

  /** The time of each stream's first value, in the order in which the streams were visited. */
  function Times(index: seq<Index>): (times: seq<nat>)
    ensures |times| == |index|
  {
    seq(|index|, i requires 0 <= i < |index| => index[i].minTimestamp)
  }

  /** The start time after a visit of these streams, 0 standing for none so far. */
  function StartTime(times: seq<nat>): nat {
    if times == [] then 0 else
      var start, first := StartTime(times[..|times| - 1]), times[|times| - 1];
      if start == 0 || first < start then first else start
  }

  /** A header without offsets for the streams sorted so far. */
  ghost predicate Indexed(h: Header, sorted: map<Key, seq<Sample>>) {
    && h.startTimestamp == StartTime(Times(h.index))
    && IndexFor(h.index, sorted.Keys, sorted) && Spans(h.startTimestamp, h.endTimestamp, sorted.Keys, sorted) && IsEnd(h.endKey, sorted.Keys)
  }

  /** The first pass: sort every stream, and make an index without offsets. */
  method BuildHeader(streams: map<Key, seq<Sample>>, version: nat) returns (h: Header, sorted: map<Key, seq<Sample>>)
    requires forall k :: k in streams ==> streams[k] != []
    ensures sorted.Keys == streams.Keys && Indexed(h, sorted) && h.version == version
    ensures forall k :: k in sorted ==> SortedByTime(sorted[k]) && multiset(sorted[k]) == multiset(streams[k])
  {
    hide SortedByTime, Indexed;
    h := Header(version, 0, 0, [], [], 0);
    sorted := map[];
    var left := streams.Keys;
    NothingIndexed(version);
    while left != {}
      invariant left <= streams.Keys && sorted.Keys == streams.Keys - left && Indexed(h, sorted) && h.version == version
      invariant forall k :: k in sorted ==> SortedByTime(sorted[k]) && multiset(sorted[k]) == multiset(streams[k])
    {
      var k :| k in left;
      var values := SortByTimestamp(streams[k]);
      NotEmptied(values, streams[k]);
      h := IndexOne(h, sorted, k, values);
      sorted := sorted[k := values];
      left := left - {k};
    }
  }

  /** One round of the first pass. */
  method IndexOne(h: Header, ghost sorted: map<Key, seq<Sample>>, k: Key, values: seq<Sample>) returns (r: Header)
    requires Indexed(h, sorted) && k !in sorted && values != [] && SortedByTime(values)
    ensures Indexed(r, sorted[k := values]) && r.version == h.version
  {
    hide Less, SortedByTime, IsEnd, IndexFor, Spans, StartTime, Times;
    r := h;
    LargerEnd(r.endKey, sorted.Keys, k);
    if Less(r.endKey, k) {
      r := r.(endKey := k);
    }
    var first, last := values[0].timestamp, values[|values| - 1].timestamp;
    var ix := Index(k, 0, first, last, |values| % 0x1_0000_0000);
    IndexMore(r.index, sorted, ix, values);
    SpansMore(r.startTimestamp, r.endTimestamp, sorted, k, values);
    StartMore(r.index, ix);
    r := r.(index := r.index + [ix]);
    if r.startTimestamp == 0 || first < r.startTimestamp {
      r := r.(startTimestamp := first);
    }
    if last > r.endTimestamp {
      r := r.(endTimestamp := last);
    }
    assert sorted[k := values].Keys == sorted.Keys + {k};
  }

  lemma StartMore(index: seq<Index>, ix: Index)
    ensures var start, first := StartTime(Times(index)), ix.minTimestamp;
      StartTime(Times(index + [ix])) == if start == 0 || first < start then first else start
  {
    assert Times(index + [ix]) == Times(index) + [ix.minTimestamp];
    assert Times(index + [ix])[..|index|] == Times(index);
  }

  lemma NothingIndexed(version: nat)
    ensures Indexed(Header(version, 0, 0, [], [], 0), map[])
  {
  }

  lemma NotEmptied(values: seq<Sample>, from: seq<Sample>)
    requires multiset(values) == multiset(from) && from != []
    ensures values != []
  {
    assert from[0] in multiset(from);
  }

  lemma IndexMore(index: seq<Index>, sorted: map<Key, seq<Sample>>, ix: Index, values: seq<Sample>)
    requires IndexFor(index, sorted.Keys, sorted) && ix.variable !in sorted && Summarises(ix, values)
    ensures IndexFor(index + [ix], sorted.Keys + {ix.variable}, sorted[ix.variable := values])
  {
    hide Summarises, IndexKeys, Get;
    KeysMore(index, ix);
    forall j | 0 <= j < |index| ensures Summarises(index[j], Get(sorted[ix.variable := values], index[j].variable)) {
      KeyOf(index, j);
      GetOther(sorted, ix.variable, values, index[j].variable);
    }
    GetOther(sorted, ix.variable, values, ix.variable);
  }

  lemma KeyOf(index: seq<Index>, j: nat)
    requires j < |index|
    ensures index[j].variable in IndexKeys(index)
  {
  }

  lemma GetOther(sorted: map<Key, seq<Sample>>, k: Key, values: seq<Sample>, j: Key)
    ensures Get(sorted[k := values], j) == if j == k then values else Get(sorted, j)
  {
  }

  lemma KeysMore(index: seq<Index>, ix: Index)
    ensures IndexKeys(index + [ix]) == IndexKeys(index) + {ix.variable}
  {
    assert (index + [ix])[|index|] == ix;
    forall k | k in IndexKeys(index) ensures k in IndexKeys(index + [ix]) {
      var j :| 0 <= j < |index| && index[j].variable == k;
      assert (index + [ix])[j] == index[j];
    }
  }

  lemma SpansMore(start: nat, end: nat, sorted: map<Key, seq<Sample>>, k: Key, values: seq<Sample>)
    requires Spans(start, end, sorted.Keys, sorted) && k !in sorted && values != [] && SortedByTime(values)
    ensures var first, last := values[0].timestamp, values[|values| - 1].timestamp;
      Spans(if start == 0 || first < start then first else start, if last > end then last else end,
        sorted.Keys + {k}, sorted[k := values])
  {
    var more := sorted[k := values];
    forall v | v in values ensures values[0].timestamp <= v.timestamp <= values[|values| - 1].timestamp {
    }
    assert values[0] in more[k];
    assert forall j :: j in sorted ==> more[j] == sorted[j];
    LatestMore(end, sorted, k, values, more, if values[|values| - 1].timestamp > end then values[|values| - 1].timestamp else end);
  }

  lemma LatestMore(end: nat, sorted: map<Key, seq<Sample>>, k: Key, values: seq<Sample>, more: map<Key, seq<Sample>>, later: nat)
    requires k !in sorted && values != [] && more == sorted[k := values]
    requires later == if values[|values| - 1].timestamp > end then values[|values| - 1].timestamp else end
    requires if sorted.Keys == {} then end == 0 else exists j, v :: AtTime(end, sorted.Keys, sorted, j, v)
    ensures more.Keys == sorted.Keys + {k} && exists j, v :: AtTime(later, more.Keys, more, j, v)
  {
    var last := values[|values| - 1];
    if last.timestamp > end || sorted.Keys == {} {
      assert last in more[k];
      assert AtTime(later, more.Keys, more, k, last);
    } else {
      var j, v :| AtTime(end, sorted.Keys, sorted, j, v);
      assert AtTime(later, more.Keys, more, j, v);
    }
  }

  /** One stream of sorted values for each of the keys. */
  ghost predicate Covers(ordered: seq<Stream>, keys: set<Key>, sorted: map<Key, seq<Sample>>) {
    && Variables(ordered) == keys <= sorted.Keys && |ordered| == |keys|
    && forall st :: st in ordered ==> st.values == Get(sorted, st.variable)
  }

  /** The position of each stream's variable is where its frame starts. */
  ghost predicate Placed(ordered: seq<Stream>, positions: map<Key, nat>, base: nat, encode: Stream -> Bytes) {
    forall i :: 0 <= i < |ordered| ==> PlacedAt(ordered, i, positions, base, encode)
  }

  ghost predicate PlacedAt(ordered: seq<Stream>, i: nat, positions: map<Key, nat>, base: nat, encode: Stream -> Bytes)
    requires i < |ordered|
  {
    var k := ordered[i].variable;
    k in positions && positions[k] == base + |StreamFrames(ordered[..i], encode)|
  }

  lemma NothingWritten(sorted: map<Key, seq<Sample>>, base: nat, encode: Stream -> Bytes)
    ensures Covers([], {}, sorted) && Placed([], map[], base, encode) && StreamFrames([], encode) == []
  {
  }

  lemma CoversMore(ordered: seq<Stream>, keys: set<Key>, sorted: map<Key, seq<Sample>>, k: Key)
    requires Covers(ordered, keys, sorted) && k in sorted && k !in keys
    ensures Covers(ordered + [Stream(k, sorted[k])], keys + {k}, sorted)
    ensures forall st :: st in ordered ==> st.variable != k
  {
    var st := Stream(k, sorted[k]);
    AppendStream(ordered, st, k);
    forall o | o in ordered ensures o.variable in Variables(ordered) {
    }
    forall o | o in ordered + [st] ensures o in ordered || o == st {
    }
  }

  lemma PlacedMore(ordered: seq<Stream>, positions: map<Key, nat>, base: nat, encode: Stream -> Bytes, k: Key, st: Stream, at: nat)
    requires Placed(ordered, positions, base, encode) && forall o :: o in ordered ==> o.variable != k
    requires st.variable == k && at == base + |StreamFrames(ordered, encode)|
    ensures Placed(ordered + [st], positions[k := at], base, encode)
  {
    hide StreamFrames;
    var more, positions' := ordered + [st], positions[k := at];
    forall i | 0 <= i < |more| ensures PlacedAt(more, i, positions', base, encode) {
      if i < |ordered| {
        assert more[..i] == ordered[..i] && more[i] == ordered[i] && ordered[i] in ordered;
        assert PlacedAt(ordered, i, positions, base, encode);
      } else {
        assert more[..i] == ordered;
      }
    }
  }

  lemma OneMoreFrame(ordered: seq<Stream>, st: Stream, encode: Stream -> Bytes)
    ensures StreamFrames(ordered + [st], encode) == StreamFrames(ordered, encode) + Frame(encode(st))
  {
    assert (ordered + [st])[..|ordered|] == ordered;
  }

  lemma AtTheEnd(file: Bytes, frames: Bytes, b: Bytes)
    ensures Overwritten(file + frames, |file + frames|, b) == file + (frames + b)
  {
  }

  /** The second pass: the streams, in whatever order, and where each one starts. */
  method PutStreams(w: ProtoFileWriter, sorted: map<Key, seq<Sample>>, encode: Stream -> Bytes)
    returns (positions: map<Key, nat>, ghost ordered: seq<Stream>)
    requires w.Valid() && w.pos == |w.file|
    modifies w
    ensures w.Valid() && w.pos == |w.file| && w.file == old(w.file) + StreamFrames(ordered, encode)
    ensures Covers(ordered, sorted.Keys, sorted) && Placed(ordered, positions, |old(w.file)|, encode)
    ensures positions.Keys == sorted.Keys
  {
    hide Covers, Placed, StreamFrames, Overwritten, Frame;
    positions, ordered := map[], [];
    var left := sorted.Keys;
    ghost var start, base := w.file, |w.file|;
    NothingWritten(sorted, base, encode);
    assert sorted.Keys - left == {} == positions.Keys && w.file + [] == w.file;
    while left != {}
      invariant left <= sorted.Keys && w.Valid() && w.pos == |w.file|
      invariant w.file == start + StreamFrames(ordered, encode) && positions.Keys == sorted.Keys - left
      invariant Covers(ordered, sorted.Keys - left, sorted) && Placed(ordered, positions, base, encode)
    {
      var k :| k in left;
      var st := Stream(k, sorted[k]);
      ghost var before := StreamFrames(ordered, encode);
      var at := w.pos;
      w.Write(encode(st));
      CoversMore(ordered, sorted.Keys - left, sorted, k);
      PlacedMore(ordered, positions, base, encode, k, st, at);
      AtTheEnd(start, before, Frame(encode(st)));
      OneMoreFrame(ordered, st, encode);
      positions := positions[k := at];
      ordered := ordered + [st];
      assert sorted.Keys - left + {k} == sorted.Keys - (left - {k});
      left := left - {k};
    }
    assert sorted.Keys - {} == sorted.Keys;
  }

  /** Fill in the offsets. */
  method SetOffsets(index: seq<Index>, positions: map<Key, nat>) returns (r: seq<Index>)
    requires forall j :: 0 <= j < |index| ==> index[j].variable in positions
    ensures |r| == |index| && forall j :: 0 <= j < |index| ==> r[j] == index[j].(offset := positions[index[j].variable])
  {
    r := index;
    for j := 0 to |index|
      invariant |r| == |index|
      invariant forall l :: 0 <= l < j ==> r[l] == index[l].(offset := positions[index[l].variable])
      invariant forall l :: j <= l < |index| ==> r[l] == index[l]
    {
      r := r[j := r[j].(offset := positions[r[j].variable])];
    }
  }

  /** Write a whole block to a new file: the header, the streams, the footer, and the header again with what is known by
      then. Rewriting the header touches nothing behind it. */
  method WriteBlock<F>(streams: map<Key, seq<Sample>>, version: nat, footer: F, codec: Codec<F>)
    returns (w: ProtoFileWriter, h: Header, ghost ordered: seq<Stream>)
    requires forall k :: k in streams ==> streams[k] != []
    ensures w.file == Image(h, ordered, footer, codec) && OneOfEach(ordered, streams) && IndexRight(h, ordered, codec)
    ensures IsEnd(h.endKey, streams.Keys) && h.version == version
    ensures Spans(h.startTimestamp, h.endTimestamp, streams.Keys, streams)
    ensures h.startTimestamp == StartTime(Times(h.index))
  {
    hide IndexFor, Covers, Placed, EncodeHeader, StreamFrames, Spans, StartTime, IsEnd, SortedByTime, IndexRight, OneOfEach, Image,
      Overwritten, Frame;
    var first, sorted := BuildHeader(streams, version);
    w := new ProtoFileWriter([]);
    w.Write(EncodeHeader(first, codec.variable));
    ghost var head := w.file;
    assert head == Frame(EncodeHeader(first, codec.variable)) by { FirstFrame(Frame(EncodeHeader(first, codec.variable))); }
    var positions;
    positions, ordered := PutStreams(w, sorted, codec.stream);
    assert IndexFor(first.index, streams.Keys, sorted) && Spans(first.startTimestamp, first.endTimestamp, streams.Keys, sorted);
    IndexVariables(first.index, streams.Keys, sorted);
    var index := SetOffsets(first.index, positions);
    h := first.(index := index, footerPosition := w.pos);
    assert Times(h.index) == Times(first.index);
    AtTheEnd(head, StreamFrames(ordered, codec.stream), Frame(codec.footer(footer)));
    w.Write(codec.footer(footer));
    HeaderSize(first, h, codec.variable);
    w.WriteAt(0, EncodeHeader(h, codec.variable));
    HeaderReplaced(head, Frame(EncodeHeader(h, codec.variable)), StreamFrames(ordered, codec.stream), Frame(codec.footer(footer)));
    ImageIs(h, ordered, footer, codec);
    OffsetsAreRight(first, h, ordered, streams, sorted, positions, codec);
    StreamsAreRight(ordered, streams, sorted);
    SpansSame(h.startTimestamp, h.endTimestamp, sorted, streams);
  }

  lemma SpansSame(start: nat, end: nat, a: map<Key, seq<Sample>>, b: map<Key, seq<Sample>>)
    requires a.Keys == b.Keys && (forall k :: k in a ==> multiset(a[k]) == multiset(b[k])) && Spans(start, end, a.Keys, a)
    ensures Spans(start, end, b.Keys, b)
  {
    forall k, v | k in a ensures v in a[k] <==> v in b[k] {
      assert v in multiset(a[k]) <==> v in multiset(b[k]);
    }
    if a.Keys != {} {
      var k, v :| AtTime(end, a.Keys, a, k, v);
      assert AtTime(end, b.Keys, b, k, v);
    }
  }

  lemma IndexVariables(index: seq<Index>, keys: set<Key>, sorted: map<Key, seq<Sample>>)
    requires IndexFor(index, keys, sorted)
    ensures forall j :: 0 <= j < |index| ==> index[j].variable in keys
  {
  }

  lemma ImageIs<F>(h: Header, streams: seq<Stream>, footer: F, codec: Codec<F>)
    ensures Image(h, streams, footer, codec) ==
      Frame(EncodeHeader(h, codec.variable)) + StreamFrames(streams, codec.stream) + Frame(codec.footer(footer))
  {
  }

  lemma FirstFrame(b: Bytes)
    ensures Overwritten([], 0, b) == b
  {
  }

  lemma HeaderReplaced(head: Bytes, head': Bytes, body: Bytes, tail: Bytes)
    requires |head| == |head'|
    ensures Overwritten(head + (body + tail), 0, head') == head' + body + tail
  {
  }

  lemma OffsetsAreRight<F>(first: Header, h: Header, ordered: seq<Stream>, streams: map<Key, seq<Sample>>,
      sorted: map<Key, seq<Sample>>, positions: map<Key, nat>, codec: Codec<F>)
    requires IndexFor(first.index, streams.Keys, sorted) && sorted.Keys == streams.Keys
    requires forall k :: k in sorted ==> SortedByTime(sorted[k]) && multiset(sorted[k]) == multiset(streams[k])
    requires Covers(ordered, sorted.Keys, sorted)
    requires Placed(ordered, positions, |Frame(EncodeHeader(h, codec.variable))|, codec.stream)
    requires |h.index| == |first.index|
    requires forall j :: 0 <= j < |h.index| ==> first.index[j].variable in positions
    requires forall j :: 0 <= j < |h.index| ==> h.index[j] == first.index[j].(offset := positions[first.index[j].variable])
    requires h.footerPosition == |Frame(EncodeHeader(h, codec.variable))| + |StreamFrames(ordered, codec.stream)|
    ensures IndexRight(h, ordered, codec)
  {
    hide EncodeHeader, StreamFrames, SortedByTime, Summarises, Placed, Describes, Frame, OffsetOf, Variables;
    forall j | 0 <= j < |h.index| ensures Described(h, h.index[j], ordered, codec) {
      var k := first.index[j].variable;
      var i := FindStream(ordered, k);
      assert ordered[i].values == sorted[k] by { assert ordered[i] in ordered; }
      IsDescribed(first.index[j], h, h.index[j], ordered, i, positions, codec);
    }
    LastOffset(h, ordered, codec);
  }

  lemma StreamsAreRight(ordered: seq<Stream>, streams: map<Key, seq<Sample>>, sorted: map<Key, seq<Sample>>)
    requires sorted.Keys == streams.Keys && Covers(ordered, sorted.Keys, sorted)
    requires forall k :: k in sorted ==> SortedByTime(sorted[k]) && multiset(sorted[k]) == multiset(streams[k])
    ensures OneOfEach(ordered, streams)
  {
    hide SortedByTime;
    forall st | st in ordered ensures st.variable in streams && st.values == sorted[st.variable] {
      assert st.variable in Variables(ordered);
    }
    assert |streams| == |streams.Keys|;
  }

  lemma FindStream(ordered: seq<Stream>, k: Key) returns (i: nat)
    requires k in Variables(ordered)
    ensures i < |ordered| && ordered[i].variable == k
  {
    var st :| st in ordered && st.variable == k;
    i :| i < |ordered| && ordered[i] == st;
  }

  lemma IsDescribed<F>(ix: Index, h: Header, ix': Index, ordered: seq<Stream>, i: nat, positions: map<Key, nat>, codec: Codec<F>)
    requires i < |ordered| && ordered[i].variable == ix.variable && ix.variable in positions
    requires ix' == ix.(offset := positions[ix.variable]) && Summarises(ix, ordered[i].values) && SortedByTime(ordered[i].values)
    requires Placed(ordered, positions, |Frame(EncodeHeader(h, codec.variable))|, codec.stream)
    ensures Describes(h, ix', ordered, i, codec)
  {
    hide EncodeHeader, StreamFrames, Frame;
    assert PlacedAt(ordered, i, positions, |Frame(EncodeHeader(h, codec.variable))|, codec.stream);
    Bracketed(ix, ordered[i].values);
    hide SortedByTime;
  }

  lemma Bracketed(ix: Index, values: seq<Sample>)
    requires Summarises(ix, values) && SortedByTime(values)
    ensures forall v :: v in values ==> ix.minTimestamp <= v.timestamp <= ix.maxTimestamp
  {
  }

  // ---------- the start time ----------

  /** No stream starts before it. */
  ghost predicate StartRight(times: seq<nat>) {
    forall t :: t in times ==> StartTime(times) <= t
  }

  /** It is always the start of some stream. */
  lemma {:induction false} StartIsATime(times: seq<nat>)
    requires times != []
    ensures StartTime(times) in times
  {
    var n := |times| - 1;
    if n > 0 {
      StartIsATime(times[..n]);
    }
  }

  lemma {:induction false} StartWithoutZero(times: seq<nat>)
    requires 0 !in times
    ensures StartRight(times) && (StartTime(times) == 0 <==> times == [])
  {
    if times != [] {
      var init, last := times[..|times| - 1], times[|times| - 1];
      StartWithoutZero(init);
      StartStep(times);
      hide StartTime;
      forall t | t in times ensures StartTime(times) <= t {
        var i :| 0 <= i < |times| && times[i] == t;
        assert i < |init| ==> init[i] == t && t in init;
      }
    }
  }

  lemma StartStep(times: seq<nat>)
    requires times != []
    ensures var start, last := StartTime(times[..|times| - 1]), times[|times| - 1];
      last in times && StartTime(times) == if start == 0 || last < start then last else start
  {
  }

  /** The exact condition for one order of the streams: none starts at 0, or the last one visited does. */
  lemma StartRightIff(times: seq<nat>)
    requires times != []
    ensures StartRight(times) <==> 0 !in times || times[|times| - 1] == 0
  {
    if 0 !in times {
      StartWithoutZero(times);
    } else if times[|times| - 1] == 0 {
      assert StartTime(times) == 0;
    } else {
      assert StartTime(times) != 0;
    }
  }

  /** The exact condition for every order: no stream starts at 0, or all do. Go visits a map in any order. */
  lemma EveryOrderRightIff(times: seq<nat>)
    ensures (forall order: seq<nat> :: multiset(order) == multiset(times) ==> StartRight(order))
       <==> (0 !in times || forall t :: t in times ==> t == 0)
  {
    hide StartTime, StartRight;
    if 0 in times && exists t :: t in times && t != 0 {
      var i :| 0 <= i < |times| && times[i] != 0;
      OrderWrong(times, i);
    } else {
      forall order: seq<nat> | multiset(order) == multiset(times) ensures StartRight(order) {
        OrderRight(order, times);
      }
    }
  }

  function MovedLast(times: seq<nat>, i: nat): seq<nat>
    requires i < |times|
  {
    times[..i] + times[i + 1..] + [times[i]]
  }

  lemma MovedLastSame(times: seq<nat>, i: nat)
    requires i < |times|
    ensures multiset(MovedLast(times, i)) == multiset(times)
  {
    assert times == times[..i] + [times[i]] + times[i + 1..];
  }

  /** Visiting a stream that does not start at 0 last gets it wrong. */
  lemma OrderWrong(times: seq<nat>, i: nat)
    requires i < |times| && times[i] != 0 && 0 in times
    ensures multiset(MovedLast(times, i)) == multiset(times) && !StartRight(MovedLast(times, i))
  {
    MovedLastSame(times, i);
    assert 0 in multiset(MovedLast(times, i));
    StartRightIff(MovedLast(times, i));
  }

  lemma OrderRight(order: seq<nat>, times: seq<nat>)
    requires multiset(order) == multiset(times) && (0 !in times || forall t :: t in times ==> t == 0)
    ensures StartRight(order)
  {
    assert forall t :: t in order <==> t in multiset(order);
    assert forall t :: t in times <==> t in multiset(times);
    if order != [] {
      assert order[|order| - 1] in order;
      StartRightIff(order);
    }
  }

  /** A stream starting at 0 visited before one starting at 5 is forgotten. */
  lemma StartLost()
    ensures StartTime([0, 5]) == 5 && !StartRight([0, 5]) && StartRight([5, 0])
  {
    assert [0, 5][..1] == [0] && [0][..0] == [] && [5, 0][..1] == [5] && [5][..0] == [];
    assert 0 in [0, 5];
  }

  /** Entry j's time is that of a value of its stream, and of none later than the others. */
  lemma TimeOf(index: seq<Index>, sorted: map<Key, seq<Sample>>, j: nat)
    requires IndexFor(index, sorted.Keys, sorted) && j < |index| && forall k :: k in sorted ==> SortedByTime(sorted[k])
    ensures var k := index[j].variable;
      && k in sorted && sorted[k] != [] && sorted[k][0].timestamp == Times(index)[j]
      && forall v :: v in sorted[k] ==> Times(index)[j] <= v.timestamp
  {
    KeyOf(index, j);
    var k := index[j].variable;
    assert Summarises(index[j], Get(sorted, k));
    Bracketed(index[j], sorted[k]);
    hide SortedByTime;
  }

  lemma EntryOf(index: seq<Index>, sorted: map<Key, seq<Sample>>, k: Key) returns (j: nat)
    requires IndexFor(index, sorted.Keys, sorted) && k in sorted
    ensures j < |index| && index[j].variable == k
  {
    assert k in IndexKeys(index);
    j :| 0 <= j < |index| && index[j].variable == k;
  }

  /** For a header: no value is before its start time if and only if no stream starts at 0 or the last one indexed does. */
  lemma HeaderStartIff(h: Header, sorted: map<Key, seq<Sample>>)
    requires Indexed(h, sorted) && h.index != [] && forall k :: k in sorted ==> SortedByTime(sorted[k])
    ensures (forall k, v :: k in sorted && v in sorted[k] ==> h.startTimestamp <= v.timestamp)
       <==> (0 !in Times(h.index) || Times(h.index)[|h.index| - 1] == 0)
  {
    hide Spans, SortedByTime, StartTime, IndexFor, Times, IsEnd;
    var times := Times(h.index);
    StartRightIff(times);
    if StartRight(times) {
      forall k, v | k in sorted && v in sorted[k] ensures h.startTimestamp <= v.timestamp {
        var j := EntryOf(h.index, sorted, k);
        TimeOf(h.index, sorted, j);
        assert times[j] in times;
      }
    } else {
      var t :| t in times && t < StartTime(times);
      var j :| 0 <= j < |times| && times[j] == t;
      TimeOf(h.index, sorted, j);
      var values := sorted[h.index[j].variable];
      assert values[0] in values;
    }
  }

  // ---------- reading it back ----------

  /** The messages of the file survive serialisation, and their lengths fit in 32 bits. */
  ghost predicate Faithful<F>(h: Header, streams: seq<Stream>, footer: F, codec: Codec<F>) {
    && |EncodeHeader(h, codec.variable)| < 0x1_0000_0000 && codec.parseHeader(EncodeHeader(h, codec.variable)) == Some(h)
    && |codec.footer(footer)| < 0x1_0000_0000 && codec.parseFooter(codec.footer(footer)) == Some(footer)
    && forall st :: st in streams ==> |codec.stream(st)| < 0x1_0000_0000 && codec.parseStream(codec.stream(st)) == Some(st)
  }

  lemma {:induction false} FramesAround(streams: seq<Stream>, i: nat, encode: Stream -> Bytes) returns (post: Bytes)
    requires i < |streams|
    ensures StreamFrames(streams, encode) == StreamFrames(streams[..i], encode) + Frame(encode(streams[i])) + post
    decreases |streams| - i
  {
    var n := |streams| - 1;
    if i == n {
      post := [];
      assert StreamFrames(streams, encode) + [] == StreamFrames(streams, encode);
    } else {
      post := FramesAround(streams[..n], i, encode);
      assert streams[..n][..i] == streams[..i];
      post := post + Frame(encode(streams[n]));
    }
  }

  /** Reading at an entry's offset gives the stream of the entry's variable. */
  lemma IndexAgrees<F>(h: Header, streams: seq<Stream>, footer: F, codec: Codec<F>, j: nat)
    requires Faithful(h, streams, footer, codec) && IndexRight(h, streams, codec) && j < |h.index|
    ensures h.index[j].offset <= |Image(h, streams, footer, codec)|
    ensures var r := ReadFrom(Image(h, streams, footer, codec), h.index[j].offset, codec.parseStream).0;
      r.Got? && r.msg in streams && r.msg.variable == h.index[j].variable
  {
    hide EncodeHeader, StreamFrames, Frame, ReadFrom;
    assert Described(h, h.index[j], streams, codec);
    var i :| Describes(h, h.index[j], streams, i, codec);
    StreamIsRead(h, streams, footer, codec, i);
    assert streams[i] in streams;
  }

  lemma StreamIsRead<F>(h: Header, streams: seq<Stream>, footer: F, codec: Codec<F>, i: nat)
    requires Faithful(h, streams, footer, codec) && i < |streams|
    ensures OffsetOf(h, streams, i, codec) <= |Image(h, streams, footer, codec)|
    ensures ReadFrom(Image(h, streams, footer, codec), OffsetOf(h, streams, i, codec), codec.parseStream)
      == (Got(streams[i]), OffsetOf(h, streams, i + 1, codec))
  {
    var pre, post := ImageAround(h, streams, footer, codec, i);
    assert streams[i] in streams;
    assert |codec.stream(streams[i])| < 0x1_0000_0000 && codec.parseStream(codec.stream(streams[i])) == Some(streams[i]);
    hide *;
    FrameIsRead(pre, codec.stream(streams[i]), post, codec.parseStream);
  }

  /** The file on both sides of a stream's frame. */
  lemma ImageAround<F>(h: Header, streams: seq<Stream>, footer: F, codec: Codec<F>, i: nat) returns (pre: Bytes, post: Bytes)
    requires i < |streams|
    ensures Image(h, streams, footer, codec) == pre + Frame(codec.stream(streams[i])) + post
    ensures |pre| == OffsetOf(h, streams, i, codec)
    ensures OffsetOf(h, streams, i + 1, codec) == |pre| + |codec.stream(streams[i])| + 8
  {
    var rest := FramesAround(streams, i, codec.stream);
    OneMoreFrame(streams[..i], streams[i], codec.stream);
    assert streams[..i + 1] == streams[..i] + [streams[i]];
    hide EncodeHeader, StreamFrames;
    var head, before, frame := Frame(EncodeHeader(h, codec.variable)), StreamFrames(streams[..i], codec.stream),
      Frame(codec.stream(streams[i]));
    pre := head + before;
    post := rest + Frame(codec.footer(footer));
    assert |frame| == |codec.stream(streams[i])| + 8;
    Regroup(head, before, frame, rest, Frame(codec.footer(footer)));
  }

  lemma Regroup(a: Bytes, b: Bytes, c: Bytes, d: Bytes, e: Bytes)
    ensures a + (b + c + d) + e == a + b + c + (d + e)
  {
  }

  /** The header comes first, and the footer is where the header says. */
  lemma EndsAreRead<F>(h: Header, streams: seq<Stream>, footer: F, codec: Codec<F>)
    requires Faithful(h, streams, footer, codec) && IndexRight(h, streams, codec)
    ensures ReadFrom(Image(h, streams, footer, codec), 0, codec.parseHeader) == (Got(h), OffsetOf(h, streams, 0, codec))
    ensures h.footerPosition <= |Image(h, streams, footer, codec)|
    ensures ReadFrom(Image(h, streams, footer, codec), h.footerPosition, codec.parseFooter).0 == Got(footer)
  {
    hide EncodeHeader, ReadFrom;
    var head, body, tail := Frame(EncodeHeader(h, codec.variable)), StreamFrames(streams, codec.stream), Frame(codec.footer(footer));
    LastOffset(h, streams, codec);
    FrameIsRead([], EncodeHeader(h, codec.variable), body + tail, codec.parseHeader);
    assert [] + head + (body + tail) == head + body + tail;
    FrameIsRead(head + body, codec.footer(footer), [], codec.parseFooter);
    assert head + body + tail + [] == head + body + tail;
  }

  /** From the header on to the footer's position, reading gives exactly the streams, in the order of the file. */
  lemma {:induction false} StreamsAreRead<F>(h: Header, streams: seq<Stream>, footer: F, codec: Codec<F>, i: nat)
    requires Faithful(h, streams, footer, codec) && IndexRight(h, streams, codec) && i <= |streams|
    ensures OffsetOf(h, streams, i, codec) <= |Image(h, streams, footer, codec)|
    ensures AllUntil(Image(h, streams, footer, codec), OffsetOf(h, streams, i, codec), h.footerPosition, codec.parseStream)
      == (streams[i..], h.footerPosition)
    decreases |streams| - i
  {
    hide EncodeHeader, StreamFrames, ReadFrom, Faithful;
    if i < |streams| {
      StreamIsRead(h, streams, footer, codec, i);
      StreamsAreRead(h, streams, footer, codec, i + 1);
      OffsetsGrow(h, streams, i, codec);
      assert streams[i..] == [streams[i]] + streams[i + 1..];
    } else {
      assert streams[..i] == streams && streams[i..] == [];
    }
  }

  lemma OffsetsGrow<F>(h: Header, streams: seq<Stream>, i: nat, codec: Codec<F>)
    requires i < |streams|
    ensures OffsetOf(h, streams, i, codec) < OffsetOf(h, streams, |streams|, codec)
  {
    var post := FramesAround(streams, i, codec.stream);
    assert streams[..|streams|] == streams;
  }

  // ---------- the two formats ----------

  /** The C++ reader takes a frame that Go wrote only if its checksum happens to be 0. */
  lemma CppReadsGoIff<T>(pre: Bytes, data: Bytes, post: Bytes, fmt: ProtoStreams.Format<T>)
    requires |data| <= ProtoStreams.LIMIT
    ensures ProtoStreams.FrameAt(pre + Frame(data) + post, |pre|, fmt) <==> fmt.crc(data) == 0
  {
    hide LE.Encode, LE.Decode;
    var zero := ProtoStreams.Format(_ => 0, fmt.parse);
    var file := pre + Frame(data) + post;
    LE.Widths();
    LE.DecodeEncode(0, 2);
    assert LE.Encode(0, 2) == [0, 0] by { ZeroBytes(); }
    assert Frame(data) == ProtoStreams.Frame(data, zero);
    ProtoStreams.FrameIsFrame(pre, data, post, zero);
  }

  lemma ZeroBytes()
    ensures LE.Encode(0, 2) == [0, 0]
  {
    assert LE.Encode(0, 1) == [0] + LE.Encode(0, 0);
  }

  /** The Go reader takes every frame that C++ wrote. */
  lemma GoReadsCpp<T>(pre: Bytes, payload: Bytes, post: Bytes, fmt: ProtoStreams.Format<T>)
    requires |payload| <= ProtoStreams.LIMIT && fmt.parse(payload).Some?
    ensures ReadFrom(pre + ProtoStreams.Frame(payload, fmt) + post, |pre|, fmt.parse)
      == (Got(fmt.parse(payload).value), |pre| + |payload| + 8)
  {
    hide LE.Encode, LE.Decode;
    var file, p := pre + ProtoStreams.Frame(payload, fmt) + post, |pre|;
    LE.Widths();
    LE.DecodeEncode(ProtoStreams.MAGIC, 2);
    LE.DecodeEncode(|payload|, 4);
    assert file[p..p + 2] == LE.Encode(ProtoStreams.MAGIC, 2);
    assert file[p + 2..p + 6] == LE.Encode(|payload|, 4);
    assert file[p + 6..p + 6 + |payload|] == payload;
  }
}
