/** The C++ framed record file: a writer that appends frames, and a reader that finds its way back to the next header
    when the file is damaged. The checksum and the message format are parameters. */
module ProtoStreams {
  import opened ByteStrings
  import opened Wrappers
  import LE = LittleEndian

  const MAGIC := 0xDEAD

  /** No message longer than this is read. */
  const LIMIT := 0x40_0000

  type Crc16 = c: int | 0 <= c < 0x1_0000

  datatype Format<!T> = Format(crc: Bytes -> Crc16, parse: Bytes -> Option<T>)

  // ---------- frames ----------

  function Frame<T>(payload: Bytes, fmt: Format<T>): (f: Bytes)
    ensures |f| == |payload| + 8
  {
    LE.Encode(MAGIC, 2) + LE.Encode(|payload|, 4) + payload + LE.Encode(fmt.crc(payload), 2)
  }

  predicate MagicAt(file: Bytes, p: nat) {
    p + 2 <= |file| && LE.Decode(file[p..p + 2]) == MAGIC
  }

  /** The size in the header at p, a signed 32-bit number. */
  function SizeAt(file: Bytes, p: nat): int
    requires p + 6 <= |file|
  {
    Signed(LE.Decode(file[p + 2..p + 6]))
  }

  function Signed(n: nat): int {
    if n < 0x8000_0000 then n else n - 0x1_0000_0000
  }

  /** A header whose size can be read and is less than the file's. */
  predicate HeaderAt(file: Bytes, p: nat) {
    p + 6 <= |file| && MagicAt(file, p) && SizeAt(file, p) < |file|
  }

  /** A header that makes the reader give up: its size is negative, over the limit, or runs past the end of the file. */
  predicate StopsAt(file: Bytes, p: nat) {
    HeaderAt(file, p) && (SizeAt(file, p) < 0 || SizeAt(file, p) > LIMIT || p + 8 + SizeAt(file, p) > |file|)
  }

  predicate WholeAt(file: Bytes, p: nat) {
    HeaderAt(file, p) && !StopsAt(file, p)
  }

  function Payload(file: Bytes, p: nat): Bytes
    requires WholeAt(file, p)
  {
    file[p + 6..p + 6 + SizeAt(file, p)]
  }

  function EndOf(file: Bytes, p: nat): (e: nat)
    requires WholeAt(file, p)
    ensures p + 8 <= e <= |file|
  {
    p + 8 + SizeAt(file, p)
  }

  /** A whole frame with the right checksum. */
  predicate FrameAt<T>(file: Bytes, p: nat, fmt: Format<T>) {
    WholeAt(file, p) && LE.Decode(file[EndOf(file, p) - 2..EndOf(file, p)]) == fmt.crc(Payload(file, p))
  }

  // ---------- what the reader computes ----------

  datatype Scanned<T> = Found(msg: T, at: nat, next: nat) | Stopped(next: nat)

  /** FindNextHeader from p. */
  function SeekHeader(file: Bytes, p: nat): (r: (bool, nat))
    requires p <= |file|
    ensures p <= r.1 <= |file|
    ensures r.0 ==> HeaderAt(file, r.1)
    decreases |file| - p
  {
    if p + 2 > |file| then (false, |file|)
    else if !MagicAt(file, p) then SeekHeader(file, p + 1)
    else if p + 6 > |file| then (false, |file|)
    else if SizeAt(file, p) >= |file| - 2 then SeekHeader(file, p + 1)
    else (true, p)
  }

  /** One attempt to read a frame: a message, or where to look for the next header, or where to give up. */
  datatype Attempt<T> = Parsed(msg: T) | LookOn | GiveUp

  /** The attempt at p, and the position after it. */
  function Try<T>(file: Bytes, p: nat, fmt: Format<T>): (r: (Attempt<T>, nat))
    requires p <= |file|
    ensures p <= r.1 <= |file| && (!r.0.GiveUp? ==> p < r.1)
  {
    if p + 2 > |file| then (GiveUp, |file|)
    else if !MagicAt(file, p) then (LookOn, p + 1)
    else if p + 6 > |file| then (GiveUp, |file|)
    else if SizeAt(file, p) >= |file| then (LookOn, p + 1)
    else if SizeAt(file, p) < 0 || SizeAt(file, p) > LIMIT then (GiveUp, p + 6)
    else if p + 8 + SizeAt(file, p) > |file| then (GiveUp, |file|)
    else if !FrameAt(file, p, fmt) then (LookOn, p + 1)
    else
      match fmt.parse(Payload(file, p))
      case None => (LookOn, EndOf(file, p))
      case Some(m) => (Parsed(m), EndOf(file, p))
  }

  /** Next from p. */
  function Scan<T>(file: Bytes, p: nat, fmt: Format<T>): (r: Scanned<T>)
    requires p <= |file|
    ensures p <= r.next <= |file|
    decreases |file| - p, 0
  {
    var (a, q) := Try(file, p, fmt);
    match a
    case Parsed(m) => Found(m, p, q)
    case GiveUp => Stopped(q)
    case LookOn => Resync(file, q, fmt)
  }

  function Resync<T>(file: Bytes, p: nat, fmt: Format<T>): (r: Scanned<T>)
    requires p <= |file|
    ensures p <= r.next <= |file|
    decreases |file| - p, 1
  {
    var h := SeekHeader(file, p);
    if h.0 then Scan(file, h.1, fmt) else Stopped(h.1)
  }

  // ---------- the reader ----------

  class ProtoStreamReader<T> {
    const file: Bytes
    const fmt: Format<T>
    var pos: nat
    var buf: Bytes

    predicate Valid()
      reads this
    {
      pos <= |file|
    }

    constructor (file: Bytes, fmt: Format<T>)
      ensures Valid() && this.file == file && this.fmt == fmt && pos == 0
    {
      this.file, this.fmt := file, fmt;
      pos, buf := 0, [];
    }

    /** MmapFile::Read: as many of the bytes as there are. */
    method Read(len: nat) returns (b: Bytes)
      requires Valid()
      modifies this`pos
      ensures Valid() && pos == old(pos) + |b| && b == file[old(pos)..pos]
      ensures |b| == if old(pos) + len <= |file| then len else |file| - old(pos)
    {
      var n := if len > |file| then |file| else len;
      if n == 0 { return []; }
      if pos + n > |file| { n := |file| - pos; }
      b := file[pos..pos + n];
      pos := pos + n;
    }

    /** Move to the next position that looks like the start of a frame. */
    method FindNextHeader() returns (found: bool)
      requires Valid()
      modifies this`pos
      ensures Valid() && (found, pos) == SeekHeader(file, old(pos))
    {
      while true
        invariant old(pos) <= pos <= |file|
        invariant SeekHeader(file, pos) == SeekHeader(file, old(pos))
        decreases |file| - pos
      {
        var startpos := pos;
        var magic := Read(2);
        if |magic| != 2 { return false; }
        if LE.Decode(magic) != MAGIC {
          pos := startpos + 1;
          continue;
        }
        var size := Read(4);
        if |size| != 4 { return false; }
        if Signed(LE.Decode(size)) >= |file| - 2 {
          pos := startpos + 1;
          continue;
        }
        pos := startpos;
        return true;
      }
    }

    /** One round of Next's loop, up to the point where it returns or looks for the next header. */
    method TryNext() returns (a: Attempt<T>)
      requires Valid()
      modifies this`pos, this`buf
      ensures Valid() && (a, pos) == Try(file, old(pos), fmt)
    {
      hide LE.Decode, Signed;
      var startpos := pos;
      var magic := Read(2);
      if |magic| != 2 { return GiveUp; }
      if LE.Decode(magic) != MAGIC {
        pos := startpos + 1;
        return LookOn;
      }
      var header := Read(4);
      if |header| != 4 { return GiveUp; }
      var size := Signed(LE.Decode(header));
      if size >= |file| {
        pos := startpos + 1;
        return LookOn;
      }
      if size < 0 || size > LIMIT { return GiveUp; }
      buf := Read(size);
      if |buf| != size { return GiveUp; }
      var crc := Read(2);
      if |crc| != 2 { return GiveUp; }
      if LE.Decode(crc) != fmt.crc(buf) {
        pos := startpos + 1;
        return LookOn;
      }
      match fmt.parse(buf) {
        case None => return LookOn;
        case Some(m) => return Parsed(m);
      }
    }

    /** The next message, or none. */
    method Next() returns (msg: Option<T>)
      requires Valid()
      modifies this`pos, this`buf
      ensures Valid() && pos == Scan(file, old(pos), fmt).next
      ensures msg == match Scan(file, old(pos), fmt) { case Found(m, _, _) => Some(m) case Stopped(_) => None }
    {
      hide Try, SeekHeader;
      while true
        invariant old(pos) <= pos <= |file|
        invariant Scan(file, pos, fmt) == Scan(file, old(pos), fmt)
        decreases |file| - pos
      {
        var a := TryNext();
        match a {
          case Parsed(m) => return Some(m);
          case GiveUp => return None;
          case LookOn =>
            var found := FindNextHeader();
            if !found { return None; }
        }
      }
    }
  }

  // ---------- the writer ----------

  /** What protobuf's serialisation promises: it refuses messages of 2 GiB and more, and parsing undoes it. */
  ghost predicate Faithful<T(!new)>(serialize: T -> Option<Bytes>, fmt: Format<T>) {
    forall m :: serialize(m).Some? ==> |serialize(m).value| < 0x8000_0000 && fmt.parse(serialize(m).value) == Some(m)
  }

  class ProtoStreamWriter<T(!new)> {
    var file: Bytes
    const fmt: Format<T>
    const serialize: T -> Option<Bytes>
    var buf: Bytes

    constructor (file: Bytes, fmt: Format<T>, serialize: T -> Option<Bytes>)
      ensures this.file == file && this.fmt == fmt && this.serialize == serialize
    {
      this.file, this.fmt, this.serialize := file, fmt, serialize;
      buf := [];
    }

    /** Append a frame to the end of the file. */
    method Write(m: T) returns (ok: bool)
      modifies this`file, this`buf
      ensures ok == serialize(m).Some?
      ensures file == old(file) + if ok then Frame(serialize(m).value, fmt) else []
    {
      hide LE.Encode;
      match serialize(m) {
        case None => return false;
        case Some(payload) => buf := payload;
      }
      Joined(file, LE.Encode(MAGIC, 2), LE.Encode(|buf|, 4), buf, LE.Encode(fmt.crc(buf), 2));
      file := file + LE.Encode(MAGIC, 2);
      file := file + LE.Encode(|buf|, 4);
      file := file + buf;
      file := file + LE.Encode(fmt.crc(buf), 2);
      return true;
    }
  }

  lemma Joined(a: Bytes, b: Bytes, c: Bytes, d: Bytes, e: Bytes)
    ensures a + b + c + d + e == a + (b + c + d + e)
  {
  }

  // ---------- what is found is there ----------

  /** FindNextHeader passes over no position that has the magic and a size it accepts. */
  lemma {:induction false} HeadersSkipped(file: Bytes, p: nat, q: nat)
    requires p <= q && q + 8 <= |file| && HeaderAt(file, q) && SizeAt(file, q) < |file| - 2
    ensures p <= |file| && SeekHeader(file, p).0 && SeekHeader(file, p).1 <= q
    decreases q - p
  {
    if p < q && !(MagicAt(file, p) && SizeAt(file, p) < |file| - 2) {
      HeadersSkipped(file, p + 1, q);
    }
  }

  /** A message that is returned is a frame of the file, at or after the old position, and the new position is its end. */
  lemma {:induction false} FoundIsFrame<T>(file: Bytes, p: nat, fmt: Format<T>)
    requires p <= |file| && Scan(file, p, fmt).Found?
    ensures var r := Scan(file, p, fmt);
      p <= r.at && FrameAt(file, r.at, fmt) && r.next == EndOf(file, r.at) && fmt.parse(Payload(file, r.at)) == Some(r.msg)
    decreases |file| - p
  {
    hide SeekHeader, FrameAt;
    var (a, q) := Try(file, p, fmt);
    if a.LookOn? {
      FoundIsFrame(file, SeekHeader(file, q).1, fmt);
    } else {
      ParsedIsFrame(file, p, fmt);
    }
  }

  lemma ParsedIsFrame<T>(file: Bytes, p: nat, fmt: Format<T>)
    requires p <= |file| && Try(file, p, fmt).0.Parsed?
    ensures FrameAt(file, p, fmt) && Try(file, p, fmt).1 == EndOf(file, p)
    ensures fmt.parse(Payload(file, p)) == Some(Try(file, p, fmt).0.msg)
  {
  }

  // ---------- what is there is found ----------

  /** A frame with the right checksum whose message cannot be parsed. */
  predicate DudAt<T>(file: Bytes, p: nat, fmt: Format<T>) {
    FrameAt(file, p, fmt) && fmt.parse(Payload(file, p)) == None
  }

  /** q lies in a frame that starts at or after p and cannot be parsed. */
  ghost predicate InDud<T>(file: Bytes, p: nat, q: nat, fmt: Format<T>) {
    exists u :: p <= u <= q && DudAt(file, u, fmt) && q < EndOf(file, u)
  }

  ghost predicate Stopper(file: Bytes, p: nat, q: nat) {
    exists u :: p <= u < q && StopsAt(file, u)
  }

  /** Every frame that was passed over starts inside an unparseable frame, or after a header that made the reader stop. */
  lemma {:induction false} NoneMissed<T>(file: Bytes, p: nat, q: nat, fmt: Format<T>)
    requires p <= q && FrameAt(file, q, fmt)
    requires match Scan(file, p, fmt) case Found(_, at, _) => q < at case Stopped(_) => !Stopper(file, p, q)
    ensures InDud(file, p, q, fmt)
    decreases |file| - p
  {
    hide SeekHeader, FrameAt, Try, StopsAt, HeaderAt, DudAt;
    var (a, n) := Try(file, p, fmt);
    TryAtFrame(file, p, q, fmt);
    if a.LookOn? && n <= q {
      FrameIsHeader(file, q, fmt);
      HeadersSkipped(file, n, q);
      assert Scan(file, p, fmt) == Resync(file, n, fmt) == Scan(file, SeekHeader(file, n).1, fmt);
      NoneMissed(file, SeekHeader(file, n).1, q, fmt);
    }
  }

  lemma FrameIsHeader<T>(file: Bytes, q: nat, fmt: Format<T>)
    requires FrameAt(file, q, fmt)
    ensures q + 8 <= |file| && HeaderAt(file, q) && SizeAt(file, q) < |file| - 2
  {
  }

  lemma TryAtFrame<T>(file: Bytes, p: nat, q: nat, fmt: Format<T>)
    requires p <= q && FrameAt(file, q, fmt)
    ensures Try(file, p, fmt).0.GiveUp? ==> StopsAt(file, p) && p < q
    ensures Try(file, p, fmt).0.LookOn? && q < Try(file, p, fmt).1 ==> DudAt(file, p, fmt) && Try(file, p, fmt).1 == EndOf(file, p)
  {
  }

  // ---------- reading back what was written ----------

  function Frames<T>(payloads: seq<Bytes>, fmt: Format<T>): Bytes {
    if payloads == [] then [] else Frame(payloads[0], fmt) + Frames(payloads[1..], fmt)
  }

  /** What up to n calls of Next return from p on, and where they leave the reader. */
  function ReadUpTo<T>(file: Bytes, p: nat, fmt: Format<T>, n: nat): (seq<T>, nat)
    requires p <= |file|
    decreases n
  {
    if n == 0 then ([], p) else
      match Scan(file, p, fmt)
      case Stopped(next) => ([], next)
      case Found(m, _, next) =>
        var (ms, end) := ReadUpTo(file, next, fmt, n - 1);
        ([m] + ms, end)
  }

  lemma FrameIsFrame<T>(pre: Bytes, payload: Bytes, post: Bytes, fmt: Format<T>)
    requires |payload| <= LIMIT
    ensures var file := pre + Frame(payload, fmt) + post;
      FrameAt(file, |pre|, fmt) && Payload(file, |pre|) == payload && EndOf(file, |pre|) == |pre| + |payload| + 8
  {
    hide LE.Encode, LE.Decode;
    var file := pre + Frame(payload, fmt) + post;
    var p, e := |pre|, |pre| + |payload| + 8;
    LE.Widths();
    LE.DecodeEncode(MAGIC, 2);
    LE.DecodeEncode(|payload|, 4);
    LE.DecodeEncode(fmt.crc(payload), 2);
    assert file[p..p + 2] == LE.Encode(MAGIC, 2);
    assert file[p + 2..p + 6] == LE.Encode(|payload|, 4);
    assert file[p + 6..e - 2] == payload;
    assert file[e - 2..e] == LE.Encode(fmt.crc(payload), 2);
  }

  /** A reader placed before a run of frames returns their messages in order, whatever follows them. */
  lemma {:induction false} ReadsBack<T>(pre: Bytes, payloads: seq<Bytes>, post: Bytes, fmt: Format<T>, ms: seq<T>)
    requires |ms| == |payloads|
    requires forall i :: 0 <= i < |ms| ==> |payloads[i]| <= LIMIT && fmt.parse(payloads[i]) == Some(ms[i])
    ensures ReadUpTo(pre + Frames(payloads, fmt) + post, |pre|, fmt, |ms|) == (ms, |pre| + |Frames(payloads, fmt)|)
    decreases |payloads|
  {
    hide FrameAt, Payload, EndOf, Frame, SeekHeader, SizeAt, MagicAt;
    if payloads != [] {
      var first, rest := Frame(payloads[0], fmt), Frames(payloads[1..], fmt);
      var file := pre + Frames(payloads, fmt) + post;
      assert file == pre + first + (rest + post) && file == pre + first + rest + post;
      FrameIsFrame(pre, payloads[0], rest + post, fmt);
      FrameIsFound(file, |pre|, fmt);
      ReadsBack(pre + first, payloads[1..], post, fmt, ms[1..]);
      assert ms == [ms[0]] + ms[1..];
    }
  }

  lemma FrameIsFound<T>(file: Bytes, p: nat, fmt: Format<T>)
    requires FrameAt(file, p, fmt) && fmt.parse(Payload(file, p)).Some?
    ensures Scan(file, p, fmt) == Found(fmt.parse(Payload(file, p)).value, p, EndOf(file, p))
  {
  }

  /** Messages that were written after whatever the file held are read back from there, whatever is written next. */
  lemma WrittenIsRead<T(!new)>(pre: Bytes, ms: seq<T>, post: Bytes, fmt: Format<T>, serialize: T -> Option<Bytes>, payloads: seq<Bytes>)
    requires Faithful(serialize, fmt) && |payloads| == |ms|
    requires forall i :: 0 <= i < |ms| ==> serialize(ms[i]) == Some(payloads[i]) && |payloads[i]| <= LIMIT
    ensures ReadUpTo(pre + Frames(payloads, fmt) + post, |pre|, fmt, |ms|) == (ms, |pre| + |Frames(payloads, fmt)|)
  {
    ReadsBack(pre, payloads, post, fmt, ms);
  }

  // ---------- bytes ----------

  /** A frame on disk: 0xAD, 0xDE, the length from its lowest byte, the message, the checksum from its lower byte. */
  lemma FrameBytes<T>(payload: Bytes, fmt: Format<T>)
    requires |payload| < 0x1_0000_0000
    ensures var f, n, c := Frame(payload, fmt), |payload|, fmt.crc(payload);
      f == [0xAD, 0xDE, n % 0x100, n / 0x100 % 0x100, n / 0x1_0000 % 0x100, n / 0x100_0000] + payload + [c % 0x100, c / 0x100]
  {
    EncodeTwo(MAGIC);
    EncodeFour(|payload|);
    EncodeTwo(fmt.crc(payload));
    hide LE.Encode;
  }

  lemma EncodeTwo(n: nat)
    requires n < 0x1_0000
    ensures LE.Encode(n, 2) == [n % 0x100, n / 0x100]
  {
    assert LE.Encode(n, 2) == [n % 0x100] + LE.Encode(n / 0x100, 1);
    assert LE.Encode(n / 0x100, 1) == [n / 0x100 % 0x100] + LE.Encode(n / 0x100 / 0x100, 0);
  }

  lemma EncodeFour(n: nat)
    requires n < 0x1_0000_0000
    ensures LE.Encode(n, 4) == [n % 0x100, n / 0x100 % 0x100, n / 0x1_0000 % 0x100, n / 0x100_0000]
  {
    var m := n / 0x1_0000;
    EncodeTwo(m);
    assert LE.Encode(n, 4) == [n % 0x100] + LE.Encode(n / 0x100, 3);
    assert LE.Encode(n / 0x100, 3) == [n / 0x100 % 0x100] + LE.Encode(n / 0x100 / 0x100, 2);
    assert n / 0x100 / 0x100 == m && m / 0x100 == n / 0x100_0000;
  }

  function Two(a: Byte, b: Byte): nat { a as int + 0x100 * (b as int) }

  function Four(a: Byte, b: Byte, c: Byte, d: Byte): nat { Two(a, b) + 0x1_0000 * (c as int) + 0x100_0000 * (d as int) }

  lemma DecodeTwo(b: Bytes)
    requires |b| == 2
    ensures LE.Decode(b) == Two(b[0], b[1])
  {
    assert LE.Decode(b[1..]) == b[1] + 0x100 * LE.Decode(b[1..][1..]) && b[1..][1..] == [];
  }

  lemma DecodeFour(b: Bytes)
    requires |b| == 4
    ensures LE.Decode(b) == Four(b[0], b[1], b[2], b[3])
  {
    DecodeTwo(b[2..]);
    assert LE.Decode(b) == b[0] + 0x100 * LE.Decode(b[1..]);
    assert LE.Decode(b[1..]) == b[1] + 0x100 * LE.Decode(b[1..][1..]) && b[1..][1..] == b[2..];
  }

  /** What Next does at a position, in terms of the bytes there: no magic, or a size that is not less than the file's, and it
      looks on from the next byte; a negative size or one over 4 MiB, or a frame cut off by the end of the file, and it stops. */
  lemma NextAt<T>(file: Bytes, p: nat, fmt: Format<T>)
    requires p + 6 <= |file|
    ensures var r := Scan(file, p, fmt);
      var n := Four(file[p + 2], file[p + 3], file[p + 4], file[p + 5]);
      && (file[p] != 0xAD || file[p + 1] != 0xDE ==> r == Resync(file, p + 1, fmt))
      && (file[p] == 0xAD && file[p + 1] == 0xDE ==>
            && (n >= 0x8000_0000 ==> r == Stopped(p + 6))
            && (|file| <= n < 0x8000_0000 ==> r == Resync(file, p + 1, fmt))
            && (0x40_0000 < n < 0x8000_0000 && n < |file| ==> r == Stopped(p + 6))
            && (n <= 0x40_0000 && n < |file| < p + 8 + n ==> r == Stopped(|file|)))
  {
    DecodeTwo(file[p..p + 2]);
    DecodeFour(file[p + 2..p + 6]);
    hide LE.Decode, FrameAt;
    MagicBytes(file[p], file[p + 1]);
  }

  /** And what FindNextHeader does there: a size that leaves no room for a checksum, and it goes on; a negative one it accepts. */
  lemma SeekAt(file: Bytes, p: nat)
    requires p + 6 <= |file|
    ensures var n := Four(file[p + 2], file[p + 3], file[p + 4], file[p + 5]);
      SeekHeader(file, p) ==
        if file[p] != 0xAD || file[p + 1] != 0xDE || |file| - 2 <= n < 0x8000_0000 then SeekHeader(file, p + 1) else (true, p)
  {
    DecodeTwo(file[p..p + 2]);
    DecodeFour(file[p + 2..p + 6]);
    hide LE.Decode;
    MagicBytes(file[p], file[p + 1]);
  }

  lemma MagicBytes(a: Byte, b: Byte)
    ensures Two(a, b) == MAGIC <==> a == 0xAD && b == 0xDE
  {
  }

  /** With fewer than six bytes left there is no frame, and it stops at the end. */
  lemma NextNearEnd<T>(file: Bytes, p: nat, fmt: Format<T>)
    requires |file| - 6 < p <= |file|
    ensures Scan(file, p, fmt) == Stopped(|file|)
    decreases |file| - p
  {
    hide LE.Decode, FrameAt;
    if p + 2 <= |file| && !MagicAt(file, p) {
      SeekNearEnd(file, p + 1);
    }
  }

  lemma {:induction false} SeekNearEnd(file: Bytes, p: nat)
    requires |file| - 6 < p <= |file|
    ensures SeekHeader(file, p) == (false, |file|)
    decreases |file| - p
  {
    if p + 2 <= |file| && !MagicAt(file, p) {
      SeekNearEnd(file, p + 1);
    }
  }

  /** At the end of the file there is nothing more to return. */
  lemma EndsCleanly<T>(file: Bytes, fmt: Format<T>)
    ensures Scan(file, |file|, fmt) == Stopped(|file|)
  {
  }

  /** A file of nothing but frames is read to its end: the messages in order, and then no more, however often Next is called. */
  lemma {:induction false} ReadsAll<T>(pre: Bytes, payloads: seq<Bytes>, fmt: Format<T>, ms: seq<T>, n: nat)
    requires |ms| == |payloads| < n
    requires forall i :: 0 <= i < |ms| ==> |payloads[i]| <= LIMIT && fmt.parse(payloads[i]) == Some(ms[i])
    ensures ReadUpTo(pre + Frames(payloads, fmt), |pre|, fmt, n) == (ms, |pre| + |Frames(payloads, fmt)|)
    decreases |payloads|
  {
    hide FrameAt, Payload, EndOf, Frame, SeekHeader, SizeAt, MagicAt;
    var file := pre + Frames(payloads, fmt);
    if payloads == [] {
      EndsCleanly(file, fmt);
    } else {
      var first, rest := Frame(payloads[0], fmt), Frames(payloads[1..], fmt);
      assert file == pre + first + rest;
      FrameIsFrame(pre, payloads[0], rest, fmt);
      FrameIsFound(file, |pre|, fmt);
      ReadsAll(pre + first, payloads[1..], fmt, ms[1..], n - 1);
      assert ms == [ms[0]] + ms[1..];
    }
  }

  // ---------- finding the way back ----------

  /** What makes the reader look on from the next byte: no magic, an impossible size, or a wrong checksum. */
  predicate DamagedAt<T>(file: Bytes, p: nat, fmt: Format<T>) {
    || !MagicAt(file, p)
    || (p + 6 <= |file| && SizeAt(file, p) >= |file|)
    || (WholeAt(file, p) && !FrameAt(file, p, fmt))
  }

  /** Damage at p costs nothing beyond it: when no byte up to q looks like a header, reading goes on with the frame at q. */
  lemma SkipsDamage<T>(file: Bytes, p: nat, q: nat, fmt: Format<T>)
    requires p < q && DamagedAt(file, p, fmt) && FrameAt(file, q, fmt)
    requires forall r :: p < r < q ==> !MagicAt(file, r)
    ensures Scan(file, p, fmt) == Scan(file, q, fmt)
  {
    assert Try(file, p, fmt) == (LookOn, p + 1);
    NextMagic(file, p + 1, q);
  }

  lemma {:induction false} NextMagic(file: Bytes, p: nat, q: nat)
    requires p <= q && q + 8 <= |file| && HeaderAt(file, q) && SizeAt(file, q) < |file| - 2
    requires forall r :: p <= r < q ==> !MagicAt(file, r)
    ensures SeekHeader(file, p) == (true, q)
    decreases q - p
  {
    if p < q {
      NextMagic(file, p + 1, q);
    }
  }
}
