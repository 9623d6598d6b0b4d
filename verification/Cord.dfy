/** The chunked byte string. */
module Cords {
  import opened Bits
  import opened ByteStrings
  import opened Wrappers

  /** The largest buffer that can be allocated. */
  const LARGEST: Word := 0x8000_0000

  class CordBuffer {
    /** The bytes pointed to, when they belong to somebody else. */
    var buffer: Bytes
    /** The bytes themselves, when the buffer was allocated here. */
    var mutableBuffer: array?<Byte>
    var size: Word
    var capacity: Word
    var used: Word
    var dealloc: bool

    ghost predicate Valid()
      reads this
    {
      && used <= size <= capacity
      && if dealloc then mutableBuffer != null && mutableBuffer.Length == capacity <= LARGEST
         else mutableBuffer == null && size == capacity == |buffer|
    }

    ghost function Contents(): Bytes
      requires Valid()
      reads this, mutableBuffer
    {
      if dealloc then mutableBuffer[used..size] else buffer[used..size]
    }

    constructor Allocated(size: Word)
      ensures Valid() && Contents() == [] && dealloc && fresh(mutableBuffer) && this.size == 0
      ensures 1 <= size <= LARGEST ==> IsLeastPower(capacity, size)
    {
      buffer, mutableBuffer, this.size, capacity, used, dealloc := [], null, 0, 0, 0, true;
      new;
      Alloc(size);
    }

    constructor Borrowed(ptr: Bytes)
      requires |ptr| < MODULUS
      ensures Valid() && Contents() == ptr && !dealloc
    {
      buffer, mutableBuffer, size, capacity, used, dealloc := ptr, null, |ptr|, |ptr|, 0, false;
    }

    /** A capacity of the next power of two. It is 0 when the size is 0 or the power does not fit in 32 bits. */
    method Alloc(size: Word)
      requires this.size == 0 && used == 0
      modifies this`capacity, this`mutableBuffer, this`dealloc
      ensures Valid() && dealloc && fresh(mutableBuffer)
      ensures 1 <= size <= LARGEST ==> IsLeastPower(capacity, size)
      ensures !(1 <= size <= LARGEST) ==> capacity == 0
    {
      hide Or, ShiftRight, IsLeastPower;
      capacity := (size - 1 + MODULUS) % MODULUS;
      ghost var x := capacity;
      capacity := Or(capacity, ShiftRight(capacity, 1));
      capacity := Or(capacity, ShiftRight(capacity, 2));
      capacity := Or(capacity, ShiftRight(capacity, 4));
      capacity := Or(capacity, ShiftRight(capacity, 8));
      capacity := Or(capacity, ShiftRight(capacity, 16));
      RoundsUp(size, x, capacity);
      capacity := (capacity + 1) % MODULUS;
      mutableBuffer := new Byte[capacity](_ => 0);
      dealloc := true;
    }

    function Size(): (n: Word)
      requires Valid()
      reads this, mutableBuffer
      ensures n == |Contents()|
    {
      size - used
    }

    function Available(): Word
      requires Valid()
      reads this
    {
      capacity - size
    }

    /** The bytes from buffer() on, size() of them. */
    function Held(): (b: Bytes)
      requires Valid()
      reads this, mutableBuffer
      ensures b == Contents() && |b| == size - used
    {
      if dealloc then mutableBuffer[used..size] else buffer[used..size]
    }

    /** Claim the next n bytes of the capacity, if they are there. The sum is taken in 32 bits: one that wraps around is
        granted and makes the size smaller. */
    method Use(n: Word) returns (ok: bool)
      requires Valid()
      modifies this`size
      ensures ok == (old(size) + n <= capacity) <==> old(size) + n < MODULUS
      ensures old(size) + n < MODULUS ==> Valid() && size == old(size) + if ok then n else 0
      ensures old(size) + n < MODULUS ==> Contents() == old(Contents()) + if ok && dealloc then mutableBuffer[old(size)..size] else []
      ensures old(size) + n >= MODULUS ==> ok && size == old(size) + n - MODULUS
    {
      if (size + n) % MODULUS > capacity {
        return false;
      }
      size := (size + n) % MODULUS;
      return true;
    }

    /** memcpy to a place among the bytes, up to their end. */
    method Put(offset: nat, bytes: Bytes)
      requires Valid() && dealloc && used <= offset && offset + |bytes| == size
      modifies mutableBuffer
      ensures Valid() && Contents() == old(Contents())[..offset - used] + bytes
    {
      forall i | 0 <= i < |bytes| {
        mutableBuffer[offset + i] := bytes[i];
      }
      assert mutableBuffer[used..offset] == old(mutableBuffer[used..offset]);
      assert mutableBuffer[offset..size] == bytes;
      assert mutableBuffer[used..size] == mutableBuffer[used..offset] + mutableBuffer[offset..size];
    }

    /** Give up the first n bytes, or all of them if there are fewer: unless the 32-bit sum wraps around, and bytes given up
        before come back. */
    method Consume(n: Word)
      requires Valid()
      modifies this`used
      ensures Valid()
      ensures Contents() == (if n <= |old(Contents())| then old(Contents())[n..] else []) <==> old(used) + n < MODULUS
      ensures old(used) + n >= MODULUS ==> used == old(used) + n - MODULUS < old(used)
    {
      used := (used + n) % MODULUS;
      if used > size {
        used := size;
      }
    }
  }

  lemma Remains(buf: Bytes)
    ensures |buf| % MODULUS <= |buf| && |buf| % MODULUS < MODULUS
    ensures |buf| < MODULUS ==> buf[..|buf| % MODULUS] == buf
    ensures |buf[..|buf| % MODULUS]| == |buf| <==> |buf| < MODULUS
  {
  }

  // ---------- capacities ----------

  /** The least power of two that is not below the size. */
  ghost predicate IsLeastPower(capacity: nat, size: nat) {
    size <= capacity && exists k: nat :: capacity == Pow2(k) && (k == 0 || Pow2(k - 1) < size)
  }

  /** What the five lines of Alloc compute, before the last increment. */
  function Smeared(x: Word): Word {
    var x1 := Or(x, ShiftRight(x, 1));
    var x2 := Or(x1, ShiftRight(x1, 2));
    var x3 := Or(x2, ShiftRight(x2, 4));
    var x4 := Or(x3, ShiftRight(x3, 8));
    Or(x4, ShiftRight(x4, 16))
  }

  /** All ones from the highest bit of x down. */
  lemma SmearedOnes(x: Word, k: nat)
    requires k < 32 && Pow2(k) <= x < Pow2(k + 1)
    ensures Smeared(x) == Pow2(k + 1) - 1
  {
    TopBit(x, k);
    assert TopOnes(x, k, 1);
    hide Pow2, Or, ShiftRight, TopOnes;
    var x1 := Or(x, ShiftRight(x, 1));
    var x2 := Or(x1, ShiftRight(x1, 2));
    var x3 := Or(x2, ShiftRight(x2, 4));
    var x4 := Or(x3, ShiftRight(x3, 8));
    Smear(x, k, 1);
    Smear(x1, k, 2);
    Smear(x2, k, 4);
    Smear(x3, k, 8);
    Smear(x4, k, 16);
    AllTopOnes(Smeared(x), k);
  }

  lemma AllTopOnes(x: Word, k: nat)
    requires TopOnes(x, k, 32) && k < 32
    ensures x == Pow2(k + 1) - 1
  {
    hide Pow2;
    AllOnes(x, k + 1);
  }

  lemma SmearedZero()
    ensures Smeared(0) == 0
  {
    OrOfZero(32);
    forall n ensures ShiftRight(0, n) == 0 {
      ShiftBelow(0, n);
    }
    hide ShiftRight, OrBits;
  }

  lemma RoundsUp(size: Word, x: Word, y: Word)
    requires x == (size - 1 + MODULUS) % MODULUS && y == Smeared(x)
    ensures 1 <= size <= LARGEST ==> IsLeastPower((y + 1) % MODULUS, size)
    ensures !(1 <= size <= LARGEST) ==> (y + 1) % MODULUS == 0
    ensures (y + 1) % MODULUS <= LARGEST
  {
    hide Smeared, Pow2;
    Powers();
    PowerValues();
    if x == 0 {
      SmearedZero();
      assert 1 == Pow2(0);
    } else {
      var k := HighestBit(x, 32);
      SmearedOnes(x, k);
      if k < 31 {
        PowGrows(k + 1, 32);
        AtMostHalf(k);
        assert IsLeastPower(Pow2(k + 1), size) by {
          assert Pow2(k + 1) == Pow2(k + 1);
        }
      } else {
        assert size == 0 || size > LARGEST;
      }
    }
  }

  lemma PowerValues()
    ensures Pow2(0) == 1 && Pow2(31) == LARGEST && Pow2(32) == MODULUS
  {
    Powers();
    assert Pow2(32) == 2 * Pow2(31);
  }

  lemma AtMostHalf(k: nat)
    requires k < 31
    ensures Pow2(k + 1) <= LARGEST
  {
    PowerValues();
    if k + 1 < 31 {
      PowGrows(k + 1, 31);
    }
  }

  // ---------- several buffers ----------

  /** Each buffer is sound, none is in the list twice, and no memory is shared. */
  ghost predicate Sound(bs: seq<CordBuffer>)
    reads bs
  {
    AllValid(bs) && Distinct(bs)
  }

  ghost predicate AllValid(bs: seq<CordBuffer>)
    reads bs
  {
    forall i :: 0 <= i < |bs| ==> bs[i].Valid()
  }

  ghost predicate Distinct(bs: seq<CordBuffer>)
    reads bs`mutableBuffer
  {
    forall i, j :: 0 <= i < j < |bs| ==> bs[i] != bs[j] && Apart(bs[i], bs[j])
  }

  ghost predicate Apart(a: CordBuffer, b: CordBuffer)
    reads a`mutableBuffer, b`mutableBuffer
  {
    a.mutableBuffer == null || a.mutableBuffer != b.mutableBuffer
  }

  /** The buffers and the memory they have allocated. */
  ghost function Memory(bs: seq<CordBuffer>): set<object>
    reads bs`mutableBuffer
  {
    (set b | b in bs :: b as object) + (set b | b in bs && b.mutableBuffer != null :: b.mutableBuffer as object)
  }

  /** The bytes of each buffer. */
  ghost function Parts(bs: seq<CordBuffer>): seq<Bytes>
    requires AllValid(bs)
    reads bs, set b | b in bs :: b.mutableBuffer
  {
    if bs == [] then [] else [bs[0].Contents()] + Parts(bs[1..])
  }

  lemma {:induction false} PartsAt(bs: seq<CordBuffer>, i: nat)
    requires AllValid(bs) && i < |bs|
    ensures |Parts(bs)| == |bs| && bs[i].Valid() && Parts(bs)[i] == bs[i].Contents()
    decreases i
  {
    PartsCount(bs);
    if i > 0 {
      PartsAt(bs[1..], i - 1);
    }
  }

  lemma {:induction false} PartsCount(bs: seq<CordBuffer>)
    requires AllValid(bs)
    ensures |Parts(bs)| == |bs|
  {
    if bs != [] {
      PartsCount(bs[1..]);
    }
  }

  lemma {:induction false} OneMore(bs: seq<CordBuffer>, b: CordBuffer)
    requires AllValid(bs) && b.Valid()
    ensures AllValid(bs + [b]) && Parts(bs + [b]) == Parts(bs) + [b.Contents()]
  {
    if bs == [] {
      assert bs + [b] == [b] && Parts([b]) == [b.Contents()] + Parts([]);
    } else {
      assert (bs + [b])[1..] == bs[1..] + [b];
      OneMore(bs[1..], b);
    }
  }

  /** All but the last, and the last. */
  lemma SplitLast(bs: seq<CordBuffer>)
    requires AllValid(bs) && bs != []
    ensures var rest, b := bs[..|bs| - 1], bs[|bs| - 1];
      bs == rest + [b] && AllValid(rest) && b.Valid() && Parts(bs) == Parts(rest) + [b.Contents()]
  {
    OneMore(bs[..|bs| - 1], bs[|bs| - 1]);
    assert bs == bs[..|bs| - 1] + [bs[|bs| - 1]];
  }

  lemma MemoryMore(bs: seq<CordBuffer>, b: CordBuffer)
    ensures Memory(bs + [b]) == Memory(bs) + Memory([b])
  {
    assert forall c :: c in bs + [b] <==> c in bs || c in [b];
  }

  lemma DistinctMore(bs: seq<CordBuffer>, b: CordBuffer)
    requires Distinct(bs) && b !in bs && (b.mutableBuffer != null ==> b.mutableBuffer !in Memory(bs))
    ensures Distinct(bs + [b])
  {
  }

  function Flat(parts: seq<Bytes>): Bytes {
    if parts == [] then [] else parts[0] + Flat(parts[1..])
  }

  lemma {:induction false} FlatMore(parts: seq<Bytes>, more: Bytes)
    ensures Flat(parts + [more]) == Flat(parts) + more
  {
    if parts == [] {
      assert Flat([more]) == more + Flat([]);
    } else {
      assert (parts + [more])[1..] == parts[1..] + [more];
      FlatMore(parts[1..], more);
    }
  }

  lemma FlatFrom(parts: seq<Bytes>, i: nat)
    requires i <= |parts|
    ensures Flat(parts[i..]) == if i == |parts| then [] else parts[i] + Flat(parts[i + 1..])
    ensures parts[0..] == parts
  {
    if i < |parts| {
      assert parts[i..][1..] == parts[i + 1..];
    }
  }

  /** Lengthening the last part lengthens the whole. */
  lemma LastGrows(rest: seq<Bytes>, last: Bytes, longer: Bytes)
    requires last <= longer
    ensures Flat(rest + [last]) <= Flat(rest + [longer])
    ensures |Flat(rest + [longer])| == |Flat(rest + [last])| + |longer| - |last|
  {
    FlatMore(rest, last);
    FlatMore(rest, longer);
  }

  /** Replacing the end of the last part replaces the end of the whole. */
  lemma LastFilled(rest: seq<Bytes>, last: Bytes, keep: nat, bytes: Bytes)
    requires |last| == keep + |bytes|
    ensures var whole := Flat(rest + [last]);
      |bytes| <= |whole| && Flat(rest + [last[..keep] + bytes]) == whole[..|whole| - |bytes|] + bytes
  {
    FlatMore(rest, last);
    FlatMore(rest, last[..keep] + bytes);
    var whole := Flat(rest) + last;
    assert whole[..|whole| - |bytes|] == Flat(rest) + last[..keep];
  }

  /** Of the first `bytes` bytes, those in parts that lie wholly before the last one needed. */
  function Whole(parts: seq<Bytes>, bytes: nat): nat {
    if parts == [] || |parts[0]| >= bytes then 0 else |parts[0]| + Whole(parts[1..], bytes - |parts[0]|)
  }

  /** They are the bytes of the parts before the first one that has all that is still needed. */
  lemma {:induction false} WholeIs(parts: seq<Bytes>, bytes: nat) returns (j: nat)
    ensures j <= |parts| && Whole(parts, bytes) == |Flat(parts[..j])|
    ensures j < |parts| ==> |Flat(parts[..j])| + |parts[j]| >= bytes
    ensures forall i :: 0 <= i < j ==> |Flat(parts[..i])| + |parts[i]| < bytes
  {
    assert Flat(parts[..0]) == [];
    if parts == [] || |parts[0]| >= bytes {
      j := 0;
    } else {
      var rest := parts[1..];
      j := WholeIs(rest, bytes - |parts[0]|);
      FlatPrefix(parts, j);
      forall i | 0 < i < j + 1 ensures |Flat(parts[..i])| + |parts[i]| < bytes {
        FlatPrefix(parts, i - 1);
        assert parts[i] == rest[i - 1];
      }
      j := j + 1;
    }
  }

  lemma FlatPrefix(parts: seq<Bytes>, i: nat)
    requires i < |parts|
    ensures Flat(parts[..i + 1]) == parts[0] + Flat(parts[1..][..i])
  {
    assert parts[..i + 1][1..] == parts[1..][..i];
  }

  /** There are none exactly when the first part that is not empty has all that is needed. */
  lemma {:induction false} WholeZeroIff(parts: seq<Bytes>, bytes: nat)
    requires bytes <= |Flat(parts)|
    ensures Whole(parts, bytes) == 0 <==>
      bytes == 0 || exists k :: 0 <= k < |parts| && bytes <= |parts[k]| && forall j :: 0 <= j < k ==> parts[j] == []
  {
    hide Whole, Flat;
    if bytes > 0 && Whole(parts, bytes) == 0 {
      var k := WholeZero(parts, bytes);
    }
    if k :| 0 <= k < |parts| && bytes <= |parts[k]| && forall j :: 0 <= j < k ==> parts[j] == [] {
      ZeroWhole(parts, bytes, k);
    }
    if bytes == 0 {
      WholeOfNone(parts);
    }
  }

  lemma WholeOfNone(parts: seq<Bytes>)
    ensures Whole(parts, 0) == 0
  {
  }

  lemma {:induction false} WholeZero(parts: seq<Bytes>, bytes: nat) returns (k: nat)
    requires 0 < bytes <= |Flat(parts)| && Whole(parts, bytes) == 0
    ensures k < |parts| && bytes <= |parts[k]| && forall j :: 0 <= j < k ==> parts[j] == []
  {
    if |parts[0]| >= bytes {
      k := 0;
    } else {
      k := WholeZero(parts[1..], bytes);
      k := k + 1;
    }
  }

  lemma {:induction false} ZeroWhole(parts: seq<Bytes>, bytes: nat, k: nat)
    requires k < |parts| && bytes <= |parts[k]| && forall j :: 0 <= j < k ==> parts[j] == []
    ensures Whole(parts, bytes) == 0
    decreases k
  {
    if k > 0 {
      assert parts[0] == [];
      ZeroWhole(parts[1..], bytes, k - 1);
    }
  }

  // ---------- the cord ----------

  class Cord {
    var buffers: seq<CordBuffer>
    var defaultBufferSize: Word
    var minimumAppendSize: Word
    var size: nat

    /** Everything that belongs to the cord. */
    ghost function Repr(): set<object>
      reads this, buffers
    {
      var own: set<object> := {this};
      own + Memory(buffers)
    }

    ghost predicate Shaped()
      reads this, buffers
    {
      Sound(buffers)
    }

    ghost function Contents(): Bytes
      requires Shaped()
      reads this, buffers, Memory(buffers)
    {
      Flat(Parts(buffers))
    }

    /** The size is the number of bytes held. */
    ghost predicate Valid()
      reads this, buffers, Memory(buffers)
    {
      Shaped() && size == |Contents()|
    }

    constructor ()
      ensures Valid() && Contents() == [] && buffers == [] && defaultBufferSize == 1024 && minimumAppendSize == 16
    {
      buffers, defaultBufferSize, minimumAppendSize, size := [], 1024, 16, 0;
    }

    method Clear()
      modifies this
      ensures Valid() && Contents() == [] && buffers == []
      ensures defaultBufferSize == old(defaultBufferSize) && minimumAppendSize == old(minimumAppendSize)
    {
      buffers := [];
      size := 0;
    }

    /** Append a block without copying it. The buffer's size has 32 bits and the cord's 64: from 2^32 bytes on they differ. */
    method Append(buf: Bytes)
      requires Valid()
      modifies this`buffers, this`size
      ensures Shaped() && Contents() == old(Contents()) + buf[..|buf| % MODULUS] && size == old(size) + |buf|
      ensures (Valid() <==> |buf| < MODULUS) && (Valid() ==> Contents() == old(Contents()) + buf)
      ensures fresh(Repr() - old(Repr()))
    {
      hide Flat, Parts, Distinct, AllValid, CordBuffer.Contents;
      Remains(buf);
      ghost var before := Contents();
      var b := new CordBuffer.Borrowed(buf[..|buf| % MODULUS]);
      PushBuffer(b);
      hide Sound, Repr, Memory;
      assert |Contents()| == |before| + |buf[..|buf| % MODULUS]|;
      size := size + |buf|;
    }

    method PushBuffer(b: CordBuffer)
      requires Shaped() && b.Valid() && b !in buffers && (b.mutableBuffer != null ==> b.mutableBuffer !in Memory(buffers))
      modifies this`buffers
      ensures Shaped() && buffers == old(buffers) + [b] && Contents() == old(Contents()) + b.Contents()
      ensures Repr() == old(Repr()) + Memory([b])
    {
      hide Flat, Parts, Distinct, AllValid, Memory;
      FlatMore(Parts(buffers), b.Contents());
      DistinctMore(buffers, b);
      OneMore(buffers, b);
      MemoryMore(buffers, b);
      buffers := buffers + [b];
    }

    /** How much room GetAppendBuf gives for a request. */
    ghost function Granted(reqsize: nat): nat
      requires Shaped()
      reads this, buffers
    {
      if buffers == [] then reqsize else
        var b := buffers[|buffers| - 1];
        var available := b.capacity - b.size;
        if available < reqsize && available >= minimumAppendSize then available else reqsize
    }

    /** The room in the last buffer. */
    ghost function Spare(): nat
      requires Shaped() && buffers != []
      reads this, buffers
    {
      buffers[|buffers| - 1].capacity - buffers[|buffers| - 1].size
    }

    /** A request gets a new buffer when there is none, or when the last has neither enough room nor the least worth using. */
    ghost predicate NeedsBuffer(reqsize: nat)
      requires Shaped()
      reads this, buffers
    {
      buffers == [] || (Spare() < reqsize && Spare() < minimumAppendSize)
    }

    /** Push a new buffer with room for at least n bytes. */
    method Push(n: Word)
      requires Valid() && n <= LARGEST
      modifies this`buffers
      ensures Valid() && Contents() == old(Contents()) && fresh(Repr() - old(Repr()))
      ensures buffers != [] && buffers[..|buffers| - 1] == old(buffers) && fresh(buffers[|buffers| - 1])
      ensures var b := buffers[|buffers| - 1];
        b.dealloc && b.size == 0 && b.capacity >= n && (n >= 1 ==> IsLeastPower(b.capacity, n))
    {
      hide Flat, Parts, Distinct, AllValid, CordBuffer.Contents;
      var b := new CordBuffer.Allocated(n);
      PushBuffer(b);
    }

    /** Claim n bytes at the end of the last buffer, which has that much room. */
    method Claim(n: Word)
      requires Valid() && buffers != [] && buffers[|buffers| - 1].size + n <= buffers[|buffers| - 1].capacity
      modifies this`size, buffers[|buffers| - 1..]`size
      ensures Valid() && Repr() == old(Repr())
      ensures buffers[|buffers| - 1].size == old(buffers[|buffers| - 1].size) + n
      ensures |Contents()| == |old(Contents())| + n && Contents()[..|old(Contents())|] == old(Contents())
    {
      hide Flat, Parts, Distinct, AllValid, Memory, CordBuffer.Contents;
      var b := buffers[|buffers| - 1];
      SplitLast(buffers);
      LastIsOther(buffers);
      ghost var rest, before := buffers[..|buffers| - 1], b.Contents();
      ghost var others := Parts(rest);
      var ok := b.Use(n);
      size := size + n;
      OneMore(rest, b);
      LastGrows(others, before, b.Contents());
    }

    /** Make sure that the last buffer has room for as many bytes as are granted. */
    method MakeRoom(reqsize: Word) returns (realsize: Word)
      requires Valid() && reqsize <= LARGEST && defaultBufferSize <= LARGEST
      modifies this`buffers
      ensures Valid() && Contents() == old(Contents()) && fresh(Repr() - old(Repr()))
      ensures realsize == old(Granted(reqsize)) <= reqsize && buffers != []
      ensures var b := buffers[|buffers| - 1]; b.Valid() && b.size + realsize <= b.capacity && (realsize > 0 ==> b.dealloc)
      ensures !old(NeedsBuffer(reqsize)) ==> buffers == old(buffers)
      ensures old(NeedsBuffer(reqsize)) ==> |buffers| == |old(buffers)| + 1
      ensures old(NeedsBuffer(reqsize)) && reqsize >= 1 ==>
        IsLeastPower(buffers[|buffers| - 1].capacity, if defaultBufferSize > reqsize then defaultBufferSize else reqsize)
    {
      hide Flat, Parts, Distinct, IsLeastPower;
      realsize := reqsize;
      if |buffers| == 0 {
        Push(if defaultBufferSize > reqsize then defaultBufferSize else reqsize);
      } else {
        var available := buffers[|buffers| - 1].Available();
        if available >= reqsize {
        } else if available >= minimumAppendSize {
          realsize := available;
        } else {
          Push(if defaultBufferSize > reqsize then defaultBufferSize else reqsize);
        }
      }
    }

    /** Room for as many as possible of the requested bytes: in the last buffer, if there is enough of it, or in a new one.
        The new bytes are there already, whatever they are; the caller fills them in. */
    method GetAppendBuf(reqsize: Word) returns (b: CordBuffer, offset: nat, realsize: Word)
      requires Valid() && reqsize <= LARGEST && defaultBufferSize <= LARGEST
      modifies Repr()
      ensures Valid() && fresh(Repr() - old(Repr())) && realsize == old(Granted(reqsize)) <= reqsize
      ensures old(NeedsBuffer(reqsize)) ==> realsize == reqsize && |buffers| == |old(buffers)| + 1
      ensures old(NeedsBuffer(reqsize)) && reqsize >= 1 ==>
        IsLeastPower(b.capacity, if defaultBufferSize > reqsize then defaultBufferSize else reqsize)
      ensures !old(NeedsBuffer(reqsize)) ==> buffers == old(buffers) && realsize == if old(Spare()) < reqsize then old(Spare()) else reqsize
      ensures buffers != [] && b == buffers[|buffers| - 1] && b.used <= offset && offset + realsize == b.size
      ensures realsize > 0 ==> b.dealloc
      ensures |Contents()| == |old(Contents())| + realsize && Contents()[..|old(Contents())|] == old(Contents())
      ensures defaultBufferSize == old(defaultBufferSize) && minimumAppendSize == old(minimumAppendSize)
    {
      hide Flat, Parts, Distinct, AllValid, IsLeastPower;
      realsize := MakeRoom(reqsize);
      b := buffers[|buffers| - 1];
      offset := b.size;
      OwnsLast(buffers);
      Claim(realsize);
    }

    /** memcpy into the bytes just claimed. */
    method Fill(offset: nat, bytes: Bytes)
      requires Valid() && buffers != [] && buffers[|buffers| - 1].dealloc && |bytes| <= |Contents()|
      requires buffers[|buffers| - 1].used <= offset && offset + |bytes| == buffers[|buffers| - 1].size
      modifies buffers[|buffers| - 1].mutableBuffer
      ensures Valid() && Repr() == old(Repr()) && Contents() == old(Contents())[..|old(Contents())| - |bytes|] + bytes
    {
      hide Flat, Parts, Distinct, AllValid, Memory;
      var b := buffers[|buffers| - 1];
      SplitLast(buffers);
      LastMemoryApart(buffers);
      ghost var rest, before := buffers[..|buffers| - 1], b.Contents();
      ghost var others := Parts(rest);
      b.Put(offset, bytes);
      OneMore(rest, b);
      LastFilled(others, before, offset - b.used, bytes);
    }

    /** Append a copy of the bytes, chunk by chunk. It ends because every chunk has at least one byte. */
    method CopyFrom(buf: Bytes)
      requires Valid() && |buf| <= LARGEST && defaultBufferSize <= LARGEST && minimumAppendSize >= 1
      modifies Repr()
      ensures Valid() && Contents() == old(Contents()) + buf && fresh(Repr() - old(Repr()))
      ensures defaultBufferSize == old(defaultBufferSize) && minimumAppendSize == old(minimumAppendSize)
    {
      hide Flat, Parts, Distinct, AllValid;
      var start := 0;
      assert Contents() + buf[..0] == Contents();
      while start < |buf|
        invariant start <= |buf| && Valid() && Contents() == old(Contents()) + buf[..start]
        invariant fresh(Repr() - old(Repr()))
        invariant defaultBufferSize == old(defaultBufferSize) && minimumAppendSize == old(minimumAppendSize)
      {
        var n := CopyChunk(buf[start..]);
        Extends(buf, start, n, old(Contents()));
        start := start + n;
      }
      assert buf[..start] == buf;
    }

    /** One round of CopyFrom's loop: append what there is room for. */
    method CopyChunk(buf: Bytes) returns (n: nat)
      requires Valid() && 1 <= |buf| <= LARGEST && defaultBufferSize <= LARGEST && minimumAppendSize >= 1
      modifies Repr()
      ensures Valid() && 1 <= n <= |buf| && Contents() == old(Contents()) + buf[..n] && fresh(Repr() - old(Repr()))
      ensures defaultBufferSize == old(defaultBufferSize) && minimumAppendSize == old(minimumAppendSize)
    {
      hide Flat, Parts, Distinct, AllValid;
      ghost var before := Contents();
      var b, offset, realsize := GetAppendBuf(|buf|);
      OwnsLast(buffers);
      ghost var now := Contents();
      assert now[..|now| - realsize] == before;
      hide CordBuffer.Contents;
      Fill(offset, buf[..realsize]);
      n := realsize;
    }

    /** Append another cord: borrowed blocks are borrowed again, the others are copied. */
    method CopyCord(src: Cord)
      requires Valid() && src.Shaped() && src != this && Outside(src.buffers, Repr())
      requires defaultBufferSize <= LARGEST && minimumAppendSize >= 1
      modifies Repr()
      ensures Valid() && Contents() == old(Contents()) + old(src.Contents()) && fresh(Repr() - old(Repr()))
    {
      hide Flat, Parts, Distinct, AllValid, CopiedTo, CordBuffer.Contents, CordBuffer.Valid;
      ghost var parts, before := Parts(src.buffers), Contents();
      PartsCount(src.buffers);
      CopyStarts(parts, before);
      for i := 0 to |src.buffers|
        invariant Valid() && fresh(Repr() - old(Repr())) && Outside(src.buffers, Repr())
        invariant defaultBufferSize == old(defaultBufferSize) && minimumAppendSize == old(minimumAppendSize)
        invariant src.Shaped() && src.buffers == old(src.buffers) && Parts(src.buffers) == parts
        invariant CopiedTo(parts, before, i, Contents())
      {
        PartsAt(src.buffers, i);
        CopyStep(parts, before, i, Contents());
        CopyBuffer(src.buffers[i]);
      }
      CopyEnds(parts, before, Contents());
    }

    /** Append what another cord's buffer holds. */
    method CopyBuffer(b: CordBuffer)
      requires Valid() && b.Valid() && b !in Repr() && (b.mutableBuffer != null ==> b.mutableBuffer !in Repr())
      requires defaultBufferSize <= LARGEST && minimumAppendSize >= 1
      modifies Repr()
      ensures Valid() && Contents() == old(Contents()) + old(b.Contents()) && fresh(Repr() - old(Repr()))
      ensures defaultBufferSize == old(defaultBufferSize) && minimumAppendSize == old(minimumAppendSize)
    {
      if b.dealloc {
        CopyFrom(b.Held());
      } else {
        Append(b.Held());
      }
    }

    /** The bytes as one string. */
    method ToString() returns (out: Bytes)
      requires Shaped()
      ensures out == Contents()
    {
      hide Flat, Parts;
      out := [];
      ghost var parts := Parts(buffers);
      PartsCount(buffers);
      FlatFrom(parts, 0);
      for i := 0 to |buffers|
        invariant out + Flat(parts[i..]) == Contents()
      {
        PartsAt(buffers, i);
        FlatFrom(parts, i);
        Reassociate(out, parts[i], Flat(parts[i + 1..]));
        out := out + buffers[i].Held();
      }
      FlatFrom(parts, |parts|);
    }

    /** The bytes from `start` on, at most `len` of them; nothing when the cord is not that long. */
    method Substr(start: nat, len: nat) returns (out: Option<Bytes>)
      requires Valid()
      ensures start >= size ==> out == None
      ensures start < size ==> out == Some(Contents()[start..if start + len < size then start + len else size])
    {
      if start >= size {
        return None;
      }
      hide Flat, Parts, Distinct, AllValid, SliceLeft, CordBuffer.Contents, CordBuffer.Held, CordBuffer.Size;
      var left := if size - start < len then size - start else len;
      ghost var parts, wanted := Parts(buffers), Contents()[start..start + left];
      var from, bytes: Bytes := start, [];
      PartsCount(buffers);
      SliceStarts(parts, from, left);
      for i := 0 to |buffers|
        invariant 0 <= from && 0 <= left && SliceLeft(parts, i, from, left, bytes, wanted)
      {
        PartsAt(buffers, i);
        if from > buffers[i].Size() {
          SliceSkips(parts, i, from, left, bytes, wanted);
          from := from - buffers[i].Size();
          continue;
        }
        var chunk := buffers[i].Held();
        var n := if left < |chunk| - from then left else |chunk| - from;
        SliceTakes(parts, i, from, n, left, bytes, wanted);
        bytes := bytes + chunk[from..from + n];
        left := left - n;
        if left == 0 {
          return Some(bytes);
        }
        from := 0;
      }
      SliceEnds(parts, from, left, bytes, wanted);
      return Some(bytes);
    }

    /** Take the first bytes off the cord; none when it does not hold that many. Of the bytes taken from buffers that are
        used up before the last one, the size does not take account. */
    method Consume(bytes: nat) returns (out: Option<Bytes>)
      requires Valid()
      modifies Repr()
      ensures Shaped()
      ensures bytes > old(size) ==> out == None && size == old(size) && Contents() == old(Contents())
      ensures bytes <= old(size) ==> out == Some(old(Contents())[..bytes]) && Contents() == old(Contents())[bytes..]
      ensures bytes < old(size) ==> size == old(size) - bytes + Whole(old(Parts(buffers)), bytes)
      ensures Valid() <==> bytes >= old(size) || Whole(old(Parts(buffers)), bytes) == 0
    {
      hide Flat, Parts, Distinct, AllValid, Whole, Taking, CordBuffer.Contents, CordBuffer.Held, CordBuffer.Size;
      if bytes > size {
        return None;
      }
      if bytes == size {
        var all := ToString();
        assert all[..bytes] == all && all[bytes..] == [];
        Clear();
        return Some(all);
      }
      var got := ConsumeSome(bytes);
      return Some(got);
    }

    /** Consume's loop, when not everything is wanted. */
    method ConsumeSome(bytes: nat) returns (got: Bytes)
      requires Valid() && bytes < size
      modifies Repr()
      ensures Shaped() && got == old(Contents())[..bytes] && Contents() == old(Contents())[bytes..]
      ensures size == old(size) - bytes + Whole(old(Parts(buffers)), bytes)
    {
      hide Flat, Parts, Distinct, AllValid, Whole, Taking, CordBuffer.Contents, CordBuffer.Held, CordBuffer.Size;
      ghost var parts := Parts(buffers);
      var left := bytes;
      got := [];
      TakingStarts(parts, bytes);
      while |buffers| > 0 && left > 0
        invariant Shaped() && Repr() <= old(Repr()) && 0 <= left
        invariant left > 0 ==> size == old(size) && Taking(parts, bytes, Parts(buffers), left, got)
        invariant left == 0 ==> Taken(parts, bytes, Contents(), got) && size == old(size) - bytes + Whole(parts, bytes)
        decreases |buffers| + left
      {
        var first := buffers[0];
        SplitFirst(buffers);
        OwnsFirst(buffers);
        DropFirst(buffers);
        if first.Size() >= left {
          TakesLast(parts, bytes, Parts(buffers), left, got);
          var chunk := ConsumeFirst(left);
          got := got + chunk;
          left := 0;
          DropEmpty();
        } else {
          TakesWhole(parts, bytes, Parts(buffers), left, got);
          got := got + first.Held();
          left := left - first.Size();
          buffers := buffers[1..];
        }
      }
      if left > 0 {
        TakesEnough(parts, bytes, Parts(buffers), left, got);
        NoParts(buffers);
      }
    }

    /** Drop the first buffer if nothing is left in it. */
    method DropEmpty()
      requires Shaped() && buffers != []
      modifies this`buffers
      ensures Shaped() && Contents() == old(Contents()) && Repr() <= old(Repr())
      ensures |buffers| <= |old(buffers)|
    {
      hide Flat, Parts, Distinct, AllValid, Memory;
      SplitFirst(buffers);
      if buffers[0].Size() == 0 {
        DropFirst(buffers);
        FlatFirst(Parts(buffers));
        buffers := buffers[1..];
      }
    }

    /** The end of Consume: what is still wanted is all in the first buffer. */
    method ConsumeFirst(left: Word) returns (chunk: Bytes)
      requires Shaped() && buffers != [] && buffers[0].Valid() && left <= |buffers[0].Contents()| && left <= size
      modifies this`size, buffers[..1]`used
      ensures Shaped() && Repr() == old(Repr())
      ensures left <= |old(Contents())| && chunk == old(Contents())[..left] && Contents() == old(Contents())[left..]
      ensures size == old(size) - left
    {
      hide Flat, Parts, Distinct, AllValid, Memory, CordBuffer.Contents;
      var buf := buffers[0];
      ghost var rest, held := buffers[1..], buf.Contents();
      SplitFirst(buffers);
      FirstIsOther(buffers);
      FlatFirst(Parts(buffers));
      ghost var others := Parts(rest);
      chunk := buf.Held()[..left];
      buf.Consume(left);
      OneLess(buf, rest);
      FlatFirst([buf.Contents()] + others);
      size := size - left;
    }
  }

  lemma Reassociate(a: Bytes, b: Bytes, c: Bytes)
    ensures a + (b + c) == a + b + c
  {
  }

  lemma Extends(buf: Bytes, start: nat, n: nat, before: Bytes)
    requires start + n <= |buf|
    ensures before + buf[..start] + buf[start..][..n] == before + buf[..start + n]
  {
  }

  // ---------- copying, part by part ----------

  ghost predicate CopiedTo(parts: seq<Bytes>, before: Bytes, i: nat, now: Bytes) {
    i <= |parts| && now + Flat(parts[i..]) == before + Flat(parts)
  }

  lemma CopyStarts(parts: seq<Bytes>, before: Bytes)
    ensures CopiedTo(parts, before, 0, before)
  {
    assert parts[0..] == parts;
  }

  lemma CopyStep(parts: seq<Bytes>, before: Bytes, i: nat, now: Bytes)
    requires CopiedTo(parts, before, i, now) && i < |parts|
    ensures CopiedTo(parts, before, i + 1, now + parts[i])
  {
    FlatFrom(parts, i);
    Reassociate(now, parts[i], Flat(parts[i + 1..]));
  }

  lemma CopyEnds(parts: seq<Bytes>, before: Bytes, now: Bytes)
    requires CopiedTo(parts, before, |parts|, now)
    ensures now == before + Flat(parts)
  {
    FlatFrom(parts, |parts|);
  }

  // ---------- slicing, part by part ----------

  /** What is wanted is what has been taken and `left` more bytes, from byte `from` of part i on. */
  ghost predicate SliceLeft(parts: seq<Bytes>, i: nat, from: nat, left: nat, bytes: Bytes, wanted: Bytes) {
    i <= |parts| && from + left <= |Flat(parts[i..])| && wanted == bytes + Flat(parts[i..])[from..from + left]
  }

  lemma SliceStarts(parts: seq<Bytes>, from: nat, left: nat)
    requires from + left <= |Flat(parts)|
    ensures SliceLeft(parts, 0, from, left, [], Flat(parts)[from..from + left])
  {
    assert parts[0..] == parts;
  }

  lemma SliceSkips(parts: seq<Bytes>, i: nat, from: nat, left: nat, bytes: Bytes, wanted: Bytes)
    requires i < |parts| && SliceLeft(parts, i, from, left, bytes, wanted) && from > |parts[i]|
    ensures SliceLeft(parts, i + 1, from - |parts[i]|, left, bytes, wanted)
  {
    FlatFrom(parts, i);
    hide Flat;
    var b := Flat(parts[i + 1..]);
    assert (parts[i] + b)[from..from + left] == b[from - |parts[i]|..from - |parts[i]| + left];
  }

  lemma SliceTakes(parts: seq<Bytes>, i: nat, from: nat, n: nat, left: nat, bytes: Bytes, wanted: Bytes)
    requires i < |parts| && SliceLeft(parts, i, from, left, bytes, wanted) && from <= |parts[i]|
    requires n == if left < |parts[i]| - from then left else |parts[i]| - from
    ensures SliceLeft(parts, i + 1, 0, left - n, bytes + parts[i][from..from + n], wanted)
    ensures left == n ==> bytes + parts[i][from..from + n] == wanted
  {
    FlatFrom(parts, i);
    hide Flat;
    var b := Flat(parts[i + 1..]);
    assert (parts[i] + b)[from..from + left] == parts[i][from..from + n] + b[0..0 + (left - n)];
  }

  lemma SliceEnds(parts: seq<Bytes>, from: nat, left: nat, bytes: Bytes, wanted: Bytes)
    requires SliceLeft(parts, |parts|, from, left, bytes, wanted)
    ensures bytes == wanted
  {
  }

  // ---------- taking from the front, part by part ----------

  /** `left` bytes are still wanted from the parts that remain. */
  ghost predicate Taking(parts: seq<Bytes>, bytes: nat, rest: seq<Bytes>, left: nat, got: Bytes) {
    && left <= bytes < |Flat(parts)| && got == Flat(parts)[..bytes - left] && Flat(rest) == Flat(parts)[bytes - left..]
    && Whole(parts, bytes) == bytes - left + Whole(rest, left)
  }

  ghost predicate Taken(parts: seq<Bytes>, bytes: nat, now: Bytes, got: Bytes) {
    bytes < |Flat(parts)| && got == Flat(parts)[..bytes] && now == Flat(parts)[bytes..]
  }

  lemma TakingStarts(parts: seq<Bytes>, bytes: nat)
    requires bytes < |Flat(parts)|
    ensures Taking(parts, bytes, parts, bytes, [])
    ensures bytes == 0 ==> Taken(parts, bytes, Flat(parts), []) && Whole(parts, bytes) == 0
  {
  }

  lemma TakesWhole(parts: seq<Bytes>, bytes: nat, rest: seq<Bytes>, left: nat, got: Bytes)
    requires Taking(parts, bytes, rest, left, got) && rest != [] && |rest[0]| < left
    ensures Taking(parts, bytes, rest[1..], left - |rest[0]|, got + rest[0])
  {
    var all, more := Flat(parts), Flat(rest[1..]);
    assert Flat(rest) == rest[0] + more;
    assert more == Flat(rest)[|rest[0]|..] && rest[0] == Flat(rest)[..|rest[0]|];
    hide Flat;
    assert all[..bytes - left + |rest[0]|] == all[..bytes - left] + all[bytes - left..][..|rest[0]|];
  }

  lemma TakesLast(parts: seq<Bytes>, bytes: nat, rest: seq<Bytes>, left: nat, got: Bytes)
    requires Taking(parts, bytes, rest, left, got) && rest != [] && |rest[0]| >= left
    ensures left <= |Flat(rest)| && Taken(parts, bytes, Flat(rest)[left..], got + Flat(rest)[..left])
    ensures Whole(parts, bytes) == bytes - left
  {
    hide Flat;
    var all := Flat(parts);
    assert all[..bytes] == all[..bytes - left] + all[bytes - left..][..left];
  }

  lemma TakesEnough(parts: seq<Bytes>, bytes: nat, rest: seq<Bytes>, left: nat, got: Bytes)
    requires Taking(parts, bytes, rest, left, got)
    ensures Flat(rest) != []
  {
  }

  lemma NoParts(bs: seq<CordBuffer>)
    requires AllValid(bs)
    ensures bs == [] ==> Flat(Parts(bs)) == []
  {
  }

  lemma FlatFirst(parts: seq<Bytes>)
    requires parts != []
    ensures Flat(parts) == parts[0] + Flat(parts[1..])
  {
  }

  /** A set of objects that no buffer and no memory belongs to. */
  ghost predicate Outside(bs: seq<CordBuffer>, repr: set<object>)
    reads bs`mutableBuffer
  {
    forall b :: b in bs ==> b !in repr && (b.mutableBuffer != null ==> b.mutableBuffer !in repr)
  }

  /** The first, and all the others. */
  lemma SplitFirst(bs: seq<CordBuffer>)
    requires AllValid(bs) && bs != []
    ensures AllValid(bs[1..]) && bs[0].Valid() && Parts(bs) == [bs[0].Contents()] + Parts(bs[1..])
    ensures bs == [bs[0]] + bs[1..]
  {
  }

  lemma OneLess(b: CordBuffer, rest: seq<CordBuffer>)
    requires AllValid(rest) && b.Valid()
    ensures AllValid([b] + rest) && Parts([b] + rest) == [b.Contents()] + Parts(rest)
  {
    assert ([b] + rest)[1..] == rest;
  }

  lemma DropFirst(bs: seq<CordBuffer>)
    requires Sound(bs) && bs != []
    ensures Sound(bs[1..]) && Memory(bs[1..]) <= Memory(bs)
  {
    assert forall c :: c in bs[1..] ==> c in bs;
  }

  lemma OwnsLast(bs: seq<CordBuffer>)
    requires bs != []
    ensures var b := bs[|bs| - 1]; b in Memory(bs) && (b.mutableBuffer != null ==> b.mutableBuffer in Memory(bs))
    ensures bs[|bs| - 1..] == [bs[|bs| - 1]]
  {
    assert bs[|bs| - 1] in bs;
  }

  lemma OwnsFirst(bs: seq<CordBuffer>)
    requires bs != []
    ensures bs[0] in Memory(bs) && bs[..1] == [bs[0]]
  {
    assert bs[0] in bs;
  }

  lemma FirstIsOther(bs: seq<CordBuffer>)
    requires Distinct(bs) && bs != []
    ensures bs[0] !in bs[1..]
  {
  }

  lemma LastMemoryApart(bs: seq<CordBuffer>)
    requires Distinct(bs) && bs != [] && bs[|bs| - 1].mutableBuffer != null
    ensures forall c :: c in bs[..|bs| - 1] ==> c.mutableBuffer != bs[|bs| - 1].mutableBuffer
  {
    forall c | c in bs[..|bs| - 1] ensures c.mutableBuffer != bs[|bs| - 1].mutableBuffer {
      var i :| 0 <= i < |bs| - 1 && bs[i] == c;
      assert Apart(bs[i], bs[|bs| - 1]);
    }
  }

  lemma LastIsOther(bs: seq<CordBuffer>)
    requires Distinct(bs) && bs != []
    ensures bs[|bs| - 1] !in bs[..|bs| - 1]
  {
  }
}
