/** Bob Jenkins' lookup3: its mixing, its three loops and its two tails, which all compute one function.
    A uint32_t is an integer below 2^32, with every wrap-around written out. */
module Lookup3 {
  import opened Bits
  import opened ByteStrings

  datatype Regs = Regs(a: Word, b: Word, c: Word)

  // ---------- 32-bit operations ----------

  function Add(x: Word, y: Word): Word { (x + y) % MODULUS }

  function Sub(x: Word, y: Word): Word { (x - y + MODULUS) % MODULUS }

  /** Rotate left by k bits. */
  function Rot(x: Word, k: nat): Word
    requires k <= 32
  {
    Or(ShiftLeft(x, k), ShiftRight(x, 32 - k))
  }

  /** To the left, and nothing is lost: multiplied by 2^k, with what overflows coming back at the bottom. */
  lemma RotIs(x: Word, k: nat)
    requires k <= 32
    ensures Rot(x, k) == x * Pow2(k) % MODULUS + x / Pow2(32 - k)
  {
    RotatedIs(x, k);
  }

  lemma SubAdd(x: Word, y: Word)
    ensures Add(Sub(x, y), y) == x && Sub(Add(x, y), y) == x
  {
  }

  /** Adding undoes subtracting, either way, and exclusive-or undoes itself. */
  lemma Cancels()
    ensures forall x: Word, y: Word :: Add(Sub(x, y), y) == x && Sub(Add(x, y), y) == x && Xor(Xor(x, y), y) == x
  {
    forall x: Word, y: Word ensures Add(Sub(x, y), y) == x && Sub(Add(x, y), y) == x && Xor(Xor(x, y), y) == x {
      SubAdd(x, y);
      Powers();
      XorBitsTwice(x, y, 32);
    }
  }

  // ---------- mixing ----------

  /** One line of mix on a, b and c, with the registers renamed so that the next line has the same form. */
  function MixLine(s: Regs, k: nat): Regs
    requires k <= 32
  {
    Regs(s.b, Add(s.c, s.b), Xor(Sub(s.a, s.c), Rot(s.c, k)))
  }

  function UnmixLine(s: Regs, k: nat): Regs
    requires k <= 32
  {
    var c := Sub(s.b, s.a);
    Regs(Add(Xor(s.c, Rot(c, k)), c), s.a, c)
  }

  function Mix(s: Regs): Regs {
    MixLine(MixLine(MixLine(MixLine(MixLine(MixLine(s, 4), 6), 8), 16), 19), 4)
  }

  function Unmix(s: Regs): Regs {
    UnmixLine(UnmixLine(UnmixLine(UnmixLine(UnmixLine(UnmixLine(s, 4), 19), 16), 8), 6), 4)
  }

  /** One line of final, with the registers renamed so that the next line has the same form. */
  function FinalLine(s: Regs, k: nat): Regs
    requires k <= 32
  {
    Regs(s.b, Sub(Xor(s.c, s.b), Rot(s.b, k)), s.a)
  }

  function UnfinalLine(s: Regs, k: nat): Regs
    requires k <= 32
  {
    Regs(s.c, s.a, Xor(Add(s.b, Rot(s.a, k)), s.a))
  }

  function Final(s: Regs): Regs {
    var t := FinalLine(FinalLine(FinalLine(FinalLine(FinalLine(FinalLine(FinalLine(s, 14), 11), 25), 16), 4), 14), 24);
    Regs(t.c, t.a, t.b)
  }

  function Unfinal(s: Regs): Regs {
    var t := Regs(s.b, s.c, s.a);
    UnfinalLine(UnfinalLine(UnfinalLine(UnfinalLine(UnfinalLine(UnfinalLine(UnfinalLine(t, 24), 14), 4), 16), 25), 11), 14)
  }

  lemma MixLineReversible(s: Regs, k: nat)
    requires k <= 32
    ensures UnmixLine(MixLine(s, k), k) == s && MixLine(UnmixLine(s, k), k) == s
  {
    hide Add, Sub, Xor, Rot;
    Cancels();
  }

  lemma FinalLineReversible(s: Regs, k: nat)
    requires k <= 32
    ensures UnfinalLine(FinalLine(s, k), k) == s && FinalLine(UnfinalLine(s, k), k) == s
  {
    hide Add, Sub, Xor, Rot;
    Cancels();
  }

  /** mix loses nothing: it is a bijection on the three registers. */
  lemma MixReversible(s: Regs)
    ensures Unmix(Mix(s)) == s && Mix(Unmix(s)) == s
  {
    hide MixLine, UnmixLine;
    forall t: Regs, k: nat | k <= 32 ensures UnmixLine(MixLine(t, k), k) == t && MixLine(UnmixLine(t, k), k) == t {
      MixLineReversible(t, k);
    }
  }

  /** So is final. */
  lemma FinalReversible(s: Regs)
    ensures Unfinal(Final(s)) == s && Final(Unfinal(s)) == s
  {
    hide FinalLine, UnfinalLine;
    forall t: Regs, k: nat | k <= 32 ensures UnfinalLine(FinalLine(t, k), k) == t && FinalLine(UnfinalLine(t, k), k) == t {
      FinalLineReversible(t, k);
    }
  }

  /** The mix macro, assignment by assignment. */
  method MixMacro(s: Regs) returns (r: Regs)
    ensures r == Mix(s)
  {
    hide Add, Sub, Xor, Rot;
    var a, b, c := s.a, s.b, s.c;
    a := Sub(a, c);  a := Xor(a, Rot(c, 4));   c := Add(c, b);
    b := Sub(b, a);  b := Xor(b, Rot(a, 6));   a := Add(a, c);
    c := Sub(c, b);  c := Xor(c, Rot(b, 8));   b := Add(b, a);
    a := Sub(a, c);  a := Xor(a, Rot(c, 16));  c := Add(c, b);
    b := Sub(b, a);  b := Xor(b, Rot(a, 19));  a := Add(a, c);
    c := Sub(c, b);  c := Xor(c, Rot(b, 4));   b := Add(b, a);
    r := Regs(a, b, c);
  }

  /** The final macro, assignment by assignment. */
  method FinalMacro(s: Regs) returns (r: Regs)
    ensures r == Final(s)
  {
    hide Add, Sub, Xor, Rot;
    var a, b, c := s.a, s.b, s.c;
    c := Xor(c, b);  c := Sub(c, Rot(b, 14));
    a := Xor(a, c);  a := Sub(a, Rot(c, 11));
    b := Xor(b, a);  b := Sub(b, Rot(a, 25));
    c := Xor(c, b);  c := Sub(c, Rot(b, 16));
    a := Xor(a, c);  a := Sub(a, Rot(c, 4));
    b := Xor(b, a);  b := Sub(b, Rot(a, 14));
    c := Xor(c, b);  c := Sub(c, Rot(b, 24));
    r := Regs(a, b, c);
  }

  // ---------- reading the key ----------

  /** Byte i of the key, and zero past its end. */
  function At(k: Bytes, i: nat): Byte {
    if i < |k| then k[i] else 0
  }

  /** The little-endian 16-bit and 32-bit words that start at byte i. */
  function Half(k: Bytes, i: nat): Word {
    At(k, i) + 0x100 * At(k, i + 1)
  }

  function Full(k: Bytes, i: nat): Word {
    At(k, i) + 0x100 * At(k, i + 1) + 0x1_0000 * At(k, i + 2) + 0x100_0000 * At(k, i + 3)
  }

  /** Add the three words of a block to the registers. */
  function AddBlock(s: Regs, k: Bytes): Regs {
    Regs(Add(s.a, Full(k, 0)), Add(s.b, Full(k, 4)), Add(s.c, Full(k, 8)))
  }

  // ---------- the one function ----------

  /** What the registers hold at the end: whole blocks are added and mixed, the last one (of 1 to 12 bytes, as if padded
      with zeros) is added and finalised; an empty key leaves them alone. */
  function Digest(s: Regs, k: Bytes): Regs
    decreases |k|
  {
    if |k| > 12 then Digest(Mix(AddBlock(s, k)), k[12..])
    else if |k| == 0 then s
    else Final(AddBlock(s, k))
  }

  function Start(length: nat, pc: Word, pb: Word): Regs {
    var x := Add(Add(0xdeadbeef, length % MODULUS), pc);
    Regs(x, x, Add(x, pb))
  }

  /** Where the registers start: at a constant plus the length plus the first seed, and the last one plus the second seed. */
  lemma StartIs(length: nat, pc: Word, pb: Word)
    ensures var s := Start(length, pc, pb);
      s.a == s.b == (0xdead_beef + length + pc) % MODULUS && s.c == (0xdead_beef + length + pc + pb) % MODULUS
  {
    ModTwice(0xdead_beef, length % MODULUS);
    ModTwice(length, 0xdead_beef);
    ModTwice(0xdead_beef + length, pc);
    ModTwice(0xdead_beef + length + pc, pb);
  }

  lemma ModTwice(x: nat, y: nat)
    ensures (x % MODULUS + y) % MODULUS == (x + y) % MODULUS
  {
  }

  /** The hash of a byte string. */
  function Hash(k: Bytes, initval: Word): Word {
    Digest(Start(|k|, initval, 0), k).c
  }

  // ---------- nothing is lost ----------

  function Undigest(s: Regs, k: Bytes): Regs
    decreases |k|
  {
    if |k| > 12 then SubBlock(Unmix(Undigest(s, k[12..])), k)
    else if |k| == 0 then s
    else SubBlock(Unfinal(s), k)
  }

  function SubBlock(s: Regs, k: Bytes): Regs {
    Regs(Sub(s.a, Full(k, 0)), Sub(s.b, Full(k, 4)), Sub(s.c, Full(k, 8)))
  }

  /** For a fixed key the whole computation is a bijection on the registers. */
  lemma {:induction false} DigestReversible(s: Regs, k: Bytes)
    ensures Undigest(Digest(s, k), k) == s && Digest(Undigest(s, k), k) == s
    decreases |k|
  {
    hide Add, Sub, Mix, Unmix, Final, Unfinal, Full;
    Cancels();
    if |k| > 12 {
      DigestReversible(Mix(AddBlock(s, k)), k[12..]);
      MixReversible(AddBlock(s, k));
      DigestReversible(s, k[12..]);
      MixReversible(Undigest(s, k[12..]));
    } else if |k| > 0 {
      FinalReversible(AddBlock(s, k));
      FinalReversible(s);
    }
  }

  // ---------- the ways to read a key ----------

  /** How hashlittle reads: by words, masking the last one or (as built here, with VALGRIND defined) taking the rest of it
      byte by byte; by halves; or by bytes. The first two need a key aligned to four bytes, the third to two. */
  datatype Reading = MaskedWords | Words | Halves | Bytewise

  /** Everything of hashlittle and hashlittle2 after the registers are set up. `memory` starts at the key and goes on past
      its end with bytes that are not the key's. */
  method Run(memory: Bytes, length: nat, how: Reading, start: Regs) returns (r: Regs)
    requires length <= |memory|
    ensures r == Digest(start, memory[..length])
  {
    hide Add, Sub, Mix, Final, Full;
    var s, at, left := start, 0, length;
    assert memory[0..length] == memory[..length];
    while left > 12
      invariant at + left == length
      invariant Digest(s, memory[at..length]) == Digest(start, memory[..length])
    {
      s := ReadBlock(s, memory, at, length, how);
      s := MixMacro(s);
      assert memory[at..length][12..] == memory[at + 12..length];
      left := left - 12;
      at := at + 12;
    }
    if left == 0 {
      return s;
    }
    match how {
      case MaskedWords => s := MaskedTail(s, memory, at, left);
      case Words => s := WordTail(s, memory, at, left);
      case Halves => s := HalfTail(s, memory, at, left);
      case Bytewise => s := ByteTail(s, memory, at, left);
    }
    r := FinalMacro(s);
  }

  /** The additions of one round of the loop. */
  method ReadBlock(s: Regs, memory: Bytes, at: nat, end: nat, how: Reading) returns (r: Regs)
    requires at + 12 <= end <= |memory|
    ensures r == AddBlock(s, memory[at..end])
  {
    hide Add;
    var a, b, c := s.a, s.b, s.c;
    var k := memory[at..];
    BlockWords(memory, at, end);
    match how {
      case MaskedWords => a := Add(a, Full(k, 0)); b := Add(b, Full(k, 4)); c := Add(c, Full(k, 8));
      case Words => a := Add(a, Full(k, 0)); b := Add(b, Full(k, 4)); c := Add(c, Full(k, 8));
      case Halves =>
        a := Add(a, Half(k, 0) + 0x1_0000 * Half(k, 2));
        b := Add(b, Half(k, 4) + 0x1_0000 * Half(k, 6));
        c := Add(c, Half(k, 8) + 0x1_0000 * Half(k, 10));
      case Bytewise =>
        a := AddBytes(a, k, 0);
        b := AddBytes(b, k, 4);
        c := AddBytes(c, k, 8);
    }
    r := Regs(a, b, c);
  }

  method AddBytes(x: Word, k: Bytes, i: nat) returns (r: Word)
    requires i + 4 <= |k|
    ensures r == Add(x, Full(k, i))
  {
    hide Add;
    r := Add(x, k[i]);
    r := Add(r, 0x100 * (k[i + 1] as int));
    r := Add(r, 0x1_0000 * (k[i + 2] as int));
    r := Add(r, 0x100_0000 * (k[i + 3] as int));
    AddAdd(x, k[i], 0x100 * (k[i + 1] as int));
    AddAdd(x, k[i] + 0x100 * (k[i + 1] as int), 0x1_0000 * (k[i + 2] as int));
    AddAdd(x, k[i] + 0x100 * (k[i + 1] as int) + 0x1_0000 * (k[i + 2] as int), 0x100_0000 * (k[i + 3] as int));
  }

  /** The last block by words: case by case, with masks. */
  method MaskedTail(s: Regs, memory: Bytes, at: nat, left: nat) returns (r: Regs)
    requires 1 <= left <= 12 && at + left <= |memory|
    ensures r == AddBlock(s, memory[at..at + left])
  {
    hide Add, Full;
    var a, b, c := s.a, s.b, s.c;
    TailWords(memory, at, left);
    AddZero(s.b);
    AddZero(s.c);
    var k := memory[at..];
    match left {
      case 12 => c := Add(c, Full(k, 8)); b := Add(b, Full(k, 4)); a := Add(a, Full(k, 0));
      case 11 => c := Add(c, Full(k, 8) % 0x100_0000); b := Add(b, Full(k, 4)); a := Add(a, Full(k, 0));
      case 10 => c := Add(c, Full(k, 8) % 0x1_0000); b := Add(b, Full(k, 4)); a := Add(a, Full(k, 0));
      case 9  => c := Add(c, Full(k, 8) % 0x100); b := Add(b, Full(k, 4)); a := Add(a, Full(k, 0));
      case 8  => b := Add(b, Full(k, 4)); a := Add(a, Full(k, 0));
      case 7  => b := Add(b, Full(k, 4) % 0x100_0000); a := Add(a, Full(k, 0));
      case 6  => b := Add(b, Full(k, 4) % 0x1_0000); a := Add(a, Full(k, 0));
      case 5  => b := Add(b, Full(k, 4) % 0x100); a := Add(a, Full(k, 0));
      case 4  => a := Add(a, Full(k, 0));
      case 3  => a := Add(a, Full(k, 0) % 0x100_0000);
      case 2  => a := Add(a, Full(k, 0) % 0x1_0000);
      case _  => a := Add(a, Full(k, 0) % 0x100);
    }
    r := Regs(a, b, c);
  }

  /** The last, unfinished word from its bytes, highest first: the fall-through cases for 3, 2 and 1 left. */
  method AddLast(x: Word, k: Bytes, i: nat, left: nat) returns (r: Word)
    requires 1 <= left <= 3 && i + left == |k|
    ensures r == Add(x, Full(k, i))
  {
    hide Add;
    r := x;
    if left == 3 { r := Add(r, 0x1_0000 * (k[i + 2] as int)); }
    if left >= 2 { r := Add(r, 0x100 * (k[i + 1] as int)); }
    r := Add(r, k[i]);
    AddZero(x);
    AddAdd(x, 0x1_0000 * At(k, i + 2), 0x100 * At(k, i + 1));
    AddAdd(x, 0x1_0000 * At(k, i + 2) + 0x100 * At(k, i + 1), k[i]);
  }

  /** The last block by words, and its unfinished word by bytes. */
  method WordTail(s: Regs, memory: Bytes, at: nat, left: nat) returns (r: Regs)
    requires 1 <= left <= 12 && at + left <= |memory|
    ensures r == AddBlock(s, memory[at..at + left])
  {
    hide Add;
    var a, b, c := s.a, s.b, s.c;
    AddZero(s.b);
    AddZero(s.c);
    var k := memory[at..at + left];
    if left == 12 {
      c := Add(c, Full(k, 8)); b := Add(b, Full(k, 4)); a := Add(a, Full(k, 0));
    } else if left > 8 {
      c := AddLast(c, k, 8, left - 8); b := Add(b, Full(k, 4)); a := Add(a, Full(k, 0));
    } else if left == 8 {
      b := Add(b, Full(k, 4)); a := Add(a, Full(k, 0));
    } else if left > 4 {
      b := AddLast(b, k, 4, left - 4); a := Add(a, Full(k, 0));
    } else if left == 4 {
      a := Add(a, Full(k, 0));
    } else {
      a := AddLast(a, k, 0, left);
    }
    r := Regs(a, b, c);
  }

  /** The last, unfinished word: a half word if two bytes are there, a byte if one is over. */
  method AddLastHalf(x: Word, k: Bytes, i: nat, left: nat) returns (r: Word)
    requires 1 <= left <= 3 && i + left == |k|
    ensures r == Add(x, Full(k, i))
  {
    hide Add;
    r := x;
    if left == 1 {
      r := Add(r, k[i]);
    } else {
      if left == 3 { r := Add(r, 0x1_0000 * (k[i + 2] as int)); }
      r := Add(r, Half(k, i));
      AddZero(x);
      AddAdd(x, 0x1_0000 * At(k, i + 2), Half(k, i));
    }
  }

  /** The last block by half words. */
  method HalfTail(s: Regs, memory: Bytes, at: nat, left: nat) returns (r: Regs)
    requires 1 <= left <= 12 && at + left <= |memory|
    ensures r == AddBlock(s, memory[at..at + left])
  {
    hide Add;
    var a, b, c := s.a, s.b, s.c;
    AddZero(s.b);
    AddZero(s.c);
    var k := memory[at..at + left];
    if left >= 4 {
      a := Add(a, Half(k, 0) + 0x1_0000 * Half(k, 2));
    } else {
      a := AddLastHalf(a, k, 0, left);
    }
    if left >= 8 {
      b := Add(b, Half(k, 4) + 0x1_0000 * Half(k, 6));
    } else if left > 4 {
      b := AddLastHalf(b, k, 4, left - 4);
    }
    if left == 12 {
      c := Add(c, Half(k, 8) + 0x1_0000 * Half(k, 10));
    } else if left > 8 {
      c := AddLastHalf(c, k, 8, left - 8);
    }
    r := Regs(a, b, c);
  }

  /** The last block by bytes, highest first, every case falling through. */
  method ByteTail(s: Regs, memory: Bytes, at: nat, left: nat) returns (r: Regs)
    requires 1 <= left <= 12 && at + left <= |memory|
    ensures r == AddBlock(s, memory[at..at + left])
  {
    hide Add;
    var k := memory[at..at + left];
    var c := AddDown(s.c, k, 8);
    var b := AddDown(s.b, k, 4);
    var a := AddDown(s.a, k, 0);
    r := Regs(a, b, c);
  }

  method AddDown(x: Word, k: Bytes, i: nat) returns (r: Word)
    ensures r == Add(x, Full(k, i))
  {
    hide Add;
    r := x;
    AddZero(x);
    if |k| >= i + 4 { r := Add(r, 0x100_0000 * (k[i + 3] as int)); }
    if |k| >= i + 3 { r := Add(r, 0x1_0000 * (k[i + 2] as int)); }
    if |k| >= i + 2 { r := Add(r, 0x100 * (k[i + 1] as int)); }
    if |k| >= i + 1 { r := Add(r, k[i]); }
    AddAdd(x, 0x100_0000 * At(k, i + 3), 0x1_0000 * At(k, i + 2));
    AddAdd(x, 0x100_0000 * At(k, i + 3) + 0x1_0000 * At(k, i + 2), 0x100 * At(k, i + 1));
    AddAdd(x, 0x100_0000 * At(k, i + 3) + 0x1_0000 * At(k, i + 2) + 0x100 * At(k, i + 1), At(k, i));
  }

  lemma AddZero(x: Word)
    ensures Add(x, 0) == x
  {
  }

  lemma AddAdd(x: Word, y: nat, z: nat)
    requires y + z < MODULUS
    ensures Add(Add(x, y), z) == Add(x, y + z)
  {
  }

  /** In a whole block the words of the key are those read from memory. */
  lemma BlockWords(memory: Bytes, at: nat, end: nat)
    requires at + 12 <= end <= |memory|
    ensures forall i :: 0 <= i <= 8 ==> Full(memory[at..end], i) == Full(memory[at..], i)
  {
  }

  /** In the last block, a mask takes away just the bytes that are not the key's. */
  lemma TailWords(memory: Bytes, at: nat, left: nat)
    requires 1 <= left <= 12 && at + left <= |memory|
    ensures forall i {:trigger Full(memory[at..at + left], i)} :: 0 <= i <= 8 ==>
        && (left >= i + 4 ==> Full(memory[at..at + left], i) == Full(memory[at..], i))
        && (left == i + 3 ==> Full(memory[at..at + left], i) == Full(memory[at..], i) % 0x100_0000)
        && (left == i + 2 ==> Full(memory[at..at + left], i) == Full(memory[at..], i) % 0x1_0000)
        && (left == i + 1 ==> Full(memory[at..at + left], i) == Full(memory[at..], i) % 0x100)
        && (left <= i ==> Full(memory[at..at + left], i) == 0)
  {
  }

  // ---------- the functions themselves ----------

  /** hashlittle: however the key is aligned, the same hash of the same bytes. */
  method HashLittle(memory: Bytes, length: nat, how: Reading, initval: Word) returns (h: Word)
    requires length <= |memory|
    ensures h == Hash(memory[..length], initval)
  {
    hide Add, Digest;
    var x := Add(Add(0xdeadbeef, length % MODULUS), initval);
    AddZero(x);
    var r := Run(memory, length, how, Regs(x, x, x));
    return r.c;
  }

  /** hashlittle2: two seeds in, two hashes out; with a second seed of 0 the first hash is hashlittle's. */
  method HashLittle2(memory: Bytes, length: nat, how: Reading, pc0: Word, pb0: Word) returns (pc: Word, pb: Word)
    requires length <= |memory|
    ensures pc == Digest(Start(length, pc0, pb0), memory[..length]).c && pb == Digest(Start(length, pc0, pb0), memory[..length]).b
    ensures pb0 == 0 ==> pc == Hash(memory[..length], pc0)
  {
    hide Add, Digest;
    var x := Add(Add(0xdeadbeef, length % MODULUS), pc0);
    var r := Run(memory, length, how, Regs(x, x, Add(x, pb0)));
    return r.c, r.b;
  }

  /** The bytes of an array of words on a little-endian machine. */
  function BytesOf(k: seq<Word>): Bytes {
    if k == [] then [] else
      var w := k[0];
      [w % 0x100, w / 0x100 % 0x100, w / 0x1_0000 % 0x100, w / 0x100_0000] + BytesOf(k[1..])
  }

  /** Hashing words is hashing their bytes: the blocks are the same. */
  lemma {:induction false} BytesOfLength(k: seq<Word>)
    ensures |BytesOf(k)| == 4 * |k|
  {
    if k != [] {
      BytesOfLength(k[1..]);
    }
  }

  lemma WordParts(w: Word)
    ensures w % 0x100 + 0x100 * (w / 0x100 % 0x100) + 0x1_0000 * (w / 0x1_0000 % 0x100) + 0x100_0000 * (w / 0x100_0000) == w
  {
  }

  lemma FirstWord(k: seq<Word>)
    requires k != []
    ensures Full(BytesOf(k), 0) == k[0]
  {
    WordParts(k[0]);
  }

  lemma LaterWord(k: seq<Word>, i: nat)
    requires k != []
    ensures Full(BytesOf(k), 4 + i) == Full(BytesOf(k[1..]), i)
    ensures BytesOf(k)[4..] == BytesOf(k[1..])
  {
  }

  lemma {:induction false} NthWord(k: seq<Word>, n: nat, i: nat)
    requires i == 4 * n
    ensures Full(BytesOf(k), i) == if n < |k| then k[n] else 0
    decreases n
  {
    hide BytesOf, Full;
    if k == [] {
      NoWord(k, i);
    } else if n == 0 {
      FirstWord(k);
    } else {
      LaterWord(k, i - 4);
      NthWord(k[1..], n - 1, i - 4);
    }
  }

  lemma NoWord(k: seq<Word>, i: nat)
    requires k == []
    ensures Full(BytesOf(k), i) == 0
  {
  }

  lemma {:induction false} DropWords(k: seq<Word>, n: nat, i: nat)
    requires n <= |k| && i == 4 * n
    ensures i <= |BytesOf(k)| && BytesOf(k[n..]) == BytesOf(k)[i..]
    decreases n
  {
    BytesOfLength(k);
    if n == 0 {
      assert k[0..] == k;
    } else {
      DropWords(k[1..], n - 1, i - 4);
      LaterWord(k, 0);
      assert k[1..][n - 1..] == k[n..];
      assert BytesOf(k)[4..][i - 4..] == BytesOf(k)[i..];
    }
  }

  /** Everything of hashword and hashword2 after the registers are set up. */
  method RunWords(k: seq<Word>, start: Regs) returns (s: Regs)
    ensures s == Digest(start, BytesOf(k))
  {
    hide Add, Mix, Final, Full, BytesOf, Digest;
    s := start;
    var at, left := 0, |k|;
    assert k[0..] == k;
    while left > 3
      invariant 0 <= left && at + left == |k|
      invariant Digest(s, BytesOf(k[at..])) == Digest(start, BytesOf(k))
    {
      DigestWords(s, k[at..]);
      s := MixMacro(Regs(Add(s.a, k[at]), Add(s.b, k[at + 1]), Add(s.c, k[at + 2])));
      assert k[at..][3..] == k[at + 3..];
      left := left - 3;
      at := at + 3;
    }
    DigestWords(s, k[at..]);
    var a, b, c := s.a, s.b, s.c;
    AddZero(b);
    AddZero(c);
    if left == 3 { c := Add(c, k[at + 2]); }
    if left >= 2 { b := Add(b, k[at + 1]); }
    if left >= 1 {
      a := Add(a, k[at]);
      s := FinalMacro(Regs(a, b, c));
    }
  }

  /** The digest of the bytes of some words, in terms of the words. */
  lemma DigestWords(s: Regs, k: seq<Word>)
    ensures |k| == 0 ==> Digest(s, BytesOf(k)) == s
    ensures |k| > 3 ==>
        Digest(s, BytesOf(k)) == Digest(Mix(Regs(Add(s.a, k[0]), Add(s.b, k[1]), Add(s.c, k[2]))), BytesOf(k[3..]))
    ensures 0 < |k| <= 3 ==>
        Digest(s, BytesOf(k)) == Final(Regs(Add(s.a, k[0]), Add(s.b, if |k| > 1 then k[1] else 0), Add(s.c, if |k| > 2 then k[2] else 0)))
  {
    hide Add, Mix, Final, Full, BytesOf;
    BytesOfLength(k);
    NthWord(k, 0, 0);
    NthWord(k, 1, 4);
    NthWord(k, 2, 8);
    if |k| > 3 {
      DropWords(k, 3, 12);
    }
  }

  lemma FourTimes(n: nat)
    ensures n % MODULUS * 4 % MODULUS == 4 * n % MODULUS
  {
    var q := n / MODULUS;
    var r := n % MODULUS;
    assert 4 * n == 4 * r + 4 * q * MODULUS;
    ModPlus(4 * r, 4 * q);
  }

  lemma {:induction false} ModPlus(r: nat, q: nat)
    ensures (r + q * MODULUS) % MODULUS == r % MODULUS
  {
    if q > 0 {
      ModPlus(r, q - 1);
      assert r + q * MODULUS == r + (q - 1) * MODULUS + MODULUS;
    }
  }

  /** hashword on an array of words is hashlittle on its bytes. */
  method HashWord(k: seq<Word>, initval: Word) returns (h: Word)
    ensures h == Hash(BytesOf(k), initval)
  {
    hide Digest, BytesOf, Add;
    BytesOfLength(k);
    FourTimes(|k|);
    var x := Add(Add(0xdeadbeef, |k| % MODULUS * 4 % MODULUS), initval);
    AddZero(x);
    var r := RunWords(k, Regs(x, x, x));
    return r.c;
  }

  /** hashword2 on an array of words is hashlittle2 on its bytes. */
  method HashWord2(k: seq<Word>, pc0: Word, pb0: Word) returns (pc: Word, pb: Word)
    ensures pc == Digest(Start(4 * |k|, pc0, pb0), BytesOf(k)).c && pb == Digest(Start(4 * |k|, pc0, pb0), BytesOf(k)).b
    ensures pb0 == 0 ==> pc == Hash(BytesOf(k), pc0)
  {
    hide Digest, BytesOf, Add;
    BytesOfLength(k);
    var x := Add(Add(0xdeadbeef, |k| * 4 % MODULUS), pc0);
    var r := RunWords(k, Regs(x, x, Add(x, pb0)));
    return r.c, r.b;
  }
}
