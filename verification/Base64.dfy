/** Base64 as section 4 of RFC 4648 defines it: the encoder's and the decoder's loops, and the round trip. Text is bytes. */
module Base64 {
  import opened ByteStrings
  import opened Wrappers

  /** C++ int. */
  newtype Int32 = i: int | -0x8000_0000 <= i < 0x8000_0000

  const PAD: Byte := 61

  /** std::string::npos in an unsigned char. */
  const NOT_FOUND: Byte := 255

  /** The alphabet: A to Z, a to z, 0 to 9, + and /. */
  function CharOf(i: nat): (c: Byte)
    requires i < 64
    ensures InAlphabet(c)
  {
    if i < 26 then 65 + i
    else if i < 52 then 97 + (i - 26)
    else if i < 62 then 48 + (i - 52)
    else if i == 62 then 43
    else 47
  }

  /** is_base64. */
  predicate InAlphabet(c: Byte) {
    65 <= c <= 90 || 97 <= c <= 122 || 48 <= c <= 57 || c == 43 || c == 47
  }

  /** Table 1 of RFC 4648: which character stands for which number, and that no other byte is one. */
  lemma AlphabetIs(c: Byte)
    ensures forall i :: 0 <= i < 26 ==> CharOf(i) == 'A' as int + i
    ensures forall i :: 26 <= i < 52 ==> CharOf(i) == 'a' as int + (i - 26)
    ensures forall i :: 52 <= i < 62 ==> CharOf(i) == '0' as int + (i - 52)
    ensures CharOf(62) == '+' as int && CharOf(63) == '/' as int && PAD == '=' as int
    ensures InAlphabet(c) <==> exists i :: 0 <= i < 64 && c == CharOf(i)
  {
    if InAlphabet(c) {
      var i := if c >= 97 then c - 71 else if c >= 65 then c - 65 else if c >= 48 then c + 4 else if c == 43 then 62 else 63;
      assert c == CharOf(i);
    }
  }

  /** base64_chars.find, from position i on. */
  function Find(c: Byte, i: nat): Byte
    requires i <= 64
    decreases 64 - i
  {
    if i == 64 then NOT_FOUND else if CharOf(i) == c then i else Find(c, i + 1)
  }

  lemma {:induction false} FindsFrom(i: nat, j: nat)
    requires i <= j < 64
    ensures Find(CharOf(j), i) == j
    decreases j - i
  {
    if i < j {
      FindsFrom(i + 1, j);
    }
  }

  // ---------- what is computed ----------

  function First(a: Byte): nat { a / 4 }

  function Second(a: Byte, b: Byte): nat { a % 4 * 16 + b / 16 }

  function Third(b: Byte, c: Byte): nat { b % 16 * 4 + c / 64 }

  function Fourth(c: Byte): nat { c % 64 }

  function Group(a: Byte, b: Byte, c: Byte): (g: Bytes)
    ensures |g| == 4
  {
    [CharOf(First(a)), CharOf(Second(a, b)), CharOf(Third(b, c)), CharOf(Fourth(c))]
  }

  /** Three bytes to four characters; one or two bytes over to two or three characters and padding. */
  function Encoded(x: Bytes): Bytes {
    if |x| == 0 then []
    else if |x| == 1 then Group(x[0], 0, 0)[..2] + [PAD, PAD]
    else if |x| == 2 then Group(x[0], x[1], 0)[..3] + [PAD]
    else Group(x[0], x[1], x[2]) + Encoded(x[3..])
  }

  /** The four sextets are the digits, to base 64, of the number whose digits to base 256 are the three bytes. */
  lemma GroupIsNumber(a: Byte, b: Byte, c: Byte)
    ensures ((First(a) * 64 + Second(a, b)) * 64 + Third(b, c)) * 64 + Fourth(c) == (a as int * 256 + b) * 256 + c
    ensures First(a) < 64 && Second(a, b) < 64 && Third(b, c) < 64 && Fourth(c) < 64
  {
  }

  function Ungroup(p: Byte, q: Byte, r: Byte, s: Byte): (b: Bytes)
    ensures |b| == 3
  {
    [(p * 4 + q / 16 % 4) % 256, q % 16 * 16 + r / 4 % 16, (r % 4 * 64 + s) % 256]
  }

  lemma FirstByte(p: nat, q: nat)
    requires p < 64 && q < 64
    ensures (p * 4 + q / 16 % 4) % 256 == p * 4 + q / 16
  {
  }

  lemma LaterBytes(q: nat, r: nat, s: nat)
    requires q < 64 && r < 64 && s < 64
    ensures q % 16 * 16 + r / 4 % 16 == 16 * (q % 16) + r / 4 && (r % 4 * 64 + s) % 256 == 64 * (r % 4) + s
  {
  }

  /** And back: the three bytes are the digits, to base 256, of the number whose digits to base 64 are the four sextets. */
  lemma UngroupIsNumber(p: Byte, q: Byte, r: Byte, s: Byte)
    requires p < 64 && q < 64 && r < 64 && s < 64
    ensures var b := Ungroup(p, q, r, s);
      (b[0] as int * 256 + b[1]) * 256 + b[2] == ((p as int * 64 + q) * 64 + r) * 64 + s
  {
    FirstByte(p, q);
    LaterBytes(q, r, s);
    var b := Ungroup(p, q, r, s);
    assert b[0] == p * 4 + q / 16 && b[1] == 16 * (q % 16) + r / 4 && b[2] == 64 * (r % 4) + s;
    hide Ungroup;
  }

  /** The three bytes that four characters stand for. */
  function Unpacked(t: Bytes): (b: Bytes)
    requires |t| == 4
    ensures |b| == 3
  {
    Ungroup(Find(t[0], 0), Find(t[1], 0), Find(t[2], 0), Find(t[3], 0))
  }

  /** Four characters to three bytes; two or three characters over to one or two bytes. */
  function Decoded(t: Bytes): Bytes {
    if |t| <= 1 then []
    else if |t| == 2 then Ungroup(Find(t[0], 0), Find(t[1], 0), NOT_FOUND, NOT_FOUND)[..1]
    else if |t| == 3 then Ungroup(Find(t[0], 0), Find(t[1], 0), Find(t[2], 0), NOT_FOUND)[..2]
    else Unpacked(t[..4]) + Decoded(t[4..])
  }

  /** The characters before the first that is not in the alphabet. */
  function Payload(t: Bytes): Bytes {
    if t == [] || !InAlphabet(t[0]) then [] else [t[0]] + Payload(t[1..])
  }

  // ---------- the loops ----------

  method Base64Encode(x: Bytes) returns (ret: Bytes)
    ensures ret == Encoded(x)
  {
    hide Group, Encoded;
    ret := [];
    var i, at := 0, 0;
    var three := new Byte[3](_ => 0);
    assert three[..0] + x[0..] == x && [] + Encoded(x) == Encoded(x);
    while at < |x|
      invariant at <= |x| && i < 3
      invariant ret + Encoded(three[..i] + x[at..]) == Encoded(x)
    {
      three[i] := x[at];
      assert three[..i + 1] + x[at + 1..] == three[..i] + x[at..];
      i := i + 1;
      at := at + 1;
      if i == 3 {
        EncodedFull(three[..3], x[at..]);
        Joined(ret, Group(three[0], three[1], three[2])[..4], Encoded(x[at..]));
        assert three[..0] + x[at..] == x[at..];
        ret := PutChars(ret, three, 4);
        i := 0;
      }
    }
    NothingEncoded();
    assert three[..i] + x[at..] == three[..i] && ret + [] == ret;
    if i != 0 {
      ghost var over, before := three[..i], ret;
      for j := i to 3
        invariant three[..i] == over
        invariant forall k :: i <= k < j ==> three[k] == 0
      {
        three[j] := 0;
      }
      EncodedOver(three[..3], i);
      ret := PutChars(ret, three, i + 1);
      assert three[..3][..i] == over;
      Joined(before, Group(three[0], three[1], three[2])[..i + 1], seq(3 - i, _ => PAD));
      while i < 3
        invariant i <= 3
        invariant ret + seq(3 - i, _ => PAD) == Encoded(x)
      {
        assert seq(3 - i, _ => PAD) == [PAD] + seq(3 - (i + 1), _ => PAD);
        Joined(ret, [PAD], seq(3 - (i + 1), _ => PAD));
        ret := ret + [PAD];
        i := i + 1;
      }
      assert ret + seq(0, _ => PAD) == ret;
    }
  }

  /** Turn the three bytes into four sextets, and append the characters of the first n. */
  method PutChars(before: Bytes, three: array<Byte>, n: nat) returns (ret: Bytes)
    requires three.Length == 3 && n <= 4
    ensures ret == before + Group(three[0], three[1], three[2])[..n]
  {
    var four := new nat[4](_ => 0);
    four[0] := First(three[0]);
    four[1] := Second(three[0], three[1]);
    four[2] := Third(three[1], three[2]);
    four[3] := Fourth(three[2]);
    ret := before;
    ghost var g := Group(three[0], three[1], three[2]);
    for j := 0 to n
      invariant ret == before + g[..j]
    {
      assert g[..j + 1] == g[..j] + [g[j]];
      ret := ret + [CharOf(four[j])];
    }
  }

  lemma Joined(a: Bytes, b: Bytes, c: Bytes)
    ensures a + (b + c) == a + b + c
  {
  }

  lemma NothingEncoded()
    ensures Encoded([]) == []
  {
  }

  lemma EncodedFull(three: Bytes, rest: Bytes)
    requires |three| == 3
    ensures Encoded(three + rest) == Group(three[0], three[1], three[2])[..4] + Encoded(rest)
  {
    assert (three + rest)[3..] == rest;
  }

  lemma EncodedOver(three: Bytes, i: nat)
    requires |three| == 3 && 1 <= i < 3 && forall k :: i <= k < 3 ==> three[k] == 0
    ensures Encoded(three[..i]) == Group(three[0], three[1], three[2])[..i + 1] + seq(3 - i, _ => PAD)
  {
    assert seq(2, _ => PAD) == [PAD, PAD] && seq(1, _ => PAD) == [PAD];
  }

  /** The low 32 bits. */
  function Low32(n: nat): (r: nat)
    ensures r < 0x1_0000_0000 && r <= n
  {
    n % 0x1_0000_0000
  }

  /** The conversion of a size_t to an int. */
  function ToInt32(n: nat): Int32 {
    var r := Low32(n);
    if r < 0x8000_0000 then r as Int32 else (r - 0x1_0000_0000) as Int32
  }

  /** What the decoder returns. The length is held in an int: of a text of 2^32 characters or more only a part is looked at, and
      a length from 2^31 on is negative and counted down past the least int unless the characters run out first; None stands
      for that overflow, which C++ leaves undefined. */
  function DecodedText(t: Bytes): Option<Bytes> {
    var n := Low32(|t|);
    if n < 0x8000_0000 then Some(Decoded(Payload(t[..n])))
    else if |Payload(t)| < n - 0x8000_0000 then Some(Decoded(Payload(t)))
    else None
  }

  /** The characters the loop may look at before the length is 0 or overflows. */
  function Reach(t: Bytes): nat {
    var n := Low32(|t|);
    if n < 0x8000_0000 then n else n - 0x8000_0000
  }

  /** The text that the loop runs over: what a non-negative length counts, or all of it. */
  ghost function Looked(t: Bytes): Bytes {
    if ToInt32(|t|) >= 0 then t[..Reach(t)] else t
  }

  lemma ReachIs(t: Bytes)
    ensures Reach(t) <= |Looked(t)| && Reach(t) < 0x8000_0000 && Looked(t) <= t
    ensures ToInt32(|t|) as int == if ToInt32(|t|) >= 0 then Reach(t) else Reach(t) - 0x8000_0000
    ensures ToInt32(|t|) >= 0 ==> |Looked(t)| == Reach(t)
    ensures ToInt32(|t|) < 0 && |Payload(Looked(t))| >= Reach(t) ==> DecodedText(t) == None
    ensures ToInt32(|t|) >= 0 || |Payload(Looked(t))| < Reach(t) ==> DecodedText(t) == Some(Decoded(Payload(Looked(t))))
  {
    hide Decoded, Payload;
  }

  method Base64Decode(t: Bytes) returns (result: Option<Bytes>)
    ensures result == DecodedText(t)
  {
    hide Decoded, Payload, Unpacked, Find, Reach, Looked, DecodedText, ToInt32, InAlphabet;
    ReachIs(t);
    var inLen := ToInt32(|t|);
    ghost var all, reach := Looked(t), Reach(t);
    var ret: Bytes := [];
    var i := 0;
    var at: Int32 := 0;
    var four := new Byte[4](_ => 0);
    assert all[0..] == all && four[..0] + Payload(all) == Payload(all) && ret + Decoded(Payload(all)) == Decoded(Payload(all));
    while true
      invariant 0 <= at as int <= reach && i < 4 && inLen as int == ToInt32(|t|) as int - at as int
      invariant |Payload(all)| == at as int + |Payload(all[at..])|
      invariant ret + Decoded(four[..i] + Payload(all[at..])) == Decoded(Payload(all))
      decreases reach - at as int
    {
      if inLen == 0 {
        break;
      }
      if inLen == -0x8000_0000 {
        return None;
      }
      inLen := inLen - 1;
      PayloadStep(all, at as nat);
      assert t[at] == all[at];
      if t[at] == PAD || !InAlphabet(t[at]) {
        PadNotInAlphabet();
        break;
      }
      four[i] := t[at];
      assert four[..i + 1] + Payload(all[at + 1..]) == four[..i] + Payload(all[at..]);
      i := i + 1;
      at := at + 1;
      if i == 4 {
        ret := PutFull(ret, four, Payload(all[at..]));
        i := 0;
      }
    }
    PayloadStep(all, at as nat);
    assert four[..i] + [] == four[..i];
    ret := PutRest(ret, four, i);
    result := Some(ret);
  }

  /** Four characters are there: append their bytes. */
  method PutFull(before: Bytes, four: array<Byte>, ghost rest: Bytes) returns (ret: Bytes)
    requires four.Length == 4
    ensures ret + Decoded(four[..0] + rest) == before + Decoded(four[..4] + rest)
  {
    hide Decoded, Unpacked;
    DecodedFull(four[..4], rest);
    Joined(before, Unpacked(four[..4])[..3], Decoded(rest));
    assert four[..0] + rest == rest;
    ret := PutBytes(before, four[..4], 3);
  }

  /** At the end: append the bytes of the characters over, the other slots being cleared. */
  method PutRest(before: Bytes, four: array<Byte>, i: nat) returns (ret: Bytes)
    requires four.Length == 4 && i < 4
    modifies four
    ensures ret == before + Decoded(old(four[..i]))
  {
    hide Decoded, Unpacked, Find;
    if i == 0 {
      NothingDecoded();
      assert four[..0] == [] && before + [] == before;
      return before;
    }
    ghost var over := four[..i];
    for j := i to 4
      invariant four[..i] == over
      invariant forall k :: i <= k < j ==> four[k] == 0
    {
      four[j] := 0;
    }
    DecodedOver(four[..4], i);
    assert four[..4][..i] == over;
    ret := PutBytes(before, four[..4], i - 1);
  }

  /** Look the four characters up, and append the first n bytes of what they stand for. */
  method PutBytes(before: Bytes, chars: Bytes, n: nat) returns (ret: Bytes)
    requires |chars| == 4 && n <= 3
    ensures ret == before + Unpacked(chars)[..n]
  {
    hide Find, Ungroup;
    var four := new Byte[4](_ => 0);
    for i := 0 to 4
      invariant forall k :: 0 <= k < i ==> four[k] == Find(chars[k], 0)
    {
      four[i] := Find(chars[i], 0);
    }
    var three := Ungroup(four[0], four[1], four[2], four[3]);
    assert three == Unpacked(chars);
    ret := before;
    for j := 0 to n
      invariant ret == before + three[..j]
    {
      assert three[..j + 1] == three[..j] + [three[j]];
      ret := ret + [three[j]];
    }
  }

  lemma PayloadStep(t: Bytes, at: nat)
    requires at <= |t|
    ensures Payload(t[at..]) == if at < |t| && InAlphabet(t[at]) then [t[at]] + Payload(t[at + 1..]) else []
  {
  }

  lemma DecodedFull(four: Bytes, rest: Bytes)
    requires |four| == 4
    ensures Decoded(four + rest) ==
      Unpacked(four)[..3] + Decoded(rest)
  {
    hide Find, Ungroup;
    assert (four + rest)[4..] == rest && (four + rest)[..4] == four;
  }

  /** The slots that were never filled are looked up too, but no byte that is kept depends on them. */
  lemma DecodedOver(four: Bytes, i: nat)
    requires |four| == 4 && 1 <= i < 4
    ensures Decoded(four[..i]) == Unpacked(four)[..i - 1]
  {
    hide Find;
  }

  lemma NothingDecoded()
    ensures Decoded([]) == []
  {
  }

  // ---------- the round trip ----------

  /** Four characters for every three bytes begun. */
  lemma {:induction false} EncodedLength(x: Bytes)
    ensures |Encoded(x)| == 4 * ((|x| + 2) / 3)
  {
    hide Group;
    if |x| >= 3 {
      EncodedLength(x[3..]);
      assert (|x| + 2) / 3 == 1 + (|x[3..]| + 2) / 3;
    }
  }

  function Padding(x: Bytes): nat {
    if |x| % 3 == 0 then 0 else 3 - |x| % 3
  }

  /** Characters of the alphabet, then at most two of padding. */
  lemma {:induction false} EncodedShape(x: Bytes)
    ensures Padding(x) <= 2 && Padding(x) <= |Encoded(x)|
    ensures forall j :: 0 <= j < |Encoded(x)| - Padding(x) ==> InAlphabet(Encoded(x)[j])
    ensures forall j :: |Encoded(x)| - Padding(x) <= j < |Encoded(x)| ==> Encoded(x)[j] == PAD
  {
    hide Group, InAlphabet;
    GroupInAlphabet(if |x| > 0 then x[0] else 0, if |x| > 1 then x[1] else 0, if |x| > 2 then x[2] else 0);
    if |x| >= 3 {
      EncodedShape(x[3..]);
    }
  }

  lemma GroupBack(a: Byte, b: Byte, c: Byte)
    ensures var g := Group(a, b, c);
      Unpacked(g) == [a, b, c]
  {
    FindsFrom(0, First(a));
    FindsFrom(0, Second(a, b));
    FindsFrom(0, Third(b, c));
    FindsFrom(0, Fourth(c));
    SextetsBack(a, b, c);
    hide Find, First, Second, Third, Fourth;
  }

  lemma SextetsBack(a: Byte, b: Byte, c: Byte)
    ensures Ungroup(First(a), Second(a, b), Third(b, c), Fourth(c)) == [a, b, c]
  {
    assert Second(a, b) / 16 == a % 4 && Second(a, b) % 16 == b / 16;
    assert Third(b, c) / 4 == b % 16 && Third(b, c) % 4 == c / 64;
    assert First(a) * 4 + a % 4 == a && b / 16 * 16 + b % 16 == b && c / 64 * 64 + c % 64 == c;
    assert b % 16 % 16 == b % 16 && a % 4 % 4 == a % 4;
    hide First, Second, Third, Fourth;
  }

  lemma {:induction false} PayloadOfChars(cs: Bytes, rest: Bytes)
    requires forall i :: 0 <= i < |cs| ==> InAlphabet(cs[i])
    ensures Payload(cs + rest) == cs + Payload(rest)
  {
    hide InAlphabet;
    if cs == [] {
      assert cs + rest == rest && cs + Payload(rest) == Payload(rest);
    } else {
      PayloadOfChars(cs[1..], rest);
      assert (cs + rest)[1..] == cs[1..] + rest;
    }
  }

  /** Decoding what was encoded gives it back. */
  lemma {:induction false} DecodedEncoded(x: Bytes)
    ensures Decoded(Payload(Encoded(x))) == x
  {
    hide Group, Unpacked, InAlphabet, Decoded, Payload;
    var a, b, c := if |x| > 0 then x[0] else 0, if |x| > 1 then x[1] else 0, if |x| > 2 then x[2] else 0;
    var g := Group(a, b, c);
    GroupBack(a, b, c);
    GroupInAlphabet(a, b, c);
    if |x| == 0 {
      PayloadStops([]);
      NothingDecoded();
    } else if |x| < 3 {
      var n := |x| + 1;
      var pads := if n == 2 then [PAD, PAD] else [PAD];
      assert Encoded(x) == g[..n] + pads;
      PayloadOfChars(g[..n], pads);
      assert !InAlphabet(PAD) by { PadNotInAlphabet(); }
      PayloadStops(pads);
      assert g[..n] + [] == g[..n];
      DecodedOver(g, n);
      assert [a, b, c][..|x|] == x;
    } else {
      DecodedEncoded(x[3..]);
      PayloadOfChars(g, Encoded(x[3..]));
      DecodedFull(g, Payload(Encoded(x[3..])));
      assert x == [a, b, c][..3] + x[3..];
    }
  }

  lemma GroupInAlphabet(a: Byte, b: Byte, c: Byte)
    ensures forall i :: 0 <= i < 4 ==> InAlphabet(Group(a, b, c)[i])
  {
    hide First, Second, Third, Fourth, InAlphabet;
  }

  lemma PadNotInAlphabet()
    ensures !InAlphabet(PAD)
  {
  }

  lemma PayloadStops(t: Bytes)
    requires t != [] ==> !InAlphabet(t[0])
    ensures Payload(t) == []
  {
  }

  lemma {:induction false} DecodedLength(t: Bytes)
    ensures 4 * |Decoded(t)| <= 3 * |t|
  {
    if |t| > 3 {
      DecodedLength(t[4..]);
    }
  }

  lemma {:induction false} PayloadLength(t: Bytes)
    ensures |Payload(t)| <= |t|
  {
    if t != [] {
      PayloadLength(t[1..]);
    }
  }

  lemma DecodedShort(t: Bytes)
    requires |t| < 0x8000_0000
    ensures DecodedText(t) == Some(Decoded(Payload(t)))
  {
    Low32Small(|t|);
    hide Decoded, Payload, Low32;
    assert t[..|t|] == t;
  }

  lemma Low32Small(n: nat)
    requires n < 0x1_0000_0000
    ensures Low32(n) == n
  {
  }

  lemma DecodedLong(t: Bytes)
    requires 0x8000_0000 <= |t| < 0x1_0000_0000 && |Payload(t)| >= |t| - 2
    ensures DecodedText(t) == None
  {
    Low32Small(|t|);
    hide Decoded, Payload, Low32;
  }

  lemma DecodedPart(t: Bytes)
    requires 0x1_0000_0000 <= |t| < 0x1_8000_0000
    ensures DecodedText(t).Some? && 4 * |DecodedText(t).value| <= 3 * (|t| - 0x1_0000_0000)
  {
    assert Low32(|t|) == |t| - 0x1_0000_0000;
    hide Decoded, Payload, Low32;
    var part := t[..|t| - 0x1_0000_0000];
    PayloadLength(part);
    DecodedLength(Payload(part));
  }

  /** Round trip: Base64Decode(Base64Encode(x)) is x exactly when the text's length fits in an int. */
  lemma RoundTripIff(x: Bytes)
    requires |x| < 0x1_0000_0000
    ensures DecodedText(Encoded(x)) == Some(x) <==> |x| <= 3 * 0x1fff_ffff
  {
    hide Encoded, Decoded, Payload, DecodedText;
    var t := Encoded(x);
    EncodedLength(x);
    if |t| < 0x8000_0000 {
      DecodedShort(t);
      DecodedEncoded(x);
    } else if |t| < 0x1_0000_0000 {
      PayloadOfEncoded(x);
      DecodedLong(t);
    } else {
      DecodedPart(t);
    }
  }

  lemma PayloadOfEncoded(x: Bytes)
    ensures |Payload(Encoded(x))| >= |Encoded(x)| - 2
  {
    hide Encoded, Payload, InAlphabet;
    EncodedShape(x);
    var n := |Encoded(x)| - Padding(x);
    PayloadOfChars(Encoded(x)[..n], Encoded(x)[n..]);
    assert Encoded(x)[..n] + Encoded(x)[n..] == Encoded(x);
  }

  // ---------- what section 4 of RFC 4648 says of the encoding ----------

  /** The bytes as the digits of one number to base 256. */
  function Value256(x: Bytes): nat {
    if x == [] then 0 else Value256(x[..|x| - 1]) * 256 + x[|x| - 1]
  }

  /** The characters as the digits of one number to base 64. */
  function Value64(t: Bytes): nat {
    if t == [] then 0 else Value64(t[..|t| - 1]) * 64 + Find(t[|t| - 1], 0)
  }

  lemma Digit256(x: Bytes, a: Byte)
    ensures Value256(x + [a]) == Value256(x) * 256 + a
  {
    assert (x + [a])[..|x|] == x;
  }

  lemma Value256More(x: Bytes, a: Byte, b: Byte, c: Byte)
    ensures Value256(x + [a, b, c]) == Value256(x) * 0x100_0000 + (a as int * 256 + b) * 256 + c
  {
    hide Value256;
    Digit256(x, a);
    Digit256(x + [a], b);
    Digit256(x + [a] + [b], c);
    assert x + [a, b, c] == x + [a] + [b] + [c];
  }

  lemma Digit64(t: Bytes, i: nat)
    requires i < 64
    ensures Value64(t + [CharOf(i)]) == Value64(t) * 64 + i
  {
    FindsFrom(0, i);
    hide CharOf;
    assert (t + [CharOf(i)])[..|t|] == t;
  }

  lemma Value64More(t: Bytes, a: Byte, b: Byte, c: Byte)
    ensures Value64(t + Group(a, b, c)) == Value64(t) * 0x100_0000 + (a as int * 256 + b) * 256 + c
  {
    GroupIsNumber(a, b, c);
    hide Value64, CharOf, First, Second, Third, Fourth;
    var w, x, y, z := First(a), Second(a, b), Third(b, c), Fourth(c);
    Digit64(t, w);
    Digit64(t + [CharOf(w)], x);
    Digit64(t + [CharOf(w)] + [CharOf(x)], y);
    Digit64(t + [CharOf(w)] + [CharOf(x)] + [CharOf(y)], z);
    assert t + Group(a, b, c) == t + [CharOf(w)] + [CharOf(x)] + [CharOf(y)] + [CharOf(z)];
  }

  lemma {:induction false} EncodedJoins(x: Bytes, a: Byte, b: Byte, c: Byte)
    requires |x| % 3 == 0
    ensures Encoded(x + [a, b, c]) == Encoded(x) + Group(a, b, c)
  {
    hide Group;
    var y := x + [a, b, c];
    if x == [] {
      assert y[3..] == [] && y == [a, b, c];
    } else {
      assert y[3..] == x[3..] + [a, b, c];
      EncodedJoins(x[3..], a, b, c);
    }
  }

  lemma {:induction false} WholeIsNumber(x: Bytes)
    requires |x| % 3 == 0
    ensures Value64(Encoded(x)) == Value256(x)
  {
    if x != [] {
      var n := |x| - 3;
      assert x == x[..n] + [x[n], x[n + 1], x[n + 2]];
      hide Encoded, Group, Value64, Value256;
      WholeIsNumber(x[..n]);
      EncodedJoins(x[..n], x[n], x[n + 1], x[n + 2]);
      Value64More(Encoded(x[..n]), x[n], x[n + 1], x[n + 2]);
      Value256More(x[..n], x[n], x[n + 1], x[n + 2]);
    }
  }

  function Filled(x: Bytes): Bytes {
    x + seq(Padding(x), _ => 0)
  }

  /** With as many characters at the end replaced by padding. */
  function PaddedEnd(t: Bytes, p: nat): Bytes
    requires p <= |t|
  {
    t[..|t| - p] + seq(p, _ => PAD)
  }

  lemma {:induction false} FilledUp(x: Bytes)
    ensures |Encoded(Filled(x))| == |Encoded(x)| >= Padding(x) && Encoded(x) == PaddedEnd(Encoded(Filled(x)), Padding(x))
  {
    hide Group;
    if |x| == 0 {
      assert Filled(x) == [];
    } else if |x| < 3 {
      FilledUpShort(x);
    } else {
      EncodedSplits(x);
      EncodedSplits(Filled(x));
      assert Filled(x)[3..] == Filled(x[3..]) && Padding(x) == Padding(x[3..]);
      hide Encoded, Filled, PaddedEnd, Padding;
      FilledUp(x[3..]);
      PaddedFurther(Group(x[0], x[1], x[2]), Encoded(Filled(x[3..])), Padding(x));
    }
  }

  lemma EncodedSplits(x: Bytes)
    requires |x| >= 3
    ensures Encoded(x) == Group(x[0], x[1], x[2]) + Encoded(x[3..])
  {
    hide Group;
  }

  lemma PaddedFurther(g: Bytes, t: Bytes, p: nat)
    requires p <= |t|
    ensures PaddedEnd(g + t, p) == g + PaddedEnd(t, p)
  {
  }

  lemma FilledUpShort(x: Bytes)
    requires 1 <= |x| <= 2
    ensures |Encoded(Filled(x))| == |Encoded(x)| >= Padding(x) && Encoded(x) == PaddedEnd(Encoded(Filled(x)), Padding(x))
  {
    hide Group;
    var y := Filled(x);
    assert y == [x[0], if |x| == 1 then 0 else x[1], 0] && y[3..] == [];
    assert Encoded(y) == Group(y[0], y[1], y[2]) + [] == Group(y[0], y[1], y[2]);
    assert seq(2, _ => PAD) == [PAD, PAD] && seq(1, _ => PAD) == [PAD];
  }

  /** The input filled up with zero bytes to a multiple of three, written to base 64, with one character at the end replaced
      by padding for every byte filled in. */
  lemma EncodedIsNumeral(x: Bytes)
    ensures Value64(Encoded(Filled(x))) == Value256(Filled(x))
    ensures |Encoded(Filled(x))| == |Encoded(x)| >= Padding(x) && Encoded(x) == PaddedEnd(Encoded(Filled(x)), Padding(x))
  {
    WholeIsNumber(Filled(x));
    FilledUp(x);
  }
}
