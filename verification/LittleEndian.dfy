/** Integers as bytes, lowest byte first, as both implementations put them in files. */
module LittleEndian {
  import opened ByteStrings

  function Range(width: nat): (r: nat)
    ensures r > 0
  {
    if width == 0 then 1 else 0x100 * Range(width - 1)
  }

  function Encode(n: nat, width: nat): (b: Bytes)
    ensures |b| == width
  {
    if width == 0 then [] else [n % 0x100] + Encode(n / 0x100, width - 1)
  }

  function Decode(b: Bytes): nat {
    if b == [] then 0 else b[0] + 0x100 * Decode(b[1..])
  }

  /** What does not fit in the bytes is cut off. */
  lemma {:induction false} DecodeEncode(n: nat, width: nat)
    ensures Decode(Encode(n, width)) < Range(width)
    ensures n < Range(width) ==> Decode(Encode(n, width)) == n
  {
    if width > 0 {
      var rest := Encode(n / 0x100, width - 1);
      DecodeEncode(n / 0x100, width - 1);
      assert Encode(n, width) == [n % 0x100] + rest;
      assert Encode(n, width)[1..] == rest;
    }
  }

  /** Byte i is digit i to base 256, from the lowest. */
  lemma {:induction false} EncodedByte(n: nat, width: nat, i: nat)
    requires i < width
    ensures Encode(n, width)[i] == n / Range(i) % 0x100
    decreases i
  {
    if i > 0 {
      EncodedByte(n / 0x100, width - 1, i - 1);
      DividedTwice(n, Range(i - 1));
    }
  }

  lemma DividedTwice(n: nat, r: nat)
    requires r > 0
    ensures n / 0x100 / r == n / (0x100 * r)
  {
    var q, m := n / 0x100 / r, n / 0x100 % r;
    assert n / 0x100 == r * q + m;
    var rest := 0x100 * m + n % 0x100;
    assert n == 0x100 * r * q + rest;
    var d := n / (0x100 * r) - q;
    assert 0x100 * r * (n / (0x100 * r)) + n % (0x100 * r) == n;
    assert 0x100 * r * (n / (0x100 * r)) == 0x100 * r * d + 0x100 * r * q;
    assert (d >= 1 ==> 0x100 * r * d >= 0x100 * r) && (d <= -1 ==> 0x100 * r * d + 0x100 * r <= 0);
  }

  lemma Widths()
    ensures Range(2) == 0x1_0000 && Range(4) == 0x1_0000_0000
  {
    assert Range(2) == 0x100 * Range(1) == 0x1_0000 * Range(0);
    assert Range(4) == 0x100 * Range(3) == 0x1_0000 * Range(2);
  }
}
