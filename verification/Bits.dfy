/** 32-bit words as integers, and their bits. */
module Bits {

  const MODULUS := 0x1_0000_0000

  type Word = x: int | 0 <= x < MODULUS

  function Pow2(n: nat): (p: nat)
    ensures p > 0
  {
    if n == 0 then 1 else 2 * Pow2(n - 1)
  }

  /** Exclusive-or of the lowest n bits, from the lowest up. */
  function XorBits(x: nat, y: nat, n: nat): (r: nat)
    ensures r < Pow2(n)
  {
    if n == 0 then 0 else 2 * XorBits(x / 2, y / 2, n - 1) + (x % 2 + y % 2) % 2
  }

  function Xor(x: Word, y: Word): Word {
    assert Pow2(32) == MODULUS by { Powers(); }
    XorBits(x, y, 32)
  }

  /** Inclusive-or of the lowest n bits, from the lowest up. */
  function OrBits(x: nat, y: nat, n: nat): (r: nat)
    ensures r < Pow2(n)
  {
    if n == 0 then 0 else 2 * OrBits(x / 2, y / 2, n - 1) + (x % 2 + y % 2 + 1) / 2
  }

  function Or(x: Word, y: Word): Word {
    assert Pow2(32) == MODULUS by { Powers(); }
    OrBits(x, y, 32)
  }

  lemma Powers()
    ensures Pow2(4) == 16 && Pow2(8) == 256 && Pow2(16) == 0x1_0000 && Pow2(32) == MODULUS
  {
    PowSum(4, 4);
    PowSum(8, 8);
    PowSum(16, 16);
    assert Pow2(4) == 2 * Pow2(3) == 4 * Pow2(2) == 8 * Pow2(1) == 16 * Pow2(0);
  }

  lemma {:induction false} PowSum(m: nat, n: nat)
    ensures Pow2(m + n) == Pow2(m) * Pow2(n)
  {
    if m > 0 {
      PowSum(m - 1, n);
    }
  }

  function ShiftLeft(x: Word, n: nat): Word
    decreases n
  {
    if n == 0 then x else ShiftLeft(2 * x % MODULUS, n - 1)
  }

  function ShiftRight(x: Word, n: nat): Word
    decreases n
  {
    if n == 0 then x else ShiftRight(x / 2, n - 1)
  }

  lemma {:induction false} XorBitsTwice(x: nat, y: nat, n: nat)
    requires x < Pow2(n)
    ensures XorBits(XorBits(x, y, n), y, n) == x
  {
    if n > 0 {
      var q := XorBits(x / 2, y / 2, n - 1);
      XorBitsTwice(x / 2, y / 2, n - 1);
      XorParity(q, x, y);
      assert XorBits(x, y, n) == 2 * q + (x % 2 + y % 2) % 2;
    }
  }

  lemma XorParity(q: nat, x: nat, y: nat)
    ensures var r := 2 * q + (x % 2 + y % 2) % 2;
      r / 2 == q && 2 * (x / 2) + (r % 2 + y % 2) % 2 == x
  {
  }

  // ---------- single bits ----------

  function Bit(x: nat, i: nat): (b: nat)
    ensures b <= 1
    decreases i
  {
    if i == 0 then x % 2 else Bit(x / 2, i - 1)
  }

  lemma {:induction false} BitOfOr(x: nat, y: nat, n: nat, i: nat)
    requires i < n
    ensures Bit(OrBits(x, y, n), i) == if Bit(x, i) == 1 || Bit(y, i) == 1 then 1 else 0
    decreases n
  {
    var q := OrBits(x / 2, y / 2, n - 1);
    assert OrBits(x, y, n) / 2 == q && OrBits(x, y, n) % 2 == (x % 2 + y % 2 + 1) / 2;
    if i > 0 {
      BitOfOr(x / 2, y / 2, n - 1, i - 1);
    }
  }

  lemma {:induction false} BitOfShift(x: Word, m: nat, i: nat)
    ensures Bit(ShiftRight(x, m), i) == Bit(x, i + m)
    decreases m
  {
    if m > 0 {
      BitOfShift(x / 2, m - 1, i);
    }
  }

  /** Bit by bit, exclusive-or is the sum without carries. */
  lemma {:induction false} BitOfXor(x: nat, y: nat, n: nat, i: nat)
    requires i < n
    ensures Bit(XorBits(x, y, n), i) == (Bit(x, i) + Bit(y, i)) % 2
    decreases n
  {
    var q := XorBits(x / 2, y / 2, n - 1);
    assert XorBits(x, y, n) / 2 == q && XorBits(x, y, n) % 2 == (x % 2 + y % 2) % 2;
    if i > 0 {
      BitOfXor(x / 2, y / 2, n - 1, i - 1);
    }
  }

  function Num(b: bool): nat {
    if b then 1 else 0
  }

  lemma XorOneMore(x: nat, c: bool, y: nat, d: bool, n: nat)
    ensures XorBits(2 * x + Num(c), 2 * y + Num(d), n + 1) == 2 * XorBits(x, y, n) + Num(c != d)
  {
    assert (2 * x + Num(c)) / 2 == x && (2 * x + Num(c)) % 2 == Num(c) && (2 * y + Num(d)) / 2 == y && (2 * y + Num(d)) % 2 == Num(d);
  }

  /** A hexadecimal digit, highest bit first. */
  datatype Digit = Digit(d: bool, c: bool, b: bool, a: bool) {
    function Value(): nat {
      8 * Num(d) + 4 * Num(c) + 2 * Num(b) + Num(a)
    }
  }

  function XorDigit(x: Digit, y: Digit): Digit {
    Digit(x.d != y.d, x.c != y.c, x.b != y.b, x.a != y.a)
  }

  lemma XorFourMore(x: nat, c3: bool, c2: bool, c1: bool, c0: bool, y: nat, d3: bool, d2: bool, d1: bool, d0: bool, n: nat)
    ensures XorBits(16 * x + (8 * Num(c3) + 4 * Num(c2) + 2 * Num(c1) + Num(c0)), 16 * y + (8 * Num(d3) + 4 * Num(d2) + 2 * Num(d1) + Num(d0)), n + 4)
         == 16 * XorBits(x, y, n) + (8 * Num(c3 != d3) + 4 * Num(c2 != d2) + 2 * Num(c1 != d1) + Num(c0 != d0))
  {
    hide XorBits, Num;
    var x1, y1 := 2 * x + Num(c3), 2 * y + Num(d3);
    var x2, y2 := 2 * x1 + Num(c2), 2 * y1 + Num(d2);
    var x3, y3 := 2 * x2 + Num(c1), 2 * y2 + Num(d1);
    XorOneMore(x, c3, y, d3, n);
    XorOneMore(x1, c2, y1, d2, n + 1);
    XorOneMore(x2, c1, y2, d1, n + 2);
    XorOneMore(x3, c0, y3, d0, n + 3);
  }

  lemma XorDigitMore(x: nat, h: Digit, y: nat, g: Digit, n: nat)
    ensures XorBits(16 * x + h.Value(), 16 * y + g.Value(), n + 4) == 16 * XorBits(x, y, n) + XorDigit(h, g).Value()
  {
    var v, w := h.Value(), g.Value();
    assert v == 8 * Num(h.d) + 4 * Num(h.c) + 2 * Num(h.b) + Num(h.a) && w == 8 * Num(g.d) + 4 * Num(g.c) + 2 * Num(g.b) + Num(g.a);
    hide XorBits, Num, Pow2, Digit.Value;
    XorFourMore(x, h.d, h.c, h.b, h.a, y, g.d, g.c, g.b, g.a, n);
  }

  /** Four hexadecimal digits. */
  datatype Hex = Hex(d: Digit, c: Digit, b: Digit, a: Digit) {
    function Value(): nat {
      0x1000 * d.Value() + 0x100 * c.Value() + 0x10 * b.Value() + a.Value()
    }
  }

  function XorHex(x: Hex, y: Hex): Hex {
    Hex(XorDigit(x.d, y.d), XorDigit(x.c, y.c), XorDigit(x.b, y.b), XorDigit(x.a, y.a))
  }

  lemma XorHexMore(x: nat, h: Hex, y: nat, g: Hex, n: nat)
    ensures XorBits(0x1_0000 * x + h.Value(), 0x1_0000 * y + g.Value(), n + 16) == 0x1_0000 * XorBits(x, y, n) + XorHex(h, g).Value()
  {
    hide XorBits, XorDigit, Digit.Value;
    var x1, y1 := 16 * x + h.d.Value(), 16 * y + g.d.Value();
    var x2, y2 := 16 * x1 + h.c.Value(), 16 * y1 + g.c.Value();
    var x3, y3 := 16 * x2 + h.b.Value(), 16 * y2 + g.b.Value();
    XorDigitMore(x, h.d, y, g.d, n);
    XorDigitMore(x1, h.c, y1, g.c, n + 4);
    XorDigitMore(x2, h.b, y2, g.b, n + 8);
    XorDigitMore(x3, h.a, y3, g.a, n + 12);
  }

  function Joined(high: Hex, low: Hex): nat {
    0x1_0000 * high.Value() + low.Value()
  }

  /** Exclusive-or goes digit by digit. */
  lemma XorIsXorHex(h: Hex, l: Hex, h': Hex, l': Hex)
    ensures Joined(h, l) < MODULUS && Joined(h', l') < MODULUS
    ensures Xor(Joined(h, l), Joined(h', l')) == Joined(XorHex(h, h'), XorHex(l, l'))
  {
    hide *;
    JoinedSmall(h, l);
    JoinedSmall(h', l');
    XorIsBits(Joined(h, l), Joined(h', l'));
    XorOfJoined(h, l, h', l');
  }

  lemma Small(h: Hex)
    ensures h.Value() < 0x1_0000
  {
  }

  lemma JoinedSmall(h: Hex, l: Hex)
    ensures Joined(h, l) < MODULUS
  {
    Small(h);
    Small(l);
    hide Hex.Value;
  }

  lemma XorOfJoined(h: Hex, l: Hex, h': Hex, l': Hex)
    ensures XorBits(Joined(h, l), Joined(h', l'), 32) == Joined(XorHex(h, h'), XorHex(l, l'))
  {
    hide XorBits, XorHex, Hex.Value;
    XorOfTop(h, h');
    XorHexMore(h.Value(), l, h'.Value(), l', 16);
  }

  lemma XorOfTop(h: Hex, h': Hex)
    ensures XorBits(h.Value(), h'.Value(), 16) == XorHex(h, h').Value()
  {
    XorHexMore(0, h, 0, h', 0);
    XorOfNothing();
    hide XorBits, XorHex, Hex.Value;
    assert 0x1_0000 * 0 + h.Value() == h.Value();
  }

  lemma XorOfNothing()
    ensures XorBits(0, 0, 0) == 0
  {
  }

  lemma XorIsBits(x: Word, y: Word)
    ensures Xor(x, y) == XorBits(x, y, 32)
  {
  }

  // ---------- shifts and rotations as arithmetic ----------

  lemma {:induction false} ShiftRightIs(x: Word, n: nat)
    ensures ShiftRight(x, n) == x / Pow2(n)
    decreases n
  {
    if n > 0 {
      ShiftRightIs(x / 2, n - 1);
      DivTwice(x, Pow2(n - 1));
    }
  }

  lemma DivTwice(x: nat, m: nat)
    requires m > 0
    ensures x / 2 / m == x / (2 * m)
  {
    var q, r := x / 2 / m, x / 2 % m;
    assert x / 2 == m * q + r;
    assert x == 2 * m * q + (2 * r + x % 2);
    QuotientIs(x, 2 * m, q, 2 * r + x % 2);
  }

  lemma QuotientIs(a: int, b: int, q: int, r: int)
    requires b > 0 && 0 <= r < b && a == b * q + r
    ensures a / b == q && a % b == r
  {
    var d := a / b - q;
    assert a == b * (a / b) + a % b;
    assert b * (a / b) == b * d + b * q;
    assert b * d == r - a % b;
    assert (d >= 1 ==> b * d >= b) && (d <= -1 ==> b * d <= -b);
  }

  lemma {:induction false} ShiftLeftIs(x: Word, n: nat)
    ensures ShiftLeft(x, n) == x * Pow2(n) % MODULUS
    decreases n
  {
    if n > 0 {
      ShiftLeftIs(2 * x % MODULUS, n - 1);
      WrapsOnce(x, Pow2(n - 1));
    }
  }

  lemma WrapsOnce(x: nat, p: nat)
    ensures 2 * x % MODULUS * p % MODULUS == x * (2 * p) % MODULUS
  {
    var k, r := 2 * x / MODULUS, 2 * x % MODULUS;
    assert 2 * x == MODULUS * k + r;
    Expand(x, p, k, r);
    var q := r * p / MODULUS;
    assert r * p == MODULUS * q + r * p % MODULUS;
    QuotientIs(x * (2 * p), MODULUS, k * p + q, r * p % MODULUS);
  }

  lemma Expand(x: nat, p: nat, k: nat, r: nat)
    requires 2 * x == MODULUS * k + r
    ensures x * (2 * p) == MODULUS * (k * p) + r * p
  {
    assert x * (2 * p) == (2 * x) * p == (MODULUS * k + r) * p;
  }

  lemma {:induction false} OrZero(x: nat, n: nat)
    requires x < Pow2(n)
    ensures OrBits(x, 0, n) == x
  {
    if n > 0 {
      OrZero(x / 2, n - 1);
    }
  }

  lemma OrOneMore(x: nat, y: nat, n: nat)
    ensures OrBits(2 * x, y, n + 1) == 2 * OrBits(x, y / 2, n) + y % 2
  {
    assert 2 * x / 2 == x && 2 * x % 2 == 0;
  }

  /** When one number has its ones where the other has none, or-ing is adding. */
  lemma {:induction false} OrIsSum(h: nat, y: nat, n: nat, k: nat)
    requires y < Pow2(k) && k <= n && h < Pow2(n - k)
    ensures OrBits(h * Pow2(k), y, n) == h * Pow2(k) + y
    decreases k
  {
    if k == 0 {
      OrZero(h, n);
    } else {
      var half := h * Pow2(k - 1);
      TwiceTimes(h, Pow2(k - 1));
      hide OrBits;
      OrIsSum(h, y / 2, n - 1, k - 1);
      OrOneMore(half, y, n - 1);
    }
  }

  lemma TwiceTimes(h: nat, p: nat)
    ensures h * (2 * p) == 2 * (h * p)
  {
  }

  /** Rotating left by k bits: everything moves up k places, and what leaves at the top comes back at the bottom. */
  lemma RotatedIs(x: Word, k: nat)
    requires k <= 32
    ensures Or(ShiftLeft(x, k), ShiftRight(x, 32 - k)) == x * Pow2(k) % MODULUS + x / Pow2(32 - k)
  {
    ShiftLeftIs(x, k);
    ShiftRightIs(x, 32 - k);
    PowSum(k, 32 - k);
    Powers();
    hide Pow2, OrBits, ShiftLeft, ShiftRight;
    HighAndLow(x, Pow2(k), Pow2(32 - k));
    OrIsSum(x % Pow2(32 - k), x / Pow2(32 - k), 32, k);
  }

  lemma HighAndLow(x: Word, p: nat, q: nat)
    requires p > 0 && q > 0 && p * q == MODULUS
    ensures x / q < p && x % q < q && x * p % MODULUS == x % q * p
  {
    var high, low := x / q, x % q;
    assert x == q * high + low;
    assert x * p == MODULUS * high + low * p by { Times(q, high, low, p); }
    Below(low, q, p);
    QuotientIs(x * p, MODULUS, high, low * p);
    if high >= p {
      AtMostTimes(p, high, q);
    }
  }

  lemma Times(q: nat, high: nat, low: nat, p: nat)
    ensures (q * high + low) * p == p * q * high + low * p
  {
  }

  lemma AtMostTimes(a: nat, b: nat, q: nat)
    requires a <= b
    ensures a * q <= q * b
  {
  }

  lemma Below(a: nat, b: nat, p: nat)
    requires a < b && p > 0
    ensures a * p < b * p
  {
  }

  lemma {:induction false} OrBelow(x: nat, y: nat, n: nat, m: nat)
    requires x < Pow2(m) && y < Pow2(m)
    ensures OrBits(x, y, n) < Pow2(m)
    decreases n
  {
    if n > 0 {
      if m > 0 {
        OrBelow(x / 2, y / 2, n - 1, m - 1);
      } else {
        OrBelow(0, 0, n - 1, 0);
      }
    }
  }

  lemma {:induction false} ShiftBelow(x: Word, n: nat)
    ensures ShiftRight(x, n) <= x
    decreases n
  {
    if n > 0 {
      ShiftBelow(x / 2, n - 1);
    }
  }

  lemma {:induction false} TopBit(x: nat, k: nat)
    requires Pow2(k) <= x < Pow2(k + 1)
    ensures Bit(x, k) == 1
    decreases k
  {
    if k > 0 {
      TopBit(x / 2, k - 1);
    }
  }

  lemma {:induction false} AllOnes(x: nat, n: nat)
    requires x < Pow2(n) && forall i :: 0 <= i < n ==> Bit(x, i) == 1
    ensures x == Pow2(n) - 1
    decreases n
  {
    if n > 0 {
      assert Bit(x, 0) == 1;
      forall i | 0 <= i < n - 1 ensures Bit(x / 2, i) == 1 {
        assert Bit(x, i + 1) == 1;
      }
      AllOnes(x / 2, n - 1);
    }
  }

  /** The position of the highest bit. */
  lemma {:induction false} HighestBit(x: nat, n: nat) returns (k: nat)
    requires 0 < x < Pow2(n)
    ensures k < n && Pow2(k) <= x < Pow2(k + 1)
    decreases n
  {
    if x == 1 {
      k := 0;
    } else {
      k := HighestBit(x / 2, n - 1);
      k := k + 1;
    }
  }

  // ---------- rounding up to a power of two ----------

  /** Of the bits from k down, the top m are ones, and there is nothing above. */
  ghost predicate TopOnes(x: Word, k: nat, m: nat) {
    x < Pow2(k + 1) && forall i :: 0 <= i <= k < i + m ==> Bit(x, i) == 1
  }

  /** Or-ing in the same bits m places down doubles the run of ones. */
  lemma Smear(x: Word, k: nat, m: nat)
    requires TopOnes(x, k, m) && k < 32
    ensures TopOnes(Or(x, ShiftRight(x, m)), k, 2 * m)
  {
    ShiftBelow(x, m);
    OrBelow(x, ShiftRight(x, m), 32, k + 1);
    hide OrBits, ShiftRight, Pow2, Bit;
    forall i | 0 <= i <= k < i + 2 * m ensures Bit(Or(x, ShiftRight(x, m)), i) == 1 {
      BitOfOr(x, ShiftRight(x, m), 32, i);
      BitOfShift(x, m, i);
    }
  }

  lemma {:induction false} OrOfZero(n: nat)
    ensures OrBits(0, 0, n) == 0
  {
    if n > 0 {
      OrOfZero(n - 1);
    }
  }

  lemma {:induction false} PowGrows(m: nat, n: nat)
    requires m < n
    ensures Pow2(m) < Pow2(n)
  {
    if m + 1 < n {
      PowGrows(m, n - 1);
    }
  }
}
