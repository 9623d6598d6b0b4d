/** The hashes of one string, as the repository's own test expects them: worked out line by line, with rotations as
    multiplications and divisions, and exclusive-or digit by digit. */
module Lookup3Tests {
  import opened Bits
  import opened ByteStrings
  import opened Lookup3

  /** "This is a test string". */
  const TEXT: Bytes := [
    84, 104, 105, 115, 32, 105, 115, 32, 97, 32, 116, 101,
    115, 116, 32, 115, 116, 114, 105, 110, 103]

  const D0 := Digit(false, false, false, false)
  const D1 := Digit(false, false, false, true)
  const D2 := Digit(false, false, true, false)
  const D3 := Digit(false, false, true, true)
  const D4 := Digit(false, true, false, false)
  const D5 := Digit(false, true, false, true)
  const D6 := Digit(false, true, true, false)
  const D7 := Digit(false, true, true, true)
  const D8 := Digit(true, false, false, false)
  const D9 := Digit(true, false, false, true)
  const DA := Digit(true, false, true, false)
  const DB := Digit(true, false, true, true)
  const DC := Digit(true, true, false, false)
  const DD := Digit(true, true, false, true)
  const DE := Digit(true, true, true, false)
  const DF := Digit(true, true, true, true)

  /** r is x rotated left by k bits: p and q are 2^k and 2^(32-k), and x is high and low bits, that change places in r. */
  ghost predicate RotatesTo(x: Word, k: nat, p: nat, q: nat, high: nat, low: nat, r: int) {
    k <= 32 && p == Pow2(k) && q == Pow2(32 - k) && low < q && x == q * high + low && r == p * low + high
  }

  lemma RotGives(x: Word, k: nat, p: nat, q: nat, high: nat, low: nat, r: int)
    requires RotatesTo(x, k, p, q, high, low, r)
    ensures k <= 32 && Rot(x, k) == r
  {
    hide Rot;
    RotIs(x, k);
    PowSum(k, 32 - k);
    Powers();
    hide Pow2;
    HighAndLow(x, p, q);
    QuotientIs(x, q, high, low);
  }

  /** The sum or difference, which has wrapped around or not. */
  predicate WrapsTo(x: int, y: Word) {
    y == x || y == x - MODULUS || y == x + MODULUS
  }

  lemma WrapGives(x: int, y: Word)
    requires WrapsTo(x, y) && 0 <= x + MODULUS
    ensures (x + MODULUS) % MODULUS == y && (x >= 0 ==> x % MODULUS == y)
  {
  }

  /** x and y have these digits, and z has those of their exclusive-or. */
  ghost predicate XorsTo(x: Word, y: Word, z: Word, h: Hex, l: Hex, h': Hex, l': Hex, h'': Hex, l'': Hex) {
    && h'' == XorHex(h, h') && l'' == XorHex(l, l')
    && x == Joined(h, l) && y == Joined(h', l') && z == Joined(h'', l'')
  }

  lemma XorGives(x: Word, y: Word, z: Word, h: Hex, l: Hex, h': Hex, l': Hex, h'': Hex, l'': Hex)
    requires XorsTo(x, y, z, h, l, h', l', h'', l'')
    ensures Xor(x, y) == z
  {
    hide Xor, XorHex, Joined;
    XorIsXorHex(h, l, h', l');
  }

  lemma DigitValues()
    ensures D0.Value() == 0 && D1.Value() == 1 && D2.Value() == 2 && D3.Value() == 3 && D4.Value() == 4 && D5.Value() == 5
    ensures D6.Value() == 6 && D7.Value() == 7 && D8.Value() == 8 && D9.Value() == 9 && DA.Value() == 10 && DB.Value() == 11
    ensures DC.Value() == 12 && DD.Value() == 13 && DE.Value() == 14 && DF.Value() == 15
  {
  }

  /** One line of mix: the difference d, the rotation r, their exclusive-or x, and the sum y. */
  lemma MixLineIs(s: Regs, k: nat, p: nat, q: nat, high: nat, low: nat, d: Word, r: Word, h: Hex, l: Hex, h': Hex, l': Hex, h'': Hex, l'': Hex,
                  x: Word, y: Word)
    requires WrapsTo(s.a - s.c, d) && RotatesTo(s.c, k, p, q, high, low, r) && XorsTo(d, r, x, h, l, h', l', h'', l'') && WrapsTo(s.c + s.b, y)
    ensures k <= 32 && MixLine(s, k) == Regs(s.b, y, x)
  {
    hide Xor, Rot, RotatesTo, XorsTo;
    WrapGives(s.a - s.c, d);
    WrapGives(s.c + s.b, y);
    RotGives(s.c, k, p, q, high, low, r);
    XorGives(d, r, x, h, l, h', l', h'', l'');
    MixLineOf(s, k);
    hide MixLine;
  }

  lemma MixLineOf(s: Regs, k: nat)
    requires k <= 32
    ensures MixLine(s, k) == Regs(s.b, (s.c + s.b) % MODULUS, Xor((s.a - s.c + MODULUS) % MODULUS, Rot(s.c, k)))
  {
    hide Xor, Rot;
  }

  /** One line of final: the exclusive-or x, the rotation r and their difference y. */
  lemma FinalLineIs(s: Regs, k: nat, p: nat, q: nat, high: nat, low: nat, h: Hex, l: Hex, h': Hex, l': Hex, h'': Hex, l'': Hex,
                    x: Word, r: Word, y: Word)
    requires XorsTo(s.c, s.b, x, h, l, h', l', h'', l'') && RotatesTo(s.b, k, p, q, high, low, r) && WrapsTo(x - r, y)
    ensures k <= 32 && FinalLine(s, k) == Regs(s.b, y, s.a)
  {
    hide Xor, Rot, RotatesTo, XorsTo;
    WrapGives(x - r, y);
    RotGives(s.b, k, p, q, high, low, r);
    XorGives(s.c, s.b, x, h, l, h', l', h'', l'');
    FinalLineOf(s, k);
    hide FinalLine;
  }

  lemma FinalLineOf(s: Regs, k: nat)
    requires k <= 32
    ensures FinalLine(s, k) == Regs(s.b, (Xor(s.c, s.b) - Rot(s.b, k) + MODULUS) % MODULUS, s.a)
  {
    hide Xor, Rot;
  }

  lemma PowerTable()
    ensures Pow2(4) == 0x10 && Pow2(6) == 0x40 && Pow2(7) == 0x80 && Pow2(8) == 0x100 && Pow2(11) == 0x800 && Pow2(13) == 0x2000
    ensures Pow2(14) == 0x4000 && Pow2(16) == 0x1_0000 && Pow2(18) == 0x4_0000 && Pow2(19) == 0x8_0000 && Pow2(21) == 0x20_0000
    ensures Pow2(24) == 0x100_0000 && Pow2(25) == 0x200_0000 && Pow2(26) == 0x400_0000 && Pow2(28) == 0x1000_0000
  {
  }

  lemma MixLine1()
    ensures MixLine(Regs(0x5217_2758, 0xff21_2824, 0x4421_df65), 4) == Regs(0xff21_2824, 0x4343_0789, 0x4fe8_b1a7)
  {
    PowerTable();
    DigitValues();
    hide Pow2, MixLine, Digit.Value;
    MixLineIs(Regs(0x5217_2758, 0xff21_2824, 0x4421_df65), 4, 0x10, 0x10000000, 0x4, 0x421df65, 0x0df5_47f3, 0x421d_f654,
      Hex(D0, DD, DF, D5), Hex(D4, D7, DF, D3), Hex(D4, D2, D1, DD), Hex(DF, D6, D5, D4), Hex(D4, DF, DE, D8), Hex(DB, D1, DA, D7),
      0x4fe8_b1a7, 0x4343_0789);
  }

  lemma MixLine2()
    ensures MixLine(Regs(0xff21_2824, 0x4343_0789, 0x4fe8_b1a7), 6) == Regs(0x4343_0789, 0x932b_b930, 0x5514_1fae)
  {
    PowerTable();
    DigitValues();
    hide Pow2, MixLine, Digit.Value;
    MixLineIs(Regs(0xff21_2824, 0x4343_0789, 0x4fe8_b1a7), 6, 0x40, 0x4000000, 0x13, 0x3e8b1a7, 0xaf38_767d, 0xfa2c_69d3,
      Hex(DA, DF, D3, D8), Hex(D7, D6, D7, DD), Hex(DF, DA, D2, DC), Hex(D6, D9, DD, D3), Hex(D5, D5, D1, D4), Hex(D1, DF, DA, DE),
      0x5514_1fae, 0x932b_b930);
  }

  lemma MixLine3()
    ensures MixLine(Regs(0x4343_0789, 0x932b_b930, 0x5514_1fae), 8) == Regs(0x932b_b930, 0xe83f_d8de, 0xfa31_498e)
  {
    PowerTable();
    DigitValues();
    hide Pow2, MixLine, Digit.Value;
    MixLineIs(Regs(0x4343_0789, 0x932b_b930, 0x5514_1fae), 8, 0x100, 0x1000000, 0x55, 0x141fae, 0xee2e_e7db, 0x141f_ae55,
      Hex(DE, DE, D2, DE), Hex(DE, D7, DD, DB), Hex(D1, D4, D1, DF), Hex(DA, DE, D5, D5), Hex(DF, DA, D3, D1), Hex(D4, D9, D8, DE),
      0xfa31_498e, 0xe83f_d8de);
  }

  lemma MixLine4()
    ensures MixLine(Regs(0x932b_b930, 0xe83f_d8de, 0xfa31_498e), 16) == Regs(0xe83f_d8de, 0xe271_226c, 0xd174_9593)
  {
    PowerTable();
    DigitValues();
    hide Pow2, MixLine, Digit.Value;
    MixLineIs(Regs(0x932b_b930, 0xe83f_d8de, 0xfa31_498e), 16, 0x10000, 0x10000, 0xfa31, 0x498e, 0x98fa_6fa2, 0x498e_fa31,
      Hex(D9, D8, DF, DA), Hex(D6, DF, DA, D2), Hex(D4, D9, D8, DE), Hex(DF, DA, D3, D1), Hex(DD, D1, D7, D4), Hex(D9, D5, D9, D3),
      0xd174_9593, 0xe271_226c);
  }

  lemma MixLine5()
    ensures MixLine(Regs(0xe83f_d8de, 0xe271_226c, 0xd174_9593), 19) == Regs(0xe271_226c, 0xb3e5_b7ff, 0xba55_c8ef)
  {
    PowerTable();
    DigitValues();
    hide Pow2, MixLine, Digit.Value;
    MixLineIs(Regs(0xe83f_d8de, 0xe271_226c, 0xd174_9593), 19, 0x80000, 0x2000, 0x68ba4, 0x1593, 0x16cb_434b, 0xac9e_8ba4,
      Hex(D1, D6, DC, DB), Hex(D4, D3, D4, DB), Hex(DA, DC, D9, DE), Hex(D8, DB, DA, D4), Hex(DB, DA, D5, D5), Hex(DC, D8, DE, DF),
      0xba55_c8ef, 0xb3e5_b7ff);
  }

  lemma MixLine6()
    ensures MixLine(Regs(0xe271_226c, 0xb3e5_b7ff, 0xba55_c8ef), 4) == Regs(0xb3e5_b7ff, 0x6e3b_80ee, 0x8d47_d786)
  {
    PowerTable();
    DigitValues();
    hide Pow2, MixLine, Digit.Value;
    MixLineIs(Regs(0xe271_226c, 0xb3e5_b7ff, 0xba55_c8ef), 4, 0x10, 0x10000000, 0xb, 0xa55c8ef, 0x281b_597d, 0xa55c_8efb,
      Hex(D2, D8, D1, DB), Hex(D5, D9, D7, DD), Hex(DA, D5, D5, DC), Hex(D8, DE, DF, DB), Hex(D8, DD, D4, D7), Hex(DD, D7, D8, D6),
      0x8d47_d786, 0x6e3b_80ee);
  }

  lemma FinalLine1()
    ensures FinalLine(Regs(0x2706_2c72, 0xdca4_f362, 0x8d47_d7ed), 14) == Regs(0xdca4_f362, 0x150a_6d66, 0x2706_2c72)
  {
    PowerTable();
    DigitValues();
    hide Pow2, FinalLine, Digit.Value;
    FinalLineIs(Regs(0x2706_2c72, 0xdca4_f362, 0x8d47_d7ed), 14, 0x4000, 0x40000, 0x3729, 0xf362,
      Hex(D8, DD, D4, D7), Hex(DD, D7, DE, DD), Hex(DD, DC, DA, D4), Hex(DF, D3, D6, D2), Hex(D5, D1, DE, D3), Hex(D2, D4, D8, DF),
      0x51e3_248f, 0x3cd8_b729, 0x150a_6d66);
  }

  lemma FinalLine2()
    ensures FinalLine(Regs(0xdca4_f362, 0x150a_6d66, 0x2706_2c72), 11) == Regs(0x150a_6d66, 0xdea1_106c, 0xdca4_f362)
  {
    PowerTable();
    DigitValues();
    hide Pow2, FinalLine, Digit.Value;
    FinalLineIs(Regs(0xdca4_f362, 0x150a_6d66, 0x2706_2c72), 11, 0x800, 0x200000, 0xa8, 0xa6d66,
      Hex(D2, D7, D0, D6), Hex(D2, DC, D7, D2), Hex(D1, D5, D0, DA), Hex(D6, DD, D6, D6), Hex(D3, D2, D0, DC), Hex(D4, D1, D1, D4),
      0x320c_4114, 0x536b_30a8, 0xdea1_106c);
  }

  lemma FinalLine3()
    ensures FinalLine(Regs(0x150a_6d66, 0xdea1_106c, 0xdca4_f362), 25) == Regs(0xdea1_106c, 0x2848_a0ee, 0x150a_6d66)
  {
    PowerTable();
    DigitValues();
    hide Pow2, FinalLine, Digit.Value;
    FinalLineIs(Regs(0x150a_6d66, 0xdea1_106c, 0xdca4_f362), 25, 0x2000000, 0x80, 0x1bd4220, 0x6c,
      Hex(DD, DC, DA, D4), Hex(DF, D3, D6, D2), Hex(DD, DE, DA, D1), Hex(D1, D0, D6, DC), Hex(D0, D2, D0, D5), Hex(DE, D3, D0, DE),
      0x0205_e30e, 0xd9bd_4220, 0x2848_a0ee);
  }

  lemma FinalLine4()
    ensures FinalLine(Regs(0xdea1_106c, 0x2848_a0ee, 0x150a_6d66), 16) == Regs(0x2848_a0ee, 0x9c54_a540, 0xdea1_106c)
  {
    PowerTable();
    DigitValues();
    hide Pow2, FinalLine, Digit.Value;
    FinalLineIs(Regs(0xdea1_106c, 0x2848_a0ee, 0x150a_6d66), 16, 0x10000, 0x10000, 0x2848, 0xa0ee,
      Hex(D1, D5, D0, DA), Hex(D6, DD, D6, D6), Hex(D2, D8, D4, D8), Hex(DA, D0, DE, DE), Hex(D3, DD, D4, D2), Hex(DC, DD, D8, D8),
      0x3d42_cd88, 0xa0ee_2848, 0x9c54_a540);
  }

  lemma FinalLine5()
    ensures FinalLine(Regs(0x2848_a0ee, 0x9c54_a540, 0xdea1_106c), 4) == Regs(0x9c54_a540, 0x7dab_6123, 0x2848_a0ee)
  {
    PowerTable();
    DigitValues();
    hide Pow2, FinalLine, Digit.Value;
    FinalLineIs(Regs(0x2848_a0ee, 0x9c54_a540, 0xdea1_106c), 4, 0x10, 0x10000000, 0x9, 0xc54a540,
      Hex(DD, DE, DA, D1), Hex(D1, D0, D6, DC), Hex(D9, DC, D5, D4), Hex(DA, D5, D4, D0), Hex(D4, D2, DF, D5), Hex(DB, D5, D2, DC),
      0x42f5_b52c, 0xc54a_5409, 0x7dab_6123);
  }

  lemma FinalLine6()
    ensures FinalLine(Regs(0x9c54_a540, 0x7dab_6123, 0x2848_a0ee), 14) == Regs(0x7dab_6123, 0x7d9a_e263, 0x9c54_a540)
  {
    PowerTable();
    DigitValues();
    hide Pow2, FinalLine, Digit.Value;
    FinalLineIs(Regs(0x9c54_a540, 0x7dab_6123, 0x2848_a0ee), 14, 0x4000, 0x40000, 0x1f6a, 0x36123,
      Hex(D2, D8, D4, D8), Hex(DA, D0, DE, DE), Hex(D7, DD, DA, DB), Hex(D6, D1, D2, D3), Hex(D5, D5, DE, D3), Hex(DC, D1, DC, DD),
      0x55e3_c1cd, 0xd848_df6a, 0x7d9a_e263);
  }

  lemma FinalLine7()
    ensures FinalLine(Regs(0x7dab_6123, 0x7d9a_e263, 0x9c54_a540), 24) == Regs(0x7d9a_e263, 0x7e50_ac41, 0x7dab_6123)
  {
    PowerTable();
    DigitValues();
    hide Pow2, FinalLine, Digit.Value;
    FinalLineIs(Regs(0x7dab_6123, 0x7d9a_e263, 0x9c54_a540), 24, 0x1000000, 0x100, 0x7d9ae2, 0x63,
      Hex(D9, DC, D5, D4), Hex(DA, D5, D4, D0), Hex(D7, DD, D9, DA), Hex(DE, D2, D6, D3), Hex(DE, D1, DC, DE), Hex(D4, D7, D2, D3),
      0xe1ce_4723, 0x637d_9ae2, 0x7e50_ac41);
  }

  lemma FirstBlock()
    ensures Mix(Regs(0x5217_2758, 0xff21_2824, 0x4421_df65)) == Regs(0xb3e5_b7ff, 0x6e3b_80ee, 0x8d47_d786)
  {
    hide MixLine;
    MixLine1();
    MixLine2();
    MixLine3();
    MixLine4();
    MixLine5();
    MixLine6();
  }

  lemma LastBlock()
    ensures Final(Regs(0x2706_2c72, 0xdca4_f362, 0x8d47_d7ed))
      == Regs(0x7dab_6123, 0x7d9a_e263, 0x7e50_ac41)
  {
    hide FinalLine;
    FinalLine1();
    FinalLine2();
    FinalLine3();
    FinalLine4();
    FinalLine5();
    FinalLine6();
    FinalLine7();
  }

  lemma TextDigest()
    ensures Digest(Start(|TEXT|, 0, 0), TEXT) == Regs(0x7dab_6123, 0x7d9a_e263, 0x7e50_ac41)
  {
    hide Mix, Final;
    FirstBlock();
    LastBlock();
    assert Start(|TEXT|, 0, 0) == Regs(0xdead_bf04, 0xdead_bf04, 0xdead_bf04);
    assert AddBlock(Regs(0xdead_bf04, 0xdead_bf04, 0xdead_bf04), TEXT) == Regs(0x5217_2758, 0xff21_2824, 0x4421_df65);
    assert AddBlock(Regs(0xb3e5_b7ff, 0x6e3b_80ee, 0x8d47_d786), TEXT[12..]) == Regs(0x2706_2c72, 0xdca4_f362, 0x8d47_d7ed);
  }

  /** HashTest: Hash32, and the pair that DoubleHash32 returns, however the key is read. */
  method HashTest(how: Reading) returns (h: Word, pc: Word, pb: Word)
    ensures h == 2119216193 && pc == 2119216193 && pb == 2107302499
  {
    assert TEXT[..|TEXT|] == TEXT;
    TextDigest();
    hide Digest, Start, TEXT;
    h := HashLittle(TEXT, |TEXT|, how, 0);
    pc, pb := HashLittle2(TEXT, |TEXT|, how, 0, 0);
  }
}
