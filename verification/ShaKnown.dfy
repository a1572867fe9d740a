/** A known answer: the digest of "abc", the first example of FIPS 180-2 (appendix B.1), word by word and round by round. */
module ShaKnown {
  import opened ShaWords
  import opened ShaBlock
  import opened ShaStream

  /** The three bytes, and the padded block */
  function Abc(): Message {
    [0x61, 0x62, 0x63]
  }

  function Block(): Bytes64 {
    [0x61, 0x62, 0x63, 0x80] + Zeros(59) + [24]
  }

  lemma PaddedIs()
    ensures Abc() + Padding(3) == Block()
  {
    assert ZeroCount(3) == 52;
    assert LengthBytes(24) == Zeros(7) + [24] by { LengthOfAbc(); }
    assert Zeros(52) + Zeros(7) == Zeros(59);
  }

  lemma LengthOfAbc()
    ensures LengthBytes(24) == [0, 0, 0, 0, 0, 0, 0, 24]
  {
    hide ByteOf;
    assert ByteOf(0) == 0 && ByteOf(24) == 24 by { SmallBytes(); }
  }

  lemma SmallBytes()
    ensures ByteOf(0) == 0 && ByteOf(24) == 24
  {}

  // ----- The message schedule -----

  /** b is the block, and the word t of its schedule is w. */
  ghost predicate WordIs(b: Bytes64, t: nat, w: Word32) {
    b == Block() && Schedule(b, t) == w
  }

  lemma BlockWord(m: Bytes64, t: nat, a: bv8, b: bv8, c: bv8, d: bv8, w: Word32)
    requires m == Block() && t < 16 && m[4 * t] == a && m[4 * t + 1] == b && m[4 * t + 2] == c && m[4 * t + 3] == d
    requires ((a as bv32) << 24) | ((b as bv32) << 16) | ((c as bv32) << 8) | (d as bv32) == w
    ensures WordIs(m, t, w)
  {
    hide Block;
  }

  lemma Word(b: Bytes64, t: nat, w2: Word32, w7: Word32, w15: Word32, w16: Word32, w: Word32)
    requires 16 <= t < 64 && WordIs(b, t - 2, w2) && WordIs(b, t - 7, w7) && WordIs(b, t - 15, w15) && WordIs(b, t - 16, w16)
    requires Add(Add(Add(SmallSigma1(w2), w7), SmallSigma0(w15)), w16) == w
    ensures WordIs(b, t, w)
  {
    hide Block, SmallSigma0, SmallSigma1, Add;
  }

  lemma Words0(b: Bytes64)
    requires b == Block()
    ensures WordIs(b, 0, 0x6162_6380) && WordIs(b, 1, 0x0000_0000) && WordIs(b, 2, 0x0000_0000) && WordIs(b, 3, 0x0000_0000)
    ensures WordIs(b, 4, 0x0000_0000) && WordIs(b, 5, 0x0000_0000) && WordIs(b, 6, 0x0000_0000) && WordIs(b, 7, 0x0000_0000)
    ensures WordIs(b, 8, 0x0000_0000) && WordIs(b, 9, 0x0000_0000) && WordIs(b, 10, 0x0000_0000) && WordIs(b, 11, 0x0000_0000)
    ensures WordIs(b, 12, 0x0000_0000) && WordIs(b, 13, 0x0000_0000) && WordIs(b, 14, 0x0000_0000) && WordIs(b, 15, 0x0000_0018)
  {
    hide WordIs;
    BlockWord(b, 0, 0x61, 0x62, 0x63, 0x80, 0x6162_6380);
    BlockWord(b, 1, 0x00, 0x00, 0x00, 0x00, 0x0000_0000);
    BlockWord(b, 2, 0x00, 0x00, 0x00, 0x00, 0x0000_0000);
    BlockWord(b, 3, 0x00, 0x00, 0x00, 0x00, 0x0000_0000);
    BlockWord(b, 4, 0x00, 0x00, 0x00, 0x00, 0x0000_0000);
    BlockWord(b, 5, 0x00, 0x00, 0x00, 0x00, 0x0000_0000);
    BlockWord(b, 6, 0x00, 0x00, 0x00, 0x00, 0x0000_0000);
    BlockWord(b, 7, 0x00, 0x00, 0x00, 0x00, 0x0000_0000);
    BlockWord(b, 8, 0x00, 0x00, 0x00, 0x00, 0x0000_0000);
    BlockWord(b, 9, 0x00, 0x00, 0x00, 0x00, 0x0000_0000);
    BlockWord(b, 10, 0x00, 0x00, 0x00, 0x00, 0x0000_0000);
    BlockWord(b, 11, 0x00, 0x00, 0x00, 0x00, 0x0000_0000);
    BlockWord(b, 12, 0x00, 0x00, 0x00, 0x00, 0x0000_0000);
    BlockWord(b, 13, 0x00, 0x00, 0x00, 0x00, 0x0000_0000);
    BlockWord(b, 14, 0x00, 0x00, 0x00, 0x00, 0x0000_0000);
    BlockWord(b, 15, 0x00, 0x00, 0x00, 0x18, 0x0000_0018);
  }

  lemma Words16(b: Bytes64)
    requires b == Block()
    ensures WordIs(b, 16, 0x6162_6380) && WordIs(b, 17, 0x000F_0000) && WordIs(b, 18, 0x7DA8_6405) && WordIs(b, 19, 0x6000_03C6)
    ensures WordIs(b, 20, 0x3E9D_7B78) && WordIs(b, 21, 0x0183_FC00) && WordIs(b, 22, 0x12DC_BFDB) && WordIs(b, 23, 0xE2E2_C38E)
  {
    hide WordIs;
    Words0(b);
    Word(b, 16, 0x0000_0000, 0x0000_0000, 0x0000_0000, 0x6162_6380, 0x6162_6380);
    Word(b, 17, 0x0000_0018, 0x0000_0000, 0x0000_0000, 0x0000_0000, 0x000F_0000);
    Word(b, 18, 0x6162_6380, 0x0000_0000, 0x0000_0000, 0x0000_0000, 0x7DA8_6405);
    Word(b, 19, 0x000F_0000, 0x0000_0000, 0x0000_0000, 0x0000_0000, 0x6000_03C6);
    Word(b, 20, 0x7DA8_6405, 0x0000_0000, 0x0000_0000, 0x0000_0000, 0x3E9D_7B78);
    Word(b, 21, 0x6000_03C6, 0x0000_0000, 0x0000_0000, 0x0000_0000, 0x0183_FC00);
    Word(b, 22, 0x3E9D_7B78, 0x0000_0018, 0x0000_0000, 0x0000_0000, 0x12DC_BFDB);
    Word(b, 23, 0x0183_FC00, 0x6162_6380, 0x0000_0000, 0x0000_0000, 0xE2E2_C38E);
  }

  lemma Words24(b: Bytes64)
    requires b == Block()
    ensures WordIs(b, 24, 0xC821_5C1A) && WordIs(b, 25, 0xB736_79A2) && WordIs(b, 26, 0xE5BC_3909) && WordIs(b, 27, 0x3266_3C5B)
    ensures WordIs(b, 28, 0x9D20_9D67) && WordIs(b, 29, 0xEC87_26CB) && WordIs(b, 30, 0x7021_38A4) && WordIs(b, 31, 0xD3B7_973B)
  {
    hide WordIs;
    Words0(b);
    Words16(b);
    Word(b, 24, 0x12DC_BFDB, 0x000F_0000, 0x0000_0000, 0x0000_0000, 0xC821_5C1A);
    Word(b, 25, 0xE2E2_C38E, 0x7DA8_6405, 0x0000_0000, 0x0000_0000, 0xB736_79A2);
    Word(b, 26, 0xC821_5C1A, 0x6000_03C6, 0x0000_0000, 0x0000_0000, 0xE5BC_3909);
    Word(b, 27, 0xB736_79A2, 0x3E9D_7B78, 0x0000_0000, 0x0000_0000, 0x3266_3C5B);
    Word(b, 28, 0xE5BC_3909, 0x0183_FC00, 0x0000_0000, 0x0000_0000, 0x9D20_9D67);
    Word(b, 29, 0x3266_3C5B, 0x12DC_BFDB, 0x0000_0000, 0x0000_0000, 0xEC87_26CB);
    Word(b, 30, 0x9D20_9D67, 0xE2E2_C38E, 0x0000_0018, 0x0000_0000, 0x7021_38A4);
    Word(b, 31, 0xEC87_26CB, 0xC821_5C1A, 0x6162_6380, 0x0000_0018, 0xD3B7_973B);
  }

  lemma Words32(b: Bytes64)
    requires b == Block()
    ensures WordIs(b, 32, 0x93F5_997F) && WordIs(b, 33, 0x3B68_BA73) && WordIs(b, 34, 0xAFF4_FFC1) && WordIs(b, 35, 0xF10A_5C62)
    ensures WordIs(b, 36, 0x0A8B_3996) && WordIs(b, 37, 0x72AF_830A) && WordIs(b, 38, 0x9409_E33E) && WordIs(b, 39, 0x2464_1522)
  {
    hide WordIs;
    Words16(b);
    Words24(b);
    Word(b, 32, 0x7021_38A4, 0xB736_79A2, 0x000F_0000, 0x6162_6380, 0x93F5_997F);
    Word(b, 33, 0xD3B7_973B, 0xE5BC_3909, 0x7DA8_6405, 0x000F_0000, 0x3B68_BA73);
    Word(b, 34, 0x93F5_997F, 0x3266_3C5B, 0x6000_03C6, 0x7DA8_6405, 0xAFF4_FFC1);
    Word(b, 35, 0x3B68_BA73, 0x9D20_9D67, 0x3E9D_7B78, 0x6000_03C6, 0xF10A_5C62);
    Word(b, 36, 0xAFF4_FFC1, 0xEC87_26CB, 0x0183_FC00, 0x3E9D_7B78, 0x0A8B_3996);
    Word(b, 37, 0xF10A_5C62, 0x7021_38A4, 0x12DC_BFDB, 0x0183_FC00, 0x72AF_830A);
    Word(b, 38, 0x0A8B_3996, 0xD3B7_973B, 0xE2E2_C38E, 0x12DC_BFDB, 0x9409_E33E);
    Word(b, 39, 0x72AF_830A, 0x93F5_997F, 0xC821_5C1A, 0xE2E2_C38E, 0x2464_1522);
  }

  lemma Words40(b: Bytes64)
    requires b == Block()
    ensures WordIs(b, 40, 0x9F47_BF94) && WordIs(b, 41, 0xF0A6_4F5A) && WordIs(b, 42, 0x3E24_6A79) && WordIs(b, 43, 0x2733_3BA3)
    ensures WordIs(b, 44, 0x0C47_63F2) && WordIs(b, 45, 0x840A_BF27) && WordIs(b, 46, 0x7A29_0D5D) && WordIs(b, 47, 0x065C_43DA)
  {
    hide WordIs;
    Words24(b);
    Words32(b);
    Word(b, 40, 0x9409_E33E, 0x3B68_BA73, 0xB736_79A2, 0xC821_5C1A, 0x9F47_BF94);
    Word(b, 41, 0x2464_1522, 0xAFF4_FFC1, 0xE5BC_3909, 0xB736_79A2, 0xF0A6_4F5A);
    Word(b, 42, 0x9F47_BF94, 0xF10A_5C62, 0x3266_3C5B, 0xE5BC_3909, 0x3E24_6A79);
    Word(b, 43, 0xF0A6_4F5A, 0x0A8B_3996, 0x9D20_9D67, 0x3266_3C5B, 0x2733_3BA3);
    Word(b, 44, 0x3E24_6A79, 0x72AF_830A, 0xEC87_26CB, 0x9D20_9D67, 0x0C47_63F2);
    Word(b, 45, 0x2733_3BA3, 0x9409_E33E, 0x7021_38A4, 0xEC87_26CB, 0x840A_BF27);
    Word(b, 46, 0x0C47_63F2, 0x2464_1522, 0xD3B7_973B, 0x7021_38A4, 0x7A29_0D5D);
    Word(b, 47, 0x840A_BF27, 0x9F47_BF94, 0x93F5_997F, 0xD3B7_973B, 0x065C_43DA);
  }

  lemma Words48(b: Bytes64)
    requires b == Block()
    ensures WordIs(b, 48, 0xFB3E_89CB) && WordIs(b, 49, 0xCC76_17DB) && WordIs(b, 50, 0xB9E6_6C34) && WordIs(b, 51, 0xA999_3667)
    ensures WordIs(b, 52, 0x84BA_DEDD) && WordIs(b, 53, 0xC214_62BC) && WordIs(b, 54, 0x1487_472C) && WordIs(b, 55, 0xB20F_7A99)
  {
    hide WordIs;
    Words32(b);
    Words40(b);
    Word(b, 48, 0x7A29_0D5D, 0xF0A6_4F5A, 0x3B68_BA73, 0x93F5_997F, 0xFB3E_89CB);
    Word(b, 49, 0x065C_43DA, 0x3E24_6A79, 0xAFF4_FFC1, 0x3B68_BA73, 0xCC76_17DB);
    Word(b, 50, 0xFB3E_89CB, 0x2733_3BA3, 0xF10A_5C62, 0xAFF4_FFC1, 0xB9E6_6C34);
    Word(b, 51, 0xCC76_17DB, 0x0C47_63F2, 0x0A8B_3996, 0xF10A_5C62, 0xA999_3667);
    Word(b, 52, 0xB9E6_6C34, 0x840A_BF27, 0x72AF_830A, 0x0A8B_3996, 0x84BA_DEDD);
    Word(b, 53, 0xA999_3667, 0x7A29_0D5D, 0x9409_E33E, 0x72AF_830A, 0xC214_62BC);
    Word(b, 54, 0x84BA_DEDD, 0x065C_43DA, 0x2464_1522, 0x9409_E33E, 0x1487_472C);
    Word(b, 55, 0xC214_62BC, 0xFB3E_89CB, 0x9F47_BF94, 0x2464_1522, 0xB20F_7A99);
  }

  lemma Words56(b: Bytes64)
    requires b == Block()
    ensures WordIs(b, 56, 0xEF57_B9CD) && WordIs(b, 57, 0xEBE6_B238) && WordIs(b, 58, 0x9FE3_095E) && WordIs(b, 59, 0x78BC_8D4B)
    ensures WordIs(b, 60, 0xA43F_CF15) && WordIs(b, 61, 0x668B_2FF8) && WordIs(b, 62, 0xEEAB_A2CC) && WordIs(b, 63, 0x12B1_EDEB)
  {
    hide WordIs;
    Words40(b);
    Words48(b);
    Word(b, 56, 0x1487_472C, 0xCC76_17DB, 0xF0A6_4F5A, 0x9F47_BF94, 0xEF57_B9CD);
    Word(b, 57, 0xB20F_7A99, 0xB9E6_6C34, 0x3E24_6A79, 0xF0A6_4F5A, 0xEBE6_B238);
    Word(b, 58, 0xEF57_B9CD, 0xA999_3667, 0x2733_3BA3, 0x3E24_6A79, 0x9FE3_095E);
    Word(b, 59, 0xEBE6_B238, 0x84BA_DEDD, 0x0C47_63F2, 0x2733_3BA3, 0x78BC_8D4B);
    Word(b, 60, 0x9FE3_095E, 0xC214_62BC, 0x840A_BF27, 0x0C47_63F2, 0xA43F_CF15);
    Word(b, 61, 0x78BC_8D4B, 0x1487_472C, 0x7A29_0D5D, 0x840A_BF27, 0x668B_2FF8);
    Word(b, 62, 0xA43F_CF15, 0xB20F_7A99, 0x065C_43DA, 0x7A29_0D5D, 0xEEAB_A2CC);
    Word(b, 63, 0x668B_2FF8, 0xEF57_B9CD, 0xFB3E_89CB, 0x065C_43DA, 0x12B1_EDEB);
  }

  // ----- The rounds -----

  ghost predicate RegsAre(b: Bytes64, t: nat, r: Regs) {
    b == Block() && t <= 64 && Rounds(H0, b, t) == r
  }

  lemma Go(b: Bytes64, t: nat, r: Regs, k: Word32, w: Word32, r': Regs)
    requires t < 64 && RegsAre(b, t, r) && Constant(t) == k && WordIs(b, t, w) && Round(r, k, w) == r'
    ensures RegsAre(b, t + 1, r')
  {
    hide Block, Round, Constant, H0, Schedule;
  }

  lemma Rounds0(b: Bytes64)
    requires b == Block()
    ensures RegsAre(b, 2, Regs(0x5A6A_D9AD, 0x5D6A_EBCD, 0x6A09_E667, 0xBB67_AE85, 0x78CE_7989, 0xFA2A_4622, 0x510E_527F, 0x9B05_688C))
  {
    hide RegsAre, WordIs;
    Words0(b);
    NoRoundsYet(b);
    Go(b, 0, Regs(0x6A09_E667, 0xBB67_AE85, 0x3C6E_F372, 0xA54F_F53A, 0x510E_527F, 0x9B05_688C, 0x1F83_D9AB, 0x5BE0_CD19), 0x428A_2F98, 0x6162_6380,
      Regs(0x5D6A_EBCD, 0x6A09_E667, 0xBB67_AE85, 0x3C6E_F372, 0xFA2A_4622, 0x510E_527F, 0x9B05_688C, 0x1F83_D9AB));
    Go(b, 1, Regs(0x5D6A_EBCD, 0x6A09_E667, 0xBB67_AE85, 0x3C6E_F372, 0xFA2A_4622, 0x510E_527F, 0x9B05_688C, 0x1F83_D9AB), 0x7137_4491, 0x0000_0000,
      Regs(0x5A6A_D9AD, 0x5D6A_EBCD, 0x6A09_E667, 0xBB67_AE85, 0x78CE_7989, 0xFA2A_4622, 0x510E_527F, 0x9B05_688C));
  }

  lemma Rounds2(b: Bytes64)
    requires b == Block()
    ensures RegsAre(b, 4, Regs(0xD550_F666, 0xC8C3_47A7, 0x5A6A_D9AD, 0x5D6A_EBCD, 0x24E0_0850, 0xF929_39EB, 0x78CE_7989, 0xFA2A_4622))
  {
    hide RegsAre, WordIs;
    Words0(b);
    Rounds0(b);
    Go(b, 2, Regs(0x5A6A_D9AD, 0x5D6A_EBCD, 0x6A09_E667, 0xBB67_AE85, 0x78CE_7989, 0xFA2A_4622, 0x510E_527F, 0x9B05_688C), 0xB5C0_FBCF, 0x0000_0000,
      Regs(0xC8C3_47A7, 0x5A6A_D9AD, 0x5D6A_EBCD, 0x6A09_E667, 0xF929_39EB, 0x78CE_7989, 0xFA2A_4622, 0x510E_527F));
    Go(b, 3, Regs(0xC8C3_47A7, 0x5A6A_D9AD, 0x5D6A_EBCD, 0x6A09_E667, 0xF929_39EB, 0x78CE_7989, 0xFA2A_4622, 0x510E_527F), 0xE9B5_DBA5, 0x0000_0000,
      Regs(0xD550_F666, 0xC8C3_47A7, 0x5A6A_D9AD, 0x5D6A_EBCD, 0x24E0_0850, 0xF929_39EB, 0x78CE_7989, 0xFA2A_4622));
  }

  lemma Rounds4(b: Bytes64)
    requires b == Block()
    ensures RegsAre(b, 6, Regs(0x2B42_09F5, 0x0440_9A6A, 0xD550_F666, 0xC8C3_47A7, 0x7142_60AD, 0x43AD_A245, 0x24E0_0850, 0xF929_39EB))
  {
    hide RegsAre, WordIs;
    Words0(b);
    Rounds2(b);
    Go(b, 4, Regs(0xD550_F666, 0xC8C3_47A7, 0x5A6A_D9AD, 0x5D6A_EBCD, 0x24E0_0850, 0xF929_39EB, 0x78CE_7989, 0xFA2A_4622), 0x3956_C25B, 0x0000_0000,
      Regs(0x0440_9A6A, 0xD550_F666, 0xC8C3_47A7, 0x5A6A_D9AD, 0x43AD_A245, 0x24E0_0850, 0xF929_39EB, 0x78CE_7989));
    Go(b, 5, Regs(0x0440_9A6A, 0xD550_F666, 0xC8C3_47A7, 0x5A6A_D9AD, 0x43AD_A245, 0x24E0_0850, 0xF929_39EB, 0x78CE_7989), 0x59F1_11F1, 0x0000_0000,
      Regs(0x2B42_09F5, 0x0440_9A6A, 0xD550_F666, 0xC8C3_47A7, 0x7142_60AD, 0x43AD_A245, 0x24E0_0850, 0xF929_39EB));
  }

  lemma Rounds6(b: Bytes64)
    requires b == Block()
    ensures RegsAre(b, 8, Regs(0x85A0_7B5F, 0xE503_0380, 0x2B42_09F5, 0x0440_9A6A, 0x0C65_7A79, 0x9B27_A401, 0x7142_60AD, 0x43AD_A245))
  {
    hide RegsAre, WordIs;
    Words0(b);
    Rounds4(b);
    Go(b, 6, Regs(0x2B42_09F5, 0x0440_9A6A, 0xD550_F666, 0xC8C3_47A7, 0x7142_60AD, 0x43AD_A245, 0x24E0_0850, 0xF929_39EB), 0x923F_82A4, 0x0000_0000,
      Regs(0xE503_0380, 0x2B42_09F5, 0x0440_9A6A, 0xD550_F666, 0x9B27_A401, 0x7142_60AD, 0x43AD_A245, 0x24E0_0850));
    Go(b, 7, Regs(0xE503_0380, 0x2B42_09F5, 0x0440_9A6A, 0xD550_F666, 0x9B27_A401, 0x7142_60AD, 0x43AD_A245, 0x24E0_0850), 0xAB1C_5ED5, 0x0000_0000,
      Regs(0x85A0_7B5F, 0xE503_0380, 0x2B42_09F5, 0x0440_9A6A, 0x0C65_7A79, 0x9B27_A401, 0x7142_60AD, 0x43AD_A245));
  }

  lemma Rounds8(b: Bytes64)
    requires b == Block()
    ensures RegsAre(b, 10, Regs(0x8C87_346B, 0x8E04_ECB9, 0x85A0_7B5F, 0xE503_0380, 0x1CC9_2596, 0x32CA_2D8C, 0x0C65_7A79, 0x9B27_A401))
  {
    hide RegsAre, WordIs;
    Words0(b);
    Rounds6(b);
    Go(b, 8, Regs(0x85A0_7B5F, 0xE503_0380, 0x2B42_09F5, 0x0440_9A6A, 0x0C65_7A79, 0x9B27_A401, 0x7142_60AD, 0x43AD_A245), 0xD807_AA98, 0x0000_0000,
      Regs(0x8E04_ECB9, 0x85A0_7B5F, 0xE503_0380, 0x2B42_09F5, 0x32CA_2D8C, 0x0C65_7A79, 0x9B27_A401, 0x7142_60AD));
    Go(b, 9, Regs(0x8E04_ECB9, 0x85A0_7B5F, 0xE503_0380, 0x2B42_09F5, 0x32CA_2D8C, 0x0C65_7A79, 0x9B27_A401, 0x7142_60AD), 0x1283_5B01, 0x0000_0000,
      Regs(0x8C87_346B, 0x8E04_ECB9, 0x85A0_7B5F, 0xE503_0380, 0x1CC9_2596, 0x32CA_2D8C, 0x0C65_7A79, 0x9B27_A401));
  }

  lemma Rounds10(b: Bytes64)
    requires b == Block()
    ensures RegsAre(b, 12, Regs(0xF71F_C5A9, 0x4798_A3F4, 0x8C87_346B, 0x8E04_ECB9, 0x816F_D6E9, 0x436B_23E8, 0x1CC9_2596, 0x32CA_2D8C))
  {
    hide RegsAre, WordIs;
    Words0(b);
    Rounds8(b);
    Go(b, 10, Regs(0x8C87_346B, 0x8E04_ECB9, 0x85A0_7B5F, 0xE503_0380, 0x1CC9_2596, 0x32CA_2D8C, 0x0C65_7A79, 0x9B27_A401), 0x2431_85BE, 0x0000_0000,
      Regs(0x4798_A3F4, 0x8C87_346B, 0x8E04_ECB9, 0x85A0_7B5F, 0x436B_23E8, 0x1CC9_2596, 0x32CA_2D8C, 0x0C65_7A79));
    Go(b, 11, Regs(0x4798_A3F4, 0x8C87_346B, 0x8E04_ECB9, 0x85A0_7B5F, 0x436B_23E8, 0x1CC9_2596, 0x32CA_2D8C, 0x0C65_7A79), 0x550C_7DC3, 0x0000_0000,
      Regs(0xF71F_C5A9, 0x4798_A3F4, 0x8C87_346B, 0x8E04_ECB9, 0x816F_D6E9, 0x436B_23E8, 0x1CC9_2596, 0x32CA_2D8C));
  }

  lemma Rounds12(b: Bytes64)
    requires b == Block()
    ensures RegsAre(b, 14, Regs(0xD932_EB16, 0x8791_2990, 0xF71F_C5A9, 0x4798_A3F4, 0x745A_48DE, 0x1E57_8218, 0x816F_D6E9, 0x436B_23E8))
  {
    hide RegsAre, WordIs;
    Words0(b);
    Rounds10(b);
    Go(b, 12, Regs(0xF71F_C5A9, 0x4798_A3F4, 0x8C87_346B, 0x8E04_ECB9, 0x816F_D6E9, 0x436B_23E8, 0x1CC9_2596, 0x32CA_2D8C), 0x72BE_5D74, 0x0000_0000,
      Regs(0x8791_2990, 0xF71F_C5A9, 0x4798_A3F4, 0x8C87_346B, 0x1E57_8218, 0x816F_D6E9, 0x436B_23E8, 0x1CC9_2596));
    Go(b, 13, Regs(0x8791_2990, 0xF71F_C5A9, 0x4798_A3F4, 0x8C87_346B, 0x1E57_8218, 0x816F_D6E9, 0x436B_23E8, 0x1CC9_2596), 0x80DE_B1FE, 0x0000_0000,
      Regs(0xD932_EB16, 0x8791_2990, 0xF71F_C5A9, 0x4798_A3F4, 0x745A_48DE, 0x1E57_8218, 0x816F_D6E9, 0x436B_23E8));
  }

  lemma Rounds14(b: Bytes64)
    requires b == Block()
    ensures RegsAre(b, 16, Regs(0xB0FA_238E, 0xC064_5FDE, 0xD932_EB16, 0x8791_2990, 0x0759_0DCD, 0x0B92_F20C, 0x745A_48DE, 0x1E57_8218))
  {
    hide RegsAre, WordIs;
    Words0(b);
    Rounds12(b);
    Go(b, 14, Regs(0xD932_EB16, 0x8791_2990, 0xF71F_C5A9, 0x4798_A3F4, 0x745A_48DE, 0x1E57_8218, 0x816F_D6E9, 0x436B_23E8), 0x9BDC_06A7, 0x0000_0000,
      Regs(0xC064_5FDE, 0xD932_EB16, 0x8791_2990, 0xF71F_C5A9, 0x0B92_F20C, 0x745A_48DE, 0x1E57_8218, 0x816F_D6E9));
    Go(b, 15, Regs(0xC064_5FDE, 0xD932_EB16, 0x8791_2990, 0xF71F_C5A9, 0x0B92_F20C, 0x745A_48DE, 0x1E57_8218, 0x816F_D6E9), 0xC19B_F174, 0x0000_0018,
      Regs(0xB0FA_238E, 0xC064_5FDE, 0xD932_EB16, 0x8791_2990, 0x0759_0DCD, 0x0B92_F20C, 0x745A_48DE, 0x1E57_8218));
  }

  lemma Rounds16(b: Bytes64)
    requires b == Block()
    ensures RegsAre(b, 18, Regs(0xC2FB_D9D1, 0x21DA_9A9B, 0xB0FA_238E, 0xC064_5FDE, 0x846E_E454, 0x8034_229C, 0x0759_0DCD, 0x0B92_F20C))
  {
    hide RegsAre, WordIs;
    Words16(b);
    Rounds14(b);
    Go(b, 16, Regs(0xB0FA_238E, 0xC064_5FDE, 0xD932_EB16, 0x8791_2990, 0x0759_0DCD, 0x0B92_F20C, 0x745A_48DE, 0x1E57_8218), 0xE49B_69C1, 0x6162_6380,
      Regs(0x21DA_9A9B, 0xB0FA_238E, 0xC064_5FDE, 0xD932_EB16, 0x8034_229C, 0x0759_0DCD, 0x0B92_F20C, 0x745A_48DE));
    Go(b, 17, Regs(0x21DA_9A9B, 0xB0FA_238E, 0xC064_5FDE, 0xD932_EB16, 0x8034_229C, 0x0759_0DCD, 0x0B92_F20C, 0x745A_48DE), 0xEFBE_4786, 0x000F_0000,
      Regs(0xC2FB_D9D1, 0x21DA_9A9B, 0xB0FA_238E, 0xC064_5FDE, 0x846E_E454, 0x8034_229C, 0x0759_0DCD, 0x0B92_F20C));
  }

  lemma Rounds18(b: Bytes64)
    requires b == Block()
    ensures RegsAre(b, 20, Regs(0xE1F2_0C33, 0xFE77_7BBF, 0xC2FB_D9D1, 0x21DA_9A9B, 0xB063_8179, 0xCC89_9961, 0x846E_E454, 0x8034_229C))
  {
    hide RegsAre, WordIs;
    Words16(b);
    Rounds16(b);
    Go(b, 18, Regs(0xC2FB_D9D1, 0x21DA_9A9B, 0xB0FA_238E, 0xC064_5FDE, 0x846E_E454, 0x8034_229C, 0x0759_0DCD, 0x0B92_F20C), 0x0FC1_9DC6, 0x7DA8_6405,
      Regs(0xFE77_7BBF, 0xC2FB_D9D1, 0x21DA_9A9B, 0xB0FA_238E, 0xCC89_9961, 0x846E_E454, 0x8034_229C, 0x0759_0DCD));
    Go(b, 19, Regs(0xFE77_7BBF, 0xC2FB_D9D1, 0x21DA_9A9B, 0xB0FA_238E, 0xCC89_9961, 0x846E_E454, 0x8034_229C, 0x0759_0DCD), 0x240C_A1CC, 0x6000_03C6,
      Regs(0xE1F2_0C33, 0xFE77_7BBF, 0xC2FB_D9D1, 0x21DA_9A9B, 0xB063_8179, 0xCC89_9961, 0x846E_E454, 0x8034_229C));
  }

  lemma Rounds20(b: Bytes64)
    requires b == Block()
    ensures RegsAre(b, 22, Regs(0xC260_6D6D, 0x9DC6_8B63, 0xE1F2_0C33, 0xFE77_7BBF, 0xE125_7970, 0x8ADA_8930, 0xB063_8179, 0xCC89_9961))
  {
    hide RegsAre, WordIs;
    Words16(b);
    Rounds18(b);
    Go(b, 20, Regs(0xE1F2_0C33, 0xFE77_7BBF, 0xC2FB_D9D1, 0x21DA_9A9B, 0xB063_8179, 0xCC89_9961, 0x846E_E454, 0x8034_229C), 0x2DE9_2C6F, 0x3E9D_7B78,
      Regs(0x9DC6_8B63, 0xE1F2_0C33, 0xFE77_7BBF, 0xC2FB_D9D1, 0x8ADA_8930, 0xB063_8179, 0xCC89_9961, 0x846E_E454));
    Go(b, 21, Regs(0x9DC6_8B63, 0xE1F2_0C33, 0xFE77_7BBF, 0xC2FB_D9D1, 0x8ADA_8930, 0xB063_8179, 0xCC89_9961, 0x846E_E454), 0x4A74_84AA, 0x0183_FC00,
      Regs(0xC260_6D6D, 0x9DC6_8B63, 0xE1F2_0C33, 0xFE77_7BBF, 0xE125_7970, 0x8ADA_8930, 0xB063_8179, 0xCC89_9961));
  }

  lemma Rounds22(b: Bytes64)
    requires b == Block()
    ensures RegsAre(b, 24, Regs(0xC5D5_3D8D, 0xA7A3_623F, 0xC260_6D6D, 0x9DC6_8B63, 0xAA47_C347, 0x49F5_114A, 0xE125_7970, 0x8ADA_8930))
  {
    hide RegsAre, WordIs;
    Words16(b);
    Rounds20(b);
    Go(b, 22, Regs(0xC260_6D6D, 0x9DC6_8B63, 0xE1F2_0C33, 0xFE77_7BBF, 0xE125_7970, 0x8ADA_8930, 0xB063_8179, 0xCC89_9961), 0x5CB0_A9DC, 0x12DC_BFDB,
      Regs(0xA7A3_623F, 0xC260_6D6D, 0x9DC6_8B63, 0xE1F2_0C33, 0x49F5_114A, 0xE125_7970, 0x8ADA_8930, 0xB063_8179));
    Go(b, 23, Regs(0xA7A3_623F, 0xC260_6D6D, 0x9DC6_8B63, 0xE1F2_0C33, 0x49F5_114A, 0xE125_7970, 0x8ADA_8930, 0xB063_8179), 0x76F9_88DA, 0xE2E2_C38E,
      Regs(0xC5D5_3D8D, 0xA7A3_623F, 0xC260_6D6D, 0x9DC6_8B63, 0xAA47_C347, 0x49F5_114A, 0xE125_7970, 0x8ADA_8930));
  }

  lemma Rounds24(b: Bytes64)
    requires b == Block()
    ensures RegsAre(b, 26, Regs(0xCDE8_037D, 0x1C2C_2838, 0xC5D5_3D8D, 0xA7A3_623F, 0x1438_3D8E, 0x2823_EF91, 0xAA47_C347, 0x49F5_114A))
  {
    hide RegsAre, WordIs;
    Words24(b);
    Rounds22(b);
    Go(b, 24, Regs(0xC5D5_3D8D, 0xA7A3_623F, 0xC260_6D6D, 0x9DC6_8B63, 0xAA47_C347, 0x49F5_114A, 0xE125_7970, 0x8ADA_8930), 0x983E_5152, 0xC821_5C1A,
      Regs(0x1C2C_2838, 0xC5D5_3D8D, 0xA7A3_623F, 0xC260_6D6D, 0x2823_EF91, 0xAA47_C347, 0x49F5_114A, 0xE125_7970));
    Go(b, 25, Regs(0x1C2C_2838, 0xC5D5_3D8D, 0xA7A3_623F, 0xC260_6D6D, 0x2823_EF91, 0xAA47_C347, 0x49F5_114A, 0xE125_7970), 0xA831_C66D, 0xB736_79A2,
      Regs(0xCDE8_037D, 0x1C2C_2838, 0xC5D5_3D8D, 0xA7A3_623F, 0x1438_3D8E, 0x2823_EF91, 0xAA47_C347, 0x49F5_114A));
  }

  lemma Rounds26(b: Bytes64)
    requires b == Block()
    ensures RegsAre(b, 28, Regs(0x77D3_7528, 0xB62E_C4BC, 0xCDE8_037D, 0x1C2C_2838, 0xEDFF_BFF8, 0xC74C_6516, 0x1438_3D8E, 0x2823_EF91))
  {
    hide RegsAre, WordIs;
    Words24(b);
    Rounds24(b);
    Go(b, 26, Regs(0xCDE8_037D, 0x1C2C_2838, 0xC5D5_3D8D, 0xA7A3_623F, 0x1438_3D8E, 0x2823_EF91, 0xAA47_C347, 0x49F5_114A), 0xB003_27C8, 0xE5BC_3909,
      Regs(0xB62E_C4BC, 0xCDE8_037D, 0x1C2C_2838, 0xC5D5_3D8D, 0xC74C_6516, 0x1438_3D8E, 0x2823_EF91, 0xAA47_C347));
    Go(b, 27, Regs(0xB62E_C4BC, 0xCDE8_037D, 0x1C2C_2838, 0xC5D5_3D8D, 0xC74C_6516, 0x1438_3D8E, 0x2823_EF91, 0xAA47_C347), 0xBF59_7FC7, 0x3266_3C5B,
      Regs(0x77D3_7528, 0xB62E_C4BC, 0xCDE8_037D, 0x1C2C_2838, 0xEDFF_BFF8, 0xC74C_6516, 0x1438_3D8E, 0x2823_EF91));
  }

  lemma Rounds28(b: Bytes64)
    requires b == Block()
    ensures RegsAre(b, 30, Regs(0xA006_0B30, 0x3634_82C9, 0x77D3_7528, 0xB62E_C4BC, 0xADE7_9437, 0x6112_A3B7, 0xEDFF_BFF8, 0xC74C_6516))
  {
    hide RegsAre, WordIs;
    Words24(b);
    Rounds26(b);
    Go(b, 28, Regs(0x77D3_7528, 0xB62E_C4BC, 0xCDE8_037D, 0x1C2C_2838, 0xEDFF_BFF8, 0xC74C_6516, 0x1438_3D8E, 0x2823_EF91), 0xC6E0_0BF3, 0x9D20_9D67,
      Regs(0x3634_82C9, 0x77D3_7528, 0xB62E_C4BC, 0xCDE8_037D, 0x6112_A3B7, 0xEDFF_BFF8, 0xC74C_6516, 0x1438_3D8E));
    Go(b, 29, Regs(0x3634_82C9, 0x77D3_7528, 0xB62E_C4BC, 0xCDE8_037D, 0x6112_A3B7, 0xEDFF_BFF8, 0xC74C_6516, 0x1438_3D8E), 0xD5A7_9147, 0xEC87_26CB,
      Regs(0xA006_0B30, 0x3634_82C9, 0x77D3_7528, 0xB62E_C4BC, 0xADE7_9437, 0x6112_A3B7, 0xEDFF_BFF8, 0xC74C_6516));
  }

  lemma Rounds30(b: Bytes64)
    requires b == Block()
    ensures RegsAre(b, 32, Regs(0x73B3_3BF5, 0xEA99_2A22, 0xA006_0B30, 0x3634_82C9, 0xBA59_1112, 0x0109_AB3A, 0xADE7_9437, 0x6112_A3B7))
  {
    hide RegsAre, WordIs;
    Words24(b);
    Rounds28(b);
    Go(b, 30, Regs(0xA006_0B30, 0x3634_82C9, 0x77D3_7528, 0xB62E_C4BC, 0xADE7_9437, 0x6112_A3B7, 0xEDFF_BFF8, 0xC74C_6516), 0x06CA_6351, 0x7021_38A4,
      Regs(0xEA99_2A22, 0xA006_0B30, 0x3634_82C9, 0x77D3_7528, 0x0109_AB3A, 0xADE7_9437, 0x6112_A3B7, 0xEDFF_BFF8));
    Go(b, 31, Regs(0xEA99_2A22, 0xA006_0B30, 0x3634_82C9, 0x77D3_7528, 0x0109_AB3A, 0xADE7_9437, 0x6112_A3B7, 0xEDFF_BFF8), 0x1429_2967, 0xD3B7_973B,
      Regs(0x73B3_3BF5, 0xEA99_2A22, 0xA006_0B30, 0x3634_82C9, 0xBA59_1112, 0x0109_AB3A, 0xADE7_9437, 0x6112_A3B7));
  }

  lemma Rounds32(b: Bytes64)
    requires b == Block()
    ensures RegsAre(b, 34, Regs(0xFE60_4DF5, 0x98E1_2507, 0x73B3_3BF5, 0xEA99_2A22, 0x5924_9DD3, 0x9CD9_F5F6, 0xBA59_1112, 0x0109_AB3A))
  {
    hide RegsAre, WordIs;
    Words32(b);
    Rounds30(b);
    Go(b, 32, Regs(0x73B3_3BF5, 0xEA99_2A22, 0xA006_0B30, 0x3634_82C9, 0xBA59_1112, 0x0109_AB3A, 0xADE7_9437, 0x6112_A3B7), 0x27B7_0A85, 0x93F5_997F,
      Regs(0x98E1_2507, 0x73B3_3BF5, 0xEA99_2A22, 0xA006_0B30, 0x9CD9_F5F6, 0xBA59_1112, 0x0109_AB3A, 0xADE7_9437));
    Go(b, 33, Regs(0x98E1_2507, 0x73B3_3BF5, 0xEA99_2A22, 0xA006_0B30, 0x9CD9_F5F6, 0xBA59_1112, 0x0109_AB3A, 0xADE7_9437), 0x2E1B_2138, 0x3B68_BA73,
      Regs(0xFE60_4DF5, 0x98E1_2507, 0x73B3_3BF5, 0xEA99_2A22, 0x5924_9DD3, 0x9CD9_F5F6, 0xBA59_1112, 0x0109_AB3A));
  }

  lemma Rounds34(b: Bytes64)
    requires b == Block()
    ensures RegsAre(b, 36, Regs(0x65A0_CFE4, 0xA9A7_738C, 0xFE60_4DF5, 0x98E1_2507, 0xF4B0_02D6, 0x085F_3833, 0x5924_9DD3, 0x9CD9_F5F6))
  {
    hide RegsAre, WordIs;
    Words32(b);
    Rounds32(b);
    Go(b, 34, Regs(0xFE60_4DF5, 0x98E1_2507, 0x73B3_3BF5, 0xEA99_2A22, 0x5924_9DD3, 0x9CD9_F5F6, 0xBA59_1112, 0x0109_AB3A), 0x4D2C_6DFC, 0xAFF4_FFC1,
      Regs(0xA9A7_738C, 0xFE60_4DF5, 0x98E1_2507, 0x73B3_3BF5, 0x085F_3833, 0x5924_9DD3, 0x9CD9_F5F6, 0xBA59_1112));
    Go(b, 35, Regs(0xA9A7_738C, 0xFE60_4DF5, 0x98E1_2507, 0x73B3_3BF5, 0x085F_3833, 0x5924_9DD3, 0x9CD9_F5F6, 0xBA59_1112), 0x5338_0D13, 0xF10A_5C62,
      Regs(0x65A0_CFE4, 0xA9A7_738C, 0xFE60_4DF5, 0x98E1_2507, 0xF4B0_02D6, 0x085F_3833, 0x5924_9DD3, 0x9CD9_F5F6));
  }

  lemma Rounds36(b: Bytes64)
    requires b == Block()
    ensures RegsAre(b, 38, Regs(0x34DF_1604, 0x41A6_5CB1, 0x65A0_CFE4, 0xA9A7_738C, 0xA507_A53D, 0x0772_A26B, 0xF4B0_02D6, 0x085F_3833))
  {
    hide RegsAre, WordIs;
    Words32(b);
    Rounds34(b);
    Go(b, 36, Regs(0x65A0_CFE4, 0xA9A7_738C, 0xFE60_4DF5, 0x98E1_2507, 0xF4B0_02D6, 0x085F_3833, 0x5924_9DD3, 0x9CD9_F5F6), 0x650A_7354, 0x0A8B_3996,
      Regs(0x41A6_5CB1, 0x65A0_CFE4, 0xA9A7_738C, 0xFE60_4DF5, 0x0772_A26B, 0xF4B0_02D6, 0x085F_3833, 0x5924_9DD3));
    Go(b, 37, Regs(0x41A6_5CB1, 0x65A0_CFE4, 0xA9A7_738C, 0xFE60_4DF5, 0x0772_A26B, 0xF4B0_02D6, 0x085F_3833, 0x5924_9DD3), 0x766A_0ABB, 0x72AF_830A,
      Regs(0x34DF_1604, 0x41A6_5CB1, 0x65A0_CFE4, 0xA9A7_738C, 0xA507_A53D, 0x0772_A26B, 0xF4B0_02D6, 0x085F_3833));
  }

  lemma Rounds38(b: Bytes64)
    requires b == Block()
    ensures RegsAre(b, 40, Regs(0x79EA_687A, 0x6DC5_7A8A, 0x34DF_1604, 0x41A6_5CB1, 0x1EFB_C0A0, 0xF078_1BC8, 0xA507_A53D, 0x0772_A26B))
  {
    hide RegsAre, WordIs;
    Words32(b);
    Rounds36(b);
    Go(b, 38, Regs(0x34DF_1604, 0x41A6_5CB1, 0x65A0_CFE4, 0xA9A7_738C, 0xA507_A53D, 0x0772_A26B, 0xF4B0_02D6, 0x085F_3833), 0x81C2_C92E, 0x9409_E33E,
      Regs(0x6DC5_7A8A, 0x34DF_1604, 0x41A6_5CB1, 0x65A0_CFE4, 0xF078_1BC8, 0xA507_A53D, 0x0772_A26B, 0xF4B0_02D6));
    Go(b, 39, Regs(0x6DC5_7A8A, 0x34DF_1604, 0x41A6_5CB1, 0x65A0_CFE4, 0xF078_1BC8, 0xA507_A53D, 0x0772_A26B, 0xF4B0_02D6), 0x9272_2C85, 0x2464_1522,
      Regs(0x79EA_687A, 0x6DC5_7A8A, 0x34DF_1604, 0x41A6_5CB1, 0x1EFB_C0A0, 0xF078_1BC8, 0xA507_A53D, 0x0772_A26B));
  }

  lemma Rounds40(b: Bytes64)
    requires b == Block()
    ensures RegsAre(b, 42, Regs(0xDF46_652F, 0xD667_0766, 0x79EA_687A, 0x6DC5_7A8A, 0x838B_2711, 0x2635_2D63, 0x1EFB_C0A0, 0xF078_1BC8))
  {
    hide RegsAre, WordIs;
    Words40(b);
    Rounds38(b);
    Go(b, 40, Regs(0x79EA_687A, 0x6DC5_7A8A, 0x34DF_1604, 0x41A6_5CB1, 0x1EFB_C0A0, 0xF078_1BC8, 0xA507_A53D, 0x0772_A26B), 0xA2BF_E8A1, 0x9F47_BF94,
      Regs(0xD667_0766, 0x79EA_687A, 0x6DC5_7A8A, 0x34DF_1604, 0x2635_2D63, 0x1EFB_C0A0, 0xF078_1BC8, 0xA507_A53D));
    Go(b, 41, Regs(0xD667_0766, 0x79EA_687A, 0x6DC5_7A8A, 0x34DF_1604, 0x2635_2D63, 0x1EFB_C0A0, 0xF078_1BC8, 0xA507_A53D), 0xA81A_664B, 0xF0A6_4F5A,
      Regs(0xDF46_652F, 0xD667_0766, 0x79EA_687A, 0x6DC5_7A8A, 0x838B_2711, 0x2635_2D63, 0x1EFB_C0A0, 0xF078_1BC8));
  }

  lemma Rounds42(b: Bytes64)
    requires b == Block()
    ensures RegsAre(b, 44, Regs(0x9D4B_AF93, 0x17AA_0DFE, 0xDF46_652F, 0xD667_0766, 0xFDA2_4C2E, 0xDECD_4715, 0x838B_2711, 0x2635_2D63))
  {
    hide RegsAre, WordIs;
    Words40(b);
    Rounds40(b);
    Go(b, 42, Regs(0xDF46_652F, 0xD667_0766, 0x79EA_687A, 0x6DC5_7A8A, 0x838B_2711, 0x2635_2D63, 0x1EFB_C0A0, 0xF078_1BC8), 0xC24B_8B70, 0x3E24_6A79,
      Regs(0x17AA_0DFE, 0xDF46_652F, 0xD667_0766, 0x79EA_687A, 0xDECD_4715, 0x838B_2711, 0x2635_2D63, 0x1EFB_C0A0));
    Go(b, 43, Regs(0x17AA_0DFE, 0xDF46_652F, 0xD667_0766, 0x79EA_687A, 0xDECD_4715, 0x838B_2711, 0x2635_2D63, 0x1EFB_C0A0), 0xC76C_51A3, 0x2733_3BA3,
      Regs(0x9D4B_AF93, 0x17AA_0DFE, 0xDF46_652F, 0xD667_0766, 0xFDA2_4C2E, 0xDECD_4715, 0x838B_2711, 0x2635_2D63));
  }

  lemma Rounds44(b: Bytes64)
    requires b == Block()
    ensures RegsAre(b, 46, Regs(0x72AB_4B91, 0x2662_8815, 0x9D4B_AF93, 0x17AA_0DFE, 0xB775_5DA1, 0xA80F_11F0, 0xFDA2_4C2E, 0xDECD_4715))
  {
    hide RegsAre, WordIs;
    Words40(b);
    Rounds42(b);
    Go(b, 44, Regs(0x9D4B_AF93, 0x17AA_0DFE, 0xDF46_652F, 0xD667_0766, 0xFDA2_4C2E, 0xDECD_4715, 0x838B_2711, 0x2635_2D63), 0xD192_E819, 0x0C47_63F2,
      Regs(0x2662_8815, 0x9D4B_AF93, 0x17AA_0DFE, 0xDF46_652F, 0xA80F_11F0, 0xFDA2_4C2E, 0xDECD_4715, 0x838B_2711));
    Go(b, 45, Regs(0x2662_8815, 0x9D4B_AF93, 0x17AA_0DFE, 0xDF46_652F, 0xA80F_11F0, 0xFDA2_4C2E, 0xDECD_4715, 0x838B_2711), 0xD699_0624, 0x840A_BF27,
      Regs(0x72AB_4B91, 0x2662_8815, 0x9D4B_AF93, 0x17AA_0DFE, 0xB775_5DA1, 0xA80F_11F0, 0xFDA2_4C2E, 0xDECD_4715));
  }

  lemma Rounds46(b: Bytes64)
    requires b == Block()
    ensures RegsAre(b, 48, Regs(0x4172_328D, 0xA14C_14B0, 0x72AB_4B91, 0x2662_8815, 0xFECF_0BC6, 0xD57B_94A9, 0xB775_5DA1, 0xA80F_11F0))
  {
    hide RegsAre, WordIs;
    Words40(b);
    Rounds44(b);
    Go(b, 46, Regs(0x72AB_4B91, 0x2662_8815, 0x9D4B_AF93, 0x17AA_0DFE, 0xB775_5DA1, 0xA80F_11F0, 0xFDA2_4C2E, 0xDECD_4715), 0xF40E_3585, 0x7A29_0D5D,
      Regs(0xA14C_14B0, 0x72AB_4B91, 0x2662_8815, 0x9D4B_AF93, 0xD57B_94A9, 0xB775_5DA1, 0xA80F_11F0, 0xFDA2_4C2E));
    Go(b, 47, Regs(0xA14C_14B0, 0x72AB_4B91, 0x2662_8815, 0x9D4B_AF93, 0xD57B_94A9, 0xB775_5DA1, 0xA80F_11F0, 0xFDA2_4C2E), 0x106A_A070, 0x065C_43DA,
      Regs(0x4172_328D, 0xA14C_14B0, 0x72AB_4B91, 0x2662_8815, 0xFECF_0BC6, 0xD57B_94A9, 0xB775_5DA1, 0xA80F_11F0));
  }

  lemma Rounds48(b: Bytes64)
    requires b == Block()
    ensures RegsAre(b, 50, Regs(0xF11B_FAA8, 0x0575_7CEB, 0x4172_328D, 0xA14C_14B0, 0x6E5C_390C, 0xBD71_4038, 0xFECF_0BC6, 0xD57B_94A9))
  {
    hide RegsAre, WordIs;
    Words48(b);
    Rounds46(b);
    Go(b, 48, Regs(0x4172_328D, 0xA14C_14B0, 0x72AB_4B91, 0x2662_8815, 0xFECF_0BC6, 0xD57B_94A9, 0xB775_5DA1, 0xA80F_11F0), 0x19A4_C116, 0xFB3E_89CB,
      Regs(0x0575_7CEB, 0x4172_328D, 0xA14C_14B0, 0x72AB_4B91, 0xBD71_4038, 0xFECF_0BC6, 0xD57B_94A9, 0xB775_5DA1));
    Go(b, 49, Regs(0x0575_7CEB, 0x4172_328D, 0xA14C_14B0, 0x72AB_4B91, 0xBD71_4038, 0xFECF_0BC6, 0xD57B_94A9, 0xB775_5DA1), 0x1E37_6C08, 0xCC76_17DB,
      Regs(0xF11B_FAA8, 0x0575_7CEB, 0x4172_328D, 0xA14C_14B0, 0x6E5C_390C, 0xBD71_4038, 0xFECF_0BC6, 0xD57B_94A9));
  }

  lemma Rounds50(b: Bytes64)
    requires b == Block()
    ensures RegsAre(b, 52, Regs(0x886E_7A22, 0x7A05_08A1, 0xF11B_FAA8, 0x0575_7CEB, 0x4923_1C1E, 0x52F1_CCF7, 0x6E5C_390C, 0xBD71_4038))
  {
    hide RegsAre, WordIs;
    Words48(b);
    Rounds48(b);
    Go(b, 50, Regs(0xF11B_FAA8, 0x0575_7CEB, 0x4172_328D, 0xA14C_14B0, 0x6E5C_390C, 0xBD71_4038, 0xFECF_0BC6, 0xD57B_94A9), 0x2748_774C, 0xB9E6_6C34,
      Regs(0x7A05_08A1, 0xF11B_FAA8, 0x0575_7CEB, 0x4172_328D, 0x52F1_CCF7, 0x6E5C_390C, 0xBD71_4038, 0xFECF_0BC6));
    Go(b, 51, Regs(0x7A05_08A1, 0xF11B_FAA8, 0x0575_7CEB, 0x4172_328D, 0x52F1_CCF7, 0x6E5C_390C, 0xBD71_4038, 0xFECF_0BC6), 0x34B0_BCB5, 0xA999_3667,
      Regs(0x886E_7A22, 0x7A05_08A1, 0xF11B_FAA8, 0x0575_7CEB, 0x4923_1C1E, 0x52F1_CCF7, 0x6E5C_390C, 0xBD71_4038));
  }

  lemma Rounds52(b: Bytes64)
    requires b == Block()
    ensures RegsAre(b, 54, Regs(0xF570_2FDB, 0x101F_D28F, 0x886E_7A22, 0x7A05_08A1, 0x9F47_87C3, 0x529E_7D00, 0x4923_1C1E, 0x52F1_CCF7))
  {
    hide RegsAre, WordIs;
    Words48(b);
    Rounds50(b);
    Go(b, 52, Regs(0x886E_7A22, 0x7A05_08A1, 0xF11B_FAA8, 0x0575_7CEB, 0x4923_1C1E, 0x52F1_CCF7, 0x6E5C_390C, 0xBD71_4038), 0x391C_0CB3, 0x84BA_DEDD,
      Regs(0x101F_D28F, 0x886E_7A22, 0x7A05_08A1, 0xF11B_FAA8, 0x529E_7D00, 0x4923_1C1E, 0x52F1_CCF7, 0x6E5C_390C));
    Go(b, 53, Regs(0x101F_D28F, 0x886E_7A22, 0x7A05_08A1, 0xF11B_FAA8, 0x529E_7D00, 0x4923_1C1E, 0x52F1_CCF7, 0x6E5C_390C), 0x4ED8_AA4A, 0xC214_62BC,
      Regs(0xF570_2FDB, 0x101F_D28F, 0x886E_7A22, 0x7A05_08A1, 0x9F47_87C3, 0x529E_7D00, 0x4923_1C1E, 0x52F1_CCF7));
  }

  lemma Rounds54(b: Bytes64)
    requires b == Block()
    ensures RegsAre(b, 56, Regs(0x38CC_9913, 0x3EC4_5CDB, 0xF570_2FDB, 0x101F_D28F, 0x54CB_266B, 0xE50E_1B4F, 0x9F47_87C3, 0x529E_7D00))
  {
    hide RegsAre, WordIs;
    Words48(b);
    Rounds52(b);
    Go(b, 54, Regs(0xF570_2FDB, 0x101F_D28F, 0x886E_7A22, 0x7A05_08A1, 0x9F47_87C3, 0x529E_7D00, 0x4923_1C1E, 0x52F1_CCF7), 0x5B9C_CA4F, 0x1487_472C,
      Regs(0x3EC4_5CDB, 0xF570_2FDB, 0x101F_D28F, 0x886E_7A22, 0xE50E_1B4F, 0x9F47_87C3, 0x529E_7D00, 0x4923_1C1E));
    Go(b, 55, Regs(0x3EC4_5CDB, 0xF570_2FDB, 0x101F_D28F, 0x886E_7A22, 0xE50E_1B4F, 0x9F47_87C3, 0x529E_7D00, 0x4923_1C1E), 0x682E_6FF3, 0xB20F_7A99,
      Regs(0x38CC_9913, 0x3EC4_5CDB, 0xF570_2FDB, 0x101F_D28F, 0x54CB_266B, 0xE50E_1B4F, 0x9F47_87C3, 0x529E_7D00));
  }

  lemma Rounds56(b: Bytes64)
    requires b == Block()
    ensures RegsAre(b, 58, Regs(0xC062_D46F, 0xFCD1_887B, 0x38CC_9913, 0x3EC4_5CDB, 0x7E44_008E, 0x9B5E_906C, 0x54CB_266B, 0xE50E_1B4F))
  {
    hide RegsAre, WordIs;
    Words56(b);
    Rounds54(b);
    Go(b, 56, Regs(0x38CC_9913, 0x3EC4_5CDB, 0xF570_2FDB, 0x101F_D28F, 0x54CB_266B, 0xE50E_1B4F, 0x9F47_87C3, 0x529E_7D00), 0x748F_82EE, 0xEF57_B9CD,
      Regs(0xFCD1_887B, 0x38CC_9913, 0x3EC4_5CDB, 0xF570_2FDB, 0x9B5E_906C, 0x54CB_266B, 0xE50E_1B4F, 0x9F47_87C3));
    Go(b, 57, Regs(0xFCD1_887B, 0x38CC_9913, 0x3EC4_5CDB, 0xF570_2FDB, 0x9B5E_906C, 0x54CB_266B, 0xE50E_1B4F, 0x9F47_87C3), 0x78A5_636F, 0xEBE6_B238,
      Regs(0xC062_D46F, 0xFCD1_887B, 0x38CC_9913, 0x3EC4_5CDB, 0x7E44_008E, 0x9B5E_906C, 0x54CB_266B, 0xE50E_1B4F));
  }

  lemma Rounds58(b: Bytes64)
    requires b == Block()
    ensures RegsAre(b, 60, Regs(0xB6AE_8FFF, 0xFFB7_0472, 0xC062_D46F, 0xFCD1_887B, 0xB21B_AD3D, 0x6D83_BFC6, 0x7E44_008E, 0x9B5E_906C))
  {
    hide RegsAre, WordIs;
    Words56(b);
    Rounds56(b);
    Go(b, 58, Regs(0xC062_D46F, 0xFCD1_887B, 0x38CC_9913, 0x3EC4_5CDB, 0x7E44_008E, 0x9B5E_906C, 0x54CB_266B, 0xE50E_1B4F), 0x84C8_7814, 0x9FE3_095E,
      Regs(0xFFB7_0472, 0xC062_D46F, 0xFCD1_887B, 0x38CC_9913, 0x6D83_BFC6, 0x7E44_008E, 0x9B5E_906C, 0x54CB_266B));
    Go(b, 59, Regs(0xFFB7_0472, 0xC062_D46F, 0xFCD1_887B, 0x38CC_9913, 0x6D83_BFC6, 0x7E44_008E, 0x9B5E_906C, 0x54CB_266B), 0x8CC7_0208, 0x78BC_8D4B,
      Regs(0xB6AE_8FFF, 0xFFB7_0472, 0xC062_D46F, 0xFCD1_887B, 0xB21B_AD3D, 0x6D83_BFC6, 0x7E44_008E, 0x9B5E_906C));
  }

  lemma Rounds60(b: Bytes64)
    requires b == Block()
    ensures RegsAre(b, 62, Regs(0x04D2_4D6C, 0xB85E_2CE9, 0xB6AE_8FFF, 0xFFB7_0472, 0x948D_25B6, 0x961F_4894, 0xB21B_AD3D, 0x6D83_BFC6))
  {
    hide RegsAre, WordIs;
    Words56(b);
    Rounds58(b);
    Go(b, 60, Regs(0xB6AE_8FFF, 0xFFB7_0472, 0xC062_D46F, 0xFCD1_887B, 0xB21B_AD3D, 0x6D83_BFC6, 0x7E44_008E, 0x9B5E_906C), 0x90BE_FFFA, 0xA43F_CF15,
      Regs(0xB85E_2CE9, 0xB6AE_8FFF, 0xFFB7_0472, 0xC062_D46F, 0x961F_4894, 0xB21B_AD3D, 0x6D83_BFC6, 0x7E44_008E));
    Go(b, 61, Regs(0xB85E_2CE9, 0xB6AE_8FFF, 0xFFB7_0472, 0xC062_D46F, 0x961F_4894, 0xB21B_AD3D, 0x6D83_BFC6, 0x7E44_008E), 0xA450_6CEB, 0x668B_2FF8,
      Regs(0x04D2_4D6C, 0xB85E_2CE9, 0xB6AE_8FFF, 0xFFB7_0472, 0x948D_25B6, 0x961F_4894, 0xB21B_AD3D, 0x6D83_BFC6));
  }

  lemma Rounds62(b: Bytes64)
    requires b == Block()
    ensures RegsAre(b, 64, Regs(0x506E_3058, 0xD39A_2165, 0x04D2_4D6C, 0xB85E_2CE9, 0x5EF5_0F24, 0xFB12_1210, 0x948D_25B6, 0x961F_4894))
  {
    hide RegsAre, WordIs;
    Words56(b);
    Rounds60(b);
    Go(b, 62, Regs(0x04D2_4D6C, 0xB85E_2CE9, 0xB6AE_8FFF, 0xFFB7_0472, 0x948D_25B6, 0x961F_4894, 0xB21B_AD3D, 0x6D83_BFC6), 0xBEF9_A3F7, 0xEEAB_A2CC,
      Regs(0xD39A_2165, 0x04D2_4D6C, 0xB85E_2CE9, 0xB6AE_8FFF, 0xFB12_1210, 0x948D_25B6, 0x961F_4894, 0xB21B_AD3D));
    Go(b, 63, Regs(0xD39A_2165, 0x04D2_4D6C, 0xB85E_2CE9, 0xB6AE_8FFF, 0xFB12_1210, 0x948D_25B6, 0x961F_4894, 0xB21B_AD3D), 0xC671_78F2, 0x12B1_EDEB,
      Regs(0x506E_3058, 0xD39A_2165, 0x04D2_4D6C, 0xB85E_2CE9, 0x5EF5_0F24, 0xFB12_1210, 0x948D_25B6, 0x961F_4894));
  }

  lemma NoRoundsYet(b: Bytes64)
    requires b == Block()
    ensures RegsAre(b, 0, Regs(0x6A09_E667, 0xBB67_AE85, 0x3C6E_F372, 0xA54F_F53A, 0x510E_527F, 0x9B05_688C, 0x1F83_D9AB, 0x5BE0_CD19))
  {}

  // ----- The digest -----

  /** The hash value after the block */
  function Final(): Regs {
    Regs(0xBA78_16BF, 0x8F01_CFEA, 0x4141_40DE, 0x5DAE_2223, 0xB003_61A3, 0x9617_7A9C, 0xB410_FF61, 0xF200_15AD)
  }

  lemma CompressIs()
    ensures Compress(H0, Block()) == Final()
  {
    hide Block, Rounds;
    Rounds62(Block());
  }

  lemma AbsorbOne(s: Regs, b: Bytes64)
    ensures Absorb(s, b) == Compress(s, b)
  {
    hide Compress;
    assert b[..64] == b && b[64..] == [];
  }

  lemma DigestIs()
    ensures DigestOf(Final()) == [0xBA, 0x78, 0x16, 0xBF, 0x8F, 0x01, 0xCF, 0xEA, 0x41, 0x41, 0x40, 0xDE, 0x5D, 0xAE, 0x22, 0x23,
                                  0xB0, 0x03, 0x61, 0xA3, 0x96, 0x17, 0x7A, 0x9C, 0xB4, 0x10, 0xFF, 0x61, 0xF2, 0x00, 0x15, 0xAD]
  {}

  /** The digest of "abc" is that of the standard. */
  lemma DigestOfAbc()
    ensures Sha256(Abc()) == [0xBA, 0x78, 0x16, 0xBF, 0x8F, 0x01, 0xCF, 0xEA, 0x41, 0x41, 0x40, 0xDE, 0x5D, 0xAE, 0x22, 0x23,
                              0xB0, 0x03, 0x61, 0xA3, 0x96, 0x17, 0x7A, 0x9C, 0xB4, 0x10, 0xFF, 0x61, 0xF2, 0x00, 0x15, 0xAD]
  {
    hide Block, Padding, Compress, DigestOf, Final;
    PaddedIs();
    CompressIs();
    AbsorbOne(H0, Block());
    DigestIs();
  }
}
