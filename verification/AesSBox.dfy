/** The table of the S-box (figure 7 of FIPS-197), entry by entry. */
module AesSBox {
  import opened Field
  import opened AesSpec

  /** An entry, checked by multiplying with the inverse that it came from. */
  lemma EntryIs(b: bv8, y: bv8)
    requires Mul(b, InverseAffine(y)) == 1
    ensures SBox(b) == y
  {
    hide Mul;
    hide Affine;
    hide InverseAffine;
    InverseIs(b, InverseAffine(y));
    AffineUndone(y);
  }

  lemma ZeroIs()
    ensures SBox(0x00) == 0x63
  {
  }

  /** The row of the bytes that begin with 0. */
  ghost predicate Row0() {
    SBox(0x00) == 0x63 && SBox(0x01) == 0x7C && SBox(0x02) == 0x77 && SBox(0x03) == 0x7B &&
    SBox(0x04) == 0xF2 && SBox(0x05) == 0x6B && SBox(0x06) == 0x6F && SBox(0x07) == 0xC5 &&
    SBox(0x08) == 0x30 && SBox(0x09) == 0x01 && SBox(0x0A) == 0x67 && SBox(0x0B) == 0x2B &&
    SBox(0x0C) == 0xFE && SBox(0x0D) == 0xD7 && SBox(0x0E) == 0xAB && SBox(0x0F) == 0x76
  }

  /** The row of the bytes that begin with 1. */
  ghost predicate Row1() {
    SBox(0x10) == 0xCA && SBox(0x11) == 0x82 && SBox(0x12) == 0xC9 && SBox(0x13) == 0x7D &&
    SBox(0x14) == 0xFA && SBox(0x15) == 0x59 && SBox(0x16) == 0x47 && SBox(0x17) == 0xF0 &&
    SBox(0x18) == 0xAD && SBox(0x19) == 0xD4 && SBox(0x1A) == 0xA2 && SBox(0x1B) == 0xAF &&
    SBox(0x1C) == 0x9C && SBox(0x1D) == 0xA4 && SBox(0x1E) == 0x72 && SBox(0x1F) == 0xC0
  }

  /** The row of the bytes that begin with 2. */
  ghost predicate Row2() {
    SBox(0x20) == 0xB7 && SBox(0x21) == 0xFD && SBox(0x22) == 0x93 && SBox(0x23) == 0x26 &&
    SBox(0x24) == 0x36 && SBox(0x25) == 0x3F && SBox(0x26) == 0xF7 && SBox(0x27) == 0xCC &&
    SBox(0x28) == 0x34 && SBox(0x29) == 0xA5 && SBox(0x2A) == 0xE5 && SBox(0x2B) == 0xF1 &&
    SBox(0x2C) == 0x71 && SBox(0x2D) == 0xD8 && SBox(0x2E) == 0x31 && SBox(0x2F) == 0x15
  }

  /** The row of the bytes that begin with 3. */
  ghost predicate Row3() {
    SBox(0x30) == 0x04 && SBox(0x31) == 0xC7 && SBox(0x32) == 0x23 && SBox(0x33) == 0xC3 &&
    SBox(0x34) == 0x18 && SBox(0x35) == 0x96 && SBox(0x36) == 0x05 && SBox(0x37) == 0x9A &&
    SBox(0x38) == 0x07 && SBox(0x39) == 0x12 && SBox(0x3A) == 0x80 && SBox(0x3B) == 0xE2 &&
    SBox(0x3C) == 0xEB && SBox(0x3D) == 0x27 && SBox(0x3E) == 0xB2 && SBox(0x3F) == 0x75
  }

  /** The row of the bytes that begin with 4. */
  ghost predicate Row4() {
    SBox(0x40) == 0x09 && SBox(0x41) == 0x83 && SBox(0x42) == 0x2C && SBox(0x43) == 0x1A &&
    SBox(0x44) == 0x1B && SBox(0x45) == 0x6E && SBox(0x46) == 0x5A && SBox(0x47) == 0xA0 &&
    SBox(0x48) == 0x52 && SBox(0x49) == 0x3B && SBox(0x4A) == 0xD6 && SBox(0x4B) == 0xB3 &&
    SBox(0x4C) == 0x29 && SBox(0x4D) == 0xE3 && SBox(0x4E) == 0x2F && SBox(0x4F) == 0x84
  }

  /** The row of the bytes that begin with 5. */
  ghost predicate Row5() {
    SBox(0x50) == 0x53 && SBox(0x51) == 0xD1 && SBox(0x52) == 0x00 && SBox(0x53) == 0xED &&
    SBox(0x54) == 0x20 && SBox(0x55) == 0xFC && SBox(0x56) == 0xB1 && SBox(0x57) == 0x5B &&
    SBox(0x58) == 0x6A && SBox(0x59) == 0xCB && SBox(0x5A) == 0xBE && SBox(0x5B) == 0x39 &&
    SBox(0x5C) == 0x4A && SBox(0x5D) == 0x4C && SBox(0x5E) == 0x58 && SBox(0x5F) == 0xCF
  }

  /** The row of the bytes that begin with 6. */
  ghost predicate Row6() {
    SBox(0x60) == 0xD0 && SBox(0x61) == 0xEF && SBox(0x62) == 0xAA && SBox(0x63) == 0xFB &&
    SBox(0x64) == 0x43 && SBox(0x65) == 0x4D && SBox(0x66) == 0x33 && SBox(0x67) == 0x85 &&
    SBox(0x68) == 0x45 && SBox(0x69) == 0xF9 && SBox(0x6A) == 0x02 && SBox(0x6B) == 0x7F &&
    SBox(0x6C) == 0x50 && SBox(0x6D) == 0x3C && SBox(0x6E) == 0x9F && SBox(0x6F) == 0xA8
  }

  /** The row of the bytes that begin with 7. */
  ghost predicate Row7() {
    SBox(0x70) == 0x51 && SBox(0x71) == 0xA3 && SBox(0x72) == 0x40 && SBox(0x73) == 0x8F &&
    SBox(0x74) == 0x92 && SBox(0x75) == 0x9D && SBox(0x76) == 0x38 && SBox(0x77) == 0xF5 &&
    SBox(0x78) == 0xBC && SBox(0x79) == 0xB6 && SBox(0x7A) == 0xDA && SBox(0x7B) == 0x21 &&
    SBox(0x7C) == 0x10 && SBox(0x7D) == 0xFF && SBox(0x7E) == 0xF3 && SBox(0x7F) == 0xD2
  }

  /** The row of the bytes that begin with 8. */
  ghost predicate Row8() {
    SBox(0x80) == 0xCD && SBox(0x81) == 0x0C && SBox(0x82) == 0x13 && SBox(0x83) == 0xEC &&
    SBox(0x84) == 0x5F && SBox(0x85) == 0x97 && SBox(0x86) == 0x44 && SBox(0x87) == 0x17 &&
    SBox(0x88) == 0xC4 && SBox(0x89) == 0xA7 && SBox(0x8A) == 0x7E && SBox(0x8B) == 0x3D &&
    SBox(0x8C) == 0x64 && SBox(0x8D) == 0x5D && SBox(0x8E) == 0x19 && SBox(0x8F) == 0x73
  }

  /** The row of the bytes that begin with 9. */
  ghost predicate Row9() {
    SBox(0x90) == 0x60 && SBox(0x91) == 0x81 && SBox(0x92) == 0x4F && SBox(0x93) == 0xDC &&
    SBox(0x94) == 0x22 && SBox(0x95) == 0x2A && SBox(0x96) == 0x90 && SBox(0x97) == 0x88 &&
    SBox(0x98) == 0x46 && SBox(0x99) == 0xEE && SBox(0x9A) == 0xB8 && SBox(0x9B) == 0x14 &&
    SBox(0x9C) == 0xDE && SBox(0x9D) == 0x5E && SBox(0x9E) == 0x0B && SBox(0x9F) == 0xDB
  }

  /** The row of the bytes that begin with A. */
  ghost predicate RowA() {
    SBox(0xA0) == 0xE0 && SBox(0xA1) == 0x32 && SBox(0xA2) == 0x3A && SBox(0xA3) == 0x0A &&
    SBox(0xA4) == 0x49 && SBox(0xA5) == 0x06 && SBox(0xA6) == 0x24 && SBox(0xA7) == 0x5C &&
    SBox(0xA8) == 0xC2 && SBox(0xA9) == 0xD3 && SBox(0xAA) == 0xAC && SBox(0xAB) == 0x62 &&
    SBox(0xAC) == 0x91 && SBox(0xAD) == 0x95 && SBox(0xAE) == 0xE4 && SBox(0xAF) == 0x79
  }

  /** The row of the bytes that begin with B. */
  ghost predicate RowB() {
    SBox(0xB0) == 0xE7 && SBox(0xB1) == 0xC8 && SBox(0xB2) == 0x37 && SBox(0xB3) == 0x6D &&
    SBox(0xB4) == 0x8D && SBox(0xB5) == 0xD5 && SBox(0xB6) == 0x4E && SBox(0xB7) == 0xA9 &&
    SBox(0xB8) == 0x6C && SBox(0xB9) == 0x56 && SBox(0xBA) == 0xF4 && SBox(0xBB) == 0xEA &&
    SBox(0xBC) == 0x65 && SBox(0xBD) == 0x7A && SBox(0xBE) == 0xAE && SBox(0xBF) == 0x08
  }

  /** The row of the bytes that begin with C. */
  ghost predicate RowC() {
    SBox(0xC0) == 0xBA && SBox(0xC1) == 0x78 && SBox(0xC2) == 0x25 && SBox(0xC3) == 0x2E &&
    SBox(0xC4) == 0x1C && SBox(0xC5) == 0xA6 && SBox(0xC6) == 0xB4 && SBox(0xC7) == 0xC6 &&
    SBox(0xC8) == 0xE8 && SBox(0xC9) == 0xDD && SBox(0xCA) == 0x74 && SBox(0xCB) == 0x1F &&
    SBox(0xCC) == 0x4B && SBox(0xCD) == 0xBD && SBox(0xCE) == 0x8B && SBox(0xCF) == 0x8A
  }

  /** The row of the bytes that begin with D. */
  ghost predicate RowD() {
    SBox(0xD0) == 0x70 && SBox(0xD1) == 0x3E && SBox(0xD2) == 0xB5 && SBox(0xD3) == 0x66 &&
    SBox(0xD4) == 0x48 && SBox(0xD5) == 0x03 && SBox(0xD6) == 0xF6 && SBox(0xD7) == 0x0E &&
    SBox(0xD8) == 0x61 && SBox(0xD9) == 0x35 && SBox(0xDA) == 0x57 && SBox(0xDB) == 0xB9 &&
    SBox(0xDC) == 0x86 && SBox(0xDD) == 0xC1 && SBox(0xDE) == 0x1D && SBox(0xDF) == 0x9E
  }

  /** The row of the bytes that begin with E. */
  ghost predicate RowE() {
    SBox(0xE0) == 0xE1 && SBox(0xE1) == 0xF8 && SBox(0xE2) == 0x98 && SBox(0xE3) == 0x11 &&
    SBox(0xE4) == 0x69 && SBox(0xE5) == 0xD9 && SBox(0xE6) == 0x8E && SBox(0xE7) == 0x94 &&
    SBox(0xE8) == 0x9B && SBox(0xE9) == 0x1E && SBox(0xEA) == 0x87 && SBox(0xEB) == 0xE9 &&
    SBox(0xEC) == 0xCE && SBox(0xED) == 0x55 && SBox(0xEE) == 0x28 && SBox(0xEF) == 0xDF
  }

  /** The row of the bytes that begin with F. */
  ghost predicate RowF() {
    SBox(0xF0) == 0x8C && SBox(0xF1) == 0xA1 && SBox(0xF2) == 0x89 && SBox(0xF3) == 0x0D &&
    SBox(0xF4) == 0xBF && SBox(0xF5) == 0xE6 && SBox(0xF6) == 0x42 && SBox(0xF7) == 0x68 &&
    SBox(0xF8) == 0x41 && SBox(0xF9) == 0x99 && SBox(0xFA) == 0x2D && SBox(0xFB) == 0x0F &&
    SBox(0xFC) == 0xB0 && SBox(0xFD) == 0x54 && SBox(0xFE) == 0xBB && SBox(0xFF) == 0x16
  }

  ghost predicate Table() {
    Row0() && Row1() && Row2() && Row3() && Row4() && Row5() && Row6() && Row7() &&
    Row8() && Row9() && RowA() && RowB() && RowC() && RowD() && RowE() && RowF()
  }

  lemma Row0Holds()
    ensures Row0()
  {
    hide SBox;
    ZeroIs(); EntryIs(0x01, 0x7C); EntryIs(0x02, 0x77); EntryIs(0x03, 0x7B);
    EntryIs(0x04, 0xF2); EntryIs(0x05, 0x6B); EntryIs(0x06, 0x6F); EntryIs(0x07, 0xC5);
    EntryIs(0x08, 0x30); EntryIs(0x09, 0x01); EntryIs(0x0A, 0x67); EntryIs(0x0B, 0x2B);
    EntryIs(0x0C, 0xFE); EntryIs(0x0D, 0xD7); EntryIs(0x0E, 0xAB); EntryIs(0x0F, 0x76);
  }

  lemma Row1Holds()
    ensures Row1()
  {
    hide SBox;
    EntryIs(0x10, 0xCA); EntryIs(0x11, 0x82); EntryIs(0x12, 0xC9); EntryIs(0x13, 0x7D);
    EntryIs(0x14, 0xFA); EntryIs(0x15, 0x59); EntryIs(0x16, 0x47); EntryIs(0x17, 0xF0);
    EntryIs(0x18, 0xAD); EntryIs(0x19, 0xD4); EntryIs(0x1A, 0xA2); EntryIs(0x1B, 0xAF);
    EntryIs(0x1C, 0x9C); EntryIs(0x1D, 0xA4); EntryIs(0x1E, 0x72); EntryIs(0x1F, 0xC0);
  }

  lemma Row2Holds()
    ensures Row2()
  {
    hide SBox;
    EntryIs(0x20, 0xB7); EntryIs(0x21, 0xFD); EntryIs(0x22, 0x93); EntryIs(0x23, 0x26);
    EntryIs(0x24, 0x36); EntryIs(0x25, 0x3F); EntryIs(0x26, 0xF7); EntryIs(0x27, 0xCC);
    EntryIs(0x28, 0x34); EntryIs(0x29, 0xA5); EntryIs(0x2A, 0xE5); EntryIs(0x2B, 0xF1);
    EntryIs(0x2C, 0x71); EntryIs(0x2D, 0xD8); EntryIs(0x2E, 0x31); EntryIs(0x2F, 0x15);
  }

  lemma Row3Holds()
    ensures Row3()
  {
    hide SBox;
    EntryIs(0x30, 0x04); EntryIs(0x31, 0xC7); EntryIs(0x32, 0x23); EntryIs(0x33, 0xC3);
    EntryIs(0x34, 0x18); EntryIs(0x35, 0x96); EntryIs(0x36, 0x05); EntryIs(0x37, 0x9A);
    EntryIs(0x38, 0x07); EntryIs(0x39, 0x12); EntryIs(0x3A, 0x80); EntryIs(0x3B, 0xE2);
    EntryIs(0x3C, 0xEB); EntryIs(0x3D, 0x27); EntryIs(0x3E, 0xB2); EntryIs(0x3F, 0x75);
  }

  lemma Row4Holds()
    ensures Row4()
  {
    hide SBox;
    EntryIs(0x40, 0x09); EntryIs(0x41, 0x83); EntryIs(0x42, 0x2C); EntryIs(0x43, 0x1A);
    EntryIs(0x44, 0x1B); EntryIs(0x45, 0x6E); EntryIs(0x46, 0x5A); EntryIs(0x47, 0xA0);
    EntryIs(0x48, 0x52); EntryIs(0x49, 0x3B); EntryIs(0x4A, 0xD6); EntryIs(0x4B, 0xB3);
    EntryIs(0x4C, 0x29); EntryIs(0x4D, 0xE3); EntryIs(0x4E, 0x2F); EntryIs(0x4F, 0x84);
  }

  lemma Row5Holds()
    ensures Row5()
  {
    hide SBox;
    EntryIs(0x50, 0x53); EntryIs(0x51, 0xD1); EntryIs(0x52, 0x00); EntryIs(0x53, 0xED);
    EntryIs(0x54, 0x20); EntryIs(0x55, 0xFC); EntryIs(0x56, 0xB1); EntryIs(0x57, 0x5B);
    EntryIs(0x58, 0x6A); EntryIs(0x59, 0xCB); EntryIs(0x5A, 0xBE); EntryIs(0x5B, 0x39);
    EntryIs(0x5C, 0x4A); EntryIs(0x5D, 0x4C); EntryIs(0x5E, 0x58); EntryIs(0x5F, 0xCF);
  }

  lemma Row6Holds()
    ensures Row6()
  {
    hide SBox;
    EntryIs(0x60, 0xD0); EntryIs(0x61, 0xEF); EntryIs(0x62, 0xAA); EntryIs(0x63, 0xFB);
    EntryIs(0x64, 0x43); EntryIs(0x65, 0x4D); EntryIs(0x66, 0x33); EntryIs(0x67, 0x85);
    EntryIs(0x68, 0x45); EntryIs(0x69, 0xF9); EntryIs(0x6A, 0x02); EntryIs(0x6B, 0x7F);
    EntryIs(0x6C, 0x50); EntryIs(0x6D, 0x3C); EntryIs(0x6E, 0x9F); EntryIs(0x6F, 0xA8);
  }

  lemma Row7Holds()
    ensures Row7()
  {
    hide SBox;
    EntryIs(0x70, 0x51); EntryIs(0x71, 0xA3); EntryIs(0x72, 0x40); EntryIs(0x73, 0x8F);
    EntryIs(0x74, 0x92); EntryIs(0x75, 0x9D); EntryIs(0x76, 0x38); EntryIs(0x77, 0xF5);
    EntryIs(0x78, 0xBC); EntryIs(0x79, 0xB6); EntryIs(0x7A, 0xDA); EntryIs(0x7B, 0x21);
    EntryIs(0x7C, 0x10); EntryIs(0x7D, 0xFF); EntryIs(0x7E, 0xF3); EntryIs(0x7F, 0xD2);
  }

  lemma Row8Holds()
    ensures Row8()
  {
    hide SBox;
    EntryIs(0x80, 0xCD); EntryIs(0x81, 0x0C); EntryIs(0x82, 0x13); EntryIs(0x83, 0xEC);
    EntryIs(0x84, 0x5F); EntryIs(0x85, 0x97); EntryIs(0x86, 0x44); EntryIs(0x87, 0x17);
    EntryIs(0x88, 0xC4); EntryIs(0x89, 0xA7); EntryIs(0x8A, 0x7E); EntryIs(0x8B, 0x3D);
    EntryIs(0x8C, 0x64); EntryIs(0x8D, 0x5D); EntryIs(0x8E, 0x19); EntryIs(0x8F, 0x73);
  }

  lemma Row9Holds()
    ensures Row9()
  {
    hide SBox;
    EntryIs(0x90, 0x60); EntryIs(0x91, 0x81); EntryIs(0x92, 0x4F); EntryIs(0x93, 0xDC);
    EntryIs(0x94, 0x22); EntryIs(0x95, 0x2A); EntryIs(0x96, 0x90); EntryIs(0x97, 0x88);
    EntryIs(0x98, 0x46); EntryIs(0x99, 0xEE); EntryIs(0x9A, 0xB8); EntryIs(0x9B, 0x14);
    EntryIs(0x9C, 0xDE); EntryIs(0x9D, 0x5E); EntryIs(0x9E, 0x0B); EntryIs(0x9F, 0xDB);
  }

  lemma RowAHolds()
    ensures RowA()
  {
    hide SBox;
    EntryIs(0xA0, 0xE0); EntryIs(0xA1, 0x32); EntryIs(0xA2, 0x3A); EntryIs(0xA3, 0x0A);
    EntryIs(0xA4, 0x49); EntryIs(0xA5, 0x06); EntryIs(0xA6, 0x24); EntryIs(0xA7, 0x5C);
    EntryIs(0xA8, 0xC2); EntryIs(0xA9, 0xD3); EntryIs(0xAA, 0xAC); EntryIs(0xAB, 0x62);
    EntryIs(0xAC, 0x91); EntryIs(0xAD, 0x95); EntryIs(0xAE, 0xE4); EntryIs(0xAF, 0x79);
  }

  lemma RowBHolds()
    ensures RowB()
  {
    hide SBox;
    EntryIs(0xB0, 0xE7); EntryIs(0xB1, 0xC8); EntryIs(0xB2, 0x37); EntryIs(0xB3, 0x6D);
    EntryIs(0xB4, 0x8D); EntryIs(0xB5, 0xD5); EntryIs(0xB6, 0x4E); EntryIs(0xB7, 0xA9);
    EntryIs(0xB8, 0x6C); EntryIs(0xB9, 0x56); EntryIs(0xBA, 0xF4); EntryIs(0xBB, 0xEA);
    EntryIs(0xBC, 0x65); EntryIs(0xBD, 0x7A); EntryIs(0xBE, 0xAE); EntryIs(0xBF, 0x08);
  }

  lemma RowCHolds()
    ensures RowC()
  {
    hide SBox;
    EntryIs(0xC0, 0xBA); EntryIs(0xC1, 0x78); EntryIs(0xC2, 0x25); EntryIs(0xC3, 0x2E);
    EntryIs(0xC4, 0x1C); EntryIs(0xC5, 0xA6); EntryIs(0xC6, 0xB4); EntryIs(0xC7, 0xC6);
    EntryIs(0xC8, 0xE8); EntryIs(0xC9, 0xDD); EntryIs(0xCA, 0x74); EntryIs(0xCB, 0x1F);
    EntryIs(0xCC, 0x4B); EntryIs(0xCD, 0xBD); EntryIs(0xCE, 0x8B); EntryIs(0xCF, 0x8A);
  }

  lemma RowDHolds()
    ensures RowD()
  {
    hide SBox;
    EntryIs(0xD0, 0x70); EntryIs(0xD1, 0x3E); EntryIs(0xD2, 0xB5); EntryIs(0xD3, 0x66);
    EntryIs(0xD4, 0x48); EntryIs(0xD5, 0x03); EntryIs(0xD6, 0xF6); EntryIs(0xD7, 0x0E);
    EntryIs(0xD8, 0x61); EntryIs(0xD9, 0x35); EntryIs(0xDA, 0x57); EntryIs(0xDB, 0xB9);
    EntryIs(0xDC, 0x86); EntryIs(0xDD, 0xC1); EntryIs(0xDE, 0x1D); EntryIs(0xDF, 0x9E);
  }

  lemma RowEHolds()
    ensures RowE()
  {
    hide SBox;
    EntryIs(0xE0, 0xE1); EntryIs(0xE1, 0xF8); EntryIs(0xE2, 0x98); EntryIs(0xE3, 0x11);
    EntryIs(0xE4, 0x69); EntryIs(0xE5, 0xD9); EntryIs(0xE6, 0x8E); EntryIs(0xE7, 0x94);
    EntryIs(0xE8, 0x9B); EntryIs(0xE9, 0x1E); EntryIs(0xEA, 0x87); EntryIs(0xEB, 0xE9);
    EntryIs(0xEC, 0xCE); EntryIs(0xED, 0x55); EntryIs(0xEE, 0x28); EntryIs(0xEF, 0xDF);
  }

  lemma RowFHolds()
    ensures RowF()
  {
    hide SBox;
    EntryIs(0xF0, 0x8C); EntryIs(0xF1, 0xA1); EntryIs(0xF2, 0x89); EntryIs(0xF3, 0x0D);
    EntryIs(0xF4, 0xBF); EntryIs(0xF5, 0xE6); EntryIs(0xF6, 0x42); EntryIs(0xF7, 0x68);
    EntryIs(0xF8, 0x41); EntryIs(0xF9, 0x99); EntryIs(0xFA, 0x2D); EntryIs(0xFB, 0x0F);
    EntryIs(0xFC, 0xB0); EntryIs(0xFD, 0x54); EntryIs(0xFE, 0xBB); EntryIs(0xFF, 0x16);
  }

  /** The S-box is the table of the standard. */
  lemma TableHolds()
    ensures Table()
  {
    Row0Holds(); Row1Holds(); Row2Holds(); Row3Holds();
    Row4Holds(); Row5Holds(); Row6Holds(); Row7Holds();
    Row8Holds(); Row9Holds(); RowAHolds(); RowBHolds();
    RowCHolds(); RowDHolds(); RowEHolds(); RowFHolds();
  }
}
