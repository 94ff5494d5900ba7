/** The examples of appendices B.1 and B.2 of FIPS 180-2, with the working variables after each round. */
module Sha256Vectors {
  import opened Sha256Spec

  lemma Constants1()
    ensures K(0) == 0x428A2F98 && K(1) == 0x71374491 && K(2) == 0xB5C0FBCF && K(3) == 0xE9B5DBA5
    ensures K(4) == 0x3956C25B && K(5) == 0x59F111F1 && K(6) == 0x923F82A4 && K(7) == 0xAB1C5ED5
    ensures K(8) == 0xD807AA98 && K(9) == 0x12835B01 && K(10) == 0x243185BE && K(11) == 0x550C7DC3
    ensures K(12) == 0x72BE5D74 && K(13) == 0x80DEB1FE && K(14) == 0x9BDC06A7 && K(15) == 0xC19BF174
  {
  }

  lemma Constants2()
    ensures K(16) == 0xE49B69C1 && K(17) == 0xEFBE4786 && K(18) == 0x0FC19DC6 && K(19) == 0x240CA1CC
    ensures K(20) == 0x2DE92C6F && K(21) == 0x4A7484AA && K(22) == 0x5CB0A9DC && K(23) == 0x76F988DA
    ensures K(24) == 0x983E5152 && K(25) == 0xA831C66D && K(26) == 0xB00327C8 && K(27) == 0xBF597FC7
    ensures K(28) == 0xC6E00BF3 && K(29) == 0xD5A79147 && K(30) == 0x06CA6351 && K(31) == 0x14292967
  {
  }

  lemma Constants3()
    ensures K(32) == 0x27B70A85 && K(33) == 0x2E1B2138 && K(34) == 0x4D2C6DFC && K(35) == 0x53380D13
    ensures K(36) == 0x650A7354 && K(37) == 0x766A0ABB && K(38) == 0x81C2C92E && K(39) == 0x92722C85
    ensures K(40) == 0xA2BFE8A1 && K(41) == 0xA81A664B && K(42) == 0xC24B8B70 && K(43) == 0xC76C51A3
    ensures K(44) == 0xD192E819 && K(45) == 0xD6990624 && K(46) == 0xF40E3585 && K(47) == 0x106AA070
  {
  }

  lemma Constants4()
    ensures K(48) == 0x19A4C116 && K(49) == 0x1E376C08 && K(50) == 0x2748774C && K(51) == 0x34B0BCB5
    ensures K(52) == 0x391C0CB3 && K(53) == 0x4ED8AA4A && K(54) == 0x5B9CCA4F && K(55) == 0x682E6FF3
    ensures K(56) == 0x748F82EE && K(57) == 0x78A5636F && K(58) == 0x84C87814 && K(59) == 0x8CC70208
    ensures K(60) == 0x90BEFFFA && K(61) == 0xA4506CEB && K(62) == 0xBEF9A3F7 && K(63) == 0xC67178F2
  {
  }

  lemma WordIs(b: seq<bv8>, t: nat)
    requires |b| == 64 && t < 16
    ensures W(b, t) == ((b[4 * t] as bv32) << 24) | ((b[4 * t + 1] as bv32) << 16) | ((b[4 * t + 2] as bv32) << 8)
                       | (b[4 * t + 3] as bv32)
  {
  }

  // ---- one block: abc ------------------------------------------------------------

  /** The block as words. */
  predicate Short(b: seq<bv8>) {
    |b| == 64 &&
    W(b, 0) == 0x61626380 && W(b, 1) == 0x00000000 && W(b, 2) == 0x00000000 && W(b, 3) == 0x00000000 &&
    W(b, 4) == 0x00000000 && W(b, 5) == 0x00000000 && W(b, 6) == 0x00000000 && W(b, 7) == 0x00000000 &&
    W(b, 8) == 0x00000000 && W(b, 9) == 0x00000000 && W(b, 10) == 0x00000000 && W(b, 11) == 0x00000000 &&
    W(b, 12) == 0x00000000 && W(b, 13) == 0x00000000 && W(b, 14) == 0x00000000 && W(b, 15) == 0x00000018
  }

  lemma ShortWords1(b: seq<bv8>)
    requires Short(b)
    ensures W(b, 16) == 0x61626380 && W(b, 17) == 0x000F0000 && W(b, 18) == 0x7DA86405 && W(b, 19) == 0x600003C6
    ensures W(b, 20) == 0x3E9D7B78 && W(b, 21) == 0x0183FC00 && W(b, 22) == 0x12DCBFDB && W(b, 23) == 0xE2E2C38E
    ensures W(b, 24) == 0xC8215C1A && W(b, 25) == 0xB73679A2 && W(b, 26) == 0xE5BC3909 && W(b, 27) == 0x32663C5B
    ensures W(b, 28) == 0x9D209D67 && W(b, 29) == 0xEC8726CB && W(b, 30) == 0x702138A4 && W(b, 31) == 0xD3B7973B
  {
  }

  lemma ShortWords2(b: seq<bv8>)
    requires Short(b)
    ensures W(b, 32) == 0x93F5997F && W(b, 33) == 0x3B68BA73 && W(b, 34) == 0xAFF4FFC1 && W(b, 35) == 0xF10A5C62
    ensures W(b, 36) == 0x0A8B3996 && W(b, 37) == 0x72AF830A && W(b, 38) == 0x9409E33E && W(b, 39) == 0x24641522
    ensures W(b, 40) == 0x9F47BF94 && W(b, 41) == 0xF0A64F5A && W(b, 42) == 0x3E246A79 && W(b, 43) == 0x27333BA3
    ensures W(b, 44) == 0x0C4763F2 && W(b, 45) == 0x840ABF27 && W(b, 46) == 0x7A290D5D && W(b, 47) == 0x065C43DA
  {
    ShortWords1(b);
  }

  lemma ShortWords3(b: seq<bv8>)
    requires Short(b)
    ensures W(b, 48) == 0xFB3E89CB && W(b, 49) == 0xCC7617DB && W(b, 50) == 0xB9E66C34 && W(b, 51) == 0xA9993667
    ensures W(b, 52) == 0x84BADEDD && W(b, 53) == 0xC21462BC && W(b, 54) == 0x1487472C && W(b, 55) == 0xB20F7A99
    ensures W(b, 56) == 0xEF57B9CD && W(b, 57) == 0xEBE6B238 && W(b, 58) == 0x9FE3095E && W(b, 59) == 0x78BC8D4B
    ensures W(b, 60) == 0xA43FCF15 && W(b, 61) == 0x668B2FF8 && W(b, 62) == 0xEEABA2CC && W(b, 63) == 0x12B1EDEB
  {
    ShortWords2(b);
  }

  lemma ShortRounds1(b: seq<bv8>)
    requires Short(b)
    ensures Rounds(INITIAL, b, 16) ==
      Hash(0xB0FA238E, 0xC0645FDE, 0xD932EB16, 0x87912990, 0x07590DCD, 0x0B92F20C, 0x745A48DE, 0x1E578218)
  {
    Constants1();
    hide W;
    hide K;
    assert Rounds(INITIAL, b, 1) ==
      Hash(0x5D6AEBCD, 0x6A09E667, 0xBB67AE85, 0x3C6EF372, 0xFA2A4622, 0x510E527F, 0x9B05688C, 0x1F83D9AB);
    assert Rounds(INITIAL, b, 2) ==
      Hash(0x5A6AD9AD, 0x5D6AEBCD, 0x6A09E667, 0xBB67AE85, 0x78CE7989, 0xFA2A4622, 0x510E527F, 0x9B05688C);
    assert Rounds(INITIAL, b, 4) ==
      Hash(0xD550F666, 0xC8C347A7, 0x5A6AD9AD, 0x5D6AEBCD, 0x24E00850, 0xF92939EB, 0x78CE7989, 0xFA2A4622);
    assert Rounds(INITIAL, b, 6) ==
      Hash(0x2B4209F5, 0x04409A6A, 0xD550F666, 0xC8C347A7, 0x714260AD, 0x43ADA245, 0x24E00850, 0xF92939EB);
    assert Rounds(INITIAL, b, 8) ==
      Hash(0x85A07B5F, 0xE5030380, 0x2B4209F5, 0x04409A6A, 0x0C657A79, 0x9B27A401, 0x714260AD, 0x43ADA245);
    assert Rounds(INITIAL, b, 10) ==
      Hash(0x8C87346B, 0x8E04ECB9, 0x85A07B5F, 0xE5030380, 0x1CC92596, 0x32CA2D8C, 0x0C657A79, 0x9B27A401);
    assert Rounds(INITIAL, b, 12) ==
      Hash(0xF71FC5A9, 0x4798A3F4, 0x8C87346B, 0x8E04ECB9, 0x816FD6E9, 0x436B23E8, 0x1CC92596, 0x32CA2D8C);
    assert Rounds(INITIAL, b, 14) ==
      Hash(0xD932EB16, 0x87912990, 0xF71FC5A9, 0x4798A3F4, 0x745A48DE, 0x1E578218, 0x816FD6E9, 0x436B23E8);
  }

  lemma ShortRounds2(b: seq<bv8>)
    requires Short(b)
    ensures Rounds(INITIAL, b, 32) ==
      Hash(0x73B33BF5, 0xEA992A22, 0xA0060B30, 0x363482C9, 0xBA591112, 0x0109AB3A, 0xADE79437, 0x6112A3B7)
  {
    ShortWords1(b);
    Constants2();
    hide W;
    hide K;
    ShortRounds1(b);
    assert Rounds(INITIAL, b, 18) ==
      Hash(0xC2FBD9D1, 0x21DA9A9B, 0xB0FA238E, 0xC0645FDE, 0x846EE454, 0x8034229C, 0x07590DCD, 0x0B92F20C);
    assert Rounds(INITIAL, b, 20) ==
      Hash(0xE1F20C33, 0xFE777BBF, 0xC2FBD9D1, 0x21DA9A9B, 0xB0638179, 0xCC899961, 0x846EE454, 0x8034229C);
    assert Rounds(INITIAL, b, 22) ==
      Hash(0xC2606D6D, 0x9DC68B63, 0xE1F20C33, 0xFE777BBF, 0xE1257970, 0x8ADA8930, 0xB0638179, 0xCC899961);
    assert Rounds(INITIAL, b, 24) ==
      Hash(0xC5D53D8D, 0xA7A3623F, 0xC2606D6D, 0x9DC68B63, 0xAA47C347, 0x49F5114A, 0xE1257970, 0x8ADA8930);
    assert Rounds(INITIAL, b, 26) ==
      Hash(0xCDE8037D, 0x1C2C2838, 0xC5D53D8D, 0xA7A3623F, 0x14383D8E, 0x2823EF91, 0xAA47C347, 0x49F5114A);
    assert Rounds(INITIAL, b, 28) ==
      Hash(0x77D37528, 0xB62EC4BC, 0xCDE8037D, 0x1C2C2838, 0xEDFFBFF8, 0xC74C6516, 0x14383D8E, 0x2823EF91);
    assert Rounds(INITIAL, b, 30) ==
      Hash(0xA0060B30, 0x363482C9, 0x77D37528, 0xB62EC4BC, 0xADE79437, 0x6112A3B7, 0xEDFFBFF8, 0xC74C6516);
  }

  lemma ShortRounds3(b: seq<bv8>)
    requires Short(b)
    ensures Rounds(INITIAL, b, 48) ==
      Hash(0x4172328D, 0xA14C14B0, 0x72AB4B91, 0x26628815, 0xFECF0BC6, 0xD57B94A9, 0xB7755DA1, 0xA80F11F0)
  {
    ShortWords2(b);
    Constants3();
    hide W;
    hide K;
    ShortRounds2(b);
    assert Rounds(INITIAL, b, 34) ==
      Hash(0xFE604DF5, 0x98E12507, 0x73B33BF5, 0xEA992A22, 0x59249DD3, 0x9CD9F5F6, 0xBA591112, 0x0109AB3A);
    assert Rounds(INITIAL, b, 36) ==
      Hash(0x65A0CFE4, 0xA9A7738C, 0xFE604DF5, 0x98E12507, 0xF4B002D6, 0x085F3833, 0x59249DD3, 0x9CD9F5F6);
    assert Rounds(INITIAL, b, 38) ==
      Hash(0x34DF1604, 0x41A65CB1, 0x65A0CFE4, 0xA9A7738C, 0xA507A53D, 0x0772A26B, 0xF4B002D6, 0x085F3833);
    assert Rounds(INITIAL, b, 40) ==
      Hash(0x79EA687A, 0x6DC57A8A, 0x34DF1604, 0x41A65CB1, 0x1EFBC0A0, 0xF0781BC8, 0xA507A53D, 0x0772A26B);
    assert Rounds(INITIAL, b, 42) ==
      Hash(0xDF46652F, 0xD6670766, 0x79EA687A, 0x6DC57A8A, 0x838B2711, 0x26352D63, 0x1EFBC0A0, 0xF0781BC8);
    assert Rounds(INITIAL, b, 44) ==
      Hash(0x9D4BAF93, 0x17AA0DFE, 0xDF46652F, 0xD6670766, 0xFDA24C2E, 0xDECD4715, 0x838B2711, 0x26352D63);
    assert Rounds(INITIAL, b, 46) ==
      Hash(0x72AB4B91, 0x26628815, 0x9D4BAF93, 0x17AA0DFE, 0xB7755DA1, 0xA80F11F0, 0xFDA24C2E, 0xDECD4715);
  }

  lemma ShortRounds4(b: seq<bv8>)
    requires Short(b)
    ensures Rounds(INITIAL, b, 64) ==
      Hash(0x506E3058, 0xD39A2165, 0x04D24D6C, 0xB85E2CE9, 0x5EF50F24, 0xFB121210, 0x948D25B6, 0x961F4894)
  {
    ShortWords3(b);
    Constants4();
    hide W;
    hide K;
    ShortRounds3(b);
    assert Rounds(INITIAL, b, 50) ==
      Hash(0xF11BFAA8, 0x05757CEB, 0x4172328D, 0xA14C14B0, 0x6E5C390C, 0xBD714038, 0xFECF0BC6, 0xD57B94A9);
    assert Rounds(INITIAL, b, 52) ==
      Hash(0x886E7A22, 0x7A0508A1, 0xF11BFAA8, 0x05757CEB, 0x49231C1E, 0x52F1CCF7, 0x6E5C390C, 0xBD714038);
    assert Rounds(INITIAL, b, 54) ==
      Hash(0xF5702FDB, 0x101FD28F, 0x886E7A22, 0x7A0508A1, 0x9F4787C3, 0x529E7D00, 0x49231C1E, 0x52F1CCF7);
    assert Rounds(INITIAL, b, 56) ==
      Hash(0x38CC9913, 0x3EC45CDB, 0xF5702FDB, 0x101FD28F, 0x54CB266B, 0xE50E1B4F, 0x9F4787C3, 0x529E7D00);
    assert Rounds(INITIAL, b, 58) ==
      Hash(0xC062D46F, 0xFCD1887B, 0x38CC9913, 0x3EC45CDB, 0x7E44008E, 0x9B5E906C, 0x54CB266B, 0xE50E1B4F);
    assert Rounds(INITIAL, b, 60) ==
      Hash(0xB6AE8FFF, 0xFFB70472, 0xC062D46F, 0xFCD1887B, 0xB21BAD3D, 0x6D83BFC6, 0x7E44008E, 0x9B5E906C);
    assert Rounds(INITIAL, b, 62) ==
      Hash(0x04D24D6C, 0xB85E2CE9, 0xB6AE8FFF, 0xFFB70472, 0x948D25B6, 0x961F4894, 0xB21BAD3D, 0x6D83BFC6);
  }

  // ---- two blocks: the first ------------------------------------------------------------

  /** The block as words. */
  predicate First(b: seq<bv8>) {
    |b| == 64 &&
    W(b, 0) == 0x61626364 && W(b, 1) == 0x62636465 && W(b, 2) == 0x63646566 && W(b, 3) == 0x64656667 &&
    W(b, 4) == 0x65666768 && W(b, 5) == 0x66676869 && W(b, 6) == 0x6768696A && W(b, 7) == 0x68696A6B &&
    W(b, 8) == 0x696A6B6C && W(b, 9) == 0x6A6B6C6D && W(b, 10) == 0x6B6C6D6E && W(b, 11) == 0x6C6D6E6F &&
    W(b, 12) == 0x6D6E6F70 && W(b, 13) == 0x6E6F7071 && W(b, 14) == 0x80000000 && W(b, 15) == 0x00000000
  }

  lemma FirstWords1(b: seq<bv8>)
    requires First(b)
    ensures W(b, 16) == 0xEB8012AD && W(b, 17) == 0xA7C3AE92 && W(b, 18) == 0x76E93BA2 && W(b, 19) == 0xBA42E743
    ensures W(b, 20) == 0x92A92204 && W(b, 21) == 0xD847E75E && W(b, 22) == 0x9E160036 && W(b, 23) == 0xB280A7CB
    ensures W(b, 24) == 0xDDEB1516 && W(b, 25) == 0xF36586F4 && W(b, 26) == 0x969CD048 && W(b, 27) == 0xE959D99D
    ensures W(b, 28) == 0x6ACCC0EC && W(b, 29) == 0xF54CB098 && W(b, 30) == 0x2AF1B2DA && W(b, 31) == 0xEE59C4C9
  {
  }

  lemma FirstWords2(b: seq<bv8>)
    requires First(b)
    ensures W(b, 32) == 0xA835E16A && W(b, 33) == 0x1DFF4429 && W(b, 34) == 0xD6E15959 && W(b, 35) == 0xC397CD6E
    ensures W(b, 36) == 0x6F1801CA && W(b, 37) == 0x21574205 && W(b, 38) == 0x35FF7A84 && W(b, 39) == 0x9743EE78
    ensures W(b, 40) == 0xE44183E7 && W(b, 41) == 0x0D09F00D && W(b, 42) == 0x9C89AF54 && W(b, 43) == 0x042D5BEF
    ensures W(b, 44) == 0x71F134D0 && W(b, 45) == 0x0F94F463 && W(b, 46) == 0x7E49DC63 && W(b, 47) == 0x6F65C997
  {
    FirstWords1(b);
  }

  lemma FirstWords3(b: seq<bv8>)
    requires First(b)
    ensures W(b, 48) == 0x0B706583 && W(b, 49) == 0x179312CA && W(b, 50) == 0x503054E9 && W(b, 51) == 0xBA125C39
    ensures W(b, 52) == 0x7E9392C9 && W(b, 53) == 0xD5CBAA1E && W(b, 54) == 0x78E0585D && W(b, 55) == 0xF6E7611C
    ensures W(b, 56) == 0x8AC830CE && W(b, 57) == 0x8B47A303 && W(b, 58) == 0xFD6E627F && W(b, 59) == 0x8C6E2C6A
    ensures W(b, 60) == 0x4001ADF1 && W(b, 61) == 0x1A3DD097 && W(b, 62) == 0xA9DF6F62 && W(b, 63) == 0x6AA60A39
  {
    FirstWords2(b);
  }

  lemma FirstRounds1(b: seq<bv8>)
    requires First(b)
    ensures Rounds(INITIAL, b, 16) ==
      Hash(0xC3486194, 0xDD16CBB3, 0xD68E6457, 0x101A4861, 0x1496A54F, 0x9162ADED, 0x9243F8AF, 0x839A0FC9)
  {
    Constants1();
    hide W;
    hide K;
    assert Rounds(INITIAL, b, 1) ==
      Hash(0x5D6AEBB1, 0x6A09E667, 0xBB67AE85, 0x3C6EF372, 0xFA2A4606, 0x510E527F, 0x9B05688C, 0x1F83D9AB);
    assert Rounds(INITIAL, b, 2) ==
      Hash(0x2F2D5FCF, 0x5D6AEBB1, 0x6A09E667, 0xBB67AE85, 0x4EB1CFCE, 0xFA2A4606, 0x510E527F, 0x9B05688C);
    assert Rounds(INITIAL, b, 4) ==
      Hash(0x4A8D64D5, 0x97651825, 0x2F2D5FCF, 0x5D6AEBB1, 0x6494841B, 0x62D5C49E, 0x4EB1CFCE, 0xFA2A4606);
    assert Rounds(INITIAL, b, 6) ==
      Hash(0x55C8EF48, 0xF921C212, 0x4A8D64D5, 0x97651825, 0x7FF91C94, 0x05C4F88A, 0x6494841B, 0x62D5C49E);
    assert Rounds(INITIAL, b, 8) ==
      Hash(0xD237E6DB, 0x485835B7, 0x55C8EF48, 0xF921C212, 0xA401D211, 0x39A5B2CA, 0x7FF91C94, 0x05C4F88A);
    assert Rounds(INITIAL, b, 10) ==
      Hash(0x3A474B2B, 0x359F2BCE, 0xD237E6DB, 0x485835B7, 0x9037B3B8, 0xC09FFEC4, 0xA401D211, 0x39A5B2CA);
    assert Rounds(INITIAL, b, 12) ==
      Hash(0x1762215C, 0xB8E2B4CB, 0x3A474B2B, 0x359F2BCE, 0xEE1C97A8, 0x443ED29E, 0x9037B3B8, 0xC09FFEC4);
    assert Rounds(INITIAL, b, 14) ==
      Hash(0xD68E6457, 0x101A4861, 0x1762215C, 0xB8E2B4CB, 0x9243F8AF, 0x839A0FC9, 0xEE1C97A8, 0x443ED29E);
  }

  lemma FirstRounds2(b: seq<bv8>)
    requires First(b)
    ensures Rounds(INITIAL, b, 32) ==
      Hash(0x5581AB07, 0xEB43F3ED, 0xDF7151A0, 0x74BCF468, 0xDF980085, 0x0635D880, 0x7629C961, 0x72ABAECD)
  {
    FirstWords1(b);
    Constants2();
    hide W;
    hide K;
    FirstRounds1(b);
    assert Rounds(INITIAL, b, 18) ==
      Hash(0x046A193E, 0xB9DCACB1, 0xC3486194, 0xDD16CBB3, 0x885370B6, 0xD4F64250, 0x1496A54F, 0x9162ADED);
    assert Rounds(INITIAL, b, 20) ==
      Hash(0x2139187B, 0xF402F058, 0x046A193E, 0xB9DCACB1, 0x7C304206, 0x6F433549, 0x885370B6, 0xD4F64250);
    assert Rounds(INITIAL, b, 22) ==
      Hash(0x1B2B66B8, 0xD70AC17D, 0x2139187B, 0xF402F058, 0xD560B028, 0x7CC6B262, 0x7C304206, 0x6F433549);
    assert Rounds(INITIAL, b, 24) ==
      Hash(0x59FCE6B9, 0xAE2E2D4F, 0x1B2B66B8, 0xD70AC17D, 0xA2C7D51D, 0xF074FC95, 0xD560B028, 0x7CC6B262);
    assert Rounds(INITIAL, b, 26) ==
      Hash(0x573221DA, 0x4A885065, 0x59FCE6B9, 0xAE2E2D4F, 0x36E74EB4, 0x763597FB, 0xA2C7D51D, 0xF074FC95);
    assert Rounds(INITIAL, b, 28) ==
      Hash(0x73F858AF, 0x128661DA, 0x573221DA, 0x4A885065, 0xE77C797F, 0x1162D575, 0x36E74EB4, 0x763597FB);
    assert Rounds(INITIAL, b, 30) ==
      Hash(0xDF7151A0, 0x74BCF468, 0x73F858AF, 0x128661DA, 0x7629C961, 0x72ABAECD, 0xE77C797F, 0x1162D575);
  }

  lemma FirstRounds3(b: seq<bv8>)
    requires First(b)
    ensures Rounds(INITIAL, b, 48) ==
      Hash(0x13D82741, 0x165BE9CD, 0x18F0D19D, 0xDE71E2F2, 0xA7802A4D, 0xA483F080, 0x6B88472C, 0xFF61C636)
  {
    FirstWords2(b);
    Constants3();
    hide W;
    hide K;
    FirstRounds2(b);
    assert Rounds(INITIAL, b, 34) ==
      Hash(0x9CE5A62F, 0x9FC905C8, 0x5581AB07, 0xEB43F3ED, 0x6EF3B6BD, 0xA94D2AF1, 0xDF980085, 0x0635D880);
    assert Rounds(INITIAL, b, 36) ==
      Hash(0x0786DCE8, 0x1DF8E885, 0x9CE5A62F, 0x9FC905C8, 0xDE2A21D1, 0x2A9E048E, 0x6EF3B6BD, 0xA94D2AF1);
    assert Rounds(INITIAL, b, 38) ==
      Hash(0xA985B4BE, 0x2C55D3A6, 0x0786DCE8, 0x1DF8E885, 0xF72BF353, 0xB067C1AF, 0xDE2A21D1, 0x2A9E048E);
    assert Rounds(INITIAL, b, 40) ==
      Hash(0x7E4D30B8, 0x91AC9D5D, 0xA985B4BE, 0x2C55D3A6, 0x9F5B9B6D, 0x68D8D590, 0xF72BF353, 0xB067C1AF);
    assert Rounds(INITIAL, b, 42) ==
      Hash(0x508A16AB, 0x7E056794, 0x7E4D30B8, 0x91AC9D5D, 0x45459D97, 0x423B26C0, 0x9F5B9B6D, 0x68D8D590);
    assert Rounds(INITIAL, b, 44) ==
      Hash(0x167361DE, 0xB62C7013, 0x508A16AB, 0x7E056794, 0x41DD3844, 0x80A92A00, 0x45459D97, 0x423B26C0);
    assert Rounds(INITIAL, b, 46) ==
      Hash(0x18F0D19D, 0xDE71E2F2, 0x167361DE, 0xB62C7013, 0x6B88472C, 0xFF61C636, 0x41DD3844, 0x80A92A00);
  }

  lemma FirstRounds4(b: seq<bv8>)
    requires First(b)
    ensures Rounds(INITIAL, b, 64) ==
      Hash(0x1BDC6F6F, 0x86126910, 0xF6F443F8, 0xBCFCE922, 0x25D2430A, 0x2FC08F85, 0xACC75916, 0x962D8621)
  {
    FirstWords3(b);
    Constants4();
    hide W;
    hide K;
    FirstRounds3(b);
    assert Rounds(INITIAL, b, 50) ==
      Hash(0x543C99A1, 0x017B9D99, 0x13D82741, 0x165BE9CD, 0x16F134B6, 0xAEB10B60, 0xA7802A4D, 0xA483F080);
    assert Rounds(INITIAL, b, 52) ==
      Hash(0x81C1CDE0, 0x758CA97A, 0x543C99A1, 0x017B9D99, 0x5C47EB7B, 0x100CF2EA, 0x16F134B6, 0xAEB10B60);
    assert Rounds(INITIAL, b, 54) ==
      Hash(0x1D6DE87A, 0xB8D55619, 0x81C1CDE0, 0x758CA97A, 0x3443BED4, 0x1C806A61, 0x5C47EB7B, 0x100CF2EA);
    assert Rounds(INITIAL, b, 56) ==
      Hash(0x9E57C4A0, 0xF907B313, 0x1D6DE87A, 0xB8D55619, 0xEEC13548, 0x61A41711, 0x3443BED4, 0x1C806A61);
    assert Rounds(INITIAL, b, 58) ==
      Hash(0x7C015A2C, 0x71629856, 0x9E57C4A0, 0xF907B313, 0xCB9D3DD0, 0x2F6C8C4E, 0xEEC13548, 0x61A41711);
    assert Rounds(INITIAL, b, 60) ==
      Hash(0xE18F259A, 0x921FCCB6, 0x7C015A2C, 0x71629856, 0x51E15869, 0x43D8A034, 0xCB9D3DD0, 0x2F6C8C4E);
    assert Rounds(INITIAL, b, 62) ==
      Hash(0xF6F443F8, 0xBCFCE922, 0xE18F259A, 0x921FCCB6, 0xACC75916, 0x962D8621, 0x51E15869, 0x43D8A034);
  }

  // ---- two blocks: the second ------------------------------------------------------------

  const MIDDLE: Hash :=
    Hash(0x85E655D6, 0x417A1795, 0x3363376A, 0x624CDE5C, 0x76E09589, 0xCAC5F811, 0xCC4B32C1, 0xF20E533A)

  /** The block as words. */
  predicate Second(b: seq<bv8>) {
    |b| == 64 &&
    W(b, 0) == 0x00000000 && W(b, 1) == 0x00000000 && W(b, 2) == 0x00000000 && W(b, 3) == 0x00000000 &&
    W(b, 4) == 0x00000000 && W(b, 5) == 0x00000000 && W(b, 6) == 0x00000000 && W(b, 7) == 0x00000000 &&
    W(b, 8) == 0x00000000 && W(b, 9) == 0x00000000 && W(b, 10) == 0x00000000 && W(b, 11) == 0x00000000 &&
    W(b, 12) == 0x00000000 && W(b, 13) == 0x00000000 && W(b, 14) == 0x00000000 && W(b, 15) == 0x000001C0
  }

  lemma SecondWords1(b: seq<bv8>)
    requires Second(b)
    ensures W(b, 16) == 0x00000000 && W(b, 17) == 0x00D80000 && W(b, 18) == 0x00000000 && W(b, 19) == 0x00003677
    ensures W(b, 20) == 0x00000000 && W(b, 21) == 0x1DF5600D && W(b, 22) == 0x000001C0 && W(b, 23) == 0x1C00501C
    ensures W(b, 24) == 0x01B00000 && W(b, 25) == 0x220A8D94 && W(b, 26) == 0x0000A365 && W(b, 27) == 0x177017E7
    ensures W(b, 28) == 0x63D38035 && W(b, 29) == 0x090AB713 && W(b, 30) == 0x4C7539CA && W(b, 31) == 0x0F19A8C9
  {
  }

  lemma SecondWords2(b: seq<bv8>)
    requires Second(b)
    ensures W(b, 32) == 0x5DF4B0C4 && W(b, 33) == 0xE257036A && W(b, 34) == 0xC97BB6F1 && W(b, 35) == 0xC5B46F4D
    ensures W(b, 36) == 0xF8253C4E && W(b, 37) == 0xA558D189 && W(b, 38) == 0x78696285 && W(b, 39) == 0xED07117F
    ensures W(b, 40) == 0x107358F6 && W(b, 41) == 0x390AE496 && W(b, 42) == 0x565010A2 && W(b, 43) == 0xC51D7D44
    ensures W(b, 44) == 0x9E74C972 && W(b, 45) == 0x6614B561 && W(b, 46) == 0x30FC129D && W(b, 47) == 0x9AC684A8
  {
    SecondWords1(b);
  }

  lemma SecondWords3(b: seq<bv8>)
    requires Second(b)
    ensures W(b, 48) == 0x2B658DBD && W(b, 49) == 0xE290F793 && W(b, 50) == 0x9EEBB24C && W(b, 51) == 0x9713B5DE
    ensures W(b, 52) == 0x41061AB7 && W(b, 53) == 0xE022E23B && W(b, 54) == 0x0772079E && W(b, 55) == 0x7DE22D9C
    ensures W(b, 56) == 0xC8B83778 && W(b, 57) == 0x75A79849 && W(b, 58) == 0xD93DBDDB && W(b, 59) == 0x0A036C9D
    ensures W(b, 60) == 0xCB4F6AC6 && W(b, 61) == 0x823F97E2 && W(b, 62) == 0xEA2F2A7A && W(b, 63) == 0xB9018B52
  {
    SecondWords2(b);
  }

  lemma SecondRounds1(b: seq<bv8>)
    requires Second(b)
    ensures Rounds(MIDDLE, b, 16) ==
      Hash(0x16A8CC79, 0x0CEA5CBC, 0xD74080FA, 0x35EE996D, 0x0FCB1F6F, 0x60356548, 0x68AA893F, 0x5C24E2A2)
  {
    Constants1();
    hide W;
    hide K;
    assert Rounds(MIDDLE, b, 1) ==
      Hash(0x7C20C838, 0x85E655D6, 0x417A1795, 0x3363376A, 0x4670AE6E, 0x76E09589, 0xCAC5F811, 0xCC4B32C1);
    assert Rounds(MIDDLE, b, 2) ==
      Hash(0x7C3C0F86, 0x7C20C838, 0x85E655D6, 0x417A1795, 0x8C51BE64, 0x4670AE6E, 0x76E09589, 0xCAC5F811);
    assert Rounds(MIDDLE, b, 4) ==
      Hash(0xF268FAA9, 0xFD1EEBDC, 0x7C3C0F86, 0x7C20C838, 0xE20362EF, 0xAF71B9EA, 0x8C51BE64, 0x4670AE6E);
    assert Rounds(MIDDLE, b, 6) ==
      Hash(0x3EEB6C06, 0x185A5D79, 0xF268FAA9, 0xFD1EEBDC, 0xFE20CDA6, 0x8DFF3001, 0xE20362EF, 0xAF71B9EA);
    assert Rounds(MIDDLE, b, 8) ==
      Hash(0xBF9A93A0, 0x89BBA3F1, 0x3EEB6C06, 0x185A5D79, 0x059ABDD1, 0x0A34DF03, 0xFE20CDA6, 0x8DFF3001);
    assert Rounds(MIDDLE, b, 10) ==
      Hash(0x2D964E86, 0x2C096744, 0xBF9A93A0, 0x89BBA3F1, 0xAA27ED82, 0xABFA465B, 0x059ABDD1, 0x0A34DF03);
    assert Rounds(MIDDLE, b, 12) ==
      Hash(0x5EB4EC40, 0x5B35025B, 0x2D964E86, 0x2C096744, 0xE11B4548, 0x10E77723, 0xAA27ED82, 0xABFA465B);
    assert Rounds(MIDDLE, b, 14) ==
      Hash(0xD74080FA, 0x35EE996D, 0x5EB4EC40, 0x5B35025B, 0x68AA893F, 0x5C24E2A2, 0xE11B4548, 0x10E77723);
  }

  lemma SecondRounds2(b: seq<bv8>)
    requires Second(b)
    ensures Rounds(MIDDLE, b, 32) ==
      Hash(0xB0EAB1C5, 0x02EF3A5F, 0x1CFA5EB0, 0xD958B529, 0xF6D93952, 0x5DA10665, 0x6C49DB9F, 0xC2FA99B1)
  {
    SecondWords1(b);
    Constants2();
    hide W;
    hide K;
    SecondRounds1(b);
    assert Rounds(MIDDLE, b, 18) ==
      Hash(0x23DCB6C2, 0xF16F634E, 0x16A8CC79, 0x0CEA5CBC, 0xCA9182D3, 0x8B21CDC1, 0x0FCB1F6F, 0x60356548);
    assert Rounds(MIDDLE, b, 20) ==
      Hash(0x76F1A2BC, 0xDCFF40FD, 0x23DCB6C2, 0xF16F634E, 0x0DC84BB1, 0x69BF7B95, 0xCA9182D3, 0x8B21CDC1);
    assert Rounds(MIDDLE, b, 22) ==
      Hash(0xD44DC81A, 0x20AAD899, 0x76F1A2BC, 0xDCFF40FD, 0x5BACE62D, 0xCC4769F2, 0x0DC84BB1, 0x69BF7B95);
    assert Rounds(MIDDLE, b, 24) ==
      Hash(0xA4195B91, 0xF13AE55B, 0xD44DC81A, 0x20AAD899, 0xEDDBD6ED, 0x966AA287, 0x5BACE62D, 0xCC4769F2);
    assert Rounds(MIDDLE, b, 26) ==
      Hash(0xAA6CB982, 0x4984FA79, 0xA4195B91, 0xF13AE55B, 0x0B5EEEA4, 0xA530D939, 0xEDDBD6ED, 0x966AA287);
    assert Rounds(MIDDLE, b, 28) ==
      Hash(0x0D936BAB, 0x9450FBBC, 0xAA6CB982, 0x4984FA79, 0x6E495D4B, 0x09166DDA, 0x0B5EEEA4, 0xA530D939);
    assert Rounds(MIDDLE, b, 30) ==
      Hash(0x1CFA5EB0, 0xD958B529, 0x0D936BAB, 0x9450FBBC, 0x6C49DB9F, 0xC2FA99B1, 0x6E495D4B, 0x09166DDA);
  }

  lemma SecondRounds3(b: seq<bv8>)
    requires Second(b)
    ensures Rounds(MIDDLE, b, 48) ==
      Hash(0xD7354D5B, 0x0B3303A7, 0x104A7DB4, 0x0F154E11, 0xAAD55B6B, 0xBBE1C39A, 0x5348E8F6, 0x6F9517CB)
  {
    SecondWords2(b);
    Constants3();
    hide W;
    hide K;
    SecondRounds2(b);
    assert Rounds(MIDDLE, b, 34) ==
      Hash(0x4BD1DF96, 0x0BFBA73C, 0xB0EAB1C5, 0x02EF3A5F, 0x905E44AC, 0x8B99E3A9, 0xF6D93952, 0x5DA10665);
    assert Rounds(MIDDLE, b, 36) ==
      Hash(0xECDE4E0D, 0x9907F1B6, 0x4BD1DF96, 0x0BFBA73C, 0x5DC119E6, 0x66C3043D, 0x905E44AC, 0x8B99E3A9);
    assert Rounds(MIDDLE, b, 38) ==
      Hash(0xD949682B, 0x2F11C939, 0xECDE4E0D, 0x9907F1B6, 0x32D99008, 0xFED4CE1D, 0x5DC119E6, 0x66C3043D);
    assert Rounds(MIDDLE, b, 40) ==
      Hash(0x221B8A5A, 0xADCA7A96, 0xD949682B, 0x2F11C939, 0x0B82C5EB, 0xC6CCE4FF, 0x32D99008, 0xFED4CE1D);
    assert Rounds(MIDDLE, b, 42) ==
      Hash(0x2C794876, 0x12D97845, 0x221B8A5A, 0xADCA7A96, 0xFF6759BA, 0xE4213CA2, 0x0B82C5EB, 0xC6CCE4FF);
    assert Rounds(MIDDLE, b, 44) ==
      Hash(0xF2AD6322, 0x8300FCA2, 0x2C794876, 0x12D97845, 0xCC48C7F3, 0xE0E3457C, 0xFF6759BA, 0xE4213CA2);
    assert Rounds(MIDDLE, b, 46) ==
      Hash(0x104A7DB4, 0x0F154E11, 0xF2AD6322, 0x8300FCA2, 0x5348E8F6, 0x6F9517CB, 0xCC48C7F3, 0xE0E3457C);
  }

  lemma SecondRounds4(b: seq<bv8>)
    requires Second(b)
    ensures Rounds(MIDDLE, b, 64) ==
      Hash(0x9EA7148B, 0x908C2123, 0xB25CEF29, 0xA9F181DD, 0x2C5C4ED0, 0x9A392956, 0x2AA1BB13, 0x27CCB387)
  {
    SecondWords3(b);
    Constants4();
    hide W;
    hide K;
    SecondRounds3(b);
    assert Rounds(MIDDLE, b, 50) ==
      Hash(0x2748E5EC, 0xB736D7A6, 0xD7354D5B, 0x0B3303A7, 0xD4B58576, 0x68F25260, 0xAAD55B6B, 0xBBE1C39A);
    assert Rounds(MIDDLE, b, 52) ==
      Hash(0x1A6BCF6A, 0xD8AABCF9, 0x2748E5EC, 0xB736D7A6, 0xFF5E99D0, 0x27844711, 0xD4B58576, 0x68F25260);
    assert Rounds(MIDDLE, b, 54) ==
      Hash(0xEC02560A, 0x4ECA6FA0, 0x1A6BCF6A, 0xD8AABCF9, 0x7151DF8E, 0x989ED071, 0xFF5E99D0, 0x27844711);
    assert Rounds(MIDDLE, b, 56) ==
      Hash(0x92952710, 0xD9F0C115, 0xEC02560A, 0x4ECA6FA0, 0x226806D6, 0x624150C4, 0x7151DF8E, 0x989ED071);
    assert Rounds(MIDDLE, b, 58) ==
      Hash(0x4348EB1F, 0x20D4D0E4, 0x92952710, 0xD9F0C115, 0xC21EDDF9, 0x4E515A4D, 0x226806D6, 0x624150C4);
    assert Rounds(MIDDLE, b, 60) ==
      Hash(0x1C4CDDD9, 0x286FE5F0, 0x4348EB1F, 0x20D4D0E4, 0xF487A853, 0x54076664, 0xC21EDDF9, 0x4E515A4D);
    assert Rounds(MIDDLE, b, 62) ==
      Hash(0xB25CEF29, 0xA9F181DD, 0x1C4CDDD9, 0x286FE5F0, 0x2AA1BB13, 0x27CCB387, 0xF487A853, 0x54076664);
  }

  // ---- the digests -----------------------------------------------------------------------

  lemma OneBlock(b: seq<bv8>)
    requires |b| == 64
    ensures Blocks(b) == Compress(INITIAL, b)
  {
    assert b[..0] == [] && b[0..] == b;
  }

  lemma ShortPadded(m: seq<bv8>)
    requires m == [0x61, 0x62, 0x63]
    ensures Short(Padded(m))
  {
    hide NumberBytes;
    hide Short;
    var b := Padded(m);
    SmallNumber(24, 0, 24);
    assert b == m + [0x80] + Zeros(52) + [0, 0, 0, 0, 0, 0, 0, 24];
    assert b[0] == 0x61 && b[1] == 0x62 && b[2] == 0x63 && b[3] == 0x80 && b[63] == 24;
    assert forall i :: 4 <= i < 63 ==> b[i] == 0;
    ShortWords(b);
  }

  lemma ShortWords(b: seq<bv8>)
    requires |b| == 64 && b[0] == 0x61 && b[1] == 0x62 && b[2] == 0x63 && b[3] == 0x80 && b[63] == 24
    requires forall i :: 4 <= i < 63 ==> b[i] == 0
    ensures Short(b)
  {
  }

  lemma {:induction false} ZeroBytes(count: nat)
    ensures NumberBytes(0, count) == Zeros(count)
  {
    if count > 0 { ZeroBytes(count - 1); }
  }

  lemma ByteIs(x: int, b: bv8)
    requires b as int == x
    ensures 0 <= x < 256 && x as bv8 == b
  {
  }

  lemma LastByte(n: nat, count: nat, low: bv8)
    requires n % 256 == low as int
    ensures NumberBytes(n, count + 1) == NumberBytes(n / 256, count) + [low]
  {
    ByteIs(n % 256, low);
  }

  lemma SmallNumber(n: nat, high: bv8, low: bv8)
    requires n == 256 * (high as int) + low as int
    ensures NumberBytes(n, 8) == [0, 0, 0, 0, 0, 0, high, low]
  {
    hide NumberBytes;
    var h, l := high as int, low as int;
    ByteIs(h, high);
    ByteIs(l, low);
    DivideBy256(n, h, l);
    DivideBy256(h, 0, h);
    LastByte(n, 7, low);
    LastByte(h, 6, high);
    ZeroBytes(6);
  }

  lemma DivideBy256(n: nat, h: nat, l: nat)
    requires l < 256 && n == 256 * h + l
    ensures n / 256 == h && n % 256 == l
  {
  }

  /** Appendix B.1: the digest of "abc". */
  lemma DigestOfAbc()
    ensures Sha256([0x61, 0x62, 0x63]) ==
        [0xBA, 0x78, 0x16, 0xBF, 0x8F, 0x01, 0xCF, 0xEA, 0x41, 0x41, 0x40, 0xDE, 0x5D, 0xAE, 0x22, 0x23,
         0xB0, 0x03, 0x61, 0xA3, 0x96, 0x17, 0x7A, 0x9C, 0xB4, 0x10, 0xFF, 0x61, 0xF2, 0x00, 0x15, 0xAD]
  {
    var b := Padded([0x61, 0x62, 0x63]);
    ShortPadded([0x61, 0x62, 0x63]);
    OneBlock(b);
    ShortRounds4(b);
    hide Rounds;
    hide Padded;
    hide Short;
    assert Compress(INITIAL, b) ==
      Hash(0xBA7816BF, 0x8F01CFEA, 0x414140DE, 0x5DAE2223, 0xB00361A3, 0x96177A9C, 0xB410FF61, 0xF20015AD);
    hide Compress;
    hide HashBytes;
    ShortBytes();
  }

  lemma ShortBytes()
    ensures HashBytes(Hash(0xBA7816BF, 0x8F01CFEA, 0x414140DE, 0x5DAE2223, 0xB00361A3, 0x96177A9C, 0xB410FF61,
            0xF20015AD)) ==
        [0xBA, 0x78, 0x16, 0xBF, 0x8F, 0x01, 0xCF, 0xEA, 0x41, 0x41, 0x40, 0xDE, 0x5D, 0xAE, 0x22, 0x23,
         0xB0, 0x03, 0x61, 0xA3, 0x96, 0x17, 0x7A, 0x9C, 0xB4, 0x10, 0xFF, 0x61, 0xF2, 0x00, 0x15, 0xAD]
  {
  }

  /** The message of appendix B.2: "abcdbcdecdef" and so on up to "nopq". */
  predicate Long(m: seq<bv8>) {
    |m| == 56 && forall i :: 0 <= i < 56 ==> m[i] == (0x61 + i / 4 + i % 4) as bv8
  }

  lemma LongPadded(m: seq<bv8>)
    requires Long(m)
    ensures |Padded(m)| == 128 && First(Padded(m)[..64]) && Second(Padded(m)[64..])
  {
    hide NumberBytes;
    hide First;
    hide Second;
    var tail: seq<bv8> := [0, 0, 0, 0, 0, 0, 1, 0xC0];
    SmallNumber(448, 1, 0xC0);
    assert Padded(m) == m + [0x80] + Zeros(63) + tail;
    hide Padded;
    TwoBlocks(m, tail);
    FirstBlock(m, m + [0x80] + Zeros(7));
    SecondBlock(Zeros(56) + tail);
  }

  lemma TwoBlocks(m: seq<bv8>, tail: seq<bv8>)
    requires |m| == 56 && |tail| == 8
    ensures var b := m + [0x80] + Zeros(63) + tail;
            |b| == 128 && b[..64] == m + [0x80] + Zeros(7) && b[64..] == Zeros(56) + tail
  {
  }

  /** Word `j` of the message: four letters from `a` on. */
  lemma Letters(m: seq<bv8>, b: seq<bv8>, j: nat, a: bv8, x: bv32)
    requires Long(m) && |b| == 64 && b[..56] == m && j < 14 && a as int == 0x61 + j
    requires x == ((a as bv32) << 24) | (((a + 1) as bv32) << 16) | (((a + 2) as bv32) << 8) | ((a + 3) as bv32)
    ensures W(b, j) == x
  {
    hide Long;
    hide W;
    NextLetters(a, j);
    assert b[4 * j] == m[4 * j] && b[4 * j + 1] == m[4 * j + 1];
    assert b[4 * j + 2] == m[4 * j + 2] && b[4 * j + 3] == m[4 * j + 3];
    LetterAt(m, 4 * j, j, 0, a);
    LetterAt(m, 4 * j + 1, j, 1, a + 1);
    LetterAt(m, 4 * j + 2, j, 2, a + 2);
    LetterAt(m, 4 * j + 3, j, 3, a + 3);
    WordOf(b, j, a, a + 1, a + 2, a + 3);
  }

  lemma WordOf(b: seq<bv8>, j: nat, p: bv8, q: bv8, r: bv8, s: bv8)
    requires |b| == 64 && j < 16 && b[4 * j] == p && b[4 * j + 1] == q && b[4 * j + 2] == r && b[4 * j + 3] == s
    ensures W(b, j) == ((p as bv32) << 24) | ((q as bv32) << 16) | ((r as bv32) << 8) | (s as bv32)
  {
    WordIs(b, j);
  }

  lemma NextLetters(a: bv8, j: nat)
    requires j < 14 && a as int == 0x61 + j
    ensures (a + 1) as int == 0x62 + j && (a + 2) as int == 0x63 + j && (a + 3) as int == 0x64 + j
  {
  }

  lemma LetterAt(m: seq<bv8>, i: nat, j: nat, r: nat, a: bv8)
    requires Long(m) && i < 56 && i == 4 * j + r && r < 4 && a as int == 0x61 + j + r
    ensures m[i] == a
  {
    assert i / 4 == j && i % 4 == r;
  }

  lemma FirstBlock(m: seq<bv8>, b: seq<bv8>)
    requires Long(m) && b == m + [0x80] + Zeros(7)
    ensures First(b)
  {
    assert |b| == 64 && b[..56] == m;
    assert b[56] == 0x80 && b[57] == b[58] == b[59] == b[60] == b[61] == b[62] == b[63] == 0;
    hide Long;
    hide W;
    WordOf(b, 14, 0x80, 0, 0, 0);
    WordOf(b, 15, 0, 0, 0, 0);
    Letters(m, b, 0, 0x61, 0x61626364);
    Letters(m, b, 1, 0x62, 0x62636465);
    Letters(m, b, 2, 0x63, 0x63646566);
    Letters(m, b, 3, 0x64, 0x64656667);
    Letters(m, b, 4, 0x65, 0x65666768);
    Letters(m, b, 5, 0x66, 0x66676869);
    Letters(m, b, 6, 0x67, 0x6768696A);
    Letters(m, b, 7, 0x68, 0x68696A6B);
    Letters(m, b, 8, 0x69, 0x696A6B6C);
    Letters(m, b, 9, 0x6A, 0x6A6B6C6D);
    Letters(m, b, 10, 0x6B, 0x6B6C6D6E);
    Letters(m, b, 11, 0x6C, 0x6C6D6E6F);
    Letters(m, b, 12, 0x6D, 0x6D6E6F70);
    Letters(m, b, 13, 0x6E, 0x6E6F7071);
  }

  lemma SecondBlock(b: seq<bv8>)
    requires b == Zeros(56) + [0, 0, 0, 0, 0, 0, 1, 0xC0]
    ensures Second(b)
  {
    assert forall i :: 0 <= i < 62 ==> b[i] == 0;
    assert b[62] == 1 && b[63] == 0xC0;
  }

  lemma DigestOfTwoBlocks(m: seq<bv8>)
    requires Long(m)
    ensures Sha256(m) ==
        [0x24, 0x8D, 0x6A, 0x61, 0xD2, 0x06, 0x38, 0xB8, 0xE5, 0xC0, 0x26, 0x93, 0x0C, 0x3E, 0x60, 0x39,
         0xA3, 0x3C, 0xE4, 0x59, 0x64, 0xFF, 0x21, 0x67, 0xF6, 0xEC, 0xED, 0xD4, 0x19, 0xDB, 0x06, 0xC1]
  {
    var b := Padded(m);
    LongPadded(m);
    OneBlock(b[..64]);
    BlocksAppended(b[..64], b[64..]);
    assert b[..64] + b[64..] == b;
    FirstRounds4(b[..64]);
    SecondRounds4(b[64..]);
    hide Rounds;
    hide Padded;
    hide First;
    hide Second;
    assert Compress(INITIAL, b[..64]) == MIDDLE;
    assert Compress(MIDDLE, b[64..]) ==
      Hash(0x248D6A61, 0xD20638B8, 0xE5C02693, 0x0C3E6039, 0xA33CE459, 0x64FF2167, 0xF6ECEDD4, 0x19DB06C1);
    hide Compress;
    hide HashBytes;
    LongBytes();
  }

  lemma LongBytes()
    ensures HashBytes(Hash(0x248D6A61, 0xD20638B8, 0xE5C02693, 0x0C3E6039, 0xA33CE459, 0x64FF2167, 0xF6ECEDD4,
            0x19DB06C1)) ==
        [0x24, 0x8D, 0x6A, 0x61, 0xD2, 0x06, 0x38, 0xB8, 0xE5, 0xC0, 0x26, 0x93, 0x0C, 0x3E, 0x60, 0x39,
         0xA3, 0x3C, 0xE4, 0x59, 0x64, 0xFF, 0x21, 0x67, 0xF6, 0xEC, 0xED, 0xD4, 0x19, 0xDB, 0x06, 0xC1]
  {
  }
}
