/**
 * The example of FIPS 180-4: the digest of "abc", worked out over the one block of its padded form,
 * eight words of the schedule and eight rounds at a time.
 */
module Sha256Vector {
  import opened Bytes
  import opened Sha256
  import opened Sha256Constants

  // Eight words of the message schedule of a block.
  ghost predicate Row(block: seq<byte>, s: nat, w0: bv32, w1: bv32, w2: bv32, w3: bv32,
                      w4: bv32, w5: bv32, w6: bv32, w7: bv32)
  {
    && |block| == 64 && s + 8 <= 64
    && Schedule(block, s) == w0 && Schedule(block, s + 1) == w1 && Schedule(block, s + 2) == w2
    && Schedule(block, s + 3) == w3 && Schedule(block, s + 4) == w4 && Schedule(block, s + 5) == w5
    && Schedule(block, s + 6) == w6 && Schedule(block, s + 7) == w7
  }

  lemma NextWord(block: seq<byte>, t: nat, w: bv32)
    requires |block| == 64 && 16 <= t < 64
    requires w == Add(Add(Add(Gamma1(Schedule(block, t - 2)), Schedule(block, t - 7)), Gamma0(Schedule(block, t - 15))),
                      Schedule(block, t - 16))
    ensures Schedule(block, t) == w
  {
    hide Add, Gamma0, Gamma1, SmallSigma0, SmallSigma1;
    SameFunctions(Schedule(block, t - 2));
    SameFunctions(Schedule(block, t - 15));
  }

  // One round: only a and e are new.
  lemma NextRound(block: seq<byte>, t: nat, v: Vars, k: bv32, w: bv32, a: bv32, e: bv32) returns (r: Vars)
    requires |block| == 64 && t < 64 && Rounds(Load(H0), block, t) == v && K[t] == k && Schedule(block, t) == w
    requires var t1 := Add5(v.h, Sigma1(v.e), Ch(v.e, v.f, v.g), k, w);
      a == Add(t1, Add(Sigma0(v.a), Maj(v.a, v.b, v.c))) && e == Add(v.d, t1)
    ensures r == Vars(a, v.a, v.b, v.c, e, v.e, v.f, v.g) && Rounds(Load(H0), block, t + 1) == r
  {
    hide BigSigma0, BigSigma1, Sigma0, Sigma1, Add, Add5, Ch, Maj, Schedule;
    SameFunctions(v.a);
    SameFunctions(v.e);
    r := Vars(a, v.a, v.b, v.c, e, v.e, v.f, v.g);
  }

  lemma Words2(block: seq<byte>)
    requires Row(block, 0, 0x61626380, 0x00000000, 0x00000000, 0x00000000, 0x00000000, 0x00000000, 0x00000000, 0x00000000)
    requires Row(block, 8, 0x00000000, 0x00000000, 0x00000000, 0x00000000, 0x00000000, 0x00000000, 0x00000000, 0x00000018)
    ensures Row(block, 16, 0x61626380, 0x000F0000, 0x7DA86405, 0x600003C6, 0x3E9D7B78, 0x0183FC00, 0x12DCBFDB, 0xE2E2C38E)
  {
    hide Schedule;
    NextWord(block, 16, 0x61626380);
    NextWord(block, 17, 0x000F0000);
    NextWord(block, 18, 0x7DA86405);
    NextWord(block, 19, 0x600003C6);
    NextWord(block, 20, 0x3E9D7B78);
    NextWord(block, 21, 0x0183FC00);
    NextWord(block, 22, 0x12DCBFDB);
    NextWord(block, 23, 0xE2E2C38E);
  }

  lemma Words3(block: seq<byte>)
    requires Row(block, 8, 0x00000000, 0x00000000, 0x00000000, 0x00000000, 0x00000000, 0x00000000, 0x00000000, 0x00000018)
    requires Row(block, 16, 0x61626380, 0x000F0000, 0x7DA86405, 0x600003C6, 0x3E9D7B78, 0x0183FC00, 0x12DCBFDB, 0xE2E2C38E)
    ensures Row(block, 24, 0xC8215C1A, 0xB73679A2, 0xE5BC3909, 0x32663C5B, 0x9D209D67, 0xEC8726CB, 0x702138A4, 0xD3B7973B)
  {
    hide Schedule;
    NextWord(block, 24, 0xC8215C1A);
    NextWord(block, 25, 0xB73679A2);
    NextWord(block, 26, 0xE5BC3909);
    NextWord(block, 27, 0x32663C5B);
    NextWord(block, 28, 0x9D209D67);
    NextWord(block, 29, 0xEC8726CB);
    NextWord(block, 30, 0x702138A4);
    NextWord(block, 31, 0xD3B7973B);
  }

  lemma Words4(block: seq<byte>)
    requires Row(block, 16, 0x61626380, 0x000F0000, 0x7DA86405, 0x600003C6, 0x3E9D7B78, 0x0183FC00, 0x12DCBFDB, 0xE2E2C38E)
    requires Row(block, 24, 0xC8215C1A, 0xB73679A2, 0xE5BC3909, 0x32663C5B, 0x9D209D67, 0xEC8726CB, 0x702138A4, 0xD3B7973B)
    ensures Row(block, 32, 0x93F5997F, 0x3B68BA73, 0xAFF4FFC1, 0xF10A5C62, 0x0A8B3996, 0x72AF830A, 0x9409E33E, 0x24641522)
  {
    hide Schedule;
    NextWord(block, 32, 0x93F5997F);
    NextWord(block, 33, 0x3B68BA73);
    NextWord(block, 34, 0xAFF4FFC1);
    NextWord(block, 35, 0xF10A5C62);
    NextWord(block, 36, 0x0A8B3996);
    NextWord(block, 37, 0x72AF830A);
    NextWord(block, 38, 0x9409E33E);
    NextWord(block, 39, 0x24641522);
  }

  lemma Words5(block: seq<byte>)
    requires Row(block, 24, 0xC8215C1A, 0xB73679A2, 0xE5BC3909, 0x32663C5B, 0x9D209D67, 0xEC8726CB, 0x702138A4, 0xD3B7973B)
    requires Row(block, 32, 0x93F5997F, 0x3B68BA73, 0xAFF4FFC1, 0xF10A5C62, 0x0A8B3996, 0x72AF830A, 0x9409E33E, 0x24641522)
    ensures Row(block, 40, 0x9F47BF94, 0xF0A64F5A, 0x3E246A79, 0x27333BA3, 0x0C4763F2, 0x840ABF27, 0x7A290D5D, 0x065C43DA)
  {
    hide Schedule;
    NextWord(block, 40, 0x9F47BF94);
    NextWord(block, 41, 0xF0A64F5A);
    NextWord(block, 42, 0x3E246A79);
    NextWord(block, 43, 0x27333BA3);
    NextWord(block, 44, 0x0C4763F2);
    NextWord(block, 45, 0x840ABF27);
    NextWord(block, 46, 0x7A290D5D);
    NextWord(block, 47, 0x065C43DA);
  }

  lemma Words6(block: seq<byte>)
    requires Row(block, 32, 0x93F5997F, 0x3B68BA73, 0xAFF4FFC1, 0xF10A5C62, 0x0A8B3996, 0x72AF830A, 0x9409E33E, 0x24641522)
    requires Row(block, 40, 0x9F47BF94, 0xF0A64F5A, 0x3E246A79, 0x27333BA3, 0x0C4763F2, 0x840ABF27, 0x7A290D5D, 0x065C43DA)
    ensures Row(block, 48, 0xFB3E89CB, 0xCC7617DB, 0xB9E66C34, 0xA9993667, 0x84BADEDD, 0xC21462BC, 0x1487472C, 0xB20F7A99)
  {
    hide Schedule;
    NextWord(block, 48, 0xFB3E89CB);
    NextWord(block, 49, 0xCC7617DB);
    NextWord(block, 50, 0xB9E66C34);
    NextWord(block, 51, 0xA9993667);
    NextWord(block, 52, 0x84BADEDD);
    NextWord(block, 53, 0xC21462BC);
    NextWord(block, 54, 0x1487472C);
    NextWord(block, 55, 0xB20F7A99);
  }

  lemma Words7(block: seq<byte>)
    requires Row(block, 40, 0x9F47BF94, 0xF0A64F5A, 0x3E246A79, 0x27333BA3, 0x0C4763F2, 0x840ABF27, 0x7A290D5D, 0x065C43DA)
    requires Row(block, 48, 0xFB3E89CB, 0xCC7617DB, 0xB9E66C34, 0xA9993667, 0x84BADEDD, 0xC21462BC, 0x1487472C, 0xB20F7A99)
    ensures Row(block, 56, 0xEF57B9CD, 0xEBE6B238, 0x9FE3095E, 0x78BC8D4B, 0xA43FCF15, 0x668B2FF8, 0xEEABA2CC, 0x12B1EDEB)
  {
    hide Schedule;
    NextWord(block, 56, 0xEF57B9CD);
    NextWord(block, 57, 0xEBE6B238);
    NextWord(block, 58, 0x9FE3095E);
    NextWord(block, 59, 0x78BC8D4B);
    NextWord(block, 60, 0xA43FCF15);
    NextWord(block, 61, 0x668B2FF8);
    NextWord(block, 62, 0xEEABA2CC);
    NextWord(block, 63, 0x12B1EDEB);
  }

  lemma Keys0()
    ensures K[0] == 0x428A2F98 && K[1] == 0x71374491 && K[2] == 0xB5C0FBCF && K[3] == 0xE9B5DBA5
    ensures K[4] == 0x3956C25B && K[5] == 0x59F111F1 && K[6] == 0x923F82A4 && K[7] == 0xAB1C5ED5
  {}

  lemma Rounds0(block: seq<byte>)
    requires Row(block, 0, 0x61626380, 0x00000000, 0x00000000, 0x00000000, 0x00000000, 0x00000000, 0x00000000, 0x00000000)
    requires Rounds(Load(H0), block, 0) ==
      Vars(0x6A09E667, 0xBB67AE85, 0x3C6EF372, 0xA54FF53A, 0x510E527F, 0x9B05688C, 0x1F83D9AB, 0x5BE0CD19)
    ensures Rounds(Load(H0), block, 8) ==
      Vars(0x85A07B5F, 0xE5030380, 0x2B4209F5, 0x04409A6A, 0x0C657A79, 0x9B27A401, 0x714260AD, 0x43ADA245)
  {
    Keys0();
    hide Rounds, Schedule, K, H0;
    var v := Vars(0x6A09E667, 0xBB67AE85, 0x3C6EF372, 0xA54FF53A, 0x510E527F, 0x9B05688C, 0x1F83D9AB, 0x5BE0CD19);
    v := NextRound(block, 0, v, 0x428A2F98, 0x61626380, 0x5D6AEBCD, 0xFA2A4622);
    v := NextRound(block, 1, v, 0x71374491, 0x00000000, 0x5A6AD9AD, 0x78CE7989);
    v := NextRound(block, 2, v, 0xB5C0FBCF, 0x00000000, 0xC8C347A7, 0xF92939EB);
    v := NextRound(block, 3, v, 0xE9B5DBA5, 0x00000000, 0xD550F666, 0x24E00850);
    v := NextRound(block, 4, v, 0x3956C25B, 0x00000000, 0x04409A6A, 0x43ADA245);
    v := NextRound(block, 5, v, 0x59F111F1, 0x00000000, 0x2B4209F5, 0x714260AD);
    v := NextRound(block, 6, v, 0x923F82A4, 0x00000000, 0xE5030380, 0x9B27A401);
    v := NextRound(block, 7, v, 0xAB1C5ED5, 0x00000000, 0x85A07B5F, 0x0C657A79);
  }

  lemma Keys1()
    ensures K[8] == 0xD807AA98 && K[9] == 0x12835B01 && K[10] == 0x243185BE && K[11] == 0x550C7DC3
    ensures K[12] == 0x72BE5D74 && K[13] == 0x80DEB1FE && K[14] == 0x9BDC06A7 && K[15] == 0xC19BF174
  {}

  lemma Rounds1(block: seq<byte>)
    requires Row(block, 8, 0x00000000, 0x00000000, 0x00000000, 0x00000000, 0x00000000, 0x00000000, 0x00000000, 0x00000018)
    requires Rounds(Load(H0), block, 8) ==
      Vars(0x85A07B5F, 0xE5030380, 0x2B4209F5, 0x04409A6A, 0x0C657A79, 0x9B27A401, 0x714260AD, 0x43ADA245)
    ensures Rounds(Load(H0), block, 16) ==
      Vars(0xB0FA238E, 0xC0645FDE, 0xD932EB16, 0x87912990, 0x07590DCD, 0x0B92F20C, 0x745A48DE, 0x1E578218)
  {
    Keys1();
    hide Rounds, Schedule, K, H0;
    var v := Vars(0x85A07B5F, 0xE5030380, 0x2B4209F5, 0x04409A6A, 0x0C657A79, 0x9B27A401, 0x714260AD, 0x43ADA245);
    v := NextRound(block, 8, v, 0xD807AA98, 0x00000000, 0x8E04ECB9, 0x32CA2D8C);
    v := NextRound(block, 9, v, 0x12835B01, 0x00000000, 0x8C87346B, 0x1CC92596);
    v := NextRound(block, 10, v, 0x243185BE, 0x00000000, 0x4798A3F4, 0x436B23E8);
    v := NextRound(block, 11, v, 0x550C7DC3, 0x00000000, 0xF71FC5A9, 0x816FD6E9);
    v := NextRound(block, 12, v, 0x72BE5D74, 0x00000000, 0x87912990, 0x1E578218);
    v := NextRound(block, 13, v, 0x80DEB1FE, 0x00000000, 0xD932EB16, 0x745A48DE);
    v := NextRound(block, 14, v, 0x9BDC06A7, 0x00000000, 0xC0645FDE, 0x0B92F20C);
    v := NextRound(block, 15, v, 0xC19BF174, 0x00000018, 0xB0FA238E, 0x07590DCD);
  }

  lemma Keys2()
    ensures K[16] == 0xE49B69C1 && K[17] == 0xEFBE4786 && K[18] == 0x0FC19DC6 && K[19] == 0x240CA1CC
    ensures K[20] == 0x2DE92C6F && K[21] == 0x4A7484AA && K[22] == 0x5CB0A9DC && K[23] == 0x76F988DA
  {}

  lemma Rounds2(block: seq<byte>)
    requires Row(block, 16, 0x61626380, 0x000F0000, 0x7DA86405, 0x600003C6, 0x3E9D7B78, 0x0183FC00, 0x12DCBFDB, 0xE2E2C38E)
    requires Rounds(Load(H0), block, 16) ==
      Vars(0xB0FA238E, 0xC0645FDE, 0xD932EB16, 0x87912990, 0x07590DCD, 0x0B92F20C, 0x745A48DE, 0x1E578218)
    ensures Rounds(Load(H0), block, 24) ==
      Vars(0xC5D53D8D, 0xA7A3623F, 0xC2606D6D, 0x9DC68B63, 0xAA47C347, 0x49F5114A, 0xE1257970, 0x8ADA8930)
  {
    Keys2();
    hide Rounds, Schedule, K, H0;
    var v := Vars(0xB0FA238E, 0xC0645FDE, 0xD932EB16, 0x87912990, 0x07590DCD, 0x0B92F20C, 0x745A48DE, 0x1E578218);
    v := NextRound(block, 16, v, 0xE49B69C1, 0x61626380, 0x21DA9A9B, 0x8034229C);
    v := NextRound(block, 17, v, 0xEFBE4786, 0x000F0000, 0xC2FBD9D1, 0x846EE454);
    v := NextRound(block, 18, v, 0x0FC19DC6, 0x7DA86405, 0xFE777BBF, 0xCC899961);
    v := NextRound(block, 19, v, 0x240CA1CC, 0x600003C6, 0xE1F20C33, 0xB0638179);
    v := NextRound(block, 20, v, 0x2DE92C6F, 0x3E9D7B78, 0x9DC68B63, 0x8ADA8930);
    v := NextRound(block, 21, v, 0x4A7484AA, 0x0183FC00, 0xC2606D6D, 0xE1257970);
    v := NextRound(block, 22, v, 0x5CB0A9DC, 0x12DCBFDB, 0xA7A3623F, 0x49F5114A);
    v := NextRound(block, 23, v, 0x76F988DA, 0xE2E2C38E, 0xC5D53D8D, 0xAA47C347);
  }

  lemma Keys3()
    ensures K[24] == 0x983E5152 && K[25] == 0xA831C66D && K[26] == 0xB00327C8 && K[27] == 0xBF597FC7
    ensures K[28] == 0xC6E00BF3 && K[29] == 0xD5A79147 && K[30] == 0x06CA6351 && K[31] == 0x14292967
  {}

  lemma Rounds3(block: seq<byte>)
    requires Row(block, 24, 0xC8215C1A, 0xB73679A2, 0xE5BC3909, 0x32663C5B, 0x9D209D67, 0xEC8726CB, 0x702138A4, 0xD3B7973B)
    requires Rounds(Load(H0), block, 24) ==
      Vars(0xC5D53D8D, 0xA7A3623F, 0xC2606D6D, 0x9DC68B63, 0xAA47C347, 0x49F5114A, 0xE1257970, 0x8ADA8930)
    ensures Rounds(Load(H0), block, 32) ==
      Vars(0x73B33BF5, 0xEA992A22, 0xA0060B30, 0x363482C9, 0xBA591112, 0x0109AB3A, 0xADE79437, 0x6112A3B7)
  {
    Keys3();
    hide Rounds, Schedule, K, H0;
    var v := Vars(0xC5D53D8D, 0xA7A3623F, 0xC2606D6D, 0x9DC68B63, 0xAA47C347, 0x49F5114A, 0xE1257970, 0x8ADA8930);
    v := NextRound(block, 24, v, 0x983E5152, 0xC8215C1A, 0x1C2C2838, 0x2823EF91);
    v := NextRound(block, 25, v, 0xA831C66D, 0xB73679A2, 0xCDE8037D, 0x14383D8E);
    v := NextRound(block, 26, v, 0xB00327C8, 0xE5BC3909, 0xB62EC4BC, 0xC74C6516);
    v := NextRound(block, 27, v, 0xBF597FC7, 0x32663C5B, 0x77D37528, 0xEDFFBFF8);
    v := NextRound(block, 28, v, 0xC6E00BF3, 0x9D209D67, 0x363482C9, 0x6112A3B7);
    v := NextRound(block, 29, v, 0xD5A79147, 0xEC8726CB, 0xA0060B30, 0xADE79437);
    v := NextRound(block, 30, v, 0x06CA6351, 0x702138A4, 0xEA992A22, 0x0109AB3A);
    v := NextRound(block, 31, v, 0x14292967, 0xD3B7973B, 0x73B33BF5, 0xBA591112);
  }

  lemma Keys4()
    ensures K[32] == 0x27B70A85 && K[33] == 0x2E1B2138 && K[34] == 0x4D2C6DFC && K[35] == 0x53380D13
    ensures K[36] == 0x650A7354 && K[37] == 0x766A0ABB && K[38] == 0x81C2C92E && K[39] == 0x92722C85
  {}

  lemma Rounds4(block: seq<byte>)
    requires Row(block, 32, 0x93F5997F, 0x3B68BA73, 0xAFF4FFC1, 0xF10A5C62, 0x0A8B3996, 0x72AF830A, 0x9409E33E, 0x24641522)
    requires Rounds(Load(H0), block, 32) ==
      Vars(0x73B33BF5, 0xEA992A22, 0xA0060B30, 0x363482C9, 0xBA591112, 0x0109AB3A, 0xADE79437, 0x6112A3B7)
    ensures Rounds(Load(H0), block, 40) ==
      Vars(0x79EA687A, 0x6DC57A8A, 0x34DF1604, 0x41A65CB1, 0x1EFBC0A0, 0xF0781BC8, 0xA507A53D, 0x0772A26B)
  {
    Keys4();
    hide Rounds, Schedule, K, H0;
    var v := Vars(0x73B33BF5, 0xEA992A22, 0xA0060B30, 0x363482C9, 0xBA591112, 0x0109AB3A, 0xADE79437, 0x6112A3B7);
    v := NextRound(block, 32, v, 0x27B70A85, 0x93F5997F, 0x98E12507, 0x9CD9F5F6);
    v := NextRound(block, 33, v, 0x2E1B2138, 0x3B68BA73, 0xFE604DF5, 0x59249DD3);
    v := NextRound(block, 34, v, 0x4D2C6DFC, 0xAFF4FFC1, 0xA9A7738C, 0x085F3833);
    v := NextRound(block, 35, v, 0x53380D13, 0xF10A5C62, 0x65A0CFE4, 0xF4B002D6);
    v := NextRound(block, 36, v, 0x650A7354, 0x0A8B3996, 0x41A65CB1, 0x0772A26B);
    v := NextRound(block, 37, v, 0x766A0ABB, 0x72AF830A, 0x34DF1604, 0xA507A53D);
    v := NextRound(block, 38, v, 0x81C2C92E, 0x9409E33E, 0x6DC57A8A, 0xF0781BC8);
    v := NextRound(block, 39, v, 0x92722C85, 0x24641522, 0x79EA687A, 0x1EFBC0A0);
  }

  lemma Keys5()
    ensures K[40] == 0xA2BFE8A1 && K[41] == 0xA81A664B && K[42] == 0xC24B8B70 && K[43] == 0xC76C51A3
    ensures K[44] == 0xD192E819 && K[45] == 0xD6990624 && K[46] == 0xF40E3585 && K[47] == 0x106AA070
  {}

  lemma Rounds5(block: seq<byte>)
    requires Row(block, 40, 0x9F47BF94, 0xF0A64F5A, 0x3E246A79, 0x27333BA3, 0x0C4763F2, 0x840ABF27, 0x7A290D5D, 0x065C43DA)
    requires Rounds(Load(H0), block, 40) ==
      Vars(0x79EA687A, 0x6DC57A8A, 0x34DF1604, 0x41A65CB1, 0x1EFBC0A0, 0xF0781BC8, 0xA507A53D, 0x0772A26B)
    ensures Rounds(Load(H0), block, 48) ==
      Vars(0x4172328D, 0xA14C14B0, 0x72AB4B91, 0x26628815, 0xFECF0BC6, 0xD57B94A9, 0xB7755DA1, 0xA80F11F0)
  {
    Keys5();
    hide Rounds, Schedule, K, H0;
    var v := Vars(0x79EA687A, 0x6DC57A8A, 0x34DF1604, 0x41A65CB1, 0x1EFBC0A0, 0xF0781BC8, 0xA507A53D, 0x0772A26B);
    v := NextRound(block, 40, v, 0xA2BFE8A1, 0x9F47BF94, 0xD6670766, 0x26352D63);
    v := NextRound(block, 41, v, 0xA81A664B, 0xF0A64F5A, 0xDF46652F, 0x838B2711);
    v := NextRound(block, 42, v, 0xC24B8B70, 0x3E246A79, 0x17AA0DFE, 0xDECD4715);
    v := NextRound(block, 43, v, 0xC76C51A3, 0x27333BA3, 0x9D4BAF93, 0xFDA24C2E);
    v := NextRound(block, 44, v, 0xD192E819, 0x0C4763F2, 0x26628815, 0xA80F11F0);
    v := NextRound(block, 45, v, 0xD6990624, 0x840ABF27, 0x72AB4B91, 0xB7755DA1);
    v := NextRound(block, 46, v, 0xF40E3585, 0x7A290D5D, 0xA14C14B0, 0xD57B94A9);
    v := NextRound(block, 47, v, 0x106AA070, 0x065C43DA, 0x4172328D, 0xFECF0BC6);
  }

  lemma Keys6()
    ensures K[48] == 0x19A4C116 && K[49] == 0x1E376C08 && K[50] == 0x2748774C && K[51] == 0x34B0BCB5
    ensures K[52] == 0x391C0CB3 && K[53] == 0x4ED8AA4A && K[54] == 0x5B9CCA4F && K[55] == 0x682E6FF3
  {}

  lemma Rounds6(block: seq<byte>)
    requires Row(block, 48, 0xFB3E89CB, 0xCC7617DB, 0xB9E66C34, 0xA9993667, 0x84BADEDD, 0xC21462BC, 0x1487472C, 0xB20F7A99)
    requires Rounds(Load(H0), block, 48) ==
      Vars(0x4172328D, 0xA14C14B0, 0x72AB4B91, 0x26628815, 0xFECF0BC6, 0xD57B94A9, 0xB7755DA1, 0xA80F11F0)
    ensures Rounds(Load(H0), block, 56) ==
      Vars(0x38CC9913, 0x3EC45CDB, 0xF5702FDB, 0x101FD28F, 0x54CB266B, 0xE50E1B4F, 0x9F4787C3, 0x529E7D00)
  {
    Keys6();
    hide Rounds, Schedule, K, H0;
    var v := Vars(0x4172328D, 0xA14C14B0, 0x72AB4B91, 0x26628815, 0xFECF0BC6, 0xD57B94A9, 0xB7755DA1, 0xA80F11F0);
    v := NextRound(block, 48, v, 0x19A4C116, 0xFB3E89CB, 0x05757CEB, 0xBD714038);
    v := NextRound(block, 49, v, 0x1E376C08, 0xCC7617DB, 0xF11BFAA8, 0x6E5C390C);
    v := NextRound(block, 50, v, 0x2748774C, 0xB9E66C34, 0x7A0508A1, 0x52F1CCF7);
    v := NextRound(block, 51, v, 0x34B0BCB5, 0xA9993667, 0x886E7A22, 0x49231C1E);
    v := NextRound(block, 52, v, 0x391C0CB3, 0x84BADEDD, 0x101FD28F, 0x529E7D00);
    v := NextRound(block, 53, v, 0x4ED8AA4A, 0xC21462BC, 0xF5702FDB, 0x9F4787C3);
    v := NextRound(block, 54, v, 0x5B9CCA4F, 0x1487472C, 0x3EC45CDB, 0xE50E1B4F);
    v := NextRound(block, 55, v, 0x682E6FF3, 0xB20F7A99, 0x38CC9913, 0x54CB266B);
  }

  lemma Keys7()
    ensures K[56] == 0x748F82EE && K[57] == 0x78A5636F && K[58] == 0x84C87814 && K[59] == 0x8CC70208
    ensures K[60] == 0x90BEFFFA && K[61] == 0xA4506CEB && K[62] == 0xBEF9A3F7 && K[63] == 0xC67178F2
  {}

  lemma Rounds7(block: seq<byte>)
    requires Row(block, 56, 0xEF57B9CD, 0xEBE6B238, 0x9FE3095E, 0x78BC8D4B, 0xA43FCF15, 0x668B2FF8, 0xEEABA2CC, 0x12B1EDEB)
    requires Rounds(Load(H0), block, 56) ==
      Vars(0x38CC9913, 0x3EC45CDB, 0xF5702FDB, 0x101FD28F, 0x54CB266B, 0xE50E1B4F, 0x9F4787C3, 0x529E7D00)
    ensures Rounds(Load(H0), block, 64) ==
      Vars(0x506E3058, 0xD39A2165, 0x04D24D6C, 0xB85E2CE9, 0x5EF50F24, 0xFB121210, 0x948D25B6, 0x961F4894)
  {
    Keys7();
    hide Rounds, Schedule, K, H0;
    var v := Vars(0x38CC9913, 0x3EC45CDB, 0xF5702FDB, 0x101FD28F, 0x54CB266B, 0xE50E1B4F, 0x9F4787C3, 0x529E7D00);
    v := NextRound(block, 56, v, 0x748F82EE, 0xEF57B9CD, 0xFCD1887B, 0x9B5E906C);
    v := NextRound(block, 57, v, 0x78A5636F, 0xEBE6B238, 0xC062D46F, 0x7E44008E);
    v := NextRound(block, 58, v, 0x84C87814, 0x9FE3095E, 0xFFB70472, 0x6D83BFC6);
    v := NextRound(block, 59, v, 0x8CC70208, 0x78BC8D4B, 0xB6AE8FFF, 0xB21BAD3D);
    v := NextRound(block, 60, v, 0x90BEFFFA, 0xA43FCF15, 0xB85E2CE9, 0x961F4894);
    v := NextRound(block, 61, v, 0xA4506CEB, 0x668B2FF8, 0x04D24D6C, 0x948D25B6);
    v := NextRound(block, 62, v, 0xBEF9A3F7, 0xEEABA2CC, 0xD39A2165, 0xFB121210);
    v := NextRound(block, 63, v, 0xC67178F2, 0x12B1EDEB, 0x506E3058, 0x5EF50F24);
  }

  // The one block of the padded message.
  function Block(): (r: seq<byte>)
    ensures |r| == 64
  {
    [0x61, 0x62, 0x63, 0x80] + Zeros(52) + [0, 0, 0, 0, 0, 0, 0, 0x18]
  }

  lemma LengthBytes()
    ensures NumberBytes(24, 8) == [0, 0, 0, 0, 0, 0, 0, 0x18]
  {
    hide NumberBytes;
    forall i | 0 <= i < 8
      ensures NumberBytes(24, 8)[i] == if i < 7 then 0 else 0x18
    {
      NumberByteAt(24, 8, i);
      SmallShift(7 - i);
    }
  }

  lemma SmallShift(k: nat)
    ensures k > 0 ==> Shift8(24, k) == 0
  {
    if k > 0 {
      ZeroShift(k - 1);
    }
  }

  lemma {:induction false} ZeroShift(k: nat)
    ensures Shift8(0, k) == 0
  {
    if k > 0 {
      ZeroShift(k - 1);
    }
  }

  lemma PaddedAbc(m: seq<byte>)
    requires m == [0x61, 0x62, 0x63]
    ensures Padded(m) == Block()
  {
    hide NumberBytes;
    LengthBytes();
  }

  // The words that the block itself gives.
  lemma FirstWord(block: seq<byte>, t: nat, a: byte, b: byte, c: byte, d: byte, w: bv32)
    requires |block| == 64 && t < 16 && block[4 * t..4 * t + 4] == [a, b, c, d] && w == BigEndian(a, b, c, d)
    ensures Schedule(block, t) == w
  {
    hide BigEndian;
    var four := block[4 * t..4 * t + 4];
    assert block[4 * t] == four[0] && block[4 * t + 1] == four[1] && block[4 * t + 2] == four[2] && block[4 * t + 3] == four[3];
  }

  lemma MiddleWord(block: seq<byte>, t: nat)
    requires block == Block() && 1 <= t < 15
    ensures Schedule(block, t) == 0
  {
    hide Schedule, BigEndian;
    EndWords();
    assert block[4 * t..4 * t + 4] == [0, 0, 0, 0];
    FirstWord(block, t, 0, 0, 0, 0, 0);
  }

  lemma EndWords()
    ensures BigEndian(0x61, 0x62, 0x63, 0x80) == 0x61626380 && BigEndian(0, 0, 0, 0x18) == 0x18 && BigEndian(0, 0, 0, 0) == 0
  {}

  lemma EndBytes(block: seq<byte>)
    requires block == Block()
    ensures block[0..4] == [0x61, 0x62, 0x63, 0x80] && block[60..64] == [0, 0, 0, 0x18]
  {}

  lemma FirstWords(block: seq<byte>)
    requires block == Block()
    ensures Row(block, 0, 0x61626380, 0x00000000, 0x00000000, 0x00000000, 0x00000000, 0x00000000, 0x00000000, 0x00000000)
    ensures Row(block, 8, 0x00000000, 0x00000000, 0x00000000, 0x00000000, 0x00000000, 0x00000000, 0x00000000, 0x00000018)
  {
    hide Schedule, BigEndian, Block, K, H0;
    EndWords();
    EndBytes(block);
    FirstWord(block, 0, 0x61, 0x62, 0x63, 0x80, 0x61626380);
    FirstWord(block, 15, 0, 0, 0, 0x18, 0x18);
    forall t: nat | 1 <= t < 15
      ensures Schedule(block, t) == 0
    {
      MiddleWord(block, t);
    }
  }

  lemma Compressed(block: seq<byte>)
    requires block == Block()
    ensures Compress(H0, block) ==
      [0xBA7816BF, 0x8F01CFEA, 0x414140DE, 0x5DAE2223, 0xB00361A3, 0x96177A9C, 0xB410FF61, 0xF20015AD]
  {
    hide Schedule, Rounds, Row, Block;
    FirstWords(block);
    RoundsStart(block);
    Words2(block);
    Words3(block);
    Words4(block);
    Words5(block);
    Words6(block);
    Words7(block);
    Rounds0(block);
    Rounds1(block);
    Rounds2(block);
    Rounds3(block);
    Rounds4(block);
    Rounds5(block);
    Rounds6(block);
    Rounds7(block);
  }

  lemma RoundsStart(block: seq<byte>)
    requires |block| == 64
    ensures Rounds(Load(H0), block, 0) ==
      Vars(0x6A09E667, 0xBB67AE85, 0x3C6EF372, 0xA54FF53A, 0x510E527F, 0x9B05688C, 0x1F83D9AB, 0x5BE0CD19)
  {}

  // The digest of "abc" that FIPS 180-4 publishes.
  lemma Abc(m: seq<byte>)
    requires m == [0x61, 0x62, 0x63]
    ensures Digest(m) ==
      [0xBA, 0x78, 0x16, 0xBF] + [0x8F, 0x01, 0xCF, 0xEA] + [0x41, 0x41, 0x40, 0xDE] + [0x5D, 0xAE, 0x22, 0x23]
      + [0xB0, 0x03, 0x61, 0xA3] + [0x96, 0x17, 0x7A, 0x9C] + [0xB4, 0x10, 0xFF, 0x61] + [0xF2, 0x00, 0x15, 0xAD]
  {
    hide Compress, Fold, Output, Block, Padded;
    var block := Padded(m);
    PaddedAbc(m);
    FoldBlock(H0, block);
    Compressed(block);
    Written([0xBA7816BF, 0x8F01CFEA, 0x414140DE, 0x5DAE2223, 0xB00361A3, 0x96177A9C, 0xB410FF61, 0xF20015AD]);
  }

  lemma Written(h: seq<bv32>)
    requires h == [0xBA7816BF, 0x8F01CFEA, 0x414140DE, 0x5DAE2223, 0xB00361A3, 0x96177A9C, 0xB410FF61, 0xF20015AD]
    ensures Output(h) ==
      [0xBA, 0x78, 0x16, 0xBF] + [0x8F, 0x01, 0xCF, 0xEA] + [0x41, 0x41, 0x40, 0xDE] + [0x5D, 0xAE, 0x22, 0x23]
      + [0xB0, 0x03, 0x61, 0xA3] + [0x96, 0x17, 0x7A, 0x9C] + [0xB4, 0x10, 0xFF, 0x61] + [0xF2, 0x00, 0x15, 0xAD]
  {
    hide Output, BigEndian, K, H0;
    assert h[..0] == [];
    OutputNone();
    LastWords();
    var out: seq<byte> := [];
    out := PutWord(h, 0, out, 0xBA, 0x78, 0x16, 0xBF);
    out := PutWord(h, 1, out, 0x8F, 0x01, 0xCF, 0xEA);
    out := PutWord(h, 2, out, 0x41, 0x41, 0x40, 0xDE);
    out := PutWord(h, 3, out, 0x5D, 0xAE, 0x22, 0x23);
    out := PutWord(h, 4, out, 0xB0, 0x03, 0x61, 0xA3);
    out := PutWord(h, 5, out, 0x96, 0x17, 0x7A, 0x9C);
    out := PutWord(h, 6, out, 0xB4, 0x10, 0xFF, 0x61);
    out := PutWord(h, 7, out, 0xF2, 0x00, 0x15, 0xAD);
    assert h[..8] == h;
  }

  lemma LastWords()
    ensures BigEndian(0xBA, 0x78, 0x16, 0xBF) == 0xBA7816BF
    ensures BigEndian(0x8F, 0x01, 0xCF, 0xEA) == 0x8F01CFEA
    ensures BigEndian(0x41, 0x41, 0x40, 0xDE) == 0x414140DE
    ensures BigEndian(0x5D, 0xAE, 0x22, 0x23) == 0x5DAE2223
    ensures BigEndian(0xB0, 0x03, 0x61, 0xA3) == 0xB00361A3
    ensures BigEndian(0x96, 0x17, 0x7A, 0x9C) == 0x96177A9C
    ensures BigEndian(0xB4, 0x10, 0xFF, 0x61) == 0xB410FF61
    ensures BigEndian(0xF2, 0x00, 0x15, 0xAD) == 0xF20015AD
  {}

  lemma OutputNone()
    ensures Output([]) == []
  {}

  lemma PutWord(h: seq<bv32>, i: nat, out: seq<byte>, a: byte, b: byte, c: byte, d: byte) returns (r: seq<byte>)
    requires i < |h| && Output(h[..i]) == out && h[i] == BigEndian(a, b, c, d)
    ensures r == out + [a, b, c, d] && Output(h[..i + 1]) == r
  {
    hide Output, WordBytes, BigEndian;
    BytesBack(a, b, c, d);
    OutputSnoc(h[..i], h[i]);
    assert h[..i] + [h[i]] == h[..i + 1];
    r := out + [a, b, c, d];
  }
}
