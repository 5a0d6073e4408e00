/**
 * The constants of SHA-256, as sections 4.2.2 and 5.3.3 of FIPS 180-4 derive them: the first 32
 * bits of the fractional parts of the cube roots of the first 64 primes, and of the square roots
 * of the first 8.
 */
module Sha256Constants {
  import opened FirstPrimes

  const K0: seq<bv32> := [0x428a2f98, 0x71374491, 0xb5c0fbcf, 0xe9b5dba5, 0x3956c25b, 0x59f111f1, 0x923f82a4, 0xab1c5ed5]
  const K1: seq<bv32> := [0xd807aa98, 0x12835b01, 0x243185be, 0x550c7dc3, 0x72be5d74, 0x80deb1fe, 0x9bdc06a7, 0xc19bf174]
  const K2: seq<bv32> := [0xe49b69c1, 0xefbe4786, 0x0fc19dc6, 0x240ca1cc, 0x2de92c6f, 0x4a7484aa, 0x5cb0a9dc, 0x76f988da]
  const K3: seq<bv32> := [0x983e5152, 0xa831c66d, 0xb00327c8, 0xbf597fc7, 0xc6e00bf3, 0xd5a79147, 0x06ca6351, 0x14292967]
  const K4: seq<bv32> := [0x27b70a85, 0x2e1b2138, 0x4d2c6dfc, 0x53380d13, 0x650a7354, 0x766a0abb, 0x81c2c92e, 0x92722c85]
  const K5: seq<bv32> := [0xa2bfe8a1, 0xa81a664b, 0xc24b8b70, 0xc76c51a3, 0xd192e819, 0xd6990624, 0xf40e3585, 0x106aa070]
  const K6: seq<bv32> := [0x19a4c116, 0x1e376c08, 0x2748774c, 0x34b0bcb5, 0x391c0cb3, 0x4ed8aa4a, 0x5b9cca4f, 0x682e6ff3]
  const K7: seq<bv32> := [0x748f82ee, 0x78a5636f, 0x84c87814, 0x8cc70208, 0x90befffa, 0xa4506ceb, 0xbef9a3f7, 0xc67178f2]
  const K: seq<bv32> := K0 + K1 + K2 + K3 + K4 + K5 + K6 + K7

  const H0: seq<bv32> := [0x6a09e667, 0xbb67ae85, 0x3c6ef372, 0xa54ff53a, 0x510e527f, 0x9b05688c, 0x1f83d9ab, 0x5be0cd19]

  // c is the root of p, cut after 32 binary places, and k is what follows the point.
  predicate CubeRoot(p: nat, c: nat, k: bv32) {
    c * c * c <= p * 0x1_0000_0000_0000_0000_0000_0000 < (c + 1) * (c + 1) * (c + 1) && c % 0x1_0000_0000 == k as nat
  }

  predicate SquareRoot(p: nat, c: nat, h: bv32) {
    c * c <= p * 0x1_0000_0000_0000_0000 < (c + 1) * (c + 1) && c % 0x1_0000_0000 == h as nat
  }

  ghost predicate CubeFraction(p: nat, k: bv32) {
    exists c :: CubeRoot(p, c, k)
  }

  // Each constant belongs to the number at its place.
  ghost predicate CubeRoots(ps: seq<nat>, ks: seq<bv32>) {
    |ps| == |ks| && forall t :: 0 <= t < |ps| ==> CubeFraction(ps[t], ks[t])
  }

  lemma RoundConstants()
    ensures |K| == |PRIMES| == 64 && CubeRoots(PRIMES, K)
  {
    hide CubeRoots;
    Row0();
    Row1();
    Row2();
    Row3();
    Row4();
    Row5();
    Row6();
    Row7();
    Joined(P0, P1, K0, K1);
    Joined(P0 + P1, P2, K0 + K1, K2);
    Joined(P0 + P1 + P2, P3, K0 + K1 + K2, K3);
    Joined(P0 + P1 + P2 + P3, P4, K0 + K1 + K2 + K3, K4);
    Joined(P0 + P1 + P2 + P3 + P4, P5, K0 + K1 + K2 + K3 + K4, K5);
    Joined(P0 + P1 + P2 + P3 + P4 + P5, P6, K0 + K1 + K2 + K3 + K4 + K5, K6);
    Joined(P0 + P1 + P2 + P3 + P4 + P5 + P6, P7, K0 + K1 + K2 + K3 + K4 + K5 + K6, K7);
  }

  lemma Joined(ps: seq<nat>, ps': seq<nat>, ks: seq<bv32>, ks': seq<bv32>)
    requires CubeRoots(ps, ks) && CubeRoots(ps', ks')
    ensures CubeRoots(ps + ps', ks + ks')
  {
    hide CubeFraction;
  }

  lemma InitialValues(t: nat)
    requires t < 8
    ensures exists c :: SquareRoot(P0[t], c, H0[t])
  {
    assert SquareRoot(2, 0x1_6a09e667, 0x6a09e667) && SquareRoot(3, 0x1_bb67ae85, 0xbb67ae85) &&
           SquareRoot(5, 0x2_3c6ef372, 0x3c6ef372) && SquareRoot(7, 0x2_a54ff53a, 0xa54ff53a);
    assert SquareRoot(11, 0x3_510e527f, 0x510e527f) && SquareRoot(13, 0x3_9b05688c, 0x9b05688c) &&
           SquareRoot(17, 0x4_1f83d9ab, 0x1f83d9ab) && SquareRoot(19, 0x4_5be0cd19, 0x5be0cd19);
    hide SquareRoot;
    assert t in {0, 1, 2, 3, 4, 5, 6, 7};
    var roots := [0x1_6a09e667, 0x1_bb67ae85, 0x2_3c6ef372, 0x2_a54ff53a, 0x3_510e527f, 0x3_9b05688c,
                  0x4_1f83d9ab, 0x4_5be0cd19];
    assert SquareRoot(P0[t], roots[t], H0[t]);
  }

  lemma EightRoots(ps: seq<nat>, root: seq<nat>, ks: seq<bv32>)
    requires |ps| == |root| == |ks| == 8
    requires CubeRoot(ps[0], root[0], ks[0]) && CubeRoot(ps[1], root[1], ks[1]) && CubeRoot(ps[2], root[2], ks[2])
    requires CubeRoot(ps[3], root[3], ks[3]) && CubeRoot(ps[4], root[4], ks[4]) && CubeRoot(ps[5], root[5], ks[5])
    requires CubeRoot(ps[6], root[6], ks[6]) && CubeRoot(ps[7], root[7], ks[7])
    ensures CubeRoots(ps, ks)
  {
    hide CubeRoot;
    forall t | 0 <= t < 8
      ensures CubeRoot(ps[t], root[t], ks[t])
    {
      assert t in {0, 1, 2, 3, 4, 5, 6, 7};
    }
  }

  lemma Row0()
    ensures CubeRoots(P0, K0)
  {
    assert CubeRoot(2, 0x1_428a2f98, 0x428a2f98) && CubeRoot(3, 0x1_71374491, 0x71374491) &&
           CubeRoot(5, 0x1_b5c0fbcf, 0xb5c0fbcf) && CubeRoot(7, 0x1_e9b5dba5, 0xe9b5dba5);
    assert CubeRoot(11, 0x2_3956c25b, 0x3956c25b) && CubeRoot(13, 0x2_59f111f1, 0x59f111f1) &&
           CubeRoot(17, 0x2_923f82a4, 0x923f82a4) && CubeRoot(19, 0x2_ab1c5ed5, 0xab1c5ed5);
    hide CubeRoot;
    EightRoots(P0, [0x1_428a2f98, 0x1_71374491, 0x1_b5c0fbcf, 0x1_e9b5dba5, 0x2_3956c25b, 0x2_59f111f1,
               0x2_923f82a4, 0x2_ab1c5ed5], K0);
  }

  lemma Row1()
    ensures CubeRoots(P1, K1)
  {
    assert CubeRoot(23, 0x2_d807aa98, 0xd807aa98) && CubeRoot(29, 0x3_12835b01, 0x12835b01) &&
           CubeRoot(31, 0x3_243185be, 0x243185be) && CubeRoot(37, 0x3_550c7dc3, 0x550c7dc3);
    assert CubeRoot(41, 0x3_72be5d74, 0x72be5d74) && CubeRoot(43, 0x3_80deb1fe, 0x80deb1fe) &&
           CubeRoot(47, 0x3_9bdc06a7, 0x9bdc06a7) && CubeRoot(53, 0x3_c19bf174, 0xc19bf174);
    hide CubeRoot;
    EightRoots(P1, [0x2_d807aa98, 0x3_12835b01, 0x3_243185be, 0x3_550c7dc3, 0x3_72be5d74, 0x3_80deb1fe,
               0x3_9bdc06a7, 0x3_c19bf174], K1);
  }

  lemma Row2()
    ensures CubeRoots(P2, K2)
  {
    assert CubeRoot(59, 0x3_e49b69c1, 0xe49b69c1) && CubeRoot(61, 0x3_efbe4786, 0xefbe4786) &&
           CubeRoot(67, 0x4_0fc19dc6, 0x0fc19dc6) && CubeRoot(71, 0x4_240ca1cc, 0x240ca1cc);
    assert CubeRoot(73, 0x4_2de92c6f, 0x2de92c6f) && CubeRoot(79, 0x4_4a7484aa, 0x4a7484aa) &&
           CubeRoot(83, 0x4_5cb0a9dc, 0x5cb0a9dc) && CubeRoot(89, 0x4_76f988da, 0x76f988da);
    hide CubeRoot;
    EightRoots(P2, [0x3_e49b69c1, 0x3_efbe4786, 0x4_0fc19dc6, 0x4_240ca1cc, 0x4_2de92c6f, 0x4_4a7484aa,
               0x4_5cb0a9dc, 0x4_76f988da], K2);
  }

  lemma Row3()
    ensures CubeRoots(P3, K3)
  {
    assert CubeRoot(97, 0x4_983e5152, 0x983e5152) && CubeRoot(101, 0x4_a831c66d, 0xa831c66d) &&
           CubeRoot(103, 0x4_b00327c8, 0xb00327c8) && CubeRoot(107, 0x4_bf597fc7, 0xbf597fc7);
    assert CubeRoot(109, 0x4_c6e00bf3, 0xc6e00bf3) && CubeRoot(113, 0x4_d5a79147, 0xd5a79147) &&
           CubeRoot(127, 0x5_06ca6351, 0x06ca6351) && CubeRoot(131, 0x5_14292967, 0x14292967);
    hide CubeRoot;
    EightRoots(P3, [0x4_983e5152, 0x4_a831c66d, 0x4_b00327c8, 0x4_bf597fc7, 0x4_c6e00bf3, 0x4_d5a79147,
               0x5_06ca6351, 0x5_14292967], K3);
  }

  lemma Row4()
    ensures CubeRoots(P4, K4)
  {
    assert CubeRoot(137, 0x5_27b70a85, 0x27b70a85) && CubeRoot(139, 0x5_2e1b2138, 0x2e1b2138) &&
           CubeRoot(149, 0x5_4d2c6dfc, 0x4d2c6dfc) && CubeRoot(151, 0x5_53380d13, 0x53380d13);
    assert CubeRoot(157, 0x5_650a7354, 0x650a7354) && CubeRoot(163, 0x5_766a0abb, 0x766a0abb) &&
           CubeRoot(167, 0x5_81c2c92e, 0x81c2c92e) && CubeRoot(173, 0x5_92722c85, 0x92722c85);
    hide CubeRoot;
    EightRoots(P4, [0x5_27b70a85, 0x5_2e1b2138, 0x5_4d2c6dfc, 0x5_53380d13, 0x5_650a7354, 0x5_766a0abb,
               0x5_81c2c92e, 0x5_92722c85], K4);
  }

  lemma Row5()
    ensures CubeRoots(P5, K5)
  {
    assert CubeRoot(179, 0x5_a2bfe8a1, 0xa2bfe8a1) && CubeRoot(181, 0x5_a81a664b, 0xa81a664b) &&
           CubeRoot(191, 0x5_c24b8b70, 0xc24b8b70) && CubeRoot(193, 0x5_c76c51a3, 0xc76c51a3);
    assert CubeRoot(197, 0x5_d192e819, 0xd192e819) && CubeRoot(199, 0x5_d6990624, 0xd6990624) &&
           CubeRoot(211, 0x5_f40e3585, 0xf40e3585) && CubeRoot(223, 0x6_106aa070, 0x106aa070);
    hide CubeRoot;
    EightRoots(P5, [0x5_a2bfe8a1, 0x5_a81a664b, 0x5_c24b8b70, 0x5_c76c51a3, 0x5_d192e819, 0x5_d6990624,
               0x5_f40e3585, 0x6_106aa070], K5);
  }

  lemma Row6()
    ensures CubeRoots(P6, K6)
  {
    assert CubeRoot(227, 0x6_19a4c116, 0x19a4c116) && CubeRoot(229, 0x6_1e376c08, 0x1e376c08) &&
           CubeRoot(233, 0x6_2748774c, 0x2748774c) && CubeRoot(239, 0x6_34b0bcb5, 0x34b0bcb5);
    assert CubeRoot(241, 0x6_391c0cb3, 0x391c0cb3) && CubeRoot(251, 0x6_4ed8aa4a, 0x4ed8aa4a) &&
           CubeRoot(257, 0x6_5b9cca4f, 0x5b9cca4f) && CubeRoot(263, 0x6_682e6ff3, 0x682e6ff3);
    hide CubeRoot;
    EightRoots(P6, [0x6_19a4c116, 0x6_1e376c08, 0x6_2748774c, 0x6_34b0bcb5, 0x6_391c0cb3, 0x6_4ed8aa4a,
               0x6_5b9cca4f, 0x6_682e6ff3], K6);
  }

  lemma Row7()
    ensures CubeRoots(P7, K7)
  {
    assert CubeRoot(269, 0x6_748f82ee, 0x748f82ee) && CubeRoot(271, 0x6_78a5636f, 0x78a5636f) &&
           CubeRoot(277, 0x6_84c87814, 0x84c87814) && CubeRoot(281, 0x6_8cc70208, 0x8cc70208);
    assert CubeRoot(283, 0x6_90befffa, 0x90befffa) && CubeRoot(293, 0x6_a4506ceb, 0xa4506ceb) &&
           CubeRoot(307, 0x6_bef9a3f7, 0xbef9a3f7) && CubeRoot(311, 0x6_c67178f2, 0xc67178f2);
    hide CubeRoot;
    EightRoots(P7, [0x6_748f82ee, 0x6_78a5636f, 0x6_84c87814, 0x6_8cc70208, 0x6_90befffa, 0x6_a4506ceb,
               0x6_bef9a3f7, 0x6_c67178f2], K7);
  }
}
