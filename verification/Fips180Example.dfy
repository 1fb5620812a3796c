/**
  The worked example of the standard, the message "abc". Its schedule, its working variables after
  every round and its hash value follow here from the definitions, number by number, so that a
  change to any sum, function, constant or order of bytes in them would show here.
 */
module Fips180Example {
  import opened Bits
  import opened Fips180
  import opened Sha256Block
  import opened Sha256Padding

  const ABC: seq<byte> := [0x61, 0x62, 0x63]

  // ----- the message schedule -----

  ghost predicate Row0(block: seq<word>)
    requires |block| == 16
  {
    && W(block, 0) == 0x61626380 && W(block, 1) == 0x00000000
    && W(block, 2) == 0x00000000 && W(block, 3) == 0x00000000
    && W(block, 4) == 0x00000000 && W(block, 5) == 0x00000000
    && W(block, 6) == 0x00000000 && W(block, 7) == 0x00000000
    && W(block, 8) == 0x00000000 && W(block, 9) == 0x00000000
    && W(block, 10) == 0x00000000 && W(block, 11) == 0x00000000
    && W(block, 12) == 0x00000000 && W(block, 13) == 0x00000000
    && W(block, 14) == 0x00000000 && W(block, 15) == 0x00000018
  }

  ghost predicate Row1(block: seq<word>)
    requires |block| == 16
  {
    && W(block, 16) == 0x61626380 && W(block, 17) == 0x000f0000
    && W(block, 18) == 0x7da86405 && W(block, 19) == 0x600003c6
    && W(block, 20) == 0x3e9d7b78 && W(block, 21) == 0x0183fc00
    && W(block, 22) == 0x12dcbfdb && W(block, 23) == 0xe2e2c38e
    && W(block, 24) == 0xc8215c1a && W(block, 25) == 0xb73679a2
    && W(block, 26) == 0xe5bc3909 && W(block, 27) == 0x32663c5b
    && W(block, 28) == 0x9d209d67 && W(block, 29) == 0xec8726cb
    && W(block, 30) == 0x702138a4 && W(block, 31) == 0xd3b7973b
  }

  ghost predicate Row2(block: seq<word>)
    requires |block| == 16
  {
    && W(block, 32) == 0x93f5997f && W(block, 33) == 0x3b68ba73
    && W(block, 34) == 0xaff4ffc1 && W(block, 35) == 0xf10a5c62
    && W(block, 36) == 0x0a8b3996 && W(block, 37) == 0x72af830a
    && W(block, 38) == 0x9409e33e && W(block, 39) == 0x24641522
    && W(block, 40) == 0x9f47bf94 && W(block, 41) == 0xf0a64f5a
    && W(block, 42) == 0x3e246a79 && W(block, 43) == 0x27333ba3
    && W(block, 44) == 0x0c4763f2 && W(block, 45) == 0x840abf27
    && W(block, 46) == 0x7a290d5d && W(block, 47) == 0x065c43da
  }

  ghost predicate Row3(block: seq<word>)
    requires |block| == 16
  {
    && W(block, 48) == 0xfb3e89cb && W(block, 49) == 0xcc7617db
    && W(block, 50) == 0xb9e66c34 && W(block, 51) == 0xa9993667
    && W(block, 52) == 0x84badedd && W(block, 53) == 0xc21462bc
    && W(block, 54) == 0x1487472c && W(block, 55) == 0xb20f7a99
    && W(block, 56) == 0xef57b9cd && W(block, 57) == 0xebe6b238
    && W(block, 58) == 0x9fe3095e && W(block, 59) == 0x78bc8d4b
    && W(block, 60) == 0xa43fcf15 && W(block, 61) == 0x668b2ff8
    && W(block, 62) == 0xeeaba2cc && W(block, 63) == 0x12b1edeb
  }

  lemma NextWord(block: seq<word>, t: nat, w2: word, w7: word, w15: word, w16: word, w: word)
    requires |block| == 16 && t >= 16
    requires W(block, t - 2) == w2 && W(block, t - 7) == w7 && W(block, t - 15) == w15 && W(block, t - 16) == w16
    requires Sum4(SmallSigma1(w2), w7, SmallSigma0(w15), w16) == w
    ensures W(block, t) == w
  {
    hide Sum4, SmallSigma0, SmallSigma1;
  }

  lemma Row1Follows(block: seq<word>)
    requires |block| == 16 && Row0(block)
    ensures Row1(block)
  {
    hide W;
    NextWord(block, 16, 0x00000000, 0x00000000, 0x00000000, 0x61626380, 0x61626380);
    NextWord(block, 17, 0x00000018, 0x00000000, 0x00000000, 0x00000000, 0x000f0000);
    NextWord(block, 18, 0x61626380, 0x00000000, 0x00000000, 0x00000000, 0x7da86405);
    NextWord(block, 19, 0x000f0000, 0x00000000, 0x00000000, 0x00000000, 0x600003c6);
    NextWord(block, 20, 0x7da86405, 0x00000000, 0x00000000, 0x00000000, 0x3e9d7b78);
    NextWord(block, 21, 0x600003c6, 0x00000000, 0x00000000, 0x00000000, 0x0183fc00);
    NextWord(block, 22, 0x3e9d7b78, 0x00000018, 0x00000000, 0x00000000, 0x12dcbfdb);
    NextWord(block, 23, 0x0183fc00, 0x61626380, 0x00000000, 0x00000000, 0xe2e2c38e);
    NextWord(block, 24, 0x12dcbfdb, 0x000f0000, 0x00000000, 0x00000000, 0xc8215c1a);
    NextWord(block, 25, 0xe2e2c38e, 0x7da86405, 0x00000000, 0x00000000, 0xb73679a2);
    NextWord(block, 26, 0xc8215c1a, 0x600003c6, 0x00000000, 0x00000000, 0xe5bc3909);
    NextWord(block, 27, 0xb73679a2, 0x3e9d7b78, 0x00000000, 0x00000000, 0x32663c5b);
    NextWord(block, 28, 0xe5bc3909, 0x0183fc00, 0x00000000, 0x00000000, 0x9d209d67);
    NextWord(block, 29, 0x32663c5b, 0x12dcbfdb, 0x00000000, 0x00000000, 0xec8726cb);
    NextWord(block, 30, 0x9d209d67, 0xe2e2c38e, 0x00000018, 0x00000000, 0x702138a4);
    NextWord(block, 31, 0xec8726cb, 0xc8215c1a, 0x61626380, 0x00000018, 0xd3b7973b);
  }

  lemma Row2Follows(block: seq<word>)
    requires |block| == 16 && Row1(block)
    ensures Row2(block)
  {
    hide W;
    NextWord(block, 32, 0x702138a4, 0xb73679a2, 0x000f0000, 0x61626380, 0x93f5997f);
    NextWord(block, 33, 0xd3b7973b, 0xe5bc3909, 0x7da86405, 0x000f0000, 0x3b68ba73);
    NextWord(block, 34, 0x93f5997f, 0x32663c5b, 0x600003c6, 0x7da86405, 0xaff4ffc1);
    NextWord(block, 35, 0x3b68ba73, 0x9d209d67, 0x3e9d7b78, 0x600003c6, 0xf10a5c62);
    NextWord(block, 36, 0xaff4ffc1, 0xec8726cb, 0x0183fc00, 0x3e9d7b78, 0x0a8b3996);
    NextWord(block, 37, 0xf10a5c62, 0x702138a4, 0x12dcbfdb, 0x0183fc00, 0x72af830a);
    NextWord(block, 38, 0x0a8b3996, 0xd3b7973b, 0xe2e2c38e, 0x12dcbfdb, 0x9409e33e);
    NextWord(block, 39, 0x72af830a, 0x93f5997f, 0xc8215c1a, 0xe2e2c38e, 0x24641522);
    NextWord(block, 40, 0x9409e33e, 0x3b68ba73, 0xb73679a2, 0xc8215c1a, 0x9f47bf94);
    NextWord(block, 41, 0x24641522, 0xaff4ffc1, 0xe5bc3909, 0xb73679a2, 0xf0a64f5a);
    NextWord(block, 42, 0x9f47bf94, 0xf10a5c62, 0x32663c5b, 0xe5bc3909, 0x3e246a79);
    NextWord(block, 43, 0xf0a64f5a, 0x0a8b3996, 0x9d209d67, 0x32663c5b, 0x27333ba3);
    NextWord(block, 44, 0x3e246a79, 0x72af830a, 0xec8726cb, 0x9d209d67, 0x0c4763f2);
    NextWord(block, 45, 0x27333ba3, 0x9409e33e, 0x702138a4, 0xec8726cb, 0x840abf27);
    NextWord(block, 46, 0x0c4763f2, 0x24641522, 0xd3b7973b, 0x702138a4, 0x7a290d5d);
    NextWord(block, 47, 0x840abf27, 0x9f47bf94, 0x93f5997f, 0xd3b7973b, 0x065c43da);
  }

  lemma Row3Follows(block: seq<word>)
    requires |block| == 16 && Row2(block)
    ensures Row3(block)
  {
    hide W;
    NextWord(block, 48, 0x7a290d5d, 0xf0a64f5a, 0x3b68ba73, 0x93f5997f, 0xfb3e89cb);
    NextWord(block, 49, 0x065c43da, 0x3e246a79, 0xaff4ffc1, 0x3b68ba73, 0xcc7617db);
    NextWord(block, 50, 0xfb3e89cb, 0x27333ba3, 0xf10a5c62, 0xaff4ffc1, 0xb9e66c34);
    NextWord(block, 51, 0xcc7617db, 0x0c4763f2, 0x0a8b3996, 0xf10a5c62, 0xa9993667);
    NextWord(block, 52, 0xb9e66c34, 0x840abf27, 0x72af830a, 0x0a8b3996, 0x84badedd);
    NextWord(block, 53, 0xa9993667, 0x7a290d5d, 0x9409e33e, 0x72af830a, 0xc21462bc);
    NextWord(block, 54, 0x84badedd, 0x065c43da, 0x24641522, 0x9409e33e, 0x1487472c);
    NextWord(block, 55, 0xc21462bc, 0xfb3e89cb, 0x9f47bf94, 0x24641522, 0xb20f7a99);
    NextWord(block, 56, 0x1487472c, 0xcc7617db, 0xf0a64f5a, 0x9f47bf94, 0xef57b9cd);
    NextWord(block, 57, 0xb20f7a99, 0xb9e66c34, 0x3e246a79, 0xf0a64f5a, 0xebe6b238);
    NextWord(block, 58, 0xef57b9cd, 0xa9993667, 0x27333ba3, 0x3e246a79, 0x9fe3095e);
    NextWord(block, 59, 0xebe6b238, 0x84badedd, 0x0c4763f2, 0x27333ba3, 0x78bc8d4b);
    NextWord(block, 60, 0x9fe3095e, 0xc21462bc, 0x840abf27, 0x0c4763f2, 0xa43fcf15);
    NextWord(block, 61, 0x78bc8d4b, 0x1487472c, 0x7a290d5d, 0x840abf27, 0x668b2ff8);
    NextWord(block, 62, 0xa43fcf15, 0xb20f7a99, 0x065c43da, 0x7a290d5d, 0xeeaba2cc);
    NextWord(block, 63, 0x668b2ff8, 0xef57b9cd, 0xfb3e89cb, 0x065c43da, 0x12b1edeb);
  }

  // ----- the rounds -----

  /** One round: what becomes of a and e, and the six variables that move along. */
  lemma NextState(block: seq<word>, t: nat, k: word, w: word,
                  a: word, b: word, c: word, d: word, e: word, f: word, g: word, h: word, newA: word, newE: word)
    requires |block| == 16 && t < 64
    requires Rounds(VarsOf(H0), block, t) == Vars(a, b, c, d, e, f, g, h) && K[t] == k && W(block, t) == w
    requires Sum2(Sum5(h, BigSigma1(e), Ch(e, f, g), k, w), Sum2(BigSigma0(a), Maj(a, b, c))) == newA
    requires Sum2(d, Sum5(h, BigSigma1(e), Ch(e, f, g), k, w)) == newE
    ensures Rounds(VarsOf(H0), block, t + 1) == Vars(newA, a, b, c, newE, e, f, g)
  {
    hide Sum2, Sum5, BigSigma0, BigSigma1, Ch, Maj, W, K, VarsOf, H0;
  }

  lemma Constants0()
    ensures K[0] == 0x428a2f98 && K[1] == 0x71374491
    ensures K[2] == 0xb5c0fbcf && K[3] == 0xe9b5dba5
    ensures K[4] == 0x3956c25b && K[5] == 0x59f111f1
    ensures K[6] == 0x923f82a4 && K[7] == 0xab1c5ed5
  {
  }

  lemma Rounds0(block: seq<word>)
    requires |block| == 16 && Row0(block)
    requires Rounds(VarsOf(H0), block, 0)
          == Vars(0x6a09e667, 0xbb67ae85, 0x3c6ef372, 0xa54ff53a, 0x510e527f, 0x9b05688c, 0x1f83d9ab, 0x5be0cd19)
    ensures Rounds(VarsOf(H0), block, 8)
         == Vars(0x85a07b5f, 0xe5030380, 0x2b4209f5, 0x04409a6a, 0x0c657a79, 0x9b27a401, 0x714260ad, 0x43ada245)
  {
    hide K, W, Rounds, VarsOf, H0;
    Constants0();
    NextState(block, 0, 0x428a2f98, 0x61626380, 0x6a09e667, 0xbb67ae85, 0x3c6ef372, 0xa54ff53a,
              0x510e527f, 0x9b05688c, 0x1f83d9ab, 0x5be0cd19, 0x5d6aebcd, 0xfa2a4622);
    NextState(block, 1, 0x71374491, 0x00000000, 0x5d6aebcd, 0x6a09e667, 0xbb67ae85, 0x3c6ef372,
              0xfa2a4622, 0x510e527f, 0x9b05688c, 0x1f83d9ab, 0x5a6ad9ad, 0x78ce7989);
    NextState(block, 2, 0xb5c0fbcf, 0x00000000, 0x5a6ad9ad, 0x5d6aebcd, 0x6a09e667, 0xbb67ae85,
              0x78ce7989, 0xfa2a4622, 0x510e527f, 0x9b05688c, 0xc8c347a7, 0xf92939eb);
    NextState(block, 3, 0xe9b5dba5, 0x00000000, 0xc8c347a7, 0x5a6ad9ad, 0x5d6aebcd, 0x6a09e667,
              0xf92939eb, 0x78ce7989, 0xfa2a4622, 0x510e527f, 0xd550f666, 0x24e00850);
    NextState(block, 4, 0x3956c25b, 0x00000000, 0xd550f666, 0xc8c347a7, 0x5a6ad9ad, 0x5d6aebcd,
              0x24e00850, 0xf92939eb, 0x78ce7989, 0xfa2a4622, 0x04409a6a, 0x43ada245);
    NextState(block, 5, 0x59f111f1, 0x00000000, 0x04409a6a, 0xd550f666, 0xc8c347a7, 0x5a6ad9ad,
              0x43ada245, 0x24e00850, 0xf92939eb, 0x78ce7989, 0x2b4209f5, 0x714260ad);
    NextState(block, 6, 0x923f82a4, 0x00000000, 0x2b4209f5, 0x04409a6a, 0xd550f666, 0xc8c347a7,
              0x714260ad, 0x43ada245, 0x24e00850, 0xf92939eb, 0xe5030380, 0x9b27a401);
    NextState(block, 7, 0xab1c5ed5, 0x00000000, 0xe5030380, 0x2b4209f5, 0x04409a6a, 0xd550f666,
              0x9b27a401, 0x714260ad, 0x43ada245, 0x24e00850, 0x85a07b5f, 0x0c657a79);
  }

  lemma Constants8()
    ensures K[8] == 0xd807aa98 && K[9] == 0x12835b01
    ensures K[10] == 0x243185be && K[11] == 0x550c7dc3
    ensures K[12] == 0x72be5d74 && K[13] == 0x80deb1fe
    ensures K[14] == 0x9bdc06a7 && K[15] == 0xc19bf174
  {
  }

  lemma Rounds8(block: seq<word>)
    requires |block| == 16 && Row0(block)
    requires Rounds(VarsOf(H0), block, 8)
          == Vars(0x85a07b5f, 0xe5030380, 0x2b4209f5, 0x04409a6a, 0x0c657a79, 0x9b27a401, 0x714260ad, 0x43ada245)
    ensures Rounds(VarsOf(H0), block, 16)
         == Vars(0xb0fa238e, 0xc0645fde, 0xd932eb16, 0x87912990, 0x07590dcd, 0x0b92f20c, 0x745a48de, 0x1e578218)
  {
    hide K, W, Rounds, VarsOf, H0;
    Constants8();
    NextState(block, 8, 0xd807aa98, 0x00000000, 0x85a07b5f, 0xe5030380, 0x2b4209f5, 0x04409a6a,
              0x0c657a79, 0x9b27a401, 0x714260ad, 0x43ada245, 0x8e04ecb9, 0x32ca2d8c);
    NextState(block, 9, 0x12835b01, 0x00000000, 0x8e04ecb9, 0x85a07b5f, 0xe5030380, 0x2b4209f5,
              0x32ca2d8c, 0x0c657a79, 0x9b27a401, 0x714260ad, 0x8c87346b, 0x1cc92596);
    NextState(block, 10, 0x243185be, 0x00000000, 0x8c87346b, 0x8e04ecb9, 0x85a07b5f, 0xe5030380,
              0x1cc92596, 0x32ca2d8c, 0x0c657a79, 0x9b27a401, 0x4798a3f4, 0x436b23e8);
    NextState(block, 11, 0x550c7dc3, 0x00000000, 0x4798a3f4, 0x8c87346b, 0x8e04ecb9, 0x85a07b5f,
              0x436b23e8, 0x1cc92596, 0x32ca2d8c, 0x0c657a79, 0xf71fc5a9, 0x816fd6e9);
    NextState(block, 12, 0x72be5d74, 0x00000000, 0xf71fc5a9, 0x4798a3f4, 0x8c87346b, 0x8e04ecb9,
              0x816fd6e9, 0x436b23e8, 0x1cc92596, 0x32ca2d8c, 0x87912990, 0x1e578218);
    NextState(block, 13, 0x80deb1fe, 0x00000000, 0x87912990, 0xf71fc5a9, 0x4798a3f4, 0x8c87346b,
              0x1e578218, 0x816fd6e9, 0x436b23e8, 0x1cc92596, 0xd932eb16, 0x745a48de);
    NextState(block, 14, 0x9bdc06a7, 0x00000000, 0xd932eb16, 0x87912990, 0xf71fc5a9, 0x4798a3f4,
              0x745a48de, 0x1e578218, 0x816fd6e9, 0x436b23e8, 0xc0645fde, 0x0b92f20c);
    NextState(block, 15, 0xc19bf174, 0x00000018, 0xc0645fde, 0xd932eb16, 0x87912990, 0xf71fc5a9,
              0x0b92f20c, 0x745a48de, 0x1e578218, 0x816fd6e9, 0xb0fa238e, 0x07590dcd);
  }

  lemma Constants16()
    ensures K[16] == 0xe49b69c1 && K[17] == 0xefbe4786
    ensures K[18] == 0x0fc19dc6 && K[19] == 0x240ca1cc
    ensures K[20] == 0x2de92c6f && K[21] == 0x4a7484aa
    ensures K[22] == 0x5cb0a9dc && K[23] == 0x76f988da
  {
  }

  lemma Rounds16(block: seq<word>)
    requires |block| == 16 && Row1(block)
    requires Rounds(VarsOf(H0), block, 16)
          == Vars(0xb0fa238e, 0xc0645fde, 0xd932eb16, 0x87912990, 0x07590dcd, 0x0b92f20c, 0x745a48de, 0x1e578218)
    ensures Rounds(VarsOf(H0), block, 24)
         == Vars(0xc5d53d8d, 0xa7a3623f, 0xc2606d6d, 0x9dc68b63, 0xaa47c347, 0x49f5114a, 0xe1257970, 0x8ada8930)
  {
    hide K, W, Rounds, VarsOf, H0;
    Constants16();
    NextState(block, 16, 0xe49b69c1, 0x61626380, 0xb0fa238e, 0xc0645fde, 0xd932eb16, 0x87912990,
              0x07590dcd, 0x0b92f20c, 0x745a48de, 0x1e578218, 0x21da9a9b, 0x8034229c);
    NextState(block, 17, 0xefbe4786, 0x000f0000, 0x21da9a9b, 0xb0fa238e, 0xc0645fde, 0xd932eb16,
              0x8034229c, 0x07590dcd, 0x0b92f20c, 0x745a48de, 0xc2fbd9d1, 0x846ee454);
    NextState(block, 18, 0x0fc19dc6, 0x7da86405, 0xc2fbd9d1, 0x21da9a9b, 0xb0fa238e, 0xc0645fde,
              0x846ee454, 0x8034229c, 0x07590dcd, 0x0b92f20c, 0xfe777bbf, 0xcc899961);
    NextState(block, 19, 0x240ca1cc, 0x600003c6, 0xfe777bbf, 0xc2fbd9d1, 0x21da9a9b, 0xb0fa238e,
              0xcc899961, 0x846ee454, 0x8034229c, 0x07590dcd, 0xe1f20c33, 0xb0638179);
    NextState(block, 20, 0x2de92c6f, 0x3e9d7b78, 0xe1f20c33, 0xfe777bbf, 0xc2fbd9d1, 0x21da9a9b,
              0xb0638179, 0xcc899961, 0x846ee454, 0x8034229c, 0x9dc68b63, 0x8ada8930);
    NextState(block, 21, 0x4a7484aa, 0x0183fc00, 0x9dc68b63, 0xe1f20c33, 0xfe777bbf, 0xc2fbd9d1,
              0x8ada8930, 0xb0638179, 0xcc899961, 0x846ee454, 0xc2606d6d, 0xe1257970);
    NextState(block, 22, 0x5cb0a9dc, 0x12dcbfdb, 0xc2606d6d, 0x9dc68b63, 0xe1f20c33, 0xfe777bbf,
              0xe1257970, 0x8ada8930, 0xb0638179, 0xcc899961, 0xa7a3623f, 0x49f5114a);
    NextState(block, 23, 0x76f988da, 0xe2e2c38e, 0xa7a3623f, 0xc2606d6d, 0x9dc68b63, 0xe1f20c33,
              0x49f5114a, 0xe1257970, 0x8ada8930, 0xb0638179, 0xc5d53d8d, 0xaa47c347);
  }

  lemma Constants24()
    ensures K[24] == 0x983e5152 && K[25] == 0xa831c66d
    ensures K[26] == 0xb00327c8 && K[27] == 0xbf597fc7
    ensures K[28] == 0xc6e00bf3 && K[29] == 0xd5a79147
    ensures K[30] == 0x06ca6351 && K[31] == 0x14292967
  {
  }

  lemma Rounds24(block: seq<word>)
    requires |block| == 16 && Row1(block)
    requires Rounds(VarsOf(H0), block, 24)
          == Vars(0xc5d53d8d, 0xa7a3623f, 0xc2606d6d, 0x9dc68b63, 0xaa47c347, 0x49f5114a, 0xe1257970, 0x8ada8930)
    ensures Rounds(VarsOf(H0), block, 32)
         == Vars(0x73b33bf5, 0xea992a22, 0xa0060b30, 0x363482c9, 0xba591112, 0x0109ab3a, 0xade79437, 0x6112a3b7)
  {
    hide K, W, Rounds, VarsOf, H0;
    Constants24();
    NextState(block, 24, 0x983e5152, 0xc8215c1a, 0xc5d53d8d, 0xa7a3623f, 0xc2606d6d, 0x9dc68b63,
              0xaa47c347, 0x49f5114a, 0xe1257970, 0x8ada8930, 0x1c2c2838, 0x2823ef91);
    NextState(block, 25, 0xa831c66d, 0xb73679a2, 0x1c2c2838, 0xc5d53d8d, 0xa7a3623f, 0xc2606d6d,
              0x2823ef91, 0xaa47c347, 0x49f5114a, 0xe1257970, 0xcde8037d, 0x14383d8e);
    NextState(block, 26, 0xb00327c8, 0xe5bc3909, 0xcde8037d, 0x1c2c2838, 0xc5d53d8d, 0xa7a3623f,
              0x14383d8e, 0x2823ef91, 0xaa47c347, 0x49f5114a, 0xb62ec4bc, 0xc74c6516);
    NextState(block, 27, 0xbf597fc7, 0x32663c5b, 0xb62ec4bc, 0xcde8037d, 0x1c2c2838, 0xc5d53d8d,
              0xc74c6516, 0x14383d8e, 0x2823ef91, 0xaa47c347, 0x77d37528, 0xedffbff8);
    NextState(block, 28, 0xc6e00bf3, 0x9d209d67, 0x77d37528, 0xb62ec4bc, 0xcde8037d, 0x1c2c2838,
              0xedffbff8, 0xc74c6516, 0x14383d8e, 0x2823ef91, 0x363482c9, 0x6112a3b7);
    NextState(block, 29, 0xd5a79147, 0xec8726cb, 0x363482c9, 0x77d37528, 0xb62ec4bc, 0xcde8037d,
              0x6112a3b7, 0xedffbff8, 0xc74c6516, 0x14383d8e, 0xa0060b30, 0xade79437);
    NextState(block, 30, 0x06ca6351, 0x702138a4, 0xa0060b30, 0x363482c9, 0x77d37528, 0xb62ec4bc,
              0xade79437, 0x6112a3b7, 0xedffbff8, 0xc74c6516, 0xea992a22, 0x0109ab3a);
    NextState(block, 31, 0x14292967, 0xd3b7973b, 0xea992a22, 0xa0060b30, 0x363482c9, 0x77d37528,
              0x0109ab3a, 0xade79437, 0x6112a3b7, 0xedffbff8, 0x73b33bf5, 0xba591112);
  }

  lemma Constants32()
    ensures K[32] == 0x27b70a85 && K[33] == 0x2e1b2138
    ensures K[34] == 0x4d2c6dfc && K[35] == 0x53380d13
    ensures K[36] == 0x650a7354 && K[37] == 0x766a0abb
    ensures K[38] == 0x81c2c92e && K[39] == 0x92722c85
  {
  }

  lemma Rounds32(block: seq<word>)
    requires |block| == 16 && Row2(block)
    requires Rounds(VarsOf(H0), block, 32)
          == Vars(0x73b33bf5, 0xea992a22, 0xa0060b30, 0x363482c9, 0xba591112, 0x0109ab3a, 0xade79437, 0x6112a3b7)
    ensures Rounds(VarsOf(H0), block, 40)
         == Vars(0x79ea687a, 0x6dc57a8a, 0x34df1604, 0x41a65cb1, 0x1efbc0a0, 0xf0781bc8, 0xa507a53d, 0x0772a26b)
  {
    hide K, W, Rounds, VarsOf, H0;
    Constants32();
    NextState(block, 32, 0x27b70a85, 0x93f5997f, 0x73b33bf5, 0xea992a22, 0xa0060b30, 0x363482c9,
              0xba591112, 0x0109ab3a, 0xade79437, 0x6112a3b7, 0x98e12507, 0x9cd9f5f6);
    NextState(block, 33, 0x2e1b2138, 0x3b68ba73, 0x98e12507, 0x73b33bf5, 0xea992a22, 0xa0060b30,
              0x9cd9f5f6, 0xba591112, 0x0109ab3a, 0xade79437, 0xfe604df5, 0x59249dd3);
    NextState(block, 34, 0x4d2c6dfc, 0xaff4ffc1, 0xfe604df5, 0x98e12507, 0x73b33bf5, 0xea992a22,
              0x59249dd3, 0x9cd9f5f6, 0xba591112, 0x0109ab3a, 0xa9a7738c, 0x085f3833);
    NextState(block, 35, 0x53380d13, 0xf10a5c62, 0xa9a7738c, 0xfe604df5, 0x98e12507, 0x73b33bf5,
              0x085f3833, 0x59249dd3, 0x9cd9f5f6, 0xba591112, 0x65a0cfe4, 0xf4b002d6);
    NextState(block, 36, 0x650a7354, 0x0a8b3996, 0x65a0cfe4, 0xa9a7738c, 0xfe604df5, 0x98e12507,
              0xf4b002d6, 0x085f3833, 0x59249dd3, 0x9cd9f5f6, 0x41a65cb1, 0x0772a26b);
    NextState(block, 37, 0x766a0abb, 0x72af830a, 0x41a65cb1, 0x65a0cfe4, 0xa9a7738c, 0xfe604df5,
              0x0772a26b, 0xf4b002d6, 0x085f3833, 0x59249dd3, 0x34df1604, 0xa507a53d);
    NextState(block, 38, 0x81c2c92e, 0x9409e33e, 0x34df1604, 0x41a65cb1, 0x65a0cfe4, 0xa9a7738c,
              0xa507a53d, 0x0772a26b, 0xf4b002d6, 0x085f3833, 0x6dc57a8a, 0xf0781bc8);
    NextState(block, 39, 0x92722c85, 0x24641522, 0x6dc57a8a, 0x34df1604, 0x41a65cb1, 0x65a0cfe4,
              0xf0781bc8, 0xa507a53d, 0x0772a26b, 0xf4b002d6, 0x79ea687a, 0x1efbc0a0);
  }

  lemma Constants40()
    ensures K[40] == 0xa2bfe8a1 && K[41] == 0xa81a664b
    ensures K[42] == 0xc24b8b70 && K[43] == 0xc76c51a3
    ensures K[44] == 0xd192e819 && K[45] == 0xd6990624
    ensures K[46] == 0xf40e3585 && K[47] == 0x106aa070
  {
  }

  lemma Rounds40(block: seq<word>)
    requires |block| == 16 && Row2(block)
    requires Rounds(VarsOf(H0), block, 40)
          == Vars(0x79ea687a, 0x6dc57a8a, 0x34df1604, 0x41a65cb1, 0x1efbc0a0, 0xf0781bc8, 0xa507a53d, 0x0772a26b)
    ensures Rounds(VarsOf(H0), block, 48)
         == Vars(0x4172328d, 0xa14c14b0, 0x72ab4b91, 0x26628815, 0xfecf0bc6, 0xd57b94a9, 0xb7755da1, 0xa80f11f0)
  {
    hide K, W, Rounds, VarsOf, H0;
    Constants40();
    NextState(block, 40, 0xa2bfe8a1, 0x9f47bf94, 0x79ea687a, 0x6dc57a8a, 0x34df1604, 0x41a65cb1,
              0x1efbc0a0, 0xf0781bc8, 0xa507a53d, 0x0772a26b, 0xd6670766, 0x26352d63);
    NextState(block, 41, 0xa81a664b, 0xf0a64f5a, 0xd6670766, 0x79ea687a, 0x6dc57a8a, 0x34df1604,
              0x26352d63, 0x1efbc0a0, 0xf0781bc8, 0xa507a53d, 0xdf46652f, 0x838b2711);
    NextState(block, 42, 0xc24b8b70, 0x3e246a79, 0xdf46652f, 0xd6670766, 0x79ea687a, 0x6dc57a8a,
              0x838b2711, 0x26352d63, 0x1efbc0a0, 0xf0781bc8, 0x17aa0dfe, 0xdecd4715);
    NextState(block, 43, 0xc76c51a3, 0x27333ba3, 0x17aa0dfe, 0xdf46652f, 0xd6670766, 0x79ea687a,
              0xdecd4715, 0x838b2711, 0x26352d63, 0x1efbc0a0, 0x9d4baf93, 0xfda24c2e);
    NextState(block, 44, 0xd192e819, 0x0c4763f2, 0x9d4baf93, 0x17aa0dfe, 0xdf46652f, 0xd6670766,
              0xfda24c2e, 0xdecd4715, 0x838b2711, 0x26352d63, 0x26628815, 0xa80f11f0);
    NextState(block, 45, 0xd6990624, 0x840abf27, 0x26628815, 0x9d4baf93, 0x17aa0dfe, 0xdf46652f,
              0xa80f11f0, 0xfda24c2e, 0xdecd4715, 0x838b2711, 0x72ab4b91, 0xb7755da1);
    NextState(block, 46, 0xf40e3585, 0x7a290d5d, 0x72ab4b91, 0x26628815, 0x9d4baf93, 0x17aa0dfe,
              0xb7755da1, 0xa80f11f0, 0xfda24c2e, 0xdecd4715, 0xa14c14b0, 0xd57b94a9);
    NextState(block, 47, 0x106aa070, 0x065c43da, 0xa14c14b0, 0x72ab4b91, 0x26628815, 0x9d4baf93,
              0xd57b94a9, 0xb7755da1, 0xa80f11f0, 0xfda24c2e, 0x4172328d, 0xfecf0bc6);
  }

  lemma Constants48()
    ensures K[48] == 0x19a4c116 && K[49] == 0x1e376c08
    ensures K[50] == 0x2748774c && K[51] == 0x34b0bcb5
    ensures K[52] == 0x391c0cb3 && K[53] == 0x4ed8aa4a
    ensures K[54] == 0x5b9cca4f && K[55] == 0x682e6ff3
  {
  }

  lemma Rounds48(block: seq<word>)
    requires |block| == 16 && Row3(block)
    requires Rounds(VarsOf(H0), block, 48)
          == Vars(0x4172328d, 0xa14c14b0, 0x72ab4b91, 0x26628815, 0xfecf0bc6, 0xd57b94a9, 0xb7755da1, 0xa80f11f0)
    ensures Rounds(VarsOf(H0), block, 56)
         == Vars(0x38cc9913, 0x3ec45cdb, 0xf5702fdb, 0x101fd28f, 0x54cb266b, 0xe50e1b4f, 0x9f4787c3, 0x529e7d00)
  {
    hide K, W, Rounds, VarsOf, H0;
    Constants48();
    NextState(block, 48, 0x19a4c116, 0xfb3e89cb, 0x4172328d, 0xa14c14b0, 0x72ab4b91, 0x26628815,
              0xfecf0bc6, 0xd57b94a9, 0xb7755da1, 0xa80f11f0, 0x05757ceb, 0xbd714038);
    NextState(block, 49, 0x1e376c08, 0xcc7617db, 0x05757ceb, 0x4172328d, 0xa14c14b0, 0x72ab4b91,
              0xbd714038, 0xfecf0bc6, 0xd57b94a9, 0xb7755da1, 0xf11bfaa8, 0x6e5c390c);
    NextState(block, 50, 0x2748774c, 0xb9e66c34, 0xf11bfaa8, 0x05757ceb, 0x4172328d, 0xa14c14b0,
              0x6e5c390c, 0xbd714038, 0xfecf0bc6, 0xd57b94a9, 0x7a0508a1, 0x52f1ccf7);
    NextState(block, 51, 0x34b0bcb5, 0xa9993667, 0x7a0508a1, 0xf11bfaa8, 0x05757ceb, 0x4172328d,
              0x52f1ccf7, 0x6e5c390c, 0xbd714038, 0xfecf0bc6, 0x886e7a22, 0x49231c1e);
    NextState(block, 52, 0x391c0cb3, 0x84badedd, 0x886e7a22, 0x7a0508a1, 0xf11bfaa8, 0x05757ceb,
              0x49231c1e, 0x52f1ccf7, 0x6e5c390c, 0xbd714038, 0x101fd28f, 0x529e7d00);
    NextState(block, 53, 0x4ed8aa4a, 0xc21462bc, 0x101fd28f, 0x886e7a22, 0x7a0508a1, 0xf11bfaa8,
              0x529e7d00, 0x49231c1e, 0x52f1ccf7, 0x6e5c390c, 0xf5702fdb, 0x9f4787c3);
    NextState(block, 54, 0x5b9cca4f, 0x1487472c, 0xf5702fdb, 0x101fd28f, 0x886e7a22, 0x7a0508a1,
              0x9f4787c3, 0x529e7d00, 0x49231c1e, 0x52f1ccf7, 0x3ec45cdb, 0xe50e1b4f);
    NextState(block, 55, 0x682e6ff3, 0xb20f7a99, 0x3ec45cdb, 0xf5702fdb, 0x101fd28f, 0x886e7a22,
              0xe50e1b4f, 0x9f4787c3, 0x529e7d00, 0x49231c1e, 0x38cc9913, 0x54cb266b);
  }

  lemma Constants56()
    ensures K[56] == 0x748f82ee && K[57] == 0x78a5636f
    ensures K[58] == 0x84c87814 && K[59] == 0x8cc70208
    ensures K[60] == 0x90befffa && K[61] == 0xa4506ceb
    ensures K[62] == 0xbef9a3f7 && K[63] == 0xc67178f2
  {
  }

  lemma Rounds56(block: seq<word>)
    requires |block| == 16 && Row3(block)
    requires Rounds(VarsOf(H0), block, 56)
          == Vars(0x38cc9913, 0x3ec45cdb, 0xf5702fdb, 0x101fd28f, 0x54cb266b, 0xe50e1b4f, 0x9f4787c3, 0x529e7d00)
    ensures Rounds(VarsOf(H0), block, 64)
         == Vars(0x506e3058, 0xd39a2165, 0x04d24d6c, 0xb85e2ce9, 0x5ef50f24, 0xfb121210, 0x948d25b6, 0x961f4894)
  {
    hide K, W, Rounds, VarsOf, H0;
    Constants56();
    NextState(block, 56, 0x748f82ee, 0xef57b9cd, 0x38cc9913, 0x3ec45cdb, 0xf5702fdb, 0x101fd28f,
              0x54cb266b, 0xe50e1b4f, 0x9f4787c3, 0x529e7d00, 0xfcd1887b, 0x9b5e906c);
    NextState(block, 57, 0x78a5636f, 0xebe6b238, 0xfcd1887b, 0x38cc9913, 0x3ec45cdb, 0xf5702fdb,
              0x9b5e906c, 0x54cb266b, 0xe50e1b4f, 0x9f4787c3, 0xc062d46f, 0x7e44008e);
    NextState(block, 58, 0x84c87814, 0x9fe3095e, 0xc062d46f, 0xfcd1887b, 0x38cc9913, 0x3ec45cdb,
              0x7e44008e, 0x9b5e906c, 0x54cb266b, 0xe50e1b4f, 0xffb70472, 0x6d83bfc6);
    NextState(block, 59, 0x8cc70208, 0x78bc8d4b, 0xffb70472, 0xc062d46f, 0xfcd1887b, 0x38cc9913,
              0x6d83bfc6, 0x7e44008e, 0x9b5e906c, 0x54cb266b, 0xb6ae8fff, 0xb21bad3d);
    NextState(block, 60, 0x90befffa, 0xa43fcf15, 0xb6ae8fff, 0xffb70472, 0xc062d46f, 0xfcd1887b,
              0xb21bad3d, 0x6d83bfc6, 0x7e44008e, 0x9b5e906c, 0xb85e2ce9, 0x961f4894);
    NextState(block, 61, 0xa4506ceb, 0x668b2ff8, 0xb85e2ce9, 0xb6ae8fff, 0xffb70472, 0xc062d46f,
              0x961f4894, 0xb21bad3d, 0x6d83bfc6, 0x7e44008e, 0x04d24d6c, 0x948d25b6);
    NextState(block, 62, 0xbef9a3f7, 0xeeaba2cc, 0x04d24d6c, 0xb85e2ce9, 0xb6ae8fff, 0xffb70472,
              0x948d25b6, 0x961f4894, 0xb21bad3d, 0x6d83bfc6, 0xd39a2165, 0xfb121210);
    NextState(block, 63, 0xc67178f2, 0x12b1edeb, 0xd39a2165, 0x04d24d6c, 0xb85e2ce9, 0xb6ae8fff,
              0xfb121210, 0x948d25b6, 0x961f4894, 0xb21bad3d, 0x506e3058, 0x5ef50f24);
  }

  lemma LastState(block: seq<word>)
    requires |block| == 16 && Row0(block)
    ensures Rounds(VarsOf(H0), block, 64)
         == Vars(0x506e3058, 0xd39a2165, 0x04d24d6c, 0xb85e2ce9, 0x5ef50f24, 0xfb121210, 0x948d25b6, 0x961f4894)
  {
    hide W, Row0, Row1, Row2, Row3;
    Row1Follows(block);
    Row2Follows(block);
    Row3Follows(block);
    assert Rounds(VarsOf(H0), block, 0) == VarsOf(H0);
    hide Rounds, VarsOf, H0;
    Rounds0(block);
    Rounds8(block);
    Rounds16(block);
    Rounds24(block);
    Rounds32(block);
    Rounds40(block);
    Rounds48(block);
    Rounds56(block);
  }

  const HASH_OF_ABC: seq<word> :=
    [0xba7816bf, 0x8f01cfea, 0x414140de, 0x5dae2223,
     0xb00361a3, 0x96177a9c, 0xb410ff61, 0xf20015ad]

  // ----- the padded message -----

  function AbcBlock(): seq<byte> {
    ABC + PadTail(3, 0x80, 24)
  }

  lemma AbcPadded()
    ensures BytesBits(AbcBlock()) == Pad(BytesBits(ABC))
  {
    hide BytesBits, PadTail, MarksEnd, Pad;
    WholeBytesMark();
    PaddedIsFips(ABC, [], 0x80);
    assert BytesBits(ABC) + [] == BytesBits(ABC);
  }

  lemma AbcBlockBytes()
    ensures |AbcBlock()| == 64
    ensures AbcBlock()[0] == 0x61 && AbcBlock()[1] == 0x62 && AbcBlock()[2] == 0x63 && AbcBlock()[3] == 0x80
    ensures forall i :: 4 <= i < 63 ==> AbcBlock()[i] == 0
    ensures AbcBlock()[63] == 0x18
  {
    hide NatBytes;
    LengthBytes(0, 24);
    assert WordBytes(0) == [0, 0, 0, 0] && WordBytes(24) == [0, 0, 0, 0x18];
  }

  lemma AbcWord(t: nat, w: word)
    requires t < 16
    requires w == if t == 0 then 0x61626380 else if t == 15 then 0x18 else 0
    ensures |ByteWords(AbcBlock())| == 16 && W(ByteWords(AbcBlock()), t) == w
  {
    hide AbcBlock, ByteWords, BigEndian;
    AbcBlockBytes();
    ByteWordAt(AbcBlock(), t);
    BigEndianValues();
  }

  lemma BigEndianValues()
    ensures BigEndian(0x61, 0x62, 0x63, 0x80) == 0x61626380
    ensures BigEndian(0, 0, 0, 0x18) == 0x18 && BigEndian(0, 0, 0, 0) == 0
  {
  }

  lemma AbcRow()
    ensures |ByteWords(AbcBlock())| == 16 && Row0(ByteWords(AbcBlock()))
  {
    hide W, ByteWords, AbcBlock;
    AbcWord(0, 0x61626380);
    AbcWord(1, 0);
    AbcWord(2, 0);
    AbcWord(3, 0);
    AbcWord(4, 0);
    AbcWord(5, 0);
    AbcWord(6, 0);
    AbcWord(7, 0);
    AbcWord(8, 0);
    AbcWord(9, 0);
    AbcWord(10, 0);
    AbcWord(11, 0);
    AbcWord(12, 0);
    AbcWord(13, 0);
    AbcWord(14, 0);
    AbcWord(15, 0x18);
  }

  lemma LastSums()
    ensures AddVars(H0,
              Vars(0x506e3058, 0xd39a2165, 0x04d24d6c, 0xb85e2ce9, 0x5ef50f24, 0xfb121210, 0x948d25b6, 0x961f4894))
         == HASH_OF_ABC
  {
  }

  lemma SixtyFour()
    ensures |K| == 64
  {
  }

  lemma CompressAbc(block: seq<word>)
    requires |block| == 16 && Row0(block)
    ensures Compress(H0, block) == HASH_OF_ABC
  {
    SixtyFour();
    hide K, Compress, Row0, Rounds, AddVars, VarsOf;
    LastState(block);
    LastSums();
    CompressByParts(H0, block, Rounds(VarsOf(H0), block, 64));
  }

  /** The hash value of "abc" is the one the standard's example gives. */
  lemma HashOfAbc()
    ensures Hash(BytesBits(ABC)) == HASH_OF_ABC
  {
    hide BytesBits, Pad, Fold, Compress, ByteWords, AbcBlock, Row0;
    AbcPadded();
    AbcBlockBytes();
    AbcRow();
    CompressAbc(ByteWords(AbcBlock()));
    FoldBlock(H0, AbcBlock());
  }
}
