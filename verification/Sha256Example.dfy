// The digest of a known message: "abc", the example FIPS 180-4 is published with and one
// that the program's own tests expect. It ties the functions of Sha256.dfy to numbers
// they were not written from.
module Sha256Example {
  import opened Bytes
  import opened Sha256

  predicate IsAbc(message: seq<Byte>) {
    message == [0x61, 0x62, 0x63]
  }

  // ---- the padded message ---------------------------------------------------

  ghost predicate IsBlock(block: seq<Byte>) {
    && |block| == BLOCK && block[0] == 0x61 && block[1] == 0x62 && block[2] == 0x63 && block[3] == 0x80
    && (forall k | 4 <= k < 63 :: block[k] == 0) && block[63] == 24
  }

  lemma PaddedAbc(message: seq<Byte>)
    requires IsAbc(message)
    ensures IsBlock(Padded(message))
  {
    Widths();
    LengthOfAbc();
    hide LengthBlock;
  }

  lemma LengthOfAbc()
    ensures LengthBlock(3) == [0, 0, 0, 0, 0, 0, 0, 24]
  {
    LowEnd();
    hide Le;
    assert 8 * 3 % U64_LIMIT == 24;
    assert Reverse([24, 0, 0, 0, 0, 0, 0, 0]) == [0, 0, 0, 0, 0, 0, 0, 24];
  }

  lemma LowEnd()
    ensures Le(24, 8) == [24, 0, 0, 0, 0, 0, 0, 0]
  {
  }

  // ---- the message schedule, eight words at a time --------------------------

  /** Eight words of the schedule from position `t` on. */
  ghost predicate Eight(block: seq<Byte>, t: nat, a: Word, b: Word, c: Word, d: Word, e: Word, f: Word, g: Word, h: Word) {
    && |block| == BLOCK
    && Schedule(block, t) == a && Schedule(block, t + 1) == b && Schedule(block, t + 2) == c
    && Schedule(block, t + 3) == d && Schedule(block, t + 4) == e && Schedule(block, t + 5) == f
    && Schedule(block, t + 6) == g && Schedule(block, t + 7) == h
  }

  lemma PackedWords()
    ensures BigEndianWord(0x61, 0x62, 0x63, 0x80) == 0x61626380
    ensures BigEndianWord(0, 0, 0, 24) == 24 && BigEndianWord(0, 0, 0, 0) == 0
  {
  }

  lemma FirstWords(block: seq<Byte>, t: nat)
    requires IsBlock(block) && t < 16
    ensures Schedule(block, t) == if t == 0 then 0x61626380 else if t == 15 then 24 else 0
  {
    ScheduleWord(block, t);
    PackedWords();
    hide Schedule, BigEndianWord;
  }

  lemma Words0(block: seq<Byte>, t: nat)
    requires IsBlock(block) && t == 0
    ensures Eight(block, t, 0x61626380, 0, 0, 0,
                  0, 0, 0, 0)
  {
    FirstWords(block, 0); FirstWords(block, 1); FirstWords(block, 2); FirstWords(block, 3);
    FirstWords(block, 4); FirstWords(block, 5); FirstWords(block, 6); FirstWords(block, 7);
    hide Schedule, IsBlock;
  }

  lemma Words8(block: seq<Byte>, t: nat)
    requires IsBlock(block) && t == 8
    ensures Eight(block, t, 0, 0, 0, 0,
                  0, 0, 0, 0x00000018)
  {
    FirstWords(block, 8); FirstWords(block, 9); FirstWords(block, 10); FirstWords(block, 11);
    FirstWords(block, 12); FirstWords(block, 13); FirstWords(block, 14); FirstWords(block, 15);
    hide Schedule, IsBlock;
  }

  lemma Words16(block: seq<Byte>, t: nat)
    requires IsBlock(block) && t == 16
    ensures Eight(block, t, 0x61626380, 0x000f0000, 0x7da86405, 0x600003c6,
                  0x3e9d7b78, 0x0183fc00, 0x12dcbfdb, 0xe2e2c38e)
  {
    Words0(block, 0);
    Words8(block, 8);
    ScheduleWord(block, 16); ScheduleWord(block, 17); ScheduleWord(block, 18); ScheduleWord(block, 19);
    ScheduleWord(block, 20); ScheduleWord(block, 21); ScheduleWord(block, 22); ScheduleWord(block, 23);
    hide Schedule, IsBlock;
  }

  lemma Words24(block: seq<Byte>, t: nat)
    requires IsBlock(block) && t == 24
    ensures Eight(block, t, 0xc8215c1a, 0xb73679a2, 0xe5bc3909, 0x32663c5b,
                  0x9d209d67, 0xec8726cb, 0x702138a4, 0xd3b7973b)
  {
    Words8(block, 8);
    Words16(block, 16);
    ScheduleWord(block, 24); ScheduleWord(block, 25); ScheduleWord(block, 26); ScheduleWord(block, 27);
    ScheduleWord(block, 28); ScheduleWord(block, 29); ScheduleWord(block, 30); ScheduleWord(block, 31);
    hide Schedule, IsBlock;
  }

  lemma Words32(block: seq<Byte>, t: nat)
    requires IsBlock(block) && t == 32
    ensures Eight(block, t, 0x93f5997f, 0x3b68ba73, 0xaff4ffc1, 0xf10a5c62,
                  0x0a8b3996, 0x72af830a, 0x9409e33e, 0x24641522)
  {
    Words16(block, 16);
    Words24(block, 24);
    ScheduleWord(block, 32); ScheduleWord(block, 33); ScheduleWord(block, 34); ScheduleWord(block, 35);
    ScheduleWord(block, 36); ScheduleWord(block, 37); ScheduleWord(block, 38); ScheduleWord(block, 39);
    hide Schedule, IsBlock;
  }

  lemma Words40(block: seq<Byte>, t: nat)
    requires IsBlock(block) && t == 40
    ensures Eight(block, t, 0x9f47bf94, 0xf0a64f5a, 0x3e246a79, 0x27333ba3,
                  0x0c4763f2, 0x840abf27, 0x7a290d5d, 0x065c43da)
  {
    Words24(block, 24);
    Words32(block, 32);
    ScheduleWord(block, 40); ScheduleWord(block, 41); ScheduleWord(block, 42); ScheduleWord(block, 43);
    ScheduleWord(block, 44); ScheduleWord(block, 45); ScheduleWord(block, 46); ScheduleWord(block, 47);
    hide Schedule, IsBlock;
  }

  lemma Words48(block: seq<Byte>, t: nat)
    requires IsBlock(block) && t == 48
    ensures Eight(block, t, 0xfb3e89cb, 0xcc7617db, 0xb9e66c34, 0xa9993667,
                  0x84badedd, 0xc21462bc, 0x1487472c, 0xb20f7a99)
  {
    Words32(block, 32);
    Words40(block, 40);
    ScheduleWord(block, 48); ScheduleWord(block, 49); ScheduleWord(block, 50); ScheduleWord(block, 51);
    ScheduleWord(block, 52); ScheduleWord(block, 53); ScheduleWord(block, 54); ScheduleWord(block, 55);
    hide Schedule, IsBlock;
  }

  lemma Words56(block: seq<Byte>, t: nat)
    requires IsBlock(block) && t == 56
    ensures Eight(block, t, 0xef57b9cd, 0xebe6b238, 0x9fe3095e, 0x78bc8d4b,
                  0xa43fcf15, 0x668b2ff8, 0xeeaba2cc, 0x12b1edeb)
  {
    Words40(block, 40);
    Words48(block, 48);
    ScheduleWord(block, 56); ScheduleWord(block, 57); ScheduleWord(block, 58); ScheduleWord(block, 59);
    ScheduleWord(block, 60); ScheduleWord(block, 61); ScheduleWord(block, 62); ScheduleWord(block, 63);
    hide Schedule, IsBlock;
  }

  // ---- the rounds, eight at a time ------------------------------------------

  const STATE_0 := Working(0x6a09e667, 0xbb67ae85, 0x3c6ef372, 0xa54ff53a,
    0x510e527f, 0x9b05688c, 0x1f83d9ab, 0x5be0cd19)
  const STATE_8 := Working(0x85a07b5f, 0xe5030380, 0x2b4209f5, 0x04409a6a,
    0x0c657a79, 0x9b27a401, 0x714260ad, 0x43ada245)
  const STATE_16 := Working(0xb0fa238e, 0xc0645fde, 0xd932eb16, 0x87912990,
    0x07590dcd, 0x0b92f20c, 0x745a48de, 0x1e578218)
  const STATE_24 := Working(0xc5d53d8d, 0xa7a3623f, 0xc2606d6d, 0x9dc68b63,
    0xaa47c347, 0x49f5114a, 0xe1257970, 0x8ada8930)
  const STATE_32 := Working(0x73b33bf5, 0xea992a22, 0xa0060b30, 0x363482c9,
    0xba591112, 0x0109ab3a, 0xade79437, 0x6112a3b7)
  const STATE_40 := Working(0x79ea687a, 0x6dc57a8a, 0x34df1604, 0x41a65cb1,
    0x1efbc0a0, 0xf0781bc8, 0xa507a53d, 0x0772a26b)
  const STATE_48 := Working(0x4172328d, 0xa14c14b0, 0x72ab4b91, 0x26628815,
    0xfecf0bc6, 0xd57b94a9, 0xb7755da1, 0xa80f11f0)
  const STATE_56 := Working(0x38cc9913, 0x3ec45cdb, 0xf5702fdb, 0x101fd28f,
    0x54cb266b, 0xe50e1b4f, 0x9f4787c3, 0x529e7d00)
  const STATE_64 := Working(0x506e3058, 0xd39a2165, 0x04d24d6c, 0xb85e2ce9,
    0x5ef50f24, 0xfb121210, 0x948d25b6, 0x961f4894)

  lemma Constants0()
    ensures RoundConstants()[0] == 0x428a2f98 && RoundConstants()[1] == 0x71374491
    ensures RoundConstants()[2] == 0xb5c0fbcf && RoundConstants()[3] == 0xe9b5dba5
    ensures RoundConstants()[4] == 0x3956c25b && RoundConstants()[5] == 0x59f111f1
    ensures RoundConstants()[6] == 0x923f82a4 && RoundConstants()[7] == 0xab1c5ed5
  {
  }

  lemma Constants8()
    ensures RoundConstants()[8] == 0xd807aa98 && RoundConstants()[9] == 0x12835b01
    ensures RoundConstants()[10] == 0x243185be && RoundConstants()[11] == 0x550c7dc3
    ensures RoundConstants()[12] == 0x72be5d74 && RoundConstants()[13] == 0x80deb1fe
    ensures RoundConstants()[14] == 0x9bdc06a7 && RoundConstants()[15] == 0xc19bf174
  {
  }

  lemma Constants16()
    ensures RoundConstants()[16] == 0xe49b69c1 && RoundConstants()[17] == 0xefbe4786
    ensures RoundConstants()[18] == 0x0fc19dc6 && RoundConstants()[19] == 0x240ca1cc
    ensures RoundConstants()[20] == 0x2de92c6f && RoundConstants()[21] == 0x4a7484aa
    ensures RoundConstants()[22] == 0x5cb0a9dc && RoundConstants()[23] == 0x76f988da
  {
  }

  lemma Constants24()
    ensures RoundConstants()[24] == 0x983e5152 && RoundConstants()[25] == 0xa831c66d
    ensures RoundConstants()[26] == 0xb00327c8 && RoundConstants()[27] == 0xbf597fc7
    ensures RoundConstants()[28] == 0xc6e00bf3 && RoundConstants()[29] == 0xd5a79147
    ensures RoundConstants()[30] == 0x06ca6351 && RoundConstants()[31] == 0x14292967
  {
  }

  lemma Constants32()
    ensures RoundConstants()[32] == 0x27b70a85 && RoundConstants()[33] == 0x2e1b2138
    ensures RoundConstants()[34] == 0x4d2c6dfc && RoundConstants()[35] == 0x53380d13
    ensures RoundConstants()[36] == 0x650a7354 && RoundConstants()[37] == 0x766a0abb
    ensures RoundConstants()[38] == 0x81c2c92e && RoundConstants()[39] == 0x92722c85
  {
  }

  lemma Constants40()
    ensures RoundConstants()[40] == 0xa2bfe8a1 && RoundConstants()[41] == 0xa81a664b
    ensures RoundConstants()[42] == 0xc24b8b70 && RoundConstants()[43] == 0xc76c51a3
    ensures RoundConstants()[44] == 0xd192e819 && RoundConstants()[45] == 0xd6990624
    ensures RoundConstants()[46] == 0xf40e3585 && RoundConstants()[47] == 0x106aa070
  {
  }

  lemma Constants48()
    ensures RoundConstants()[48] == 0x19a4c116 && RoundConstants()[49] == 0x1e376c08
    ensures RoundConstants()[50] == 0x2748774c && RoundConstants()[51] == 0x34b0bcb5
    ensures RoundConstants()[52] == 0x391c0cb3 && RoundConstants()[53] == 0x4ed8aa4a
    ensures RoundConstants()[54] == 0x5b9cca4f && RoundConstants()[55] == 0x682e6ff3
  {
  }

  lemma Constants56()
    ensures RoundConstants()[56] == 0x748f82ee && RoundConstants()[57] == 0x78a5636f
    ensures RoundConstants()[58] == 0x84c87814 && RoundConstants()[59] == 0x8cc70208
    ensures RoundConstants()[60] == 0x90befffa && RoundConstants()[61] == 0xa4506ceb
    ensures RoundConstants()[62] == 0xbef9a3f7 && RoundConstants()[63] == 0xc67178f2
  {
  }

  lemma Rounds8(block: seq<Byte>, t: nat)
    requires IsBlock(block) && t == 8
    ensures Rounds(STATE_0, block, t) == STATE_8
  {
    assert Rounds(STATE_0, block, 0) == STATE_0;
    hide Schedule, RoundConstants, IsBlock;
    Words0(block, 0);
    Constants0();
    hide Rounds;
    var s1 := Working(0x5d6aebcd, 0x6a09e667, 0xbb67ae85, 0x3c6ef372, 0xfa2a4622, 0x510e527f, 0x9b05688c, 0x1f83d9ab);
    OneRound(block, 0, STATE_0, s1);
    var s2 := Working(0x5a6ad9ad, 0x5d6aebcd, 0x6a09e667, 0xbb67ae85, 0x78ce7989, 0xfa2a4622, 0x510e527f, 0x9b05688c);
    OneRound(block, 1, s1, s2);
    var s3 := Working(0xc8c347a7, 0x5a6ad9ad, 0x5d6aebcd, 0x6a09e667, 0xf92939eb, 0x78ce7989, 0xfa2a4622, 0x510e527f);
    OneRound(block, 2, s2, s3);
    var s4 := Working(0xd550f666, 0xc8c347a7, 0x5a6ad9ad, 0x5d6aebcd, 0x24e00850, 0xf92939eb, 0x78ce7989, 0xfa2a4622);
    OneRound(block, 3, s3, s4);
    var s5 := Working(0x04409a6a, 0xd550f666, 0xc8c347a7, 0x5a6ad9ad, 0x43ada245, 0x24e00850, 0xf92939eb, 0x78ce7989);
    OneRound(block, 4, s4, s5);
    var s6 := Working(0x2b4209f5, 0x04409a6a, 0xd550f666, 0xc8c347a7, 0x714260ad, 0x43ada245, 0x24e00850, 0xf92939eb);
    OneRound(block, 5, s5, s6);
    var s7 := Working(0xe5030380, 0x2b4209f5, 0x04409a6a, 0xd550f666, 0x9b27a401, 0x714260ad, 0x43ada245, 0x24e00850);
    OneRound(block, 6, s6, s7);
    OneRound(block, 7, s7, STATE_8);
  }

  lemma Rounds16(block: seq<Byte>, t: nat)
    requires IsBlock(block) && t == 16
    ensures Rounds(STATE_0, block, t) == STATE_16
  {
    hide Schedule, RoundConstants, IsBlock;
    Rounds8(block, 8);
    Words8(block, 8);
    Constants8();
    hide Rounds;
    var s9 := Working(0x8e04ecb9, 0x85a07b5f, 0xe5030380, 0x2b4209f5, 0x32ca2d8c, 0x0c657a79, 0x9b27a401, 0x714260ad);
    OneRound(block, 8, STATE_8, s9);
    var s10 := Working(0x8c87346b, 0x8e04ecb9, 0x85a07b5f, 0xe5030380, 0x1cc92596, 0x32ca2d8c, 0x0c657a79, 0x9b27a401);
    OneRound(block, 9, s9, s10);
    var s11 := Working(0x4798a3f4, 0x8c87346b, 0x8e04ecb9, 0x85a07b5f, 0x436b23e8, 0x1cc92596, 0x32ca2d8c, 0x0c657a79);
    OneRound(block, 10, s10, s11);
    var s12 := Working(0xf71fc5a9, 0x4798a3f4, 0x8c87346b, 0x8e04ecb9, 0x816fd6e9, 0x436b23e8, 0x1cc92596, 0x32ca2d8c);
    OneRound(block, 11, s11, s12);
    var s13 := Working(0x87912990, 0xf71fc5a9, 0x4798a3f4, 0x8c87346b, 0x1e578218, 0x816fd6e9, 0x436b23e8, 0x1cc92596);
    OneRound(block, 12, s12, s13);
    var s14 := Working(0xd932eb16, 0x87912990, 0xf71fc5a9, 0x4798a3f4, 0x745a48de, 0x1e578218, 0x816fd6e9, 0x436b23e8);
    OneRound(block, 13, s13, s14);
    var s15 := Working(0xc0645fde, 0xd932eb16, 0x87912990, 0xf71fc5a9, 0x0b92f20c, 0x745a48de, 0x1e578218, 0x816fd6e9);
    OneRound(block, 14, s14, s15);
    OneRound(block, 15, s15, STATE_16);
  }

  lemma Rounds24(block: seq<Byte>, t: nat)
    requires IsBlock(block) && t == 24
    ensures Rounds(STATE_0, block, t) == STATE_24
  {
    hide Schedule, RoundConstants, IsBlock;
    Rounds16(block, 16);
    Words16(block, 16);
    Constants16();
    hide Rounds;
    var s17 := Working(0x21da9a9b, 0xb0fa238e, 0xc0645fde, 0xd932eb16, 0x8034229c, 0x07590dcd, 0x0b92f20c, 0x745a48de);
    OneRound(block, 16, STATE_16, s17);
    var s18 := Working(0xc2fbd9d1, 0x21da9a9b, 0xb0fa238e, 0xc0645fde, 0x846ee454, 0x8034229c, 0x07590dcd, 0x0b92f20c);
    OneRound(block, 17, s17, s18);
    var s19 := Working(0xfe777bbf, 0xc2fbd9d1, 0x21da9a9b, 0xb0fa238e, 0xcc899961, 0x846ee454, 0x8034229c, 0x07590dcd);
    OneRound(block, 18, s18, s19);
    var s20 := Working(0xe1f20c33, 0xfe777bbf, 0xc2fbd9d1, 0x21da9a9b, 0xb0638179, 0xcc899961, 0x846ee454, 0x8034229c);
    OneRound(block, 19, s19, s20);
    var s21 := Working(0x9dc68b63, 0xe1f20c33, 0xfe777bbf, 0xc2fbd9d1, 0x8ada8930, 0xb0638179, 0xcc899961, 0x846ee454);
    OneRound(block, 20, s20, s21);
    var s22 := Working(0xc2606d6d, 0x9dc68b63, 0xe1f20c33, 0xfe777bbf, 0xe1257970, 0x8ada8930, 0xb0638179, 0xcc899961);
    OneRound(block, 21, s21, s22);
    var s23 := Working(0xa7a3623f, 0xc2606d6d, 0x9dc68b63, 0xe1f20c33, 0x49f5114a, 0xe1257970, 0x8ada8930, 0xb0638179);
    OneRound(block, 22, s22, s23);
    OneRound(block, 23, s23, STATE_24);
  }

  lemma Rounds32(block: seq<Byte>, t: nat)
    requires IsBlock(block) && t == 32
    ensures Rounds(STATE_0, block, t) == STATE_32
  {
    hide Schedule, RoundConstants, IsBlock;
    Rounds24(block, 24);
    Words24(block, 24);
    Constants24();
    hide Rounds;
    var s25 := Working(0x1c2c2838, 0xc5d53d8d, 0xa7a3623f, 0xc2606d6d, 0x2823ef91, 0xaa47c347, 0x49f5114a, 0xe1257970);
    OneRound(block, 24, STATE_24, s25);
    var s26 := Working(0xcde8037d, 0x1c2c2838, 0xc5d53d8d, 0xa7a3623f, 0x14383d8e, 0x2823ef91, 0xaa47c347, 0x49f5114a);
    OneRound(block, 25, s25, s26);
    var s27 := Working(0xb62ec4bc, 0xcde8037d, 0x1c2c2838, 0xc5d53d8d, 0xc74c6516, 0x14383d8e, 0x2823ef91, 0xaa47c347);
    OneRound(block, 26, s26, s27);
    var s28 := Working(0x77d37528, 0xb62ec4bc, 0xcde8037d, 0x1c2c2838, 0xedffbff8, 0xc74c6516, 0x14383d8e, 0x2823ef91);
    OneRound(block, 27, s27, s28);
    var s29 := Working(0x363482c9, 0x77d37528, 0xb62ec4bc, 0xcde8037d, 0x6112a3b7, 0xedffbff8, 0xc74c6516, 0x14383d8e);
    OneRound(block, 28, s28, s29);
    var s30 := Working(0xa0060b30, 0x363482c9, 0x77d37528, 0xb62ec4bc, 0xade79437, 0x6112a3b7, 0xedffbff8, 0xc74c6516);
    OneRound(block, 29, s29, s30);
    var s31 := Working(0xea992a22, 0xa0060b30, 0x363482c9, 0x77d37528, 0x0109ab3a, 0xade79437, 0x6112a3b7, 0xedffbff8);
    OneRound(block, 30, s30, s31);
    OneRound(block, 31, s31, STATE_32);
  }

  lemma Rounds40(block: seq<Byte>, t: nat)
    requires IsBlock(block) && t == 40
    ensures Rounds(STATE_0, block, t) == STATE_40
  {
    hide Schedule, RoundConstants, IsBlock;
    Rounds32(block, 32);
    Words32(block, 32);
    Constants32();
    hide Rounds;
    var s33 := Working(0x98e12507, 0x73b33bf5, 0xea992a22, 0xa0060b30, 0x9cd9f5f6, 0xba591112, 0x0109ab3a, 0xade79437);
    OneRound(block, 32, STATE_32, s33);
    var s34 := Working(0xfe604df5, 0x98e12507, 0x73b33bf5, 0xea992a22, 0x59249dd3, 0x9cd9f5f6, 0xba591112, 0x0109ab3a);
    OneRound(block, 33, s33, s34);
    var s35 := Working(0xa9a7738c, 0xfe604df5, 0x98e12507, 0x73b33bf5, 0x085f3833, 0x59249dd3, 0x9cd9f5f6, 0xba591112);
    OneRound(block, 34, s34, s35);
    var s36 := Working(0x65a0cfe4, 0xa9a7738c, 0xfe604df5, 0x98e12507, 0xf4b002d6, 0x085f3833, 0x59249dd3, 0x9cd9f5f6);
    OneRound(block, 35, s35, s36);
    var s37 := Working(0x41a65cb1, 0x65a0cfe4, 0xa9a7738c, 0xfe604df5, 0x0772a26b, 0xf4b002d6, 0x085f3833, 0x59249dd3);
    OneRound(block, 36, s36, s37);
    var s38 := Working(0x34df1604, 0x41a65cb1, 0x65a0cfe4, 0xa9a7738c, 0xa507a53d, 0x0772a26b, 0xf4b002d6, 0x085f3833);
    OneRound(block, 37, s37, s38);
    var s39 := Working(0x6dc57a8a, 0x34df1604, 0x41a65cb1, 0x65a0cfe4, 0xf0781bc8, 0xa507a53d, 0x0772a26b, 0xf4b002d6);
    OneRound(block, 38, s38, s39);
    OneRound(block, 39, s39, STATE_40);
  }

  lemma Rounds48(block: seq<Byte>, t: nat)
    requires IsBlock(block) && t == 48
    ensures Rounds(STATE_0, block, t) == STATE_48
  {
    hide Schedule, RoundConstants, IsBlock;
    Rounds40(block, 40);
    Words40(block, 40);
    Constants40();
    hide Rounds;
    var s41 := Working(0xd6670766, 0x79ea687a, 0x6dc57a8a, 0x34df1604, 0x26352d63, 0x1efbc0a0, 0xf0781bc8, 0xa507a53d);
    OneRound(block, 40, STATE_40, s41);
    var s42 := Working(0xdf46652f, 0xd6670766, 0x79ea687a, 0x6dc57a8a, 0x838b2711, 0x26352d63, 0x1efbc0a0, 0xf0781bc8);
    OneRound(block, 41, s41, s42);
    var s43 := Working(0x17aa0dfe, 0xdf46652f, 0xd6670766, 0x79ea687a, 0xdecd4715, 0x838b2711, 0x26352d63, 0x1efbc0a0);
    OneRound(block, 42, s42, s43);
    var s44 := Working(0x9d4baf93, 0x17aa0dfe, 0xdf46652f, 0xd6670766, 0xfda24c2e, 0xdecd4715, 0x838b2711, 0x26352d63);
    OneRound(block, 43, s43, s44);
    var s45 := Working(0x26628815, 0x9d4baf93, 0x17aa0dfe, 0xdf46652f, 0xa80f11f0, 0xfda24c2e, 0xdecd4715, 0x838b2711);
    OneRound(block, 44, s44, s45);
    var s46 := Working(0x72ab4b91, 0x26628815, 0x9d4baf93, 0x17aa0dfe, 0xb7755da1, 0xa80f11f0, 0xfda24c2e, 0xdecd4715);
    OneRound(block, 45, s45, s46);
    var s47 := Working(0xa14c14b0, 0x72ab4b91, 0x26628815, 0x9d4baf93, 0xd57b94a9, 0xb7755da1, 0xa80f11f0, 0xfda24c2e);
    OneRound(block, 46, s46, s47);
    OneRound(block, 47, s47, STATE_48);
  }

  lemma Rounds56(block: seq<Byte>, t: nat)
    requires IsBlock(block) && t == 56
    ensures Rounds(STATE_0, block, t) == STATE_56
  {
    hide Schedule, RoundConstants, IsBlock;
    Rounds48(block, 48);
    Words48(block, 48);
    Constants48();
    hide Rounds;
    var s49 := Working(0x05757ceb, 0x4172328d, 0xa14c14b0, 0x72ab4b91, 0xbd714038, 0xfecf0bc6, 0xd57b94a9, 0xb7755da1);
    OneRound(block, 48, STATE_48, s49);
    var s50 := Working(0xf11bfaa8, 0x05757ceb, 0x4172328d, 0xa14c14b0, 0x6e5c390c, 0xbd714038, 0xfecf0bc6, 0xd57b94a9);
    OneRound(block, 49, s49, s50);
    var s51 := Working(0x7a0508a1, 0xf11bfaa8, 0x05757ceb, 0x4172328d, 0x52f1ccf7, 0x6e5c390c, 0xbd714038, 0xfecf0bc6);
    OneRound(block, 50, s50, s51);
    var s52 := Working(0x886e7a22, 0x7a0508a1, 0xf11bfaa8, 0x05757ceb, 0x49231c1e, 0x52f1ccf7, 0x6e5c390c, 0xbd714038);
    OneRound(block, 51, s51, s52);
    var s53 := Working(0x101fd28f, 0x886e7a22, 0x7a0508a1, 0xf11bfaa8, 0x529e7d00, 0x49231c1e, 0x52f1ccf7, 0x6e5c390c);
    OneRound(block, 52, s52, s53);
    var s54 := Working(0xf5702fdb, 0x101fd28f, 0x886e7a22, 0x7a0508a1, 0x9f4787c3, 0x529e7d00, 0x49231c1e, 0x52f1ccf7);
    OneRound(block, 53, s53, s54);
    var s55 := Working(0x3ec45cdb, 0xf5702fdb, 0x101fd28f, 0x886e7a22, 0xe50e1b4f, 0x9f4787c3, 0x529e7d00, 0x49231c1e);
    OneRound(block, 54, s54, s55);
    OneRound(block, 55, s55, STATE_56);
  }

  lemma Rounds64(block: seq<Byte>, t: nat)
    requires IsBlock(block) && t == 64
    ensures Rounds(STATE_0, block, t) == STATE_64
  {
    hide Schedule, RoundConstants, IsBlock;
    Rounds56(block, 56);
    Words56(block, 56);
    Constants56();
    hide Rounds;
    var s57 := Working(0xfcd1887b, 0x38cc9913, 0x3ec45cdb, 0xf5702fdb, 0x9b5e906c, 0x54cb266b, 0xe50e1b4f, 0x9f4787c3);
    OneRound(block, 56, STATE_56, s57);
    var s58 := Working(0xc062d46f, 0xfcd1887b, 0x38cc9913, 0x3ec45cdb, 0x7e44008e, 0x9b5e906c, 0x54cb266b, 0xe50e1b4f);
    OneRound(block, 57, s57, s58);
    var s59 := Working(0xffb70472, 0xc062d46f, 0xfcd1887b, 0x38cc9913, 0x6d83bfc6, 0x7e44008e, 0x9b5e906c, 0x54cb266b);
    OneRound(block, 58, s58, s59);
    var s60 := Working(0xb6ae8fff, 0xffb70472, 0xc062d46f, 0xfcd1887b, 0xb21bad3d, 0x6d83bfc6, 0x7e44008e, 0x9b5e906c);
    OneRound(block, 59, s59, s60);
    var s61 := Working(0xb85e2ce9, 0xb6ae8fff, 0xffb70472, 0xc062d46f, 0x961f4894, 0xb21bad3d, 0x6d83bfc6, 0x7e44008e);
    OneRound(block, 60, s60, s61);
    var s62 := Working(0x04d24d6c, 0xb85e2ce9, 0xb6ae8fff, 0xffb70472, 0x948d25b6, 0x961f4894, 0xb21bad3d, 0x6d83bfc6);
    OneRound(block, 61, s61, s62);
    var s63 := Working(0xd39a2165, 0x04d24d6c, 0xb85e2ce9, 0xb6ae8fff, 0xfb121210, 0x948d25b6, 0x961f4894, 0xb21bad3d);
    OneRound(block, 62, s62, s63);
    OneRound(block, 63, s63, STATE_64);
  }

  lemma OneRound(block: seq<Byte>, t: nat, before: Working, after: Working)
    requires |block| == BLOCK && t < 64 && Rounds(STATE_0, block, t) == before
    requires after == Round(before, RoundConstants()[t], Schedule(block, t))
    ensures Rounds(STATE_0, block, t + 1) == after
  {
    hide Schedule, Round, RoundConstants;
  }

  // ---- the digest -----------------------------------------------------------

  const DIGEST: seq<Byte> :=
    [0xba, 0x78, 0x16, 0xbf] + [0x8f, 0x01, 0xcf, 0xea]
    + [0x41, 0x41, 0x40, 0xde] + [0x5d, 0xae, 0x22, 0x23]
    + [0xb0, 0x03, 0x61, 0xa3] + [0x96, 0x17, 0x7a, 0x9c]
    + [0xb4, 0x10, 0xff, 0x61] + [0xf2, 0x00, 0x15, 0xad]

  const HASH_VALUE: seq<Word> :=
    [] + [0xba7816bf, 0x8f01cfea] + [0x414140de, 0x5dae2223] + [0xb00361a3, 0x96177a9c] + [0xb410ff61, 0xf20015ad]

  lemma OneMoreWord(s: seq<Word>, w: Word)
    ensures OutputBytes(s + [w]) == OutputBytes(s) + WordBytes(w)
  {
    assert (s + [w])[..|s|] == s;
  }

  lemma TwoWords(s: seq<Word>, v: Word, w: Word)
    ensures OutputBytes(s + [v, w]) == OutputBytes(s) + WordBytes(v) + WordBytes(w)
  {
    hide OutputBytes, WordBytes;
    OneMoreWord(s, v);
    OneMoreWord(s + [v], w);
    assert s + [v] + [w] == s + [v, w];
  }

  lemma Bytes0()
    ensures WordBytes(0xba7816bf) == [0xba, 0x78, 0x16, 0xbf]
    ensures WordBytes(0x8f01cfea) == [0x8f, 0x01, 0xcf, 0xea]
  {
  }

  lemma Bytes1()
    ensures WordBytes(0x414140de) == [0x41, 0x41, 0x40, 0xde]
    ensures WordBytes(0x5dae2223) == [0x5d, 0xae, 0x22, 0x23]
  {
  }

  lemma Bytes2()
    ensures WordBytes(0xb00361a3) == [0xb0, 0x03, 0x61, 0xa3]
    ensures WordBytes(0x96177a9c) == [0x96, 0x17, 0x7a, 0x9c]
  {
  }

  lemma Bytes3()
    ensures WordBytes(0xb410ff61) == [0xb4, 0x10, 0xff, 0x61]
    ensures WordBytes(0xf20015ad) == [0xf2, 0x00, 0x15, 0xad]
  {
  }

  lemma WordsOfAbc()
    ensures OutputBytes(HASH_VALUE) == DIGEST
  {
    Bytes0();
    Bytes1();
    Bytes2();
    Bytes3();
    assert OutputBytes([]) == [];
    hide OutputBytes, WordBytes;
    TwoWords([], 0xba7816bf, 0x8f01cfea);
    var w2 := [] + [0xba7816bf, 0x8f01cfea];
    TwoWords(w2, 0x414140de, 0x5dae2223);
    var w4 := w2 + [0x414140de, 0x5dae2223];
    TwoWords(w4, 0xb00361a3, 0x96177a9c);
    var w6 := w4 + [0xb00361a3, 0x96177a9c];
    TwoWords(w6, 0xb410ff61, 0xf20015ad);
  }

  lemma ProcessedAbc(block: seq<Byte>)
    requires |block| == BLOCK && Rounds(STATE_0, block, 64) == STATE_64
    ensures Process(block) == HASH_VALUE
  {
    hide Rounds, Schedule;
    ProcessNext([], block);
    assert [] + block == block;
    assert Process([]) == Initial();
  }

  /** The digest of "abc" is the one published for it. */
  lemma DigestOfAbc(message: seq<Byte>)
    requires IsAbc(message)
    ensures Hash(message) == DIGEST
  {
    hide Padded, IsAbc, IsBlock, Rounds, Process, OutputBytes, STATE_0, STATE_64, DIGEST, HASH_VALUE;
    PaddedAbc(message);
    BlockIsWhole(Padded(message));
    Rounds64(Padded(message), 64);
    ProcessedAbc(Padded(message));
    WordsOfAbc();
  }

  lemma BlockIsWhole(block: seq<Byte>)
    requires IsBlock(block)
    ensures |block| == BLOCK
  {
  }
}
