/** The one-block example of FIPS 180-4, the digest of "abc", followed round by round on 32-bit constants. */
module KnownAnswer {
  import opened Bytes
  import opened Fips180
  import opened BitVectors
  import opened MachineHash

  const BLOCK: bytes := [0x61, 0x62, 0x63, 0x80] + Zeros(56) + [0, 0, 0, 24]

  lemma FirstWords(w: seq<word>, n: nat)
    requires n == 64 && w == Schedule(BLOCK, n)
    ensures w[0] == 0x61626380 && w[1] == 0x00000000 && w[2] == 0x00000000 && w[3] == 0x00000000
    ensures w[4] == 0x00000000 && w[5] == 0x00000000 && w[6] == 0x00000000 && w[7] == 0x00000000
    ensures w[8] == 0x00000000 && w[9] == 0x00000000 && w[10] == 0x00000000 && w[11] == 0x00000000
    ensures w[12] == 0x00000000 && w[13] == 0x00000000 && w[14] == 0x00000000 && w[15] == 0x00000018
  {
    hide Schedule;
    forall t: nat | t < 16
      ensures w[t] == if t == 0 then 0x61626380 else if t == 15 then 0x18 else 0
    {
      FirstWord(BLOCK, w, n, t);
    }
  }

  lemma Words0()
    ensures Value(0x61626380) == 0x61626380 && Value(0x00000000) == 0x00000000 && Value(0x00000018) == 0x00000018
  {}

  lemma Words16()
    ensures Value(0x61626380) == 0x61626380 && Value(0x000f0000) == 0x000f0000 && Value(0x7da86405) == 0x7da86405
    ensures Value(0x600003c6) == 0x600003c6 && Value(0x3e9d7b78) == 0x3e9d7b78 && Value(0x0183fc00) == 0x0183fc00
    ensures Value(0x12dcbfdb) == 0x12dcbfdb && Value(0xe2e2c38e) == 0xe2e2c38e
  {}

  lemma Words24()
    ensures Value(0xc8215c1a) == 0xc8215c1a && Value(0xb73679a2) == 0xb73679a2 && Value(0xe5bc3909) == 0xe5bc3909
    ensures Value(0x32663c5b) == 0x32663c5b && Value(0x9d209d67) == 0x9d209d67 && Value(0xec8726cb) == 0xec8726cb
    ensures Value(0x702138a4) == 0x702138a4 && Value(0xd3b7973b) == 0xd3b7973b
  {}

  lemma Words32()
    ensures Value(0x93f5997f) == 0x93f5997f && Value(0x3b68ba73) == 0x3b68ba73 && Value(0xaff4ffc1) == 0xaff4ffc1
    ensures Value(0xf10a5c62) == 0xf10a5c62 && Value(0x0a8b3996) == 0x0a8b3996 && Value(0x72af830a) == 0x72af830a
    ensures Value(0x9409e33e) == 0x9409e33e && Value(0x24641522) == 0x24641522
  {}

  lemma Words40()
    ensures Value(0x9f47bf94) == 0x9f47bf94 && Value(0xf0a64f5a) == 0xf0a64f5a && Value(0x3e246a79) == 0x3e246a79
    ensures Value(0x27333ba3) == 0x27333ba3 && Value(0x0c4763f2) == 0x0c4763f2 && Value(0x840abf27) == 0x840abf27
    ensures Value(0x7a290d5d) == 0x7a290d5d && Value(0x065c43da) == 0x065c43da
  {}

  lemma Words48()
    ensures Value(0xfb3e89cb) == 0xfb3e89cb && Value(0xcc7617db) == 0xcc7617db && Value(0xb9e66c34) == 0xb9e66c34
    ensures Value(0xa9993667) == 0xa9993667 && Value(0x84badedd) == 0x84badedd && Value(0xc21462bc) == 0xc21462bc
    ensures Value(0x1487472c) == 0x1487472c && Value(0xb20f7a99) == 0xb20f7a99
  {}

  lemma Words56()
    ensures Value(0xef57b9cd) == 0xef57b9cd && Value(0xebe6b238) == 0xebe6b238 && Value(0x9fe3095e) == 0x9fe3095e
    ensures Value(0x78bc8d4b) == 0x78bc8d4b && Value(0xa43fcf15) == 0xa43fcf15 && Value(0x668b2ff8) == 0x668b2ff8
    ensures Value(0xeeaba2cc) == 0xeeaba2cc && Value(0x12b1edeb) == 0x12b1edeb
  {}

  lemma State0()
    ensures Value(0x6a09e667) == 0x6a09e667 && Value(0xbb67ae85) == 0xbb67ae85 && Value(0x3c6ef372) == 0x3c6ef372
    ensures Value(0xa54ff53a) == 0xa54ff53a && Value(0x510e527f) == 0x510e527f && Value(0x9b05688c) == 0x9b05688c
    ensures Value(0x1f83d9ab) == 0x1f83d9ab && Value(0x5be0cd19) == 0x5be0cd19
  {}

  lemma State8()
    ensures Value(0x85a07b5f) == 0x85a07b5f && Value(0xe5030380) == 0xe5030380 && Value(0x2b4209f5) == 0x2b4209f5
    ensures Value(0x04409a6a) == 0x04409a6a && Value(0x0c657a79) == 0x0c657a79 && Value(0x9b27a401) == 0x9b27a401
    ensures Value(0x714260ad) == 0x714260ad && Value(0x43ada245) == 0x43ada245
  {}

  lemma State16()
    ensures Value(0xb0fa238e) == 0xb0fa238e && Value(0xc0645fde) == 0xc0645fde && Value(0xd932eb16) == 0xd932eb16
    ensures Value(0x87912990) == 0x87912990 && Value(0x07590dcd) == 0x07590dcd && Value(0x0b92f20c) == 0x0b92f20c
    ensures Value(0x745a48de) == 0x745a48de && Value(0x1e578218) == 0x1e578218
  {}

  lemma State24()
    ensures Value(0xc5d53d8d) == 0xc5d53d8d && Value(0xa7a3623f) == 0xa7a3623f && Value(0xc2606d6d) == 0xc2606d6d
    ensures Value(0x9dc68b63) == 0x9dc68b63 && Value(0xaa47c347) == 0xaa47c347 && Value(0x49f5114a) == 0x49f5114a
    ensures Value(0xe1257970) == 0xe1257970 && Value(0x8ada8930) == 0x8ada8930
  {}

  lemma State32()
    ensures Value(0x73b33bf5) == 0x73b33bf5 && Value(0xea992a22) == 0xea992a22 && Value(0xa0060b30) == 0xa0060b30
    ensures Value(0x363482c9) == 0x363482c9 && Value(0xba591112) == 0xba591112 && Value(0x0109ab3a) == 0x0109ab3a
    ensures Value(0xade79437) == 0xade79437 && Value(0x6112a3b7) == 0x6112a3b7
  {}

  lemma State40()
    ensures Value(0x79ea687a) == 0x79ea687a && Value(0x6dc57a8a) == 0x6dc57a8a && Value(0x34df1604) == 0x34df1604
    ensures Value(0x41a65cb1) == 0x41a65cb1 && Value(0x1efbc0a0) == 0x1efbc0a0 && Value(0xf0781bc8) == 0xf0781bc8
    ensures Value(0xa507a53d) == 0xa507a53d && Value(0x0772a26b) == 0x0772a26b
  {}

  lemma State48()
    ensures Value(0x4172328d) == 0x4172328d && Value(0xa14c14b0) == 0xa14c14b0 && Value(0x72ab4b91) == 0x72ab4b91
    ensures Value(0x26628815) == 0x26628815 && Value(0xfecf0bc6) == 0xfecf0bc6 && Value(0xd57b94a9) == 0xd57b94a9
    ensures Value(0xb7755da1) == 0xb7755da1 && Value(0xa80f11f0) == 0xa80f11f0
  {}

  lemma State56()
    ensures Value(0x38cc9913) == 0x38cc9913 && Value(0x3ec45cdb) == 0x3ec45cdb && Value(0xf5702fdb) == 0xf5702fdb
    ensures Value(0x101fd28f) == 0x101fd28f && Value(0x54cb266b) == 0x54cb266b && Value(0xe50e1b4f) == 0xe50e1b4f
    ensures Value(0x9f4787c3) == 0x9f4787c3 && Value(0x529e7d00) == 0x529e7d00
  {}

  lemma State64()
    ensures Value(0x506e3058) == 0x506e3058 && Value(0xd39a2165) == 0xd39a2165 && Value(0x04d24d6c) == 0x04d24d6c
    ensures Value(0xb85e2ce9) == 0xb85e2ce9 && Value(0x5ef50f24) == 0x5ef50f24 && Value(0xfb121210) == 0xfb121210
    ensures Value(0x948d25b6) == 0x948d25b6 && Value(0x961f4894) == 0x961f4894
  {}

  lemma Numbers0()
    ensures Value(0x428a2f98) == 0x428a2f98 && Value(0x71374491) == 0x71374491 && Value(0xb5c0fbcf) == 0xb5c0fbcf
    ensures Value(0xe9b5dba5) == 0xe9b5dba5 && Value(0x3956c25b) == 0x3956c25b && Value(0x59f111f1) == 0x59f111f1
    ensures Value(0x923f82a4) == 0x923f82a4 && Value(0xab1c5ed5) == 0xab1c5ed5
  {}

  lemma Constants0()
    ensures K[0] == Value(0x428a2f98) && K[1] == Value(0x71374491) && K[2] == Value(0xb5c0fbcf)
    ensures K[3] == Value(0xe9b5dba5) && K[4] == Value(0x3956c25b) && K[5] == Value(0x59f111f1)
    ensures K[6] == Value(0x923f82a4) && K[7] == Value(0xab1c5ed5)
  {
    hide Value;
    Numbers0();
  }

  lemma Numbers8()
    ensures Value(0xd807aa98) == 0xd807aa98 && Value(0x12835b01) == 0x12835b01 && Value(0x243185be) == 0x243185be
    ensures Value(0x550c7dc3) == 0x550c7dc3 && Value(0x72be5d74) == 0x72be5d74 && Value(0x80deb1fe) == 0x80deb1fe
    ensures Value(0x9bdc06a7) == 0x9bdc06a7 && Value(0xc19bf174) == 0xc19bf174
  {}

  lemma Constants8()
    ensures K[8] == Value(0xd807aa98) && K[9] == Value(0x12835b01) && K[10] == Value(0x243185be)
    ensures K[11] == Value(0x550c7dc3) && K[12] == Value(0x72be5d74) && K[13] == Value(0x80deb1fe)
    ensures K[14] == Value(0x9bdc06a7) && K[15] == Value(0xc19bf174)
  {
    hide Value;
    Numbers8();
  }

  lemma Numbers16()
    ensures Value(0xe49b69c1) == 0xe49b69c1 && Value(0xefbe4786) == 0xefbe4786 && Value(0x0fc19dc6) == 0x0fc19dc6
    ensures Value(0x240ca1cc) == 0x240ca1cc && Value(0x2de92c6f) == 0x2de92c6f && Value(0x4a7484aa) == 0x4a7484aa
    ensures Value(0x5cb0a9dc) == 0x5cb0a9dc && Value(0x76f988da) == 0x76f988da
  {}

  lemma Constants16()
    ensures K[16] == Value(0xe49b69c1) && K[17] == Value(0xefbe4786) && K[18] == Value(0x0fc19dc6)
    ensures K[19] == Value(0x240ca1cc) && K[20] == Value(0x2de92c6f) && K[21] == Value(0x4a7484aa)
    ensures K[22] == Value(0x5cb0a9dc) && K[23] == Value(0x76f988da)
  {
    hide Value;
    Numbers16();
  }

  lemma Numbers24()
    ensures Value(0x983e5152) == 0x983e5152 && Value(0xa831c66d) == 0xa831c66d && Value(0xb00327c8) == 0xb00327c8
    ensures Value(0xbf597fc7) == 0xbf597fc7 && Value(0xc6e00bf3) == 0xc6e00bf3 && Value(0xd5a79147) == 0xd5a79147
    ensures Value(0x06ca6351) == 0x06ca6351 && Value(0x14292967) == 0x14292967
  {}

  lemma Constants24()
    ensures K[24] == Value(0x983e5152) && K[25] == Value(0xa831c66d) && K[26] == Value(0xb00327c8)
    ensures K[27] == Value(0xbf597fc7) && K[28] == Value(0xc6e00bf3) && K[29] == Value(0xd5a79147)
    ensures K[30] == Value(0x06ca6351) && K[31] == Value(0x14292967)
  {
    hide Value;
    Numbers24();
  }

  lemma Numbers32()
    ensures Value(0x27b70a85) == 0x27b70a85 && Value(0x2e1b2138) == 0x2e1b2138 && Value(0x4d2c6dfc) == 0x4d2c6dfc
    ensures Value(0x53380d13) == 0x53380d13 && Value(0x650a7354) == 0x650a7354 && Value(0x766a0abb) == 0x766a0abb
    ensures Value(0x81c2c92e) == 0x81c2c92e && Value(0x92722c85) == 0x92722c85
  {}

  lemma Constants32()
    ensures K[32] == Value(0x27b70a85) && K[33] == Value(0x2e1b2138) && K[34] == Value(0x4d2c6dfc)
    ensures K[35] == Value(0x53380d13) && K[36] == Value(0x650a7354) && K[37] == Value(0x766a0abb)
    ensures K[38] == Value(0x81c2c92e) && K[39] == Value(0x92722c85)
  {
    hide Value;
    Numbers32();
  }

  lemma Numbers40()
    ensures Value(0xa2bfe8a1) == 0xa2bfe8a1 && Value(0xa81a664b) == 0xa81a664b && Value(0xc24b8b70) == 0xc24b8b70
    ensures Value(0xc76c51a3) == 0xc76c51a3 && Value(0xd192e819) == 0xd192e819 && Value(0xd6990624) == 0xd6990624
    ensures Value(0xf40e3585) == 0xf40e3585 && Value(0x106aa070) == 0x106aa070
  {}

  lemma Constants40()
    ensures K[40] == Value(0xa2bfe8a1) && K[41] == Value(0xa81a664b) && K[42] == Value(0xc24b8b70)
    ensures K[43] == Value(0xc76c51a3) && K[44] == Value(0xd192e819) && K[45] == Value(0xd6990624)
    ensures K[46] == Value(0xf40e3585) && K[47] == Value(0x106aa070)
  {
    hide Value;
    Numbers40();
  }

  lemma Numbers48()
    ensures Value(0x19a4c116) == 0x19a4c116 && Value(0x1e376c08) == 0x1e376c08 && Value(0x2748774c) == 0x2748774c
    ensures Value(0x34b0bcb5) == 0x34b0bcb5 && Value(0x391c0cb3) == 0x391c0cb3 && Value(0x4ed8aa4a) == 0x4ed8aa4a
    ensures Value(0x5b9cca4f) == 0x5b9cca4f && Value(0x682e6ff3) == 0x682e6ff3
  {}

  lemma Constants48()
    ensures K[48] == Value(0x19a4c116) && K[49] == Value(0x1e376c08) && K[50] == Value(0x2748774c)
    ensures K[51] == Value(0x34b0bcb5) && K[52] == Value(0x391c0cb3) && K[53] == Value(0x4ed8aa4a)
    ensures K[54] == Value(0x5b9cca4f) && K[55] == Value(0x682e6ff3)
  {
    hide Value;
    Numbers48();
  }

  lemma Numbers56()
    ensures Value(0x748f82ee) == 0x748f82ee && Value(0x78a5636f) == 0x78a5636f && Value(0x84c87814) == 0x84c87814
    ensures Value(0x8cc70208) == 0x8cc70208 && Value(0x90befffa) == 0x90befffa && Value(0xa4506ceb) == 0xa4506ceb
    ensures Value(0xbef9a3f7) == 0xbef9a3f7 && Value(0xc67178f2) == 0xc67178f2
  {}

  lemma Constants56()
    ensures K[56] == Value(0x748f82ee) && K[57] == Value(0x78a5636f) && K[58] == Value(0x84c87814)
    ensures K[59] == Value(0x8cc70208) && K[60] == Value(0x90befffa) && K[61] == Value(0xa4506ceb)
    ensures K[62] == Value(0xbef9a3f7) && K[63] == Value(0xc67178f2)
  {
    hide Value;
    Numbers56();
  }

  lemma Schedule32(w: seq<word>, b: bytes, n: nat)
    requires |b| == 64 && n == 64 && w == Schedule(b, n)
    requires w[0] == 0x61626380 && w[1] == 0x00000000 && w[2] == 0x00000000 && w[3] == 0x00000000
    requires w[4] == 0x00000000 && w[5] == 0x00000000 && w[6] == 0x00000000 && w[7] == 0x00000000
    requires w[8] == 0x00000000 && w[9] == 0x00000000 && w[10] == 0x00000000 && w[11] == 0x00000000
    requires w[12] == 0x00000000 && w[13] == 0x00000000 && w[14] == 0x00000000 && w[15] == 0x00000018
    ensures w[16] == 0x61626380 && w[17] == 0x000f0000 && w[18] == 0x7da86405 && w[19] == 0x600003c6
    ensures w[20] == 0x3e9d7b78 && w[21] == 0x0183fc00 && w[22] == 0x12dcbfdb && w[23] == 0xe2e2c38e
    ensures w[24] == 0xc8215c1a && w[25] == 0xb73679a2 && w[26] == 0xe5bc3909 && w[27] == 0x32663c5b
    ensures w[28] == 0x9d209d67 && w[29] == 0xec8726cb && w[30] == 0x702138a4 && w[31] == 0xd3b7973b
  {
    hide Value, Schedule;
    Words0();
    Words16();
    Words24();
    NextWord(b, w, n, 16, 0x61626380, 0x00000000, 0x00000000, 0x00000000);
    NextWord(b, w, n, 17, 0x00000000, 0x00000000, 0x00000000, 0x00000018);
    NextWord(b, w, n, 18, 0x00000000, 0x00000000, 0x00000000, 0x61626380);
    NextWord(b, w, n, 19, 0x00000000, 0x00000000, 0x00000000, 0x000f0000);
    NextWord(b, w, n, 20, 0x00000000, 0x00000000, 0x00000000, 0x7da86405);
    NextWord(b, w, n, 21, 0x00000000, 0x00000000, 0x00000000, 0x600003c6);
    NextWord(b, w, n, 22, 0x00000000, 0x00000000, 0x00000018, 0x3e9d7b78);
    NextWord(b, w, n, 23, 0x00000000, 0x00000000, 0x61626380, 0x0183fc00);
    NextWord(b, w, n, 24, 0x00000000, 0x00000000, 0x000f0000, 0x12dcbfdb);
    NextWord(b, w, n, 25, 0x00000000, 0x00000000, 0x7da86405, 0xe2e2c38e);
    NextWord(b, w, n, 26, 0x00000000, 0x00000000, 0x600003c6, 0xc8215c1a);
    NextWord(b, w, n, 27, 0x00000000, 0x00000000, 0x3e9d7b78, 0xb73679a2);
    NextWord(b, w, n, 28, 0x00000000, 0x00000000, 0x0183fc00, 0xe5bc3909);
    NextWord(b, w, n, 29, 0x00000000, 0x00000000, 0x12dcbfdb, 0x32663c5b);
    NextWord(b, w, n, 30, 0x00000000, 0x00000018, 0xe2e2c38e, 0x9d209d67);
    NextWord(b, w, n, 31, 0x00000018, 0x61626380, 0xc8215c1a, 0xec8726cb);
  }

  lemma Schedule48(w: seq<word>, b: bytes, n: nat)
    requires |b| == 64 && n == 64 && w == Schedule(b, n)
    requires w[16] == 0x61626380 && w[17] == 0x000f0000 && w[18] == 0x7da86405 && w[19] == 0x600003c6
    requires w[20] == 0x3e9d7b78 && w[21] == 0x0183fc00 && w[22] == 0x12dcbfdb && w[23] == 0xe2e2c38e
    requires w[24] == 0xc8215c1a && w[25] == 0xb73679a2 && w[26] == 0xe5bc3909 && w[27] == 0x32663c5b
    requires w[28] == 0x9d209d67 && w[29] == 0xec8726cb && w[30] == 0x702138a4 && w[31] == 0xd3b7973b
    ensures w[32] == 0x93f5997f && w[33] == 0x3b68ba73 && w[34] == 0xaff4ffc1 && w[35] == 0xf10a5c62
    ensures w[36] == 0x0a8b3996 && w[37] == 0x72af830a && w[38] == 0x9409e33e && w[39] == 0x24641522
    ensures w[40] == 0x9f47bf94 && w[41] == 0xf0a64f5a && w[42] == 0x3e246a79 && w[43] == 0x27333ba3
    ensures w[44] == 0x0c4763f2 && w[45] == 0x840abf27 && w[46] == 0x7a290d5d && w[47] == 0x065c43da
  {
    hide Value, Schedule;
    Words16();
    Words24();
    Words32();
    Words40();
    NextWord(b, w, n, 32, 0x61626380, 0x000f0000, 0xb73679a2, 0x702138a4);
    NextWord(b, w, n, 33, 0x000f0000, 0x7da86405, 0xe5bc3909, 0xd3b7973b);
    NextWord(b, w, n, 34, 0x7da86405, 0x600003c6, 0x32663c5b, 0x93f5997f);
    NextWord(b, w, n, 35, 0x600003c6, 0x3e9d7b78, 0x9d209d67, 0x3b68ba73);
    NextWord(b, w, n, 36, 0x3e9d7b78, 0x0183fc00, 0xec8726cb, 0xaff4ffc1);
    NextWord(b, w, n, 37, 0x0183fc00, 0x12dcbfdb, 0x702138a4, 0xf10a5c62);
    NextWord(b, w, n, 38, 0x12dcbfdb, 0xe2e2c38e, 0xd3b7973b, 0x0a8b3996);
    NextWord(b, w, n, 39, 0xe2e2c38e, 0xc8215c1a, 0x93f5997f, 0x72af830a);
    NextWord(b, w, n, 40, 0xc8215c1a, 0xb73679a2, 0x3b68ba73, 0x9409e33e);
    NextWord(b, w, n, 41, 0xb73679a2, 0xe5bc3909, 0xaff4ffc1, 0x24641522);
    NextWord(b, w, n, 42, 0xe5bc3909, 0x32663c5b, 0xf10a5c62, 0x9f47bf94);
    NextWord(b, w, n, 43, 0x32663c5b, 0x9d209d67, 0x0a8b3996, 0xf0a64f5a);
    NextWord(b, w, n, 44, 0x9d209d67, 0xec8726cb, 0x72af830a, 0x3e246a79);
    NextWord(b, w, n, 45, 0xec8726cb, 0x702138a4, 0x9409e33e, 0x27333ba3);
    NextWord(b, w, n, 46, 0x702138a4, 0xd3b7973b, 0x24641522, 0x0c4763f2);
    NextWord(b, w, n, 47, 0xd3b7973b, 0x93f5997f, 0x9f47bf94, 0x840abf27);
  }

  lemma Schedule64(w: seq<word>, b: bytes, n: nat)
    requires |b| == 64 && n == 64 && w == Schedule(b, n)
    requires w[32] == 0x93f5997f && w[33] == 0x3b68ba73 && w[34] == 0xaff4ffc1 && w[35] == 0xf10a5c62
    requires w[36] == 0x0a8b3996 && w[37] == 0x72af830a && w[38] == 0x9409e33e && w[39] == 0x24641522
    requires w[40] == 0x9f47bf94 && w[41] == 0xf0a64f5a && w[42] == 0x3e246a79 && w[43] == 0x27333ba3
    requires w[44] == 0x0c4763f2 && w[45] == 0x840abf27 && w[46] == 0x7a290d5d && w[47] == 0x065c43da
    ensures w[48] == 0xfb3e89cb && w[49] == 0xcc7617db && w[50] == 0xb9e66c34 && w[51] == 0xa9993667
    ensures w[52] == 0x84badedd && w[53] == 0xc21462bc && w[54] == 0x1487472c && w[55] == 0xb20f7a99
    ensures w[56] == 0xef57b9cd && w[57] == 0xebe6b238 && w[58] == 0x9fe3095e && w[59] == 0x78bc8d4b
    ensures w[60] == 0xa43fcf15 && w[61] == 0x668b2ff8 && w[62] == 0xeeaba2cc && w[63] == 0x12b1edeb
  {
    hide Value, Schedule;
    Words32();
    Words40();
    Words48();
    Words56();
    NextWord(b, w, n, 48, 0x93f5997f, 0x3b68ba73, 0xf0a64f5a, 0x7a290d5d);
    NextWord(b, w, n, 49, 0x3b68ba73, 0xaff4ffc1, 0x3e246a79, 0x065c43da);
    NextWord(b, w, n, 50, 0xaff4ffc1, 0xf10a5c62, 0x27333ba3, 0xfb3e89cb);
    NextWord(b, w, n, 51, 0xf10a5c62, 0x0a8b3996, 0x0c4763f2, 0xcc7617db);
    NextWord(b, w, n, 52, 0x0a8b3996, 0x72af830a, 0x840abf27, 0xb9e66c34);
    NextWord(b, w, n, 53, 0x72af830a, 0x9409e33e, 0x7a290d5d, 0xa9993667);
    NextWord(b, w, n, 54, 0x9409e33e, 0x24641522, 0x065c43da, 0x84badedd);
    NextWord(b, w, n, 55, 0x24641522, 0x9f47bf94, 0xfb3e89cb, 0xc21462bc);
    NextWord(b, w, n, 56, 0x9f47bf94, 0xf0a64f5a, 0xcc7617db, 0x1487472c);
    NextWord(b, w, n, 57, 0xf0a64f5a, 0x3e246a79, 0xb9e66c34, 0xb20f7a99);
    NextWord(b, w, n, 58, 0x3e246a79, 0x27333ba3, 0xa9993667, 0xef57b9cd);
    NextWord(b, w, n, 59, 0x27333ba3, 0x0c4763f2, 0x84badedd, 0xebe6b238);
    NextWord(b, w, n, 60, 0x0c4763f2, 0x840abf27, 0xc21462bc, 0x9fe3095e);
    NextWord(b, w, n, 61, 0x840abf27, 0x7a290d5d, 0x1487472c, 0x78bc8d4b);
    NextWord(b, w, n, 62, 0x7a290d5d, 0x065c43da, 0xb20f7a99, 0xa43fcf15);
    NextWord(b, w, n, 63, 0x065c43da, 0xfb3e89cb, 0xef57b9cd, 0x668b2ff8);
  }

  lemma Rounds8(v: Vars, w: seq<word>, t: nat)
    requires |w| == 64 && t == 0
    requires Rounds(v, w, t)
            == Vars(0x6a09e667, 0xbb67ae85, 0x3c6ef372, 0xa54ff53a, 0x510e527f, 0x9b05688c, 0x1f83d9ab, 0x5be0cd19)
    requires w[0] == 0x61626380 && w[1] == 0x00000000 && w[2] == 0x00000000 && w[3] == 0x00000000
    requires w[4] == 0x00000000 && w[5] == 0x00000000 && w[6] == 0x00000000 && w[7] == 0x00000000
    ensures Rounds(v, w, t + 8)
            == Vars(0x85a07b5f, 0xe5030380, 0x2b4209f5, 0x04409a6a, 0x0c657a79, 0x9b27a401, 0x714260ad, 0x43ada245)
  {
    hide Value, Rounds;
    Constants0();
    State0();
    State8();
    Words0();
    Step(v, w, 0, 0x6a09e667, 0xbb67ae85, 0x3c6ef372, 0xa54ff53a, 0x510e527f, 0x9b05688c, 0x1f83d9ab, 0x5be0cd19,
         0x428a2f98, 0x61626380);
    Step(v, w, 1, 0x5d6aebcd, 0x6a09e667, 0xbb67ae85, 0x3c6ef372, 0xfa2a4622, 0x510e527f, 0x9b05688c, 0x1f83d9ab,
         0x71374491, 0x00000000);
    Step(v, w, 2, 0x5a6ad9ad, 0x5d6aebcd, 0x6a09e667, 0xbb67ae85, 0x78ce7989, 0xfa2a4622, 0x510e527f, 0x9b05688c,
         0xb5c0fbcf, 0x00000000);
    Step(v, w, 3, 0xc8c347a7, 0x5a6ad9ad, 0x5d6aebcd, 0x6a09e667, 0xf92939eb, 0x78ce7989, 0xfa2a4622, 0x510e527f,
         0xe9b5dba5, 0x00000000);
    Step(v, w, 4, 0xd550f666, 0xc8c347a7, 0x5a6ad9ad, 0x5d6aebcd, 0x24e00850, 0xf92939eb, 0x78ce7989, 0xfa2a4622,
         0x3956c25b, 0x00000000);
    Step(v, w, 5, 0x04409a6a, 0xd550f666, 0xc8c347a7, 0x5a6ad9ad, 0x43ada245, 0x24e00850, 0xf92939eb, 0x78ce7989,
         0x59f111f1, 0x00000000);
    Step(v, w, 6, 0x2b4209f5, 0x04409a6a, 0xd550f666, 0xc8c347a7, 0x714260ad, 0x43ada245, 0x24e00850, 0xf92939eb,
         0x923f82a4, 0x00000000);
    Step(v, w, 7, 0xe5030380, 0x2b4209f5, 0x04409a6a, 0xd550f666, 0x9b27a401, 0x714260ad, 0x43ada245, 0x24e00850,
         0xab1c5ed5, 0x00000000);
  }

  lemma Rounds16(v: Vars, w: seq<word>, t: nat)
    requires |w| == 64 && t == 8
    requires Rounds(v, w, t)
            == Vars(0x85a07b5f, 0xe5030380, 0x2b4209f5, 0x04409a6a, 0x0c657a79, 0x9b27a401, 0x714260ad, 0x43ada245)
    requires w[8] == 0x00000000 && w[9] == 0x00000000 && w[10] == 0x00000000 && w[11] == 0x00000000
    requires w[12] == 0x00000000 && w[13] == 0x00000000 && w[14] == 0x00000000 && w[15] == 0x00000018
    ensures Rounds(v, w, t + 8)
            == Vars(0xb0fa238e, 0xc0645fde, 0xd932eb16, 0x87912990, 0x07590dcd, 0x0b92f20c, 0x745a48de, 0x1e578218)
  {
    hide Value, Rounds;
    Constants8();
    State8();
    State16();
    Words0();
    Step(v, w, 8, 0x85a07b5f, 0xe5030380, 0x2b4209f5, 0x04409a6a, 0x0c657a79, 0x9b27a401, 0x714260ad, 0x43ada245,
         0xd807aa98, 0x00000000);
    Step(v, w, 9, 0x8e04ecb9, 0x85a07b5f, 0xe5030380, 0x2b4209f5, 0x32ca2d8c, 0x0c657a79, 0x9b27a401, 0x714260ad,
         0x12835b01, 0x00000000);
    Step(v, w, 10, 0x8c87346b, 0x8e04ecb9, 0x85a07b5f, 0xe5030380, 0x1cc92596, 0x32ca2d8c, 0x0c657a79, 0x9b27a401,
         0x243185be, 0x00000000);
    Step(v, w, 11, 0x4798a3f4, 0x8c87346b, 0x8e04ecb9, 0x85a07b5f, 0x436b23e8, 0x1cc92596, 0x32ca2d8c, 0x0c657a79,
         0x550c7dc3, 0x00000000);
    Step(v, w, 12, 0xf71fc5a9, 0x4798a3f4, 0x8c87346b, 0x8e04ecb9, 0x816fd6e9, 0x436b23e8, 0x1cc92596, 0x32ca2d8c,
         0x72be5d74, 0x00000000);
    Step(v, w, 13, 0x87912990, 0xf71fc5a9, 0x4798a3f4, 0x8c87346b, 0x1e578218, 0x816fd6e9, 0x436b23e8, 0x1cc92596,
         0x80deb1fe, 0x00000000);
    Step(v, w, 14, 0xd932eb16, 0x87912990, 0xf71fc5a9, 0x4798a3f4, 0x745a48de, 0x1e578218, 0x816fd6e9, 0x436b23e8,
         0x9bdc06a7, 0x00000000);
    Step(v, w, 15, 0xc0645fde, 0xd932eb16, 0x87912990, 0xf71fc5a9, 0x0b92f20c, 0x745a48de, 0x1e578218, 0x816fd6e9,
         0xc19bf174, 0x00000018);
  }

  lemma Rounds24(v: Vars, w: seq<word>, t: nat)
    requires |w| == 64 && t == 16
    requires Rounds(v, w, t)
            == Vars(0xb0fa238e, 0xc0645fde, 0xd932eb16, 0x87912990, 0x07590dcd, 0x0b92f20c, 0x745a48de, 0x1e578218)
    requires w[16] == 0x61626380 && w[17] == 0x000f0000 && w[18] == 0x7da86405 && w[19] == 0x600003c6
    requires w[20] == 0x3e9d7b78 && w[21] == 0x0183fc00 && w[22] == 0x12dcbfdb && w[23] == 0xe2e2c38e
    ensures Rounds(v, w, t + 8)
            == Vars(0xc5d53d8d, 0xa7a3623f, 0xc2606d6d, 0x9dc68b63, 0xaa47c347, 0x49f5114a, 0xe1257970, 0x8ada8930)
  {
    hide Value, Rounds;
    Constants16();
    State16();
    State24();
    Words16();
    Step(v, w, 16, 0xb0fa238e, 0xc0645fde, 0xd932eb16, 0x87912990, 0x07590dcd, 0x0b92f20c, 0x745a48de, 0x1e578218,
         0xe49b69c1, 0x61626380);
    Step(v, w, 17, 0x21da9a9b, 0xb0fa238e, 0xc0645fde, 0xd932eb16, 0x8034229c, 0x07590dcd, 0x0b92f20c, 0x745a48de,
         0xefbe4786, 0x000f0000);
    Step(v, w, 18, 0xc2fbd9d1, 0x21da9a9b, 0xb0fa238e, 0xc0645fde, 0x846ee454, 0x8034229c, 0x07590dcd, 0x0b92f20c,
         0x0fc19dc6, 0x7da86405);
    Step(v, w, 19, 0xfe777bbf, 0xc2fbd9d1, 0x21da9a9b, 0xb0fa238e, 0xcc899961, 0x846ee454, 0x8034229c, 0x07590dcd,
         0x240ca1cc, 0x600003c6);
    Step(v, w, 20, 0xe1f20c33, 0xfe777bbf, 0xc2fbd9d1, 0x21da9a9b, 0xb0638179, 0xcc899961, 0x846ee454, 0x8034229c,
         0x2de92c6f, 0x3e9d7b78);
    Step(v, w, 21, 0x9dc68b63, 0xe1f20c33, 0xfe777bbf, 0xc2fbd9d1, 0x8ada8930, 0xb0638179, 0xcc899961, 0x846ee454,
         0x4a7484aa, 0x0183fc00);
    Step(v, w, 22, 0xc2606d6d, 0x9dc68b63, 0xe1f20c33, 0xfe777bbf, 0xe1257970, 0x8ada8930, 0xb0638179, 0xcc899961,
         0x5cb0a9dc, 0x12dcbfdb);
    Step(v, w, 23, 0xa7a3623f, 0xc2606d6d, 0x9dc68b63, 0xe1f20c33, 0x49f5114a, 0xe1257970, 0x8ada8930, 0xb0638179,
         0x76f988da, 0xe2e2c38e);
  }

  lemma Rounds32(v: Vars, w: seq<word>, t: nat)
    requires |w| == 64 && t == 24
    requires Rounds(v, w, t)
            == Vars(0xc5d53d8d, 0xa7a3623f, 0xc2606d6d, 0x9dc68b63, 0xaa47c347, 0x49f5114a, 0xe1257970, 0x8ada8930)
    requires w[24] == 0xc8215c1a && w[25] == 0xb73679a2 && w[26] == 0xe5bc3909 && w[27] == 0x32663c5b
    requires w[28] == 0x9d209d67 && w[29] == 0xec8726cb && w[30] == 0x702138a4 && w[31] == 0xd3b7973b
    ensures Rounds(v, w, t + 8)
            == Vars(0x73b33bf5, 0xea992a22, 0xa0060b30, 0x363482c9, 0xba591112, 0x0109ab3a, 0xade79437, 0x6112a3b7)
  {
    hide Value, Rounds;
    Constants24();
    State24();
    State32();
    Words24();
    Step(v, w, 24, 0xc5d53d8d, 0xa7a3623f, 0xc2606d6d, 0x9dc68b63, 0xaa47c347, 0x49f5114a, 0xe1257970, 0x8ada8930,
         0x983e5152, 0xc8215c1a);
    Step(v, w, 25, 0x1c2c2838, 0xc5d53d8d, 0xa7a3623f, 0xc2606d6d, 0x2823ef91, 0xaa47c347, 0x49f5114a, 0xe1257970,
         0xa831c66d, 0xb73679a2);
    Step(v, w, 26, 0xcde8037d, 0x1c2c2838, 0xc5d53d8d, 0xa7a3623f, 0x14383d8e, 0x2823ef91, 0xaa47c347, 0x49f5114a,
         0xb00327c8, 0xe5bc3909);
    Step(v, w, 27, 0xb62ec4bc, 0xcde8037d, 0x1c2c2838, 0xc5d53d8d, 0xc74c6516, 0x14383d8e, 0x2823ef91, 0xaa47c347,
         0xbf597fc7, 0x32663c5b);
    Step(v, w, 28, 0x77d37528, 0xb62ec4bc, 0xcde8037d, 0x1c2c2838, 0xedffbff8, 0xc74c6516, 0x14383d8e, 0x2823ef91,
         0xc6e00bf3, 0x9d209d67);
    Step(v, w, 29, 0x363482c9, 0x77d37528, 0xb62ec4bc, 0xcde8037d, 0x6112a3b7, 0xedffbff8, 0xc74c6516, 0x14383d8e,
         0xd5a79147, 0xec8726cb);
    Step(v, w, 30, 0xa0060b30, 0x363482c9, 0x77d37528, 0xb62ec4bc, 0xade79437, 0x6112a3b7, 0xedffbff8, 0xc74c6516,
         0x06ca6351, 0x702138a4);
    Step(v, w, 31, 0xea992a22, 0xa0060b30, 0x363482c9, 0x77d37528, 0x0109ab3a, 0xade79437, 0x6112a3b7, 0xedffbff8,
         0x14292967, 0xd3b7973b);
  }

  lemma Rounds40(v: Vars, w: seq<word>, t: nat)
    requires |w| == 64 && t == 32
    requires Rounds(v, w, t)
            == Vars(0x73b33bf5, 0xea992a22, 0xa0060b30, 0x363482c9, 0xba591112, 0x0109ab3a, 0xade79437, 0x6112a3b7)
    requires w[32] == 0x93f5997f && w[33] == 0x3b68ba73 && w[34] == 0xaff4ffc1 && w[35] == 0xf10a5c62
    requires w[36] == 0x0a8b3996 && w[37] == 0x72af830a && w[38] == 0x9409e33e && w[39] == 0x24641522
    ensures Rounds(v, w, t + 8)
            == Vars(0x79ea687a, 0x6dc57a8a, 0x34df1604, 0x41a65cb1, 0x1efbc0a0, 0xf0781bc8, 0xa507a53d, 0x0772a26b)
  {
    hide Value, Rounds;
    Constants32();
    State32();
    State40();
    Words32();
    Step(v, w, 32, 0x73b33bf5, 0xea992a22, 0xa0060b30, 0x363482c9, 0xba591112, 0x0109ab3a, 0xade79437, 0x6112a3b7,
         0x27b70a85, 0x93f5997f);
    Step(v, w, 33, 0x98e12507, 0x73b33bf5, 0xea992a22, 0xa0060b30, 0x9cd9f5f6, 0xba591112, 0x0109ab3a, 0xade79437,
         0x2e1b2138, 0x3b68ba73);
    Step(v, w, 34, 0xfe604df5, 0x98e12507, 0x73b33bf5, 0xea992a22, 0x59249dd3, 0x9cd9f5f6, 0xba591112, 0x0109ab3a,
         0x4d2c6dfc, 0xaff4ffc1);
    Step(v, w, 35, 0xa9a7738c, 0xfe604df5, 0x98e12507, 0x73b33bf5, 0x085f3833, 0x59249dd3, 0x9cd9f5f6, 0xba591112,
         0x53380d13, 0xf10a5c62);
    Step(v, w, 36, 0x65a0cfe4, 0xa9a7738c, 0xfe604df5, 0x98e12507, 0xf4b002d6, 0x085f3833, 0x59249dd3, 0x9cd9f5f6,
         0x650a7354, 0x0a8b3996);
    Step(v, w, 37, 0x41a65cb1, 0x65a0cfe4, 0xa9a7738c, 0xfe604df5, 0x0772a26b, 0xf4b002d6, 0x085f3833, 0x59249dd3,
         0x766a0abb, 0x72af830a);
    Step(v, w, 38, 0x34df1604, 0x41a65cb1, 0x65a0cfe4, 0xa9a7738c, 0xa507a53d, 0x0772a26b, 0xf4b002d6, 0x085f3833,
         0x81c2c92e, 0x9409e33e);
    Step(v, w, 39, 0x6dc57a8a, 0x34df1604, 0x41a65cb1, 0x65a0cfe4, 0xf0781bc8, 0xa507a53d, 0x0772a26b, 0xf4b002d6,
         0x92722c85, 0x24641522);
  }

  lemma Rounds48(v: Vars, w: seq<word>, t: nat)
    requires |w| == 64 && t == 40
    requires Rounds(v, w, t)
            == Vars(0x79ea687a, 0x6dc57a8a, 0x34df1604, 0x41a65cb1, 0x1efbc0a0, 0xf0781bc8, 0xa507a53d, 0x0772a26b)
    requires w[40] == 0x9f47bf94 && w[41] == 0xf0a64f5a && w[42] == 0x3e246a79 && w[43] == 0x27333ba3
    requires w[44] == 0x0c4763f2 && w[45] == 0x840abf27 && w[46] == 0x7a290d5d && w[47] == 0x065c43da
    ensures Rounds(v, w, t + 8)
            == Vars(0x4172328d, 0xa14c14b0, 0x72ab4b91, 0x26628815, 0xfecf0bc6, 0xd57b94a9, 0xb7755da1, 0xa80f11f0)
  {
    hide Value, Rounds;
    Constants40();
    State40();
    State48();
    Words40();
    Step(v, w, 40, 0x79ea687a, 0x6dc57a8a, 0x34df1604, 0x41a65cb1, 0x1efbc0a0, 0xf0781bc8, 0xa507a53d, 0x0772a26b,
         0xa2bfe8a1, 0x9f47bf94);
    Step(v, w, 41, 0xd6670766, 0x79ea687a, 0x6dc57a8a, 0x34df1604, 0x26352d63, 0x1efbc0a0, 0xf0781bc8, 0xa507a53d,
         0xa81a664b, 0xf0a64f5a);
    Step(v, w, 42, 0xdf46652f, 0xd6670766, 0x79ea687a, 0x6dc57a8a, 0x838b2711, 0x26352d63, 0x1efbc0a0, 0xf0781bc8,
         0xc24b8b70, 0x3e246a79);
    Step(v, w, 43, 0x17aa0dfe, 0xdf46652f, 0xd6670766, 0x79ea687a, 0xdecd4715, 0x838b2711, 0x26352d63, 0x1efbc0a0,
         0xc76c51a3, 0x27333ba3);
    Step(v, w, 44, 0x9d4baf93, 0x17aa0dfe, 0xdf46652f, 0xd6670766, 0xfda24c2e, 0xdecd4715, 0x838b2711, 0x26352d63,
         0xd192e819, 0x0c4763f2);
    Step(v, w, 45, 0x26628815, 0x9d4baf93, 0x17aa0dfe, 0xdf46652f, 0xa80f11f0, 0xfda24c2e, 0xdecd4715, 0x838b2711,
         0xd6990624, 0x840abf27);
    Step(v, w, 46, 0x72ab4b91, 0x26628815, 0x9d4baf93, 0x17aa0dfe, 0xb7755da1, 0xa80f11f0, 0xfda24c2e, 0xdecd4715,
         0xf40e3585, 0x7a290d5d);
    Step(v, w, 47, 0xa14c14b0, 0x72ab4b91, 0x26628815, 0x9d4baf93, 0xd57b94a9, 0xb7755da1, 0xa80f11f0, 0xfda24c2e,
         0x106aa070, 0x065c43da);
  }

  lemma Rounds56(v: Vars, w: seq<word>, t: nat)
    requires |w| == 64 && t == 48
    requires Rounds(v, w, t)
            == Vars(0x4172328d, 0xa14c14b0, 0x72ab4b91, 0x26628815, 0xfecf0bc6, 0xd57b94a9, 0xb7755da1, 0xa80f11f0)
    requires w[48] == 0xfb3e89cb && w[49] == 0xcc7617db && w[50] == 0xb9e66c34 && w[51] == 0xa9993667
    requires w[52] == 0x84badedd && w[53] == 0xc21462bc && w[54] == 0x1487472c && w[55] == 0xb20f7a99
    ensures Rounds(v, w, t + 8)
            == Vars(0x38cc9913, 0x3ec45cdb, 0xf5702fdb, 0x101fd28f, 0x54cb266b, 0xe50e1b4f, 0x9f4787c3, 0x529e7d00)
  {
    hide Value, Rounds;
    Constants48();
    State48();
    State56();
    Words48();
    Step(v, w, 48, 0x4172328d, 0xa14c14b0, 0x72ab4b91, 0x26628815, 0xfecf0bc6, 0xd57b94a9, 0xb7755da1, 0xa80f11f0,
         0x19a4c116, 0xfb3e89cb);
    Step(v, w, 49, 0x05757ceb, 0x4172328d, 0xa14c14b0, 0x72ab4b91, 0xbd714038, 0xfecf0bc6, 0xd57b94a9, 0xb7755da1,
         0x1e376c08, 0xcc7617db);
    Step(v, w, 50, 0xf11bfaa8, 0x05757ceb, 0x4172328d, 0xa14c14b0, 0x6e5c390c, 0xbd714038, 0xfecf0bc6, 0xd57b94a9,
         0x2748774c, 0xb9e66c34);
    Step(v, w, 51, 0x7a0508a1, 0xf11bfaa8, 0x05757ceb, 0x4172328d, 0x52f1ccf7, 0x6e5c390c, 0xbd714038, 0xfecf0bc6,
         0x34b0bcb5, 0xa9993667);
    Step(v, w, 52, 0x886e7a22, 0x7a0508a1, 0xf11bfaa8, 0x05757ceb, 0x49231c1e, 0x52f1ccf7, 0x6e5c390c, 0xbd714038,
         0x391c0cb3, 0x84badedd);
    Step(v, w, 53, 0x101fd28f, 0x886e7a22, 0x7a0508a1, 0xf11bfaa8, 0x529e7d00, 0x49231c1e, 0x52f1ccf7, 0x6e5c390c,
         0x4ed8aa4a, 0xc21462bc);
    Step(v, w, 54, 0xf5702fdb, 0x101fd28f, 0x886e7a22, 0x7a0508a1, 0x9f4787c3, 0x529e7d00, 0x49231c1e, 0x52f1ccf7,
         0x5b9cca4f, 0x1487472c);
    Step(v, w, 55, 0x3ec45cdb, 0xf5702fdb, 0x101fd28f, 0x886e7a22, 0xe50e1b4f, 0x9f4787c3, 0x529e7d00, 0x49231c1e,
         0x682e6ff3, 0xb20f7a99);
  }

  lemma Rounds64(v: Vars, w: seq<word>, t: nat)
    requires |w| == 64 && t == 56
    requires Rounds(v, w, t)
            == Vars(0x38cc9913, 0x3ec45cdb, 0xf5702fdb, 0x101fd28f, 0x54cb266b, 0xe50e1b4f, 0x9f4787c3, 0x529e7d00)
    requires w[56] == 0xef57b9cd && w[57] == 0xebe6b238 && w[58] == 0x9fe3095e && w[59] == 0x78bc8d4b
    requires w[60] == 0xa43fcf15 && w[61] == 0x668b2ff8 && w[62] == 0xeeaba2cc && w[63] == 0x12b1edeb
    ensures Rounds(v, w, t + 8)
            == Vars(0x506e3058, 0xd39a2165, 0x04d24d6c, 0xb85e2ce9, 0x5ef50f24, 0xfb121210, 0x948d25b6, 0x961f4894)
  {
    hide Value, Rounds;
    Constants56();
    State56();
    State64();
    Words56();
    Step(v, w, 56, 0x38cc9913, 0x3ec45cdb, 0xf5702fdb, 0x101fd28f, 0x54cb266b, 0xe50e1b4f, 0x9f4787c3, 0x529e7d00,
         0x748f82ee, 0xef57b9cd);
    Step(v, w, 57, 0xfcd1887b, 0x38cc9913, 0x3ec45cdb, 0xf5702fdb, 0x9b5e906c, 0x54cb266b, 0xe50e1b4f, 0x9f4787c3,
         0x78a5636f, 0xebe6b238);
    Step(v, w, 58, 0xc062d46f, 0xfcd1887b, 0x38cc9913, 0x3ec45cdb, 0x7e44008e, 0x9b5e906c, 0x54cb266b, 0xe50e1b4f,
         0x84c87814, 0x9fe3095e);
    Step(v, w, 59, 0xffb70472, 0xc062d46f, 0xfcd1887b, 0x38cc9913, 0x6d83bfc6, 0x7e44008e, 0x9b5e906c, 0x54cb266b,
         0x8cc70208, 0x78bc8d4b);
    Step(v, w, 60, 0xb6ae8fff, 0xffb70472, 0xc062d46f, 0xfcd1887b, 0xb21bad3d, 0x6d83bfc6, 0x7e44008e, 0x9b5e906c,
         0x90befffa, 0xa43fcf15);
    Step(v, w, 61, 0xb85e2ce9, 0xb6ae8fff, 0xffb70472, 0xc062d46f, 0x961f4894, 0xb21bad3d, 0x6d83bfc6, 0x7e44008e,
         0xa4506ceb, 0x668b2ff8);
    Step(v, w, 62, 0x04d24d6c, 0xb85e2ce9, 0xb6ae8fff, 0xffb70472, 0x948d25b6, 0x961f4894, 0xb21bad3d, 0x6d83bfc6,
         0xbef9a3f7, 0xeeaba2cc);
    Step(v, w, 63, 0xd39a2165, 0x04d24d6c, 0xb85e2ce9, 0xb6ae8fff, 0xfb121210, 0x948d25b6, 0x961f4894, 0xb21bad3d,
         0xc67178f2, 0x12b1edeb);
  }

  lemma StartValues()
    ensures Vars(H0[0], H0[1], H0[2], H0[3], H0[4], H0[5], H0[6], H0[7])
            == Vars(0x6a09e667, 0xbb67ae85, 0x3c6ef372, 0xa54ff53a, 0x510e527f, 0x9b05688c, 0x1f83d9ab, 0x5be0cd19)
  {}

  lemma NoRounds(v: Vars, w: seq<word>)
    requires |w| == 64
    ensures Rounds(v, w, 0) == v
  {}

  lemma FinalSums()
    ensures Add(H0[0], 0x506e3058) == 0xba7816bf
    ensures Add(H0[1], 0xd39a2165) == 0x8f01cfea
    ensures Add(H0[2], 0x04d24d6c) == 0x414140de
    ensures Add(H0[3], 0xb85e2ce9) == 0x5dae2223
    ensures Add(H0[4], 0x5ef50f24) == 0xb00361a3
    ensures Add(H0[5], 0xfb121210) == 0x96177a9c
    ensures Add(H0[6], 0x948d25b6) == 0xb410ff61
    ensures Add(H0[7], 0x961f4894) == 0xf20015ad
  {}

  /** The intermediate hash value after the block. */
  lemma Compressed()
    ensures Compress(H0, BLOCK)
            == [0xba7816bf, 0x8f01cfea, 0x414140de, 0x5dae2223, 0xb00361a3, 0x96177a9c, 0xb410ff61, 0xf20015ad]
  {
    hide Value, Schedule, Rounds, Add;
    var w, v := Schedule(BLOCK, 64), Vars(H0[0], H0[1], H0[2], H0[3], H0[4], H0[5], H0[6], H0[7]);
    FirstWords(w, 64);
    StartValues();
    NoRounds(v, w);
    Schedule32(w, BLOCK, 64);
    Schedule48(w, BLOCK, 64);
    Schedule64(w, BLOCK, 64);
    Rounds8(v, w, 0);
    Rounds16(v, w, 8);
    Rounds24(v, w, 16);
    Rounds32(v, w, 24);
    Rounds40(v, w, 32);
    Rounds48(v, w, 40);
    Rounds56(v, w, 48);
    Rounds64(v, w, 56);
    FinalSums();
  }

  lemma Padded()
    ensures Pad(Ascii("abc")) == BLOCK
  {
    var m := Ascii("abc");
    assert m == [0x61, 0x62, 0x63];
    assert PadZeros(3) == 52;
    BigEndian64(24);
    assert BigEndian(8 * |m| % TWO64, 8) == [0, 0, 0, 0, 0, 0, 0, 24];
  }

  lemma OneWord(x: word, a: byte, b: byte, c: byte, d: byte, rest: seq<word>)
    requires x == 0x100_0000 * (a as int) + 0x1_0000 * (b as int) + 0x100 * (c as int) + d
    ensures WordOctets([x] + rest) == [a, b, c, d] + WordOctets(rest)
  {
    hide BigEndian, BigEndianValue;
    BigEndianValueRoundTrip([a, b, c, d]);
    BigEndianValue32([a, b, c, d]);
    assert ([x] + rest)[1..] == rest;
  }

  lemma Octets0(rest: seq<word>)
    ensures WordOctets([0xba7816bf, 0x8f01cfea] + rest)
            == [0xba, 0x78, 0x16, 0xbf, 0x8f, 0x01, 0xcf, 0xea] + WordOctets(rest)
  {
    hide WordOctets;
    OneWord(0x8f01cfea, 0x8f, 0x01, 0xcf, 0xea, rest);
    OneWord(0xba7816bf, 0xba, 0x78, 0x16, 0xbf, [0x8f01cfea] + rest);
    assert [0xba7816bf] + ([0x8f01cfea] + rest) == [0xba7816bf, 0x8f01cfea] + rest;
  }

  lemma Octets1(rest: seq<word>)
    ensures WordOctets([0x414140de, 0x5dae2223] + rest)
            == [0x41, 0x41, 0x40, 0xde, 0x5d, 0xae, 0x22, 0x23] + WordOctets(rest)
  {
    hide WordOctets;
    OneWord(0x5dae2223, 0x5d, 0xae, 0x22, 0x23, rest);
    OneWord(0x414140de, 0x41, 0x41, 0x40, 0xde, [0x5dae2223] + rest);
    assert [0x414140de] + ([0x5dae2223] + rest) == [0x414140de, 0x5dae2223] + rest;
  }

  lemma Octets2(rest: seq<word>)
    ensures WordOctets([0xb00361a3, 0x96177a9c] + rest)
            == [0xb0, 0x03, 0x61, 0xa3, 0x96, 0x17, 0x7a, 0x9c] + WordOctets(rest)
  {
    hide WordOctets;
    OneWord(0x96177a9c, 0x96, 0x17, 0x7a, 0x9c, rest);
    OneWord(0xb00361a3, 0xb0, 0x03, 0x61, 0xa3, [0x96177a9c] + rest);
    assert [0xb00361a3] + ([0x96177a9c] + rest) == [0xb00361a3, 0x96177a9c] + rest;
  }

  lemma Octets3(rest: seq<word>)
    ensures WordOctets([0xb410ff61, 0xf20015ad] + rest)
            == [0xb4, 0x10, 0xff, 0x61, 0xf2, 0x00, 0x15, 0xad] + WordOctets(rest)
  {
    hide WordOctets;
    OneWord(0xf20015ad, 0xf2, 0x00, 0x15, 0xad, rest);
    OneWord(0xb410ff61, 0xb4, 0x10, 0xff, 0x61, [0xf20015ad] + rest);
    assert [0xb410ff61] + ([0xf20015ad] + rest) == [0xb410ff61, 0xf20015ad] + rest;
  }

  lemma Octets()
    ensures WordOctets([0xba7816bf, 0x8f01cfea, 0x414140de, 0x5dae2223, 0xb00361a3, 0x96177a9c, 0xb410ff61, 0xf20015ad])
            == [
      0xba, 0x78, 0x16, 0xbf, 0x8f, 0x01, 0xcf, 0xea, 0x41, 0x41, 0x40, 0xde, 0x5d, 0xae, 0x22, 0x23,
      0xb0, 0x03, 0x61, 0xa3, 0x96, 0x17, 0x7a, 0x9c, 0xb4, 0x10, 0xff, 0x61, 0xf2, 0x00, 0x15, 0xad]
  {
    hide WordOctets;
    var h1: seq<word> := [0x414140de, 0x5dae2223];
    var h2: seq<word> := [0xb00361a3, 0x96177a9c];
    var h3: seq<word> := [0xb410ff61, 0xf20015ad];
    Octets3([]);
    Octets2(h3);
    Octets1(h2 + h3);
    Octets0(h1 + (h2 + h3));
    NoWords();
    assert h3 + [] == h3;
    assert [0xba7816bf, 0x8f01cfea] + (h1 + (h2 + h3))
           == [0xba7816bf, 0x8f01cfea, 0x414140de, 0x5dae2223, 0xb00361a3, 0x96177a9c, 0xb410ff61, 0xf20015ad];
  }

  lemma NoWords()
    ensures WordOctets([]) == [] && Chain([]) == H0 && Parse([]) == []
  {}

  lemma OneBlock(b: bytes)
    requires |b| == 64
    ensures Parse(b) == [b]
  {
    assert b[..64] == b && b[64..] == [];
  }

  /** The digest that the standard's example gives. */
  lemma Abc()
    ensures Sha256(Ascii("abc")) == [
      0xba, 0x78, 0x16, 0xbf, 0x8f, 0x01, 0xcf, 0xea, 0x41, 0x41, 0x40, 0xde, 0x5d, 0xae, 0x22, 0x23,
      0xb0, 0x03, 0x61, 0xa3, 0x96, 0x17, 0x7a, 0x9c, 0xb4, 0x10, 0xff, 0x61, 0xf2, 0x00, 0x15, 0xad]
  {
    hide Compress, Pad, Chain, Parse, WordOctets;
    Padded();
    OneBlock(BLOCK);
    ChainAppend([], BLOCK);
    assert [] + [BLOCK] == [BLOCK];
    NoWords();
    Compressed();
    Octets();
  }
}
