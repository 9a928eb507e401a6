// The digest of "abc", worked out by the definitions of the standard.
module Sha256Example {
  import opened Sha256Standard

  const MESSAGE: seq<Byte> := [0x61, 0x62, 0x63]

  // The only block of the padded message.
  function Block(): (b: seq<Byte>)
    ensures |b| == 64
  {
    MESSAGE + [0x80] + Zeros(59) + [24]
  }

  lemma {:induction false} ZeroNumber(bytes: nat)
    ensures BigEndian(0, bytes) == Zeros(bytes)
  {
    if bytes > 0 {
      ZeroNumber(bytes - 1);
    }
  }

  lemma LengthOfExample()
    ensures BigEndian(24, 8) == Zeros(7) + [24]
  {
    ZeroNumber(7);
    hide Zeros;
    assert BigEndian(24 / 256, 7) == Zeros(7);
  }

  lemma BlockIsPadded()
    ensures Padded(MESSAGE) == Block()
  {
    hide BigEndian;
    LengthOfExample();
    assert ZeroCount(3) == 52;
    assert Zeros(59) == Zeros(52) + Zeros(7);
  }

  // Word t of the message schedule.  The quantifier keeps the verifier from computing W at every mention.
  ghost predicate Scheduled(t: nat, w: Word) {
    forall i: nat :: i == t ==> W(Block(), i) == w
  }

  lemma FirstWord(t: nat)
    requires t < 16
    ensures W(Block(), t) == if t == 0 then 0x61626380 else if t == 15 then 24 else 0
  {
    var b := Block();
    assert W(b, t) == ToWord(b[4 * t], b[4 * t + 1], b[4 * t + 2], b[4 * t + 3]);
  }

  lemma NextWord(t: nat)
    requires 16 <= t < 64
    ensures var b := Block();
      W(b, t) == Add(Add(Add(SmallSigma1(W(b, t - 2)), W(b, t - 7)), SmallSigma0(W(b, t - 15))), W(b, t - 16))
  {
    hide Add, SmallSigma0, SmallSigma1, ToWord, Block;
  }

  lemma Schedule0()
    ensures Scheduled(0, 0x61626380) && Scheduled(1, 0x00000000)
    ensures Scheduled(2, 0x00000000) && Scheduled(3, 0x00000000)
    ensures Scheduled(4, 0x00000000) && Scheduled(5, 0x00000000)
    ensures Scheduled(6, 0x00000000) && Scheduled(7, 0x00000000)
  {
    hide W, Block;
    FirstWord(0);
    FirstWord(1);
    FirstWord(2);
    FirstWord(3);
    FirstWord(4);
    FirstWord(5);
    FirstWord(6);
    FirstWord(7);
  }

  lemma Schedule1()
    ensures Scheduled(8, 0x00000000) && Scheduled(9, 0x00000000)
    ensures Scheduled(10, 0x00000000) && Scheduled(11, 0x00000000)
    ensures Scheduled(12, 0x00000000) && Scheduled(13, 0x00000000)
    ensures Scheduled(14, 0x00000000) && Scheduled(15, 0x00000018)
  {
    hide W, Block;
    FirstWord(8);
    FirstWord(9);
    FirstWord(10);
    FirstWord(11);
    FirstWord(12);
    FirstWord(13);
    FirstWord(14);
    FirstWord(15);
  }

  lemma Schedule2()
    ensures Scheduled(16, 0x61626380) && Scheduled(17, 0x000f0000)
    ensures Scheduled(18, 0x7da86405) && Scheduled(19, 0x600003c6)
    ensures Scheduled(20, 0x3e9d7b78) && Scheduled(21, 0x0183fc00)
    ensures Scheduled(22, 0x12dcbfdb) && Scheduled(23, 0xe2e2c38e)
  {
    Schedule0();
    Schedule1();
    hide W, Block;
    NextWord(16);
    NextWord(17);
    NextWord(18);
    NextWord(19);
    NextWord(20);
    NextWord(21);
    NextWord(22);
    NextWord(23);
  }

  lemma Schedule3()
    ensures Scheduled(24, 0xc8215c1a) && Scheduled(25, 0xb73679a2)
    ensures Scheduled(26, 0xe5bc3909) && Scheduled(27, 0x32663c5b)
    ensures Scheduled(28, 0x9d209d67) && Scheduled(29, 0xec8726cb)
    ensures Scheduled(30, 0x702138a4) && Scheduled(31, 0xd3b7973b)
  {
    Schedule1();
    Schedule2();
    hide W, Block;
    NextWord(24);
    NextWord(25);
    NextWord(26);
    NextWord(27);
    NextWord(28);
    NextWord(29);
    NextWord(30);
    NextWord(31);
  }

  lemma Schedule4()
    ensures Scheduled(32, 0x93f5997f) && Scheduled(33, 0x3b68ba73)
    ensures Scheduled(34, 0xaff4ffc1) && Scheduled(35, 0xf10a5c62)
    ensures Scheduled(36, 0x0a8b3996) && Scheduled(37, 0x72af830a)
    ensures Scheduled(38, 0x9409e33e) && Scheduled(39, 0x24641522)
  {
    Schedule2();
    Schedule3();
    hide W, Block;
    NextWord(32);
    NextWord(33);
    NextWord(34);
    NextWord(35);
    NextWord(36);
    NextWord(37);
    NextWord(38);
    NextWord(39);
  }

  lemma Schedule5()
    ensures Scheduled(40, 0x9f47bf94) && Scheduled(41, 0xf0a64f5a)
    ensures Scheduled(42, 0x3e246a79) && Scheduled(43, 0x27333ba3)
    ensures Scheduled(44, 0x0c4763f2) && Scheduled(45, 0x840abf27)
    ensures Scheduled(46, 0x7a290d5d) && Scheduled(47, 0x065c43da)
  {
    Schedule3();
    Schedule4();
    hide W, Block;
    NextWord(40);
    NextWord(41);
    NextWord(42);
    NextWord(43);
    NextWord(44);
    NextWord(45);
    NextWord(46);
    NextWord(47);
  }

  lemma Schedule6()
    ensures Scheduled(48, 0xfb3e89cb) && Scheduled(49, 0xcc7617db)
    ensures Scheduled(50, 0xb9e66c34) && Scheduled(51, 0xa9993667)
    ensures Scheduled(52, 0x84badedd) && Scheduled(53, 0xc21462bc)
    ensures Scheduled(54, 0x1487472c) && Scheduled(55, 0xb20f7a99)
  {
    Schedule4();
    Schedule5();
    hide W, Block;
    NextWord(48);
    NextWord(49);
    NextWord(50);
    NextWord(51);
    NextWord(52);
    NextWord(53);
    NextWord(54);
    NextWord(55);
  }

  lemma Schedule7()
    ensures Scheduled(56, 0xef57b9cd) && Scheduled(57, 0xebe6b238)
    ensures Scheduled(58, 0x9fe3095e) && Scheduled(59, 0x78bc8d4b)
    ensures Scheduled(60, 0xa43fcf15) && Scheduled(61, 0x668b2ff8)
    ensures Scheduled(62, 0xeeaba2cc) && Scheduled(63, 0x12b1edeb)
  {
    Schedule5();
    Schedule6();
    hide W, Block;
    NextWord(56);
    NextWord(57);
    NextWord(58);
    NextWord(59);
    NextWord(60);
    NextWord(61);
    NextWord(62);
    NextWord(63);
  }

  lemma NextRound(t: nat)
    requires t < 64
    ensures Rounds(Load(INITIAL), Block(), t + 1) ==
      Round(Rounds(Load(INITIAL), Block(), t), K(t), W(Block(), t))
  {
    hide Round, W, Block;
  }

  lemma Constants0()
    ensures K(0) == 0x428a2f98 && K(1) == 0x71374491 && K(2) == 0xb5c0fbcf && K(3) == 0xe9b5dba5
    ensures K(4) == 0x3956c25b && K(5) == 0x59f111f1 && K(6) == 0x923f82a4 && K(7) == 0xab1c5ed5
  {
  }

  lemma Constants1()
    ensures K(8) == 0xd807aa98 && K(9) == 0x12835b01 && K(10) == 0x243185be && K(11) == 0x550c7dc3
    ensures K(12) == 0x72be5d74 && K(13) == 0x80deb1fe && K(14) == 0x9bdc06a7 && K(15) == 0xc19bf174
  {
  }

  lemma Constants2()
    ensures K(16) == 0xe49b69c1 && K(17) == 0xefbe4786 && K(18) == 0x0fc19dc6 && K(19) == 0x240ca1cc
    ensures K(20) == 0x2de92c6f && K(21) == 0x4a7484aa && K(22) == 0x5cb0a9dc && K(23) == 0x76f988da
  {
  }

  lemma Constants3()
    ensures K(24) == 0x983e5152 && K(25) == 0xa831c66d && K(26) == 0xb00327c8 && K(27) == 0xbf597fc7
    ensures K(28) == 0xc6e00bf3 && K(29) == 0xd5a79147 && K(30) == 0x06ca6351 && K(31) == 0x14292967
  {
  }

  lemma Constants4()
    ensures K(32) == 0x27b70a85 && K(33) == 0x2e1b2138 && K(34) == 0x4d2c6dfc && K(35) == 0x53380d13
    ensures K(36) == 0x650a7354 && K(37) == 0x766a0abb && K(38) == 0x81c2c92e && K(39) == 0x92722c85
  {
  }

  lemma Constants5()
    ensures K(40) == 0xa2bfe8a1 && K(41) == 0xa81a664b && K(42) == 0xc24b8b70 && K(43) == 0xc76c51a3
    ensures K(44) == 0xd192e819 && K(45) == 0xd6990624 && K(46) == 0xf40e3585 && K(47) == 0x106aa070
  {
  }

  lemma Constants6()
    ensures K(48) == 0x19a4c116 && K(49) == 0x1e376c08 && K(50) == 0x2748774c && K(51) == 0x34b0bcb5
    ensures K(52) == 0x391c0cb3 && K(53) == 0x4ed8aa4a && K(54) == 0x5b9cca4f && K(55) == 0x682e6ff3
  {
  }

  lemma Constants7()
    ensures K(56) == 0x748f82ee && K(57) == 0x78a5636f && K(58) == 0x84c87814 && K(59) == 0x8cc70208
    ensures K(60) == 0x90befffa && K(61) == 0xa4506ceb && K(62) == 0xbef9a3f7 && K(63) == 0xc67178f2
  {
  }

  lemma After0()
    ensures Rounds(Load(INITIAL), Block(), 0) == Variables(
      0x6a09e667, 0xbb67ae85, 0x3c6ef372, 0xa54ff53a,
      0x510e527f, 0x9b05688c, 0x1f83d9ab, 0x5be0cd19)
  {
  }

  lemma After4()
    ensures Rounds(Load(INITIAL), Block(), 4) == Variables(
      0xd550f666, 0xc8c347a7, 0x5a6ad9ad, 0x5d6aebcd,
      0x24e00850, 0xf92939eb, 0x78ce7989, 0xfa2a4622)
  {
    After0();
    Schedule0();
    Constants0();
    hide W, Block, Rounds, K;
    NextRound(0);
    NextRound(1);
    NextRound(2);
    NextRound(3);
  }

  lemma After8()
    ensures Rounds(Load(INITIAL), Block(), 8) == Variables(
      0x85a07b5f, 0xe5030380, 0x2b4209f5, 0x04409a6a,
      0x0c657a79, 0x9b27a401, 0x714260ad, 0x43ada245)
  {
    After4();
    Schedule0();
    Constants0();
    hide W, Block, Rounds, K;
    NextRound(4);
    NextRound(5);
    NextRound(6);
    NextRound(7);
  }

  lemma After12()
    ensures Rounds(Load(INITIAL), Block(), 12) == Variables(
      0xf71fc5a9, 0x4798a3f4, 0x8c87346b, 0x8e04ecb9,
      0x816fd6e9, 0x436b23e8, 0x1cc92596, 0x32ca2d8c)
  {
    After8();
    Schedule1();
    Constants1();
    hide W, Block, Rounds, K;
    NextRound(8);
    NextRound(9);
    NextRound(10);
    NextRound(11);
  }

  lemma After16()
    ensures Rounds(Load(INITIAL), Block(), 16) == Variables(
      0xb0fa238e, 0xc0645fde, 0xd932eb16, 0x87912990,
      0x07590dcd, 0x0b92f20c, 0x745a48de, 0x1e578218)
  {
    After12();
    Schedule1();
    Constants1();
    hide W, Block, Rounds, K;
    NextRound(12);
    NextRound(13);
    NextRound(14);
    NextRound(15);
  }

  lemma After20()
    ensures Rounds(Load(INITIAL), Block(), 20) == Variables(
      0xe1f20c33, 0xfe777bbf, 0xc2fbd9d1, 0x21da9a9b,
      0xb0638179, 0xcc899961, 0x846ee454, 0x8034229c)
  {
    After16();
    Schedule2();
    Constants2();
    hide W, Block, Rounds, K;
    NextRound(16);
    NextRound(17);
    NextRound(18);
    NextRound(19);
  }

  lemma After24()
    ensures Rounds(Load(INITIAL), Block(), 24) == Variables(
      0xc5d53d8d, 0xa7a3623f, 0xc2606d6d, 0x9dc68b63,
      0xaa47c347, 0x49f5114a, 0xe1257970, 0x8ada8930)
  {
    After20();
    Schedule2();
    Constants2();
    hide W, Block, Rounds, K;
    NextRound(20);
    NextRound(21);
    NextRound(22);
    NextRound(23);
  }

  lemma After28()
    ensures Rounds(Load(INITIAL), Block(), 28) == Variables(
      0x77d37528, 0xb62ec4bc, 0xcde8037d, 0x1c2c2838,
      0xedffbff8, 0xc74c6516, 0x14383d8e, 0x2823ef91)
  {
    After24();
    Schedule3();
    Constants3();
    hide W, Block, Rounds, K;
    NextRound(24);
    NextRound(25);
    NextRound(26);
    NextRound(27);
  }

  lemma After32()
    ensures Rounds(Load(INITIAL), Block(), 32) == Variables(
      0x73b33bf5, 0xea992a22, 0xa0060b30, 0x363482c9,
      0xba591112, 0x0109ab3a, 0xade79437, 0x6112a3b7)
  {
    After28();
    Schedule3();
    Constants3();
    hide W, Block, Rounds, K;
    NextRound(28);
    NextRound(29);
    NextRound(30);
    NextRound(31);
  }

  lemma After36()
    ensures Rounds(Load(INITIAL), Block(), 36) == Variables(
      0x65a0cfe4, 0xa9a7738c, 0xfe604df5, 0x98e12507,
      0xf4b002d6, 0x085f3833, 0x59249dd3, 0x9cd9f5f6)
  {
    After32();
    Schedule4();
    Constants4();
    hide W, Block, Rounds, K;
    NextRound(32);
    NextRound(33);
    NextRound(34);
    NextRound(35);
  }

  lemma After40()
    ensures Rounds(Load(INITIAL), Block(), 40) == Variables(
      0x79ea687a, 0x6dc57a8a, 0x34df1604, 0x41a65cb1,
      0x1efbc0a0, 0xf0781bc8, 0xa507a53d, 0x0772a26b)
  {
    After36();
    Schedule4();
    Constants4();
    hide W, Block, Rounds, K;
    NextRound(36);
    NextRound(37);
    NextRound(38);
    NextRound(39);
  }

  lemma After44()
    ensures Rounds(Load(INITIAL), Block(), 44) == Variables(
      0x9d4baf93, 0x17aa0dfe, 0xdf46652f, 0xd6670766,
      0xfda24c2e, 0xdecd4715, 0x838b2711, 0x26352d63)
  {
    After40();
    Schedule5();
    Constants5();
    hide W, Block, Rounds, K;
    NextRound(40);
    NextRound(41);
    NextRound(42);
    NextRound(43);
  }

  lemma After48()
    ensures Rounds(Load(INITIAL), Block(), 48) == Variables(
      0x4172328d, 0xa14c14b0, 0x72ab4b91, 0x26628815,
      0xfecf0bc6, 0xd57b94a9, 0xb7755da1, 0xa80f11f0)
  {
    After44();
    Schedule5();
    Constants5();
    hide W, Block, Rounds, K;
    NextRound(44);
    NextRound(45);
    NextRound(46);
    NextRound(47);
  }

  lemma After52()
    ensures Rounds(Load(INITIAL), Block(), 52) == Variables(
      0x886e7a22, 0x7a0508a1, 0xf11bfaa8, 0x05757ceb,
      0x49231c1e, 0x52f1ccf7, 0x6e5c390c, 0xbd714038)
  {
    After48();
    Schedule6();
    Constants6();
    hide W, Block, Rounds, K;
    NextRound(48);
    NextRound(49);
    NextRound(50);
    NextRound(51);
  }

  lemma After56()
    ensures Rounds(Load(INITIAL), Block(), 56) == Variables(
      0x38cc9913, 0x3ec45cdb, 0xf5702fdb, 0x101fd28f,
      0x54cb266b, 0xe50e1b4f, 0x9f4787c3, 0x529e7d00)
  {
    After52();
    Schedule6();
    Constants6();
    hide W, Block, Rounds, K;
    NextRound(52);
    NextRound(53);
    NextRound(54);
    NextRound(55);
  }

  lemma After60()
    ensures Rounds(Load(INITIAL), Block(), 60) == Variables(
      0xb6ae8fff, 0xffb70472, 0xc062d46f, 0xfcd1887b,
      0xb21bad3d, 0x6d83bfc6, 0x7e44008e, 0x9b5e906c)
  {
    After56();
    Schedule7();
    Constants7();
    hide W, Block, Rounds, K;
    NextRound(56);
    NextRound(57);
    NextRound(58);
    NextRound(59);
  }

  lemma After64()
    ensures Rounds(Load(INITIAL), Block(), 64) == Variables(
      0x506e3058, 0xd39a2165, 0x04d24d6c, 0xb85e2ce9,
      0x5ef50f24, 0xfb121210, 0x948d25b6, 0x961f4894)
  {
    After60();
    Schedule7();
    Constants7();
    hide W, Block, Rounds, K;
    NextRound(60);
    NextRound(61);
    NextRound(62);
    NextRound(63);
  }

  lemma HashOfBlock()
    ensures HashBlocks(Block()) == [
      0xba7816bf, 0x8f01cfea, 0x414140de, 0x5dae2223,
      0xb00361a3, 0x96177a9c, 0xb410ff61, 0xf20015ad]
  {
    After64();
    hide W, Rounds;
    var b := Block();
    assert b[..0] == [] && b[0..] == b;
    assert HashBlocks([]) == INITIAL;
  }

  lemma {:induction false} BytesJoin(g: seq<Word>, h: seq<Word>)
    ensures Bytes(g + h) == Bytes(g) + Bytes(h)
    decreases |h|
  {
    hide WordBytes;
    if h == [] {
      assert g + h == g;
    } else {
      var j := |h| - 1;
      assert (g + h)[..|g| + j] == g + h[..j];
      BytesJoin(g, h[..j]);
    }
  }

  lemma TwoWords(x: Word, y: Word)
    ensures Bytes([x, y]) == WordBytes(x) + WordBytes(y)
  {
    hide WordBytes;
    assert [x, y][..1] == [x] && [x][..0] == [];
    assert Bytes([x]) == Bytes([]) + WordBytes(x);
  }

  lemma BytesOfHash()
    ensures Bytes([0xba7816bf, 0x8f01cfea, 0x414140de, 0x5dae2223,
      0xb00361a3, 0x96177a9c, 0xb410ff61, 0xf20015ad]) ==
      [0xba, 0x78, 0x16, 0xbf, 0x8f, 0x01, 0xcf, 0xea] +
      [0x41, 0x41, 0x40, 0xde, 0x5d, 0xae, 0x22, 0x23] +
      [0xb0, 0x03, 0x61, 0xa3, 0x96, 0x17, 0x7a, 0x9c] +
      [0xb4, 0x10, 0xff, 0x61, 0xf2, 0x00, 0x15, 0xad]
  {
    var h0, h1, h2, h3 := [0xba7816bf, 0x8f01cfea], [0x414140de, 0x5dae2223],
      [0xb00361a3, 0x96177a9c], [0xb410ff61, 0xf20015ad];
    TwoWords(0xba7816bf, 0x8f01cfea);
    TwoWords(0x414140de, 0x5dae2223);
    TwoWords(0xb00361a3, 0x96177a9c);
    TwoWords(0xb410ff61, 0xf20015ad);
    hide Bytes;
    BytesJoin(h0, h1);
    BytesJoin(h0 + h1, h2);
    BytesJoin(h0 + h1 + h2, h3);
    assert h0 + h1 + h2 + h3 == [0xba7816bf, 0x8f01cfea, 0x414140de, 0x5dae2223,
      0xb00361a3, 0x96177a9c, 0xb410ff61, 0xf20015ad];
  }

  // The known answer.
  lemma DigestOfExample()
    ensures Digest(MESSAGE) ==
      [0xba, 0x78, 0x16, 0xbf, 0x8f, 0x01, 0xcf, 0xea] +
      [0x41, 0x41, 0x40, 0xde, 0x5d, 0xae, 0x22, 0x23] +
      [0xb0, 0x03, 0x61, 0xa3, 0x96, 0x17, 0x7a, 0x9c] +
      [0xb4, 0x10, 0xff, 0x61, 0xf2, 0x00, 0x15, 0xad]
  {
    BlockIsPadded();
    HashOfBlock();
    BytesOfHash();
    hide W, Rounds, HashBlocks, Bytes, Padded, Block;
  }
}
