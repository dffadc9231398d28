/**
 The hash of the three bytes "abc", computed step by step: the one-block example of the standard
 (FIPS 180-4, whose worked values NIST publishes). It fixes what no general law about the reference does:
 the rotation amounts, the two bitwise functions, the order of the bytes in a word and of the rounds.
 */
module Fips180Example {
  import opened Fips180
  import Sha256

  // The bytes of "abc"
  const ABC: seq<Byte> := [0x61, 0x62, 0x63]

  // Its one padded block, as words
  const M: seq<Word> :=
    [0x61626380, 0x00000000, 0x00000000, 0x00000000, 0x00000000, 0x00000000, 0x00000000, 0x00000000,
     0x00000000, 0x00000000, 0x00000000, 0x00000000, 0x00000000, 0x00000000, 0x00000000, 0x00000018]

  lemma Schedule0()
    ensures forall t :: 0 <= t < 4 ==> W(M, t) == [0x61626380, 0x00000000, 0x00000000, 0x00000000][t]
  {
  }

  lemma Schedule1()
    ensures forall t :: 4 <= t < 8 ==> W(M, t) == [0x00000000, 0x00000000, 0x00000000, 0x00000000][t - 4]
  {
  }

  lemma Schedule2()
    ensures forall t :: 8 <= t < 12 ==> W(M, t) == [0x00000000, 0x00000000, 0x00000000, 0x00000000][t - 8]
  {
  }

  lemma Schedule3()
    ensures forall t :: 12 <= t < 16 ==> W(M, t) == [0x00000000, 0x00000000, 0x00000000, 0x00000018][t - 12]
  {
  }

  lemma Schedule4()
    ensures forall t :: 16 <= t < 20 ==> W(M, t) == [0x61626380, 0x000f0000, 0x7da86405, 0x600003c6][t - 16]
  {
    hide W;
    Schedule0();
    Schedule1();
    Schedule2();
    Schedule3();
    WStep(M, 16);
    WStep(M, 17);
    WStep(M, 18);
    WStep(M, 19);
  }

  lemma Schedule5()
    ensures forall t :: 20 <= t < 24 ==> W(M, t) == [0x3e9d7b78, 0x0183fc00, 0x12dcbfdb, 0xe2e2c38e][t - 20]
  {
    hide W;
    Schedule1();
    Schedule2();
    Schedule3();
    Schedule4();
    WStep(M, 20);
    WStep(M, 21);
    WStep(M, 22);
    WStep(M, 23);
  }

  lemma Schedule6()
    ensures forall t :: 24 <= t < 28 ==> W(M, t) == [0xc8215c1a, 0xb73679a2, 0xe5bc3909, 0x32663c5b][t - 24]
  {
    hide W;
    Schedule2();
    Schedule3();
    Schedule4();
    Schedule5();
    WStep(M, 24);
    WStep(M, 25);
    WStep(M, 26);
    WStep(M, 27);
  }

  lemma Schedule7()
    ensures forall t :: 28 <= t < 32 ==> W(M, t) == [0x9d209d67, 0xec8726cb, 0x702138a4, 0xd3b7973b][t - 28]
  {
    hide W;
    Schedule3();
    Schedule4();
    Schedule5();
    Schedule6();
    WStep(M, 28);
    WStep(M, 29);
    WStep(M, 30);
    WStep(M, 31);
  }

  lemma Schedule8()
    ensures forall t :: 32 <= t < 36 ==> W(M, t) == [0x93f5997f, 0x3b68ba73, 0xaff4ffc1, 0xf10a5c62][t - 32]
  {
    hide W;
    Schedule4();
    Schedule5();
    Schedule6();
    Schedule7();
    WStep(M, 32);
    WStep(M, 33);
    WStep(M, 34);
    WStep(M, 35);
  }

  lemma Schedule9()
    ensures forall t :: 36 <= t < 40 ==> W(M, t) == [0x0a8b3996, 0x72af830a, 0x9409e33e, 0x24641522][t - 36]
  {
    hide W;
    Schedule5();
    Schedule6();
    Schedule7();
    Schedule8();
    WStep(M, 36);
    WStep(M, 37);
    WStep(M, 38);
    WStep(M, 39);
  }

  lemma Schedule10()
    ensures forall t :: 40 <= t < 44 ==> W(M, t) == [0x9f47bf94, 0xf0a64f5a, 0x3e246a79, 0x27333ba3][t - 40]
  {
    hide W;
    Schedule6();
    Schedule7();
    Schedule8();
    Schedule9();
    WStep(M, 40);
    WStep(M, 41);
    WStep(M, 42);
    WStep(M, 43);
  }

  lemma Schedule11()
    ensures forall t :: 44 <= t < 48 ==> W(M, t) == [0x0c4763f2, 0x840abf27, 0x7a290d5d, 0x065c43da][t - 44]
  {
    hide W;
    Schedule7();
    Schedule8();
    Schedule9();
    Schedule10();
    WStep(M, 44);
    WStep(M, 45);
    WStep(M, 46);
    WStep(M, 47);
  }

  lemma Schedule12()
    ensures forall t :: 48 <= t < 52 ==> W(M, t) == [0xfb3e89cb, 0xcc7617db, 0xb9e66c34, 0xa9993667][t - 48]
  {
    hide W;
    Schedule8();
    Schedule9();
    Schedule10();
    Schedule11();
    WStep(M, 48);
    WStep(M, 49);
    WStep(M, 50);
    WStep(M, 51);
  }

  lemma Schedule13()
    ensures forall t :: 52 <= t < 56 ==> W(M, t) == [0x84badedd, 0xc21462bc, 0x1487472c, 0xb20f7a99][t - 52]
  {
    hide W;
    Schedule9();
    Schedule10();
    Schedule11();
    Schedule12();
    WStep(M, 52);
    WStep(M, 53);
    WStep(M, 54);
    WStep(M, 55);
  }

  lemma Schedule14()
    ensures forall t :: 56 <= t < 60 ==> W(M, t) == [0xef57b9cd, 0xebe6b238, 0x9fe3095e, 0x78bc8d4b][t - 56]
  {
    hide W;
    Schedule10();
    Schedule11();
    Schedule12();
    Schedule13();
    WStep(M, 56);
    WStep(M, 57);
    WStep(M, 58);
    WStep(M, 59);
  }

  lemma Schedule15()
    ensures forall t :: 60 <= t < 64 ==> W(M, t) == [0xa43fcf15, 0x668b2ff8, 0xeeaba2cc, 0x12b1edeb][t - 60]
  {
    hide W;
    Schedule11();
    Schedule12();
    Schedule13();
    Schedule14();
    WStep(M, 60);
    WStep(M, 61);
    WStep(M, 62);
    WStep(M, 63);
  }

  function Key(t: nat): Word
    requires t < 64
  {
    K[t]
  }

  lemma FourRounds(v: Work, m: seq<Word>, t: nat)
    requires |m| == 16 && t <= 60
    ensures Rounds(v, m, t + 4) ==
            Round(Round(Round(Round(Rounds(v, m, t), Key(t), W(m, t)), Key(t + 1), W(m, t + 1)), Key(t + 2), W(m, t + 2)),
                  Key(t + 3), W(m, t + 3))
  {
    hide W, Round;
    RoundsStep(v, m, t);
    RoundsStep(v, m, t + 1);
    RoundsStep(v, m, t + 2);
    RoundsStep(v, m, t + 3);
  }

  lemma NoRounds()
    ensures Rounds(INITIAL_HASH, M, 0) ==
            Work(0x6a09e667, 0xbb67ae85, 0x3c6ef372, 0xa54ff53a, 0x510e527f, 0x9b05688c, 0x1f83d9ab, 0x5be0cd19)
  {
  }

  lemma Keys0()
    ensures Key(0) == 0x428a2f98 && Key(1) == 0x71374491 && Key(2) == 0xb5c0fbcf && Key(3) == 0xe9b5dba5
  {
  }

  lemma Keys1()
    ensures Key(4) == 0x3956c25b && Key(5) == 0x59f111f1 && Key(6) == 0x923f82a4 && Key(7) == 0xab1c5ed5
  {
  }

  lemma Keys2()
    ensures Key(8) == 0xd807aa98 && Key(9) == 0x12835b01 && Key(10) == 0x243185be && Key(11) == 0x550c7dc3
  {
  }

  lemma Keys3()
    ensures Key(12) == 0x72be5d74 && Key(13) == 0x80deb1fe && Key(14) == 0x9bdc06a7 && Key(15) == 0xc19bf174
  {
  }

  lemma Keys4()
    ensures Key(16) == 0xe49b69c1 && Key(17) == 0xefbe4786 && Key(18) == 0x0fc19dc6 && Key(19) == 0x240ca1cc
  {
  }

  lemma Keys5()
    ensures Key(20) == 0x2de92c6f && Key(21) == 0x4a7484aa && Key(22) == 0x5cb0a9dc && Key(23) == 0x76f988da
  {
  }

  lemma Keys6()
    ensures Key(24) == 0x983e5152 && Key(25) == 0xa831c66d && Key(26) == 0xb00327c8 && Key(27) == 0xbf597fc7
  {
  }

  lemma Keys7()
    ensures Key(28) == 0xc6e00bf3 && Key(29) == 0xd5a79147 && Key(30) == 0x06ca6351 && Key(31) == 0x14292967
  {
  }

  lemma Keys8()
    ensures Key(32) == 0x27b70a85 && Key(33) == 0x2e1b2138 && Key(34) == 0x4d2c6dfc && Key(35) == 0x53380d13
  {
  }

  lemma Keys9()
    ensures Key(36) == 0x650a7354 && Key(37) == 0x766a0abb && Key(38) == 0x81c2c92e && Key(39) == 0x92722c85
  {
  }

  lemma Keys10()
    ensures Key(40) == 0xa2bfe8a1 && Key(41) == 0xa81a664b && Key(42) == 0xc24b8b70 && Key(43) == 0xc76c51a3
  {
  }

  lemma Keys11()
    ensures Key(44) == 0xd192e819 && Key(45) == 0xd6990624 && Key(46) == 0xf40e3585 && Key(47) == 0x106aa070
  {
  }

  lemma Keys12()
    ensures Key(48) == 0x19a4c116 && Key(49) == 0x1e376c08 && Key(50) == 0x2748774c && Key(51) == 0x34b0bcb5
  {
  }

  lemma Keys13()
    ensures Key(52) == 0x391c0cb3 && Key(53) == 0x4ed8aa4a && Key(54) == 0x5b9cca4f && Key(55) == 0x682e6ff3
  {
  }

  lemma Keys14()
    ensures Key(56) == 0x748f82ee && Key(57) == 0x78a5636f && Key(58) == 0x84c87814 && Key(59) == 0x8cc70208
  {
  }

  lemma Keys15()
    ensures Key(60) == 0x90befffa && Key(61) == 0xa4506ceb && Key(62) == 0xbef9a3f7 && Key(63) == 0xc67178f2
  {
  }

  lemma Rounds4()
    ensures Rounds(INITIAL_HASH, M, 4) ==
            Work(0xd550f666, 0xc8c347a7, 0x5a6ad9ad, 0x5d6aebcd, 0x24e00850, 0xf92939eb, 0x78ce7989, 0xfa2a4622)
  {
    hide W, Rounds, Key;
    NoRounds();
    Schedule0();
    Keys0();
    FourRounds(INITIAL_HASH, M, 0);
  }

  lemma Rounds8()
    ensures Rounds(INITIAL_HASH, M, 8) ==
            Work(0x85a07b5f, 0xe5030380, 0x2b4209f5, 0x04409a6a, 0x0c657a79, 0x9b27a401, 0x714260ad, 0x43ada245)
  {
    hide W, Rounds, Key;
    Rounds4();
    Schedule1();
    Keys1();
    FourRounds(INITIAL_HASH, M, 4);
  }

  lemma Rounds12()
    ensures Rounds(INITIAL_HASH, M, 12) ==
            Work(0xf71fc5a9, 0x4798a3f4, 0x8c87346b, 0x8e04ecb9, 0x816fd6e9, 0x436b23e8, 0x1cc92596, 0x32ca2d8c)
  {
    hide W, Rounds, Key;
    Rounds8();
    Schedule2();
    Keys2();
    FourRounds(INITIAL_HASH, M, 8);
  }

  lemma Rounds16()
    ensures Rounds(INITIAL_HASH, M, 16) ==
            Work(0xb0fa238e, 0xc0645fde, 0xd932eb16, 0x87912990, 0x07590dcd, 0x0b92f20c, 0x745a48de, 0x1e578218)
  {
    hide W, Rounds, Key;
    Rounds12();
    Schedule3();
    Keys3();
    FourRounds(INITIAL_HASH, M, 12);
  }

  lemma Rounds20()
    ensures Rounds(INITIAL_HASH, M, 20) ==
            Work(0xe1f20c33, 0xfe777bbf, 0xc2fbd9d1, 0x21da9a9b, 0xb0638179, 0xcc899961, 0x846ee454, 0x8034229c)
  {
    hide W, Rounds, Key;
    Rounds16();
    Schedule4();
    Keys4();
    FourRounds(INITIAL_HASH, M, 16);
  }

  lemma Rounds24()
    ensures Rounds(INITIAL_HASH, M, 24) ==
            Work(0xc5d53d8d, 0xa7a3623f, 0xc2606d6d, 0x9dc68b63, 0xaa47c347, 0x49f5114a, 0xe1257970, 0x8ada8930)
  {
    hide W, Rounds, Key;
    Rounds20();
    Schedule5();
    Keys5();
    FourRounds(INITIAL_HASH, M, 20);
  }

  lemma Rounds28()
    ensures Rounds(INITIAL_HASH, M, 28) ==
            Work(0x77d37528, 0xb62ec4bc, 0xcde8037d, 0x1c2c2838, 0xedffbff8, 0xc74c6516, 0x14383d8e, 0x2823ef91)
  {
    hide W, Rounds, Key;
    Rounds24();
    Schedule6();
    Keys6();
    FourRounds(INITIAL_HASH, M, 24);
  }

  lemma Rounds32()
    ensures Rounds(INITIAL_HASH, M, 32) ==
            Work(0x73b33bf5, 0xea992a22, 0xa0060b30, 0x363482c9, 0xba591112, 0x0109ab3a, 0xade79437, 0x6112a3b7)
  {
    hide W, Rounds, Key;
    Rounds28();
    Schedule7();
    Keys7();
    FourRounds(INITIAL_HASH, M, 28);
  }

  lemma Rounds36()
    ensures Rounds(INITIAL_HASH, M, 36) ==
            Work(0x65a0cfe4, 0xa9a7738c, 0xfe604df5, 0x98e12507, 0xf4b002d6, 0x085f3833, 0x59249dd3, 0x9cd9f5f6)
  {
    hide W, Rounds, Key;
    Rounds32();
    Schedule8();
    Keys8();
    FourRounds(INITIAL_HASH, M, 32);
  }

  lemma Rounds40()
    ensures Rounds(INITIAL_HASH, M, 40) ==
            Work(0x79ea687a, 0x6dc57a8a, 0x34df1604, 0x41a65cb1, 0x1efbc0a0, 0xf0781bc8, 0xa507a53d, 0x0772a26b)
  {
    hide W, Rounds, Key;
    Rounds36();
    Schedule9();
    Keys9();
    FourRounds(INITIAL_HASH, M, 36);
  }

  lemma Rounds44()
    ensures Rounds(INITIAL_HASH, M, 44) ==
            Work(0x9d4baf93, 0x17aa0dfe, 0xdf46652f, 0xd6670766, 0xfda24c2e, 0xdecd4715, 0x838b2711, 0x26352d63)
  {
    hide W, Rounds, Key;
    Rounds40();
    Schedule10();
    Keys10();
    FourRounds(INITIAL_HASH, M, 40);
  }

  lemma Rounds48()
    ensures Rounds(INITIAL_HASH, M, 48) ==
            Work(0x4172328d, 0xa14c14b0, 0x72ab4b91, 0x26628815, 0xfecf0bc6, 0xd57b94a9, 0xb7755da1, 0xa80f11f0)
  {
    hide W, Rounds, Key;
    Rounds44();
    Schedule11();
    Keys11();
    FourRounds(INITIAL_HASH, M, 44);
  }

  lemma Rounds52()
    ensures Rounds(INITIAL_HASH, M, 52) ==
            Work(0x886e7a22, 0x7a0508a1, 0xf11bfaa8, 0x05757ceb, 0x49231c1e, 0x52f1ccf7, 0x6e5c390c, 0xbd714038)
  {
    hide W, Rounds, Key;
    Rounds48();
    Schedule12();
    Keys12();
    FourRounds(INITIAL_HASH, M, 48);
  }

  lemma Rounds56()
    ensures Rounds(INITIAL_HASH, M, 56) ==
            Work(0x38cc9913, 0x3ec45cdb, 0xf5702fdb, 0x101fd28f, 0x54cb266b, 0xe50e1b4f, 0x9f4787c3, 0x529e7d00)
  {
    hide W, Rounds, Key;
    Rounds52();
    Schedule13();
    Keys13();
    FourRounds(INITIAL_HASH, M, 52);
  }

  lemma Rounds60()
    ensures Rounds(INITIAL_HASH, M, 60) ==
            Work(0xb6ae8fff, 0xffb70472, 0xc062d46f, 0xfcd1887b, 0xb21bad3d, 0x6d83bfc6, 0x7e44008e, 0x9b5e906c)
  {
    hide W, Rounds, Key;
    Rounds56();
    Schedule14();
    Keys14();
    FourRounds(INITIAL_HASH, M, 56);
  }

  lemma Rounds64()
    ensures Rounds(INITIAL_HASH, M, 64) ==
            Work(0x506e3058, 0xd39a2165, 0x04d24d6c, 0xb85e2ce9, 0x5ef50f24, 0xfb121210, 0x948d25b6, 0x961f4894)
  {
    hide W, Rounds, Key;
    Rounds60();
    Schedule15();
    Keys15();
    FourRounds(INITIAL_HASH, M, 60);
  }

  // ---------- The digest ----------

  lemma AbcPadded()
    ensures Pad(ABC) == ABC + [0x80] + Zeros(52) + [0, 0, 0, 0, 0, 0, 0, 24]
  {
    assert ZeroBits(24) / 8 == 52;
    assert BytesOf(HighWord(24)) == [0, 0, 0, 0];
    assert BytesOf(LowWord(24)) == [0, 0, 0, 24];
  }

  lemma AbcWords()
    ensures |Pad(ABC)| == BLOCK_SIZE && Parse(Pad(ABC)) == M
  {
    AbcPadded();
    hide Pad;
    var p := Pad(ABC);
    assert WordOf(0x61, 0x62, 0x63, 0x80) == 0x61626380 && WordOf(0, 0, 0, 0) == 0 && WordOf(0, 0, 0, 24) == 24;
    hide WordOf;
    forall t | 0 <= t < 16
      ensures WordOf(p[4*t], p[4*t+1], p[4*t+2], p[4*t+3]) == M[t]
    {
      if 0 < t < 15 {
        assert M[t] == 0;
      }
    }
  }

  lemma AbcCompressed()
    ensures |Pad(ABC)| == BLOCK_SIZE
    ensures HashBlocks(INITIAL_HASH, Pad(ABC)) ==
            Work(0xba7816bf, 0x8f01cfea, 0x414140de, 0x5dae2223, 0xb00361a3, 0x96177a9c, 0xb410ff61, 0xf20015ad)
  {
    AbcWords();
    Rounds64();
    hide Pad, Parse, Rounds;
    var p := Pad(ABC);
    HashBlocksStep(INITIAL_HASH, p);
    assert p[..0] == [] && p[0..] == p;
    HashBlocksStep(INITIAL_HASH, []);
  }

  lemma OneMoreWord(ws: seq<Word>, w: Word)
    ensures WordsToBytes(ws + [w]) == WordsToBytes(ws) + BytesOf(w)
  {
    hide BytesOf;
    assert (ws + [w])[..|ws + [w]| - 1] == ws;
  }

  lemma FourMoreWords(ws: seq<Word>, a: Word, b: Word, c: Word, d: Word)
    ensures WordsToBytes(ws + [a, b, c, d]) == WordsToBytes(ws) + (BytesOf(a) + BytesOf(b) + BytesOf(c) + BytesOf(d))
  {
    hide BytesOf, WordsToBytes;
    OneMoreWord(ws, a);
    OneMoreWord(ws + [a], b);
    OneMoreWord(ws + [a] + [b], c);
    OneMoreWord(ws + [a] + [b] + [c], d);
    assert ws + [a] + [b] + [c] + [d] == ws + [a, b, c, d];
  }

  // Eight words, each with its first byte foremost
  lemma DigestInOrder(h: Work)
    ensures DigestOf(h) == (BytesOf(h.a) + BytesOf(h.b) + BytesOf(h.c) + BytesOf(h.d))
                           + (BytesOf(h.e) + BytesOf(h.f) + BytesOf(h.g) + BytesOf(h.h))
  {
    hide BytesOf;
    assert WordsToBytes([]) == [];
    hide WordsToBytes;
    FourMoreWords([], h.a, h.b, h.c, h.d);
    assert [] + [h.a, h.b, h.c, h.d] == [h.a, h.b, h.c, h.d];
    FourMoreWords([h.a, h.b, h.c, h.d], h.e, h.f, h.g, h.h);
    assert [h.a, h.b, h.c, h.d] + [h.e, h.f, h.g, h.h] == [h.a, h.b, h.c, h.d, h.e, h.f, h.g, h.h];
  }

  // The digest that the standard's example gives
  lemma AbcDigest()
    ensures Hash(ABC) ==
            [0xba, 0x78, 0x16, 0xbf, 0x8f, 0x01, 0xcf, 0xea, 0x41, 0x41, 0x40, 0xde, 0x5d, 0xae, 0x22, 0x23,
             0xb0, 0x03, 0x61, 0xa3, 0x96, 0x17, 0x7a, 0x9c, 0xb4, 0x10, 0xff, 0x61, 0xf2, 0x00, 0x15, 0xad]
  {
    AbcCompressed();
    hide Pad, HashBlocks, DigestOf;
    DigestInOrder(HashBlocks(INITIAL_HASH, Pad(ABC)));
    assert BytesOf(0xba7816bf) == [0xba, 0x78, 0x16, 0xbf];
    assert BytesOf(0x8f01cfea) == [0x8f, 0x01, 0xcf, 0xea];
    assert BytesOf(0x414140de) == [0x41, 0x41, 0x40, 0xde];
    assert BytesOf(0x5dae2223) == [0x5d, 0xae, 0x22, 0x23];
    assert BytesOf(0xb00361a3) == [0xb0, 0x03, 0x61, 0xa3];
    assert BytesOf(0x96177a9c) == [0x96, 0x17, 0x7a, 0x9c];
    assert BytesOf(0xb410ff61) == [0xb4, 0x10, 0xff, 0x61];
    assert BytesOf(0xf20015ad) == [0xf2, 0x00, 0x15, 0xad];
  }

  // ---------- The printed form ----------

  lemma {:induction false} HexAppend(x: seq<Byte>, y: seq<Byte>)
    ensures Sha256.Hex(x + y) == Sha256.Hex(x) + Sha256.Hex(y)
  {
    if y == [] {
      assert x + y == x;
    } else {
      var n := |y| - 1;
      HexAppend(x, y[..n]);
      assert (x + y)[..|x + y| - 1] == x + y[..n];
    }
  }

  lemma HexByte(b: Byte)
    ensures Sha256.Hex([b]) == [Sha256.HEX[b as int / 16], Sha256.HEX[b as int % 16]]
  {
    assert [b][..0] == [];
    assert Sha256.Hex([]) == [];
  }

  lemma HexWord(b0: Byte, b1: Byte, b2: Byte, b3: Byte)
    ensures Sha256.Hex([b0, b1, b2, b3]) ==
            [Sha256.HEX[b0 as int / 16], Sha256.HEX[b0 as int % 16], Sha256.HEX[b1 as int / 16], Sha256.HEX[b1 as int % 16],
             Sha256.HEX[b2 as int / 16], Sha256.HEX[b2 as int % 16], Sha256.HEX[b3 as int / 16], Sha256.HEX[b3 as int % 16]]
  {
    hide Sha256.Hex;
    HexByte(b0);
    HexByte(b1);
    HexByte(b2);
    HexByte(b3);
    HexAppend([b0], [b1]);
    HexAppend([b0] + [b1], [b2]);
    HexAppend([b0] + [b1] + [b2], [b3]);
    assert [b0] + [b1] + [b2] + [b3] == [b0, b1, b2, b3];
  }

  lemma HexFour(w: seq<Byte>, x: seq<Byte>, y: seq<Byte>, z: seq<Byte>)
    ensures Sha256.Hex(w + x + y + z) == Sha256.Hex(w) + Sha256.Hex(x) + Sha256.Hex(y) + Sha256.Hex(z)
  {
    hide Sha256.Hex;
    HexAppend(w, x);
    HexAppend(w + x, y);
    HexAppend(w + x + y, z);
  }

  lemma HexOfDigest(h: Work)
    ensures Sha256.Hex(DigestOf(h)) ==
            (Sha256.Hex(BytesOf(h.a)) + Sha256.Hex(BytesOf(h.b)) + Sha256.Hex(BytesOf(h.c)) + Sha256.Hex(BytesOf(h.d)))
            + (Sha256.Hex(BytesOf(h.e)) + Sha256.Hex(BytesOf(h.f)) + Sha256.Hex(BytesOf(h.g)) + Sha256.Hex(BytesOf(h.h)))
  {
    hide Sha256.Hex, DigestOf, BytesOf;
    DigestInOrder(h);
    HexFour(BytesOf(h.a), BytesOf(h.b), BytesOf(h.c), BytesOf(h.d));
    HexFour(BytesOf(h.e), BytesOf(h.f), BytesOf(h.g), BytesOf(h.h));
    HexAppend(BytesOf(h.a) + BytesOf(h.b) + BytesOf(h.c) + BytesOf(h.d),
              BytesOf(h.e) + BytesOf(h.f) + BytesOf(h.g) + BytesOf(h.h));
  }

  lemma Printed0()
    ensures Sha256.Hex(BytesOf(0xba7816bf)) == "ba7816bf"
  {
    assert BytesOf(0xba7816bf) == [0xba, 0x78, 0x16, 0xbf];
    HexWord(0xba, 0x78, 0x16, 0xbf);
  }

  lemma Printed1()
    ensures Sha256.Hex(BytesOf(0x8f01cfea)) == "8f01cfea"
  {
    assert BytesOf(0x8f01cfea) == [0x8f, 0x01, 0xcf, 0xea];
    HexWord(0x8f, 0x01, 0xcf, 0xea);
  }

  lemma Printed2()
    ensures Sha256.Hex(BytesOf(0x414140de)) == "414140de"
  {
    assert BytesOf(0x414140de) == [0x41, 0x41, 0x40, 0xde];
    HexWord(0x41, 0x41, 0x40, 0xde);
  }

  lemma Printed3()
    ensures Sha256.Hex(BytesOf(0x5dae2223)) == "5dae2223"
  {
    assert BytesOf(0x5dae2223) == [0x5d, 0xae, 0x22, 0x23];
    HexWord(0x5d, 0xae, 0x22, 0x23);
  }

  lemma Printed4()
    ensures Sha256.Hex(BytesOf(0xb00361a3)) == "b00361a3"
  {
    assert BytesOf(0xb00361a3) == [0xb0, 0x03, 0x61, 0xa3];
    HexWord(0xb0, 0x03, 0x61, 0xa3);
  }

  lemma Printed5()
    ensures Sha256.Hex(BytesOf(0x96177a9c)) == "96177a9c"
  {
    assert BytesOf(0x96177a9c) == [0x96, 0x17, 0x7a, 0x9c];
    HexWord(0x96, 0x17, 0x7a, 0x9c);
  }

  lemma Printed6()
    ensures Sha256.Hex(BytesOf(0xb410ff61)) == "b410ff61"
  {
    assert BytesOf(0xb410ff61) == [0xb4, 0x10, 0xff, 0x61];
    HexWord(0xb4, 0x10, 0xff, 0x61);
  }

  lemma Printed7()
    ensures Sha256.Hex(BytesOf(0xf20015ad)) == "f20015ad"
  {
    assert BytesOf(0xf20015ad) == [0xf2, 0x00, 0x15, 0xad];
    HexWord(0xf2, 0x00, 0x15, 0xad);
  }

  // What sha256("abc") returns
  lemma AbcPrinted()
    ensures Sha256.Hex(Hash(ABC)) ==
            ("ba7816bf" + "8f01cfea" + "414140de" + "5dae2223")
            + ("b00361a3" + "96177a9c" + "b410ff61" + "f20015ad")
  {
    hide Sha256.Hex, DigestOf, BytesOf, Pad, HashBlocks;
    AbcCompressed();
    HexOfDigest(HashBlocks(INITIAL_HASH, Pad(ABC)));
    Printed0();
    Printed1();
    Printed2();
    Printed3();
    Printed4();
    Printed5();
    Printed6();
    Printed7();
  }
}
