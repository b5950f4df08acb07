// The test vector of appendix A of "SipHash: a fast short-input PRF" (Aumasson and Bernstein, 2012), state by state.
module SipHashVector {
  import opened SipHash

  /** The bytes 0, 1, ..., n - 1. */
  function Counting(n: nat): (b: seq<bv8>)
    requires n <= 16
    ensures |b| == n && forall i :: 0 <= i < n ==> b[i] == i as bv8
  {
    [0, 1, 2, 3, 4, 5, 6, 7, 8, 9, 10, 11, 12, 13, 14, 15][..n]
  }

  /** One round by its intermediate sums. */
  lemma RoundOf(v0: bv64, v1: bv64, v2: bv64, v3: bv64, a0: bv64, a2: bv64, b1: bv64, b3: bv64, c2: bv64, t: State)
    requires a0 == Plus(v0, v1) && a2 == Plus(v2, v3) && c2 == Plus(a2, b1)
    requires b1 == Xor(Rotation(v1, 13), a0) && b3 == Xor(Rotation(v3, 16), a2)
    requires t.v0 == Plus(Rotation(a0, 32), b3) && t.v2 == Rotation(c2, 32)
    requires t.v1 == Xor(Rotation(b1, 17), c2) && t.v3 == Xor(Rotation(b3, 21), t.v0)
    ensures SipRound(State(v0, v1, v2, v3)) == t
  {
    hide Plus, Xor, Rotl, Rotation;
    RotationRotates(v1);
    RotationRotates(v3);
    RotationRotates(a0);
    RotationRotates(b1);
    RotationRotates(b3);
    RotationRotates(c2);
  }

  lemma KeyWords()
    ensures LeWord(Counting(16)[..8]) == 0x0706050403020100 && LeWord(Counting(16)[8..]) == 0x0f0e0d0c0b0a0908
  {
    hide LeWord;
    EightBytes(Counting(16)[..8]);
    EightBytes(Counting(16)[8..]);
  }

  /** Fifteen bytes and their count are one more counting byte. */
  lemma MessageWords()
    ensures Words(Padded(Counting(15))) == [0x0706050403020100, 0x0f0e0d0c0b0a0908]
  {
    hide LeWord;
    var p := Counting(16);
    assert Padded(Counting(15)) == p;
    assert p[8..][..8] == p[8..] && p[8..][8..] == [];
    KeyWords();
  }

  lemma InitialState()
    ensures Initial(Counting(16)) ==
      State(0x7469686173716475, 0x6b617f6d656e6665, 0x6b7f62616d677361, 0x7b6b696e727e6c7b)
  {
    hide LeWord;
    KeyWords();
  }

  lemma Round1()
    ensures SipRound(State(0x7469686173716475, 0x6b617f6d656e6665, 0x6b7f62616d677361, 0x7c6d6c6a717c6d7b))
      == State(0x64668a929363847f, 0x4ed232083d9aa8dc, 0xf2f74892d8141a2e, 0x9290f9810552f4a8)
  {
    hide SipRound, Rotl;
    RoundOf(0x7469686173716475, 0x6b617f6d656e6665, 0x6b7f62616d677361, 0x7c6d6c6a717c6d7b,
            0xdfcae7ced8dfcada, 0xe7eccecbdee3e0dc, 0xf0274b63141367b6, 0x8b86bfb7b3989cb1,
            0xd8141a2ef2f74892,
            State(0x64668a929363847f, 0x4ed232083d9aa8dc, 0xf2f74892d8141a2e, 0x9290f9810552f4a8));
  }

  lemma Round2()
    ensures SipRound(State(0x64668a929363847f, 0x4ed232083d9aa8dc, 0xf2f74892d8141a2e, 0x9290f9810552f4a8))
      == State(0x4d07749cdd0858e0, 0x0d52f6f62a4f59a4, 0x634cb3577b01fd3d, 0xa5224d6f55c7d9c8)
  {
    hide SipRound, Rotl;
    RoundOf(0x64668a929363847f, 0x4ed232083d9aa8dc, 0xf2f74892d8141a2e, 0x9290f9810552f4a8,
            0xb338bc9ad0fe2d5b, 0x85884213dd670ed6, 0xf579bb2985e5a481, 0x7c09474129cf9c46,
            0x7b01fd3d634cb357,
            State(0x4d07749cdd0858e0, 0x0d52f6f62a4f59a4, 0x634cb3577b01fd3d, 0xa5224d6f55c7d9c8));
  }

  lemma Round3()
    ensures SipRound(State(0x4a017198de0a59e0, 0x0d52f6f62a4f59a4, 0x634cb3577b01fd3d, 0xaa2c40635ecdd0c0))
      == State(0x557560fb6063d060, 0x4c8e675bd961133e, 0xbd3d002b1703a181, 0xfb9441179a4a7315)
  {
    hide SipRound, Rotl;
    RoundOf(0x4a017198de0a59e0, 0x0d52f6f62a4f59a4, 0x634cb3577b01fd3d, 0xaa2c40635ecdd0c0,
            0x5754688f0859b384, 0x0d78f3bad9cfcdfd, 0x098aadc6e36d322e, 0x4d1bad77090f67d1,
            0x1703a181bd3d002b,
            State(0x557560fb6063d060, 0x4c8e675bd961133e, 0xbd3d002b1703a181, 0xfb9441179a4a7315));
  }

  lemma Round4()
    ensures SipRound(State(0x557560fb6063d060, 0x4c8e675bd961133e, 0xbd3d002b1703a181, 0xfb9441179a4a7315))
      == State(0x338bbea7645fb759, 0x414fc3fb98efe374, 0xccf13ea527b9f4bd, 0x5293f5da84008f82)
  {
    hide SipRound, Rotl;
    RoundOf(0x557560fb6063d060, 0x4c8e675bd961133e, 0xbd3d002b1703a181, 0xfb9441179a4a7315,
            0xa203c85739c4e39e, 0xb8d14142b14e1496, 0x6ee8b37b1ba32a0f, 0xf9c6db08c25bef02,
            0x27b9f4bdccf13ea5,
            State(0x338bbea7645fb759, 0x414fc3fb98efe374, 0xccf13ea527b9f4bd, 0x5293f5da84008f82));
  }

  lemma Round5()
    ensures SipRound(State(0x3c85b3ab6f55be51, 0x414fc3fb98efe374, 0xccf13ea527b9f442, 0x5293f5da84008f82))
      == State(0xf2a55244a20e48fe, 0xac5ad16ccc3ca6e4, 0x9fe5adb0a52f393a, 0xfd41d55e88f30308)
  {
    hide SipRound, Rotl;
    RoundOf(0x3c85b3ab6f55be51, 0x414fc3fb98efe374, 0xccf13ea527b9f442, 0x5293f5da84008f82,
            0x7dd577a70845a1c5, 0x1f85347fabba83c4, 0x85aa04baf42b29ec, 0xea5fb07f2438d157,
            0xa52f393a9fe5adb0,
            State(0xf2a55244a20e48fe, 0xac5ad16ccc3ca6e4, 0x9fe5adb0a52f393a, 0xfd41d55e88f30308));
  }

  lemma Round6()
    ensures SipRound(State(0xf2a55244a20e48fe, 0xac5ad16ccc3ca6e4, 0x9fe5adb0a52f393a, 0xfd41d55e88f30308))
      == State(0xb6c3fbdecc2ae4b4, 0x1638c86adc6b3cf0, 0x28b8b6ab62553d46, 0xc9465e86ec43eb95)
  {
    hide SipRound, Rotl;
    RoundOf(0xf2a55244a20e48fe, 0xac5ad16ccc3ca6e4, 0x9fe5adb0a52f393a, 0xfd41d55e88f30308,
            0x9f0023b16e4aefe2, 0x9d27830f2e223c42, 0xc52dba36fa967a69, 0x48790bfc2d2ac103,
            0x62553d4628b8b6ab,
            State(0xb6c3fbdecc2ae4b4, 0x1638c86adc6b3cf0, 0x28b8b6ab62553d46, 0xc9465e86ec43eb95));
  }

  lemma Round7()
    ensures SipRound(State(0xb6c3fbdecc2ae4b4, 0x1638c86adc6b3cf0, 0x28b8b6ab62553d46, 0xc9465e86ec43eb95))
      == State(0x58101b167209a5e6, 0xf8792ae75b66e7dd, 0x1da14c3ec7f0b4f7, 0x7624ba8a41bc4ad9)
  {
    hide SipRound, Rotl;
    RoundOf(0xb6c3fbdecc2ae4b4, 0x1638c86adc6b3cf0, 0x28b8b6ab62553d46, 0xc9465e86ec43eb95,
            0xccfcc449a89621a4, 0xf1ff15324e9928db, 0xd5f19fc4cf082363, 0xaf79f971a50ce19d,
            0xc7f0b4f71da14c3e,
            State(0x58101b167209a5e6, 0xf8792ae75b66e7dd, 0x1da14c3ec7f0b4f7, 0x7624ba8a41bc4ad9));
  }

  lemma Round8()
    ensures SipRound(State(0x58101b167209a5e6, 0xf8792ae75b66e7dd, 0x1da14c3ec7f0b4f7, 0x7624ba8a41bc4ad9))
      == State(0xf6bcd53893fecff1, 0x54b9964c7ea0d937, 0x1b38329c099bb55a, 0x1814bb89ad7be679)
  {
    hide SipRound, Rotl;
    RoundOf(0x58101b167209a5e6, 0xf8792ae75b66e7dd, 0x1da14c3ec7f0b4f7, 0x7624ba8a41bc4ad9,
            0x508945fdcd708dc3, 0x93c606c909acffd0, 0x75d5ae91118b32cc, 0x294c4775437589f4,
            0x099bb55a1b38329c,
            State(0xf6bcd53893fecff1, 0x54b9964c7ea0d937, 0x1b38329c099bb55a, 0x1814bb89ad7be679));
  }

  lemma FirstWord()
    ensures Compress(State(0x7469686173716475, 0x6b617f6d656e6665, 0x6b7f62616d677361, 0x7b6b696e727e6c7b),
                     0x0706050403020100) ==
      State(0x4a017198de0a59e0, 0x0d52f6f62a4f59a4, 0x634cb3577b01fd3d, 0xa5224d6f55c7d9c8)
  {
    hide SipRound;
    Round1();
    Round2();
    TwoRounds(State(0x7469686173716475, 0x6b617f6d656e6665, 0x6b7f62616d677361, 0x7c6d6c6a717c6d7b));
  }

  lemma SecondWord()
    ensures Compress(State(0x4a017198de0a59e0, 0x0d52f6f62a4f59a4, 0x634cb3577b01fd3d, 0xa5224d6f55c7d9c8),
                     0x0f0e0d0c0b0a0908) ==
      State(0x3c85b3ab6f55be51, 0x414fc3fb98efe374, 0xccf13ea527b9f4bd, 0x5293f5da84008f82)
  {
    hide SipRound;
    Round3();
    Round4();
    TwoRounds(State(0x4a017198de0a59e0, 0x0d52f6f62a4f59a4, 0x634cb3577b01fd3d, 0xaa2c40635ecdd0c0));
  }

  lemma TwoRounds(s: State)
    ensures SipRounds(s, 2) == SipRound(SipRound(s)) && SipRounds(s, 4) == SipRounds(SipRounds(s, 2), 2)
  {
    hide SipRound;
    assert SipRounds(SipRound(SipRound(s)), 0) == SipRound(SipRound(s));
    assert SipRounds(SipRound(s), 1) == SipRound(SipRound(s));
    assert SipRounds(s, 4) == SipRounds(SipRound(s), 3) == SipRounds(SipRound(SipRound(s)), 2);
  }

  lemma FinalRounds()
    ensures SipRounds(State(0x3c85b3ab6f55be51, 0x414fc3fb98efe374, 0xccf13ea527b9f442, 0x5293f5da84008f82), 4)
      == State(0xf6bcd53893fecff1, 0x54b9964c7ea0d937, 0x1b38329c099bb55a, 0x1814bb89ad7be679)
  {
    hide SipRound, SipRounds;
    Round5();
    Round6();
    Round7();
    Round8();
    TwoRounds(State(0x3c85b3ab6f55be51, 0x414fc3fb98efe374, 0xccf13ea527b9f442, 0x5293f5da84008f82));
    TwoRounds(State(0xb6c3fbdecc2ae4b4, 0x1638c86adc6b3cf0, 0x28b8b6ab62553d46, 0xc9465e86ec43eb95));
  }

  lemma FinalHash()
    ensures Finish(State(0x3c85b3ab6f55be51, 0x414fc3fb98efe374, 0xccf13ea527b9f4bd, 0x5293f5da84008f82))
      == 0xa129ca6149be45e5
  {
    hide SipRounds;
    FinalRounds();
  }

  /** The vector: key 00 to 0f, message 00 to 0e. */
  lemma TestVector()
    ensures Hash(Counting(16), Counting(15)) == 0xa129ca6149be45e5
  {
    hide Initial, Padded, Words, Compress, Finish;
    InitialState();
    MessageWords();
    FirstWord();
    SecondWord();
    FinalHash();
    var ws := [0x0706050403020100, 0x0f0e0d0c0b0a0908];
    assert ws[1..] == [0x0f0e0d0c0b0a0908] && ws[1..][1..] == [];
  }
}
