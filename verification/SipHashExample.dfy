/** The worked example of appendix A of the SipHash paper, whose key is the one compiled in. */
module SipHashExample {
  import opened Bytes
  import opened Widening
  import opened SipHash

  lemma FirstRound()
    ensures SipRound(Words(0x7469686173716475, 0x6b617f6d656e6665, 0x6b7f62616d677361, 0x7c6d6c6a717c6d7b)) ==
            Words(0x64668a929363847f, 0x4ed232083d9aa8dc, 0xf2f74892d8141a2e, 0x9290f9810552f4a8)
  {
  }

  lemma SecondRound()
    ensures SipRound(Words(0x64668a929363847f, 0x4ed232083d9aa8dc, 0xf2f74892d8141a2e, 0x9290f9810552f4a8)) ==
            Words(0x4d07749cdd0858e0, 0x0d52f6f62a4f59a4, 0x634cb3577b01fd3d, 0xa5224d6f55c7d9c8)
  {
  }

  lemma ThirdRound()
    ensures SipRound(Words(0x4a017198de0a59e0, 0x0d52f6f62a4f59a4, 0x634cb3577b01fd3d, 0xaa2c40635ecdd0c0)) ==
            Words(0x557560fb6063d060, 0x4c8e675bd961133e, 0xbd3d002b1703a181, 0xfb9441179a4a7315)
  {
  }

  lemma FourthRound()
    ensures SipRound(Words(0x557560fb6063d060, 0x4c8e675bd961133e, 0xbd3d002b1703a181, 0xfb9441179a4a7315)) ==
            Words(0x338bbea7645fb759, 0x414fc3fb98efe374, 0xccf13ea527b9f4bd, 0x5293f5da84008f82)
  {
  }

  lemma FifthRound()
    ensures SipRound(Words(0x3c85b3ab6f55be51, 0x414fc3fb98efe374, 0xccf13ea527b9f442, 0x5293f5da84008f82)) ==
            Words(0xf2a55244a20e48fe, 0xac5ad16ccc3ca6e4, 0x9fe5adb0a52f393a, 0xfd41d55e88f30308)
  {
  }

  lemma SixthRound()
    ensures SipRound(Words(0xf2a55244a20e48fe, 0xac5ad16ccc3ca6e4, 0x9fe5adb0a52f393a, 0xfd41d55e88f30308)) ==
            Words(0xb6c3fbdecc2ae4b4, 0x1638c86adc6b3cf0, 0x28b8b6ab62553d46, 0xc9465e86ec43eb95)
  {
  }

  lemma SeventhRound()
    ensures SipRound(Words(0xb6c3fbdecc2ae4b4, 0x1638c86adc6b3cf0, 0x28b8b6ab62553d46, 0xc9465e86ec43eb95)) ==
            Words(0x58101b167209a5e6, 0xf8792ae75b66e7dd, 0x1da14c3ec7f0b4f7, 0x7624ba8a41bc4ad9)
  {
  }

  lemma EighthRound()
    ensures SipRound(Words(0x58101b167209a5e6, 0xf8792ae75b66e7dd, 0x1da14c3ec7f0b4f7, 0x7624ba8a41bc4ad9)) ==
            Words(0xf6bcd53893fecff1, 0x54b9964c7ea0d937, 0x1b38329c099bb55a, 0x1814bb89ad7be679)
  {
  }

  const MESSAGE: seq<byte> := [0, 1, 2, 3, 4, 5, 6, 7, 8, 9, 10, 11, 12, 13, 14]

  lemma InitialState()
    ensures Initial() ==
            Words(0x7469686173716475, 0x6b617f6d656e6665, 0x6b7f62616d677361, 0x7b6b696e727e6c7b)
  {
  }

  lemma FirstWord()
    ensures Compress(
              Words(0x7469686173716475, 0x6b617f6d656e6665, 0x6b7f62616d677361, 0x7b6b696e727e6c7b),
              0x0706050403020100) ==
            Words(0x4a017198de0a59e0, 0x0d52f6f62a4f59a4, 0x634cb3577b01fd3d, 0xa5224d6f55c7d9c8)
  {
    hide SipRound;
    FirstRound();
    SecondRound();
  }

  lemma SecondWord()
    ensures Compress(
              Words(0x4a017198de0a59e0, 0x0d52f6f62a4f59a4, 0x634cb3577b01fd3d, 0xa5224d6f55c7d9c8),
              0x0f0e0d0c0b0a0908) ==
            Words(0x3c85b3ab6f55be51, 0x414fc3fb98efe374, 0xccf13ea527b9f4bd, 0x5293f5da84008f82)
  {
    hide SipRound;
    ThirdRound();
    FourthRound();
  }

  lemma Finalization()
    ensures Finalize(
              Words(0x3c85b3ab6f55be51, 0x414fc3fb98efe374, 0xccf13ea527b9f4bd, 0x5293f5da84008f82)) ==
            0xa129ca6149be45e5
  {
    hide SipRound;
    FifthRound();
    SixthRound();
    SeventhRound();
    EighthRound();
  }

  lemma SmallWords()
    ensures Word(0) == 0 && Word(1) == 1 && Word(2) == 2 && Word(3) == 3 && Word(4) == 4 && Word(5) == 5
    ensures Word(6) == 6 && Word(7) == 7 && Word(8) == 8 && Word(9) == 9 && Word(10) == 10 && Word(11) == 11
    ensures Word(12) == 12 && Word(13) == 13 && Word(14) == 14 && Word(15) == 15
  {
  }

  /** Eight bytes, lane by lane. */
  lemma EightLanes(s: seq<byte>, off: nat)
    requires off + 8 <= |s|
    ensures OrBytes(0, s, off, 8) ==
            Or(Or(Or(Or(Or(Or(Or(Or(0, Lane(s[off], 0)), Lane(s[off + 1], 1)), Lane(s[off + 2], 2)),
               Lane(s[off + 3], 3)), Lane(s[off + 4], 4)), Lane(s[off + 5], 5)), Lane(s[off + 6], 6)),
               Lane(s[off + 7], 7))
  {
    hide Or, Lane;
    assert OrBytes(0, s, off, 0) == 0;
    assert OrBytes(0, s, off, 1) == Or(0, Lane(s[off], 0));
    assert OrBytes(0, s, off, 2) == Or(OrBytes(0, s, off, 1), Lane(s[off + 1], 1));
    assert OrBytes(0, s, off, 3) == Or(Or(Or(0, Lane(s[off], 0)), Lane(s[off + 1], 1)), Lane(s[off + 2], 2));
    assert OrBytes(0, s, off, 4) == Or(OrBytes(0, s, off, 3), Lane(s[off + 3], 3));
    assert OrBytes(0, s, off, 5) == Or(OrBytes(0, s, off, 4), Lane(s[off + 4], 4));
    assert OrBytes(0, s, off, 6) == Or(OrBytes(0, s, off, 5), Lane(s[off + 5], 5));
    assert OrBytes(0, s, off, 7) == Or(OrBytes(0, s, off, 6), Lane(s[off + 6], 6));
  }

  lemma LanesOfMessage()
    ensures Lane(0, 0) == 0x0 && Lane(1, 1) == 0x100 && Lane(2, 2) == 0x2_0000 && Lane(3, 3) == 0x300_0000
    ensures Lane(4, 4) == 0x4_0000_0000 && Lane(5, 5) == 0x500_0000_0000 && Lane(6, 6) == 0x6_0000_0000_0000
    ensures Lane(7, 7) == 0x700_0000_0000_0000 && Lane(8, 0) == 0x8 && Lane(9, 1) == 0x900 && Lane(10, 2) == 0xa_0000
    ensures Lane(11, 3) == 0xb00_0000 && Lane(12, 4) == 0xc_0000_0000 && Lane(13, 5) == 0xd00_0000_0000
    ensures Lane(14, 6) == 0xe_0000_0000_0000 && Lane(15, 7) == 0xf00_0000_0000_0000
  {
    hide Word;
    SmallWords();
  }

  lemma MessageWords()
    ensures OrBytes(0, Padded(MESSAGE), 0, 8) == 0x0706050403020100
    ensures OrBytes(0, Padded(MESSAGE), 8, 8) == 0x0f0e0d0c0b0a0908
  {
    hide Word, Lane;
    var p := Padded(MESSAGE);
    assert p == [0, 1, 2, 3, 4, 5, 6, 7, 8, 9, 10, 11, 12, 13, 14, 15];
    LanesOfMessage();
    EightLanes(p, 0);
    EightLanes(p, 8);
  }

  /** The fifteen bytes 0 to 14 hash to the value the paper gives. */
  lemma PaperExample()
    ensures Hash(MESSAGE) == 0xa129ca6149be45e5
  {
    hide Compress, Finalize, OrBytes, Padded;
    MessageWords();
    InitialState();
    FirstWord();
    SecondWord();
    Finalization();
    var p := Padded(MESSAGE);
    assert Absorb(Initial(), p, 1) == Compress(Initial(), OrBytes(0, p, 0, 8));
    assert Absorb(Initial(), p, 2) == Compress(Absorb(Initial(), p, 1), OrBytes(0, p, 8, 8));
  }
}
