/**
 A known answer: the digest of the one-block message "abc" from the SHA-256 examples that accompany
 FIPS 180-4, with its message schedule and the working variables after every eight rounds.
 */
module Sha256KnownAnswer {
  import opened Sha256Spec
  import opened Sha256Incremental

  const ABC: seq<Byte> := [0x61, 0x62, 0x63]

  /** The padded message: its bytes, a one bit, zeros, and the length of 24 bits. */
  function AbcBlock(): (block: seq<Byte>)
    ensures |block| == BLOCK
  {
    [0x61, 0x62, 0x63, 0x80] + Zeros(59) + [0x18]
  }

  lemma {:induction false} ZeroBytes(n: nat)
    ensures BigEndian(0, n) == Zeros(n)
  {
    if n > 0 {
      ZeroBytes(n - 1);
      assert LowByte(0) == 0;
    }
  }

  lemma LengthOfAbc()
    ensures BigEndian(24, 8) == Zeros(7) + [0x18]
  {
    ZeroBytes(7);
    assert LowByte(24) == 0x18;
  }

  lemma AbcPadded()
    ensures Pad(ABC) == AbcBlock()
  {
    assert ZeroCount(3) == 52;
    LengthOfAbc();
    assert Pad(ABC) == [0x61, 0x62, 0x63, 0x80] + Zeros(52) + BigEndian(24, 8);
  }

  // ---------------------------------------------------------------- the message schedule

  lemma Words0()
    ensures ToWord(0x61, 0x62, 0x63, 0x80) == 0x61626380
    ensures ToWord(0, 0, 0, 0) == 0 && ToWord(0, 0, 0, 0x18) == 0x18
  {
  }

  lemma Schedule0(b: seq<Byte>)
    requires b == AbcBlock()
    ensures Schedule(b, 0) == 0x61626380 && Schedule(b, 15) == 0x18
    ensures forall t :: 1 <= t < 15 ==> Schedule(b, t) == 0
  {
    hide ToWord, Schedule;
    Words0();
    ScheduleStart(b, 0);
    ScheduleStart(b, 15);
    forall t | 1 <= t < 15
      ensures Schedule(b, t) == 0
    {
      ScheduleStart(b, t);
    }
  }

  lemma Schedule1(b: seq<Byte>)
    requires b == AbcBlock()
    ensures Schedule(b, 8) == 0 && Schedule(b, 9) == 0 && Schedule(b, 10) == 0 && Schedule(b, 11) == 0
    ensures Schedule(b, 12) == 0 && Schedule(b, 13) == 0 && Schedule(b, 14) == 0 && Schedule(b, 15) == 0x18
  {
    hide Schedule;
    Schedule0(b);
  }

  lemma Words2()
    ensures Sum4(SmallSigma1(0x00000000), 0x00000000, SmallSigma0(0x00000000), 0x61626380) == 0x61626380
    ensures Sum4(SmallSigma1(0x00000018), 0x00000000, SmallSigma0(0x00000000), 0x00000000) == 0x000f0000
    ensures Sum4(SmallSigma1(0x61626380), 0x00000000, SmallSigma0(0x00000000), 0x00000000) == 0x7da86405
    ensures Sum4(SmallSigma1(0x000f0000), 0x00000000, SmallSigma0(0x00000000), 0x00000000) == 0x600003c6
    ensures Sum4(SmallSigma1(0x7da86405), 0x00000000, SmallSigma0(0x00000000), 0x00000000) == 0x3e9d7b78
    ensures Sum4(SmallSigma1(0x600003c6), 0x00000000, SmallSigma0(0x00000000), 0x00000000) == 0x0183fc00
    ensures Sum4(SmallSigma1(0x3e9d7b78), 0x00000018, SmallSigma0(0x00000000), 0x00000000) == 0x12dcbfdb
    ensures Sum4(SmallSigma1(0x0183fc00), 0x61626380, SmallSigma0(0x00000000), 0x00000000) == 0xe2e2c38e
  {
  }

  lemma Words3()
    ensures Sum4(SmallSigma1(0x12dcbfdb), 0x000f0000, SmallSigma0(0x00000000), 0x00000000) == 0xc8215c1a
    ensures Sum4(SmallSigma1(0xe2e2c38e), 0x7da86405, SmallSigma0(0x00000000), 0x00000000) == 0xb73679a2
    ensures Sum4(SmallSigma1(0xc8215c1a), 0x600003c6, SmallSigma0(0x00000000), 0x00000000) == 0xe5bc3909
    ensures Sum4(SmallSigma1(0xb73679a2), 0x3e9d7b78, SmallSigma0(0x00000000), 0x00000000) == 0x32663c5b
    ensures Sum4(SmallSigma1(0xe5bc3909), 0x0183fc00, SmallSigma0(0x00000000), 0x00000000) == 0x9d209d67
    ensures Sum4(SmallSigma1(0x32663c5b), 0x12dcbfdb, SmallSigma0(0x00000000), 0x00000000) == 0xec8726cb
    ensures Sum4(SmallSigma1(0x9d209d67), 0xe2e2c38e, SmallSigma0(0x00000018), 0x00000000) == 0x702138a4
    ensures Sum4(SmallSigma1(0xec8726cb), 0xc8215c1a, SmallSigma0(0x61626380), 0x00000018) == 0xd3b7973b
  {
  }

  lemma Words4()
    ensures Sum4(SmallSigma1(0x702138a4), 0xb73679a2, SmallSigma0(0x000f0000), 0x61626380) == 0x93f5997f
    ensures Sum4(SmallSigma1(0xd3b7973b), 0xe5bc3909, SmallSigma0(0x7da86405), 0x000f0000) == 0x3b68ba73
    ensures Sum4(SmallSigma1(0x93f5997f), 0x32663c5b, SmallSigma0(0x600003c6), 0x7da86405) == 0xaff4ffc1
    ensures Sum4(SmallSigma1(0x3b68ba73), 0x9d209d67, SmallSigma0(0x3e9d7b78), 0x600003c6) == 0xf10a5c62
    ensures Sum4(SmallSigma1(0xaff4ffc1), 0xec8726cb, SmallSigma0(0x0183fc00), 0x3e9d7b78) == 0x0a8b3996
    ensures Sum4(SmallSigma1(0xf10a5c62), 0x702138a4, SmallSigma0(0x12dcbfdb), 0x0183fc00) == 0x72af830a
    ensures Sum4(SmallSigma1(0x0a8b3996), 0xd3b7973b, SmallSigma0(0xe2e2c38e), 0x12dcbfdb) == 0x9409e33e
    ensures Sum4(SmallSigma1(0x72af830a), 0x93f5997f, SmallSigma0(0xc8215c1a), 0xe2e2c38e) == 0x24641522
  {
  }

  lemma Words5()
    ensures Sum4(SmallSigma1(0x9409e33e), 0x3b68ba73, SmallSigma0(0xb73679a2), 0xc8215c1a) == 0x9f47bf94
    ensures Sum4(SmallSigma1(0x24641522), 0xaff4ffc1, SmallSigma0(0xe5bc3909), 0xb73679a2) == 0xf0a64f5a
    ensures Sum4(SmallSigma1(0x9f47bf94), 0xf10a5c62, SmallSigma0(0x32663c5b), 0xe5bc3909) == 0x3e246a79
    ensures Sum4(SmallSigma1(0xf0a64f5a), 0x0a8b3996, SmallSigma0(0x9d209d67), 0x32663c5b) == 0x27333ba3
    ensures Sum4(SmallSigma1(0x3e246a79), 0x72af830a, SmallSigma0(0xec8726cb), 0x9d209d67) == 0x0c4763f2
    ensures Sum4(SmallSigma1(0x27333ba3), 0x9409e33e, SmallSigma0(0x702138a4), 0xec8726cb) == 0x840abf27
    ensures Sum4(SmallSigma1(0x0c4763f2), 0x24641522, SmallSigma0(0xd3b7973b), 0x702138a4) == 0x7a290d5d
    ensures Sum4(SmallSigma1(0x840abf27), 0x9f47bf94, SmallSigma0(0x93f5997f), 0xd3b7973b) == 0x065c43da
  {
  }

  lemma Words6()
    ensures Sum4(SmallSigma1(0x7a290d5d), 0xf0a64f5a, SmallSigma0(0x3b68ba73), 0x93f5997f) == 0xfb3e89cb
    ensures Sum4(SmallSigma1(0x065c43da), 0x3e246a79, SmallSigma0(0xaff4ffc1), 0x3b68ba73) == 0xcc7617db
    ensures Sum4(SmallSigma1(0xfb3e89cb), 0x27333ba3, SmallSigma0(0xf10a5c62), 0xaff4ffc1) == 0xb9e66c34
    ensures Sum4(SmallSigma1(0xcc7617db), 0x0c4763f2, SmallSigma0(0x0a8b3996), 0xf10a5c62) == 0xa9993667
    ensures Sum4(SmallSigma1(0xb9e66c34), 0x840abf27, SmallSigma0(0x72af830a), 0x0a8b3996) == 0x84badedd
    ensures Sum4(SmallSigma1(0xa9993667), 0x7a290d5d, SmallSigma0(0x9409e33e), 0x72af830a) == 0xc21462bc
    ensures Sum4(SmallSigma1(0x84badedd), 0x065c43da, SmallSigma0(0x24641522), 0x9409e33e) == 0x1487472c
    ensures Sum4(SmallSigma1(0xc21462bc), 0xfb3e89cb, SmallSigma0(0x9f47bf94), 0x24641522) == 0xb20f7a99
  {
  }

  lemma Words7()
    ensures Sum4(SmallSigma1(0x1487472c), 0xcc7617db, SmallSigma0(0xf0a64f5a), 0x9f47bf94) == 0xef57b9cd
    ensures Sum4(SmallSigma1(0xb20f7a99), 0xb9e66c34, SmallSigma0(0x3e246a79), 0xf0a64f5a) == 0xebe6b238
    ensures Sum4(SmallSigma1(0xef57b9cd), 0xa9993667, SmallSigma0(0x27333ba3), 0x3e246a79) == 0x9fe3095e
    ensures Sum4(SmallSigma1(0xebe6b238), 0x84badedd, SmallSigma0(0x0c4763f2), 0x27333ba3) == 0x78bc8d4b
    ensures Sum4(SmallSigma1(0x9fe3095e), 0xc21462bc, SmallSigma0(0x840abf27), 0x0c4763f2) == 0xa43fcf15
    ensures Sum4(SmallSigma1(0x78bc8d4b), 0x1487472c, SmallSigma0(0x7a290d5d), 0x840abf27) == 0x668b2ff8
    ensures Sum4(SmallSigma1(0xa43fcf15), 0xb20f7a99, SmallSigma0(0x065c43da), 0x7a290d5d) == 0xeeaba2cc
    ensures Sum4(SmallSigma1(0x668b2ff8), 0xef57b9cd, SmallSigma0(0xfb3e89cb), 0x065c43da) == 0x12b1edeb
  {
  }

  lemma Schedule2(b: seq<Byte>)
    requires b == AbcBlock()
    ensures Schedule(b, 16) == 0x61626380 && Schedule(b, 17) == 0x000f0000
    ensures Schedule(b, 18) == 0x7da86405 && Schedule(b, 19) == 0x600003c6
    ensures Schedule(b, 20) == 0x3e9d7b78 && Schedule(b, 21) == 0x0183fc00
    ensures Schedule(b, 22) == 0x12dcbfdb && Schedule(b, 23) == 0xe2e2c38e
  {
    hide Schedule, SmallSigma0, SmallSigma1, Sum4;
    Schedule0(b);
    Words2();
    ScheduleStep(b, 16);
    ScheduleStep(b, 17);
    ScheduleStep(b, 18);
    ScheduleStep(b, 19);
    ScheduleStep(b, 20);
    ScheduleStep(b, 21);
    ScheduleStep(b, 22);
    ScheduleStep(b, 23);
  }

  lemma Schedule3(b: seq<Byte>)
    requires b == AbcBlock()
    ensures Schedule(b, 24) == 0xc8215c1a && Schedule(b, 25) == 0xb73679a2
    ensures Schedule(b, 26) == 0xe5bc3909 && Schedule(b, 27) == 0x32663c5b
    ensures Schedule(b, 28) == 0x9d209d67 && Schedule(b, 29) == 0xec8726cb
    ensures Schedule(b, 30) == 0x702138a4 && Schedule(b, 31) == 0xd3b7973b
  {
    hide Schedule, SmallSigma0, SmallSigma1, Sum4;
    Schedule0(b);
    Schedule2(b);
    Words3();
    ScheduleStep(b, 24);
    ScheduleStep(b, 25);
    ScheduleStep(b, 26);
    ScheduleStep(b, 27);
    ScheduleStep(b, 28);
    ScheduleStep(b, 29);
    ScheduleStep(b, 30);
    ScheduleStep(b, 31);
  }

  lemma Schedule4(b: seq<Byte>)
    requires b == AbcBlock()
    ensures Schedule(b, 32) == 0x93f5997f && Schedule(b, 33) == 0x3b68ba73
    ensures Schedule(b, 34) == 0xaff4ffc1 && Schedule(b, 35) == 0xf10a5c62
    ensures Schedule(b, 36) == 0x0a8b3996 && Schedule(b, 37) == 0x72af830a
    ensures Schedule(b, 38) == 0x9409e33e && Schedule(b, 39) == 0x24641522
  {
    hide Schedule, SmallSigma0, SmallSigma1, Sum4;
    Schedule2(b);
    Schedule3(b);
    Words4();
    ScheduleStep(b, 32);
    ScheduleStep(b, 33);
    ScheduleStep(b, 34);
    ScheduleStep(b, 35);
    ScheduleStep(b, 36);
    ScheduleStep(b, 37);
    ScheduleStep(b, 38);
    ScheduleStep(b, 39);
  }

  lemma Schedule5(b: seq<Byte>)
    requires b == AbcBlock()
    ensures Schedule(b, 40) == 0x9f47bf94 && Schedule(b, 41) == 0xf0a64f5a
    ensures Schedule(b, 42) == 0x3e246a79 && Schedule(b, 43) == 0x27333ba3
    ensures Schedule(b, 44) == 0x0c4763f2 && Schedule(b, 45) == 0x840abf27
    ensures Schedule(b, 46) == 0x7a290d5d && Schedule(b, 47) == 0x065c43da
  {
    hide Schedule, SmallSigma0, SmallSigma1, Sum4;
    Schedule3(b);
    Schedule4(b);
    Words5();
    ScheduleStep(b, 40);
    ScheduleStep(b, 41);
    ScheduleStep(b, 42);
    ScheduleStep(b, 43);
    ScheduleStep(b, 44);
    ScheduleStep(b, 45);
    ScheduleStep(b, 46);
    ScheduleStep(b, 47);
  }

  lemma Schedule6(b: seq<Byte>)
    requires b == AbcBlock()
    ensures Schedule(b, 48) == 0xfb3e89cb && Schedule(b, 49) == 0xcc7617db
    ensures Schedule(b, 50) == 0xb9e66c34 && Schedule(b, 51) == 0xa9993667
    ensures Schedule(b, 52) == 0x84badedd && Schedule(b, 53) == 0xc21462bc
    ensures Schedule(b, 54) == 0x1487472c && Schedule(b, 55) == 0xb20f7a99
  {
    hide Schedule, SmallSigma0, SmallSigma1, Sum4;
    Schedule4(b);
    Schedule5(b);
    Words6();
    ScheduleStep(b, 48);
    ScheduleStep(b, 49);
    ScheduleStep(b, 50);
    ScheduleStep(b, 51);
    ScheduleStep(b, 52);
    ScheduleStep(b, 53);
    ScheduleStep(b, 54);
    ScheduleStep(b, 55);
  }

  lemma Schedule7(b: seq<Byte>)
    requires b == AbcBlock()
    ensures Schedule(b, 56) == 0xef57b9cd && Schedule(b, 57) == 0xebe6b238
    ensures Schedule(b, 58) == 0x9fe3095e && Schedule(b, 59) == 0x78bc8d4b
    ensures Schedule(b, 60) == 0xa43fcf15 && Schedule(b, 61) == 0x668b2ff8
    ensures Schedule(b, 62) == 0xeeaba2cc && Schedule(b, 63) == 0x12b1edeb
  {
    hide Schedule, SmallSigma0, SmallSigma1, Sum4;
    Schedule5(b);
    Schedule6(b);
    Words7();
    ScheduleStep(b, 56);
    ScheduleStep(b, 57);
    ScheduleStep(b, 58);
    ScheduleStep(b, 59);
    ScheduleStep(b, 60);
    ScheduleStep(b, 61);
    ScheduleStep(b, 62);
    ScheduleStep(b, 63);
  }

  // ---------------------------------------------------------------- the rounds

  function Start(): Work {
    Work(0x6a09e667, 0xbb67ae85, 0x3c6ef372, 0xa54ff53a, 0x510e527f, 0x9b05688c, 0x1f83d9ab, 0x5be0cd19)
  }

  lemma ConstantAt(r: nat, j: nat)
    requires r < 8 && j < 8
    ensures RoundConstants()[8 * r + j] == Load(ConstantRow(r)[j])
  {
    hide ConstantRow, Load;
  }

  lemma Leaves0()
    ensures BigSigma1(0x510e527f) == 0x3587272b && Ch(0x510e527f, 0x9b05688c, 0x1f83d9ab) == 0x1f85c98c
    ensures BigSigma0(0x6a09e667) == 0xce20b47e && Maj(0x6a09e667, 0xbb67ae85, 0x3c6ef372) == 0x3a6fe667
    ensures BigSigma1(0xfa2a4622) == 0x5a94fd2d && Ch(0xfa2a4622, 0x510e527f, 0x9b05688c) == 0x510f6aae
    ensures BigSigma0(0x5d6aebcd) == 0xa29f64d1 && Maj(0x5d6aebcd, 0x6a09e667, 0xbb67ae85) == 0x7b6beec5
    ensures BigSigma1(0x78ce7989) == 0x73f0e495 && Ch(0x78ce7989, 0xfa2a4622, 0x510e527f) == 0x790a4276
    ensures BigSigma0(0x5a6ad9ad) == 0x3096d054 && Maj(0x5a6ad9ad, 0x5d6aebcd, 0x6a09e667) == 0x5a6aebed
    ensures BigSigma1(0xf92939eb) == 0x0607743c && Ch(0xf92939eb, 0x78ce7989, 0xfa2a4622) == 0x7a0a7f89
    ensures BigSigma0(0xc8c347a7) == 0xc21008d0 && Maj(0xc8c347a7, 0x5a6ad9ad, 0x5d6aebcd) == 0x586acbad
    ensures BigSigma1(0x24e00850) == 0x3a933432 && Ch(0x24e00850, 0xf92939eb, 0x78ce7989) == 0x782e79c9
    ensures BigSigma0(0xd550f666) == 0x45bb0c4b && Maj(0xd550f666, 0xc8c347a7, 0x5a6ad9ad) == 0xd842d7a7
    ensures BigSigma1(0x43ada245) == 0x8b77e19c && Ch(0x43ada245, 0x24e00850, 0xf92939eb) == 0xb8a019ea
    ensures BigSigma0(0x04409a6a) == 0x5029ac8f && Maj(0x04409a6a, 0xd550f666, 0xc8c347a7) == 0xc440d666
    ensures BigSigma1(0x714260ad) == 0x015b7776 && Ch(0x714260ad, 0x43ada245, 0x24e00850) == 0x45a02855
    ensures BigSigma0(0x2b4209f5) == 0x0d5e0cc0 && Maj(0x2b4209f5, 0x04409a6a, 0xd550f666) == 0x05409a66
    ensures BigSigma1(0x9b27a401) == 0x158dfaa9 && Ch(0x9b27a401, 0x714260ad, 0x43ada245) == 0x518a2245
    ensures BigSigma0(0xe5030380) == 0x2949eb6c && Maj(0xe5030380, 0x2b4209f5, 0x04409a6a) == 0x25420be0
  {
  }

  lemma Group0(v: Work)
    requires v == Work(0x6a09e667, 0xbb67ae85, 0x3c6ef372, 0xa54ff53a, 0x510e527f, 0x9b05688c, 0x1f83d9ab, 0x5be0cd19)
    ensures Round(Round(Round(Round(Round(Round(Round(Round(v, 0x428a2f98, 0x61626380), 0x71374491, 0x00000000),
                          0xb5c0fbcf, 0x00000000), 0xe9b5dba5, 0x00000000), 0x3956c25b, 0x00000000),
                          0x59f111f1, 0x00000000), 0x923f82a4, 0x00000000), 0xab1c5ed5, 0x00000000)
            == Work(0x85a07b5f, 0xe5030380, 0x2b4209f5, 0x04409a6a, 0x0c657a79, 0x9b27a401, 0x714260ad, 0x43ada245)
  {
    hide BigSigma0, BigSigma1, Ch, Maj;
    Leaves0();
  }

  lemma Loads0()
    ensures Load(0x428a2f98) == 0x428a2f98 && Load(0x71374491) == 0x71374491
    ensures Load(0xb5c0fbcf) == 0xb5c0fbcf && Load(0xe9b5dba5) == 0xe9b5dba5
    ensures Load(0x3956c25b) == 0x3956c25b && Load(0x59f111f1) == 0x59f111f1
    ensures Load(0x923f82a4) == 0x923f82a4 && Load(0xab1c5ed5) == 0xab1c5ed5
  {
  }

  lemma After0(v: Work, b: seq<Byte>)
    requires b == AbcBlock() && v == Start()
    ensures Rounds(v, b, RoundConstants()[..8])
            == Work(0x85a07b5f, 0xe5030380, 0x2b4209f5, 0x04409a6a, 0x0c657a79, 0x9b27a401, 0x714260ad, 0x43ada245)
  {
    hide RoundConstants, Schedule, Round, Rounds, AbcBlock, Load;
    var ks := RoundConstants();
    NoRounds(v, b);
    Loads0();
    Schedule0(b);
    ConstantAt(0, 0);
    ConstantAt(0, 1);
    ConstantAt(0, 2);
    ConstantAt(0, 3);
    ConstantAt(0, 4);
    ConstantAt(0, 5);
    ConstantAt(0, 6);
    ConstantAt(0, 7);
    NextRound(v, b, ks, 0);
    NextRound(v, b, ks, 1);
    NextRound(v, b, ks, 2);
    NextRound(v, b, ks, 3);
    NextRound(v, b, ks, 4);
    NextRound(v, b, ks, 5);
    NextRound(v, b, ks, 6);
    NextRound(v, b, ks, 7);
    Group0(Rounds(v, b, ks[..0]));
  }

  lemma Leaves1()
    ensures BigSigma1(0x0c657a79) == 0x99ad25c0 && Ch(0x0c657a79, 0x9b27a401, 0x714260ad) == 0x79272085
    ensures BigSigma0(0x85a07b5f) == 0xba794dc2 && Maj(0x85a07b5f, 0xe5030380, 0x2b4209f5) == 0xa5020bd5
    ensures BigSigma1(0x32ca2d8c) == 0xe45bb7ea && Ch(0x32ca2d8c, 0x0c657a79, 0x9b27a401) == 0x8965a809
    ensures BigSigma0(0x8e04ecb9) == 0x15ffad31 && Maj(0x8e04ecb9, 0x85a07b5f, 0xe5030380) == 0x85006b99
    ensures BigSigma1(0x1cc92596) == 0x8e2276bc && Ch(0x1cc92596, 0x32ca2d8c, 0x0c657a79) == 0x10ec7fed
    ensures BigSigma0(0x8c87346b) == 0x5cac0711 && Maj(0x8c87346b, 0x8e04ecb9, 0x85a07b5f) == 0x8c847c7b
    ensures BigSigma1(0x436b23e8) == 0x699435ca && Ch(0x436b23e8, 0x1cc92596, 0x32ca2d8c) == 0x30c92d84
    ensures BigSigma0(0x4798a3f4) == 0x6ccbc526 && Maj(0x4798a3f4, 0x8c87346b, 0x8e04ecb9) == 0x8e84a4f9
    ensures BigSigma1(0x816fd6e9) == 0xccdee661 && Ch(0x816fd6e9, 0x436b23e8, 0x1cc92596) == 0x1deb23fe
    ensures BigSigma0(0xf71fc5a9) == 0x2f9eee48 && Maj(0xf71fc5a9, 0x4798a3f4, 0x8c87346b) == 0xc79fa5e9
    ensures BigSigma1(0x1e578218) == 0x08bb98f7 && Ch(0x1e578218, 0x816fd6e9, 0x436b23e8) == 0x416fa3e8
    ensures BigSigma0(0x87912990) == 0x29c634f3 && Maj(0x87912990, 0xf71fc5a9, 0x4798a3f4) == 0xc799a1b0
    ensures BigSigma1(0x745a48de) == 0x4f3b8d50 && Ch(0x745a48de, 0x1e578218, 0x816fd6e9) == 0x95779639
    ensures BigSigma0(0xd932eb16) == 0x25562836 && Maj(0xd932eb16, 0x87912990, 0xf71fc5a9) == 0xd713e990
    ensures BigSigma1(0x0b92f20c) == 0xb8d63f93 && Ch(0x0b92f20c, 0x745a48de, 0x1e578218) == 0x1457401c
    ensures BigSigma0(0xc0645fde) == 0xdf906fd4 && Maj(0xc0645fde, 0xd932eb16, 0x87912990) == 0xc1306b96
  {
  }

  lemma Group1(v: Work)
    requires v == Work(0x85a07b5f, 0xe5030380, 0x2b4209f5, 0x04409a6a, 0x0c657a79, 0x9b27a401, 0x714260ad, 0x43ada245)
    ensures Round(Round(Round(Round(Round(Round(Round(Round(v, 0xd807aa98, 0x00000000), 0x12835b01, 0x00000000),
                          0x243185be, 0x00000000), 0x550c7dc3, 0x00000000), 0x72be5d74, 0x00000000),
                          0x80deb1fe, 0x00000000), 0x9bdc06a7, 0x00000000), 0xc19bf174, 0x00000018)
            == Work(0xb0fa238e, 0xc0645fde, 0xd932eb16, 0x87912990, 0x07590dcd, 0x0b92f20c, 0x745a48de, 0x1e578218)
  {
    hide BigSigma0, BigSigma1, Ch, Maj;
    Leaves1();
  }

  lemma Loads1()
    ensures Load(0xd807aa98) == 0xd807aa98 && Load(0x12835b01) == 0x12835b01
    ensures Load(0x243185be) == 0x243185be && Load(0x550c7dc3) == 0x550c7dc3
    ensures Load(0x72be5d74) == 0x72be5d74 && Load(0x80deb1fe) == 0x80deb1fe
    ensures Load(0x9bdc06a7) == 0x9bdc06a7 && Load(0xc19bf174) == 0xc19bf174
  {
  }

  lemma After1(v: Work, b: seq<Byte>)
    requires b == AbcBlock() && v == Start()
    ensures Rounds(v, b, RoundConstants()[..16])
            == Work(0xb0fa238e, 0xc0645fde, 0xd932eb16, 0x87912990, 0x07590dcd, 0x0b92f20c, 0x745a48de, 0x1e578218)
  {
    hide RoundConstants, Schedule, Round, Rounds, AbcBlock, Load, Start;
    var ks := RoundConstants();
    After0(v, b);
    Loads1();
    Schedule1(b);
    ConstantAt(1, 0);
    ConstantAt(1, 1);
    ConstantAt(1, 2);
    ConstantAt(1, 3);
    ConstantAt(1, 4);
    ConstantAt(1, 5);
    ConstantAt(1, 6);
    ConstantAt(1, 7);
    NextRound(v, b, ks, 8);
    NextRound(v, b, ks, 9);
    NextRound(v, b, ks, 10);
    NextRound(v, b, ks, 11);
    NextRound(v, b, ks, 12);
    NextRound(v, b, ks, 13);
    NextRound(v, b, ks, 14);
    NextRound(v, b, ks, 15);
    Group1(Rounds(v, b, ks[..8]));
  }

  lemma Leaves2()
    ensures BigSigma1(0x07590dcd) == 0x213b6995 && Ch(0x07590dcd, 0x0b92f20c, 0x745a48de) == 0x7312401e
    ensures BigSigma0(0xb0fa238e) == 0x58c535f1 && Maj(0xb0fa238e, 0xc0645fde, 0xd932eb16) == 0xd0726b9e
    ensures BigSigma1(0x8034229c) == 0x3b81984e && Ch(0x8034229c, 0x07590dcd, 0x0b92f20c) == 0x0b92d08c
    ensures BigSigma0(0x21da9a9b) == 0x76c5c4f5 && Maj(0x21da9a9b, 0xb0fa238e, 0xc0645fde) == 0xa0fa1b9e
    ensures BigSigma1(0x846ee454) == 0xeff31c0f && Ch(0x846ee454, 0x8034229c, 0x07590dcd) == 0x8335299d
    ensures BigSigma0(0xc2fbd9d1) == 0x5157a6a1 && Maj(0xc2fbd9d1, 0x21da9a9b, 0xb0fa238e) == 0xa0fa9b9b
    ensures BigSigma1(0xcc899961) == 0xefc707b0 && Ch(0xcc899961, 0x846ee454, 0x8034229c) == 0x843ca2dc
    ensures BigSigma0(0xfe777bbf) == 0xff8cd2ad && Maj(0xfe777bbf, 0xc2fbd9d1, 0x21da9a9b) == 0xe2fbdb9b
    ensures BigSigma1(0xb0638179) == 0xf8373ead && Ch(0xb0638179, 0xcc899961, 0x846ee454) == 0x840de565
    ensures BigSigma0(0xe1f20c33) == 0x51d3431b && Maj(0xe1f20c33, 0xfe777bbf, 0xc2fbd9d1) == 0xe2f359b3
    ensures BigSigma1(0x8ada8930) == 0x897ea930 && Ch(0x8ada8930, 0xb0638179, 0xcc899961) == 0xc4439171
    ensures BigSigma0(0x9dc68b63) == 0xa640c29b && Maj(0x9dc68b63, 0xe1f20c33, 0xfe777bbf) == 0xfdf60b33
    ensures BigSigma1(0xe1257970) == 0x7f24093a && Ch(0xe1257970, 0x8ada8930, 0xb0638179) == 0x90428939
    ensures BigSigma0(0xc2606d6d) == 0x9a43bf51 && Maj(0xc2606d6d, 0x9dc68b63, 0xe1f20c33) == 0xc1e20d63
    ensures BigSigma1(0x49f5114a) == 0xfae64fc3 && Ch(0x49f5114a, 0xe1257970, 0x8ada8930) == 0xc32f9970
    ensures BigSigma0(0xa7a3623f) == 0x759d1b0a && Maj(0xa7a3623f, 0xc2606d6d, 0x9dc68b63) == 0x87e26b6f
  {
  }

  lemma Group2(v: Work)
    requires v == Work(0xb0fa238e, 0xc0645fde, 0xd932eb16, 0x87912990, 0x07590dcd, 0x0b92f20c, 0x745a48de, 0x1e578218)
    ensures Round(Round(Round(Round(Round(Round(Round(Round(v, 0xe49b69c1, 0x61626380), 0xefbe4786, 0x000f0000),
                          0x0fc19dc6, 0x7da86405), 0x240ca1cc, 0x600003c6), 0x2de92c6f, 0x3e9d7b78),
                          0x4a7484aa, 0x0183fc00), 0x5cb0a9dc, 0x12dcbfdb), 0x76f988da, 0xe2e2c38e)
            == Work(0xc5d53d8d, 0xa7a3623f, 0xc2606d6d, 0x9dc68b63, 0xaa47c347, 0x49f5114a, 0xe1257970, 0x8ada8930)
  {
    hide BigSigma0, BigSigma1, Ch, Maj;
    Leaves2();
  }

  lemma Loads2()
    ensures Load(0xe49b69c1) == 0xe49b69c1 && Load(0xefbe4786) == 0xefbe4786
    ensures Load(0x0fc19dc6) == 0x0fc19dc6 && Load(0x240ca1cc) == 0x240ca1cc
    ensures Load(0x2de92c6f) == 0x2de92c6f && Load(0x4a7484aa) == 0x4a7484aa
    ensures Load(0x5cb0a9dc) == 0x5cb0a9dc && Load(0x76f988da) == 0x76f988da
  {
  }

  lemma After2(v: Work, b: seq<Byte>)
    requires b == AbcBlock() && v == Start()
    ensures Rounds(v, b, RoundConstants()[..24])
            == Work(0xc5d53d8d, 0xa7a3623f, 0xc2606d6d, 0x9dc68b63, 0xaa47c347, 0x49f5114a, 0xe1257970, 0x8ada8930)
  {
    hide RoundConstants, Schedule, Round, Rounds, AbcBlock, Load, Start;
    var ks := RoundConstants();
    After1(v, b);
    Loads2();
    Schedule2(b);
    ConstantAt(2, 0);
    ConstantAt(2, 1);
    ConstantAt(2, 2);
    ConstantAt(2, 3);
    ConstantAt(2, 4);
    ConstantAt(2, 5);
    ConstantAt(2, 6);
    ConstantAt(2, 7);
    NextRound(v, b, ks, 16);
    NextRound(v, b, ks, 17);
    NextRound(v, b, ks, 18);
    NextRound(v, b, ks, 19);
    NextRound(v, b, ks, 20);
    NextRound(v, b, ks, 21);
    NextRound(v, b, ks, 22);
    NextRound(v, b, ks, 23);
    Group2(Rounds(v, b, ks[..16]));
  }

  lemma Leaves3()
    ensures BigSigma1(0xaa47c347) == 0x55bdf420 && Ch(0xaa47c347, 0x49f5114a, 0xe1257970) == 0x49653972
    ensures BigSigma0(0xc5d53d8d) == 0xc9ed56dd && Maj(0xc5d53d8d, 0xa7a3623f, 0xc2606d6d) == 0xc7e16d2d
    ensures BigSigma1(0x2823ef91) == 0xa7724357 && Ch(0x2823ef91, 0xaa47c347, 0x49f5114a) == 0x69d7d34b
    ensures BigSigma0(0x1c2c2838) == 0xf66b0b1f && Maj(0x1c2c2838, 0xc5d53d8d, 0xa7a3623f) == 0x85a5283d
    ensures BigSigma1(0x14383d8e) == 0x958ca0fb && Ch(0x14383d8e, 0x2823ef91, 0xaa47c347) == 0xaa67efc1
    ensures BigSigma0(0xcde8037d) == 0xc89998a8 && Maj(0xcde8037d, 0x1c2c2838, 0xc5d53d8d) == 0xcdec293d
    ensures BigSigma1(0xc74c6516) == 0x5ff7537b && Ch(0xc74c6516, 0x14383d8e, 0x2823ef91) == 0x2c2baf87
    ensures BigSigma0(0xb62ec4bc) == 0xb37cf281 && Maj(0xb62ec4bc, 0xcde8037d, 0x1c2c2838) == 0x9c2c003c
    ensures BigSigma1(0xedffbff8) == 0xe375bd7e && Ch(0xedffbff8, 0xc74c6516, 0x14383d8e) == 0xd54c2516
    ensures BigSigma0(0x77d37528) == 0xf963c20e && Maj(0x77d37528, 0xb62ec4bc, 0xcde8037d) == 0xf7ea453c
    ensures BigSigma1(0x6112a3b7) == 0x2239b36a && Ch(0x6112a3b7, 0xedffbff8, 0xc74c6516) == 0xe75ee7b0
    ensures BigSigma0(0x363482c9) == 0x89cfb5ce && Maj(0x363482c9, 0x77d37528, 0xb62ec4bc) == 0x3636c4a8
    ensures BigSigma1(0xade79437) == 0xab883974 && Ch(0xade79437, 0x6112a3b7, 0xedffbff8) == 0x611aabff
    ensures BigSigma0(0xa0060b30) == 0x69a8407c && Maj(0xa0060b30, 0x363482c9, 0x77d37528) == 0x36160328
    ensures BigSigma1(0x0109ab3a) == 0x0b919a99 && Ch(0x0109ab3a, 0xade79437, 0x6112a3b7) == 0x611380b7
    ensures BigSigma0(0xea992a22) == 0x8f1995eb && Maj(0xea992a22, 0xa0060b30, 0x363482c9) == 0xa2140a20
  {
  }

  lemma Group3(v: Work)
    requires v == Work(0xc5d53d8d, 0xa7a3623f, 0xc2606d6d, 0x9dc68b63, 0xaa47c347, 0x49f5114a, 0xe1257970, 0x8ada8930)
    ensures Round(Round(Round(Round(Round(Round(Round(Round(v, 0x983e5152, 0xc8215c1a), 0xa831c66d, 0xb73679a2),
                          0xb00327c8, 0xe5bc3909), 0xbf597fc7, 0x32663c5b), 0xc6e00bf3, 0x9d209d67),
                          0xd5a79147, 0xec8726cb), 0x06ca6351, 0x702138a4), 0x14292967, 0xd3b7973b)
            == Work(0x73b33bf5, 0xea992a22, 0xa0060b30, 0x363482c9, 0xba591112, 0x0109ab3a, 0xade79437, 0x6112a3b7)
  {
    hide BigSigma0, BigSigma1, Ch, Maj;
    Leaves3();
  }

  lemma Loads3()
    ensures Load(0x983e5152) == 0x983e5152 && Load(0xa831c66d) == 0xa831c66d
    ensures Load(0xb00327c8) == 0xb00327c8 && Load(0xbf597fc7) == 0xbf597fc7
    ensures Load(0xc6e00bf3) == 0xc6e00bf3 && Load(0xd5a79147) == 0xd5a79147
    ensures Load(0x06ca6351) == 0x06ca6351 && Load(0x14292967) == 0x14292967
  {
  }

  lemma After3(v: Work, b: seq<Byte>)
    requires b == AbcBlock() && v == Start()
    ensures Rounds(v, b, RoundConstants()[..32])
            == Work(0x73b33bf5, 0xea992a22, 0xa0060b30, 0x363482c9, 0xba591112, 0x0109ab3a, 0xade79437, 0x6112a3b7)
  {
    hide RoundConstants, Schedule, Round, Rounds, AbcBlock, Load, Start;
    var ks := RoundConstants();
    After2(v, b);
    Loads3();
    Schedule3(b);
    ConstantAt(3, 0);
    ConstantAt(3, 1);
    ConstantAt(3, 2);
    ConstantAt(3, 3);
    ConstantAt(3, 4);
    ConstantAt(3, 5);
    ConstantAt(3, 6);
    ConstantAt(3, 7);
    NextRound(v, b, ks, 24);
    NextRound(v, b, ks, 25);
    NextRound(v, b, ks, 26);
    NextRound(v, b, ks, 27);
    NextRound(v, b, ks, 28);
    NextRound(v, b, ks, 29);
    NextRound(v, b, ks, 30);
    NextRound(v, b, ks, 31);
    Group3(Rounds(v, b, ks[..24]));
  }

  lemma Leaves4()
    ensures BigSigma1(0xba591112) == 0x4436a63b && Ch(0xba591112, 0x0109ab3a, 0xade79437) == 0x05af8537
    ensures BigSigma0(0x73b33bf5) == 0x4fa886aa && Maj(0x73b33bf5, 0xea992a22, 0xa0060b30) == 0xe2932b30
    ensures BigSigma1(0x9cd9f5f6) == 0x085a07a7 && Ch(0x9cd9f5f6, 0xba591112, 0x0109ab3a) == 0x99591b1a
    ensures BigSigma0(0x98e12507) == 0x4a90902b && Maj(0x98e12507, 0x73b33bf5, 0xea992a22) == 0xfab12b27
    ensures BigSigma1(0x59249dd3) == 0x65415f48 && Ch(0x59249dd3, 0x9cd9f5f6, 0xba591112) == 0xba5995d2
    ensures BigSigma0(0xfe604df5) == 0x91003786 && Maj(0xfe604df5, 0x98e12507, 0x73b33bf5) == 0xfae12df5
    ensures BigSigma1(0x085f3833) == 0xe5dc6e83 && Ch(0x085f3833, 0x59249dd3, 0x9cd9f5f6) == 0x9c84ddd7
    ensures BigSigma0(0xa9a7738c) == 0x2bc2a37e && Maj(0xa9a7738c, 0xfe604df5, 0x98e12507) == 0xb8e16585
    ensures BigSigma1(0xf4b002d6) == 0x590d3d71 && Ch(0xf4b002d6, 0x085f3833, 0x59249dd3) == 0x09149d13
    ensures BigSigma0(0x65a0cfe4) == 0xe5748f69 && Maj(0x65a0cfe4, 0xa9a7738c, 0xfe604df5) == 0xeda04fe4
    ensures BigSigma1(0x0772a26b) == 0x582c115e && Ch(0x0772a26b, 0xf4b002d6, 0x085f3833) == 0x0c3d1a52
    ensures BigSigma0(0x41a65cb1) == 0x2c915f18 && Maj(0x41a65cb1, 0x65a0cfe4, 0xa9a7738c) == 0x61a65fa4
    ensures BigSigma1(0xa507a53d) == 0xd2f220b2 && Ch(0xa507a53d, 0x0772a26b, 0xf4b002d6) == 0x55b2a2eb
    ensures BigSigma0(0x34df1604) == 0xc14e73aa && Maj(0x34df1604, 0x41a65cb1, 0x65a0cfe4) == 0x65a65ea4
    ensures BigSigma1(0xf0781bc8) == 0x66d20b14 && Ch(0xf0781bc8, 0xa507a53d, 0x0772a26b) == 0xa702a12b
    ensures BigSigma0(0x6dc57a8a) == 0x5ac8193e && Maj(0x6dc57a8a, 0x34df1604, 0x41a65cb1) == 0x65c75e80
  {
  }

  lemma Group4(v: Work)
    requires v == Work(0x73b33bf5, 0xea992a22, 0xa0060b30, 0x363482c9, 0xba591112, 0x0109ab3a, 0xade79437, 0x6112a3b7)
    ensures Round(Round(Round(Round(Round(Round(Round(Round(v, 0x27b70a85, 0x93f5997f), 0x2e1b2138, 0x3b68ba73),
                          0x4d2c6dfc, 0xaff4ffc1), 0x53380d13, 0xf10a5c62), 0x650a7354, 0x0a8b3996),
                          0x766a0abb, 0x72af830a), 0x81c2c92e, 0x9409e33e), 0x92722c85, 0x24641522)
            == Work(0x79ea687a, 0x6dc57a8a, 0x34df1604, 0x41a65cb1, 0x1efbc0a0, 0xf0781bc8, 0xa507a53d, 0x0772a26b)
  {
    hide BigSigma0, BigSigma1, Ch, Maj;
    Leaves4();
  }

  lemma Loads4()
    ensures Load(0x27b70a85) == 0x27b70a85 && Load(0x2e1b2138) == 0x2e1b2138
    ensures Load(0x4d2c6dfc) == 0x4d2c6dfc && Load(0x53380d13) == 0x53380d13
    ensures Load(0x650a7354) == 0x650a7354 && Load(0x766a0abb) == 0x766a0abb
    ensures Load(0x81c2c92e) == 0x81c2c92e && Load(0x92722c85) == 0x92722c85
  {
  }

  lemma After4(v: Work, b: seq<Byte>)
    requires b == AbcBlock() && v == Start()
    ensures Rounds(v, b, RoundConstants()[..40])
            == Work(0x79ea687a, 0x6dc57a8a, 0x34df1604, 0x41a65cb1, 0x1efbc0a0, 0xf0781bc8, 0xa507a53d, 0x0772a26b)
  {
    hide RoundConstants, Schedule, Round, Rounds, AbcBlock, Load, Start;
    var ks := RoundConstants();
    After3(v, b);
    Loads4();
    Schedule4(b);
    ConstantAt(4, 0);
    ConstantAt(4, 1);
    ConstantAt(4, 2);
    ConstantAt(4, 3);
    ConstantAt(4, 4);
    ConstantAt(4, 5);
    ConstantAt(4, 6);
    ConstantAt(4, 7);
    NextRound(v, b, ks, 32);
    NextRound(v, b, ks, 33);
    NextRound(v, b, ks, 34);
    NextRound(v, b, ks, 35);
    NextRound(v, b, ks, 36);
    NextRound(v, b, ks, 37);
    NextRound(v, b, ks, 38);
    NextRound(v, b, ks, 39);
    Group4(Rounds(v, b, ks[..32]));
  }

  lemma Leaves5()
    ensures BigSigma1(0x1efbc0a0) == 0xe9986075 && Ch(0x1efbc0a0, 0xf0781bc8, 0xa507a53d) == 0xb17c259d
    ensures BigSigma0(0x79ea687a) == 0x7408bcaa && Maj(0x79ea687a, 0x6dc57a8a, 0x34df1604) == 0x7dcf7a0a
    ensures BigSigma1(0x26352d63) == 0x3a6aa383 && Ch(0x26352d63, 0x1efbc0a0, 0xf0781bc8) == 0xd67912a8
    ensures BigSigma0(0xd6670766) == 0x12b2e9b8 && Maj(0xd6670766, 0x79ea687a, 0x6dc57a8a) == 0x7de76a6a
    ensures BigSigma1(0x838b2711) == 0x61add539 && Ch(0x838b2711, 0x26352d63, 0x1efbc0a0) == 0x1e71e5a1
    ensures BigSigma0(0xdf46652f) == 0xc73bdc05 && Maj(0xdf46652f, 0xd6670766, 0x79ea687a) == 0xdf66656e
    ensures BigSigma1(0xdecd4715) == 0xd363665b && Ch(0xdecd4715, 0x838b2711, 0x26352d63) == 0xa2b92f73
    ensures BigSigma0(0x17aa0dfe) == 0x422dc671 && Maj(0x17aa0dfe, 0xdf46652f, 0xd6670766) == 0xd766056e
    ensures BigSigma1(0xfda24c2e) == 0xef0f2a07 && Ch(0xfda24c2e, 0xdecd4715, 0x838b2711) == 0xde896715
    ensures BigSigma0(0x9d4baf93) == 0xb5704fcc && Maj(0x9d4baf93, 0x17aa0dfe, 0xdf46652f) == 0x9f4a2dbf
    ensures BigSigma1(0xa80f11f0) == 0xfb3dc5f1 && Ch(0xa80f11f0, 0xfda24c2e, 0xdecd4715) == 0xfec24625
    ensures BigSigma0(0x26628815) == 0x8311c588 && Maj(0x26628815, 0x9d4baf93, 0x17aa0dfe) == 0x176a8d97
    ensures BigSigma1(0xb7755da1) == 0x8845eb06 && Ch(0xb7755da1, 0xa80f11f0, 0xfda24c2e) == 0xe88711ae
    ensures BigSigma0(0x72ab4b91) == 0xad0f0274 && Maj(0x72ab4b91, 0x26628815, 0x9d4baf93) == 0x366b8b91
    ensures BigSigma1(0xd57b94a9) == 0x8fa515ca && Ch(0xd57b94a9, 0xb7755da1, 0xa80f11f0) == 0xbd7515f1
    ensures BigSigma0(0xa14c14b0) == 0xbd84cdc9 && Maj(0xa14c14b0, 0x72ab4b91, 0x26628815) == 0x226a0891
  {
  }

  lemma Group5(v: Work)
    requires v == Work(0x79ea687a, 0x6dc57a8a, 0x34df1604, 0x41a65cb1, 0x1efbc0a0, 0xf0781bc8, 0xa507a53d, 0x0772a26b)
    ensures Round(Round(Round(Round(Round(Round(Round(Round(v, 0xa2bfe8a1, 0x9f47bf94), 0xa81a664b, 0xf0a64f5a),
                          0xc24b8b70, 0x3e246a79), 0xc76c51a3, 0x27333ba3), 0xd192e819, 0x0c4763f2),
                          0xd6990624, 0x840abf27), 0xf40e3585, 0x7a290d5d), 0x106aa070, 0x065c43da)
            == Work(0x4172328d, 0xa14c14b0, 0x72ab4b91, 0x26628815, 0xfecf0bc6, 0xd57b94a9, 0xb7755da1, 0xa80f11f0)
  {
    hide BigSigma0, BigSigma1, Ch, Maj;
    Leaves5();
  }

  lemma Loads5()
    ensures Load(0xa2bfe8a1) == 0xa2bfe8a1 && Load(0xa81a664b) == 0xa81a664b
    ensures Load(0xc24b8b70) == 0xc24b8b70 && Load(0xc76c51a3) == 0xc76c51a3
    ensures Load(0xd192e819) == 0xd192e819 && Load(0xd6990624) == 0xd6990624
    ensures Load(0xf40e3585) == 0xf40e3585 && Load(0x106aa070) == 0x106aa070
  {
  }

  lemma After5(v: Work, b: seq<Byte>)
    requires b == AbcBlock() && v == Start()
    ensures Rounds(v, b, RoundConstants()[..48])
            == Work(0x4172328d, 0xa14c14b0, 0x72ab4b91, 0x26628815, 0xfecf0bc6, 0xd57b94a9, 0xb7755da1, 0xa80f11f0)
  {
    hide RoundConstants, Schedule, Round, Rounds, AbcBlock, Load, Start;
    var ks := RoundConstants();
    After4(v, b);
    Loads5();
    Schedule5(b);
    ConstantAt(5, 0);
    ConstantAt(5, 1);
    ConstantAt(5, 2);
    ConstantAt(5, 3);
    ConstantAt(5, 4);
    ConstantAt(5, 5);
    ConstantAt(5, 6);
    ConstantAt(5, 7);
    NextRound(v, b, ks, 40);
    NextRound(v, b, ks, 41);
    NextRound(v, b, ks, 42);
    NextRound(v, b, ks, 43);
    NextRound(v, b, ks, 44);
    NextRound(v, b, ks, 45);
    NextRound(v, b, ks, 46);
    NextRound(v, b, ks, 47);
    Group5(Rounds(v, b, ks[..40]));
  }

  lemma Leaves6()
    ensures BigSigma1(0xfecf0bc6) == 0x04a106b1 && Ch(0xfecf0bc6, 0xd57b94a9, 0xb7755da1) == 0xd57b54a1
    ensures BigSigma0(0x4172328d) == 0x0cfcb237 && Maj(0x4172328d, 0xa14c14b0, 0x72ab4b91) == 0x616a1291
    ensures BigSigma1(0xbd714038) == 0x5d427776 && Ch(0xbd714038, 0xfecf0bc6, 0xd57b94a9) == 0xfc4b9481
    ensures BigSigma0(0x05757ceb) == 0xf3f6d884 && Maj(0x05757ceb, 0x4172328d, 0xa14c14b0) == 0x017434a9
    ensures BigSigma1(0x6e5c390c) == 0x3e283d54 && Ch(0x6e5c390c, 0xbd714038, 0xfecf0bc6) == 0xbcd302ca
    ensures BigSigma0(0xf11bfaa8) == 0x86ebd5b1 && Maj(0xf11bfaa8, 0x05757ceb, 0x4172328d) == 0x41737aa9
    ensures BigSigma1(0x52f1ccf7) == 0x3b47e2a3 && Ch(0x52f1ccf7, 0x6e5c390c, 0xbd714038) == 0xef50080c
    ensures BigSigma0(0x7a0508a1) == 0x0fa817e8 && Maj(0x7a0508a1, 0xf11bfaa8, 0x05757ceb) == 0x711578a9
    ensures BigSigma1(0x49231c1e) == 0x6b63a737 && Ch(0x49231c1e, 0x52f1ccf7, 0x6e5c390c) == 0x667d2d16
    ensures BigSigma0(0x886e7a22) == 0xcae757da && Maj(0x886e7a22, 0x7a0508a1, 0xf11bfaa8) == 0xf80f7aa0
    ensures BigSigma1(0x529e7d00) == 0xee7eaa12 && Ch(0x529e7d00, 0x49231c1e, 0x52f1ccf7) == 0x40639cf7
    ensures BigSigma0(0x101fd28f) == 0x2f35481d && Maj(0x101fd28f, 0x886e7a22, 0x7a0508a1) == 0x180f5aa3
    ensures BigSigma1(0x9f4787c3) == 0x55cd1720 && Ch(0x9f4787c3, 0x529e7d00, 0x49231c1e) == 0x52261d1c
    ensures BigSigma0(0xf5702fdb) == 0x433ccfa2 && Maj(0xf5702fdb, 0x101fd28f, 0x886e7a22) == 0x907e7a8b
    ensures BigSigma1(0xe50e1b4f) == 0xd1653e5c && Ch(0xe50e1b4f, 0x9f4787c3, 0x529e7d00) == 0x97966743
    ensures BigSigma0(0x3ec45cdb) == 0x381b8def && Maj(0x3ec45cdb, 0xf5702fdb, 0x101fd28f) == 0x34545edb
  {
  }

  lemma Group6(v: Work)
    requires v == Work(0x4172328d, 0xa14c14b0, 0x72ab4b91, 0x26628815, 0xfecf0bc6, 0xd57b94a9, 0xb7755da1, 0xa80f11f0)
    ensures Round(Round(Round(Round(Round(Round(Round(Round(v, 0x19a4c116, 0xfb3e89cb), 0x1e376c08, 0xcc7617db),
                          0x2748774c, 0xb9e66c34), 0x34b0bcb5, 0xa9993667), 0x391c0cb3, 0x84badedd),
                          0x4ed8aa4a, 0xc21462bc), 0x5b9cca4f, 0x1487472c), 0x682e6ff3, 0xb20f7a99)
            == Work(0x38cc9913, 0x3ec45cdb, 0xf5702fdb, 0x101fd28f, 0x54cb266b, 0xe50e1b4f, 0x9f4787c3, 0x529e7d00)
  {
    hide BigSigma0, BigSigma1, Ch, Maj;
    Leaves6();
  }

  lemma Loads6()
    ensures Load(0x19a4c116) == 0x19a4c116 && Load(0x1e376c08) == 0x1e376c08
    ensures Load(0x2748774c) == 0x2748774c && Load(0x34b0bcb5) == 0x34b0bcb5
    ensures Load(0x391c0cb3) == 0x391c0cb3 && Load(0x4ed8aa4a) == 0x4ed8aa4a
    ensures Load(0x5b9cca4f) == 0x5b9cca4f && Load(0x682e6ff3) == 0x682e6ff3
  {
  }

  lemma After6(v: Work, b: seq<Byte>)
    requires b == AbcBlock() && v == Start()
    ensures Rounds(v, b, RoundConstants()[..56])
            == Work(0x38cc9913, 0x3ec45cdb, 0xf5702fdb, 0x101fd28f, 0x54cb266b, 0xe50e1b4f, 0x9f4787c3, 0x529e7d00)
  {
    hide RoundConstants, Schedule, Round, Rounds, AbcBlock, Load, Start;
    var ks := RoundConstants();
    After5(v, b);
    Loads6();
    Schedule6(b);
    ConstantAt(6, 0);
    ConstantAt(6, 1);
    ConstantAt(6, 2);
    ConstantAt(6, 3);
    ConstantAt(6, 4);
    ConstantAt(6, 5);
    ConstantAt(6, 6);
    ConstantAt(6, 7);
    NextRound(v, b, ks, 48);
    NextRound(v, b, ks, 49);
    NextRound(v, b, ks, 50);
    NextRound(v, b, ks, 51);
    NextRound(v, b, ks, 52);
    NextRound(v, b, ks, 53);
    NextRound(v, b, ks, 54);
    NextRound(v, b, ks, 55);
    Group6(Rounds(v, b, ks[..48]));
  }

  lemma Leaves7()
    ensures BigSigma1(0x54cb266b) == 0x05aa8057 && Ch(0x54cb266b, 0xe50e1b4f, 0x9f4787c3) == 0xcf0e83cb
    ensures BigSigma0(0x38cc9913) == 0x34ceacc3 && Maj(0x38cc9913, 0x3ec45cdb, 0xf5702fdb) == 0x3cc41ddb
    ensures BigSigma1(0x9b5e906c) == 0x10b627de && Ch(0x9b5e906c, 0x54cb266b, 0xe50e1b4f) == 0x744a0b6b
    ensures BigSigma0(0xfcd1887b) == 0xfaca6b61 && Maj(0xfcd1887b, 0x38cc9913, 0x3ec45cdb) == 0x3cc4985b
    ensures BigSigma1(0x7e44008e) == 0x0a369fbd && Ch(0x7e44008e, 0x9b5e906c, 0x54cb266b) == 0x1acf266d
    ensures BigSigma0(0xc062d46f) == 0xd837090c && Maj(0xc062d46f, 0xfcd1887b, 0x38cc9913) == 0xf8c0987b
    ensures BigSigma1(0x6d83bfc6) == 0x20a45dbe && Ch(0x6d83bfc6, 0x7e44008e, 0x9b5e906c) == 0xfe5c00ae
    ensures BigSigma0(0xffb70472) == 0x406bf75a && Maj(0xffb70472, 0xc062d46f, 0xfcd1887b) == 0xfcf3847b
    ensures BigSigma1(0xb21bad3d) == 0x5ca8b318 && Ch(0xb21bad3d, 0x6d83bfc6, 0x7e44008e) == 0x6c47ad86
    ensures BigSigma0(0xb6ae8fff) == 0x2869e851 && Maj(0xb6ae8fff, 0xffb70472, 0xc062d46f) == 0xf6a6847f
    ensures BigSigma1(0x961f4894) == 0x4f6ef480 && Ch(0x961f4894, 0xb21bad3d, 0x6d83bfc6) == 0xfb9bbf56
    ensures BigSigma0(0xb85e2ce9) == 0x71e9ef2a && Maj(0xb85e2ce9, 0xb6ae8fff, 0xffb70472) == 0xbebe0cfb
    ensures BigSigma1(0x948d25b6) == 0x2a127e78 && Ch(0x948d25b6, 0x961f4894, 0xb21bad3d) == 0xb61f889d
    ensures BigSigma0(0x04d24d6c) == 0x236105da && Maj(0x04d24d6c, 0xb85e2ce9, 0xb6ae8fff) == 0xb4de0ded
    ensures BigSigma1(0xfb121210) == 0x88fa2277 && Ch(0xfb121210, 0x948d25b6, 0x961f4894) == 0x940d4894
    ensures BigSigma0(0xd39a2165) == 0x174d83c6 && Maj(0xd39a2165, 0x04d24d6c, 0xb85e2ce9) == 0x90da2d6d
  {
  }

  lemma Group7(v: Work)
    requires v == Work(0x38cc9913, 0x3ec45cdb, 0xf5702fdb, 0x101fd28f, 0x54cb266b, 0xe50e1b4f, 0x9f4787c3, 0x529e7d00)
    ensures Round(Round(Round(Round(Round(Round(Round(Round(v, 0x748f82ee, 0xef57b9cd), 0x78a5636f, 0xebe6b238),
                          0x84c87814, 0x9fe3095e), 0x8cc70208, 0x78bc8d4b), 0x90befffa, 0xa43fcf15),
                          0xa4506ceb, 0x668b2ff8), 0xbef9a3f7, 0xeeaba2cc), 0xc67178f2, 0x12b1edeb)
            == Work(0x506e3058, 0xd39a2165, 0x04d24d6c, 0xb85e2ce9, 0x5ef50f24, 0xfb121210, 0x948d25b6, 0x961f4894)
  {
    hide BigSigma0, BigSigma1, Ch, Maj;
    Leaves7();
  }

  lemma Loads7()
    ensures Load(0x748f82ee) == 0x748f82ee && Load(0x78a5636f) == 0x78a5636f
    ensures Load(0x84c87814) == 0x84c87814 && Load(0x8cc70208) == 0x8cc70208
    ensures Load(0x90befffa) == 0x90befffa && Load(0xa4506ceb) == 0xa4506ceb
    ensures Load(0xbef9a3f7) == 0xbef9a3f7 && Load(0xc67178f2) == 0xc67178f2
  {
  }

  lemma After7(v: Work, b: seq<Byte>)
    requires b == AbcBlock() && v == Start()
    ensures Rounds(v, b, RoundConstants()[..64])
            == Work(0x506e3058, 0xd39a2165, 0x04d24d6c, 0xb85e2ce9, 0x5ef50f24, 0xfb121210, 0x948d25b6, 0x961f4894)
  {
    hide RoundConstants, Schedule, Round, Rounds, AbcBlock, Load, Start;
    var ks := RoundConstants();
    After6(v, b);
    Loads7();
    Schedule7(b);
    ConstantAt(7, 0);
    ConstantAt(7, 1);
    ConstantAt(7, 2);
    ConstantAt(7, 3);
    ConstantAt(7, 4);
    ConstantAt(7, 5);
    ConstantAt(7, 6);
    ConstantAt(7, 7);
    NextRound(v, b, ks, 56);
    NextRound(v, b, ks, 57);
    NextRound(v, b, ks, 58);
    NextRound(v, b, ks, 59);
    NextRound(v, b, ks, 60);
    NextRound(v, b, ks, 61);
    NextRound(v, b, ks, 62);
    NextRound(v, b, ks, 63);
    Group7(Rounds(v, b, ks[..56]));
  }

  // ---------------------------------------------------------------- the digest

  lemma FinalSums()
    ensures Add(0x6a09e667, 0x506e3058) == 0xba7816bf
    ensures Add(0xbb67ae85, 0xd39a2165) == 0x8f01cfea
    ensures Add(0x3c6ef372, 0x04d24d6c) == 0x414140de
    ensures Add(0xa54ff53a, 0xb85e2ce9) == 0x5dae2223
    ensures Add(0x510e527f, 0x5ef50f24) == 0xb00361a3
    ensures Add(0x9b05688c, 0xfb121210) == 0x96177a9c
    ensures Add(0x1f83d9ab, 0x948d25b6) == 0xb410ff61
    ensures Add(0x5be0cd19, 0x961f4894) == 0xf20015ad
  {
  }

  lemma StartLoads()
    ensures Load(0x6a09e667) == 0x6a09e667
    ensures Load(0xbb67ae85) == 0xbb67ae85
    ensures Load(0x3c6ef372) == 0x3c6ef372
    ensures Load(0xa54ff53a) == 0xa54ff53a
    ensures Load(0x510e527f) == 0x510e527f
    ensures Load(0x9b05688c) == 0x9b05688c
    ensures Load(0x1f83d9ab) == 0x1f83d9ab
    ensures Load(0x5be0cd19) == 0x5be0cd19
  {
  }

  lemma StartWords()
    ensures InitialHash()
            == [0x6a09e667, 0xbb67ae85, 0x3c6ef372, 0xa54ff53a, 0x510e527f, 0x9b05688c, 0x1f83d9ab, 0x5be0cd19]
  {
    hide Load;
    StartLoads();
  }

  lemma AbcCompressed()
    ensures Compress(InitialHash(), AbcBlock())
            == [0xba7816bf, 0x8f01cfea, 0x414140de, 0x5dae2223, 0xb00361a3, 0x96177a9c, 0xb410ff61, 0xf20015ad]
  {
    hide RoundConstants, Rounds, AbcBlock, InitialHash, Add;
    StartWords();
    FinalSums();
    var v := ToWork(InitialHash());
    After7(v, AbcBlock());
    assert RoundConstants()[..64] == RoundConstants();
  }

  lemma DigestBytes()
    ensures WordBytes(0xba7816bf) == [0xba, 0x78, 0x16, 0xbf]
    ensures WordBytes(0x8f01cfea) == [0x8f, 0x01, 0xcf, 0xea]
    ensures WordBytes(0x414140de) == [0x41, 0x41, 0x40, 0xde]
    ensures WordBytes(0x5dae2223) == [0x5d, 0xae, 0x22, 0x23]
    ensures WordBytes(0xb00361a3) == [0xb0, 0x03, 0x61, 0xa3]
    ensures WordBytes(0x96177a9c) == [0x96, 0x17, 0x7a, 0x9c]
    ensures WordBytes(0xb410ff61) == [0xb4, 0x10, 0xff, 0x61]
    ensures WordBytes(0xf20015ad) == [0xf2, 0x00, 0x15, 0xad]
  {
  }

  lemma NoBytes()
    ensures WordsBytes([]) == []
  {
  }

  lemma WordsSnoc(ws: seq<Word>, i: nat)
    requires i < |ws|
    ensures WordsBytes(ws[..i + 1]) == WordsBytes(ws[..i]) + WordBytes(ws[i])
  {
    hide WordBytes;
    assert ws[..i + 1][..i] == ws[..i];
  }

  lemma FirstFour(ws: seq<Word>)
    requires |ws| >= 4
    ensures WordsBytes(ws[..4]) == WordBytes(ws[0]) + WordBytes(ws[1]) + WordBytes(ws[2]) + WordBytes(ws[3])
  {
    hide WordBytes, WordsBytes;
    assert ws[..0] == [];
    NoBytes();
    WordsSnoc(ws, 0);
    WordsSnoc(ws, 1);
    WordsSnoc(ws, 2);
    WordsSnoc(ws, 3);
    assert [] + WordBytes(ws[0]) == WordBytes(ws[0]);
  }

  lemma LastFour(ws: seq<Word>)
    requires |ws| == 8
    ensures WordsBytes(ws)
            == WordsBytes(ws[..4]) + WordBytes(ws[4]) + WordBytes(ws[5]) + WordBytes(ws[6]) + WordBytes(ws[7])
  {
    hide WordBytes, WordsBytes;
    assert ws[..8] == ws;
    WordsSnoc(ws, 4);
    WordsSnoc(ws, 5);
    WordsSnoc(ws, 6);
    WordsSnoc(ws, 7);
  }

  lemma OneBlock(b: seq<Byte>)
    requires |b| == BLOCK
    ensures WholeBlocks(b) && HashBlocks(b) == Compress(InitialHash(), b)
  {
    hide Compress, InitialHash;
    assert b[..0] == [] && b[0..] == b;
  }

  /** SHA-256 of "abc". */
  lemma AbcDigest()
    ensures Sha256(ABC) == [0xba, 0x78, 0x16, 0xbf, 0x8f, 0x01, 0xcf, 0xea,
                            0x41, 0x41, 0x40, 0xde, 0x5d, 0xae, 0x22, 0x23,
                            0xb0, 0x03, 0x61, 0xa3, 0x96, 0x17, 0x7a, 0x9c,
                            0xb4, 0x10, 0xff, 0x61, 0xf2, 0x00, 0x15, 0xad]
  {
    hide Compress, InitialHash, HashBlocks, WordBytes, WordsBytes, AbcBlock, Pad;
    AbcPadded();
    OneBlock(AbcBlock());
    AbcCompressed();
    FirstFour(Compress(InitialHash(), AbcBlock()));
    LastFour(Compress(InitialHash(), AbcBlock()));
    DigestBytes();
  }
}
