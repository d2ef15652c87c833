/** The known answer of FIPS 180-4 for the message "abc", round by round. */
module Sha256Example {
  import opened Bytes
  import opened Sha256Spec
  import opened Sha256

  const ABC: seq<byte> := [97, 98, 99]

  /** The message schedule. */
  function W(t: nat): word
    requires t < 64
  {
    match t
    case 0 => 0x61626380 case 1 => 0x00000000 case 2 => 0x00000000 case 3 => 0x00000000 case 4 => 0x00000000
    case 5 => 0x00000000 case 6 => 0x00000000 case 7 => 0x00000000 case 8 => 0x00000000 case 9 => 0x00000000
    case 10 => 0x00000000 case 11 => 0x00000000 case 12 => 0x00000000 case 13 => 0x00000000 case 14 => 0x00000000
    case 15 => 0x00000018 case 16 => 0x61626380 case 17 => 0x000f0000 case 18 => 0x7da86405 case 19 => 0x600003c6
    case 20 => 0x3e9d7b78 case 21 => 0x0183fc00 case 22 => 0x12dcbfdb case 23 => 0xe2e2c38e case 24 => 0xc8215c1a
    case 25 => 0xb73679a2 case 26 => 0xe5bc3909 case 27 => 0x32663c5b case 28 => 0x9d209d67 case 29 => 0xec8726cb
    case 30 => 0x702138a4 case 31 => 0xd3b7973b case 32 => 0x93f5997f case 33 => 0x3b68ba73 case 34 => 0xaff4ffc1
    case 35 => 0xf10a5c62 case 36 => 0x0a8b3996 case 37 => 0x72af830a case 38 => 0x9409e33e case 39 => 0x24641522
    case 40 => 0x9f47bf94 case 41 => 0xf0a64f5a case 42 => 0x3e246a79 case 43 => 0x27333ba3 case 44 => 0x0c4763f2
    case 45 => 0x840abf27 case 46 => 0x7a290d5d case 47 => 0x065c43da case 48 => 0xfb3e89cb case 49 => 0xcc7617db
    case 50 => 0xb9e66c34 case 51 => 0xa9993667 case 52 => 0x84badedd case 53 => 0xc21462bc case 54 => 0x1487472c
    case 55 => 0xb20f7a99 case 56 => 0xef57b9cd case 57 => 0xebe6b238 case 58 => 0x9fe3095e case 59 => 0x78bc8d4b
    case 60 => 0xa43fcf15 case 61 => 0x668b2ff8 case 62 => 0xeeaba2cc case _ => 0x12b1edeb
  }

  /** The working variables a and e: four initial values, then one for each round. */
  function A(t: nat): word
    requires t < 68
  {
    match t
    case 0 => 0xa54ff53a case 1 => 0x3c6ef372 case 2 => 0xbb67ae85 case 3 => 0x6a09e667 case 4 => 0x5d6aebcd
    case 5 => 0x5a6ad9ad case 6 => 0xc8c347a7 case 7 => 0xd550f666 case 8 => 0x04409a6a case 9 => 0x2b4209f5
    case 10 => 0xe5030380 case 11 => 0x85a07b5f case 12 => 0x8e04ecb9 case 13 => 0x8c87346b case 14 => 0x4798a3f4
    case 15 => 0xf71fc5a9 case 16 => 0x87912990 case 17 => 0xd932eb16 case 18 => 0xc0645fde case 19 => 0xb0fa238e
    case 20 => 0x21da9a9b case 21 => 0xc2fbd9d1 case 22 => 0xfe777bbf case 23 => 0xe1f20c33 case 24 => 0x9dc68b63
    case 25 => 0xc2606d6d case 26 => 0xa7a3623f case 27 => 0xc5d53d8d case 28 => 0x1c2c2838 case 29 => 0xcde8037d
    case 30 => 0xb62ec4bc case 31 => 0x77d37528 case 32 => 0x363482c9 case 33 => 0xa0060b30 case 34 => 0xea992a22
    case 35 => 0x73b33bf5 case 36 => 0x98e12507 case 37 => 0xfe604df5 case 38 => 0xa9a7738c case 39 => 0x65a0cfe4
    case 40 => 0x41a65cb1 case 41 => 0x34df1604 case 42 => 0x6dc57a8a case 43 => 0x79ea687a case 44 => 0xd6670766
    case 45 => 0xdf46652f case 46 => 0x17aa0dfe case 47 => 0x9d4baf93 case 48 => 0x26628815 case 49 => 0x72ab4b91
    case 50 => 0xa14c14b0 case 51 => 0x4172328d case 52 => 0x05757ceb case 53 => 0xf11bfaa8 case 54 => 0x7a0508a1
    case 55 => 0x886e7a22 case 56 => 0x101fd28f case 57 => 0xf5702fdb case 58 => 0x3ec45cdb case 59 => 0x38cc9913
    case 60 => 0xfcd1887b case 61 => 0xc062d46f case 62 => 0xffb70472 case 63 => 0xb6ae8fff case 64 => 0xb85e2ce9
    case 65 => 0x04d24d6c case 66 => 0xd39a2165 case _ => 0x506e3058
  }

  function E(t: nat): word
    requires t < 68
  {
    match t
    case 0 => 0x5be0cd19 case 1 => 0x1f83d9ab case 2 => 0x9b05688c case 3 => 0x510e527f case 4 => 0xfa2a4622
    case 5 => 0x78ce7989 case 6 => 0xf92939eb case 7 => 0x24e00850 case 8 => 0x43ada245 case 9 => 0x714260ad
    case 10 => 0x9b27a401 case 11 => 0x0c657a79 case 12 => 0x32ca2d8c case 13 => 0x1cc92596 case 14 => 0x436b23e8
    case 15 => 0x816fd6e9 case 16 => 0x1e578218 case 17 => 0x745a48de case 18 => 0x0b92f20c case 19 => 0x07590dcd
    case 20 => 0x8034229c case 21 => 0x846ee454 case 22 => 0xcc899961 case 23 => 0xb0638179 case 24 => 0x8ada8930
    case 25 => 0xe1257970 case 26 => 0x49f5114a case 27 => 0xaa47c347 case 28 => 0x2823ef91 case 29 => 0x14383d8e
    case 30 => 0xc74c6516 case 31 => 0xedffbff8 case 32 => 0x6112a3b7 case 33 => 0xade79437 case 34 => 0x0109ab3a
    case 35 => 0xba591112 case 36 => 0x9cd9f5f6 case 37 => 0x59249dd3 case 38 => 0x085f3833 case 39 => 0xf4b002d6
    case 40 => 0x0772a26b case 41 => 0xa507a53d case 42 => 0xf0781bc8 case 43 => 0x1efbc0a0 case 44 => 0x26352d63
    case 45 => 0x838b2711 case 46 => 0xdecd4715 case 47 => 0xfda24c2e case 48 => 0xa80f11f0 case 49 => 0xb7755da1
    case 50 => 0xd57b94a9 case 51 => 0xfecf0bc6 case 52 => 0xbd714038 case 53 => 0x6e5c390c case 54 => 0x52f1ccf7
    case 55 => 0x49231c1e case 56 => 0x529e7d00 case 57 => 0x9f4787c3 case 58 => 0xe50e1b4f case 59 => 0x54cb266b
    case 60 => 0x9b5e906c case 61 => 0x7e44008e case 62 => 0x6d83bfc6 case 63 => 0xb21bad3d case 64 => 0x961f4894
    case 65 => 0x948d25b6 case 66 => 0xfb121210 case _ => 0x5ef50f24
  }

  /** The working variables after t rounds. */
  function At(t: nat): Regs
    requires t <= 64
  {
    Regs(A(t + 3), A(t + 2), A(t + 1), A(t), E(t + 3), E(t + 2), E(t + 1), E(t))
  }

  /** The next round, and from 16 on the word it takes in. */
  predicate Right(t: nat)
    requires t < 64
  {
    Round(At(t), K(t), W(t)) == At(t + 1) && (t >= 16 ==> W(t) == Mix(W(t - 2), W(t - 7), W(t - 15), W(t - 16)))
  }

  lemma Right0()
    ensures Right(0)
  {
    assert K(0) == 0x428a2f98 && W(0) == 0x61626380;
  }

  lemma Right1()
    ensures Right(1)
  {
    assert K(1) == 0x71374491 && W(1) == 0x00000000;
  }

  lemma Right2()
    ensures Right(2)
  {
    assert K(2) == 0xb5c0fbcf && W(2) == 0x00000000;
  }

  lemma Right3()
    ensures Right(3)
  {
    assert K(3) == 0xe9b5dba5 && W(3) == 0x00000000;
  }

  lemma Right4()
    ensures Right(4)
  {
    assert K(4) == 0x3956c25b && W(4) == 0x00000000;
  }

  lemma Right5()
    ensures Right(5)
  {
    assert K(5) == 0x59f111f1 && W(5) == 0x00000000;
  }

  lemma Right6()
    ensures Right(6)
  {
    assert K(6) == 0x923f82a4 && W(6) == 0x00000000;
  }

  lemma KnownAt7()
    ensures At(7) == Regs(0xe5030380, 0x2b4209f5, 0x04409a6a, 0xd550f666,
                          0x9b27a401, 0x714260ad, 0x43ada245, 0x24e00850)
    ensures At(8) == Regs(0x85a07b5f, 0xe5030380, 0x2b4209f5, 0x04409a6a,
                          0x0c657a79, 0x9b27a401, 0x714260ad, 0x43ada245)
  {
  }

  lemma Right7()
    ensures Right(7)
  {
    KnownAt7();
    hide A, E, At;
    assert K(7) == 0xab1c5ed5;
  }

  lemma Right8()
    ensures Right(8)
  {
    assert K(8) == 0xd807aa98 && W(8) == 0x00000000;
  }

  lemma Right9()
    ensures Right(9)
  {
    assert K(9) == 0x12835b01 && W(9) == 0x00000000;
  }

  lemma Right10()
    ensures Right(10)
  {
    assert K(10) == 0x243185be && W(10) == 0x00000000;
  }

  lemma Right11()
    ensures Right(11)
  {
    assert K(11) == 0x550c7dc3 && W(11) == 0x00000000;
  }

  lemma Right12()
    ensures Right(12)
  {
    assert K(12) == 0x72be5d74 && W(12) == 0x00000000;
  }

  lemma Right13()
    ensures Right(13)
  {
    assert K(13) == 0x80deb1fe && W(13) == 0x00000000;
  }

  lemma Right14()
    ensures Right(14)
  {
    assert K(14) == 0x9bdc06a7 && W(14) == 0x00000000;
  }

  lemma Right15()
    ensures Right(15)
  {
    assert K(15) == 0xc19bf174 && W(15) == 0x00000018;
  }

  lemma Right16()
    ensures Right(16)
  {
    assert K(16) == 0xe49b69c1 && W(16) == 0x61626380;
  }

  lemma Right17()
    ensures Right(17)
  {
    assert K(17) == 0xefbe4786 && W(17) == 0x000f0000;
  }

  lemma Right18()
    ensures Right(18)
  {
    assert K(18) == 0x0fc19dc6 && W(18) == 0x7da86405;
  }

  lemma Right19()
    ensures Right(19)
  {
    assert K(19) == 0x240ca1cc && W(19) == 0x600003c6;
  }

  lemma Right20()
    ensures Right(20)
  {
    assert K(20) == 0x2de92c6f && W(20) == 0x3e9d7b78;
  }

  lemma Right21()
    ensures Right(21)
  {
    assert K(21) == 0x4a7484aa && W(21) == 0x0183fc00;
  }

  lemma Right22()
    ensures Right(22)
  {
    assert K(22) == 0x5cb0a9dc && W(22) == 0x12dcbfdb;
  }

  lemma Right23()
    ensures Right(23)
  {
    assert K(23) == 0x76f988da && W(23) == 0xe2e2c38e;
  }

  lemma Right24()
    ensures Right(24)
  {
    assert K(24) == 0x983e5152 && W(24) == 0xc8215c1a;
  }

  lemma Right25()
    ensures Right(25)
  {
    assert K(25) == 0xa831c66d && W(25) == 0xb73679a2;
  }

  lemma Right26()
    ensures Right(26)
  {
    assert K(26) == 0xb00327c8 && W(26) == 0xe5bc3909;
  }

  lemma Right27()
    ensures Right(27)
  {
    assert K(27) == 0xbf597fc7 && W(27) == 0x32663c5b;
  }

  lemma Right28()
    ensures Right(28)
  {
    assert K(28) == 0xc6e00bf3 && W(28) == 0x9d209d67;
  }

  lemma Right29()
    ensures Right(29)
  {
    assert K(29) == 0xd5a79147 && W(29) == 0xec8726cb;
  }

  lemma Right30()
    ensures Right(30)
  {
    assert K(30) == 0x06ca6351 && W(30) == 0x702138a4;
  }

  lemma Right31()
    ensures Right(31)
  {
    assert K(31) == 0x14292967 && W(31) == 0xd3b7973b;
  }

  lemma Right32()
    ensures Right(32)
  {
    assert K(32) == 0x27b70a85 && W(32) == 0x93f5997f;
  }

  lemma Right33()
    ensures Right(33)
  {
    assert K(33) == 0x2e1b2138 && W(33) == 0x3b68ba73;
  }

  lemma Right34()
    ensures Right(34)
  {
    assert K(34) == 0x4d2c6dfc && W(34) == 0xaff4ffc1;
  }

  lemma Right35()
    ensures Right(35)
  {
    assert K(35) == 0x53380d13 && W(35) == 0xf10a5c62;
  }

  lemma Right36()
    ensures Right(36)
  {
    assert K(36) == 0x650a7354 && W(36) == 0x0a8b3996;
  }

  lemma Right37()
    ensures Right(37)
  {
    assert K(37) == 0x766a0abb && W(37) == 0x72af830a;
  }

  lemma Right38()
    ensures Right(38)
  {
    assert K(38) == 0x81c2c92e && W(38) == 0x9409e33e;
  }

  lemma Right39()
    ensures Right(39)
  {
    assert K(39) == 0x92722c85 && W(39) == 0x24641522;
  }

  lemma Right40()
    ensures Right(40)
  {
    assert K(40) == 0xa2bfe8a1 && W(40) == 0x9f47bf94;
  }

  lemma Right41()
    ensures Right(41)
  {
    assert K(41) == 0xa81a664b && W(41) == 0xf0a64f5a;
  }

  lemma Right42()
    ensures Right(42)
  {
    assert K(42) == 0xc24b8b70 && W(42) == 0x3e246a79;
  }

  lemma Right43()
    ensures Right(43)
  {
    assert K(43) == 0xc76c51a3 && W(43) == 0x27333ba3;
  }

  lemma Right44()
    ensures Right(44)
  {
    assert K(44) == 0xd192e819 && W(44) == 0x0c4763f2;
  }

  lemma Right45()
    ensures Right(45)
  {
    assert K(45) == 0xd6990624 && W(45) == 0x840abf27;
  }

  lemma Right46()
    ensures Right(46)
  {
    assert K(46) == 0xf40e3585 && W(46) == 0x7a290d5d;
  }

  lemma Right47()
    ensures Right(47)
  {
    assert K(47) == 0x106aa070 && W(47) == 0x065c43da;
  }

  lemma Right48()
    ensures Right(48)
  {
    assert K(48) == 0x19a4c116 && W(48) == 0xfb3e89cb;
  }

  lemma Right49()
    ensures Right(49)
  {
    assert K(49) == 0x1e376c08 && W(49) == 0xcc7617db;
  }

  lemma Right50()
    ensures Right(50)
  {
    assert K(50) == 0x2748774c && W(50) == 0xb9e66c34;
  }

  lemma Right51()
    ensures Right(51)
  {
    assert K(51) == 0x34b0bcb5 && W(51) == 0xa9993667;
  }

  lemma Right52()
    ensures Right(52)
  {
    assert K(52) == 0x391c0cb3 && W(52) == 0x84badedd;
  }

  lemma Right53()
    ensures Right(53)
  {
    assert K(53) == 0x4ed8aa4a && W(53) == 0xc21462bc;
  }

  lemma Right54()
    ensures Right(54)
  {
    assert K(54) == 0x5b9cca4f && W(54) == 0x1487472c;
  }

  lemma Right55()
    ensures Right(55)
  {
    assert K(55) == 0x682e6ff3 && W(55) == 0xb20f7a99;
  }

  lemma Right56()
    ensures Right(56)
  {
    assert K(56) == 0x748f82ee && W(56) == 0xef57b9cd;
  }

  lemma Right57()
    ensures Right(57)
  {
    assert K(57) == 0x78a5636f && W(57) == 0xebe6b238;
  }

  lemma Right58()
    ensures Right(58)
  {
    assert K(58) == 0x84c87814 && W(58) == 0x9fe3095e;
  }

  lemma Right59()
    ensures Right(59)
  {
    assert K(59) == 0x8cc70208 && W(59) == 0x78bc8d4b;
  }

  lemma Right60()
    ensures Right(60)
  {
    assert K(60) == 0x90befffa && W(60) == 0xa43fcf15;
  }

  lemma Right61()
    ensures Right(61)
  {
    assert K(61) == 0xa4506ceb && W(61) == 0x668b2ff8;
  }

  lemma Right62()
    ensures Right(62)
  {
    assert K(62) == 0xbef9a3f7 && W(62) == 0xeeaba2cc;
  }

  lemma Right63()
    ensures Right(63)
  {
    assert K(63) == 0xc67178f2 && W(63) == 0x12b1edeb;
  }

  lemma AllRight(t: nat)
    requires t < 64
    ensures Right(t)
  {
    hide Right;
    match t {
      case 0 => Right0(); case 1 => Right1(); case 2 => Right2(); case 3 => Right3(); case 4 => Right4();
      case 5 => Right5(); case 6 => Right6(); case 7 => Right7(); case 8 => Right8(); case 9 => Right9();
      case 10 => Right10(); case 11 => Right11(); case 12 => Right12(); case 13 => Right13(); case 14 => Right14();
      case 15 => Right15(); case 16 => Right16(); case 17 => Right17(); case 18 => Right18(); case 19 => Right19();
      case 20 => Right20(); case 21 => Right21(); case 22 => Right22(); case 23 => Right23(); case 24 => Right24();
      case 25 => Right25(); case 26 => Right26(); case 27 => Right27(); case 28 => Right28(); case 29 => Right29();
      case 30 => Right30(); case 31 => Right31(); case 32 => Right32(); case 33 => Right33(); case 34 => Right34();
      case 35 => Right35(); case 36 => Right36(); case 37 => Right37(); case 38 => Right38(); case 39 => Right39();
      case 40 => Right40(); case 41 => Right41(); case 42 => Right42(); case 43 => Right43(); case 44 => Right44();
      case 45 => Right45(); case 46 => Right46(); case 47 => Right47(); case 48 => Right48(); case 49 => Right49();
      case 50 => Right50(); case 51 => Right51(); case 52 => Right52(); case 53 => Right53(); case 54 => Right54();
      case 55 => Right55(); case 56 => Right56(); case 57 => Right57(); case 58 => Right58(); case 59 => Right59();
      case 60 => Right60(); case 61 => Right61(); case 62 => Right62(); case _ => Right63();
    }
  }

  // ----- the padded message -----

  const BLOCK: block := ABC + [0x80] + ZeroBytes(52) + [0, 0, 0, 0, 0, 0, 0, 24]

  lemma PaddedABC()
    ensures Padded(ABC) == BLOCK
  {
    assert Zeros(3) == 52;
    assert ToBE(24, 1) == [24];
    assert ToBE(24, 8) == [0, 0, 0, 0, 0, 0, 0, 24];
  }

  /** Four bytes are the word whose number they give. */
  lemma WordOf(s: seq<byte>, w: word)
    requires |s| == 4 && FromBE(s) == w as nat
    ensures FourBytes(s) == w
  {
    BackAgain(FromBE(s), w);
    hide FromBE;
  }

  lemma BackAgain(v: nat, w: word)
    requires v < TWO_32 && w as nat == v
    ensures v as word == w
  {
  }

  lemma FirstWord()
    ensures FourBytes([97, 98, 99, 128]) == 0x61626380
  {
    FirstNumber();
    WordOf([97, 98, 99, 128], 0x61626380);
    hide FromBE, FourBytes;
  }

  lemma FirstNumber()
    ensures FromBE([97, 98, 99, 128]) == 0x61626380
  {
    assert [97, 98, 99, 128][..3] == [97, 98, 99] && [97, 98, 99][..2] == [97, 98];
    assert [97, 98][..1] == [97] && [97][..0] == [];
  }

  lemma LastWord()
    ensures FourBytes([0, 0, 0, 24]) == 24 && FourBytes([0, 0, 0, 0]) == 0
  {
    LastNumber();
    WordOf([0, 0, 0, 24], 24);
    WordOf([0, 0, 0, 0], 0);
    hide FromBE, FourBytes;
  }

  lemma LastNumber()
    ensures FromBE([0, 0, 0, 24]) == 24 && FromBE([0, 0, 0, 0]) == 0
  {
    assert [0, 0, 0, 24][..3] == [0, 0, 0] && [0, 0, 0, 0][..3] == [0, 0, 0] && [0, 0, 0][..2] == [0, 0];
    assert [0, 0][..1] == [0] && [0][..0] == [];
  }

  lemma NoughtWords(t: nat)
    requires 0 < t < 15
    ensures W(t) == 0
  {
    match t {
      case 1 => case 2 => case 3 => case 4 => case 5 => case 6 => case 7 => case 8 => case 9 => case 10 => case 11 =>
      case 12 => case 13 => case _ =>
    }
  }

  lemma FirstWords(t: nat)
    requires t < 16
    ensures W(t) == WordAt(BLOCK, t)
  {
    hide FourBytes, FromBE, W;
    var s := BLOCK[4 * t..4 * t + 4];
    EndWords();
    FirstWord();
    LastWord();
    if t == 0 {
      assert s == [97, 98, 99, 128];
    } else if t == 15 {
      assert s == [0, 0, 0, 24];
    } else {
      NoughtWords(t);
      assert s == [0, 0, 0, 0];
    }
  }

  lemma EndWords()
    ensures W(0) == 0x61626380 && W(15) == 24
  {
  }

  lemma ScheduleIs(t: nat)
    requires t < 64
    ensures Schedule(BLOCK, t) == W(t)
  {
    hide W, Mix, WordAt, Round, At;
    if t < 16 {
      FirstWords(t);
    } else {
      AllRight(t);
      ScheduleIs(t - 2);
      ScheduleIs(t - 7);
      ScheduleIs(t - 15);
      ScheduleIs(t - 16);
    }
  }

  lemma {:induction false} RoundsAre(t: nat)
    requires t <= 64
    ensures Rounds(H0, BLOCK, t) == At(t)
  {
    if t == 0 {
      StartsThere();
    } else {
      hide W, At, Schedule, Round, K, Mix;
      RoundsAre(t - 1);
      ScheduleIs(t - 1);
      AllRight(t - 1);
    }
  }

  lemma StartsThere()
    ensures H0 == At(0)
  {
  }

  // ----- the digest -----

  const RESULT: Regs := Regs(0xba7816bf, 0x8f01cfea, 0x414140de, 0x5dae2223,
                             0xb00361a3, 0x96177a9c, 0xb410ff61, 0xf20015ad)

  const LAST: Regs := Regs(0x506e3058, 0xd39a2165, 0x04d24d6c, 0xb85e2ce9,
                           0x5ef50f24, 0xfb121210, 0x948d25b6, 0x961f4894)

  lemma EndsWithA()
    ensures A(67) == LAST.a && A(66) == LAST.b && A(65) == LAST.c && A(64) == LAST.d
  {
  }

  lemma EndsWithE()
    ensures E(67) == LAST.e && E(66) == LAST.f && E(65) == LAST.g && E(64) == LAST.h
  {
  }

  lemma EndsThere()
    ensures At(64) == LAST
  {
    hide A, E;
    EndsWithA();
    EndsWithE();
  }

  lemma Added()
    ensures Add(0x6a09e667, 0x506e3058) == 0xba7816bf
    ensures Add(0xbb67ae85, 0xd39a2165) == 0x8f01cfea
    ensures Add(0x3c6ef372, 0x04d24d6c) == 0x414140de
    ensures Add(0xa54ff53a, 0xb85e2ce9) == 0x5dae2223
    ensures Add(0x510e527f, 0x5ef50f24) == 0xb00361a3
    ensures Add(0x9b05688c, 0xfb121210) == 0x96177a9c
    ensures Add(0x1f83d9ab, 0x948d25b6) == 0xb410ff61
    ensures Add(0x5be0cd19, 0x961f4894) == 0xf20015ad
  {
  }

  lemma ResultIs()
    ensures Sums(H0, At(64)) == RESULT
  {
    hide Add, At;
    EndsThere();
    Added();
  }

  /** The standard's known answer. */
  lemma DigestOfABC()
    ensures Digest(ABC) == [
              0xba, 0x78, 0x16, 0xbf, 0x8f, 0x01, 0xcf, 0xea,
              0x41, 0x41, 0x40, 0xde, 0x5d, 0xae, 0x22, 0x23,
              0xb0, 0x03, 0x61, 0xa3, 0x96, 0x17, 0x7a, 0x9c,
              0xb4, 0x10, 0xff, 0x61, 0xf2, 0x00, 0x15, 0xad]
  {
    hide Rounds, Sums, At, Stored, H0;
    PaddedABC();
    RoundsAre(64);
    ResultIs();
    FoldOne();
    OutputIs();
  }

  lemma FoldOne()
    ensures Fold(H0, BLOCK, 1) == Compress(H0, BLOCK)
  {
    hide Compress, H0;
    assert BLOCK[0..64] == BLOCK;
    assert Fold(H0, BLOCK, 0) == H0;
  }

  lemma Stored0()
    ensures Stored(0xba7816bf) == [0xba, 0x78, 0x16, 0xbf]
  {
    assert (0xba7816bf as word) as nat == 0xba7816bf;
    assert ToBE(0xba7816bf, 4) == [0xba, 0x78, 0x16, 0xbf];
  }

  lemma Stored1()
    ensures Stored(0x8f01cfea) == [0x8f, 0x01, 0xcf, 0xea]
  {
    assert (0x8f01cfea as word) as nat == 0x8f01cfea;
    assert ToBE(0x8f01cfea, 4) == [0x8f, 0x01, 0xcf, 0xea];
  }

  lemma Stored2()
    ensures Stored(0x414140de) == [0x41, 0x41, 0x40, 0xde]
  {
    assert (0x414140de as word) as nat == 0x414140de;
    assert ToBE(0x414140de, 4) == [0x41, 0x41, 0x40, 0xde];
  }

  lemma Stored3()
    ensures Stored(0x5dae2223) == [0x5d, 0xae, 0x22, 0x23]
  {
    assert (0x5dae2223 as word) as nat == 0x5dae2223;
    assert ToBE(0x5dae2223, 4) == [0x5d, 0xae, 0x22, 0x23];
  }

  lemma Stored4()
    ensures Stored(0xb00361a3) == [0xb0, 0x03, 0x61, 0xa3]
  {
    assert (0xb00361a3 as word) as nat == 0xb00361a3;
    assert ToBE(0xb00361a3, 4) == [0xb0, 0x03, 0x61, 0xa3];
  }

  lemma Stored5()
    ensures Stored(0x96177a9c) == [0x96, 0x17, 0x7a, 0x9c]
  {
    assert (0x96177a9c as word) as nat == 0x96177a9c;
    assert ToBE(0x96177a9c, 4) == [0x96, 0x17, 0x7a, 0x9c];
  }

  lemma Stored6()
    ensures Stored(0xb410ff61) == [0xb4, 0x10, 0xff, 0x61]
  {
    assert (0xb410ff61 as word) as nat == 0xb410ff61;
    assert ToBE(0xb410ff61, 4) == [0xb4, 0x10, 0xff, 0x61];
  }

  lemma Stored7()
    ensures Stored(0xf20015ad) == [0xf2, 0x00, 0x15, 0xad]
  {
    assert (0xf20015ad as word) as nat == 0xf20015ad;
    assert ToBE(0xf20015ad, 4) == [0xf2, 0x00, 0x15, 0xad];
  }

  lemma OutputIs()
    ensures Output(RESULT) == [
              0xba, 0x78, 0x16, 0xbf, 0x8f, 0x01, 0xcf, 0xea,
              0x41, 0x41, 0x40, 0xde, 0x5d, 0xae, 0x22, 0x23,
              0xb0, 0x03, 0x61, 0xa3, 0x96, 0x17, 0x7a, 0x9c,
              0xb4, 0x10, 0xff, 0x61, 0xf2, 0x00, 0x15, 0xad]
  {
    hide Stored, StoredAll;
    Stored0(); Stored1(); Stored2(); Stored3(); Stored4(); Stored5(); Stored6(); Stored7();
    EightStored(RESULT);
  }

  lemma EightStored(v: Regs)
    ensures Output(v) == Stored(v.a) + Stored(v.b) + Stored(v.c) + Stored(v.d)
                         + Stored(v.e) + Stored(v.f) + Stored(v.g) + Stored(v.h)
  {
    hide Stored, StoredAll;
    var w := Words(v);
    FourStored(w);
    StoredMore(w, 4);
    StoredMore(w, 5);
    StoredMore(w, 6);
    StoredMore(w, 7);
    assert w[..8] == w;
  }

  lemma FourStored(w: seq<word>)
    requires |w| == 8
    ensures StoredAll(w[..4]) == Stored(w[0]) + Stored(w[1]) + Stored(w[2]) + Stored(w[3])
  {
    hide Stored, StoredAll;
    StoredNone();
    StoredMore(w, 0);
    StoredMore(w, 1);
    StoredMore(w, 2);
    StoredMore(w, 3);
    assert w[..0] == [] && [] + Stored(w[0]) == Stored(w[0]);
  }
}
