/** A cut clear leaves nothing that decodes: the checksums of all torn empty images, word by word. */
module ParamEmpty {
  import opened Bytes
  import opened Crc32
  import opened ParamStore
  import opened ParamLog
  import opened ParamLogRuns
  import opened ParamTorn
  import Images = ParamImages

  const ONES: bv32 := 0xFFFF_FFFF

  // ---- Words of zeros and of ones ----

  /** The register after `n` zero words. */
  function ZerosFed(r: bv32, n: nat): bv32 { if n == 0 then r else FourBytes(ZerosFed(r, n - 1)) }

  /** The register after `n` words of ones. */
  function OnesFed(r: bv32, n: nat): bv32
    decreases n
  {
    if n == 0 then r else OnesFed(FourBytes(Xor(r, ONES)), n - 1)
  }

  lemma ZeroWord(r: bv32)
    ensures Register(r, Zeros(4)) == FourBytes(r)
  {
    hide Register, FourBytes, Join, Bits;
    var word := Zeros(4);
    WordFeeds(r, word);
    JoinZeros();
    XorZero(r);
  }

  lemma JoinZeros()
    ensures Bits(0) == 0 && Join(0, 0, 0, 0) == 0
  {}

  lemma XorZero(r: bv32)
    ensures Xor(r, 0) == r
  {}

  lemma {:induction false} RegisterOfZeros(r: bv32, n: nat)
    ensures Register(r, Zeros(4 * n)) == ZerosFed(r, n)
  {
    hide Register, FourBytes;
    if n == 0 {
      RegisterOfNothing(r, Zeros(0));
    } else {
      RegisterOfZeros(r, n - 1);
      assert Zeros(4 * n) == Zeros(4 * (n - 1)) + Zeros(4);
      RegisterAppend(r, Zeros(4 * (n - 1)), Zeros(4));
      ZeroWord(ZerosFed(r, n - 1));
    }
  }

  lemma RegisterOfNothing(r: bv32, data: seq<Byte>)
    requires |data| == 0
    ensures Register(r, data) == r
  {}

  lemma {:induction false} RegisterOfOnes(r: bv32, n: nat)
    ensures Register(r, Blank(4 * n)) == OnesFed(r, n)
    decreases n
  {
    hide Register, FourBytes, Xor, GetU32;
    if n == 0 {
      RegisterOfNothing(r, Blank(0));
    } else {
      assert Blank(4 * n) == Blank(4) + Blank(4 * (n - 1));
      RegisterAppend(r, Blank(4), Blank(4 * (n - 1)));
      WordFeeds(r, Blank(4));
      AllOnes(Blank(4));
      RegisterOfOnes(FourBytes(Xor(r, ONES)), n - 1);
    }
  }

  lemma OnesInjective(a: bv32, b: bv32, n: nat)
    requires OnesFed(a, n) == OnesFed(b, n)
    ensures a == b
  {
    hide Register, OnesFed;
    RegisterOfOnes(a, n);
    RegisterOfOnes(b, n);
    RegisterInjective(a, b, Blank(4 * n));
  }

  // ---- The registers, word by word ----

  /** After the header, and after each further word of the empty image. */
  const FRONTS: seq<bv32> := [
    0x883C_BA64, 0xEC1D_697F, 0x228A_822A, 0x3932_B191, 0x7315_CE9F, 0x80AB_8C2A,
    0x87EB_4BBC, 0xE53D_AFA7, 0xB810_65A8, 0x49BB_11CE, 0x8347_DE35, 0x8B6B_1BF1,
    0xD2CA_D597, 0xF21D_A2FA, 0x9FF8_80E1, 0x3323_D8BD, 0x6DFB_E4B8, 0xB266_3B9A]

  /** The only registers from which the words of ones in the rest of a torn image lead to the checksum of erased
      flash. */
  const TAILS: seq<bv32> := [
    0x61D1_6BE3, 0xFC65_4F64, 0xBDB8_AB9F, 0x7779_8811, 0xE9A4_7C01, 0x2851_F583,
    0x044D_4CE2, 0x99F7_28A5, 0x407E_8216, 0x8E18_F2A6, 0x88E0_F7FA, 0x3AF6_4B8B,
    0x1CC6_EC71, 0x2461_E259, 0x823D_DA32, 0x6DD9_0A9D, 0xFFFF_FFFF, 0x0000_0000]

  lemma Front0()
    ensures FourBytes(0xAFCD_BBBD) == 0x1E2E_90CC
  {
    assert Eight(0xAFCD_BBBD) == 0xB57F_028A && Eight(0xB57F_028A) == 0x0DD8_153C;
    assert Eight(0x0DD8_153C) == 0x2F62_A492 && Eight(0x2F62_A492) == 0x1E2E_90CC;
    FourEights(0xAFCD_BBBD);
  }

  lemma Front1()
    ensures FourBytes(0x1E2E_90CD) == 0x883C_BA64
  {
    assert Eight(0x1E2E_90CD) == 0xE5CB_909D && Eight(0xE5CB_909D) == 0x8E5B_2469;
    assert Eight(0x8E5B_2469) == 0x34E0_82D8 && Eight(0x34E0_82D8) == 0x883C_BA64;
    FourEights(0x1E2E_90CD);
  }

  lemma Zero0()
    ensures FourBytes(0x883C_BA64) == 0xEC1D_697F
  {
    assert Eight(0x883C_BA64) == 0x4A57_99FB && Eight(0x4A57_99FB) == 0x2A25_7C0D;
    assert Eight(0x2A25_7C0D) == 0x7E9B_59C1 && Eight(0x7E9B_59C1) == 0xEC1D_697F;
    FourEights(0x883C_BA64);
  }

  lemma Zero1()
    ensures FourBytes(0xEC1D_697F) == 0x228A_822A
  {
    assert Eight(0xEC1D_697F) == 0xC056_71C4 && Eight(0xC056_71C4) == 0x9CC9_50D8;
    assert Eight(0x9CC9_50D8) == 0x8894_93B6 && Eight(0x8894_93B6) == 0x228A_822A;
    FourEights(0xEC1D_697F);
  }

  lemma Zero2()
    ensures FourBytes(0x228A_822A) == 0x3932_B191
  {
    assert Eight(0x228A_822A) == 0xDB99_4354 && Eight(0xDB99_4354) == 0x6CDD_0CAE;
    assert Eight(0x6CDD_0CAE) == 0x3102_53E3 && Eight(0x3102_53E3) == 0x3932_B191;
    FourEights(0x228A_822A);
  }

  lemma Zero3()
    ensures FourBytes(0x3932_B191) == 0x7315_CE9F
  {
    assert Eight(0x3932_B191) == 0x8731_9163 && Eight(0x8731_9163) == 0xD43C_0173;
    assert Eight(0xD43C_0173) == 0xC9D8_1C87 && Eight(0xC9D8_1C87) == 0x7315_CE9F;
    FourEights(0x3932_B191);
  }

  lemma Zero4()
    ensures FourBytes(0x7315_CE9F) == 0x80AB_8C2A
  {
    assert Eight(0x7315_CE9F) == 0x60C3_9B1B && Eight(0x60C3_9B1B) == 0x8A05_0A77;
    assert Eight(0x8A05_0A77) == 0xCEEB_E195 && Eight(0xCEEB_E195) == 0x80AB_8C2A;
    FourEights(0x7315_CE9F);
  }

  lemma Zero5()
    ensures FourBytes(0x80AB_8C2A) == 0x87EB_4BBC
  {
    assert Eight(0x80AB_8C2A) == 0xDB3B_625A && Eight(0xDB3B_625A) == 0x8B65_8388;
    assert Eight(0x8B65_8388) == 0xE3E8_6E91 && Eight(0xE3E8_6E91) == 0x87EB_4BBC;
    FourEights(0x80AB_8C2A);
  }

  lemma Zero6()
    ensures FourBytes(0x87EB_4BBC) == 0xE53D_AFA7
  {
    assert Eight(0x87EB_4BBC) == 0xC250_14EC && Eight(0xC250_14EC) == 0xA97E_FE47;
    assert Eight(0xA97E_FE47) == 0xE811_AACD && Eight(0xE811_AACD) == 0xE53D_AFA7;
    FourEights(0x87EB_4BBC);
  }

  lemma Zero7()
    ensures FourBytes(0xE53D_AFA7) == 0xB810_65A8
  {
    assert Eight(0xE53D_AFA7) == 0x4857_0BE4 && Eight(0x4857_0BE4) == 0xA72F_716A;
    assert Eight(0xA72F_716A) == 0xADC0_A737 && Eight(0xADC0_A737) == 0xB810_65A8;
    FourEights(0xE53D_AFA7);
  }

  lemma Zero8()
    ensures FourBytes(0xB810_65A8) == 0x49BB_11CE
  {
    assert Eight(0xB810_65A8) == 0xD8B5_3BBF && Eight(0xD8B5_3BBF) == 0x5B06_1B26;
    assert Eight(0x5B06_1B26) == 0xD256_83E6 && Eight(0xD256_83E6) == 0x49BB_11CE;
    FourEights(0xB810_65A8);
  }

  lemma Zero9()
    ensures FourBytes(0x49BB_11CE) == 0x8347_DE35
  {
    assert Eight(0x49BB_11CE) == 0x7C95_54A6 && Eight(0x7C95_54A6) == 0x3FC9_9389;
    assert Eight(0x3FC9_9389) == 0x945B_F217 && Eight(0x945B_F217) == 0x8347_DE35;
    FourEights(0x49BB_11CE);
  }

  lemma Zero10()
    ensures FourBytes(0x8347_DE35) == 0x8B6B_1BF1
  {
    assert Eight(0x8347_DE35) == 0x5630_83FD && Eight(0x5630_83FD) == 0xC35A_BE22;
    assert Eight(0xC35A_BE22) == 0xD5A3_1B5A && Eight(0xD5A3_1B5A) == 0x8B6B_1BF1;
    FourEights(0x8347_DE35);
  }

  lemma Zero11()
    ensures FourBytes(0x8B6B_1BF1) == 0xD2CA_D597
  {
    assert Eight(0x8B6B_1BF1) == 0xCA31_A991 && Eight(0xCA31_A991) == 0x87C2_927B;
    assert Eight(0x87C2_927B) == 0xC750_6A26 && Eight(0xC750_6A26) == 0xD2CA_D597;
    FourEights(0x8B6B_1BF1);
  }

  lemma Zero12()
    ensures FourBytes(0xD2CA_D597) == 0xF21D_A2FA
  {
    assert Eight(0xD2CA_D597) == 0x6EB9_CC32 && Eight(0x6EB9_CC32) == 0xC8B9_E84C;
    assert Eight(0xC8B9_E84C) == 0x7FA2_B453 && Eight(0x7FA2_B453) == 0xF21D_A2FA;
    FourEights(0xD2CA_D597);
  }

  lemma Zero13()
    ensures FourBytes(0xF21D_A2FA) == 0x9FF8_80E1
  {
    assert Eight(0xF21D_A2FA) == 0x5D9A_06A0 && Eight(0x5D9A_06A0) == 0xD68B_39EE;
    assert Eight(0xD68B_39EE) == 0x4764_4446 && Eight(0x4764_4446) == 0x9FF8_80E1;
    FourEights(0xF21D_A2FA);
  }

  lemma Zero14()
    ensures FourBytes(0x9FF8_80E1) == 0x3323_D8BD
  {
    assert Eight(0x9FF8_80E1) == 0xD792_2A6E && Eight(0xD792_2A6E) == 0xAADD_DE75;
    assert Eight(0xAADD_DE75) == 0x20C5_586D && Eight(0x20C5_586D) == 0x3323_D8BD;
    FourEights(0x9FF8_80E1);
  }

  lemma Zero15()
    ensures FourBytes(0x3323_D8BD) == 0x6DFB_E4B8
  {
    assert Eight(0x3323_D8BD) == 0xB5E3_ECE9 && Eight(0xB5E3_ECE9) == 0xD963_B930;
    assert Eight(0xD963_B930) == 0x2600_5315 && Eight(0x2600_5315) == 0x6DFB_E4B8;
    FourEights(0x3323_D8BD);
  }

  lemma Zero16()
    ensures FourBytes(0x6DFB_E4B8) == 0xB266_3B9A
  {
    assert Eight(0x6DFB_E4B8) == 0xC5D7_C05A && Eight(0xC5D7_C05A) == 0x8B7B_6F2A;
    assert Eight(0x8B7B_6F2A) == 0xDB30_B2B9 && Eight(0xDB30_B2B9) == 0xB266_3B9A;
    FourEights(0x6DFB_E4B8);
  }

  lemma Ones0()
    ensures FourBytes(0x9E2E_941C) == 0xFC65_4F64
  {
    assert Eight(0x9E2E_941C) == 0x149F_72DB && Eight(0x149F_72DB) == 0x1115_942E;
    assert Eight(0x1115_942E) == 0xDCC7_185B && Eight(0xDCC7_185B) == 0xFC65_4F64;
    FourEights(0x9E2E_941C);
  }

  lemma Ones1()
    ensures FourBytes(0x039A_B09B) == 0xBDB8_AB9F
  {
    assert Eight(0x039A_B09B) == 0x67DE_D07C && Eight(0x67DE_D07C) == 0x59D4_E3C7;
    assert Eight(0x59D4_E3C7) == 0x0559_83F0 && Eight(0x0559_83F0) == 0xBDB8_AB9F;
    FourEights(0x039A_B09B);
  }

  lemma Ones2()
    ensures FourBytes(0x4247_5460) == 0x7779_8811
  {
    assert Eight(0x4247_5460) == 0x4DF0_260C && Eight(0x4DF0_260C) == 0x09FB_BC0D;
    assert Eight(0x09FB_BC0D) == 0x7EB8_8701 && Eight(0x7EB8_8701) == 0x7779_8811;
    FourEights(0x4247_5460);
  }

  lemma Ones3()
    ensures FourBytes(0x8886_77EE) == 0xE9A4_7C01
  {
    assert Eight(0x8886_77EE) == 0x473A_4908 && Eight(0x473A_4908) == 0x0E9C_B27B;
    assert Eight(0x0E9C_B27B) == 0xC7D9_3406 && Eight(0xC7D9_3406) == 0xE9A4_7C01;
    FourEights(0x8886_77EE);
  }

  lemma Ones4()
    ensures FourBytes(0x165B_83FE) == 0x2851_F583
  {
    assert Eight(0x165B_83FE) == 0x5A13_8498 && Eight(0x5A13_8498) == 0xFE8E_08F2;
    assert Eight(0xFE8E_08F2) == 0x534D_1D38 && Eight(0x534D_1D38) == 0x2851_F583;
    FourEights(0x165B_83FE);
  }

  lemma Ones5()
    ensures FourBytes(0xD7AE_0A7C) == 0x044D_4CE2
  {
    assert Eight(0xD7AE_0A7C) == 0x5964_931D && Eight(0x5964_931D) == 0x635F_084A;
    assert Eight(0x635F_084A) == 0x966A_F786 && Eight(0x966A_F786) == 0x044D_4CE2;
    FourEights(0xD7AE_0A7C);
  }

  lemma Ones6()
    ensures FourBytes(0xFBB2_B31D) == 0x99F7_28A5
  {
    assert Eight(0xFBB2_B31D) == 0x63FD_DE6A && Eight(0x63FD_DE6A) == 0xAD04_7598;
    assert Eight(0xAD04_7598) == 0xFE79_1F03 && Eight(0xFE79_1F03) == 0x99F7_28A5;
    FourEights(0xFBB2_B31D);
  }

  lemma Ones7()
    ensures FourBytes(0x6608_D75A) == 0x407E_8216
  {
    assert Eight(0x6608_D75A) == 0x8BD8_B03D && Eight(0x8BD8_B03D) == 0x58E3_94A1;
    assert Eight(0x58E3_94A1) == 0xA189_70EA && Eight(0xA189_70EA) == 0x407E_8216;
    FourEights(0x6608_D75A);
  }

  lemma Ones8()
    ensures FourBytes(0xBF81_7DE9) == 0x8E18_F2A6
  {
    assert Eight(0xBF81_7DE9) == 0xD969_DBA1 && Eight(0xD969_DBA1) == 0xA108_FAA5;
    assert Eight(0xA108_FAA5) == 0xA61D_5F9D && Eight(0xA61D_5F9D) == 0x8E18_F2A6;
    FourEights(0xBF81_7DE9);
  }

  lemma Ones9()
    ensures FourBytes(0x71E7_0D59) == 0x88E0_F7FA
  {
    assert Eight(0x71E7_0D59) == 0x12C6_0E5D && Eight(0x12C6_0E5D) == 0x15C8_EB47;
    assert Eight(0x15C8_EB47) == 0xE8AD_1CD8 && Eight(0xE8AD_1CD8) == 0x88E0_F7FA;
    FourEights(0x71E7_0D59);
  }

  lemma Ones10()
    ensures FourBytes(0x771F_0805) == 0x3AF6_4B8B
  {
    assert Eight(0x771F_0805) == 0x701D_EB87 && Eight(0x701D_EB87) == 0x73AC_0B68;
    assert Eight(0x73AC_0B68) == 0x431A_4561 && Eight(0x431A_4561) == 0x3AF6_4B8B;
    FourEights(0x771F_0805);
  }

  lemma Ones11()
    ensures FourBytes(0xC509_B474) == 0x1CC6_EC71
  {
    assert Eight(0xC509_B474) == 0x57AD_BC91 && Eight(0x57AD_BC91) == 0x875F_0E6E;
    assert Eight(0x875F_0E6E) == 0xAA8D_1351 && Eight(0xAA8D_1351) == 0x1CC6_EC71;
    FourEights(0xC509_B474);
  }

  lemma Ones12()
    ensures FourBytes(0xE339_138E) == 0x2461_E259
  {
    assert Eight(0xE339_138E) == 0x0AE3_9734 && Eight(0x0AE3_9734) == 0x21BE_1722;
    assert Eight(0x21BE_1722) == 0xD541_FFF3 && Eight(0xD541_FFF3) == 0x2461_E259;
    FourEights(0xE339_138E);
  }

  lemma Ones13()
    ensures FourBytes(0xDB9E_1DA6) == 0x823D_DA32
  {
    assert Eight(0xDB9E_1DA6) == 0x3F6E_98C0 && Eight(0x3F6E_98C0) == 0x9B5B_AC28;
    assert Eight(0x9B5B_AC28) == 0x352E_F356 && Eight(0x352E_F356) == 0x823D_DA32;
    FourEights(0xDB9E_1DA6);
  }

  lemma Ones14()
    ensures FourBytes(0x7DC2_25CD) == 0x6DD9_0A9D
  {
    assert Eight(0x7DC2_25CD) == 0xE5A8_7C28 && Eight(0xE5A8_7C28) == 0x3550_0086;
    assert Eight(0x3550_0086) == 0x04EE_7615 && Eight(0x04EE_7615) == 0x6DD9_0A9D;
    FourEights(0x7DC2_25CD);
  }

  lemma Ones15()
    ensures FourBytes(0x9226_F562) == 0xFFFF_FFFF
  {
    assert Eight(0x9226_F562) == 0xA32E_2681 && Eight(0xA32E_2681) == 0x9A1C_9D90;
    assert Eight(0x9A1C_9D90) == 0xF095_8FD9 && Eight(0xF095_8FD9) == 0xFFFF_FFFF;
    FourEights(0x9226_F562);
  }

  lemma Ones16()
    ensures FourBytes(0x0000_0000) == 0x0000_0000
  {
    assert Eight(0x0000_0000) == 0x0000_0000 && Eight(0x0000_0000) == 0x0000_0000;
    assert Eight(0x0000_0000) == 0x0000_0000 && Eight(0x0000_0000) == 0x0000_0000;
    FourEights(0x0000_0000);
  }


  /** Each register follows from the one before. */
  lemma FrontsFollow(k: nat)
    requires k < 17
    ensures FourBytes(FRONTS[k]) == FRONTS[k + 1]
  {
    hide FourBytes;
    match k
    case 0 => Zero0();
    case 1 => Zero1();
    case 2 => Zero2();
    case 3 => Zero3();
    case 4 => Zero4();
    case 5 => Zero5();
    case 6 => Zero6();
    case 7 => Zero7();
    case 8 => Zero8();
    case 9 => Zero9();
    case 10 => Zero10();
    case 11 => Zero11();
    case 12 => Zero12();
    case 13 => Zero13();
    case 14 => Zero14();
    case 15 => Zero15();
    case 16 => Zero16();
    case _ =>
  }

  lemma TailsFollow(k: nat)
    requires k < 17
    ensures FourBytes(Xor(TAILS[k], ONES)) == TAILS[k + 1]
  {
    hide FourBytes;
    match k
    case 0 => Ones0();
    case 1 => Ones1();
    case 2 => Ones2();
    case 3 => Ones3();
    case 4 => Ones4();
    case 5 => Ones5();
    case 6 => Ones6();
    case 7 => Ones7();
    case 8 => Ones8();
    case 9 => Ones9();
    case 10 => Ones10();
    case 11 => Ones11();
    case 12 => Ones12();
    case 13 => Ones13();
    case 14 => Ones14();
    case 15 => Ones15();
    case 16 => Ones16();
    case _ =>
  }

  lemma {:induction false} FrontsAre(k: nat)
    requires k <= 17
    ensures ZerosFed(FRONTS[0], k) == FRONTS[k]
  {
    hide FourBytes;
    if k > 0 {
      FrontsAre(k - 1);
      FrontsFollow(k - 1);
    }
  }

  lemma {:induction false} TailsLead(k: nat)
    requires k <= 17
    ensures OnesFed(TAILS[k], 17 - k) == 0
    decreases 17 - k
  {
    hide FourBytes, Xor;
    if k < 17 {
      TailsFollow(k);
      TailsLead(k + 1);
    }
  }

  lemma NeverTheSame(k: nat)
    requires k <= 17
    ensures FRONTS[k] != TAILS[k]
  {}

  // ---- The torn empty image ----

  const HEADER: seq<Byte> := PutU32(MAGIC) + PutU16(VERSION) + PutU16(0)

  lemma HeaderRegister()
    ensures Register(ONES, HEADER) == FRONTS[0]
  {
    hide Register, FourBytes, PutU32, GetU32, Xor;
    var x, y := PutU32(MAGIC), PutU16(VERSION) + PutU16(0);
    assert HEADER == x + y;
    RegisterAppend(ONES, x, y);
    WordFeeds(ONES, x);
    WordRoundTrip(MAGIC);
    WordFeeds(Register(ONES, x), y);
    SecondWord();
    FirstXors();
    Front0();
    Front1();
  }

  lemma SecondWord()
    ensures GetU32(PutU16(VERSION) + PutU16(0)) == 1
  {
    hide Bits;
    assert PutU16(VERSION) + PutU16(0) == [1, 0, 0, 0];
    assert Bits(1) == 1 && Bits(0) == 0 by { JoinOne(); }
    JoinOne();
  }

  lemma JoinOne()
    ensures Bits(1) == 1 && Bits(0) == 0 && Join(1, 0, 0, 0) == 1
  {}

  lemma FirstXors()
    ensures Xor(ONES, MAGIC) == 0xAFCD_BBBD && Xor(0x1E2E_90CC, 1) == 0x1E2E_90CD
  {}

  lemma EmptyBody()
    ensures Body([]) == HEADER + Zeros(CRC_OFFSET - HEADER_SIZE)
  {
    hide PutU32, PutU16;
  }

  /** The bytes of a torn empty image that the checksum covers. */
  lemma EmptyTorn(words: nat)
    requires 2 <= words < SLOT_WORDS
    ensures Torn(ImageOf([]), words)[..CRC_OFFSET] == HEADER + (Zeros(4 * (words - 2)) + Blank(4 * (19 - words)))
  {
    hide PutU32, PutU16, Checksum, Body;
    EmptyBody();
    var image, torn := ImageOf([]), Torn(ImageOf([]), words);
    Images.HeaderAt([]);
    TornKeeps(image, words, 0, 4 * words);
    assert image[0..4 * words] == Body([])[0..4 * words];
    assert |HEADER| == 8;
    forall i | 4 * words <= i < CRC_OFFSET ensures torn[i] == 0xFF { TornBlank(image, words, i); }
    forall i | 0 <= i < 4 * words ensures torn[i] == Body([])[i] {
      assert torn[0..4 * words][i] == Body([])[0..4 * words][i];
    }
  }

  /** No torn empty image carries the checksum of erased flash. */
  lemma EmptyNeverCollides(words: nat)
    requires 2 <= words < SLOT_WORDS
    ensures Crc(Torn(ImageOf([]), words)[..CRC_OFFSET]) != 0xFFFF_FFFF
  {
    hide Register, FourBytes, ZerosFed, OnesFed, ImageOf, Torn;
    var k := words - 2;
    EmptyTorn(words);
    HeaderRegister();
    RegisterAppend(ONES, HEADER, Zeros(4 * k) + Blank(4 * (17 - k)));
    RegisterAppend(FRONTS[0], Zeros(4 * k), Blank(4 * (17 - k)));
    RegisterOfZeros(FRONTS[0], k);
    FrontsAre(k);
    RegisterOfOnes(FRONTS[k], 17 - k);
    TailsLead(k);
    NeverTheSame(k);
    if OnesFed(FRONTS[k], 17 - k) == 0 {
      OnesInjective(FRONTS[k], TAILS[k], 17 - k);
    }
  }

  /** A cut clear leaves a slot that does not decode, however many words were written. */
  lemma CutClearIsRefused(words: nat)
    ensures TornRefused(EMPTY, words)
  {
    hide Decode, Torn, ImageOf, Live, Crc;
    if 0 < words < SLOT_WORDS {
      NothingLives();
      TornDecodesExactly([], words);
      if words >= 2 { EmptyNeverCollides(words); }
    }
  }

  lemma NothingLives()
    ensures Live(EMPTY) == []
  {
    Images.BlankIsTidy();
    Images.LiveOfTidy(EMPTY);
  }
}
