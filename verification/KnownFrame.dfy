/**
 A published uplink frame of LoRaWAN 1.0, evaluated: keys, device address, counter and payload go in,
 and its seventeen bytes come out.
 */
module KnownFrame {
  import opened GaloisField
  import opened SBox
  import opened Fips197
  import opened KnownAnswers
  import Aes
  import Rfc4493
  import opened Encrypt
  import LorawanFrame

  /** The network session key. */
  function NwkSKey(): Block {
    Hex(0x44024241, 0xED4CE9A6, 0x8C6A8BC0, 0x55233FD3)
  }

  lemma NwkSKeySchedule()
    ensures RoundKey(NwkSKey(), 0) == Hex(0x44024241, 0xED4CE9A6, 0x8C6A8BC0, 0x55233FD3)
    ensures RoundKey(NwkSKey(), 1) == Hex(0x637724BD, 0x8E3BCD1B, 0x025146DB, 0x57727908)
    ensures RoundKey(NwkSKey(), 2) == Hex(0x21C114E6, 0xAFFAD9FD, 0xADAB9F26, 0xFAD9E62E)
    ensures RoundKey(NwkSKey(), 3) == Hex(0x104F25CB, 0xBFB5FC36, 0x121E6310, 0xE8C7853E)
    ensures RoundKey(NwkSKey(), 4) == Hex(0xDED89750, 0x616D6B66, 0x73730876, 0x9BB48D48)
    ensures RoundKey(NwkSKey(), 5) == Hex(0x4385C544, 0x22E8AE22, 0x519BA654, 0xCA2F2B1C)
    ensures RoundKey(NwkSKey(), 6) == Hex(0x76745930, 0x549CF712, 0x05075146, 0xCF287A5A)
    ensures RoundKey(NwkSKey(), 7) == Hex(0x02AEE7BA, 0x563210A8, 0x533541EE, 0x9C1D3BB4)
    ensures RoundKey(NwkSKey(), 8) == Hex(0x264C6A64, 0x707E7ACC, 0x234B3B22, 0xBF560096)
    ensures RoundKey(NwkSKey(), 9) == Hex(0x8C2FFA6C, 0xFC5180A0, 0xDF1ABB82, 0x604CBB14)
    ensures RoundKey(NwkSKey(), 10) == Hex(0x93C500BC, 0x6F94801C, 0xB08E3B9E, 0xD0C2808A)
  {
    Tables();
    RoundConstants();
    hide SubByte, XPower, RoundKey, MixColumn;
    FirstRoundKey(NwkSKey());
    RoundKeyStep(NwkSKey(), 1);
    RoundKeyStep(NwkSKey(), 2);
    RoundKeyStep(NwkSKey(), 3);
    RoundKeyStep(NwkSKey(), 4);
    RoundKeyStep(NwkSKey(), 5);
    RoundKeyStep(NwkSKey(), 6);
    RoundKeyStep(NwkSKey(), 7);
    RoundKeyStep(NwkSKey(), 8);
    RoundKeyStep(NwkSKey(), 9);
    RoundKeyStep(NwkSKey(), 10);
  }

  /** The application session key. */
  function AppSKey(): Block {
    Hex(0xEC925802, 0xAE430CA7, 0x7FD3DD73, 0xCB2CC588)
  }

  lemma AppSKeySchedule()
    ensures RoundKey(AppSKey(), 0) == Hex(0xEC925802, 0xAE430CA7, 0x7FD3DD73, 0xCB2CC588)
    ensures RoundKey(AppSKey(), 1) == Hex(0x9C349C1D, 0x327790BA, 0x4DA44DC9, 0x86888841)
    ensures RoundKey(AppSKey(), 2) == Hex(0x5AF01F59, 0x68878FE3, 0x2523C22A, 0xA3AB4A6B)
    ensures RoundKey(AppSKey(), 3) == Hex(0x3C266053, 0x54A1EFB0, 0x71822D9A, 0xD22967F1)
    ensures RoundKey(AppSKey(), 4) == Hex(0x91A3C1E6, 0xC5022E56, 0xB48003CC, 0x66A9643D)
    ensures RoundKey(AppSKey(), 5) == Hex(0x52E0E6D5, 0x97E2C883, 0x2362CB4F, 0x45CBAF72)
    ensures RoundKey(AppSKey(), 6) == Hex(0x6D99A6BB, 0xFA7B6E38, 0xD919A577, 0x9CD20A05)
    ensures RoundKey(AppSKey(), 7) == Hex(0x98FECD65, 0x6285A35D, 0xBB9C062A, 0x274E0C2F)
    ensures RoundKey(AppSKey(), 8) == Hex(0x3700D8A9, 0x55857BF4, 0xEE197DDE, 0xC95771F1)
    ensures RoundKey(AppSKey(), 9) == Hex(0x77A37974, 0x22260280, 0xCC3F7F5E, 0x05680EAF)
    ensures RoundKey(AppSKey(), 10) == Hex(0x0408001F, 0x262E029F, 0xEA117DC1, 0xEF79736E)
  {
    Tables();
    RoundConstants();
    hide SubByte, XPower, RoundKey, MixColumn;
    FirstRoundKey(AppSKey());
    RoundKeyStep(AppSKey(), 1);
    RoundKeyStep(AppSKey(), 2);
    RoundKeyStep(AppSKey(), 3);
    RoundKeyStep(AppSKey(), 4);
    RoundKeyStep(AppSKey(), 5);
    RoundKeyStep(AppSKey(), 6);
    RoundKeyStep(AppSKey(), 7);
    RoundKeyStep(AppSKey(), 8);
    RoundKeyStep(AppSKey(), 9);
    RoundKeyStep(AppSKey(), 10);
  }

  lemma StreamBlockTo5()
    ensures Rounds(Hex(0x01000000, 0x0000F17D, 0xBE490200, 0x00000001), AppSKey(), 5) ==
      Hex(0x6872A0E7, 0xBE99E803, 0xA4D4DCA4, 0xDAACF8A2)
  {
    var block := Hex(0x01000000, 0x0000F17D, 0xBE490200, 0x00000001);
    AppSKeySchedule();
    Tables();
    hide SubByte, MixColumn, Mul, Rounds, RoundKey, AppSKey;
    FirstRound(block, AppSKey());
    assert Rounds(block, AppSKey(), 0) == Hex(0xED925802, 0xAE43FDDA, 0xC19ADF73, 0xCB2CC589);
    NextRound(block, AppSKey(), 0);
    assert Rounds(block, AppSKey(), 1) ==
      Hex(0x214B0633, 0xE37E027D, 0x13D769F4, 0xB27AFA7E);
    NextRound(block, AppSKey(), 1);
    assert Rounds(block, AppSKey(), 2) ==
      Hex(0xBF13F6B2, 0xB63E946E, 0x3ABFA1FD, 0xCBC7FA93);
    NextRound(block, AppSKey(), 2);
    assert Rounds(block, AppSKey(), 3) ==
      Hex(0x0FDBC168, 0xCABFAA29, 0xE6CC55A0, 0x1DFEBD27);
    NextRound(block, AppSKey(), 3);
    assert Rounds(block, AppSKey(), 4) ==
      Hex(0x5516130B, 0xCF2B2A71, 0xB84E32D7, 0xA96B0104);
    NextRound(block, AppSKey(), 4);
    assert Rounds(block, AppSKey(), 5) ==
      Hex(0x6872A0E7, 0xBE99E803, 0xA4D4DCA4, 0xDAACF8A2);
  }

  lemma StreamBlockTo9()
    ensures Rounds(Hex(0x01000000, 0x0000F17D, 0xBE490200, 0x00000001), AppSKey(), 9) ==
      Hex(0x2AEAA604, 0xB3C31DD6, 0x6F1C9EF7, 0x53C541DE)
  {
    var block := Hex(0x01000000, 0x0000F17D, 0xBE490200, 0x00000001);
    StreamBlockTo5();
    AppSKeySchedule();
    Tables();
    hide SubByte, MixColumn, Mul, Rounds, RoundKey, AppSKey;
    NextRound(block, AppSKey(), 5);
    assert Rounds(block, AppSKey(), 6) ==
      Hex(0x72B05468, 0xB012ADEB, 0x78292B2B, 0x20FAEBB5);
    NextRound(block, AppSKey(), 6);
    assert Rounds(block, AppSKey(), 7) ==
      Hex(0x7CEAD92C, 0xEF56E7A9, 0x66F3F731, 0x04796566);
    NextRound(block, AppSKey(), 7);
    assert Rounds(block, AppSKey(), 8) ==
      Hex(0x84E2FC26, 0xDBE6A02C, 0xAFD1FCB5, 0xF7D0657A);
    NextRound(block, AppSKey(), 8);
    assert Rounds(block, AppSKey(), 9) ==
      Hex(0x2AEAA604, 0xB3C31DD6, 0x6F1C9EF7, 0x53C541DE);
  }

  lemma StreamBlock()
    ensures Cipher(Hex(0x01000000, 0x0000F17D, 0xBE490200, 0x00000001), AppSKey()) ==
      Hex(0xE1260B02, 0x4BB2816D, 0x42B75937, 0x02FED706)
  {
    StreamBlockTo9();
    AppSKeySchedule();
    Tables();
    hide SubByte, MixColumn, Mul, Rounds, RoundKey, AppSKey, Cipher;
    LastRound(Hex(0x01000000, 0x0000F17D, 0xBE490200, 0x00000001), AppSKey());
  }

  lemma NwkSKeyZeroTo5()
    ensures Rounds(Hex(0x00000000, 0x00000000, 0x00000000, 0x00000000), NwkSKey(), 5) ==
      Hex(0x79CDFC81, 0x852BF441, 0x9FBFE705, 0x228D0966)
  {
    var block := Hex(0x00000000, 0x00000000, 0x00000000, 0x00000000);
    NwkSKeySchedule();
    Tables();
    hide SubByte, MixColumn, Mul, Rounds, RoundKey, NwkSKey;
    FirstRound(block, NwkSKey());
    assert Rounds(block, NwkSKey(), 0) == Hex(0x44024241, 0xED4CE9A6, 0x8C6A8BC0, 0x55233FD3);
    NextRound(block, NwkSKey(), 0);
    assert Rounds(block, NwkSKey(), 1) ==
      Hex(0x751FC648, 0xD476EE8E, 0xA8293035, 0x89F81B11);
    NextRound(block, NwkSKey(), 1);
    assert Rounds(block, NwkSKey(), 2) ==
      Hex(0xCEA22479, 0x365B878B, 0x5C3544BC, 0x4A0B7003);
    NextRound(block, NwkSKey(), 2);
    assert Rounds(block, NwkSKey(), 3) ==
      Hex(0x36E02C99, 0xF3C20C89, 0xF06529A9, 0x6339E8B8);
    NextRound(block, NwkSKey(), 3);
    assert Rounds(block, NwkSKey(), 4) ==
      Hex(0x720F5207, 0xD9A22F60, 0x90EF86CF, 0x635C1EFC);
    NextRound(block, NwkSKey(), 4);
    assert Rounds(block, NwkSKey(), 5) ==
      Hex(0x79CDFC81, 0x852BF441, 0x9FBFE705, 0x228D0966);
  }

  lemma NwkSKeyZeroTo9()
    ensures Rounds(Hex(0x00000000, 0x00000000, 0x00000000, 0x00000000), NwkSKey(), 9) ==
      Hex(0xA3A82478, 0x5AD597A4, 0xDFEB268A, 0xF5E89CFE)
  {
    var block := Hex(0x00000000, 0x00000000, 0x00000000, 0x00000000);
    NwkSKeyZeroTo5();
    NwkSKeySchedule();
    Tables();
    hide SubByte, MixColumn, Mul, Rounds, RoundKey, NwkSKey;
    NextRound(block, NwkSKey(), 5);
    assert Rounds(block, NwkSKey(), 6) ==
      Hex(0xAEAF78F2, 0x74147EA1, 0x7C2E32C0, 0xFA6B8C20);
    NextRound(block, NwkSKey(), 6);
    assert Rounds(block, NwkSKey(), 7) ==
      Hex(0x50777D21, 0xD7E7FB59, 0x7C361B79, 0x04764726);
    NextRound(block, NwkSKey(), 7);
    assert Rounds(block, NwkSKey(), 8) ==
      Hex(0x7F31EA5F, 0x3E7C369A, 0x7FFAB058, 0xFDF2D816);
    NextRound(block, NwkSKey(), 8);
    assert Rounds(block, NwkSKey(), 9) ==
      Hex(0xA3A82478, 0x5AD597A4, 0xDFEB268A, 0xF5E89CFE);
  }

  lemma NwkSKeyZero()
    ensures Cipher(Hex(0x00000000, 0x00000000, 0x00000000, 0x00000000), NwkSKey()) ==
      Hex(0x99C6F707, 0xD17D5EA0, 0x2E150DD7, 0x360008F4)
  {
    NwkSKeyZeroTo9();
    NwkSKeySchedule();
    Tables();
    hide SubByte, MixColumn, Mul, Rounds, RoundKey, NwkSKey, Cipher;
    LastRound(Hex(0x00000000, 0x00000000, 0x00000000, 0x00000000), NwkSKey());
  }

  lemma NetworkSubkeys()
    ensures Rfc4493.Subkey1(NwkSKey()) == Hex(0x338DEE0F, 0xA2FABD40, 0x5C2A1BAE, 0x6C00116F)
    ensures Rfc4493.Subkey2(NwkSKey()) == Hex(0x671BDC1F, 0x45F57A80, 0xB854375C, 0xD80022DE)
  {
    NetworkSubkeysBits();
    NwkSKeyZero();
    hide Cipher, NwkSKey, Rfc4493.Bits, Rfc4493.FromBits, Rfc4493.Doubled, Hex;
    ZeroHex();
  }

  lemma NetworkSubkeysBits()
    ensures Rfc4493.FromBits(Rfc4493.Doubled(Rfc4493.Bits(Hex(0x99C6F707, 0xD17D5EA0, 0x2E150DD7, 0x360008F4)))) ==
      Hex(0x338DEE0F, 0xA2FABD40, 0x5C2A1BAE, 0x6C00116F)
    ensures Rfc4493.FromBits(Rfc4493.Doubled(Rfc4493.Bits(Hex(0x338DEE0F, 0xA2FABD40, 0x5C2A1BAE, 0x6C00116F)))) ==
      Hex(0x671BDC1F, 0x45F57A80, 0xB854375C, 0xD80022DE)
  {
  }

  lemma FirstBlockTo5()
    ensures Rounds(Hex(0x49000000, 0x0000F17D, 0xBE490200, 0x0000000D), NwkSKey(), 5) ==
      Hex(0x57056A6B, 0x62FCD769, 0xFE6AF5C5, 0xBA7D3934)
  {
    var block := Hex(0x49000000, 0x0000F17D, 0xBE490200, 0x0000000D);
    NwkSKeySchedule();
    Tables();
    hide SubByte, MixColumn, Mul, Rounds, RoundKey, NwkSKey;
    FirstRound(block, NwkSKey());
    assert Rounds(block, NwkSKey(), 0) == Hex(0x0D024241, 0xED4C18DB, 0x322389C0, 0x55233FDE);
    NextRound(block, NwkSKey(), 0);
    assert Rounds(block, NwkSKey(), 1) ==
      Hex(0x171DA86B, 0xB83ECAAA, 0xBBF3CBDD, 0x3A3666A2);
    NextRound(block, NwkSKey(), 1);
    assert Rounds(block, NwkSKey(), 2) ==
      Hex(0x32552634, 0x2CA65F89, 0x03BA0087, 0xA35772FC);
    NextRound(block, NwkSKey(), 2);
    assert Rounds(block, NwkSKey(), 3) ==
      Hex(0xE9312F92, 0x02EFD121, 0x59764464, 0x3B73CF3D);
    NextRound(block, NwkSKey(), 3);
    assert Rounds(block, NwkSKey(), 4) ==
      Hex(0xA46909F8, 0x02A0FAD3, 0x9C7F7A4B, 0x6BC2110A);
    NextRound(block, NwkSKey(), 4);
    assert Rounds(block, NwkSKey(), 5) ==
      Hex(0x57056A6B, 0x62FCD769, 0xFE6AF5C5, 0xBA7D3934);
  }

  lemma FirstBlockTo9()
    ensures Rounds(Hex(0x49000000, 0x0000F17D, 0xBE490200, 0x0000000D), NwkSKey(), 9) ==
      Hex(0x9DBDC35F, 0x4F2B8F22, 0x2B518618, 0xEA3B3DB5)
  {
    var block := Hex(0x49000000, 0x0000F17D, 0xBE490200, 0x0000000D);
    FirstBlockTo5();
    NwkSKeySchedule();
    Tables();
    hide SubByte, MixColumn, Mul, Rounds, RoundKey, NwkSKey;
    NextRound(block, NwkSKey(), 5);
    assert Rounds(block, NwkSKey(), 6) ==
      Hex(0xF57D4DBB, 0x707BFA19, 0x89A60184, 0x29BE086F);
    NextRound(block, NwkSKey(), 6);
    assert Rounds(block, NwkSKey(), 7) ==
      Hex(0x62263B9D, 0x42912080, 0xD83FF2E2, 0xA575DA2C);
    NextRound(block, NwkSKey(), 7);
    assert Rounds(block, NwkSKey(), 8) ==
      Hex(0x090EDB6B, 0xBE1F6F26, 0x72FB547F, 0x9EFF37F7);
    NextRound(block, NwkSKey(), 8);
    assert Rounds(block, NwkSKey(), 9) ==
      Hex(0x9DBDC35F, 0x4F2B8F22, 0x2B518618, 0xEA3B3DB5);
  }

  lemma FirstBlock()
    ensures Cipher(Hex(0x49000000, 0x0000F17D, 0xBE490200, 0x0000000D), NwkSKey()) ==
      Hex(0xCD344469, 0xEB45A7D3, 0x416C150D, 0x57B8F327)
  {
    FirstBlockTo9();
    NwkSKeySchedule();
    Tables();
    hide SubByte, MixColumn, Mul, Rounds, RoundKey, NwkSKey, Cipher;
    LastRound(Hex(0x49000000, 0x0000F17D, 0xBE490200, 0x0000000D), NwkSKey());
  }

  lemma TagBlockTo5()
    ensures Rounds(Hex(0xEADEE5C8, 0xE7B0DF53, 0xF8AD6129, 0xF938D1F9), NwkSKey(), 5) ==
      Hex(0x0CCE3F86, 0x8D3ADF11, 0xEDF1ED5F, 0xED39ADFC)
  {
    var block := Hex(0xEADEE5C8, 0xE7B0DF53, 0xF8AD6129, 0xF938D1F9);
    NwkSKeySchedule();
    Tables();
    hide SubByte, MixColumn, Mul, Rounds, RoundKey, NwkSKey;
    FirstRound(block, NwkSKey());
    assert Rounds(block, NwkSKey(), 0) == Hex(0xAEDCA789, 0x0AFC36F5, 0x74C7EAE9, 0xAC1BEE2A);
    NextRound(block, NwkSKey(), 0);
    assert Rounds(block, NwkSKey(), 1) ==
      Hex(0x199F516C, 0x9E14CE09, 0x6D84F252, 0xE4E5461F);
    NextRound(block, NwkSKey(), 1);
    assert Rounds(block, NwkSKey(), 2) ==
      Hex(0xCEBA6869, 0x52F1C945, 0x7557C068, 0xD59B59C5);
    NextRound(block, NwkSKey(), 2);
    assert Rounds(block, NwkSKey(), 3) ==
      Hex(0xF9EE9101, 0x60BC3A4F, 0x240AD221, 0x710E1C98);
    NextRound(block, NwkSKey(), 3);
    assert Rounds(block, NwkSKey(), 4) ==
      Hex(0xAB09D0BC, 0x93B07B0E, 0xFC141B15, 0xC32101FF);
    NextRound(block, NwkSKey(), 4);
    assert Rounds(block, NwkSKey(), 5) ==
      Hex(0x0CCE3F86, 0x8D3ADF11, 0xEDF1ED5F, 0xED39ADFC);
  }

  lemma TagBlockTo9()
    ensures Rounds(Hex(0xEADEE5C8, 0xE7B0DF53, 0xF8AD6129, 0xF938D1F9), NwkSKey(), 9) ==
      Hex(0x9AFAED82, 0xD9197F11, 0x1A0D7D13, 0xAC2F4D56)
  {
    var block := Hex(0xEADEE5C8, 0xE7B0DF53, 0xF8AD6129, 0xF938D1F9);
    TagBlockTo5();
    NwkSKeySchedule();
    Tables();
    hide SubByte, MixColumn, Mul, Rounds, RoundKey, NwkSKey;
    NextRound(block, NwkSKey(), 5);
    assert Rounds(block, NwkSKey(), 6) ==
      Hex(0xEFDE4687, 0xC778F649, 0x6E6B61C1, 0xB206C935);
    NextRound(block, NwkSKey(), 6);
    assert Rounds(block, NwkSKey(), 7) ==
      Hex(0x01AEE0A4, 0x8A613175, 0xA6A14817, 0xEFAE1D42);
    NextRound(block, NwkSKey(), 7);
    assert Rounds(block, NwkSKey(), 8) ==
      Hex(0x8A2F2905, 0x37DABE4A, 0x20199E6A, 0x1AF8A534);
    NextRound(block, NwkSKey(), 8);
    assert Rounds(block, NwkSKey(), 9) ==
      Hex(0x9AFAED82, 0xD9197F11, 0x1A0D7D13, 0xAC2F4D56);
  }

  lemma TagBlock()
    ensures Cipher(Hex(0xEADEE5C8, 0xE7B0DF53, 0xF8AD6129, 0xF938D1F9), NwkSKey()) ==
      Hex(0x2B11FF0D, 0x5A43630F, 0x129B6E1C, 0x41EF52F7)
  {
    TagBlockTo9();
    NwkSKeySchedule();
    Tables();
    hide SubByte, MixColumn, Mul, Rounds, RoundKey, NwkSKey, Cipher;
    LastRound(Hex(0xEADEE5C8, 0xE7B0DF53, 0xF8AD6129, 0xF938D1F9), NwkSKey());
  }

  function Device(): Session {
    Keys(NwkSKey(), AppSKey(), 0x49, 0xBE, 0x7D, 0xF1)
  }

  lemma StreamBlockOfFrame()
    ensures HeaderBlock(0x01, Uplink, Device(), CounterWord(2, false), LengthByte(1)) ==
      Hex(0x01000000, 0x0000F17D, 0xBE490200, 0x00000001)
  {
    hide NwkSKey, AppSKey;
  }

  lemma TagBlockOfFrame()
    ensures B0(Uplink, Device(), 2, false, 13) == Hex(0x49000000, 0x0000F17D, 0xBE490200, 0x0000000D)
  {
    hide NwkSKey, AppSKey;
  }

  lemma EncryptedShort(p: seq<bv8>, session: Session, direction: Direction, counter: Word, useNetworkKey: bool)
    requires |p| <= 16
    ensures
      var e, k := Encrypted(p, session, direction, counter, useNetworkKey),
        Aes.Bytes(KeyStreamBlock(session, direction, counter, useNetworkKey, 1));
      |e| == |p| && forall n :: 0 <= n < |p| ==> e[n] == Add(p[n], k[n])
  {
    hide KeyStreamBlock, Add, Aes.Bytes;
    forall n | 0 <= n < |p|
      ensures n / 16 + 1 == 1 && n % 16 == n
    {
    }
  }

  lemma FirstStreamBlock()
    ensures KeyStreamBlock(Device(), Uplink, CounterWord(2, false), false, 1) ==
      Hex(0xE1260B02, 0x4BB2816D, 0x42B75937, 0x02FED706)
  {
    StreamBlockOfFrame();
    StreamBlock();
    hide Cipher, NwkSKey, AppSKey, HeaderBlock, CounterWord, LengthByte, Hex;
  }

  /** The payload "test", encrypted. */
  lemma EncryptedTest()
    ensures Encrypted([0x74, 0x65, 0x73, 0x74], Device(), Uplink, CounterWord(2, false), false) ==
      [0x95, 0x43, 0x78, 0x76]
  {
    FirstStreamBlock();
    StreamBytes();
    var p: seq<bv8> := [0x74, 0x65, 0x73, 0x74];
    hide KeyStreamBlock, Device, CounterWord, Encrypted, Aes.Bytes, Hex;
    EncryptedShort(p, Device(), Uplink, CounterWord(2, false), false);
    var e := Encrypted(p, Device(), Uplink, CounterWord(2, false), false);
    assert e == [e[0], e[1], e[2], e[3]];
  }

  lemma StreamBytes()
    ensures
      var k := Aes.Bytes(Hex(0xE1260B02, 0x4BB2816D, 0x42B75937, 0x02FED706));
      k[0] == 0xE1 && k[1] == 0x26 && k[2] == 0x0B && k[3] == 0x02
  {
  }

  lemma TagOfTwoBlocks(key: Block, m: seq<bv8>)
    requires 16 < |m| < 32
    ensures Rfc4493.Cmac(key, m) ==
      Cipher(Rfc4493.XorBlock(Rfc4493.XorBlock(Aes.BlockAt(Rfc4493.Padded(m[16..]), 0), Rfc4493.Subkey2(key)),
                              Cipher(Rfc4493.XorBlock(Rfc4493.ZERO, Aes.BlockAt(m, 0)), key)), key)
  {
    hide Cipher, Rfc4493.Subkey2, Rfc4493.Padded;
    assert Rfc4493.Chain(key, m, 0) == Rfc4493.ZERO;
    assert Rfc4493.Chain(key, m, 1) == Cipher(Rfc4493.XorBlock(Rfc4493.ZERO, Aes.BlockAt(m, 0)), key);
  }

  /** Its message integrity code. */
  lemma MicOfTest()
    ensures
      var body := [0x40, 0xF1, 0x7D, 0xBE, 0x49, 0x00, 0x02, 0x00, 0x01, 0x95, 0x43, 0x78, 0x76];
      Mic(body, Uplink, Device(), 2, false) == [0x2B, 0x11, 0xFF, 0x0D]
  {
    var body: seq<bv8> := [0x40, 0xF1, 0x7D, 0xBE, 0x49, 0x00, 0x02, 0x00, 0x01, 0x95, 0x43, 0x78, 0x76];
    var m := Aes.Bytes(Hex(0x49000000, 0x0000F17D, 0xBE490200, 0x0000000D)) + body;
    TagBlockOfFrame();
    TagOfTest(m);
    FirstFourOfTag();
    hide Rfc4493.Cmac, B0, Aes.Bytes, FirstFour, Device, Hex;
    DeviceKey();
  }

  lemma DeviceKey()
    ensures Device().nwkSKey == NwkSKey() && Device().appSKey == AppSKey()
  {
  }

  lemma FirstFourOfTag()
    ensures FirstFour(Hex(0x2B11FF0D, 0x5A43630F, 0x129B6E1C, 0x41EF52F7)) == [0x2B, 0x11, 0xFF, 0x0D]
  {
  }

  lemma TagOfTest(m: seq<bv8>)
    requires m == Aes.Bytes(Hex(0x49000000, 0x0000F17D, 0xBE490200, 0x0000000D)) +
      [0x40, 0xF1, 0x7D, 0xBE, 0x49, 0x00, 0x02, 0x00, 0x01, 0x95, 0x43, 0x78, 0x76]
    ensures Rfc4493.Cmac(NwkSKey(), m) ==
      Hex(0x2B11FF0D, 0x5A43630F, 0x129B6E1C, 0x41EF52F7)
  {
    assert |m| == 29 && m[..16] == Aes.Bytes(Hex(0x49000000, 0x0000F17D, 0xBE490200, 0x0000000D));
    PiecesOfTest(m);
    NetworkSubkeys();
    FirstBlock();
    TagBlock();
    TagOfTwoBlocks(NwkSKey(), m);
    XorsOfTest();
    hide Cipher, NwkSKey, Rfc4493.Subkey1, Rfc4493.Subkey2, Rfc4493.Padded, Rfc4493.XorBlock, Rfc4493.Cmac, Hex;
    hide Aes.Bytes, Aes.BlockAt;
  }

  lemma XorsOfTest()
    ensures Rfc4493.XorBlock(Rfc4493.ZERO, Hex(0x49000000, 0x0000F17D, 0xBE490200, 0x0000000D)) ==
      Hex(0x49000000, 0x0000F17D, 0xBE490200, 0x0000000D)
    ensures Rfc4493.XorBlock(Rfc4493.XorBlock(Hex(0x40F17DBE, 0x49000200, 0x01954378, 0x76800000),
                                              Hex(0x671BDC1F, 0x45F57A80, 0xB854375C, 0xD80022DE)),
                             Hex(0xCD344469, 0xEB45A7D3, 0x416C150D, 0x57B8F327)) ==
      Hex(0xEADEE5C8, 0xE7B0DF53, 0xF8AD6129, 0xF938D1F9)
  {
  }

  lemma PiecesOfTest(m: seq<bv8>)
    requires m == Aes.Bytes(Hex(0x49000000, 0x0000F17D, 0xBE490200, 0x0000000D)) +
      [0x40, 0xF1, 0x7D, 0xBE, 0x49, 0x00, 0x02, 0x00, 0x01, 0x95, 0x43, 0x78, 0x76]
    ensures |m| == 29 && Aes.BlockAt(m, 0) == Hex(0x49000000, 0x0000F17D, 0xBE490200, 0x0000000D)
    ensures Aes.BlockAt(Rfc4493.Padded(m[16..]), 0) == Hex(0x40F17DBE, 0x49000200, 0x01954378, 0x76800000)
  {
    assert m[16..] == [0x40, 0xF1, 0x7D, 0xBE, 0x49, 0x00, 0x02, 0x00, 0x01, 0x95, 0x43, 0x78, 0x76];
  }

  /** The frame with the payload "test" on port 1 and counter 2. */
  lemma KnownFrame()
    ensures LorawanFrame.Frame([0x74, 0x65, 0x73, 0x74], 1, Device(), 2, false, Uplink) ==
      [0x40, 0xF1, 0x7D, 0xBE, 0x49, 0x00, 0x02, 0x00, 0x01, 0x95, 0x43, 0x78, 0x76, 0x2B, 0x11, 0xFF, 0x0D]
  {
    EncryptedTest();
    MicOfTest();
    hide Encrypted, Mic, NwkSKey, AppSKey, CounterWord;
    CounterBytes();
    hide CounterByte;
    var p: seq<bv8> := [0x74, 0x65, 0x73, 0x74];
    assert LorawanFrame.FrameBody(p, 1, Device(), 2, false, Uplink) ==
      [0x40, 0xF1, 0x7D, 0xBE, 0x49, 0x00, 0x02, 0x00, 0x01, 0x95, 0x43, 0x78, 0x76];
  }

  lemma CounterBytes()
    ensures CounterByte(2, 0) == 0x02 && CounterByte(2, 8) == 0x00
  {
  }
}
