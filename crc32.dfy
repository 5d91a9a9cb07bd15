/** CRC-32 as `crc32::checksum_ieee` computes it: the frame check sequence
    polynomial of clause 3.2.9 of IEEE 802.3, processed least significant
    bit first (the reflected polynomial 0xEDB88320), register preset to all
    ones and complemented at the end. The crate uses a lookup table; this is
    the bit-at-a-time division the table is built from. */
module Crc32 {
  import opened Bytes

  const POLY: bv32 := 0xEDB8_8320

  /** One bit of polynomial division. */
  function Bit(c: bv32): bv32 {
    if c & 1 == 1 then (c >> 1) ^ POLY else c >> 1
  }

  /** The eight divisions that consume one input byte. */
  function ByteStep(c: bv32, b: byte): bv32 {
    Bit(Bit(Bit(Bit(Bit(Bit(Bit(Bit(c ^ (b as bv32)))))))))
  }

  function Update(c: bv32, data: seq<byte>): bv32
    decreases |data|
  {
    if data == [] then c else Update(ByteStep(c, data[0]), data[1..])
  }

  function Checksum(data: seq<byte>): u32 {
    (Update(0xFFFF_FFFF, data) ^ 0xFFFF_FFFF) as int
  }

  /** The standard check value of this CRC: the CRC-32 of the ASCII digits
      "123456789" is 0xCBF43926. Each assertion is one step of the
      division above. */
  lemma CheckValue()
    ensures Checksum([0x31, 0x32, 0x33, 0x34, 0x35, 0x36, 0x37, 0x38, 0x39]) == 0xCBF4_3926
  {
    // byte 31
    assert Bit(0xFFFF_FFCE) == 0x7FFF_FFE7;
    assert Bit(0x7FFF_FFE7) == 0xD247_7CD3;
    assert Bit(0xD247_7CD3) == 0x849B_3D49;
    assert Bit(0x849B_3D49) == 0xAFF5_1D84;
    assert Bit(0xAFF5_1D84) == 0x57FA_8EC2;
    assert Bit(0x57FA_8EC2) == 0x2BFD_4761;
    assert Bit(0x2BFD_4761) == 0xF846_2090;
    assert Bit(0xF846_2090) == 0x7C23_1048;
    assert ByteStep(0xFFFF_FFFF, 0x31) == 0x7C23_1048;
    // byte 32
    assert Bit(0x7C23_107A) == 0x3E11_883D;
    assert Bit(0x3E11_883D) == 0xF2B0_473E;
    assert Bit(0xF2B0_473E) == 0x7958_239F;
    assert Bit(0x7958_239F) == 0xD114_92EF;
    assert Bit(0xD114_92EF) == 0x8532_CA57;
    assert Bit(0x8532_CA57) == 0xAF21_E60B;
    assert Bit(0xAF21_E60B) == 0xBA28_7025;
    assert Bit(0xBA28_7025) == 0xB0AC_BB32;
    assert ByteStep(0x7C23_1048, 0x32) == 0xB0AC_BB32;
    // byte 33
    assert Bit(0xB0AC_BB01) == 0xB5EE_DEA0;
    assert Bit(0xB5EE_DEA0) == 0x5AF7_6F50;
    assert Bit(0x5AF7_6F50) == 0x2D7B_B7A8;
    assert Bit(0x2D7B_B7A8) == 0x16BD_DBD4;
    assert Bit(0x16BD_DBD4) == 0x0B5E_EDEA;
    assert Bit(0x0B5E_EDEA) == 0x05AF_76F5;
    assert Bit(0x05AF_76F5) == 0xEF6F_385A;
    assert Bit(0xEF6F_385A) == 0x77B7_9C2D;
    assert ByteStep(0xB0AC_BB32, 0x33) == 0x77B7_9C2D;
    // byte 34
    assert Bit(0x77B7_9C19) == 0xD663_4D2C;
    assert Bit(0xD663_4D2C) == 0x6B31_A696;
    assert Bit(0x6B31_A696) == 0x3598_D34B;
    assert Bit(0x3598_D34B) == 0xF774_EA85;
    assert Bit(0xF774_EA85) == 0x9602_F662;
    assert Bit(0x9602_F662) == 0x4B01_7B31;
    assert Bit(0x4B01_7B31) == 0xC838_3EB8;
    assert Bit(0xC838_3EB8) == 0x641C_1F5C;
    assert ByteStep(0x77B7_9C2D, 0x34) == 0x641C_1F5C;
    // byte 35
    assert Bit(0x641C_1F69) == 0xDFB6_8C94;
    assert Bit(0xDFB6_8C94) == 0x6FDB_464A;
    assert Bit(0x6FDB_464A) == 0x37ED_A325;
    assert Bit(0x37ED_A325) == 0xF64E_52B2;
    assert Bit(0xF64E_52B2) == 0x7B27_2959;
    assert Bit(0x7B27_2959) == 0xD02B_178C;
    assert Bit(0xD02B_178C) == 0x6815_8BC6;
    assert Bit(0x6815_8BC6) == 0x340A_C5E3;
    assert ByteStep(0x641C_1F5C, 0x35) == 0x340A_C5E3;
    // byte 36
    assert Bit(0x340A_C5D5) == 0xF7BD_E1CA;
    assert Bit(0xF7BD_E1CA) == 0x7BDE_F0E5;
    assert Bit(0x7BDE_F0E5) == 0xD057_FB52;
    assert Bit(0xD057_FB52) == 0x682B_FDA9;
    assert Bit(0x682B_FDA9) == 0xD9AD_7DF4;
    assert Bit(0xD9AD_7DF4) == 0x6CD6_BEFA;
    assert Bit(0x6CD6_BEFA) == 0x366B_5F7D;
    assert Bit(0x366B_5F7D) == 0xF68D_2C9E;
    assert ByteStep(0x340A_C5E3, 0x36) == 0xF68D_2C9E;
    // byte 37
    assert Bit(0xF68D_2CA9) == 0x96FE_1574;
    assert Bit(0x96FE_1574) == 0x4B7F_0ABA;
    assert Bit(0x4B7F_0ABA) == 0x25BF_855D;
    assert Bit(0x25BF_855D) == 0xFF67_418E;
    assert Bit(0xFF67_418E) == 0x7FB3_A0C7;
    assert Bit(0x7FB3_A0C7) == 0xD261_5343;
    assert Bit(0xD261_5343) == 0x8488_2A81;
    assert Bit(0x8488_2A81) == 0xAFFC_9660;
    assert ByteStep(0xF68D_2C9E, 0x37) == 0xAFFC_9660;
    // byte 38
    assert Bit(0xAFFC_9658) == 0x57FE_4B2C;
    assert Bit(0x57FE_4B2C) == 0x2BFF_2596;
    assert Bit(0x2BFF_2596) == 0x15FF_92CB;
    assert Bit(0x15FF_92CB) == 0xE747_4A45;
    assert Bit(0xE747_4A45) == 0x9E1B_2602;
    assert Bit(0x9E1B_2602) == 0x4F0D_9301;
    assert Bit(0x4F0D_9301) == 0xCA3E_4AA0;
    assert Bit(0xCA3E_4AA0) == 0x651F_2550;
    assert ByteStep(0xAFFC_9660, 0x38) == 0x651F_2550;
    // byte 39
    assert Bit(0x651F_2569) == 0xDF37_1194;
    assert Bit(0xDF37_1194) == 0x6F9B_88CA;
    assert Bit(0x6F9B_88CA) == 0x37CD_C465;
    assert Bit(0x37CD_C465) == 0xF65E_6112;
    assert Bit(0xF65E_6112) == 0x7B2F_3089;
    assert Bit(0x7B2F_3089) == 0xD02F_1B64;
    assert Bit(0xD02F_1B64) == 0x6817_8DB2;
    assert Bit(0x6817_8DB2) == 0x340B_C6D9;
    assert ByteStep(0x651F_2550, 0x39) == 0x340B_C6D9;
    assert Update(0x651F_2550, [0x39]) == 0x340B_C6D9;
    assert Update(0xAFFC_9660, [0x38, 0x39]) == 0x340B_C6D9;
    assert Update(0xF68D_2C9E, [0x37, 0x38, 0x39]) == 0x340B_C6D9;
    assert Update(0x340A_C5E3, [0x36, 0x37, 0x38, 0x39]) == 0x340B_C6D9;
    assert Update(0x641C_1F5C, [0x35, 0x36, 0x37, 0x38, 0x39]) == 0x340B_C6D9;
    assert Update(0x77B7_9C2D, [0x34, 0x35, 0x36, 0x37, 0x38, 0x39]) == 0x340B_C6D9;
    assert Update(0xB0AC_BB32, [0x33, 0x34, 0x35, 0x36, 0x37, 0x38, 0x39]) == 0x340B_C6D9;
    assert Update(0x7C23_1048, [0x32, 0x33, 0x34, 0x35, 0x36, 0x37, 0x38, 0x39]) == 0x340B_C6D9;
    assert Update(0xFFFF_FFFF, [0x31, 0x32, 0x33, 0x34, 0x35, 0x36, 0x37, 0x38, 0x39]) == 0x340B_C6D9;
  }
}
