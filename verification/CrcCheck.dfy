/** The published check value of CRC-32/ISO-HDLC, computed. */
module CrcCheck {
  import opened Bytes
  import opened Crc

  function Four(c: bv32): bv32 { BitStep(BitStep(BitStep(BitStep(c)))) }

  lemma EightSteps(c: bv32)
    ensures BitSteps(c, 8) == Four(Four(c))
  {
    hide BitStep;
    assert BitSteps(c, 8) == BitSteps(Four(c), 4);
    assert BitSteps(Four(c), 4) == Four(Four(c));
  }

  /** One byte of a message, half a byte at a time. */
  lemma OneByte(m: seq<byte>, k: nat, s: bv32, b: bv32, half: bv32, next: bv32)
    requires k < |m| && m[k] as bv32 == b && Four(s ^ b) == half && Four(half) == next
    ensures Raw(s, m[k..]) == Raw(next, m[k + 1..])
  {
    hide Four, ByteStep, BitSteps;
    ByteStepIsSerial(s, m[k]);
    EightSteps(Xor(s, m[k] as bv32));
    assert m[k..][1..] == m[k + 1..];
  }

  function Digits(): seq<byte> { [0x31, 0x32, 0x33, 0x34, 0x35, 0x36, 0x37, 0x38, 0x39] }

  lemma OneToThree()
    ensures Raw(0xffff_ffff, Digits()[0..]) == Raw(0x77b7_9c2d, Digits()[3..])
  {
    hide Raw;
    var m := Digits();
    OneByte(m, 0, 0xffff_ffff, 0x31, 0xaff5_1d84, 0x7c23_1048);
    OneByte(m, 1, 0x7c23_1048, 0x32, 0xd114_92ef, 0xb0ac_bb32);
    OneByte(m, 2, 0xb0ac_bb32, 0x33, 0x16bd_dbd4, 0x77b7_9c2d);
  }

  lemma FourToSix()
    ensures Raw(0x77b7_9c2d, Digits()[3..]) == Raw(0xf68d_2c9e, Digits()[6..])
  {
    hide Raw;
    var m := Digits();
    OneByte(m, 3, 0x77b7_9c2d, 0x34, 0xf774_ea85, 0x641c_1f5c);
    OneByte(m, 4, 0x641c_1f5c, 0x35, 0xf64e_52b2, 0x340a_c5e3);
    OneByte(m, 5, 0x340a_c5e3, 0x36, 0x682b_fda9, 0xf68d_2c9e);
  }

  lemma SevenToNine()
    ensures Raw(0xf68d_2c9e, Digits()[6..]) == Raw(0x340b_c6d9, Digits()[9..])
  {
    hide Raw;
    var m := Digits();
    OneByte(m, 6, 0xf68d_2c9e, 0x37, 0xff67_418e, 0xaffc_9660);
    OneByte(m, 7, 0xaffc_9660, 0x38, 0xe747_4a45, 0x651f_2550);
    OneByte(m, 8, 0x651f_2550, 0x39, 0xf65e_6112, 0x340b_c6d9);
  }

  /** The CRC of the digits 1 to 9 in ASCII is 0xCBF43926, and that of nothing is 0. */
  lemma CheckValue()
    ensures Checksum([0x31, 0x32, 0x33, 0x34, 0x35, 0x36, 0x37, 0x38, 0x39]) == 0xCBF4_3926
    ensures Checksum([]) == 0
  {
    hide ByteStep;
    OneToThree();
    FourToSix();
    SevenToNine();
    assert Digits()[0..] == Digits() && Digits()[9..] == [];
  }
}
