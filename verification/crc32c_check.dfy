/** The check value of CRC-32C: the public interface on the ASCII digits "123456789". */
module Crc32cCheck {
  import opened Bitwise
  import opened Crc32c
  import opened WordBits

  const CHECK: seq<Byte> := [0x31, 0x32, 0x33, 0x34, 0x35, 0x36, 0x37, 0x38, 0x39]

  // ---- the register on bit vectors ---------------------------------------------------------------

  function StepBv(c: bv32): bv32 {
    if Low(c) == 1 then XorBv(0x82F6_3B78, Upper(c)) else Upper(c)
  }

  lemma StepIs(c: bv32)
    ensures BitStep(Value(c)) == Value(StepBv(c))
  {
    VectorsRead();
    assert ReadsAt(Value, Upper, Low, c);
    XorVector(0x82F6_3B78, Upper(c));
    assert Value(0x82F6_3B78) == POLY;
    Digits(Value(c), Value(Upper(c)), Low(c));
  }

  lemma Digits(x: nat, h: nat, i: nat)
    requires x == 2 * h + i && i <= 1
    ensures x % 2 == i && x / 2 == h
  {}

  function StepsBv(n: nat, c: bv32): bv32 {
    if n == 0 then c else StepsBv(n - 1, StepBv(c))
  }

  lemma {:induction false} StepsAre(n: nat, c: bv32)
    ensures Bits(n, Value(c)) == Value(StepsBv(n, c))
    decreases n
  {
    if n > 0 {
      StepIs(c);
      StepsAre(n - 1, StepBv(c));
    }
  }

  /** Eight steps, one after another. */
  predicate Eight(s0: bv32, s1: bv32, s2: bv32, s3: bv32, s4: bv32, s5: bv32, s6: bv32, s7: bv32, s8: bv32) {
    && s1 == StepBv(s0) && s2 == StepBv(s1) && s3 == StepBv(s2) && s4 == StepBv(s3)
    && s5 == StepBv(s4) && s6 == StepBv(s5) && s7 == StepBv(s6) && s8 == StepBv(s7)
  }

  lemma EightSteps(s0: bv32, s1: bv32, s2: bv32, s3: bv32, s4: bv32, s5: bv32, s6: bv32, s7: bv32, s8: bv32)
    requires Eight(s0, s1, s2, s3, s4, s5, s6, s7, s8)
    ensures StepsBv(8, s0) == s8
  {
    assert StepsBv(0, s8) == s8;
    assert StepsBv(2, s6) == s8;
    assert StepsBv(4, s4) == s8;
    assert StepsBv(6, s2) == s8;
  }

  lemma ByteIs(r: bv32, b: bv32, s: bv32)
    requires Value(b) < 256 && StepsBv(8, XorBv(r, b)) == s
    ensures CrcByte(Value(r), Value(b)) == Value(s)
  {
    XorVector(r, b);
    StepsAre(8, XorBv(r, b));
  }

  // ---- the nine bytes ------------------------------------------------------------------------------

  predicate RegisterFollows(rs: seq<nat>, data: seq<Byte>, i: nat) {
    i < |data| && i + 1 < |rs| && rs[i + 1] == CrcByte(rs[i], data[i])
  }

  ghost predicate AreRegisters(rs: seq<nat>, data: seq<Byte>) {
    |rs| == |data| + 1 && forall i :: 0 <= i < |data| ==> RegisterFollows(rs, data, i)
  }

  /** One byte: the register takes it in and makes eight steps. */
  lemma NextRegister(rs: seq<nat>, data: seq<Byte>, i: nat, b: bv32, r: bv32, s0: bv32,
                     s1: bv32, s2: bv32, s3: bv32, s4: bv32, s5: bv32, s6: bv32, s7: bv32, s8: bv32)
    requires AreRegisters(rs, data) && i < |data| && rs[i] == r as nat && data[i] == b as nat
    requires s0 == XorBv(r, b) && Eight(s0, s1, s2, s3, s4, s5, s6, s7, s8)
    ensures rs[i + 1] == s8 as nat
  {
    assert RegisterFollows(rs, data, i);
    EightSteps(s0, s1, s2, s3, s4, s5, s6, s7, s8);
    ByteIs(r, b, s8);
  }

  /** The register after each prefix. */
  lemma Registers(crc: nat, data: seq<Byte>) returns (rs: seq<nat>)
    ensures AreRegisters(rs, data) && rs[0] == crc && rs[|data|] == Crc(crc, data)
  {
    rs := seq(|data| + 1, i requires 0 <= i <= |data| => Crc(crc, data[..i]));
    forall i | 0 <= i < |data| ensures RegisterFollows(rs, data, i) {
      assert data[..i + 1] == data[..i] + [data[i]];
      CrcSnoc(crc, data[..i], data[i]);
    }
    assert data[..0] == [] && data[..|data|] == data;
  }

  lemma Registers0(rs: seq<nat>, data: seq<Byte>)
    requires AreRegisters(rs, data) && |data| == 9 && data[0] == 0x31 && data[1] == 0x32 && data[2] == 0x33 && rs[0] == 0xffffffff
    ensures rs[3] == 0xef84d04d
  {
    NextRegister(rs, data, 0, 0x31, 0xffffffff, 0xffffffce,
                 0x7fffffe7, 0xbd09c48b, 0xdc72d93d, 0xeccf57e6, 0x7667abf3, 0xb9c5ee81, 0xde14cc38, 0x6f0a661c);
    NextRegister(rs, data, 1, 0x32, 0x6f0a661c, 0x6f0a662e,
                 0x37853317, 0x9934a2f3, 0xce6c6a01, 0xe5c00e78, 0x72e0073c, 0x3970039e, 0x1cb801cf, 0x8caa3b9f);
    NextRegister(rs, data, 2, 0x33, 0x8caa3b9f, 0x8caa3bac,
                 0x46551dd6, 0x232a8eeb, 0x93637c0d, 0xcb47857e, 0x65a3c2bf, 0xb027da27, 0xdae5d66b, 0xef84d04d);
  }

  lemma Registers3(rs: seq<nat>, data: seq<Byte>)
    requires AreRegisters(rs, data) && |data| == 9 && data[3] == 0x34 && data[4] == 0x35 && data[5] == 0x36 && rs[3] == 0xef84d04d
    ensures rs[6] == 0xbeca8e79
  {
    NextRegister(rs, data, 3, 0x34, 0xef84d04d, 0xef84d079,
                 0xf5345344, 0x7a9a29a2, 0x3d4d14d1, 0x9c50b110, 0x4e285888, 0x27142c44, 0x138a1622, 0x09c50b11);
    NextRegister(rs, data, 4, 0x35, 0x09c50b11, 0x09c50b24,
                 0x04e28592, 0x027142c9, 0x83ce9a1c, 0x41e74d0e, 0x20f3a687, 0x928fe83b, 0xcbb1cf65, 0xe72edcca);
    NextRegister(rs, data, 5, 0x36, 0xe72edcca, 0xe72edcfc,
                 0x73976e7e, 0x39cbb73f, 0x9e13e0e7, 0xcdffcb0b, 0xe409defd, 0xf0f2d406, 0x78796a03, 0xbeca8e79);
  }

  lemma Registers6(rs: seq<nat>, data: seq<Byte>)
    requires AreRegisters(rs, data) && |data| == 9 && data[6] == 0x37 && data[7] == 0x38 && data[8] == 0x39 && rs[6] == 0xbeca8e79
    ensures rs[9] == 0x1cf96d7c
  {
    NextRegister(rs, data, 6, 0x37, 0xbeca8e79, 0xbeca8e4e,
                 0x5f654727, 0xad4498eb, 0xd454770d, 0xe8dc00fe, 0x746e007f, 0xb8c13b47, 0xde96a6db, 0xedbd6815);
    NextRegister(rs, data, 7, 0x38, 0xedbd6815, 0xedbd682d,
                 0xf4288f6e, 0x7a1447b7, 0xbffc18a3, 0xdd083729, 0xec7220ec, 0x76391076, 0x3b1c883b, 0x9f787f65);
    NextRegister(rs, data, 8, 0x39, 0x9f787f65, 0x9f787f5c,
                 0x4fbc3fae, 0x27de1fd7, 0x91193493, 0xca7aa131, 0xe7cb6be0, 0x73e5b5f0, 0x39f2daf8, 0x1cf96d7c);
  }

  /** The check value of the standard, from the public interface. */
  lemma CheckValue()
    ensures Update(0, CHECK) == 0xE306_9283
  {
    var rs := Registers(0xFFFF_FFFF, CHECK);
    Registers0(rs, CHECK);
    Registers3(rs, CHECK);
    Registers6(rs, CHECK);
  }
}
