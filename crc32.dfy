/**
 * The CRC-32 engine the forger calls as `crc32(bytes, size, seed)`.
 *
 * The routine itself lives in CRC32.hpp, which is not part of this model; what
 * is defined here is the standard reflected CRC-32 of IEEE 802.3, clause 3.2.9
 * (Frame Check Sequence), bit by bit with the polynomial 0xEDB88320, under
 * the calling convention that main.cpp:102-103 relies on: the seed is the raw
 * running register (all ones by default) and the returned checksum is the
 * complement of the register after the last byte.
 */
module Crc {

  type Byte = bv8

  /** Reflected form of the IEEE 802.3 generator polynomial. */
  const POLYNOMIAL: bv32 := 0xEDB8_8320

  /** Register value a fresh computation starts from. */
  const INITIAL: bv32 := 0xFFFF_FFFF

  /** One bit of polynomial division on the reflected register. */
  function ShiftRound(register: bv32): bv32
  {
    if register & 1 == 1 then (register >> 1) ^ POLYNOMIAL else register >> 1
  }

  function ShiftRounds(register: bv32, n: nat): bv32
    decreases n
  {
    if n == 0 then register else ShiftRounds(ShiftRound(register), n - 1)
  }

  /** Feeds one byte into the running register: eight rounds of division. */
  function Step(register: bv32, b: Byte): bv32
  {
    ShiftRounds(register ^ b as bv32, 8)
  }

  /** The running register after feeding `data`, starting from `register`. */
  function Register(register: bv32, data: seq<Byte>): bv32
    decreases data
  {
    if data == [] then register else Register(Step(register, data[0]), data[1..])
  }

  /** `crc32(data, size, seed)`: the complement of the register after `data`. */
  function Crc32(data: seq<Byte>, seed: bv32 := INITIAL): bv32
  {
    !Register(seed, data)
  }

  /** Feeding `a + b` is feeding `a`, then `b` from the register `a` left. */
  lemma {:induction false} RegisterAppend(register: bv32, a: seq<Byte>, b: seq<Byte>)
    ensures Register(register, a + b) == Register(Register(register, a), b)
    decreases a
  {
    if a != [] {
      assert (a + b)[0] == a[0];
      assert (a + b)[1..] == a[1..] + b;
      RegisterAppend(Step(register, a[0]), a[1..], b);
    } else {
      assert a + b == b;
    }
  }

  /**
   * The continuation law main.cpp:103 depends on: resuming from the
   * complement of the checksum of `a` gives the checksum of `a + b`.
   */
  lemma {:induction false} Continuation(a: seq<Byte>, b: seq<Byte>, seed: bv32)
    ensures Crc32(b, !Crc32(a, seed)) == Crc32(a + b, seed)
  {
    var resumed := Register(seed, a);
    ComplementOfChecksum(a, seed);
    assert Crc32(b, !Crc32(a, seed)) == Crc32(b, resumed);
    RegisterAppend(seed, a, b);
  }

  /** Complementing a checksum gives back the running register it came from. */
  lemma ComplementOfChecksum(data: seq<Byte>, seed: bv32)
    ensures !Crc32(data, seed) == Register(seed, data)
  {
  }

  /**
   * The published check value of CRC-32/IEEE: the checksum of the ASCII
   * string "123456789" is 0xCBF43926, traced through the register after each
   * byte.
   */
  lemma CheckValue()
    ensures Crc32([0x31, 0x32, 0x33, 0x34, 0x35, 0x36, 0x37, 0x38, 0x39]) == 0xCBF4_3926
  {
    var s: seq<Byte> := [0x31, 0x32, 0x33, 0x34, 0x35, 0x36, 0x37, 0x38, 0x39];
    assert s[9..] == [];
    assert s[8..][1..] == s[9..];
    assert Step(0x651F_2550, s[8]) == 0x340B_C6D9;
    assert Register(0x651F_2550, s[8..]) == 0x340B_C6D9;
    assert s[7..][1..] == s[8..];
    assert Step(0xAFFC_9660, s[7]) == 0x651F_2550;
    assert Register(0xAFFC_9660, s[7..]) == 0x340B_C6D9;
    assert s[6..][1..] == s[7..];
    assert Step(0xF68D_2C9E, s[6]) == 0xAFFC_9660;
    assert Register(0xF68D_2C9E, s[6..]) == 0x340B_C6D9;
    assert s[5..][1..] == s[6..];
    assert Step(0x340A_C5E3, s[5]) == 0xF68D_2C9E;
    assert Register(0x340A_C5E3, s[5..]) == 0x340B_C6D9;
    assert s[4..][1..] == s[5..];
    assert Step(0x641C_1F5C, s[4]) == 0x340A_C5E3;
    assert Register(0x641C_1F5C, s[4..]) == 0x340B_C6D9;
    assert s[3..][1..] == s[4..];
    assert Step(0x77B7_9C2D, s[3]) == 0x641C_1F5C;
    assert Register(0x77B7_9C2D, s[3..]) == 0x340B_C6D9;
    assert s[2..][1..] == s[3..];
    assert Step(0xB0AC_BB32, s[2]) == 0x77B7_9C2D;
    assert Register(0xB0AC_BB32, s[2..]) == 0x340B_C6D9;
    assert s[1..][1..] == s[2..];
    assert Step(0x7C23_1048, s[1]) == 0xB0AC_BB32;
    assert Register(0x7C23_1048, s[1..]) == 0x340B_C6D9;
    assert s[0..][1..] == s[1..];
    assert Step(0xFFFF_FFFF, s[0]) == 0x7C23_1048;
    assert Register(0xFFFF_FFFF, s[0..]) == 0x340B_C6D9;
  }
}
