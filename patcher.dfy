/**
 * The byte patcher of main.cpp: `replaceLastFourBytes` and the two integer
 * conversions around it (the little-endian byte image of a `uint32_t` and the
 * `uint32_t(i)` truncation of a 64-bit candidate).
 */
module Patcher {
  import opened Crc

  const U32_MODULUS: nat := 0x1_0000_0000

  /**
   * The in-memory bytes of a `uint32_t` on a little-endian host, lowest byte
   * first: what `replaceLastFourBytes` copies when it reads the value's own
   * storage as four bytes.
   */
  function LittleEndian(value: bv32): (bytes: seq<Byte>)
    ensures |bytes| == 4
    ensures FromLittleEndian(bytes) == value
  {
    [(value & 0xFF) as Byte, ((value >> 8) & 0xFF) as Byte,
     ((value >> 16) & 0xFF) as Byte, ((value >> 24) & 0xFF) as Byte]
  }

  /** Reads four little-endian bytes back as a `uint32_t`. */
  function FromLittleEndian(bytes: seq<Byte>): bv32
    requires |bytes| == 4
  {
    (bytes[0] as bv32) | ((bytes[1] as bv32) << 8) | ((bytes[2] as bv32) << 16) | ((bytes[3] as bv32) << 24)
  }

  /** Every four-byte string is the image of exactly one value. */
  lemma LittleEndianOnto(bytes: seq<Byte>)
    requires |bytes| == 4
    ensures LittleEndian(FromLittleEndian(bytes)) == bytes
  {
    var image := LittleEndian(FromLittleEndian(bytes));
    assert forall k :: 0 <= k < 4 ==> image[k] == bytes[k];
  }

  /** `uint32_t(i)`: the low 32 bits of a 64-bit candidate. */
  function Truncate32(i: nat): bv32
  {
    (i % U32_MODULUS) as bv32
  }

  /**
   * The truncation wraps: candidates that differ by a multiple of 2^32 write
   * the same four bytes.
   */
  lemma Truncate32Wraps(i: nat, k: nat)
    ensures Truncate32(i + k * U32_MODULUS) == Truncate32(i)
  {
    assert (i + k * U32_MODULUS) % U32_MODULUS == i % U32_MODULUS;
  }

  /**
   * `replaceLastFourBytes`: overwrites the last four bytes of `data` with the
   * little-endian image of `value`; the caller guarantees at least four bytes.
   */
  method ReplaceLastFourBytes(data: array<Byte>, value: bv32)
    requires data.Length >= 4
    modifies data
    ensures data[..] == old(data[..data.Length - 4]) + LittleEndian(value)
  {
    var image := LittleEndian(value);
    var start := data.Length - 4;
    for k := 0 to 4
      invariant data[..start] == old(data[..start])
      invariant data[start..start + k] == image[..k]
    {
      data[start + k] := image[k];
    }
    assert data[..] == data[..start] + data[start..start + 4];
  }
}
