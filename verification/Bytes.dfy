// Octets, the fixed-width integers of the host program, and their little-endian layout.

module Bytes {

  type byte = x: int | 0 <= x < 0x100
  type uint16 = x: int | 0 <= x < 0x1_0000
  type uint32 = x: int | 0 <= x < 0x1_0000_0000

  datatype Option<+T> = None | Some(value: T)

  /** Truncation to 32 bits, as an unsigned assignment does it. */
  function ToUint32(x: int): (r: uint32)
    ensures x >= 0 ==> r <= x
    ensures (x - r) % 0x1_0000_0000 == 0
  {
    x % 0x1_0000_0000
  }

  lemma ToUint32Fits(x: uint32)
    ensures ToUint32(x) == x
    ensures ToUint32(x - 0x1_0000_0000) == x
  {}

  /** `static_cast<int>` of an unsigned 32-bit value. */
  function AsInt32(x: uint32): (r: int)
    ensures -0x8000_0000 <= r < 0x8000_0000 && (r - x) % 0x1_0000_0000 == 0
  {
    if x < 0x8000_0000 then x else x - 0x1_0000_0000
  }

  function LE16(x: uint16): (r: seq<byte>)
    ensures |r| == 2 && r[0] as int + 0x100 * (r[1] as int) == x
  {
    [x % 0x100, x / 0x100]
  }

  function FromLE16(lo: byte, hi: byte): uint16 {
    lo + 0x100 * hi
  }

  function LE32(x: uint32): (r: seq<byte>)
    ensures |r| == 4
    ensures r[0] as int + 0x100 * (r[1] as int) + 0x1_0000 * (r[2] as int) + 0x100_0000 * (r[3] as int) == x
  {
    assert x / 0x1_0000 == x / 0x100 / 0x100 && x / 0x100_0000 == x / 0x1_0000 / 0x100;
    [x % 0x100, x / 0x100 % 0x100, x / 0x1_0000 % 0x100, x / 0x100_0000]
  }

  function FromLE32(b0: byte, b1: byte, b2: byte, b3: byte): uint32 {
    b0 + 0x100 * b1 + 0x1_0000 * b2 + 0x100_0000 * b3
  }

  lemma LE16RoundTrip(x: uint16)
    ensures FromLE16(LE16(x)[0], LE16(x)[1]) == x
  {}

  lemma LE32RoundTrip(x: uint32)
    ensures var b := LE32(x); FromLE32(b[0], b[1], b[2], b[3]) == x
  {
    assert x / 0x1_0000 == x / 0x100 / 0x100 && x / 0x100_0000 == x / 0x1_0000 / 0x100;
  }

  /** The sixteen-bit length that buildFrame takes of a payload, and the bytes it copies. */
  function Truncated(payload: seq<byte>): (r: seq<byte>)
    ensures |r| <= 0xFFFF
  {
    payload[..|payload| % 0x1_0000]
  }

  /** The concatenation of a list of byte strings. */
  function Concat(parts: seq<seq<byte>>): seq<byte> {
    if parts == [] then [] else parts[0] + Concat(parts[1..])
  }
}
