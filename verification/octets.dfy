// Big-endian fields and four-octet alignment, as the STUN and PCP codecs share them.
module Octets {
  import opened Net

  function U16At(b: seq<u8>, i: nat): u16
    requires i + 2 <= |b|
  {
    (b[i] as int) * 256 + b[i + 1]
  }

  function U16Bytes(n: u16): (b: seq<u8>)
    ensures |b| == 2 && (b[0] as int) * 256 + b[1] == n
  {
    [n / 256, n % 256]
  }

  function U32At(b: seq<u8>, i: nat): u32
    requires i + 4 <= |b|
  {
    (U16At(b, i) as int) * 0x1_0000 + U16At(b, i + 2)
  }

  function U32Bytes(n: u32): (b: seq<u8>)
    ensures |b| == 4
  {
    U16Bytes(n / 0x1_0000) + U16Bytes(n % 0x1_0000)
  }

  // The next multiple of four.
  function Pad4(n: nat): (r: nat)
    ensures n <= r < n + 4 && r % 4 == 0
  {
    (n + 3) / 4 * 4
  }

  function Zeros(n: nat): (z: seq<u8>)
    ensures |z| == n
  {
    if n == 0 then [] else [0] + Zeros(n - 1)
  }
}
