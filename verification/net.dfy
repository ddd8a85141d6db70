// Machine integers, addresses and the two carriers every other module shares.
module Net {
  type u8 = x: int | 0 <= x < 0x100
  type u16 = x: int | 0 <= x < 0x1_0000
  type u32 = x: int | 0 <= x < 0x1_0000_0000
  type u64 = x: int | 0 <= x < 0x1_0000_0000_0000_0000

  const U16_MAX: u16 := 0xFFFF
  const U32_MAX: u32 := 0xFFFF_FFFF
  const U64_MAX: u64 := 0xFFFF_FFFF_FFFF_FFFF

  datatype Ipv4 = Ipv4(a: u8, b: u8, c: u8, d: u8)

  const UNSPECIFIED: Ipv4 := Ipv4(0, 0, 0, 0)

  // An address and port, as a NAT reports it or a socket binds it.
  datatype Endpoint = Endpoint(ip: Ipv4, port: u16)

  datatype Option<+T> = None | Some(value: T)

  datatype Result<+T, +E> = Ok(value: T) | Err(error: E)

  function Min(x: int, y: int): int { if x <= y then x else y }

  function Max(x: int, y: int): int { if x <= y then y else x }

  // The saturating u64 operations the clocks use.
  function SatAdd(x: u64, y: u64): u64 { Min(x + y, U64_MAX) }

  function SatSub(x: u64, y: u64): u64 { Max(x - y, 0) }
}
