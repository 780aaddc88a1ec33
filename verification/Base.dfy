/** Machine integers and the failure-compatible wrappers shared by all components.
    Integers are subset types of `int`: every wrap-around, saturation or truncating
    cast of the program is written out where it happens. */
module Base {

  const U8_MAX: int := 0xFF
  const U32_MAX: int := 0xFFFF_FFFF
  const U64_MODULUS: int := 0x1_0000_0000_0000_0000

  type u8 = x: int | 0 <= x <= U8_MAX
  type u16 = x: int | 0 <= x <= 0xFFFF
  type u32 = x: int | 0 <= x <= U32_MAX
  type u64 = x: int | 0 <= x < U64_MODULUS

  type Bytes = seq<u8>

  /** Node identifiers are 64-bit numbers. */
  type NodeId = u64

  /** A remote node, as the storage layer names it. */
  type Peer = NodeId

  datatype Option<+T> = None | Some(value: T)

  datatype Result<+T, +E> = Ok(value: T) | Err(error: E)
}
