/** Machine words, bytes, and optional values. */
module Machine {

  const U32: nat := 0x1_0000_0000
  const U64: nat := 0x1_0000_0000_0000_0000

  type byte = n: nat | n < 0x100
  type u32 = n: nat | n < U32
  type u64 = n: nat | n < U64

  datatype Option<+T> = None | Some(value: T)
}
