/** The fixed-width integer types of the Rust sources, as ranges of `int`. */
module MachineInts {
  type u8 = x: int | 0 <= x < 0x100
  type u16 = x: int | 0 <= x < 0x1_0000
  type i16 = x: int | -0x8000 <= x < 0x8000
  type u32 = x: int | 0 <= x < 0x1_0000_0000
  type u64 = x: int | 0 <= x < 0x1_0000_0000_0000_0000

  predicate IsU16(x: int) { 0 <= x < 0x1_0000 }
  predicate IsI16(x: int) { -0x8000 <= x < 0x8000 }
}
