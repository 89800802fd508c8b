/** Rust's fixed-width limits and saturating arithmetic. */
module MachineInts {
  const U32_LIMIT := 0x1_0000_0000
  const U64_LIMIT := 0x1_0000_0000_0000_0000
  const U32_MAX := 0xffff_ffff
  const U64_MAX := 0xffff_ffff_ffff_ffff
  const USIZE_MAX := 0xffff_ffff_ffff_ffff
  const I64_MIN := -0x8000_0000_0000_0000
  const I64_MAX := 0x7fff_ffff_ffff_ffff

  function SaturatingAdd(a: nat, b: nat): (s: nat) {
    if a + b > U64_MAX then U64_MAX else a + b
  }

  function SaturatingSub(a: nat, b: nat): (d: nat) {
    if a < b then 0 else a - b
  }

  function SaturatingMul(a: nat, b: nat): (p: nat) {
    if a * b > U64_MAX then U64_MAX else a * b
  }
}
