/** Machine words. Every operation on one is shown to stay in range. */
module Words {
  newtype u8 = x: int | 0 <= x < 0x100
  newtype u64 = x: int | 0 <= x < 0x1_0000_0000_0000_0000
  newtype u128 = x: int | 0 <= x < 0x1_0000_0000_0000_0000_0000_0000_0000_0000

  type Bytes = seq<u8>

  const U64_MAX: u64 := 0xFFFF_FFFF_FFFF_FFFF
  const U128_MAX: u128 := 0xFFFF_FFFF_FFFF_FFFF_FFFF_FFFF_FFFF_FFFF

  function SaturatingAdd(a: u64, b: u64): u64 {
    if a <= U64_MAX - b then a + b else U64_MAX
  }

  function SaturatingSub(a: u64, b: u64): u64 {
    if b <= a then a - b else 0
  }

  function SaturatingMul(a: u64, b: u64): (r: u64)
    ensures r as nat == if a as nat * b as nat <= U64_MAX as nat then a as nat * b as nat else U64_MAX as nat
  {
    var p := a as nat * b as nat;
    if p <= U64_MAX as nat then p as u64 else U64_MAX
  }

  lemma TimesAssociates(x: nat, y: nat, z: nat)
    ensures x * y * z == x * (y * z)
  {
  }

  function SaturatingAdd128(a: u128, b: u128): u128 {
    if a <= U128_MAX - b then a + b else U128_MAX
  }

  function SaturatingMul128(a: u128, b: u128): (r: u128)
    ensures r as nat == if a as nat * b as nat <= U128_MAX as nat then a as nat * b as nat else U128_MAX as nat
  {
    var p := a as nat * b as nat;
    if p <= U128_MAX as nat then p as u128 else U128_MAX
  }
}
