/** Identifiers and machine bounds that several components share. */
module Domain {
  type SourceId = nat

  const I32_MAX: int := 0x7fff_ffff
  const I64_MAX: int := 0x7fff_ffff_ffff_ffff
  const U64_MAX: int := 0xffff_ffff_ffff_ffff
}
