/** Saturating conversions (safecast/safecast.go). */
module Safecast {
  const MAX_UINT32: nat := 0xFFFF_FFFF

  function IntToUint32Clamp(v: int): (r: nat)
    ensures 0 <= v < 0x1_0000_0000 ==> r == v
    ensures v < 0 ==> r == 0
    ensures v >= 0x1_0000_0000 ==> r + 1 == 0x1_0000_0000
  {
    if v <= 0 then 0 else if v > MAX_UINT32 then MAX_UINT32 else v
  }
}
