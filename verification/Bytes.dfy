/** Bytes. */
module Bytes {
  type Byte = x: int | 0 <= x < 256

  /** `1 << k`, in a byte. */
  function OneBit(k: nat): bv8
    requires k < 8
  {
    match k
    case 0 => 1
    case 1 => 2
    case 2 => 4
    case 3 => 8
    case 4 => 16
    case 5 => 32
    case 6 => 64
    case _ => 128
  }
}
