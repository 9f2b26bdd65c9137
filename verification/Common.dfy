/** Integer widths and optional values. */
module Common {

  const U32_MAX := 0xFFFF_FFFF

  type u32 = x: nat | x <= 0xFFFF_FFFF

  datatype Option<+T> = None | Some(value: T)
}
