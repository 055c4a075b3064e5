/** Fixed-width integers of the source and the optional-value wrapper. */
module Base {

  newtype uint8 = x: int | 0 <= x < 0x100
  newtype uint16 = x: int | 0 <= x < 0x1_0000
  newtype int8 = x: int | -0x80 <= x < 0x80
  newtype int16 = x: int | -0x8000 <= x < 0x8000

  datatype Option<+T> = None | Some(value: T)
}
