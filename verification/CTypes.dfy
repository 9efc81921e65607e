/** The integer and string types of the C code on its 32-bit target. */
module CTypes {

  type Byte = x: int | 0 <= x < 0x100 witness 0
  type UInt8 = Byte
  type Int32 = x: int | -0x8000_0000 <= x < 0x8000_0000 witness 0
  type UInt32 = x: int | 0 <= x < 0x1_0000_0000 witness 0
  type UInt64 = x: int | 0 <= x < 0x1_0000_0000_0000_0000 witness 0

  /** A C string: its bytes without the terminating NUL. */
  type CString = s: seq<Byte> | 0 !in s witness []
}
