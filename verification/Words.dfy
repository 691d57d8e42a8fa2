/** The C integer types the compiler and its runtime compute with. */
module Words {

  const MAX: int := 0x7FFF_FFFF_FFFF_FFFF
  const MIN: int := -0x8000_0000_0000_0000

  /** `long long`. */
  type Int64 = x: int | MIN <= x <= MAX

  /** `unsigned char`. */
  type Byte = x: int | 0 <= x < 256

  /** The cast `(int)x`: the value modulo 2^32, read as signed. */
  function ToInt32(x: int): (r: int)
    ensures -0x8000_0000 <= r <= 0x7FFF_FFFF
    ensures -0x8000_0000 <= x <= 0x7FFF_FFFF ==> r == x
  {
    var m := x % 0x1_0000_0000;
    if m < 0x8000_0000 then m else m - 0x1_0000_0000
  }

  /** The cast `(unsigned char)x`. */
  function ToByte(x: int): Byte {
    x % 256
  }

  /** The cast `(unsigned long long)x`. */
  function ToUnsigned(x: Int64): nat {
    if x < 0 then x + 0x1_0000_0000_0000_0000 else x
  }
}
