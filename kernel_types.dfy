/** Fixed-width integers, the optional value and the kernel error numbers shared by the driver models. */
module KernelTypes {

  /** C's unsigned char, u16 and u32, as ranges of the unbounded integers. */
  type u8 = x: int | 0 <= x < 0x100
  type u16 = x: int | 0 <= x < 0x1_0000
  type u32 = x: int | 0 <= x < 0x1_0000_0000

  /** A value that may be absent: a NULL pointer, a list with no match. */
  datatype Option<T> = None | Some(value: T)

  /** Error numbers of the Linux generic errno table; the drivers return them negated. */
  const EINTR := 4
  const ENXIO := 6
  const EBADF := 9
  const ENOMEM := 12
  const EFAULT := 14
  const EBUSY := 16
  const EINVAL := 22
  const EBADR := 53
  const EBADRQC := 56
  const EOVERFLOW := 75
  const EOPNOTSUPP := 95
  const ETOOMANYREFS := 109

  /** The low 16 bits of a value, as an assignment to a u16 keeps them. */
  function TruncU16(x: nat): (r: u16)
    ensures x < 0x1_0000 ==> r == x
  {
    x % 0x1_0000
  }

  /** The u16 stored little-endian in two bytes (the ARM targets of these drivers are little-endian). */
  function LittleEndian16(lo: u8, hi: u8): (r: u16)
    ensures r % 0x100 == lo && r / 0x100 == hi
  {
    lo + 0x100 * hi
  }
}
