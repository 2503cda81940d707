/** Shared vocabulary: options, 64-bit bounds and the POSIX codes of the guest kernel. */
module Base {

  datatype Option<+T> = None | Some(value: T)

  /** One past the largest guest address; guest addresses and sizes are unsigned 64-bit. */
  const TWO64: nat := 0x1_0000_0000_0000_0000
  const U64_MAX: nat := 0xFFFF_FFFF_FFFF_FFFF

  type U64 = x: int | 0 <= x < 0x1_0000_0000_0000_0000
  type Byte = x: int | 0 <= x < 256

  const EPERM := 1
  const ENOENT := 2
  const ESRCH := 3
  const EDEADLK := 11
  const ENOMEM := 12
  const EACCES := 13
  const EFAULT := 14
  const EBUSY := 16
  const EINVAL := 22
  const EAGAIN := 35
  const ENOTSUP := 45
  const ETIMEDOUT := 60
  const ENAMETOOLONG := 63
  const EOVERFLOW := 84

  ghost predicate NoDup<T>(s: seq<T>) {
    forall i, j :: 0 <= i < j < |s| ==> s[i] != s[j]
  }
}
