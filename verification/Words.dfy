/** The fixed-width integers and errno values the native pool works with. */
module Words {
  const UINT32_MAX: int := 0xFFFF_FFFF
  const INT64_MAX: int := 0x7FFF_FFFF_FFFF_FFFF
  const UINT64_MAX: int := 0xFFFF_FFFF_FFFF_FFFF

  newtype uint32 = x: int | 0 <= x <= UINT32_MAX
  newtype uint64 = x: int | 0 <= x <= UINT64_MAX
  newtype byte = x: int | 0 <= x < 256

  /** What an operation of the pool returns: zero, one of the named errno values, or
      another errno reported by a system call. */
  datatype Status =
    | Ok | EINVAL | EOVERFLOW | EBUSY | EAGAIN | ECANCELED | ENODATA | ESTALE
    | Errno(code: uint32)

  /** What an unsigned 64-bit counter holds after counting to x. */
  function Wrap64(x: nat): nat { x % 0x1_0000_0000_0000_0000 }

  lemma UniqueQuotient(a: int, b: int, r: nat, s: nat)
    requires a * 0x1_0000_0000_0000_0000 + r == b * 0x1_0000_0000_0000_0000 + s
    requires r < 0x1_0000_0000_0000_0000 && s < 0x1_0000_0000_0000_0000
    ensures a == b && r == s
  {
  }

  /** A counter that has already wrapped goes on as if it had not. */
  lemma WrapAdds(x: nat, y: nat)
    ensures Wrap64(Wrap64(x) + y) == Wrap64(x + y)
  {
    var q, z := x / 0x1_0000_0000_0000_0000, Wrap64(x) + y;
    var p := z / 0x1_0000_0000_0000_0000;
    assert x + y == (q + p) * 0x1_0000_0000_0000_0000 + Wrap64(z);
    UniqueQuotient((x + y) / 0x1_0000_0000_0000_0000, q + p, Wrap64(x + y), Wrap64(z));
  }
}
