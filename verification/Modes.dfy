/** File modes, reduced to the bits chmod(2) can set. */
module Modes {
  import opened FileSystem

  const PERM: FileMode := 0x1FF
  const SETUID: FileMode := 0x80_0000
  const SETGID: FileMode := 0x40_0000
  const STICKY: FileMode := 0x10_0000
  const OWNER_ONLY: FileMode := 0x180      // rw-------

  function ChmodBits(m: FileMode): FileMode {
    (m & PERM) | (m & (SETUID | SETGID | STICKY))
  }

  /** rw------- and nothing else: no bit for group or others, none of execution, setuid,
      setgid or sticky. */
  predicate OnlyOwnerReadsAndWrites(m: FileMode) {
    && m & 0x100 != 0 && m & 0x80 != 0 && m & 0x40 == 0
    && m & 0x38 == 0 && m & 0x7 == 0
    && m & 0x80_0000 == 0 && m & 0x40_0000 == 0 && m & 0x10_0000 == 0
  }

  /** The mode a temp is proved to have before any byte means just that. */
  lemma OwnerOnlyMeans(m: FileMode)
    ensures ChmodBits(m) == ChmodBits(OWNER_ONLY) <==> OnlyOwnerReadsAndWrites(m)
  {
  }

  /** Two modes compare equal exactly when they agree on every one of the twelve bits: read,
      write and execute for owner, group and others, setuid, setgid and sticky. */
  lemma ChmodBitsCompare(a: FileMode, b: FileMode)
    ensures ChmodBits(a) == ChmodBits(b) <==>
            && a & 0x100 == b & 0x100 && a & 0x80 == b & 0x80 && a & 0x40 == b & 0x40
            && a & 0x20 == b & 0x20 && a & 0x10 == b & 0x10 && a & 0x8 == b & 0x8
            && a & 0x4 == b & 0x4 && a & 0x2 == b & 0x2 && a & 0x1 == b & 0x1
            && a & 0x80_0000 == b & 0x80_0000 && a & 0x40_0000 == b & 0x40_0000 && a & 0x10_0000 == b & 0x10_0000
  {
  }

  /** The type bits never take part in the comparison. */
  lemma TypeBitsNeverCount(m: FileMode, typeBits: FileMode)
    requires typeBits & 0xD0_01FF == 0
    ensures ChmodBits(m | typeBits) == ChmodBits(m)
  {
  }
}
