/**
 * The values a provider exchanges with the webfuse provider library: the part of
 * `struct stat` a handler fills in, directory entries, status codes, and one
 * response constructor per `wfp_respond_*` call.
 */
module Protocol {
  import opened Primitives

  /** Inode 1 is reserved for the root directory of a mount. */
  const ROOT_INODE: uint64 := 1

  // File-type and permission bits of `st_mode`, as in POSIX <sys/stat.h>.
  const S_IFMT: bv32 := 0xF000
  const S_IFDIR: bv32 := 0x4000
  const S_IFREG: bv32 := 0x8000
  const PERMISSION_BITS: bv32 := 0x0FFF

  datatype Kind = Directory | RegularFile

  /** Permission bits only: nothing above the low twelve bits. */
  type Permissions = p: bv32 | p <= PERMISSION_BITS

  function TypeBits(k: Kind): bv32 {
    if k == Directory then S_IFDIR else S_IFREG
  }

  /** The node kind a mode announces, if it is one of the two kinds served here. */
  function KindOf(mode: bv32): Option<Kind> {
    var t := mode & S_IFMT;
    if t == S_IFDIR then Some(Directory)
    else if t == S_IFREG then Some(RegularFile)
    else None
  }

  function PermissionsOf(mode: bv32): Permissions {
    mode & PERMISSION_BITS
  }

  /** `perm | S_IFxxx`: a mode from which both the kind and the permissions read back. */
  function MakeMode(k: Kind, perm: Permissions): (mode: bv32)
    ensures KindOf(mode) == Some(k)
    ensures PermissionsOf(mode) == perm
  {
    perm | TypeBits(k)
  }

  /**
   * The fields of `struct stat` that a handler sets. Every other field of the
   * structure is zero, because the handlers clear it with memset first.
   * `st_size` is an `off_t`; the values used here are far inside its range.
   */
  datatype Stat = Stat(ino: uint64, mode: bv32, size: nat)

  /** A `struct stat` right after `memset(&info, 0, sizeof(struct stat))`. */
  const ZERO_STAT := Stat(0, 0, 0)

  datatype DirEntry = DirEntry(name: string, inode: uint64)

  /** The error codes the provider uses. */
  datatype Status = Bad | BadNoEntry | BadAccessDenied

  /** The one outcome a request receives: the `wfp_respond_*` call a handler makes. */
  datatype Response =
    | RespondLookup(attr: Stat)
    | RespondGetattr(attr: Stat)
    | RespondReaddir(entries: seq<DirEntry>)
    | RespondOpen(handle: uint32)
    | RespondRead(data: seq<uint8>)
    | RespondError(status: Status)
}
