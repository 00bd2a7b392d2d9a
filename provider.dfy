/**
 * The five operation handlers of the benchmark provider. They serve a fixed
 * tree: the root directory (inode 1) holding one regular file, "file.bin"
 * (inode 2), of 2048 bytes. Each handler answers its request with exactly one
 * response, so each is a function from the request parameters to a Response.
 */
module Provider {
  import opened Primitives
  import opened Protocol

  const FILE_INODE: uint64 := 2
  const FILE_NAME: string := "file.bin"
  const FILE_SIZE: uint64 := 2 * 1024

  /** 0644: the permissions reported for the file and for the root directory alike. */
  const MODE_0644: Permissions := 0x1A4

  /** The handle every open of the file returns. */
  const FILE_HANDLE: uint32 := 42

  /** The contents buffer as set up at start: FILE_SIZE zero bytes, never written afterwards. */
  const ZERO_CONTENTS: seq<uint8> := seq(FILE_SIZE, _ => 0)

  /** The listing of the root directory, in response order. */
  const ROOT_LISTING: seq<DirEntry> :=
    [DirEntry(".", ROOT_INODE), DirEntry("..", ROOT_INODE), DirEntry(FILE_NAME, FILE_INODE)]

  /** The file's attributes: a cleared `struct stat` with inode, mode and size set. */
  function FileStat(): (st: Stat)
    ensures st.ino == FILE_INODE && st.size == FILE_SIZE
    ensures KindOf(st.mode) == Some(RegularFile) && PermissionsOf(st.mode) == MODE_0644
  {
    ZERO_STAT.(ino := FILE_INODE, mode := MODE_0644 | S_IFREG, size := FILE_SIZE)
  }

  /** The root's attributes: `st_size` is never set, so it keeps the 0 of the memset. */
  function RootStat(): (st: Stat)
    ensures st.ino == ROOT_INODE && st.size == 0
    ensures KindOf(st.mode) == Some(Directory) && PermissionsOf(st.mode) == MODE_0644
  {
    ZERO_STAT.(ino := ROOT_INODE, mode := MODE_0644 | S_IFDIR)
  }

  /** on_lookup: only "file.bin" (compared exactly) in the root resolves; every miss is the generic WFP_BAD. */
  function Lookup(parent: uint64, name: string): (r: Response)
    ensures r.RespondLookup? <==> parent == ROOT_INODE && name == FILE_NAME
    ensures r.RespondLookup? ==> r.attr == FileStat()
    ensures !r.RespondLookup? ==> r == RespondError(Bad)
  {
    if parent == ROOT_INODE && name == FILE_NAME then RespondLookup(FileStat())
    else RespondError(Bad)
  }

  /** on_getattr: the root and the file have attributes; every other inode is WFP_BAD_NOENTRY. */
  function Getattr(inode: uint64): (r: Response)
    ensures inode == ROOT_INODE ==> r == RespondGetattr(RootStat())
    ensures inode == FILE_INODE ==> r == RespondGetattr(FileStat())
    ensures r.RespondGetattr? <==> inode in {ROOT_INODE, FILE_INODE}
    ensures !r.RespondGetattr? ==> r == RespondError(BadNoEntry)
    ensures r.RespondGetattr? ==> r.attr.ino == inode
  {
    if inode == ROOT_INODE then RespondGetattr(RootStat())
    else if inode == FILE_INODE then RespondGetattr(FileStat())
    else RespondError(BadNoEntry)
  }

  /** on_open: the root is WFP_BAD_ACCESS_DENIED, the file opens with handle 42 whatever the flags, the rest is WFP_BAD_NOENTRY. */
  function Open(inode: uint64, flags: int32): (r: Response)
    ensures inode == ROOT_INODE <==> r == RespondError(BadAccessDenied)
    ensures inode == FILE_INODE <==> r == RespondOpen(FILE_HANDLE)
    ensures inode != ROOT_INODE && inode != FILE_INODE <==> r == RespondError(BadNoEntry)
  {
    if inode == ROOT_INODE then RespondError(BadAccessDenied)
    else if inode == FILE_INODE then RespondOpen(FILE_HANDLE)
    else RespondError(BadNoEntry)
  }

  /**
   * The byte count of on_read: what is left of the file from `offset`, or 0
   * from the end on, clamped to `length`.
   */
  function ReadCount(offset: uint64, length: uint64): (count: uint64)
    ensures count == Min(length, Max(0, FILE_SIZE - offset))
    ensures count <= length
    ensures offset < FILE_SIZE ==> offset + count <= FILE_SIZE
    ensures offset >= FILE_SIZE ==> count == 0
    ensures count == length || offset + count >= FILE_SIZE
  {
    var remaining: uint64 := if offset < FILE_SIZE then FILE_SIZE - offset else 0;
    if length < remaining then length else remaining
  }

  /**
   * on_read: the file answers with ReadCount(offset, length) bytes of
   * `contents` from `offset`; at or past the end that is an empty success, not
   * an error. The handle is not consulted. Other inodes are WFP_BAD_NOENTRY.
   */
  function Read(contents: seq<uint8>, inode: uint64, handle: uint32, offset: uint64, length: uint64): (r: Response)
    requires |contents| == FILE_SIZE
    ensures r.RespondRead? <==> inode == FILE_INODE
    ensures !r.RespondRead? ==> r == RespondError(BadNoEntry)
    ensures r.RespondRead? ==> |r.data| == ReadCount(offset, length)
    ensures r.RespondRead? && offset < FILE_SIZE ==> r.data == contents[offset .. offset + |r.data|]
    ensures r.RespondRead? && offset >= FILE_SIZE ==> r.data == []
  {
    if inode == FILE_INODE then
      var count := ReadCount(offset, length);
      // Past the end the pointer handed over is out of bounds, but count is 0.
      RespondRead(if offset < FILE_SIZE then contents[offset .. offset + count] else [])
    else
      RespondError(BadNoEntry)
  }

  /** A directory buffer: entries are appended in order and handed to the response as they stand. */
  class DirBuffer {
    var entries: seq<DirEntry>

    constructor ()
      ensures entries == []
    {
      entries := [];
    }

    method Add(name: string, inode: uint64)
      modifies this
      ensures entries == old(entries) + [DirEntry(name, inode)]
    {
      entries := entries + [DirEntry(name, inode)];
    }
  }

  /**
   * on_readdir: "." and ".." (both naming the requested inode) go into a fresh
   * buffer before the inode is examined; the root then adds the file and
   * answers with the buffer, any other inode is WFP_BAD_NOENTRY. `disposed` is
   * what the buffer holds when it is disposed.
   */
  method Readdir(directory: uint64) returns (r: Response, disposed: seq<DirEntry>)
    ensures directory == ROOT_INODE ==> r == RespondReaddir(ROOT_LISTING)
    ensures directory != ROOT_INODE ==> r == RespondError(BadNoEntry)
    ensures |disposed| >= 2 && disposed[..2] == [DirEntry(".", directory), DirEntry("..", directory)]
    ensures r.RespondReaddir? ==> r.entries == disposed
  {
    var buffer := new DirBuffer();
    buffer.Add(".", directory);
    buffer.Add("..", directory);
    if directory == ROOT_INODE {
      buffer.Add(FILE_NAME, FILE_INODE);
      r := RespondReaddir(buffer.entries);
    } else {
      r := RespondError(BadNoEntry);
    }
    disposed := buffer.entries;
  }

  /** Two worked examples: 8 bytes at 2040 for a request of 100, and an empty success at 3000. */
  lemma ReadExamples(contents: seq<uint8>, handle: uint32)
    requires |contents| == FILE_SIZE
    ensures Read(contents, FILE_INODE, handle, 2040, 100) == RespondRead(contents[2040..])
    ensures Read(contents, FILE_INODE, handle, 3000, 50) == RespondRead([])
  {
  }

  /** The handle argument of a read has no bearing on its response. */
  lemma ReadIgnoresHandle(contents: seq<uint8>, inode: uint64, h1: uint32, h2: uint32, offset: uint64, length: uint64)
    requires |contents| == FILE_SIZE
    ensures Read(contents, inode, h1, offset, length) == Read(contents, inode, h2, offset, length)
  {
  }

  /** Every byte the provider serves is zero: the buffer is filled with zeros at start and never written. */
  lemma ServedBytesAreZero(inode: uint64, handle: uint32, offset: uint64, length: uint64)
    ensures var r := Read(ZERO_CONTENTS, inode, handle, offset, length);
      r.RespondRead? ==> forall k :: 0 <= k < |r.data| ==> r.data[k] == 0
  {
  }

  /**
   * Two consecutive reads, the second starting where the first ended, return
   * the same bytes as one read of the combined length.
   */
  lemma ConsecutiveReads(contents: seq<uint8>, handle: uint32, offset: uint64, n1: uint64, n2: uint64)
    requires |contents| == FILE_SIZE
    requires n1 + n2 < 0x1_0000_0000_0000_0000
    ensures var r1 := Read(contents, FILE_INODE, handle, offset, n1);
      offset + |r1.data| < 0x1_0000_0000_0000_0000 &&
      r1.data + Read(contents, FILE_INODE, handle, offset + |r1.data|, n2).data
        == Read(contents, FILE_INODE, handle, offset, n1 + n2).data
  {
  }
}
