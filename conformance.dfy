/**
 * The provider's handlers agree with the reference semantics of FileTree on
 * the tree the provider serves: the root directory holding "file.bin".
 */
module Conformance {
  import opened Primitives
  import opened Protocol
  import FileTree
  import opened Provider

  /** The served tree, with `contents` as the file's data. */
  function ServedTree(contents: seq<uint8>): FileTree.Tree {
    map[
      ROOT_INODE := FileTree.Node(Directory, MODE_0644, ROOT_INODE, [DirEntry(FILE_NAME, FILE_INODE)], []),
      FILE_INODE := FileTree.Node(RegularFile, MODE_0644, ROOT_INODE, [], contents)
    ]
  }

  lemma ServedTreeWellFormed(contents: seq<uint8>)
    ensures FileTree.WellFormed(ServedTree(contents))
  {
    ServedParents(contents);
    ServedKinds(contents);
    ServedChildren(contents);
    ServedUniqueNames(contents);
    ServedListed(contents);
  }

  lemma ServedUniqueNames(contents: seq<uint8>)
    ensures FileTree.UniqueNames(ServedTree(contents))
  {
  }

  lemma ServedListed(contents: seq<uint8>)
    ensures FileTree.ListedByParent(ServedTree(contents))
  {
    var t := ServedTree(contents);
    assert t.Keys == {ROOT_INODE, FILE_INODE};
    assert t[t[FILE_INODE].parent].children[0].inode == FILE_INODE;
  }

  lemma ServedParents(contents: seq<uint8>)
    ensures FileTree.ParentsAreDirectories(ServedTree(contents))
  {
  }

  lemma ServedKinds(contents: seq<uint8>)
    ensures FileTree.KindsRespected(ServedTree(contents))
  {
  }

  lemma ServedChildren(contents: seq<uint8>)
    ensures FileTree.ChildrenResolve(ServedTree(contents))
  {
  }

  lemma LookupConforms(contents: seq<uint8>, parent: uint64, name: string)
    requires |contents| == FILE_SIZE
    ensures Lookup(parent, name) == FileTree.Lookup(ServedTree(contents), parent, name)
  {
  }

  lemma GetattrConforms(contents: seq<uint8>, inode: uint64)
    requires |contents| == FILE_SIZE
    ensures Getattr(inode) == FileTree.Getattr(ServedTree(contents), inode)
  {
  }

  /** What the readdir handler answers is the reference listing of the served tree. */
  lemma ReaddirConforms(contents: seq<uint8>, directory: uint64)
    ensures FileTree.Readdir(ServedTree(contents), directory)
      == if directory == ROOT_INODE then RespondReaddir(ROOT_LISTING) else RespondError(BadNoEntry)
  {
  }

  lemma OpenConforms(contents: seq<uint8>, inode: uint64, flags: int32)
    ensures Open(inode, flags) == FileTree.Open(ServedTree(contents), inode, FILE_HANDLE)
  {
  }

  lemma ReadConforms(contents: seq<uint8>, inode: uint64, handle: uint32, offset: uint64, length: uint64)
    requires |contents| == FILE_SIZE
    ensures Read(contents, inode, handle, offset, length) == FileTree.Read(ServedTree(contents), inode, offset, length)
  {
  }
}
