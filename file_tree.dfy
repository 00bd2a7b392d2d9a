/**
 * Reference semantics of the five read-only operations over an arbitrary inode
 * tree: what lookup, getattr, readdir, open and read mean for any tree, stated
 * without the constants of one provider. The provider's handlers are shown to
 * agree with these on the tree they serve.
 */
module FileTree {
  import opened Primitives
  import opened Protocol

  /**
   * One node of the tree. `children` lists the named entries of a directory;
   * the synthetic "." and ".." are not stored. `data` is a regular file's
   * contents.
   */
  datatype Node = Node(kind: Kind, perm: Permissions, parent: uint64, children: seq<DirEntry>, data: seq<uint8>)

  type Tree = map<uint64, Node>

  /** A name a directory may hold: non-empty, no path separator, not "." or "..". */
  predicate ValidName(name: string) {
    |name| > 0 && '/' !in name && name != "." && name != ".."
  }

  /** The root inode is a directory and is its own parent. */
  predicate RootIsDirectory(t: Tree) {
    ROOT_INODE in t && t[ROOT_INODE].kind == Directory && t[ROOT_INODE].parent == ROOT_INODE
  }

  /** Every node's parent is a directory of the tree. */
  predicate ParentsAreDirectories(t: Tree) {
    forall i | i in t :: t[i].parent in t && t[t[i].parent].kind == Directory
  }

  /** Directories carry no data and regular files no children. */
  predicate KindsRespected(t: Tree) {
    forall i | i in t :: if t[i].kind == Directory then t[i].data == [] else t[i].children == []
  }

  /** Every entry of a directory has a valid name and names a node whose parent is that directory. */
  predicate ChildrenResolve(t: Tree) {
    forall i, k | i in t && 0 <= k < |t[i].children| ::
      ValidName(t[i].children[k].name)
      && t[i].children[k].inode in t
      && t[t[i].children[k].inode].parent == i
  }

  /** No directory holds two entries of the same name. */
  predicate UniqueNames(t: Tree) {
    forall i, j, k | i in t && 0 <= j < k < |t[i].children| :: t[i].children[j].name != t[i].children[k].name
  }

  /** Every node other than the root is listed by its parent. */
  predicate ListedByParent(t: Tree) {
    forall i | i in t && i != ROOT_INODE && t[i].parent in t ::
      exists k :: 0 <= k < |t[t[i].parent].children| && t[t[i].parent].children[k].inode == i
  }

  /** The shape every served tree has. */
  predicate WellFormed(t: Tree) {
    && RootIsDirectory(t) && ParentsAreDirectories(t) && KindsRespected(t)
    && ChildrenResolve(t) && UniqueNames(t) && ListedByParent(t)
  }

  /** The attributes of a node: kind and permissions in the mode, the size of a file's data, 0 for a directory. */
  function Attributes(ino: uint64, n: Node): (st: Stat)
    ensures st.ino == ino
    ensures KindOf(st.mode) == Some(n.kind) && PermissionsOf(st.mode) == n.perm
    ensures st.size == if n.kind == RegularFile then |n.data| else 0
  {
    ZERO_STAT.(ino := ino, mode := MakeMode(n.kind, n.perm), size := if n.kind == RegularFile then |n.data| else 0)
  }

  /** The inode of the first entry called `name`, if any. */
  function FindChild(entries: seq<DirEntry>, name: string): (r: Option<uint64>)
    ensures r.None? <==> forall k :: 0 <= k < |entries| ==> entries[k].name != name
    ensures r.Some? ==> exists k :: (0 <= k < |entries| && entries[k] == DirEntry(name, r.value)
      && forall j :: 0 <= j < k ==> entries[j].name != name)
  {
    if entries == [] then None
    else if entries[0].name == name then Some(entries[0].inode)
    else FindChild(entries[1..], name)
  }

  /** Resolve `name` in directory `parent`; anything that does not resolve is the generic error. */
  function Lookup(t: Tree, parent: uint64, name: string): Response {
    if parent in t && t[parent].kind == Directory then
      match FindChild(t[parent].children, name)
      case Some(child) => if child in t then RespondLookup(Attributes(child, t[child])) else RespondError(Bad)
      case None => RespondError(Bad)
    else
      RespondError(Bad)
  }

  function Getattr(t: Tree, ino: uint64): Response {
    if ino in t then RespondGetattr(Attributes(ino, t[ino])) else RespondError(BadNoEntry)
  }

  /** A directory lists "." (itself), ".." (its parent) and then its children, in order. */
  function Readdir(t: Tree, dir: uint64): Response {
    if dir in t && t[dir].kind == Directory then
      RespondReaddir([DirEntry(".", dir), DirEntry("..", t[dir].parent)] + t[dir].children)
    else
      RespondError(BadNoEntry)
  }

  /** Directories cannot be opened; a regular file yields the handle the provider chose. */
  function Open(t: Tree, ino: uint64, handle: uint32): Response {
    if ino !in t then RespondError(BadNoEntry)
    else if t[ino].kind == Directory then RespondError(BadAccessDenied)
    else RespondOpen(handle)
  }

  /** `min(length, max(0, size - offset))` bytes from `offset`; nothing at or past the end. */
  function Read(t: Tree, ino: uint64, offset: uint64, length: uint64): Response {
    if ino in t && t[ino].kind == RegularFile then
      var data := t[ino].data;
      var count := Min(length, Max(0, |data| - offset));
      RespondRead(if offset < |data| then data[offset .. offset + count] else [])
    else
      RespondError(BadNoEntry)
  }

  /**
   * In a tree whose entries resolve, lookup succeeds exactly when the parent is a
   * directory holding the name, and then answers with the attributes of the
   * child that the entry of that name points to.
   */
  lemma LookupSucceedsIffChild(t: Tree, parent: uint64, name: string)
    requires ChildrenResolve(t)
    ensures Lookup(t, parent, name).RespondLookup? <==>
      parent in t && t[parent].kind == Directory &&
      exists k :: 0 <= k < |t[parent].children| && t[parent].children[k].name == name
    ensures Lookup(t, parent, name).RespondLookup? ==>
      var st := Lookup(t, parent, name).attr;
      && st.ino in t && t[st.ino].parent == parent && st == Attributes(st.ino, t[st.ino])
      && exists k :: 0 <= k < |t[parent].children| && t[parent].children[k] == DirEntry(name, st.ino)
  {
  }

  /**
   * In a well-formed tree, a listing is "." (the directory itself), ".." (its
   * parent, a directory) and then exactly the directory's children, in order.
   */
  lemma ReaddirShape(t: Tree, dir: uint64)
    requires WellFormed(t)
    ensures Readdir(t, dir).RespondReaddir? <==> dir in t && t[dir].kind == Directory
    ensures Readdir(t, dir).RespondReaddir? ==>
      var es := Readdir(t, dir).entries;
      && |es| >= 2
      && es[0] == DirEntry(".", dir)
      && es[1] == DirEntry("..", t[dir].parent) && es[1].inode in t && t[es[1].inode].kind == Directory
      && es[2..] == t[dir].children
      && (forall k :: 2 <= k < |es| ==> ValidName(es[k].name) && es[k].inode in t)
  {
  }

  /**
   * Listing and lookup agree, one way: where entries resolve and names are
   * unique per directory, every name a directory lists after "." and ".." is
   * resolved by lookup in that directory to the inode listed with it.
   */
  lemma ListedNameResolves(t: Tree, dir: uint64, k: nat)
    requires ChildrenResolve(t) && UniqueNames(t)
    requires Readdir(t, dir).RespondReaddir? && 2 <= k < |Readdir(t, dir).entries|
    ensures var e := Readdir(t, dir).entries[k];
      Lookup(t, dir, e.name) == RespondLookup(Attributes(e.inode, t[e.inode]))
  {
  }

  /**
   * Listing and lookup agree, the other way: every name lookup resolves in a
   * directory is listed there with the inode it resolves to.
   */
  lemma ResolvedNameListed(t: Tree, dir: uint64, name: string)
    requires Lookup(t, dir, name).RespondLookup?
    ensures Readdir(t, dir).RespondReaddir?
    ensures var es := Readdir(t, dir).entries;
      exists k :: 2 <= k < |es| && es[k] == DirEntry(name, Lookup(t, dir, name).attr.ino)
  {
    var cs := t[dir].children;
    var r := FindChild(cs, name);
    var j :| 0 <= j < |cs| && cs[j] == DirEntry(name, r.value) && forall i :: 0 <= i < j ==> cs[i].name != name;
    assert Readdir(t, dir).entries[j + 2] == cs[j];
  }

  /** A successful read answers exactly `min(length, max(0, size - offset))` bytes of the data from `offset`. */
  lemma ReadWithinBounds(t: Tree, ino: uint64, offset: uint64, length: uint64)
    ensures Read(t, ino, offset, length).RespondRead? <==> ino in t && t[ino].kind == RegularFile
    ensures Read(t, ino, offset, length).RespondRead? ==>
      var data := Read(t, ino, offset, length).data;
      && |data| == Min(length, Max(0, |t[ino].data| - offset))
      && |data| <= length
      && (offset < |t[ino].data| ==> offset + |data| <= |t[ino].data| && data == t[ino].data[offset .. offset + |data|])
      && (offset >= |t[ino].data| ==> data == [])
  {
  }
}
