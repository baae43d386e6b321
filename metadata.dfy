/** The host filesystem as the processor sees it, and the metadata it
    copies into SMB2 information structures. */
module Metadata {
  import opened Types
  import opened Align
  import opened Paths

  /** What `stat` reports; `birthtime` is None where the host filesystem
      cannot tell the creation time. */
  datatype Stat = Stat(birthtime: Option<int>, atime: int, mtime: int, ctime: int, ino: nat, dev: nat)

  /** A directory lists the names of its entries, in sorted order. */
  datatype Node =
    | File(content: seq<byte>, stat: Stat)
    | Directory(entries: seq<string>, stat: Stat)
    | Special(stat: Stat)

  /** The filesystem below (and around) the share: absent paths do not exist. */
  type FileSystem = map<Path, Node>

  predicate IsFile(fs: FileSystem, p: Path) { p in fs && fs[p].File? }

  predicate IsDirectory(fs: FileSystem, p: Path) { p in fs && fs[p].Directory? }

  /** `path.file? || path.directory?` */
  predicate Exists(fs: FileSystem, p: Path) { IsFile(fs, p) || IsDirectory(fs, p) }

  datatype FileAttributes = FileAttributes(normal: bool, directory: bool)

  /** FILE_ATTRIBUTE_NORMAL for a regular file, FILE_ATTRIBUTE_DIRECTORY for
      a directory, neither for anything else. */
  function BuildFileAttributes(node: Node): (a: FileAttributes)
    ensures a.normal <==> node.File?
    ensures a.directory <==> node.Directory?
    ensures !(a.normal && a.directory)
  {
    if node.File? then FileAttributes(true, false)
    else if node.Directory? then FileAttributes(false, true)
    else FileAttributes(false, false)
  }

  /** The fields several information structures share. */
  datatype CommonInfo = CommonInfo(
    createTime: Option<int>,
    lastAccess: int,
    lastWrite: int,
    lastChange: int,
    endOfFile: Option<nat>,
    allocationSize: Option<nat>,
    attributes: FileAttributes)

  /** `set_common_info`: timestamps from `stat` (creation time left unset
      when unsupported), and end-of-file and allocation size for regular
      files only, the latter the size rounded up to 4096-byte units. */
  function CommonInfoOf(node: Node): (ci: CommonInfo)
    ensures ci.createTime == node.stat.birthtime
    ensures ci.lastAccess == node.stat.atime && ci.lastWrite == node.stat.mtime && ci.lastChange == node.stat.ctime
    ensures ci.endOfFile.Some? <==> node.File?
    ensures ci.allocationSize.Some? <==> node.File?
    ensures node.File? ==> ci.endOfFile == Some(|node.content|)
    ensures node.File? ==> var a := ci.allocationSize.value;
              a % 4096 == 0 && |node.content| <= a < |node.content| + 4096
    ensures ci.attributes == BuildFileAttributes(node)
  {
    var st := node.stat;
    if node.File? then
      Pad4096Properties(|node.content|);
      CommonInfo(st.birthtime, st.atime, st.mtime, st.ctime,
                 Some(|node.content|), Some(Pad4096(|node.content|)), BuildFileAttributes(node))
    else
      CommonInfo(st.birthtime, st.atime, st.mtime, st.ctime, None, None, BuildFileAttributes(node))
  }

  // FSCC information class numbers the processor recognises.
  const FILE_FULL_DIRECTORY_INFORMATION: nat := 0x02
  const FILE_EA_INFORMATION: nat := 0x07
  const FILE_NETWORK_OPEN_INFORMATION: nat := 0x22
  const FILE_ID_BOTH_DIRECTORY_INFORMATION: nat := 0x25
  const FILE_NORMALIZED_NAME_INFORMATION: nat := 0x30

  /** The two directory-listing classes `build_info` can build. */
  datatype DirClass = IdBothDirectory | FullDirectory

  function DirClassOf(infoClass: nat): (r: Result<DirClass>)
    ensures r.Ok? <==> infoClass == FILE_ID_BOTH_DIRECTORY_INFORMATION || infoClass == FILE_FULL_DIRECTORY_INFORMATION
    ensures r.Err? ==> r.error == NotImplemented
  {
    if infoClass == FILE_ID_BOTH_DIRECTORY_INFORMATION then Ok(IdBothDirectory)
    else if infoClass == FILE_FULL_DIRECTORY_INFORMATION then Ok(FullDirectory)
    else Err(NotImplemented)
  }

  /** One directory-listing record, before its next-entry offset is set. */
  datatype DirInfo = DirInfo(infoClass: DirClass, fileName: string, common: CommonInfo)

  /** `build_info` with a display name. */
  function BuildInfo(cls: DirClass, node: Node, name: string): DirInfo
  {
    DirInfo(cls, name, CommonInfoOf(node))
  }

  /** A QUERY_INFO result. */
  datatype FileInformation =
    | EaInformation
    | NetworkOpenInformation(common: CommonInfo)
    | NormalizedNameInformation(fileName: string)

  /** The access the share grants through a maximal-access query:
      FILE_READ_DATA (0x1) and FILE_READ_ATTRIBUTES (0x80), nothing else. */
  const MAXIMAL_ACCESS: nat := 0x81
}
