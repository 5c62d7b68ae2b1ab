/** The in-memory directory tree of a loaded archive, as the unpacker sees it:
    folders holding files and subfolders, and the depth-first order in which
    the rename map visits them. */
module BigFileTree {

  type Key = int

  /** A file entry (BigFileFile with its FileInfo record). An empty name
      stands for both the null and the empty string. */
  datatype FileEntry = FileEntry(
    key: Key,
    name: string,
    fullFolderPath: string,
    offset: int,   // in 8-byte units from the payload segment start; -1 = no payload
    zip: int)      // 0 = stored, anything else = deflated

  /** A folder (BigFileFolder): its files and subfolders in their stored
      order, and the id -> folder map the directory creation walks. */
  datatype Folder = Folder(
    id: int,
    fullDirectoryName: string,
    files: seq<FileEntry>,
    subFolders: seq<Folder>,
    folderMap: map<int, Folder>)

  /** The path a file is unpacked to before collisions are resolved. */
  function FullName(f: FileEntry): string {
    f.fullFolderPath + f.name
  }

  /** Depth-first visiting order: a folder's files in order, then each
      subfolder's files recursively, subfolders in order. */
  function Flatten(folder: Folder): seq<FileEntry>
    decreases folder, 1
  {
    folder.files + FlattenAll(folder.subFolders)
  }

  function FlattenAll(folders: seq<Folder>): seq<FileEntry>
    decreases folders, 0
  {
    if |folders| == 0 then []
    else FlattenAll(folders[..|folders| - 1]) + Flatten(folders[|folders| - 1])
  }

  predicate UniqueKeys(files: seq<FileEntry>) {
    forall i, j :: 0 <= i < j < |files| ==> files[i].key != files[j].key
  }

  function KeysOf(files: seq<FileEntry>): set<Key> {
    set i | 0 <= i < |files| :: files[i].key
  }

  /** A file stored directly in some folder of the tree. */
  predicate InTree(folder: Folder, f: FileEntry)
    decreases folder
  {
    f in folder.files || exists i :: 0 <= i < |folder.subFolders| && InTree(folder.subFolders[i], f)
  }

  /** The traversal visits exactly the files of the tree. */
  lemma {:induction false} FlattenHoldsTree(folder: Folder, f: FileEntry)
    ensures f in Flatten(folder) <==> InTree(folder, f)
    decreases folder, 1
  {
    FlattenAllHolds(folder.subFolders, f);
  }

  lemma {:induction false} FlattenAllHolds(folders: seq<Folder>, f: FileEntry)
    ensures f in FlattenAll(folders) <==> exists i :: 0 <= i < |folders| && InTree(folders[i], f)
    decreases folders, 0
  {
    if |folders| > 0 {
      var init, last := folders[..|folders| - 1], folders[|folders| - 1];
      FlattenAllHolds(init, f);
      FlattenHoldsTree(last, f);
      if exists i :: 0 <= i < |folders| && InTree(folders[i], f) {
        var i :| 0 <= i < |folders| && InTree(folders[i], f);
        if i < |folders| - 1 {
          assert init[i] == folders[i];
        }
      }
      if exists i :: 0 <= i < |init| && InTree(init[i], f) {
        var i :| 0 <= i < |init| && InTree(init[i], f);
        assert folders[i] == init[i];
      }
    }
  }
}
