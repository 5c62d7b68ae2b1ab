/** BigFileUnpacker: extracts every file of a packed archive into a
    directory tree, under the collision-resolved names of the rename map.
    The four workers the source queues on the thread pool run here one after
    the other. */
module Unpacker {
  import opened Binary
  import opened BigFileTree
  import opened Renaming
  import opened RecordFraming
  import opened Partitioning

  /** A packed archive as the unpacker uses it. */
  datatype PackedBigFile = PackedBigFile(
    bytes: seq<byte>,           // the archive file's content
    dataOffset: int,            // where the payload segment starts (CalculateDataOffset)
    rootFolder: Folder,
    filesList: seq<FileEntry>)  // MappingData.FilesList, the flat offset-ordered list

  /** The directory separator the source puts between path parts. */
  const SEPARATOR: string := "\\"

  /** The disk the unpacker writes to: the directories that exist and the
      content of every file, by path. */
  class FileSystem {
    var directories: set<string>
    var files: map<string, seq<byte>>

    constructor (directories: set<string>, files: map<string, seq<byte>>)
      ensures this.directories == directories && this.files == files
    {
      this.directories := directories;
      this.files := files;
    }

    method CreateDirectory(path: string)
      modifies this
      ensures directories == old(directories) + {path}
      ensures files == old(files)
    {
      directories := directories + {path};
    }

    /** File.Create followed by one Write: the file holds exactly `bytes`. */
    method WriteFile(path: string, bytes: seq<byte>)
      modifies this
      ensures files == old(files)[path := bytes]
      ensures directories == old(directories)
    {
      files := files[path := bytes];
    }
  }

  /** A read-only FileStream over the archive. */
  class ByteStream {
    const data: seq<byte>
    var position: nat

    constructor (data: seq<byte>)
      ensures this.data == data && position == 0
    {
      this.data := data;
      position := 0;
    }

    method Seek(pos: nat)
      modifies this
      ensures position == pos
    {
      position := pos;
    }

    /** Reads up to count bytes; fewer at the end of the stream. */
    method Read(count: nat) returns (chunk: seq<byte>)
      modifies this
      ensures old(position) + count <= |data| ==> chunk == data[old(position) .. old(position) + count]
      ensures |chunk| <= count
      ensures position == old(position) + |chunk|
    {
      if position >= |data| {
        chunk := [];
      } else if position + count <= |data| {
        chunk := data[position .. position + count];
      } else {
        chunk := data[position..];
      }
      position := position + |chunk|;
    }

    /** A DeflateStream opened at the current position: up to count bytes
        of what the rest of the stream inflates to. The deflate stream reads
        ahead, so the position afterwards is left at the end. */
    method ReadInflated(count: nat, inflate: seq<byte> -> seq<byte>) returns (chunk: seq<byte>)
      modifies this
      ensures old(position) <= |data| && count <= |inflate(data[old(position)..])|
              ==> chunk == inflate(data[old(position)..])[..count]
      ensures position == |data|
    {
      var rest := if position <= |data| then data[position..] else [];
      var out := inflate(rest);
      chunk := if count <= |out| then out[..count] else out;
      position := |data|;
    }

    /** The record reading of internal_UnpackFiles: seeks to pos and reads
        a stored or deflated record, returning exactly its payload. */
    method ReadRecordAt(pos: nat, zip: int, inflate: seq<byte> -> seq<byte>) returns (payload: seq<byte>)
      requires ReadRecord(data, pos, zip, inflate).Some?
      modifies this
      ensures payload == ReadRecord(data, pos, zip, inflate).value
      ensures zip == 0 ==> position == pos + 4 + |payload|
      ensures zip != 0 ==> position == |data|
    {
      Seek(pos);
      if zip == 0 {
        var sizeBytes := Read(4);
        Int32AtSlice(data, pos);
        var fileSize := Int32At(sizeBytes, 0);
        payload := Read(fileSize);
      } else {
        var compressedBytes := Read(4);
        var sizeBytes := Read(4);
        Int32AtSlice(data, pos + 4);
        var fileSize := Int32At(sizeBytes, 0);
        var zlibHeader := Read(ZLIB_HEADER_SIZE);
        payload := ReadInflated(fileSize, inflate);
      }
    }
  }

  /** Dictionary<string, int> fileRenameCounts. */
  class RenameCounter {
    var Counts: map<string, int>

    constructor ()
      ensures Counts == map[]
    {
      Counts := map[];
    }
  }

  /** UnpackedRenamedFileMapping. */
  class RenamedFileMapping {
    var Map: map<Key, RenamedFileMappingData>

    constructor ()
      ensures Map == map[]
    {
      Map := map[];
    }
  }

  /** What one worker is told to do, and whether it is at work. */
  class UnpackThreadInfo {
    var unpackDir: string
    var fileMapping: RenamedFileMapping
    var startIndex: int
    var count: int
    var threadID: int
    var isUnpacking: bool

    constructor (unpackDir: string, fileMapping: RenamedFileMapping, startIndex: int, count: int, threadID: int)
      ensures this.unpackDir == unpackDir && this.fileMapping == fileMapping
      ensures this.startIndex == startIndex && this.count == count && this.threadID == threadID
      ensures !isUnpacking
    {
      this.unpackDir := unpackDir;
      this.fileMapping := fileMapping;
      this.startIndex := startIndex;
      this.count := count;
      this.threadID := threadID;
      isUnpacking := false;
    }
  }

  /** The directories CreateDirectoriesFromTree makes under dir: one per
      folder of the root's folder map. */
  function TreeDirectories(dir: string, root: Folder): set<string> {
    FolderDirectories(dir, root.folderMap, root.folderMap.Keys)
  }

  function FolderDirectories(dir: string, folderMap: map<int, Folder>, ids: set<int>): set<string>
    requires ids <= folderMap.Keys
  {
    set id | id in ids :: dir + SEPARATOR + folderMap[id].fullDirectoryName
  }

  lemma ElementOf(ids: set<int>) returns (w: int)
    requires ids != {}
    ensures w in ids
  {
    if forall x :: x !in ids {
      assert false;
    }
    w :| w in ids;
  }

  lemma FolderDirectoriesStep(dir: string, folderMap: map<int, Folder>, ids: set<int>, id: int)
    requires ids <= folderMap.Keys && id in folderMap
    ensures FolderDirectories(dir, folderMap, ids + {id})
            == FolderDirectories(dir, folderMap, ids) + {dir + SEPARATOR + folderMap[id].fullDirectoryName}
  {
  }

  /** The record of f parses at the position its offset seeks to. */
  predicate RecordReadable(a: PackedBigFile, f: FileEntry, inflate: seq<byte> -> seq<byte>) {
    && IsInt32(a.dataOffset) && IsInt32(f.offset)
    && ReadRecord(a.bytes, SeekPosition(a.dataOffset, f.offset), f.zip, inflate).Some?
  }

  /** The bytes unpacked for f. */
  function Payload(a: PackedBigFile, f: FileEntry, inflate: seq<byte> -> seq<byte>): seq<byte>
    requires RecordReadable(a, f, inflate)
  {
    ReadRecord(a.bytes, SeekPosition(a.dataOffset, f.offset), f.zip, inflate).value
  }

  /** Files without a name are skipped. */
  predicate Named(f: FileEntry) {
    f.name != ""
  }

  /** What a worker over [lo, hi) needs: every named file there has a
      mapping entry and a record that reads in full. */
  predicate Unpackable(a: PackedBigFile, mapping: map<Key, RenamedFileMappingData>, inflate: seq<byte> -> seq<byte>, lo: int, hi: int) {
    && 0 <= lo <= hi <= |a.filesList|
    && forall i :: lo <= i < hi && Named(a.filesList[i]) ==>
         a.filesList[i].key in mapping && RecordReadable(a, a.filesList[i], inflate)
  }

  function OutputPath(unpackDir: string, mapping: map<Key, RenamedFileMappingData>, f: FileEntry): string
    requires f.key in mapping
  {
    unpackDir + mapping[f.key].fileName
  }

  /** The disk contents after extracting FilesList[lo..hi) in order onto
      out: each named file's payload written to its mapped path. */
  function Unpacked(out: map<string, seq<byte>>, a: PackedBigFile, mapping: map<Key, RenamedFileMappingData>,
                    unpackDir: string, inflate: seq<byte> -> seq<byte>, lo: int, hi: int): map<string, seq<byte>>
    requires Unpackable(a, mapping, inflate, lo, hi)
    decreases hi - lo
  {
    if hi == lo then out
    else
      var prev := Unpacked(out, a, mapping, unpackDir, inflate, lo, hi - 1);
      var f := a.filesList[hi - 1];
      if !Named(f) then prev
      else prev[OutputPath(unpackDir, mapping, f) := Payload(a, f, inflate)]
  }

  /** Running the range [lo, mid) and then [mid, hi) is running [lo, hi). */
  lemma {:induction false} UnpackedSplit(out: map<string, seq<byte>>, a: PackedBigFile, mapping: map<Key, RenamedFileMappingData>,
                                         unpackDir: string, inflate: seq<byte> -> seq<byte>, lo: int, mid: int, hi: int)
    requires lo <= mid <= hi
    requires Unpackable(a, mapping, inflate, lo, hi)
    ensures Unpacked(Unpacked(out, a, mapping, unpackDir, inflate, lo, mid), a, mapping, unpackDir, inflate, mid, hi)
            == Unpacked(out, a, mapping, unpackDir, inflate, lo, hi)
    decreases hi - mid
  {
    if hi > mid {
      UnpackedSplit(out, a, mapping, unpackDir, inflate, lo, mid, hi - 1);
    }
  }

  /** A named file whose path no later file in the range reuses ends up
      holding exactly its record's payload. */
  lemma {:induction false} UnpackedHoldsPayload(out: map<string, seq<byte>>, a: PackedBigFile, mapping: map<Key, RenamedFileMappingData>,
                                                unpackDir: string, inflate: seq<byte> -> seq<byte>, lo: int, hi: int, i: int)
    requires Unpackable(a, mapping, inflate, lo, hi)
    requires lo <= i < hi && Named(a.filesList[i])
    requires forall j :: i < j < hi && Named(a.filesList[j]) ==>
               OutputPath(unpackDir, mapping, a.filesList[j]) != OutputPath(unpackDir, mapping, a.filesList[i])
    ensures var r, p := Unpacked(out, a, mapping, unpackDir, inflate, lo, hi), OutputPath(unpackDir, mapping, a.filesList[i]);
      p in r && r[p] == Payload(a, a.filesList[i], inflate)
    decreases hi - lo
  {
    if i < hi - 1 {
      UnpackedHoldsPayload(out, a, mapping, unpackDir, inflate, lo, hi - 1, i);
    }
  }

  /** A path that no named file of the range maps to is left as it was;
      unnamed files write nothing. */
  lemma {:induction false} UnpackedLeavesOthers(out: map<string, seq<byte>>, a: PackedBigFile, mapping: map<Key, RenamedFileMappingData>,
                                                unpackDir: string, inflate: seq<byte> -> seq<byte>, lo: int, hi: int, p: string)
    requires Unpackable(a, mapping, inflate, lo, hi)
    requires forall j :: lo <= j < hi && Named(a.filesList[j]) ==> OutputPath(unpackDir, mapping, a.filesList[j]) != p
    ensures var r := Unpacked(out, a, mapping, unpackDir, inflate, lo, hi);
      (p in r <==> p in out) && (p in out ==> r[p] == out[p])
    decreases hi - lo
  {
    if hi > lo {
      UnpackedLeavesOthers(out, a, mapping, unpackDir, inflate, lo, hi - 1, p);
    }
  }

  /** What UnpackBigfile needs of the archive: the keys of the tree are
      unique (the rename map's Add throws otherwise), and every named entry
      of FilesList has an entry in the tree's rename map (the worker's map
      lookup throws otherwise) and a record that reads in full. By
      RenameMapKeys the rename map's keys are exactly the tree's keys. */
  predicate WellFormed(a: PackedBigFile, inflate: seq<byte> -> seq<byte>) {
    && UniqueKeys(Flatten(a.rootFolder))
    && Unpackable(a, RenameMap(Flatten(a.rootFolder)), inflate, 0, |a.filesList|)
  }

  lemma UniqueKeysFresh(all: seq<FileEntry>, n: nat)
    requires UniqueKeys(all) && n < |all|
    ensures all[n].key !in KeysOf(all[..n])
  {
    forall x | x in KeysOf(all[..n]) ensures x != all[n].key {
      var i :| 0 <= i < n && all[..n][i].key == x;
      assert all[..n][i] == all[i];
    }
  }

  lemma {:induction false} FlattenAllPrefix(folders: seq<Folder>, j: nat)
    requires j <= |folders|
    ensures FlattenAll(folders[..j]) <= FlattenAll(folders)
  {
    if j < |folders| {
      var init := folders[..|folders| - 1];
      assert init[..j] == folders[..j];
      FlattenAllPrefix(init, j);
    } else {
      assert folders[..j] == folders;
    }
  }

  /** One step of the files loop: the file's key is new, and the counter
      and map updates the loop performs are those of visiting the file. */
  lemma MapFileStep(done: seq<FileEntry>, all: seq<FileEntry>, file: FileEntry)
    requires UniqueKeys(all) && done <= all && |done| < |all| && all[|done|] == file
    ensures file.key !in RenameMap(done)
    ensures var p, c := FullName(file), RenameCounts(done);
      && RenameCounts(done + [file]) == (if p in c then c[p := c[p] + 1] else c[p := 1])
      && (p in c ==> (c[p] >= 1 && RenameMap(done + [file])
            == RenameMap(done)[file.key := RenamedFileMappingData(file.key, file.name, p + "_" + NatToString(c[p] + 1))]))
      && (p !in c ==> (RenameMap(done + [file])
            == RenameMap(done)[file.key := RenamedFileMappingData(file.key, file.name, p)]))
  {
    RenameCountsStep(done, file);
    RenameMapSnoc(done, file);
    assert done == all[..|done|];
    UniqueKeysFresh(all, |done|);
    RenameMapKeys(done);
  }

  /** Where the files loop stands after j files: the next file follows
      the visited ones in the traversal. */
  lemma FileStep(visited: seq<FileEntry>, folder: Folder, j: nat)
    requires j < |folder.files|
    ensures visited + folder.files[..j] + [folder.files[j]] == visited + folder.files[..j + 1]
    ensures visited + folder.files[..j] <= visited + Flatten(folder)
    ensures (visited + Flatten(folder))[|visited + folder.files[..j]|] == folder.files[j]
  {
    assert folder.files[..j + 1] == folder.files[..j] + [folder.files[j]];
    assert (visited + Flatten(folder))[..|visited| + j] == visited + folder.files[..j];
  }

  /** Once all files of the folder are visited, no subfolder is. */
  lemma FilesDone(visited: seq<FileEntry>, folder: Folder)
    ensures visited + folder.files[..|folder.files|] == visited + folder.files + FlattenAll(folder.subFolders[..0])
  {
    assert folder.files[..|folder.files|] == folder.files;
  }

  /** The files visited once the first j subfolders are done are a prefix
      of the whole traversal, and the next subfolder's files follow them. */
  lemma SubfolderStep(visited: seq<FileEntry>, folder: Folder, j: nat)
    requires j < |folder.subFolders|
    requires UniqueKeys(visited + Flatten(folder))
    ensures var before := visited + folder.files + FlattenAll(folder.subFolders[..j]);
      && visited + folder.files + FlattenAll(folder.subFolders[..j + 1]) == before + Flatten(folder.subFolders[j])
      && before + Flatten(folder.subFolders[j]) <= visited + Flatten(folder)
      && UniqueKeys(before + Flatten(folder.subFolders[j]))
  {
    var subs := folder.subFolders[..j + 1];
    assert subs[..j] == folder.subFolders[..j];
    FlattenAllPrefix(folder.subFolders, j + 1);
    var all := visited + Flatten(folder);
    var next := visited + folder.files + FlattenAll(subs);
    assert next == all[..|next|];
  }

  /** After the last subfolder the whole folder has been visited. */
  lemma SubfoldersDone(visited: seq<FileEntry>, folder: Folder)
    ensures visited + folder.files + FlattenAll(folder.subFolders[..|folder.subFolders|]) == visited + Flatten(folder)
  {
    assert folder.subFolders[..|folder.subFolders|] == folder.subFolders;
  }

  /** A worker told to unpack partition i of n files to unpackDir with the
      given mapping. */
  predicate Assigned(t: UnpackThreadInfo, i: nat, n: nat, unpackDir: string, mapping: RenamedFileMapping)
    reads t
  {
    && t.unpackDir == unpackDir && t.fileMapping == mapping && t.threadID == i
    && t.startIndex == PartitionStart(i, n) && t.count == PartitionCount(i, n)
  }

  class BigFileUnpacker {
    const bigFile: PackedBigFile
    var unpackThreads: array<UnpackThreadInfo?>

    /** Before the first unpack the worker array holds no workers. */
    constructor (bigFile: PackedBigFile)
      ensures this.bigFile == bigFile
      ensures fresh(unpackThreads) && unpackThreads.Length == NUM_THREADED_TASKS
      ensures forall i :: 0 <= i < unpackThreads.Length ==> unpackThreads[i] == null
    {
      this.bigFile := bigFile;
      unpackThreads := new UnpackThreadInfo?[NUM_THREADED_TASKS](_ => null);
    }

    /** True exactly when some worker's isUnpacking flag is set. */
    method IsUnpacking() returns (unpacking: bool)
      requires unpackThreads.Length == NUM_THREADED_TASKS
      requires forall i :: 0 <= i < unpackThreads.Length ==> unpackThreads[i] != null
      ensures unpacking <==> exists i :: 0 <= i < unpackThreads.Length && unpackThreads[i].isUnpacking
    {
      for i := 0 to NUM_THREADED_TASKS
        invariant forall k :: 0 <= k < i ==> !unpackThreads[k].isUnpacking
      {
        if unpackThreads[i].isUnpacking {
          return true;
        }
      }
      return false;
    }

    /** Creates dir\FullDirectoryName for every folder of the archive's root
        folder map (the source walks bigFile.RootFolder, whatever folder it
        is passed). */
    method CreateDirectoriesFromTree(dir: string, rootFolder: Folder, disk: FileSystem)
      modifies disk
      ensures disk.directories == old(disk.directories) + TreeDirectories(dir, bigFile.rootFolder)
      ensures disk.files == old(disk.files)
    {
      var folderMap := bigFile.rootFolder.folderMap;
      var remaining := folderMap.Keys;
      while remaining != {}
        invariant remaining <= folderMap.Keys
        invariant disk.directories == old(disk.directories) + FolderDirectories(dir, folderMap, folderMap.Keys - remaining)
        invariant disk.files == old(disk.files)
        decreases remaining
      {
        ghost var some := ElementOf(remaining);
        var folderId :| folderId in remaining;
        var str := dir + SEPARATOR + folderMap[folderId].fullDirectoryName;
        FolderDirectoriesStep(dir, folderMap, folderMap.Keys - remaining, folderId);
        assert folderMap.Keys - (remaining - {folderId}) == (folderMap.Keys - remaining) + {folderId};
        if str !in disk.directories {
          disk.CreateDirectory(str);
        }
        remaining := remaining - {folderId};
      }
      assert folderMap.Keys - remaining == folderMap.Keys;
    }

    /** The rename map of a whole tree: every file, in traversal order, with
        its collision-resolved name. Keys must be unique (Map.Add throws on a
        repeated key). */
    method CreateRenamedFileMapping(folder: Folder) returns (mapping: RenamedFileMapping)
      requires UniqueKeys(Flatten(folder))
      ensures fresh(mapping)
      ensures mapping.Map == RenameMap(Flatten(folder))
    {
      mapping := new RenamedFileMapping();
      var fileRenameCounts := new RenameCounter();
      assert FullNames([]) == {};
      MapFolder(folder, mapping, fileRenameCounts, []);
      assert [] + Flatten(folder) == Flatten(folder);
    }

    /** The body of the files loop: counts one more occurrence of the file's
        full name and adds its entry, suffixed from the second occurrence on. */
    method AddFile(file: FileEntry, mapping: RenamedFileMapping, fileRenameCounts: RenameCounter,
                   ghost done: seq<FileEntry>, ghost all: seq<FileEntry>)
      requires UniqueKeys(all) && done <= all && |done| < |all| && all[|done|] == file
      requires mapping.Map == RenameMap(done)
      requires fileRenameCounts.Counts == RenameCounts(done)
      modifies mapping, fileRenameCounts
      ensures mapping.Map == RenameMap(done + [file])
      ensures fileRenameCounts.Counts == RenameCounts(done + [file])
    {
      MapFileStep(done, all, file);
      var fullName := file.fullFolderPath + file.name;
      if fullName in fileRenameCounts.Counts {
        var n := fileRenameCounts.Counts[fullName] + 1;
        fileRenameCounts.Counts := fileRenameCounts.Counts[fullName := n];
        fullName := fullName + "_" + NatToString(n);
      } else {
        fileRenameCounts.Counts := fileRenameCounts.Counts[fullName := 1];
      }
      var data := RenamedFileMappingData(file.key, file.name, fullName);
      mapping.Map := mapping.Map[file.key := data];
    }

    /** The recursive call of CreateRenamedFileMapping: adds the files of
        folder, then those of its subfolders, to a mapping and counter that
        already hold the files visited before. */
    method MapFolder(folder: Folder, mapping: RenamedFileMapping, fileRenameCounts: RenameCounter, ghost visited: seq<FileEntry>)
      requires mapping.Map == RenameMap(visited)
      requires fileRenameCounts.Counts == RenameCounts(visited)
      requires UniqueKeys(visited + Flatten(folder))
      modifies mapping, fileRenameCounts
      ensures mapping.Map == RenameMap(visited + Flatten(folder))
      ensures fileRenameCounts.Counts == RenameCounts(visited + Flatten(folder))
      decreases folder
    {
      ghost var all := visited + Flatten(folder);
      ghost var done := visited;
      for j := 0 to |folder.files|
        invariant done == visited + folder.files[..j]
        invariant mapping.Map == RenameMap(done)
        invariant fileRenameCounts.Counts == RenameCounts(done)
      {
        var file := folder.files[j];
        FileStep(visited, folder, j);
        AddFile(file, mapping, fileRenameCounts, done, all);
        done := done + [file];
      }
      FilesDone(visited, folder);
      for j := 0 to |folder.subFolders|
        invariant done == visited + folder.files + FlattenAll(folder.subFolders[..j])
        invariant mapping.Map == RenameMap(done)
        invariant fileRenameCounts.Counts == RenameCounts(done)
      {
        SubfolderStep(visited, folder, j);
        MapFolder(folder.subFolders[j], mapping, fileRenameCounts, done);
        done := done + Flatten(folder.subFolders[j]);
      }
      SubfoldersDone(visited, folder);
    }

    /** The worker set-up of UnpackBigfile: four fresh workers, the i-th
        given the i-th partition of the n files, none of them at work. */
    method SetUpPartitions(n: nat, unpackDir: string, mapping: RenamedFileMapping)
      modifies this
      ensures fresh(unpackThreads) && unpackThreads.Length == NUM_THREADED_TASKS
      ensures forall i :: 0 <= i < NUM_THREADED_TASKS ==>
                unpackThreads[i] != null && fresh(unpackThreads[i])
                && Assigned(unpackThreads[i], i, n, unpackDir, mapping) && !unpackThreads[i].isUnpacking
      ensures forall i, j :: 0 <= i < j < NUM_THREADED_TASKS ==> unpackThreads[i] != unpackThreads[j]
    {
      var threads := new UnpackThreadInfo?[NUM_THREADED_TASKS];
      var dividedCount := n / NUM_THREADED_TASKS;
      var dividedRemainder := n % NUM_THREADED_TASKS;
      for i := 0 to NUM_THREADED_TASKS
        invariant forall k :: 0 <= k < i ==>
                    threads[k] != null && fresh(threads[k]) && !threads[k].isUnpacking
                    && threads[k].unpackDir == unpackDir && threads[k].fileMapping == mapping && threads[k].threadID == k
                    && threads[k].startIndex == k * dividedCount && threads[k].count == dividedCount
        invariant forall k, l :: 0 <= k < l < i ==> threads[k] != threads[l]
      {
        threads[i] := new UnpackThreadInfo(unpackDir, mapping, i * dividedCount, dividedCount, i);
      }
      threads[LAST_TASK].count := threads[LAST_TASK].count + dividedRemainder;
      unpackThreads := threads;
    }

    /** One worker: extracts FilesList[startIndex .. startIndex + count) in
        order, skipping files without a name, each named file's record read
        at its seek position and written to unpackDir + its mapped name. */
    method InternalUnpackFiles(info: UnpackThreadInfo, disk: FileSystem, inflate: seq<byte> -> seq<byte>)
      requires Unpackable(bigFile, info.fileMapping.Map, inflate, info.startIndex, info.startIndex + info.count)
      modifies info, disk
      ensures info.unpackDir == old(info.unpackDir) && info.fileMapping == old(info.fileMapping)
      ensures info.startIndex == old(info.startIndex) && info.count == old(info.count)
      ensures info.threadID == old(info.threadID) && !info.isUnpacking
      ensures disk.files == Unpacked(old(disk.files), bigFile, info.fileMapping.Map, info.unpackDir, inflate,
                                     info.startIndex, info.startIndex + info.count)
      ensures disk.directories == old(disk.directories)
    {
      info.isUnpacking := true;
      var unpackDir, fileMapping := info.unpackDir, info.fileMapping;
      var startIndex, count := info.startIndex, info.count;
      var dataOffset := bigFile.dataOffset;
      var fs := new ByteStream(bigFile.bytes);
      ghost var m, out := fileMapping.Map, disk.files;
      assert Unpackable(bigFile, m, inflate, startIndex, startIndex + count);
      for i := startIndex to startIndex + count
        invariant info.unpackDir == unpackDir && info.fileMapping == fileMapping
        invariant info.startIndex == startIndex && info.count == count && info.threadID == old(info.threadID)
        invariant fs.data == bigFile.bytes
        invariant disk.files == Unpacked(out, bigFile, m, unpackDir, inflate, startIndex, i)
        invariant disk.directories == old(disk.directories)
      {
        var currFile := bigFile.filesList[i];
        if currFile.name == "" {
          continue;
        }
        assert currFile.key in m && RecordReadable(bigFile, currFile, inflate);
        var buffer := fs.ReadRecordAt(SeekPosition(dataOffset, currFile.offset), currFile.zip, inflate);
        disk.WriteFile(unpackDir + fileMapping.Map[currFile.key].fileName, buffer);
      }
      info.isUnpacking := false;
    }

    /** Hands each worker its partition, in order; run one after the other,
        the workers extract FilesList[0 .. n) in list order. */
    method RunWorkers(disk: FileSystem, inflate: seq<byte> -> seq<byte>, ghost n: nat, ghost unpackDir: string,
                      ghost mapping: RenamedFileMapping)
      requires n == |bigFile.filesList| && Unpackable(bigFile, mapping.Map, inflate, 0, n)
      requires unpackThreads.Length == NUM_THREADED_TASKS
      requires forall k :: 0 <= k < NUM_THREADED_TASKS ==>
                 unpackThreads[k] != null && Assigned(unpackThreads[k], k, n, unpackDir, mapping)
      requires forall k, l :: 0 <= k < l < NUM_THREADED_TASKS ==> unpackThreads[k] != unpackThreads[l]
      modifies disk, set k | 0 <= k < NUM_THREADED_TASKS :: unpackThreads[k]
      ensures disk.files == Unpacked(old(disk.files), bigFile, mapping.Map, unpackDir, inflate, 0, n)
      ensures disk.directories == old(disk.directories)
      ensures forall k :: 0 <= k < NUM_THREADED_TASKS ==>
                Assigned(unpackThreads[k], k, n, unpackDir, mapping) && !unpackThreads[k].isUnpacking
    {
      PartitionsTile(n);
      ghost var start := disk.files;
      for i := 0 to NUM_THREADED_TASKS
        invariant forall k :: 0 <= k < NUM_THREADED_TASKS ==> Assigned(unpackThreads[k], k, n, unpackDir, mapping)
        invariant forall k :: 0 <= k < i ==> !unpackThreads[k].isUnpacking
        invariant disk.files == Unpacked(start, bigFile, mapping.Map, unpackDir, inflate, 0, if i == 0 then 0 else PartitionEnd(i - 1, n))
        invariant disk.directories == old(disk.directories)
      {
        assert (if i == 0 then 0 else PartitionEnd(i - 1, n)) == PartitionStart(i, n);
        RunWorker(i, disk, inflate, n, unpackDir, mapping, start);
      }
    }

    /** Runs worker i after workers 0 .. i - 1: the files written so far grow
        from FilesList[0 .. start of partition i) to [0 .. its end). */
    method RunWorker(i: nat, disk: FileSystem, inflate: seq<byte> -> seq<byte>, ghost n: nat, ghost unpackDir: string,
                     ghost mapping: RenamedFileMapping, ghost start: map<string, seq<byte>>)
      requires i < NUM_THREADED_TASKS && unpackThreads.Length == NUM_THREADED_TASKS
      requires n == |bigFile.filesList| && Unpackable(bigFile, mapping.Map, inflate, 0, n)
      requires unpackThreads[i] != null && Assigned(unpackThreads[i], i, n, unpackDir, mapping)
      requires disk.files == Unpacked(start, bigFile, mapping.Map, unpackDir, inflate, 0, PartitionStart(i, n))
      modifies disk, unpackThreads[i]
      ensures Assigned(unpackThreads[i], i, n, unpackDir, mapping) && !unpackThreads[i].isUnpacking
      ensures disk.files == Unpacked(start, bigFile, mapping.Map, unpackDir, inflate, 0, PartitionEnd(i, n))
      ensures disk.directories == old(disk.directories)
    {
      var info := unpackThreads[i];
      PartitionsTile(n);
      ghost var lo, hi := PartitionStart(i, n), PartitionEnd(i, n);
      assert info.startIndex == lo && info.startIndex + info.count == hi && hi <= n;
      UnpackedSplit(start, bigFile, mapping.Map, unpackDir, inflate, 0, lo, hi);
      InternalUnpackFiles(info, disk, inflate);
    }

    /** Extracts the whole archive under dir: dir and dir\unpackDirName are
        created, then one directory per folder, then the rename map is built
        and the four workers extract their partitions. Every named file of
        FilesList ends up written, in list order, to the unpack directory plus
        its mapped name, and no worker is left at work. */
    method UnpackBigfile(dir: string, unpackDirName: string, disk: FileSystem, inflate: seq<byte> -> seq<byte>)
      requires WellFormed(bigFile, inflate)
      modifies this, disk
      ensures var unpackDir := dir + SEPARATOR + unpackDirName;
        disk.directories == old(disk.directories) + {dir, unpackDir} + TreeDirectories(unpackDir, bigFile.rootFolder)
      ensures disk.files == Unpacked(old(disk.files), bigFile, RenameMap(Flatten(bigFile.rootFolder)),
                                     dir + SEPARATOR + unpackDirName, inflate, 0, |bigFile.filesList|)
      ensures unpackThreads.Length == NUM_THREADED_TASKS
      ensures forall i, j :: 0 <= i < j < NUM_THREADED_TASKS ==> unpackThreads[i] != unpackThreads[j]
      ensures forall i :: 0 <= i < NUM_THREADED_TASKS ==>
                && unpackThreads[i] != null && !unpackThreads[i].isUnpacking
                && unpackThreads[i].threadID == i
                && unpackThreads[i].startIndex == PartitionStart(i, |bigFile.filesList|)
                && unpackThreads[i].count == PartitionCount(i, |bigFile.filesList|)
                && unpackThreads[i].unpackDir == dir + SEPARATOR + unpackDirName
                && unpackThreads[i].fileMapping.Map == RenameMap(Flatten(bigFile.rootFolder))
    {
      if dir !in disk.directories {
        disk.CreateDirectory(dir);
      }
      var unpackDir := dir + SEPARATOR + unpackDirName;
      disk.CreateDirectory(unpackDir);
      CreateDirectoriesFromTree(unpackDir, bigFile.rootFolder, disk);
      var renamedMapping := CreateRenamedFileMapping(bigFile.rootFolder);
      var n := |bigFile.filesList|;
      SetUpPartitions(n, unpackDir, renamedMapping);
      RunWorkers(disk, inflate, n, unpackDir, renamedMapping);
    }
  }
}
