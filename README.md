# BigFile unpacker and batch loader, modelled in Dafny

This project models two parts of the GRPExplorer library's archive ("BigFile") engine and proves properties of both.

**BigFileUnpacker** extracts every file of a packed archive into a directory tree. The model covers:

- **Rename map.** `CreateRenamedFileMapping` walks the folder tree depth-first and gives each file key a collision-resolved path. A folder's files come before its subfolders.
  - The first file with a given `FullFolderPath + Name` keeps that path.
  - The k-th file with that path (k >= 2) gets `"_" + k` appended.
- **Directories.** `CreateDirectoriesFromTree` creates one directory per entry of the root folder's folder map.
- **Partitions.** `UnpackBigfile` splits the flat file list into four contiguous partitions of N / 4 entries each. The remainder N % 4 goes to the last partition.
- **Workers.** Each worker (`internal_UnpackFiles`) seeks to each entry's record and writes its payload to the unpack directory plus the entry's mapped name.
  - A stored record is a little-endian int32 length followed by that many bytes.
  - A deflated record is an int32 compressed size, an int32 uncompressed size, the 2-byte zlib header (section 2.2 of RFC 1950), then a DEFLATE stream (RFC 1951).
- **IsUnpacking** is true exactly when some worker is at work.

**BigFileFileLoader** has two parts:

- `LoadReferences` sorts an entry array in place by payload offset, with entries that have no payload (offset -1) last. It then gives the i-th header the reader yields to the i-th sorted entry.
- `LoadFiles` loads each entry of a list in order. An entry whose data read fails is skipped, and an error naming it is logged.

Module layout:

| file | module | what it holds |
|---|---|---|
| `binary.dfy` | `Binary` | bytes; the little-endian int32 of `BitConverter`; C#'s unchecked 32-bit arithmetic |
| `tree.dfy` | `BigFileTree` | file entries, folders, the depth-first traversal order |
| `renaming.dfy` | `Renaming` | the reference definition of the rename map, and its properties |
| `records.dfy` | `RecordFraming` | the seek position and the stored and deflated record layouts |
| `partition.dfy` | `Partitioning` | the four-way split of the file list |
| `unpacker.dfy` | `Unpacker` | `BigFileUnpacker` and the objects it updates (workers, rename map, counters, the disk, the archive stream) |
| `loader.dfy` | `FileLoader` | `YetiObject`, the offset order, the in-place sort, `LoadReferences`, `LoadFiles` |

Behaviours of the code a reader might not expect (the model follows the code):

- **Rename numbering.** The counter is incremented before it is appended, so the second occurrence of a path becomes `path_2`, not `path_1`.
- **Rename map paths can repeat.** A suffixed name is never entered into the counters, so a file literally named `x_2` lands on the same path as the second file named `x` (`Renaming.RenamedPathsCanCollide`). Likewise two files whose full names differ only in letter case (`a.dds` and `A.dds` in one folder) are counted separately and both keep their names, and Windows then writes them to the same file. The model does not claim the mapped paths are unique.
- **Subfolder order.** Subfolders are visited in the order of the folder's `SubFolders` list.
- **Directory source.** `CreateDirectoriesFromTree` walks the archive's own root folder map, whatever folder it is passed.
- **Sort.** `Array.Sort` is not stable. The model promises sorted order and a permutation, and no order among entries with equal offsets.
- **No join.** `UnpackBigfile` queues its workers and returns without waiting for them.

## Model

Definitions that transcribe a single source expression have no row of their own; the rows of the lemmas about them state what they mean:
`Binary.Int32At` (`BitConverter.ToInt32`, GRPExplorerLib/BigFile/BigFileUnpacker.cs:185) by `Binary.Int32RoundTrip` and `Binary.Int32BytesOfRead`;
`Renaming.NatToString` (`int.ToString`, line 289) by `Renaming.NatToStringRoundTrip`;
`BigFileTree.Flatten` (the traversal of lines 282-311) by `BigFileTree.FlattenHoldsTree`;
`Partitioning.PartitionStart` and `Partitioning.PartitionCount` (lines 127-133) by `Partitioning.PartitionsTile` and `Partitioning.EachIndexInOnePartition`;
`Unpacker.OutputPath` (line 207) by `Unpacker.UnpackedHoldsPayload` and `Unpacker.UnpackedLeavesOthers`;
`FileLoader.ErrorMessage` (GRPExplorerLib/BigFile/Files/BigFileFileLoader.cs:39) by `FileLoader.ErrorLogNamesFailures`.

| member | source | states |
|---|---|---|
| `Binary.Int32RoundTrip` | GRPExplorerLib/BigFile/BigFileUnpacker.cs:184-185 | the four little-endian bytes of an int32, read with `BitConverter.ToInt32`, give back that int32 |
| `RecordFraming.SeekPosition` | GRPExplorerLib/BigFile/BigFileUnpacker.cs:176 | the seek target `(uint)dataOffset + (uint)(offset * 8)` is below 2^32; it is `dataOffset + 8 * offset` when that is in range; the sentinel offset -1 seeks 8 bytes before the payload segment |
| `RecordFraming.ReadRecord` | GRPExplorerLib/BigFile/BigFileUnpacker.cs:182-205 | a parsed stored record's payload is as long as the int32 at the seek position; a deflated one's is as long as the second int32 (the first, the compressed size, is ignored) |
| `RecordFraming.StoredRecordRoundTrip` | GRPExplorerLib/BigFile/BigFileUnpacker.cs:182-190 | a length-prefixed payload reads back as exactly that payload, whatever bytes surround it |
| `Binary.Int32BytesOfRead` | GRPExplorerLib/BigFile/BigFileUnpacker.cs:184-185 | conversely, any four bytes are exactly the encoding of the int32 `BitConverter.ToInt32` reads from them |
| `RecordFraming.DeflatedRecordRoundTrip` | GRPExplorerLib/BigFile/BigFileUnpacker.cs:191-205 | a deflated record reads back as the first `size` bytes of what the stream 10 bytes after the seek point inflates to, whatever its compressed-size and zlib-header bytes are |
| `Partitioning.PartitionsTile` | GRPExplorerLib/BigFile/BigFileUnpacker.cs:117-133 | partition 0 starts at 0; each partition ends where the next starts; the last ends at N; the four counts sum to N |
| `Partitioning.EachIndexInOnePartition` | GRPExplorerLib/BigFile/BigFileUnpacker.cs:117-133 | every index of the file list lies in exactly one of the four partitions |
| `BigFileTree.FlattenHoldsTree` | GRPExplorerLib/BigFile/BigFileUnpacker.cs:282-311 | the depth-first traversal (files, then subfolders recursively) visits exactly the files stored in the tree |
| `BigFileTree.FlattenAllHolds` | GRPExplorerLib/BigFile/BigFileUnpacker.cs:308-311 | the traversal of a list of subfolders visits exactly the files of those subfolders' trees |
| `RecordFraming.RecordShape` | GRPExplorerLib/BigFile/BigFileUnpacker.cs:182-205 | every record the reader accepts has the round-trip layout: a stored one is the encoded payload length followed by the payload; a deflated one has the encoded payload length as its second int32 and a payload that starts what the stream after the zlib header inflates to; the length is below 2^31 |
| `Renaming.NatToStringRoundTrip` | GRPExplorerLib/BigFile/BigFileUnpacker.cs:289 | the decimal counter appended after `_` reads back as the counter, so distinct counters give distinct suffixes |
| `Renaming.RenameCountsStep` | GRPExplorerLib/BigFile/BigFileUnpacker.cs:286-294 | visiting one more file increments its full name's counter, or adds it with 1; a name has a counter exactly when it occurred before |
| `Renaming.RenameMapSnoc` | GRPExplorerLib/BigFile/BigFileUnpacker.cs:298-305 | visiting one more file adds exactly its entry (key, original name, renamed path) to the map |
| `Renaming.RenameMapKeys` | GRPExplorerLib/BigFile/BigFileUnpacker.cs:305 | the map's keys are exactly the keys of the visited files |
| `Renaming.RenameMapEntry` | GRPExplorerLib/BigFile/BigFileUnpacker.cs:305 | with unique keys, no later file overwrites an earlier file's entry |
| `Renaming.RenameMapAt` | GRPExplorerLib/BigFile/BigFileUnpacker.cs:284-305 | each file has one entry with its key and original name; the k-th file with a full name p maps to p when k = 1 and to p + "_" + k when k >= 2 |
| `Renaming.RenamedPathsCanCollide` | GRPExplorerLib/BigFile/BigFileUnpacker.cs:286-294 | files `x`, `x`, `x_2` in one folder, with distinct keys, map the second and third to the same path `x_2` |
| `Unpacker.FileSystem.CreateDirectory` | GRPExplorerLib/BigFile/BigFileUnpacker.cs:264 | the path is added to the existing directories; no file changes |
| `Unpacker.FileSystem.WriteFile` | GRPExplorerLib/BigFile/BigFileUnpacker.cs:210-213 | the file at the path holds exactly the bytes written; every other file is unchanged |
| `Unpacker.ByteStream.Seek` | GRPExplorerLib/BigFile/BigFileUnpacker.cs:176 | the stream position becomes the target |
| `Unpacker.ByteStream.Read` | GRPExplorerLib/BigFile/BigFileUnpacker.cs:184-189 | a read that fits returns the bytes at the position and advances past them; a read never returns more than asked |
| `Unpacker.ByteStream.ReadInflated` | GRPExplorerLib/BigFile/BigFileUnpacker.cs:201-204 | returns the first `count` bytes of what the rest of the stream inflates to, whenever there are that many, and leaves the position at the end of the stream |
| `Unpacker.ByteStream.ReadRecordAt` | GRPExplorerLib/BigFile/BigFileUnpacker.cs:176-205 | the reads the worker performs after seeking yield exactly the record's payload as `ReadRecord` defines it; a stored record leaves the stream just past its payload, a deflated one at the end of the stream |
| `Unpacker.UnpackThreadInfo.constructor` | GRPExplorerLib/BigFile/BigFileUnpacker.cs:122-131 | a worker holds its unpack directory, mapping, start index, count and id, and is not at work |
| `Unpacker.RenamedFileMapping.constructor` | GRPExplorerLib/BigFile/BigFileUnpacker.cs:276 | a new rename map is empty |
| `Unpacker.RenameCounter.constructor` | GRPExplorerLib/BigFile/BigFileUnpacker.cs:277 | a new counter dictionary is empty |
| `Unpacker.UnpackedSplit` | GRPExplorerLib/BigFile/BigFileUnpacker.cs:164 | extracting [lo, mid) and then [mid, hi) gives the same disk as extracting [lo, hi) |
| `Unpacker.UnpackedHoldsPayload` | GRPExplorerLib/BigFile/BigFileUnpacker.cs:207-213 | a named file whose path no later file in the range reuses ends up holding exactly its record's payload |
| `Unpacker.UnpackedLeavesOthers` | GRPExplorerLib/BigFile/BigFileUnpacker.cs:166-171 | a path that no named file in the range maps to is left as it was; unnamed files write nothing |
| `Unpacker.BigFileUnpacker.constructor` | GRPExplorerLib/BigFile/BigFileUnpacker.cs:72-75 | the unpacker holds its archive; its worker array has four empty slots |
| `Unpacker.BigFileUnpacker.IsUnpacking` | GRPExplorerLib/BigFile/BigFileUnpacker.cs:57-69 | true exactly when some worker's `isUnpacking` flag is set |
| `Unpacker.BigFileUnpacker.CreateDirectoriesFromTree` | GRPExplorerLib/BigFile/BigFileUnpacker.cs:253-269 | afterwards the directories are the old ones plus `dir\FullDirectoryName` for every folder of the archive root's folder map; files are untouched |
| `Unpacker.BigFileUnpacker.CreateRenamedFileMapping` | GRPExplorerLib/BigFile/BigFileUnpacker.cs:271-320 | for a tree with unique keys, returns a new map equal to `RenameMap` of the depth-first traversal |
| `Unpacker.BigFileUnpacker.AddFile` | GRPExplorerLib/BigFile/BigFileUnpacker.cs:284-305 | one loop body takes the map and counters for the files before this one to those including it |
| `Unpacker.BigFileUnpacker.MapFolder` | GRPExplorerLib/BigFile/BigFileUnpacker.cs:282-311 | the recursive call extends the map and counters from the files visited so far by all files of the folder, files first, then subfolders in order |
| `Unpacker.BigFileUnpacker.SetUpPartitions` | GRPExplorerLib/BigFile/BigFileUnpacker.cs:116-133 | four new, distinct workers; worker i starts at `i * (N / 4)` and takes N / 4 entries, plus N % 4 for the last; none is at work |
| `Unpacker.BigFileUnpacker.InternalUnpackFiles` | GRPExplorerLib/BigFile/BigFileUnpacker.cs:150-222 | the disk afterwards is the old disk with the range's named files written in order, each at unpack directory plus mapped name with its record's payload; the worker is flagged not at work at the end and its assignment is unchanged |
| `Unpacker.BigFileUnpacker.RunWorkers` | GRPExplorerLib/BigFile/BigFileUnpacker.cs:135-138 | running the four workers in turn writes the whole file list [0, N), leaves each worker not at work and keeps each worker's assignment (id, start index, count, unpack directory and mapping) |
| `Unpacker.BigFileUnpacker.RunWorker` | GRPExplorerLib/BigFile/BigFileUnpacker.cs:135-138 | running worker i after workers 0 .. i-1 extends the written files from FilesList[0, start of partition i) to [0, end of partition i) and keeps the worker's assignment |
| `Unpacker.BigFileUnpacker.UnpackBigfile` | GRPExplorerLib/BigFile/BigFileUnpacker.cs:77-147 | creates `dir`, `dir\unpackDirName` and one directory per entry of the archive root's folder map; every named entry of the file list is written under the rename map of the tree, in list order; four distinct workers are made, worker i with id i, the start index and count of partition i, the unpack directory `dir\unpackDirName` and the rename map of the tree, and none is left at work |
| `FileLoader.YetiObject.Load` | GRPExplorerLib/BigFile/Files/BigFileFileLoader.cs:36 | the entry is loaded with exactly the first `size` bytes of the buffer; its references are kept |
| `FileLoader.YetiObject.AddFileReferences` | GRPExplorerLib/BigFile/Files/BigFileFileLoader.cs:35 | the entry's references become the header's; its loaded state is kept |
| `FileLoader.SourceOffsetCompare` | GRPExplorerLib/BigFile/Files/BigFileFileLoader.cs:53-62 | for offsets that are a payload offset or -1, not both -1, it orders the two entries with the same sign as the total order `OffsetCompare` (entries without a payload last); for two entries without a payload it gives 1 both ways (see Findings) |
| `FileLoader.SourceCompareInconsistent` | GRPExplorerLib/BigFile/Files/BigFileFileLoader.cs:56-57 | the as-written comparator compares two sentinel entries (or one with itself) as greater, not equal |
| `FileLoader.OffsetCompare` | GRPExplorerLib/BigFile/Files/BigFileFileLoader.cs:53-62 | 0 exactly for equal offsets; a sentinel compares greater than any offset; two offsets compare by `<` |
| `FileLoader.OffsetCompareIsOrder` | GRPExplorerLib/BigFile/Files/BigFileFileLoader.cs:53-62 | the corrected comparator is antisymmetric and transitive |
| `FileLoader.SortedByOffsetMeans` | GRPExplorerLib/BigFile/Files/BigFileFileLoader.cs:52-62 | sorted means no entry with a payload follows a sentinel entry, and the entries with a payload are in non-decreasing offset order |
| `FileLoader.SortByOffset` | GRPExplorerLib/BigFile/Files/BigFileFileLoader.cs:53 | the array ends up sorted by offset and holds the same entries (same multiset) |
| `FileLoader.PermutationKeepsDistinct` | GRPExplorerLib/BigFile/Files/BigFileFileLoader.cs:53 | reordering an array whose entries are distinct objects keeps them distinct |
| `FileLoader.PairHeaders` | GRPExplorerLib/BigFile/Files/BigFileFileLoader.cs:64-68 | each entry carries the header at its last position among the first `count` = number-of-headers entries, or keeps its old references; nothing is loaded |
| `FileLoader.PairedHeaderOfDistinct` | GRPExplorerLib/BigFile/Files/BigFileFileLoader.cs:64-68 | with distinct entries, `files[j]` gets the j-th header when j is below the header count, and none otherwise |
| `FileLoader.SortedPairing` | GRPExplorerLib/BigFile/Files/BigFileFileLoader.cs:50-68 | after the sort of distinct entries, the j-th header goes to the j-th sorted entry |
| `FileLoader.LoadReferences` | GRPExplorerLib/BigFile/Files/BigFileFileLoader.cs:48-69 | the array is sorted by offset and a permutation of the input; each entry carries its paired header or its old references; no entry is loaded or unloaded |
| `FileLoader.LoadFiles` | GRPExplorerLib/BigFile/Files/BigFileFileLoader.cs:26-41 | the log is one error per failed read, in list order; each entry is loaded from its last successful read (exact size, that read's header), or is unchanged if every read of it failed |
| `FileLoader.LastLoadOfDistinct` | GRPExplorerLib/BigFile/Files/BigFileFileLoader.cs:28-37 | with distinct entries, each entry is loaded from its own read exactly when that read did not return -1 |
| `FileLoader.ErrorLogNamesFailures` | GRPExplorerLib/BigFile/Files/BigFileFileLoader.cs:33-39 | a message is in the log exactly when it names an entry whose read returned -1 |

## Left out

- Logging, stopwatches, `DiagData` and `internal_OnThreadFinished`: these are diagnostics only.
- `GenerateYetiMetadataFile` and `UnpackedFileKeyMappingFile.SaveMappingData`: their files are written outside the extracted tree and their writers are not part of this model.
- Unpacker.FileSystem.WriteFile: always succeeds; `File.Create`'s failure when the target's directory does not exist, and every other I/O failure, is not modelled, so the directories created never limit which files can be written.
- Unpacker.FileSystem.WriteFile: paths are compared as exact strings, without Windows' case-insensitive file-name matching or the normalisation of `DirectoryInfo.FullName`. Mapped names that differ only in case are two files in the model and one file on disk, where the later `File.Create` truncates the earlier file; `Unpacker.UnpackedHoldsPayload` holds for exact strings only.
- Unpacker.BigFileUnpacker.UnpackBigfile: its `disk.files` ensures holds whether or not each file's folder was created, because writes cannot fail in the model (see `Unpacker.FileSystem.WriteFile`).
- Unpacker.BigFileUnpacker.UnpackBigfile: its `disk.files` ensures leaves out the metadata file and the saved mapping file.
- Unpacker.BigFileUnpacker.UnpackBigfile: the workers run one after the other instead of on the thread pool.
  - The source returns before they finish.
  - The final disk contents and "no worker at work" hold once all workers have finished.
  - Interleavings of the workers' writes are not modelled.
- Unpacker.BigFileUnpacker.UnpackBigfile: the source checks `dir.Exists` twice; the model checks once.
  - The second check reads a cached flag, and repeating `CreateDirectory` has no effect.
- Unpacker.BigFileUnpacker.UnpackBigfile: the value of `BigFileConst.UNPACK_DIR` is the parameter `unpackDirName`, because `BigFileConst` is not part of this model.
- `CalculateDataOffset` is not part of this model. The payload segment start is the archive's `dataOffset` field.
- Unpacker.BigFileUnpacker.InternalUnpackFiles: requires every named record in its range to read in full, with a non-negative size. It also requires every named entry to have a mapping entry.
  - On a short read the source writes stale bytes left in the pooled buffer.
  - On a missing mapping entry the source throws.
  - Neither behaviour is modelled.
- `IOBuffers` pooling is not modelled: each read returns a fresh sequence.
- DEFLATE decoding is the parameter `inflate`. `ByteStream.ReadInflated` leaves the stream at its end, standing for the deflate stream's read-ahead.
- `Directory.CreateDirectory` also creates missing parent directories; the model records only the named path.
- File and folder names that are null are modelled as the empty string.
- Unpacker.BigFileUnpacker.IsUnpacking: requires all four workers to exist. Before the first unpack the source's slots are null, and the property throws.
- `BigFileUnpacker.UnpackFiles(dir, folder, fileMapping)` has an empty body and is not modelled.
- The reader's `ReadAllHeaders`, `ReadFileHeader` and `ReadFileData` are not part of this model. Their results are parameters: the header list `headers` and the per-entry `results`.
- `AddFileReferencesToFile` is not part of this model. It is modelled as recording the header on the entry.
- `YetiObject.Load` is not part of this model. It is modelled as storing the first `size` bytes.
- FileLoader.LoadFiles: requires each read result to be -1 or a size that fits its buffer, as the reader promises.
- FileLoader.LoadReferences: requires no more headers than entries; the source indexes past the array otherwise.
- The `List<YetiObject>` overload of `LoadReferences` is not modelled. It passes the list's backing array, whose spare slots are null.
- FileLoader.SortByOffset: an insertion sort under the corrected comparator stands for `Array.Sort`. Only the result's order and permutation are specified, not the algorithm or the order of equal entries.

## Findings

| source | as written | input that shows it | evidently intended | confidence | as-written member | corrected member |
|---|---|---|---|---|---|---|
| GRPExplorerLib/BigFile/Files/BigFileFileLoader.cs:56-57 | the sort's comparator returns 1 whenever its first argument has offset -1, so two entries without a payload each compare greater than the other, and such an entry compares greater than itself | two entries with offset -1 (or one entry compared with itself) | entries without a payload compare equal to each other and greater than every entry with a payload, giving a consistent order for the sort | not executed | `FileLoader.SourceCompareInconsistent` | `FileLoader.OffsetCompareIsOrder` |
