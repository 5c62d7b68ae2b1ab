/** BigFileFileLoader: loads a batch of archive entries. LoadReferences sorts
    the entries by their payload offset, so that the reads walk the archive
    forward, and attaches to each entry the header the reader yields for it;
    LoadFiles reads and loads each entry of a list, logging and skipping the
    ones whose data cannot be read. */
module FileLoader {
  import opened Binary

  /** The offset of an entry that has no payload in the archive. */
  const NO_OFFSET: int := -1
  /** The size the reader returns when a file's data cannot be read. */
  const READ_FAILED: int := -1

  /** A loadable archive entry (YetiObject): its identity and place in the
      archive are fixed, its loaded state and references are updated. */
  class YetiObject {
    const key: int
    const name: string
    const fullFolderPath: string
    const offset: int
    var isLoaded: bool
    var data: seq<byte>
    var referenceHeader: seq<int>

    constructor (key: int, name: string, fullFolderPath: string, offset: int)
      ensures this.key == key && this.name == name && this.fullFolderPath == fullFolderPath
      ensures this.offset == offset
      ensures !isLoaded && data == [] && referenceHeader == []
    {
      this.key := key;
      this.name := name;
      this.fullFolderPath := fullFolderPath;
      this.offset := offset;
      isLoaded := false;
      data := [];
      referenceHeader := [];
    }

    /** Load(buffer, size): the entry takes the first size bytes of the
        buffer as its content. */
    method Load(buffer: seq<byte>, size: int)
      requires 0 <= size <= |buffer|
      modifies this
      ensures isLoaded && data == buffer[..size]
      ensures referenceHeader == old(referenceHeader)
    {
      data := buffer[..size];
      isLoaded := true;
    }

    /** AddFileReferencesToFile(file, header): the entry's references are
        those the header lists. */
    method AddFileReferences(header: seq<int>)
      modifies this
      ensures referenceHeader == header
      ensures isLoaded == old(isLoaded) && data == old(data)
    {
      referenceHeader := header;
    }
  }

  // ---------------------------------------------------------------------
  // The offset order
  // ---------------------------------------------------------------------

  /** The sign of a comparer's answer: only the sign carries meaning. */
  function Sign(x: int): int {
    if x < 0 then -1 else if x > 0 then 1 else 0
  }

  /** The comparator as the source writes it: a sentinel first argument
      compares greater, then a sentinel second argument compares less, then
      the 32-bit difference of the offsets. On offsets that are a payload
      offset or the sentinel it orders entries exactly as OffsetCompare
      below does, except for the pair of two sentinels. */
  function SourceOffsetCompare(a: int, b: int): (r: int)
    requires IsInt32(a) && IsInt32(b)
    ensures a == NO_OFFSET ==> r == 1
    ensures a != NO_OFFSET && b == NO_OFFSET ==> r == -1
    ensures a != NO_OFFSET && b != NO_OFFSET && IsInt32(a - b) ==> r == a - b
    ensures a >= NO_OFFSET && b >= NO_OFFSET && !(a == NO_OFFSET && b == NO_OFFSET)
            ==> Sign(r) == Sign(OffsetCompare(a, b))
  {
    if a == NO_OFFSET then 1
    else if b == NO_OFFSET then -1
    else WrapInt32(a - b)
  }

  /** The source comparator is not a consistent order: of two entries
      without a payload each compares greater than the other, whichever is
      passed first, and such an entry compares greater than itself, where a
      comparer must answer 0. */
  lemma SourceCompareInconsistent()
    ensures SourceOffsetCompare(NO_OFFSET, NO_OFFSET) == 1
  {
  }

  /** The order the sort evidently intends: ascending offsets, every entry
      without a payload after every entry with one, two entries without a
      payload equal. The sign is computed by comparison, so no difference
      can overflow. */
  function OffsetCompare(a: int, b: int): (r: int)
    ensures r == 0 <==> a == b
    ensures a == NO_OFFSET && b != NO_OFFSET ==> r > 0
    ensures a != NO_OFFSET && b == NO_OFFSET ==> r < 0
    ensures a != NO_OFFSET && b != NO_OFFSET ==> (r < 0 <==> a < b)
  {
    if a == b then 0
    else if a == NO_OFFSET then 1
    else if b == NO_OFFSET then -1
    else if a < b then -1
    else 1
  }

  /** The corrected comparator is a total order: antisymmetric and
      transitive. */
  lemma OffsetCompareIsOrder(a: int, b: int, c: int)
    ensures OffsetCompare(a, b) == -OffsetCompare(b, a)
    ensures OffsetCompare(a, b) <= 0 && OffsetCompare(b, c) <= 0 ==> OffsetCompare(a, c) <= 0
  {
  }

  /** The entries are in non-decreasing offset order. */
  predicate SortedByOffset(s: seq<YetiObject>) {
    forall i, j :: 0 <= i < j < |s| ==> OffsetCompare(s[i].offset, s[j].offset) <= 0
  }

  /** Sorted means: no entry with a payload follows one without, and the
      entries with a payload are in non-decreasing offset order. */
  lemma SortedByOffsetMeans(s: seq<YetiObject>)
    ensures SortedByOffset(s) <==>
      && (forall i, j :: 0 <= i < j < |s| && s[i].offset == NO_OFFSET ==> s[j].offset == NO_OFFSET)
      && (forall i, j :: 0 <= i < j < |s| && s[i].offset != NO_OFFSET && s[j].offset != NO_OFFSET ==> s[i].offset <= s[j].offset)
  {
  }

  // ---------------------------------------------------------------------
  // Array.Sort
  // ---------------------------------------------------------------------

  /** Exchanging two neighbours keeps the same entries. */
  method SwapDown(files: array<YetiObject>, j: nat)
    requires 0 < j < files.Length
    modifies files
    ensures files[..] == old(files[..])[j - 1 := old(files[j])][j := old(files[j - 1])]
    ensures multiset(files[..]) == multiset(old(files[..]))
  {
    ghost var before := files[..];
    files[j - 1], files[j] := files[j], files[j - 1];
    assert files[..] == before[..j - 1] + [before[j]] + [before[j - 1]] + before[j + 1..];
    assert before == before[..j - 1] + [before[j - 1]] + [before[j]] + before[j + 1..];
  }

  /** One pass of insertion: the entry at i sinks into the sorted prefix
      before it. */
  method InsertAt(files: array<YetiObject>, i: nat)
    requires i < files.Length && SortedByOffset(files[..i])
    modifies files
    ensures SortedByOffset(files[..i + 1])
    ensures multiset(files[..]) == multiset(old(files[..]))
  {
    var j := i;
    while j > 0 && OffsetCompare(files[j - 1].offset, files[j].offset) > 0
      invariant 0 <= j <= i
      invariant multiset(files[..]) == multiset(old(files[..]))
      invariant forall p, q :: 0 <= p < q <= i && q != j ==> OffsetCompare(files[p].offset, files[q].offset) <= 0
    {
      SwapDown(files, j);
      j := j - 1;
    }
    forall p | 0 <= p < j
      ensures OffsetCompare(files[p].offset, files[j].offset) <= 0
    {
      OffsetCompareIsOrder(files[p].offset, files[j - 1].offset, files[j].offset);
    }
  }

  /** The in-place sort of LoadReferences: afterwards the array holds the
      same entries, in offset order. The entries themselves are untouched. */
  method SortByOffset(files: array<YetiObject>)
    modifies files
    ensures SortedByOffset(files[..])
    ensures multiset(files[..]) == multiset(old(files[..]))
  {
    for i := 0 to files.Length
      invariant SortedByOffset(files[..i])
      invariant multiset(files[..]) == multiset(old(files[..]))
    {
      InsertAt(files, i);
    }
    assert files[..files.Length] == files[..];
  }

  // ---------------------------------------------------------------------
  // LoadReferences
  // ---------------------------------------------------------------------

  /** The header attached to o when the i-th of the headers goes to the
      i-th of the entries: the one at o's last position among the first n. */
  function PairedHeader(files: seq<YetiObject>, headers: seq<seq<int>>, o: YetiObject, n: nat): Option<seq<int>>
    requires n <= |files| && n <= |headers|
  {
    if n == 0 then None
    else if files[n - 1] == o then Some(headers[n - 1])
    else PairedHeader(files, headers, o, n - 1)
  }

  predicate Distinct(files: seq<YetiObject>) {
    forall i, j :: 0 <= i < j < |files| ==> files[i] != files[j]
  }

  /** When every entry appears once, the j-th header goes to the j-th entry,
      and entries past the headers get none. */
  lemma {:induction false} PairedHeaderOfDistinct(files: seq<YetiObject>, headers: seq<seq<int>>, n: nat, j: nat)
    requires n <= |files| && n <= |headers| && Distinct(files) && j < |files|
    ensures PairedHeader(files, headers, files[j], n) == if j < n then Some(headers[j]) else None
    decreases n
  {
    if n > 0 && j != n - 1 {
      PairedHeaderOfDistinct(files, headers, n - 1, j);
    }
  }

  lemma {:induction false} DistinctCountsOnce(s: seq<YetiObject>, o: YetiObject)
    requires Distinct(s)
    ensures multiset(s)[o] <= 1
  {
    if |s| > 0 {
      var init := s[..|s| - 1];
      assert s == init + [s[|s| - 1]];
      DistinctCountsOnce(init, o);
      if s[|s| - 1] == o {
        assert o !in init;
      }
    }
  }

  lemma RepeatCountsTwice(t: seq<YetiObject>, i: nat, j: nat)
    requires i < j < |t| && t[i] == t[j]
    ensures multiset(t)[t[i]] >= 2
  {
    assert t == t[..i] + [t[i]] + t[i + 1..j] + [t[j]] + t[j + 1..];
  }

  /** Reordering entries keeps them distinct. */
  lemma PermutationKeepsDistinct(s: seq<YetiObject>, t: seq<YetiObject>)
    requires Distinct(s) && multiset(s) == multiset(t)
    ensures Distinct(t)
  {
    forall i, j | 0 <= i < j < |t| ensures t[i] != t[j] {
      if t[i] == t[j] {
        RepeatCountsTwice(t, i, j);
        DistinctCountsOnce(s, t[i]);
        assert false;
      }
    }
  }

  /** o carries the header paired with it among the first n, or, when none
      is, the header `before` it had. */
  predicate HeaderAttached(files: seq<YetiObject>, headers: seq<seq<int>>, n: nat, o: YetiObject, before: seq<int>)
    requires n <= |files| && n <= |headers|
    reads o
  {
    match PairedHeader(files, headers, o, n)
    case Some(h) => o.referenceHeader == h
    case None => o.referenceHeader == before
  }

  /** Attaches the i-th header to files[i], counting the headers consumed. */
  method PairHeaders(files: array<YetiObject>, headers: seq<seq<int>>)
    requires |headers| <= files.Length
    modifies set j | 0 <= j < files.Length :: files[j]
    ensures forall o :: o in files[..] ==> HeaderAttached(files[..], headers, |headers|, o, old(o.referenceHeader))
    ensures forall o :: o in files[..] ==> o.isLoaded == old(o.isLoaded) && o.data == old(o.data)
  {
    var count := 0;
    while count < |headers|
      invariant 0 <= count <= |headers|
      invariant forall o :: o in files[..] ==> HeaderAttached(files[..], headers, count, o, old(o.referenceHeader))
      invariant forall o :: o in files[..] ==> o.isLoaded == old(o.isLoaded) && o.data == old(o.data)
    {
      files[count].AddFileReferences(headers[count]);
      count := count + 1;
    }
  }

  /** LoadReferences(files): sorts the entries by offset in place, then
      gives the i-th header the reader yields to the i-th sorted entry. The
      reader's header enumeration is the parameter `headers`, one per entry
      read; an index past the array would throw, hence the bound. */
  method LoadReferences(files: array<YetiObject>, headers: seq<seq<int>>)
    requires |headers| <= files.Length
    modifies files, set j | 0 <= j < files.Length :: files[j]
    ensures SortedByOffset(files[..])
    ensures multiset(files[..]) == multiset(old(files[..]))
    ensures forall o :: o in old(files[..]) ==> HeaderAttached(files[..], headers, |headers|, o, old(o.referenceHeader))
    ensures forall o :: o in old(files[..]) ==> o.isLoaded == old(o.isLoaded) && o.data == old(o.data)
  {
    SortByOffset(files);
    ghost var sorted := files[..];
    forall j | 0 <= j < files.Length ensures files[j] in old(files[..]) {
      assert files[j] in multiset(sorted);
    }
    forall o | o in old(files[..]) ensures o in sorted {
      assert o in multiset(old(files[..]));
    }
    PairHeaders(files, headers);
    assert files[..] == sorted;
  }

  /** What LoadReferences does for entries that each appear once: after the
      sort, the j-th header yielded goes to the j-th entry of the sorted
      array, and entries past the last header keep theirs. */
  lemma SortedPairing(before: seq<YetiObject>, after: seq<YetiObject>, headers: seq<seq<int>>, j: nat)
    requires Distinct(before) && multiset(after) == multiset(before)
    requires |headers| <= |after| && j < |after|
    ensures PairedHeader(after, headers, after[j], |headers|) == if j < |headers| then Some(headers[j]) else None
  {
    PermutationKeepsDistinct(before, after);
    PairedHeaderOfDistinct(after, headers, |headers|, j);
  }

  // ---------------------------------------------------------------------
  // LoadFiles
  // ---------------------------------------------------------------------

  /** What the reader gives back for one entry: the header it read, and the
      size (READ_FAILED when the data could not be read) and buffer of its
      data read. */
  datatype FileRead = FileRead(header: seq<int>, size: int, buffer: seq<byte>)

  /** The reader's promise: a size that is not READ_FAILED fits its buffer. */
  predicate ValidRead(r: FileRead) {
    r.size == READ_FAILED || 0 <= r.size <= |r.buffer|
  }

  function ErrorMessage(f: YetiObject): string {
    "Couldn't read file " + f.fullFolderPath + f.name
  }

  /** The errors logged for the first n entries: one per failed read, in
      list order. */
  function ErrorLog(files: seq<YetiObject>, results: seq<FileRead>, n: nat): seq<string>
    requires n <= |files| && n <= |results|
  {
    if n == 0 then []
    else if results[n - 1].size == READ_FAILED then ErrorLog(files, results, n - 1) + [ErrorMessage(files[n - 1])]
    else ErrorLog(files, results, n - 1)
  }

  /** The read o was last loaded from among the first n entries, if any. */
  function LastLoad(files: seq<YetiObject>, results: seq<FileRead>, o: YetiObject, n: nat): Option<FileRead>
    requires n <= |files| && n <= |results|
  {
    if n == 0 then None
    else if files[n - 1] == o && results[n - 1].size != READ_FAILED then Some(results[n - 1])
    else LastLoad(files, results, o, n - 1)
  }

  /** o holds what the read `last` gave it, or, when it was never loaded,
      the state it had before. */
  predicate LoadedFrom(o: YetiObject, last: Option<FileRead>, wasLoaded: bool, oldData: seq<byte>, oldHeader: seq<int>)
    reads o
  {
    match last
    case Some(r) => 0 <= r.size <= |r.buffer| && o.isLoaded && o.data == r.buffer[..r.size] && o.referenceHeader == r.header
    case None => o.isLoaded == wasLoaded && o.data == oldData && o.referenceHeader == oldHeader
  }

  /** LoadFiles(filesToLoad): each entry in list order has its header and
      data read (`results`, aligned with the list); on success the header's
      references are attached and the entry is loaded with exactly `size`
      bytes, on failure an error naming the entry is logged and the loop
      goes on. The log is returned. */
  method LoadFiles(filesToLoad: seq<YetiObject>, results: seq<FileRead>) returns (errors: seq<string>)
    requires |results| == |filesToLoad|
    requires forall i :: 0 <= i < |results| ==> ValidRead(results[i])
    modifies set j | 0 <= j < |filesToLoad| :: filesToLoad[j]
    ensures errors == ErrorLog(filesToLoad, results, |filesToLoad|)
    ensures forall o :: o in filesToLoad ==>
              LoadedFrom(o, LastLoad(filesToLoad, results, o, |filesToLoad|), old(o.isLoaded), old(o.data), old(o.referenceHeader))
  {
    errors := [];
    for i := 0 to |filesToLoad|
      invariant errors == ErrorLog(filesToLoad, results, i)
      invariant forall o :: o in filesToLoad ==>
                  LoadedFrom(o, LastLoad(filesToLoad, results, o, i), old(o.isLoaded), old(o.data), old(o.referenceHeader))
    {
      var file := filesToLoad[i];
      var header := results[i].header;
      var size := results[i].size;
      if size != READ_FAILED {
        file.AddFileReferences(header);
        file.Load(results[i].buffer, size);
      } else {
        errors := errors + [ErrorMessage(file)];
      }
    }
  }

  /** When every entry appears once, each ends up loaded from its own read
      exactly when that read succeeded. */
  lemma {:induction false} LastLoadOfDistinct(files: seq<YetiObject>, results: seq<FileRead>, n: nat, j: nat)
    requires n <= |files| && n <= |results| && Distinct(files) && j < |files| && j < |results|
    ensures LastLoad(files, results, files[j], n)
            == if j < n && results[j].size != READ_FAILED then Some(results[j]) else None
    decreases n
  {
    if n > 0 {
      LastLoadOfDistinct(files, results, n - 1, j);
    }
  }

  /** The log holds an error for an entry exactly when that entry's read
      failed. */
  lemma {:induction false} ErrorLogNamesFailures(files: seq<YetiObject>, results: seq<FileRead>, n: nat, m: string)
    requires n <= |files| && n <= |results|
    ensures m in ErrorLog(files, results, n) <==>
            exists j :: 0 <= j < n && results[j].size == READ_FAILED && m == ErrorMessage(files[j])
    decreases n
  {
    if n > 0 {
      ErrorLogNamesFailures(files, results, n - 1, m);
      if results[n - 1].size == READ_FAILED && m == ErrorMessage(files[n - 1]) {
        assert m in ErrorLog(files, results, n);
      }
    }
  }
}
