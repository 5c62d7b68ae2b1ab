/** What the unpacker's rename map is: the reference definition against
    which the imperative CreateRenamedFileMapping in module Unpacker is
    proved. Files are numbered in traversal order; the first file with a
    given full name keeps it, the k-th (k >= 2) gets "_k" appended. */
module Renaming {
  import opened BigFileTree

  /** One entry of UnpackedRenamedFileMapping.Map. */
  datatype RenamedFileMappingData = RenamedFileMappingData(key: Key, originalName: string, fileName: string)

  function DigitChar(d: nat): (c: char)
    requires d < 10
    ensures '0' <= c <= '9'
  {
    "0123456789"[d]
  }

  /** Decimal text of a natural number, as C#'s int.ToString() writes it. */
  function NatToString(n: nat): (s: string)
    ensures |s| >= 1
    ensures forall i :: 0 <= i < |s| ==> '0' <= s[i] <= '9'
    decreases n
  {
    if n < 10 then [DigitChar(n)] else NatToString(n / 10) + [DigitChar(n % 10)]
  }

  /** Reads decimal digits back into a number. */
  function DecimalValue(s: string): nat
    requires forall i :: 0 <= i < |s| ==> '0' <= s[i] <= '9'
  {
    if |s| == 0 then 0 else 10 * DecimalValue(s[..|s| - 1]) + (s[|s| - 1] - '0') as nat
  }

  /** The counter written after "_" can be read back, so different
      counters give different suffixes. */
  lemma {:induction false} NatToStringRoundTrip(n: nat)
    ensures DecimalValue(NatToString(n)) == n
    decreases n
  {
    var s := NatToString(n);
    if n >= 10 {
      NatToStringRoundTrip(n / 10);
      assert s[..|s| - 1] == NatToString(n / 10);
    }
  }

  /** How many of the given files have full name p. */
  function Occurrences(files: seq<FileEntry>, p: string): nat {
    if |files| == 0 then 0
    else Occurrences(files[..|files| - 1], p) + (if FullName(files[|files| - 1]) == p then 1 else 0)
  }

  /** The unpacked name of f when the files before it in traversal order
      are `before`. */
  function RenamedName(before: seq<FileEntry>, f: FileEntry): string {
    var n := Occurrences(before, FullName(f));
    if n == 0 then FullName(f) else FullName(f) + "_" + NatToString(n + 1)
  }

  /** The mapping entry the unpacker records for files[i]. */
  function EntryFor(files: seq<FileEntry>, i: nat): RenamedFileMappingData
    requires i < |files|
  {
    RenamedFileMappingData(files[i].key, files[i].name, RenamedName(files[..i], files[i]))
  }

  /** The rename map after visiting `files` in order. */
  function RenameMap(files: seq<FileEntry>): map<Key, RenamedFileMappingData> {
    if |files| == 0 then map[]
    else RenameMap(files[..|files| - 1])[files[|files| - 1].key := EntryFor(files, |files| - 1)]
  }

  function FullNames(files: seq<FileEntry>): set<string> {
    set i | 0 <= i < |files| :: FullName(files[i])
  }

  /** fileRenameCounts after visiting `files`: each full name seen, with the
      number of times it was seen. */
  function RenameCounts(files: seq<FileEntry>): map<string, int> {
    map p | p in FullNames(files) :: Occurrences(files, p)
  }

  lemma FullNamesSnoc(before: seq<FileEntry>, f: FileEntry)
    ensures FullNames(before + [f]) == FullNames(before) + {FullName(f)}
  {
    var after := before + [f];
    forall q | q in FullNames(after) ensures q in FullNames(before) + {FullName(f)} {
      var i :| 0 <= i < |after| && FullName(after[i]) == q;
      if i < |before| { assert FullName(before[i]) == q; }
    }
    forall q | q in FullNames(before) ensures q in FullNames(after) {
      var i :| 0 <= i < |before| && FullName(before[i]) == q;
      assert FullName(after[i]) == q;
    }
    assert FullName(after[|before|]) == FullName(f);
  }

  lemma {:induction false} OccurrencesPositive(files: seq<FileEntry>, p: string)
    ensures Occurrences(files, p) > 0 <==> p in FullNames(files)
  {
    if |files| > 0 {
      var init := files[..|files| - 1];
      OccurrencesPositive(init, p);
      assert files == init + [files[|files| - 1]];
      FullNamesSnoc(init, files[|files| - 1]);
    }
  }

  /** Visiting one more file f bumps its full name's counter, or starts it
      at 1; this is the dictionary update the unpacker performs. */
  lemma RenameCountsStep(before: seq<FileEntry>, f: FileEntry)
    ensures var p, c := FullName(f), RenameCounts(before);
      RenameCounts(before + [f]) == if p in c then c[p := c[p] + 1] else c[p := 1]
    ensures var p := FullName(f);
      p in RenameCounts(before) <==> Occurrences(before, p) > 0
  {
    var after := before + [f];
    var p, c, c' := FullName(f), RenameCounts(before), RenameCounts(after);
    assert after[..|after| - 1] == before;
    OccurrencesPositive(before, p);
    FullNamesSnoc(before, f);
    var expected := if p in c then c[p := c[p] + 1] else c[p := 1];
    assert c'.Keys == expected.Keys;
    forall q | q in c'.Keys ensures c'[q] == expected[q] {
      assert Occurrences(after, q) == Occurrences(before, q) + (if q == p then 1 else 0);
    }
  }

  /** Visiting one more file adds its entry to the map. */
  lemma RenameMapSnoc(before: seq<FileEntry>, f: FileEntry)
    ensures RenameMap(before + [f]) == RenameMap(before)[f.key := RenamedFileMappingData(f.key, f.name, RenamedName(before, f))]
  {
    assert (before + [f])[..|before|] == before;
  }

  /** Every file of the traversal is a key of the map. */
  lemma {:induction false} RenameMapKeys(files: seq<FileEntry>)
    ensures RenameMap(files).Keys == KeysOf(files)
  {
    var n := |files|;
    if n > 0 {
      var init := files[..n - 1];
      RenameMapKeys(init);
      forall x | x in KeysOf(files) ensures x in KeysOf(init) + {files[n - 1].key} {
        var m :| 0 <= m < n && files[m].key == x;
        if m < n - 1 { assert init[m].key == x; }
      }
      forall x | x in KeysOf(init) ensures x in KeysOf(files) {
        var m :| 0 <= m < n - 1 && init[m].key == x;
        assert files[m].key == x;
      }
    }
  }

  /** With unique keys no later file overwrites an earlier file's entry. */
  lemma {:induction false} RenameMapEntry(files: seq<FileEntry>, i: nat)
    requires UniqueKeys(files)
    requires i < |files|
    ensures files[i].key in RenameMap(files)
    ensures RenameMap(files)[files[i].key] == EntryFor(files, i)
  {
    var n := |files|;
    if i < n - 1 {
      var init := files[..n - 1];
      RenameMapEntry(init, i);
      assert init[..i] == files[..i];
      assert files[n - 1].key != files[i].key;
    }
  }

  /** Every file gets exactly one entry, keyed by its key, carrying its
      original name; the k-th file with a given full name (counting in
      traversal order) is unpacked as that name, or with "_k" appended when
      k >= 2. Keys must be unique, as Dictionary.Add demands. */
  lemma RenameMapAt(files: seq<FileEntry>, i: nat)
    requires UniqueKeys(files)
    requires i < |files|
    ensures RenameMap(files).Keys == KeysOf(files)
    ensures files[i].key in RenameMap(files)
    ensures var e, p, k := RenameMap(files)[files[i].key], FullName(files[i]), Occurrences(files[..i + 1], FullName(files[i]));
      && k >= 1
      && e.key == files[i].key
      && e.originalName == files[i].name
      && e.fileName == if k == 1 then p else p + "_" + NatToString(k)
  {
    RenameMapKeys(files);
    RenameMapEntry(files, i);
    assert files[..i + 1][..i] == files[..i];
  }

  /** The unpacked names are not always distinct: a file literally named
      "x_2" lands on the same path as the second file named "x", because the
      suffixed name is never entered into the counters. */
  lemma RenamedPathsCanCollide()
    ensures var files := [FileEntry(1, "x", "d\\", 0, 0), FileEntry(2, "x", "d\\", 1, 0), FileEntry(3, "x_2", "d\\", 2, 0)];
      && UniqueKeys(files)
      && RenameMap(files)[2].fileName == RenameMap(files)[3].fileName == "d\\x_2"
  {
    var files := [FileEntry(1, "x", "d\\", 0, 0), FileEntry(2, "x", "d\\", 1, 0), FileEntry(3, "x_2", "d\\", 2, 0)];
    var q := "d\\x_2";
    assert FullName(files[0]) == "d\\x" != q;
    assert files[..2][..1] == files[..1];
    assert files[..1][..0] == [];
    assert Occurrences(files[..1], q) == 0;
    assert Occurrences(files[..2], q) == 0;
    assert Occurrences(files[..1], "d\\x") == 1;
    assert NatToString(2) == "2";
  }
}
