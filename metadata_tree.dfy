/** The manifest trees of the metadata-tree benchmark (test_adaptive_metadata_tree.py): one flat
    manifest, data manifests under a root, or leaf manifests grouped under branch manifests. Each
    shape is built by cutting the list of file indices into chunks; a scan over a shape counts
    the manifests it reads and the entries it looks at. */
module MetadataTree {
  import opened Results
  import opened Text
  import opened Seqs

  // ---------------------------------------------------------------------------
  // Partition dates: 2024-01-01 plus `i % 365` days

  /** Month lengths of 2024, a leap year. */
  const MonthLengths: seq<nat> := [31, 29, 31, 30, 31, 30, 31, 31, 30, 31, 30, 31]

  /** Days of 2024 before month `m + 1` begins. */
  function DaysBefore(m: nat): nat
    requires m <= 12
  {
    if m == 0 then 0 else DaysBefore(m - 1) + MonthLengths[m - 1]
  }

  lemma DaysBeforeMonotone(a: nat, b: nat)
    requires a <= b <= 12
    ensures DaysBefore(a) <= DaysBefore(b)
    decreases b
  {
    if a < b {
      DaysBeforeMonotone(a, b - 1);
    }
  }

  lemma DaysInYear()
    ensures DaysBefore(11) == 335 && DaysBefore(12) == 366
  {
    assert DaysBefore(1) == 31;
    assert DaysBefore(2) == 60;
    assert DaysBefore(3) == 91;
    assert DaysBefore(4) == 121;
    assert DaysBefore(5) == 152;
    assert DaysBefore(6) == 182;
    assert DaysBefore(7) == 213;
    assert DaysBefore(8) == 244;
    assert DaysBefore(9) == 274;
    assert DaysBefore(10) == 305;
  }

  datatype Date = Date(year: nat, month: nat, day: nat)

  predicate ValidDate(d: Date)
  {
    d.year == 2024 && 1 <= d.month <= 12 && 1 <= d.day <= MonthLengths[d.month - 1]
  }

  /** Days since 2024-01-01. */
  function DayOfYear(d: Date): nat
    requires ValidDate(d)
  {
    DaysBefore(d.month - 1) + d.day - 1
  }

  function MonthFrom(offset: nat, m: nat): (date: Date)
    requires m < 12 && DaysBefore(m) + offset < 366
    ensures ValidDate(date) && date.month > m
    ensures DayOfYear(date) == DaysBefore(m) + offset
    decreases 12 - m
  {
    if offset < MonthLengths[m] then Date(2024, m + 1, offset + 1)
    else
      DaysInYear();
      MonthFrom(offset - MonthLengths[m], m + 1)
  }

  /** `datetime(2024, 1, 1) + timedelta(days=offset)` for an offset inside 2024. */
  function DateOfDay(offset: nat): (date: Date)
    requires offset < 366
    ensures ValidDate(date) && DayOfYear(date) == offset
  {
    MonthFrom(offset, 0)
  }

  lemma DayOfYearBounds(d: Date, m: nat)
    requires ValidDate(d) && m < d.month
    ensures DaysBefore(m) <= DayOfYear(d) < DaysBefore(d.month) <= 366
  {
    DaysInYear();
    DaysBeforeMonotone(m, d.month - 1);
    DaysBeforeMonotone(d.month, 12);
  }

  /** A date in an earlier month has an earlier day of the year. */
  lemma DayOfYearOrder(a: Date, b: Date)
    requires ValidDate(a) && ValidDate(b)
    ensures a.month < b.month ==> DayOfYear(a) < DayOfYear(b)
  {
    if a.month < b.month {
      DayOfYearBounds(a, 0);
      DayOfYearBounds(b, a.month);
    }
  }

  /** Day offsets and dates of 2024 correspond one to one. */
  lemma DateRoundTrip(d: Date)
    requires ValidDate(d)
    ensures DayOfYear(d) < 366 && DateOfDay(DayOfYear(d)) == d
  {
    DayOfYearBounds(d, 0);
    var e := DateOfDay(DayOfYear(d));
    DayOfYearOrder(d, e);
    DayOfYearOrder(e, d);
  }

  /** `str(date)`: ISO `YYYY-MM-DD`. */
  function DateText(d: Date): string
  {
    Decimal(d.year) + "-" + ZeroPad(d.month, 2) + "-" + ZeroPad(d.day, 2)
  }

  const PartitionDays: nat := 365

  function PartitionDate(i: nat): Date
  {
    DateOfDay(i % PartitionDays)
  }

  /** Two files share a partition date exactly when their indices agree modulo 365. */
  lemma PartitionDatesCycle(i: nat, j: nat)
    ensures PartitionDate(i) == PartitionDate(j) <==> i % PartitionDays == j % PartitionDays
  {
  }

  // ---------------------------------------------------------------------------
  // File entries

  datatype TreeEntry = TreeEntry(filePath: string, partitionDate: string, fileSizeBytes: int, recordCount: int)

  const EntryFileSize: int := 64 * 1024 * 1024
  const EntryRecordCount: int := 500_000

  /** The entry every tree shape writes for file `i`. */
  function FileEntry(i: nat): (e: TreeEntry)
    ensures ValidDate(PartitionDate(i)) && DayOfYear(PartitionDate(i)) == i % PartitionDays
    ensures e.partitionDate == DateText(PartitionDate(i))
    ensures e.fileSizeBytes == 64 * 1024 * 1024 && e.recordCount == 500_000
  {
    var date := DateText(PartitionDate(i));
    TreeEntry("s3://bucket/table/data/date=" + date + "/file_" + ZeroPad(i, 6) + ".parquet",
              date, EntryFileSize, EntryRecordCount)
  }

  /** A date of 2024 prints as ten characters, `YYYY-MM-DD`. */
  lemma DateTextLength(d: Date)
    requires ValidDate(d)
    ensures |DateText(d)| == 10
  {
    assert |Decimal(2024)| == 4 by {
      assert |Decimal(20)| == 2;
      assert |Decimal(202)| == 3;
    }
    assert Pow10(2) == 100 by { assert Pow10(1) == 10; }
    assert d.day <= 31 by { assert forall m :: 0 <= m < 12 ==> MonthLengths[m] <= 31; }
  }

  /** Different files get different paths: the six-digit file number in the name gives the index
      back. */
  lemma FileEntryPathsDistinct(i: nat, j: nat)
    requires i != j
    ensures FileEntry(i).filePath != FileEntry(j).filePath
  {
    var zi, zj := ZeroPad(i, 6), ZeroPad(j, 6);
    var hi := "s3://bucket/table/data/date=" + DateText(PartitionDate(i)) + "/file_";
    var hj := "s3://bucket/table/data/date=" + DateText(PartitionDate(j)) + "/file_";
    DateTextLength(PartitionDate(i));
    DateTextLength(PartitionDate(j));
    assert |hi| == 44 && |hj| == 44;
    MiddleOf(hi, zi, ".parquet");
    MiddleOf(hj, zj, ".parquet");
  }

  lemma MiddleOf(a: string, z: string, b: string)
    ensures |a + z + b| == |a| + |z| + |b| && (a + z + b)[|a|..|a| + |z|] == z
  {
  }

  /** `[f(i) for i in range(lo, hi)]`. */
  function Tabulate<T>(lo: nat, hi: nat, f: nat -> T): (r: seq<T>)
    ensures |r| == if lo < hi then hi - lo else 0
    ensures forall j :: 0 <= j < |r| ==> r[j] == f(lo + j)
  {
    if lo < hi then seq(hi - lo, j requires 0 <= j < hi - lo => f(lo + j)) else []
  }

  lemma TabulateStep<T>(lo: nat, i: nat, f: nat -> T)
    requires lo <= i
    ensures Tabulate(lo, i + 1, f) == Tabulate(lo, i, f) + [f(i)]
  {
  }

  /** The entries of `range(lo, hi)`. */
  function FileEntries(lo: nat, hi: nat): (r: seq<TreeEntry>)
    ensures |r| == if lo < hi then hi - lo else 0
    ensures forall j :: 0 <= j < |r| ==> r[j] == FileEntry(lo + j)
  {
    Tabulate(lo, hi, FileEntry)
  }

  lemma FileEntriesSlice(n: nat, lo: nat, hi: nat)
    requires lo <= hi <= n
    ensures FileEntries(0, n)[lo..hi] == FileEntries(lo, hi)
  {
  }

  lemma FileEntriesStep(lo: nat, i: nat)
    requires lo <= i
    ensures FileEntries(lo, i + 1) == FileEntries(lo, i) + [FileEntry(i)]
  {
    TabulateStep(lo, i, FileEntry);
  }

  /** The `for i in range(lo, hi): entries.append(...)` loop shared by every shape. */
  method AppendFileEntries(entries: seq<TreeEntry>, lo: nat, hi: nat) returns (r: seq<TreeEntry>)
    ensures r == entries + FileEntries(lo, hi)
  {
    r := entries;
    var i := lo;
    while i < hi
      invariant lo <= i && (i <= hi || i == lo)
      invariant r == entries + FileEntries(lo, i)
    {
      FileEntriesStep(lo, i);
      ConcatAssoc(entries, FileEntries(lo, i), [FileEntry(i)]);
      r := r + [FileEntry(i)];
      i := i + 1;
    }
  }

  // ---------------------------------------------------------------------------
  // Chunking

  function Min(a: int, b: int): int
  {
    if a <= b then a else b
  }

  /** `(n + d - 1) // d`. */
  function CeilDiv(n: nat, d: nat): nat
    requires d > 0
  {
    (n + d - 1) / d
  }

  /** `s` cut into consecutive pieces of `size` elements, the last one possibly shorter. */
  function Chunks<T>(s: seq<T>, size: nat): (r: seq<seq<T>>)
    requires size > 0
    ensures forall k :: 0 <= k < |r| ==> 0 < |r[k]| <= size
    decreases |s|
  {
    if s == [] then []
    else if |s| <= size then [s]
    else [s[..size]] + Chunks(s[size..], size)
  }

  lemma MulAtLeast(k: int, d: int)
    requires k >= 1 && d > 0
    ensures k * d >= d
  {
    assert k * d == (k - 1) * d + d;
  }

  /** Quotients are unique: `x == q * d + r` with `0 <= r < d` gives `x / d == q`. */
  lemma DivUnique(x: int, d: int, q: int, r: int)
    requires d > 0 && 0 <= r < d && x == q * d + r
    ensures x / d == q
  {
    var q', r' := x / d, x % d;
    assert (q - q') * d == r' - r;
    if q - q' >= 1 {
      MulAtLeast(q - q', d);
      assert false;
    } else if q' - q >= 1 {
      MulAtLeast(q' - q, d);
      assert false;
    }
  }

  lemma DivStep(a: nat, d: nat)
    requires d > 0
    ensures (a + d) / d == a / d + 1
  {
    DivUnique(a + d, d, a / d + 1, a % d);
  }

  lemma DivSmall(a: nat, d: nat)
    requires 0 < d && a < d
    ensures a / d == 0
  {
  }

  /** There are `ceil(|s| / size)` chunks. */
  lemma {:induction false} ChunksCount<T>(s: seq<T>, size: nat)
    requires size > 0
    ensures |Chunks(s, size)| == CeilDiv(|s|, size)
    decreases |s|
  {
    if s == [] {
      DivSmall(size - 1, size);
    } else if |s| <= size {
      DivSmall(|s| - 1, size);
      DivStep(|s| - 1, size);
    } else {
      ChunksCount(s[size..], size);
      DivStep(|s| - size + size - 1, size);
    }
  }

  /** Chunk `k` starts at `k * size`, which lies inside `s`, and ends at `min(k * size + size, |s|)`. */
  lemma {:induction false} ChunkAt<T>(s: seq<T>, size: nat, k: nat)
    requires size > 0 && k < |Chunks(s, size)|
    ensures k * size < |s|
    ensures Chunks(s, size)[k] == s[k * size..Min(k * size + size, |s|)]
    decreases |s|
  {
    if k > 0 {
      var t := s[size..];
      assert Chunks(s, size) == [s[..size]] + Chunks(t, size);
      ChunkAt(t, size, k - 1);
      var j := (k - 1) * size;
      assert k * size == j + size;
      var e := Min(j + size, |t|);
      assert e + size == Min(j + size + size, |s|);
      assert t[j..e] == s[j + size..e + size];
    }
  }

  /** The chunks joined back together give `s`. */
  lemma {:induction false} ConcatChunks<T>(s: seq<T>, size: nat)
    requires size > 0
    ensures Concat(Chunks(s, size)) == s
    decreases |s|
  {
    if s == [] {
    } else if |s| <= size {
      assert Chunks(s, size) == [s];
      assert Concat([s]) == Concat([s][..0]) + s;
    } else {
      var r := Chunks(s, size);
      ConcatCons(r);
      assert r[1..] == Chunks(s[size..], size);
      ConcatChunks(s[size..], size);
      assert s == s[..size] + s[size..];
    }
  }

  /** A list whose pieces are the chunk slices of `s` is the chunking of `s`. */
  lemma ChunksPointwise<T>(s: seq<T>, size: nat, parts: seq<seq<T>>)
    requires size > 0 && |parts| == CeilDiv(|s|, size)
    requires forall k :: 0 <= k < |parts| ==> k * size < |s| && parts[k] == s[k * size..Min(k * size + size, |s|)]
    ensures parts == Chunks(s, size)
  {
    ChunksCount(s, size);
    forall k | 0 <= k < |parts| ensures parts[k] == Chunks(s, size)[k] {
      ChunkAt(s, size, k);
    }
  }

  // ---------------------------------------------------------------------------
  // Building the three shapes

  datatype TreeError = ZeroDivision

  /** `create_flat_tree`: every entry in one manifest. */
  method CreateFlatTree(numFiles: nat) returns (entries: seq<TreeEntry>)
    ensures entries == FileEntries(0, numFiles)
  {
    entries := AppendFileEntries([], 0, numFiles);
  }

  /** `create_2level_tree`: data manifest k holds files [k * fpm, min(k * fpm + fpm, n)). */
  method Create2LevelTree(numFiles: nat, filesPerManifest: nat) returns (r: Result<seq<seq<TreeEntry>>, TreeError>)
    ensures r.Err? <==> filesPerManifest == 0
    ensures r.Ok? ==> r.value == Chunks(FileEntries(0, numFiles), filesPerManifest)
  {
    if filesPerManifest == 0 {
      return Err(ZeroDivision);
    }
    var numDataManifests := CeilDiv(numFiles, filesPerManifest);
    var dataManifests: seq<seq<TreeEntry>> := [];
    for manifestId := 0 to numDataManifests
      invariant dataManifests == LeafRange(numFiles, filesPerManifest, 0, manifestId)
    {
      var startIdx := manifestId * filesPerManifest;
      var endIdx := Min(startIdx + filesPerManifest, numFiles);
      var entries := AppendFileEntries([], startIdx, endIdx);
      assert entries == LeafEntries(numFiles, filesPerManifest, manifestId);
      assert LeafRange(numFiles, filesPerManifest, 0, manifestId + 1)
          == LeafRange(numFiles, filesPerManifest, 0, manifestId) + [entries];
      dataManifests := dataManifests + [entries];
    }
    ChunksOfFiles(numFiles, filesPerManifest, dataManifests);
    r := Ok(dataManifests);
  }

  lemma ChunksOfFiles(n: nat, size: nat, parts: seq<seq<TreeEntry>>)
    requires size > 0 && |parts| == CeilDiv(n, size)
    requires forall k :: 0 <= k < |parts| ==> parts[k] == LeafEntries(n, size, k)
    ensures parts == Chunks(FileEntries(0, n), size)
  {
    var s := FileEntries(0, n);
    ChunksCount(s, size);
    forall k | 0 <= k < |parts| ensures k * size < |s| && parts[k] == s[k * size..Min(k * size + size, |s|)] {
      ChunkAt(s, size, k);
      FileEntriesSlice(n, k * size, Min(k * size + size, n));
    }
    ChunksPointwise(s, size, parts);
  }

  /** The entries of leaf `l`: files [l * fpl, min(l * fpl + fpl, n)). */
  function LeafEntries(n: nat, fpl: nat, l: nat): seq<TreeEntry>
  {
    FileEntries(l * fpl, Min(l * fpl + fpl, n))
  }

  /** Leaves `lo` up to `hi`. */
  function LeafRange(n: nat, fpl: nat, lo: nat, hi: nat): (r: seq<seq<TreeEntry>>)
    ensures |r| == if lo < hi then hi - lo else 0
    ensures forall j :: 0 <= j < |r| ==> r[j] == LeafEntries(n, fpl, lo + j)
  {
    if lo < hi then seq(hi - lo, j requires 0 <= j < hi - lo => LeafEntries(n, fpl, lo + j)) else []
  }

  /** The inner `for leaf_id in range(leaf_start, leaf_end)` loop of one branch. */
  method BuildBranch(numFiles: nat, filesPerLeaf: nat, leafStart: nat, leafEnd: nat)
    returns (leaves: seq<seq<TreeEntry>>)
    ensures leaves == LeafRange(numFiles, filesPerLeaf, leafStart, leafEnd)
  {
    leaves := [];
    var leafId := leafStart;
    while leafId < leafEnd
      invariant leafStart <= leafId && (leafId <= leafEnd || leafId == leafStart)
      invariant leaves == LeafRange(numFiles, filesPerLeaf, leafStart, leafId)
    {
      var fileStart := leafId * filesPerLeaf;
      var fileEnd := Min(fileStart + filesPerLeaf, numFiles);
      var entries := AppendFileEntries([], fileStart, fileEnd);
      assert entries == LeafEntries(numFiles, filesPerLeaf, leafId);
      assert LeafRange(numFiles, filesPerLeaf, leafStart, leafId + 1)
          == LeafRange(numFiles, filesPerLeaf, leafStart, leafId) + [entries];
      leaves := leaves + [entries];
      leafId := leafId + 1;
    }
  }

  /** `create_3level_tree`: ceil(n / fpl) leaves, grouped `lpb` to a branch. */
  method Create3LevelTree(numFiles: nat, filesPerLeaf: nat, leavesPerBranch: nat)
    returns (r: Result<seq<seq<seq<TreeEntry>>>, TreeError>)
    ensures r.Err? <==> filesPerLeaf == 0 || leavesPerBranch == 0
    ensures r.Ok? ==> r.value == Chunks(Chunks(FileEntries(0, numFiles), filesPerLeaf), leavesPerBranch)
  {
    if filesPerLeaf == 0 || leavesPerBranch == 0 {
      return Err(ZeroDivision);
    }
    var numLeafManifests := CeilDiv(numFiles, filesPerLeaf);
    var numBranchManifests := CeilDiv(numLeafManifests, leavesPerBranch);
    var branches: seq<seq<seq<TreeEntry>>> := [];
    for branchId := 0 to numBranchManifests
      invariant |branches| == branchId
      invariant forall b :: 0 <= b < branchId ==>
        branches[b] == LeafRange(numFiles, filesPerLeaf, b * leavesPerBranch,
                                 Min(b * leavesPerBranch + leavesPerBranch, numLeafManifests))
    {
      var leafStart := branchId * leavesPerBranch;
      var leafEnd := Min(leafStart + leavesPerBranch, numLeafManifests);
      var leaves := BuildBranch(numFiles, filesPerLeaf, leafStart, leafEnd);
      branches := branches + [leaves];
    }
    BranchesOfLeaves(numFiles, filesPerLeaf, leavesPerBranch, branches);
    r := Ok(branches);
  }

  lemma BranchesOfLeaves(n: nat, fpl: nat, lpb: nat, branches: seq<seq<seq<TreeEntry>>>)
    requires fpl > 0 && lpb > 0
    requires |branches| == CeilDiv(CeilDiv(n, fpl), lpb)
    requires forall b :: 0 <= b < |branches| ==>
      branches[b] == LeafRange(n, fpl, b * lpb, Min(b * lpb + lpb, CeilDiv(n, fpl)))
    ensures branches == Chunks(Chunks(FileEntries(0, n), fpl), lpb)
  {
    var numLeaves := CeilDiv(n, fpl);
    var leaves := LeafRange(n, fpl, 0, numLeaves);
    ChunksOfFiles(n, fpl, leaves);
    ChunksCount(leaves, lpb);
    forall b | 0 <= b < |branches|
      ensures b * lpb < |leaves| && branches[b] == leaves[b * lpb..Min(b * lpb + lpb, |leaves|)]
    {
      ChunkAt(leaves, lpb, b);
    }
    ChunksPointwise(leaves, lpb, branches);
  }

  /** A 2-level tree has ceil(n / fpm) data manifests of 1 to fpm entries that, in order, hold
      every file exactly once. */
  lemma TwoLevelShape(n: nat, fpm: nat)
    requires fpm > 0
    ensures |Chunks(FileEntries(0, n), fpm)| == CeilDiv(n, fpm)
    ensures Concat(Chunks(FileEntries(0, n), fpm)) == FileEntries(0, n)
  {
    ChunksCount(FileEntries(0, n), fpm);
    ConcatChunks(FileEntries(0, n), fpm);
  }

  /** A 3-level tree has ceil(ceil(n / fpl) / lpb) branches over ceil(n / fpl) leaves that, in
      order, hold every file exactly once. */
  lemma ThreeLevelShape(n: nat, fpl: nat, lpb: nat)
    requires fpl > 0 && lpb > 0
    ensures |Chunks(Chunks(FileEntries(0, n), fpl), lpb)| == CeilDiv(CeilDiv(n, fpl), lpb)
    ensures |Concat(Chunks(Chunks(FileEntries(0, n), fpl), lpb))| == CeilDiv(n, fpl)
    ensures Concat(Concat(Chunks(Chunks(FileEntries(0, n), fpl), lpb))) == FileEntries(0, n)
  {
    var leaves := Chunks(FileEntries(0, n), fpl);
    TwoLevelShape(n, fpl);
    ChunksCount(leaves, lpb);
    ConcatChunks(leaves, lpb);
  }

  // ---------------------------------------------------------------------------
  // Scans

  datatype TreeMetrics = TreeMetrics(
    treeDepth: nat, totalManifests: nat, totalFiles: nat, manifestsRead: nat, filesScanned: nat)

  function OnDate(targetDate: string): TreeEntry -> bool
  {
    (e: TreeEntry) => e.partitionDate == targetDate
  }

  /** The `for entry in ...: files_scanned += 1; if ...: matching_files.append(entry)` loop. */
  method ScanEntries(matching: seq<TreeEntry>, scanned: nat, entries: seq<TreeEntry>, targetDate: string)
    returns (matching': seq<TreeEntry>, scanned': nat)
    ensures matching' == matching + Filter(entries, OnDate(targetDate))
    ensures scanned' == scanned + |entries|
  {
    matching', scanned' := matching, scanned;
    for j := 0 to |entries|
      invariant matching' == matching + Filter(entries[..j], OnDate(targetDate))
      invariant scanned' == scanned + j
    {
      scanned' := scanned' + 1;
      assert entries[..j + 1] == entries[..j] + [entries[j]];
      FilterAppend(entries[..j], [entries[j]], OnDate(targetDate));
      if entries[j].partitionDate == targetDate {
        matching' := matching' + [entries[j]];
      }
    }
    assert entries[..|entries|] == entries;
  }

  /** `query_flat_tree`: one manifest read, every entry scanned. */
  method QueryFlatTree(entries: seq<TreeEntry>, targetDate: string)
    returns (metrics: TreeMetrics, matchingFiles: seq<TreeEntry>)
    ensures metrics == TreeMetrics(1, 1, |entries|, 1, |entries|)
    ensures matchingFiles == Filter(entries, OnDate(targetDate))
  {
    var scanned;
    matchingFiles, scanned := ScanEntries([], 0, entries, targetDate);
    metrics := TreeMetrics(1, 1, |entries|, 1, |entries|);
  }

  /** `query_2level_tree`: the root and every data manifest are read. */
  method Query2LevelTree(dataManifests: seq<seq<TreeEntry>>, targetDate: string)
    returns (metrics: TreeMetrics, matchingFiles: seq<TreeEntry>)
    ensures metrics == TreeMetrics(2, |dataManifests| + 1, |Concat(dataManifests)|,
                                   1 + |dataManifests|, |Concat(dataManifests)|)
    ensures matchingFiles == Filter(Concat(dataManifests), OnDate(targetDate))
  {
    matchingFiles := [];
    var manifestsRead := 1;
    var filesScanned := 0;
    for k := 0 to |dataManifests|
      invariant manifestsRead == 1 + k
      invariant filesScanned == |Concat(dataManifests[..k])|
      invariant matchingFiles == Filter(Concat(dataManifests[..k]), OnDate(targetDate))
    {
      manifestsRead := manifestsRead + 1;
      assert dataManifests[..k + 1][..k] == dataManifests[..k];
      FilterAppend(Concat(dataManifests[..k]), dataManifests[k], OnDate(targetDate));
      matchingFiles, filesScanned := ScanEntries(matchingFiles, filesScanned, dataManifests[k], targetDate);
    }
    assert dataManifests[..|dataManifests|] == dataManifests;
    metrics := TreeMetrics(2, |dataManifests| + 1, filesScanned, manifestsRead, filesScanned);
  }

  /** One branch of `query_3level_tree`: every leaf of the branch is read and scanned. */
  method ScanBranch(matching: seq<TreeEntry>, scanned: nat, read: nat, leaves: seq<seq<TreeEntry>>, targetDate: string)
    returns (matching': seq<TreeEntry>, scanned': nat, read': nat)
    ensures matching' == matching + Filter(Concat(leaves), OnDate(targetDate))
    ensures scanned' == scanned + |Concat(leaves)|
    ensures read' == read + |leaves|
  {
    matching', scanned', read' := matching, scanned, read;
    for l := 0 to |leaves|
      invariant matching' == matching + Filter(Concat(leaves[..l]), OnDate(targetDate))
      invariant scanned' == scanned + |Concat(leaves[..l])|
      invariant read' == read + l
    {
      read' := read' + 1;
      assert leaves[..l + 1][..l] == leaves[..l];
      FilterAppend(Concat(leaves[..l]), leaves[l], OnDate(targetDate));
      ConcatAssoc(matching, Filter(Concat(leaves[..l]), OnDate(targetDate)), Filter(leaves[l], OnDate(targetDate)));
      matching', scanned' := ScanEntries(matching', scanned', leaves[l], targetDate);
    }
    assert leaves[..|leaves|] == leaves;
  }

  /** `query_3level_tree`: the root, every branch and every leaf are read. */
  method Query3LevelTree(branches: seq<seq<seq<TreeEntry>>>, targetDate: string)
    returns (metrics: TreeMetrics, matchingFiles: seq<TreeEntry>)
    ensures metrics.treeDepth == 3
    ensures metrics.manifestsRead == metrics.totalManifests == 1 + |branches| + |Concat(branches)|
    ensures metrics.filesScanned == metrics.totalFiles == |Concat(Concat(branches))|
    ensures matchingFiles == Filter(Concat(Concat(branches)), OnDate(targetDate))
  {
    matchingFiles := [];
    var manifestsRead := 1;
    var filesScanned := 0;
    for b := 0 to |branches|
      invariant manifestsRead == 1 + b + |Concat(branches[..b])|
      invariant filesScanned == |Concat(Concat(branches[..b]))|
      invariant matchingFiles == Filter(Concat(Concat(branches[..b])), OnDate(targetDate))
    {
      manifestsRead := manifestsRead + 1;
      assert branches[..b + 1][..b] == branches[..b];
      ConcatAppend(Concat(branches[..b]), branches[b]);
      FilterAppend(Concat(Concat(branches[..b])), Concat(branches[b]), OnDate(targetDate));
      matchingFiles, filesScanned, manifestsRead :=
        ScanBranch(matchingFiles, filesScanned, manifestsRead, branches[b], targetDate);
    }
    assert branches[..|branches|] == branches;
    metrics := TreeMetrics(3, manifestsRead, filesScanned, manifestsRead, filesScanned);
  }

  lemma {:induction false} ConcatAppend<T>(a: seq<seq<T>>, b: seq<seq<T>>)
    ensures Concat(a + b) == Concat(a) + Concat(b)
    decreases |b|
  {
    if b == [] {
      assert a + b == a;
    } else {
      var last := |b| - 1;
      assert (a + b)[..|a + b| - 1] == a + b[..last];
      ConcatAppend(a, b[..last]);
    }
  }
}
