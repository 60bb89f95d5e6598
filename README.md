# Iceberg V4 metadata benchmarks: a Dafny model of their deterministic core

The repository is a proof of concept for the Iceberg V4 metadata proposal, plus a set of benchmarks.
Its centre is an adaptive root/leaf manifest tree:

- a root manifest holds data-file entries inline;
- when the root grows past a byte threshold, it flushes the whole inline batch into a leaf manifest and keeps only a reference to it.

Around the tree, Python and Java benchmarks compare layouts and update strategies.
They use small deterministic algorithms:

- a density-aware inline/spill policy for manifest delete vectors (MDVs);
- the joins that resolve deletion vectors (DVs) to data files;
- the chunking of file indices into two- and three-level manifest trees;
- a rewrite-versus-column-file comparison for updating DVs;
- binary serialisers for manifests and their entries;
- `ByteBuffer` manifests in the delete-storm benchmark;
- column-family ranges, schemas and S3 path handling;
- the command-line parser of the Java benchmark runner.

This project models those algorithms in Dafny and proves what the code promises about them.

Modules, one per source file plus shared helpers:

- `Results`: `Option` and `Result`.
- `Bytes`: bytes and Python's `struct.pack` for unsigned little-endian fields, with its `struct.error` path.
- `Text`: decimal and zero-padded formatting.
- `Seqs`: sequence helpers.
- `StableSort`: Python's stable `sorted(..., key=...)`.
- `JavaInt`: 32-bit `int` wrap-around and truncating division.
- `TreeManifests`: entries, leaves, their size estimates and byte layouts, and a parser proving the layouts round-trip.
- `AdaptiveTree`:
  - the `RootManifest` class, whose methods change its inline list and leaf list in place;
  - the `AdaptiveTreeManager` class, with its commit and flush counters.
- `DensityPolicy`: the simulated MDV generators and the inline/spill policy.
- `DvResolution`: the hash, positional and coalesced joins, and the position-ordered merge.
- `MetadataTree`: flat, two-level and three-level tree construction and the query counters.
- `ColumnFileUpdates`: the DV manifest and its shared entry list (an `EntryList` class), the full rewrite in place, and the column-file update.
- `ManifestGenerator`: file entries and the padded or truncated root manifest.
- `DeleteStorm`: a `ByteBuffer` class over an `array<byte>`, and the inline and external manifests.
- `ColumnFamilies`: family ranges, schemas, family files and the `readParquetFile` bucket/key split.
- `BenchmarkRunner`: `BenchmarkConfig`, `parseArgs`, the benchmark dispatch in `main`.

Loops in the source are `while`/`for` loops here, each proved against a function that specifies its result.
Exceptions are error values of a `Result`:

- `struct.error`;
- `IndexError`;
- `ZeroDivisionError`;
- `BufferOverflowException`;
- `IndexOutOfBoundsException`;
- `ArrayIndexOutOfBoundsException`;
- `NumberFormatException`.

Some behaviour of the code as written is stated as lemmas, each with the input that shows it:

- `AdaptiveTree.SizeNotRecheckedAfterFlush`: after a flush, the root's size is never compared with the threshold again.
- `AdaptiveTree.LeafEntryLimitNotEnforced`: the leaf entry limit is stored but never used.
- `DvResolution.NullEntriesMiscount`: `null_entries` of the positional join counts DVs, not empty slots.
- `ManifestGenerator.HeaderCountExceedsEntries`: the root manifest header can announce more files than it holds.
- `ColumnFamilies.FamilySchemasVersusSingle`: `col_0` appears in no family schema.
- `ColumnFamilies.ShortBucketMisread`: the bucket name is searched for from the start of the path.

## Model

| member | source | states |
|---|---|---|
| Bytes.PackUnsigned | poc/utils/adaptive_tree.py:72-81 | an unsigned `struct.pack` succeeds iff the value fits the width. It then writes exactly that many bytes, which read back to the value |
| Bytes.LittleEndianRoundTrip | poc/utils/adaptive_tree.py:67 | the little-endian bytes of a value that fits read back to the value |
| Bytes.U32 | poc/utils/adaptive_tree.py:67 | `struct.pack('<I', x)` is four bytes that read back to `x` |
| Bytes.Zeros | poc/test_density_adaptive_policy.py:88 | `bytes(n)` is `n` zero bytes |
| StableSort.SortBySortedPermutation | poc/test_density_adaptive_policy.py:315 | `sorted(..., key=...)` returns its input reordered by ascending key |
| StableSort.SortByStable | poc/test_density_adaptive_policy.py:315 | `sorted` is stable: elements with equal keys keep their input order |
| Text.ZeroPad | poc/test_column_file_dv_updates.py:107 | `{i:05d}` is a digit string of at least the width whose value is `i`, exactly the width when `i` fits in it |
| Text.DecimalRoundTrip | real-benchmarks/java/src/main/java/org/apache/iceberg/benchmarks/BenchmarkRunner.java:123 | the decimal text of a number reads back to the number |
| JavaInt.Int32 | real-benchmarks/java/src/main/java/org/apache/iceberg/benchmarks/DeleteStormBenchmark.java:295 | a Java `int` result is the mathematical value wrapped into 32 bits. It is unchanged when the value fits and congruent to it modulo 2^32 |
| JavaInt.JavaDivTruncates | real-benchmarks/java/src/main/java/org/apache/iceberg/benchmarks/ColumnFamiliesBenchmark.java:318 | Java's `/` on `int` truncates toward zero: the remainder has the dividend's sign and is smaller than the divisor |
| AdaptiveTree.RootManifest.constructor | poc/utils/adaptive_tree.py:96-99 | a new root is flat and empty, with the 16 MiB threshold and 2000-entry leaves |
| AdaptiveTree.RootManifest.WithLimits | poc/utils/adaptive_tree.py:96-99 | a root built with explicit limits is flat and empty and keeps the given limits |
| AdaptiveTree.RootManifest.CurrentSizeBytes | poc/utils/adaptive_tree.py:101-106 | the size is 200 bytes per inline entry, plus the inline MDV bytes, plus 100 bytes per leaf |
| AdaptiveTree.RootManifest.FlushToLeaf | poc/utils/adaptive_tree.py:123-150 | an empty root does not flush and stays as it is. Otherwise the whole inline batch becomes leaf `k` at `metadata/manifest-k.avro`, appended after the existing leaves, and the inline list is cleared. The tree's entries, in order, stay the same, and the leaf invariant holds |
| AdaptiveTree.RootManifest.AddEntry | poc/utils/adaptive_tree.py:108-121 | the entry is appended to the tree's entries. A flush happens iff the size with the entry reaches the threshold. Without a flush the root stays under the threshold; after one, the root holds only leaf references |
| AdaptiveTree.RootManifest.Serialize | poc/utils/adaptive_tree.py:152-181 | the result is the root encoding: magic, version 1, the counted inline entries and the counted leaf references. It fails with a struct error when a field does not fit its width |
| AdaptiveTree.RootManifest.GetStats | poc/utils/adaptive_tree.py:183-196 | the total counts every entry, leaf by leaf. The depth is 2 iff there are leaves, and the tree is flat iff there are none |
| AdaptiveTree.SizeNotRecheckedAfterFlush | poc/utils/adaptive_tree.py:115-119 | a root whose threshold is one leaf reference is at or above its threshold after the flush triggered by its first entry |
| AdaptiveTree.SizeWithoutMdvs | poc/utils/adaptive_tree.py:45-49 | entries without MDVs cost exactly 200 bytes each |
| AdaptiveTree.LeafEntryLimitNotEnforced | poc/utils/adaptive_tree.py:99 | `max_entries_per_leaf` is never consulted: 83886 MDV-free entries stay inline under 16 MiB, and the 83887th flushes more than 2000 entries into one leaf |
| AdaptiveTree.AdaptiveTreeManager.constructor | poc/utils/adaptive_tree.py:207-212 | the manager starts with an empty default root and zero commits and flushes |
| AdaptiveTree.AdaptiveTreeManager.CommitFile | poc/utils/adaptive_tree.py:214-245 | the entry is added and the commit is counted. A flush is counted iff the root flushed. The root changes only as `add_entry` changes it: the limits are kept, and the entry is appended inline, or the inline batch with the entry becomes the next leaf. Two files are written on a flush and one otherwise, and the reported size is the root's new size. The invariant that commits count entries and flushes count leaves is kept |
| AdaptiveTree.AdaptiveTreeManager.GetTreeStats | poc/utils/adaptive_tree.py:263-269 | the total entries equal the commit count, and the leaf count equals the flush count. The inline count, root size, depth (2 iff there are leaves) and flatness are those of the root |
| TreeManifests.SumSizesFormula | poc/utils/adaptive_tree.py:45-49 | the estimated size of a list of entries is 200 bytes per entry plus every MDV byte it carries |
| TreeManifests.SumSizesAppend | poc/utils/adaptive_tree.py:59-61 | the size estimate of two lists together is the sum of their estimates |
| TreeManifests.EncodeEntry | poc/utils/adaptive_tree.py:71-81 | an entry's layout is 22 bytes of fixed-width fields, plus the path and the MDV |
| TreeManifests.EncodeEntriesAppend | poc/utils/adaptive_tree.py:69-81 | encoding two lists of entries together is concatenating their encodings |
| TreeManifests.EncodeLeafRefsAppend | poc/utils/adaptive_tree.py:175-179 | encoding two lists of leaf references together is concatenating their encodings |
| TreeManifests.AppendEntry | poc/utils/adaptive_tree.py:71-81 | an entry whose fields fit their widths is appended in the u16/path/u64/u64/u32/MDV layout. Any field that does not fit gives the struct error |
| TreeManifests.AppendEntries | poc/utils/adaptive_tree.py:69-81 | every entry is appended in order, or the whole append fails when any entry does not fit |
| TreeManifests.AppendLeafRefs | poc/utils/adaptive_tree.py:174-179 | each leaf's path length, path and u32 entry count are appended, or the append fails when any of them does not fit |
| TreeManifests.SerializeLeaf | poc/utils/adaptive_tree.py:63-83 | a leaf serialises to its magic, its u32 entry count and its entries, or to the struct error |
| TreeManifests.ParseEntriesEncoded | poc/utils/adaptive_tree.py:69-81 | reading `n` entries back from the encoding of `n` entries gives their views and leaves the rest untouched |
| TreeManifests.ParseLeafRefsEncoded | poc/utils/adaptive_tree.py:175-179 | reading leaf references back from their encoding gives each path and entry count, in order |
| TreeManifests.ParseEntryEncoded | poc/utils/adaptive_tree.py:71-81 | one encoded entry reads back as its path, record count, file size and MDV |
| TreeManifests.LeafRoundTrip | poc/utils/adaptive_tree.py:63-83 | a serialised leaf parses back to its entries' paths, counts, sizes and MDVs, in order |
| TreeManifests.RootRoundTrip | poc/utils/adaptive_tree.py:152-181 | a serialised root parses back to version 1, its inline entries and its leaf references |
| TreeManifests.EncodedLengthVersusEstimate | poc/utils/adaptive_tree.py:45-83 | the estimated size and the real encoded length of a list of entries differ only in the fixed part of each entry: the layout spends 22 bytes plus the path where the estimate spends 200. So the encoding is shorter than the estimate exactly when the paths average fewer than 178 bytes |
| TreeManifests.LeafSize | poc/utils/adaptive_tree.py:59-61 | a leaf's size is 200 bytes per entry plus every MDV byte its entries carry |
| TreeManifests.EncodableIffPackable | poc/utils/adaptive_tree.py:63-83 | an entry can be laid out exactly when all four of its `struct.pack` calls succeed, so the layout fails exactly where Python raises `struct.error` |
| DensityPolicy.SparseMdv | poc/test_density_adaptive_policy.py:87-89 | the simulated array container has two bytes per deleted row |
| DensityPolicy.SparseContainerType | poc/test_density_adaptive_policy.py:81-85 | the Roaring path reports an array container iff fewer than 4096 rows are deleted, and a bitmap container otherwise |
| DensityPolicy.DenseMdv | poc/test_density_adaptive_policy.py:100-104 | the simulated bitmap container has 8192 bytes per started 65536-row range. A row count whose range count is negative fails as `bytes(n)` does |
| DensityPolicy.RunMdv | poc/test_density_adaptive_policy.py:118-121 | the simulated run container has four bytes per deleted range |
| DensityPolicy.ScenarioARows | poc/test_density_adaptive_policy.py:151-154 | manifest `i` deletes between 1 and 10 rows, each a row of the 10000-row file |
| DensityPolicy.ScenarioA | poc/test_density_adaptive_policy.py:149-166 | manifest `i` of scenario A is built from the sparse generator over `(i*13 + j*17) % 10000` and is marked inline |
| DensityPolicy.ApplyPolicy | poc/test_density_adaptive_policy.py:282-336 | the method computes the policy as specified: the small entries, then the run containers, then the greedy pack of the stably size-sorted candidates |
| DensityPolicy.PackInto | poc/test_density_adaptive_policy.py:317-327 | the loop appends to the forced list exactly the candidates the greedy pack accepts, starting from the forced total, and spills the others |
| DensityPolicy.MustInlineMembers | poc/test_density_adaptive_policy.py:305-312 | the value comparison `m not in must_inline` holds exactly for entries that are neither below the floor nor run containers |
| DensityPolicy.PackPartition | poc/test_density_adaptive_policy.py:322-327 | the pack splits its candidates into accepted and spilled without losing or duplicating any |
| DensityPolicy.PackRejectsRest | poc/test_density_adaptive_policy.py:322-327 | on sorted candidates, once one does not fit, every later one is spilled |
| DensityPolicy.PackPrefix | poc/test_density_adaptive_policy.py:315-327 | on sorted candidates, the accepted list followed by the spilled list is the candidate list |
| DensityPolicy.PackWithinCap | poc/test_density_adaptive_policy.py:322-325 | whatever is accepted keeps the running total within the cap |
| DensityPolicy.PackNoRoom | poc/test_density_adaptive_policy.py:320-327 | with non-negative sizes, a running total already over the cap accepts nothing |
| DensityPolicy.PolicyPartition | poc/test_density_adaptive_policy.py:305-327 | each input MDV lands in exactly one of inlined and spilled, as often as it occurs |
| DensityPolicy.PolicyInlinesForced | poc/test_density_adaptive_policy.py:305-317 | every MDV below the floor and every run container is inlined and never spilled, whatever the cap |
| DensityPolicy.PolicyOrder | poc/test_density_adaptive_policy.py:305-327 | the inlined list starts with the forced entries in order. The rest of it, followed by the spilled list, is the sorted candidate list, so the spilled MDVs are a suffix |
| DensityPolicy.PolicyBound | poc/test_density_adaptive_policy.py:320-327 | the inlined total is at most the larger of the forced total and the cap |
| DensityPolicy.PolicyForcedOverCap | poc/test_density_adaptive_policy.py:320-327 | when the forced entries alone exceed the cap, every candidate is spilled |
| DensityPolicy.ScenarioAAllInline | poc/test_density_adaptive_policy.py:136-176 | with a floor of at least 1 KiB, every scenario A MDV is inlined and none is spilled |
| DvResolution.DvMapLastWins | poc/test_dv_resolution_strategies.py:109-111 | the map has a key exactly for the paths some DV names, and it holds the last DV with that path |
| DvResolution.DvMapKeys | poc/test_dv_resolution_strategies.py:109-111 | the map's keys are the set of DV paths |
| DvResolution.DvMapSize | poc/test_dv_resolution_strategies.py:127 | with distinct DV paths, the map, and so the hash table size, has one entry per DV |
| DvResolution.BuildDvMap | poc/test_dv_resolution_strategies.py:109-111 | the dictionary loop builds the map described above |
| DvResolution.MatchesCharacterized | poc/test_dv_resolution_strategies.py:117-120 | the matched pairs are exactly the data files whose path is a key, in data-file order, each paired with the map's DV |
| DvResolution.HashJoin | poc/test_dv_resolution_strategies.py:100-137 | the hash join's matched pairs are those characterised above. The table size is the number of distinct DV paths, and memory is 200 bytes per table entry |
| DvResolution.Slots | poc/test_dv_resolution_strategies.py:148-154 | there is one slot per data file, holding the DV for its path or none |
| DvResolution.PositionalJoin | poc/test_dv_resolution_strategies.py:139-176 | the positional join builds one slot per data file and yields the same matched pairs as the hash join. Memory is 8 bytes per data file, and `null_entries` is files minus DVs |
| DvResolution.FillSlots | poc/test_dv_resolution_strategies.py:149-154 | the first loop builds exactly the slot list |
| DvResolution.ZipFilled | poc/test_dv_resolution_strategies.py:157-160 | zipping the slots with the data files keeps exactly the matched pairs of the hash join |
| DvResolution.CountNoneSlots | poc/test_dv_resolution_strategies.py:148-154 | with distinct file paths and map keys that name data files, the empty slots number files minus keys |
| DvResolution.NullEntriesAreEmptySlots | poc/test_dv_resolution_strategies.py:175 | `null_entries` equals the number of empty slots when DV paths are distinct and all name data files |
| DvResolution.NullEntriesMiscount | poc/test_dv_resolution_strategies.py:175 | two DVs for one file leave one slot empty, yet `null_entries` reports zero |
| DvResolution.FirstNonNullIsFirst | poc/test_dv_resolution_strategies.py:271-278 | the coalesced DV for a file is empty iff every manifest's slot is empty. Otherwise it is the slot of a manifest whose predecessors are all empty there |
| DvResolution.CountSomeNone | poc/test_dv_resolution_strategies.py:283 | every slot is counted once, as filled or empty |
| DvResolution.Coalesce | poc/test_dv_resolution_strategies.py:268-283 | index `i` gets the first non-empty slot across the manifests, in manifest order. `resolved_dvs` counts the filled results and equals the file count iff all resolved |
| DvResolution.WriteOverhead | poc/test_dv_resolution_strategies.py:293-348 | the unordered manifest is the DV list. The ordered manifest is the cursor merge of the position-sorted DVs, with one slot per data file. `null_entries` is slots minus DVs |
| DvResolution.MergeSlotsShape | poc/test_dv_resolution_strategies.py:320-327 | there is one slot per data file, and a filled slot holds a DV for that file's path. The placed DVs are a prefix of the sorted list, in order |
| DvResolution.MergePlacesAll | poc/test_dv_resolution_strategies.py:320-327 | the merge places every DV of a list whose data-file positions strictly increase |
| DvResolution.PositionMapIsIndex | poc/test_dv_resolution_strategies.py:314 | with distinct file paths, the position map sends each path to its file's index |
| DvResolution.SortedIsStrictlyPositioned | poc/test_dv_resolution_strategies.py:317 | sorting DVs with distinct paths, each naming a data file, by position puts them in strictly increasing file order, without losing any |
| DvResolution.EveryDvPlacedOnce | poc/test_dv_resolution_strategies.py:314-327 | with distinct known paths, every DV is placed exactly once, and the empty slots number files minus DVs |
| MetadataTree.DateOfDay | poc/test_adaptive_metadata_tree.py:68 | `datetime(2024, 1, 1) + timedelta(days=d)` for a day inside 2024 is a valid date that is `d` days into the year |
| MetadataTree.DateRoundTrip | poc/test_adaptive_metadata_tree.py:68 | dates of 2024 and day offsets correspond one to one |
| MetadataTree.PartitionDatesCycle | poc/test_adaptive_metadata_tree.py:68 | two files share a partition date iff their indices agree modulo 365 |
| MetadataTree.FileEntry | poc/test_adaptive_metadata_tree.py:67-73 | file `i` is partitioned on the date `i mod 365` days after 2024-01-01, with 64 MiB and 500000 records |
| MetadataTree.FileEntryPathsDistinct | poc/test_adaptive_metadata_tree.py:67-73 | different files get different paths |
| MetadataTree.FileEntries | poc/test_adaptive_metadata_tree.py:105-112 | the entries of `range(lo, hi)` are, in order, the entries of files `lo` to `hi - 1` |
| MetadataTree.AppendFileEntries | poc/test_adaptive_metadata_tree.py:105-112 | the append loop extends the list with exactly the entries of `range(lo, hi)` |
| MetadataTree.Chunks | poc/test_adaptive_metadata_tree.py:100-105 | every chunk holds between 1 and `size` elements |
| MetadataTree.ChunksCount | poc/test_adaptive_metadata_tree.py:96 | there are `ceil(n / size)` chunks |
| MetadataTree.ChunkAt | poc/test_adaptive_metadata_tree.py:101-102 | chunk `k` is the slice `[k*size, min(k*size + size, n))`, and its start lies inside the input |
| MetadataTree.ConcatChunks | poc/test_adaptive_metadata_tree.py:100-105 | the chunks joined in order give back the input, so they are contiguous, disjoint and cover it |
| MetadataTree.CreateFlatTree | poc/test_adaptive_metadata_tree.py:58-86 | the flat manifest holds the entries of files `0` to `n - 1` in order |
| MetadataTree.Create2LevelTree | poc/test_adaptive_metadata_tree.py:88-131 | the data manifests are the `files_per_manifest`-sized chunks of the file entries. A zero chunk size fails as the division by zero does |
| MetadataTree.BuildBranch | poc/test_adaptive_metadata_tree.py:154-172 | one branch's loop builds leaves `leaf_start` to `leaf_end - 1`, each holding its file range |
| MetadataTree.Create3LevelTree | poc/test_adaptive_metadata_tree.py:133-192 | the branches are the `leaves_per_branch`-sized chunks of the `files_per_leaf`-sized chunks of the file entries. A zero size fails as the division by zero does |
| MetadataTree.TwoLevelShape | poc/test_adaptive_metadata_tree.py:96-105 | a 2-level tree has `ceil(n / fpm)` data manifests which, in order, hold every file exactly once |
| MetadataTree.ThreeLevelShape | poc/test_adaptive_metadata_tree.py:143-159 | a 3-level tree has `ceil(ceil(n / fpl) / lpb)` branches over `ceil(n / fpl)` leaves which, in order, hold every file exactly once |
| MetadataTree.ScanEntries | poc/test_adaptive_metadata_tree.py:251-254 | the scan counts every entry and keeps exactly those on the target date, in order |
| MetadataTree.QueryFlatTree | poc/test_adaptive_metadata_tree.py:194-225 | the flat query reports depth 1, one manifest read and every entry scanned |
| MetadataTree.Query2LevelTree | poc/test_adaptive_metadata_tree.py:227-268 | the 2-level query reads 1 + the number of data manifests and scans every entry across them |
| MetadataTree.ScanBranch | poc/test_adaptive_metadata_tree.py:294-303 | one branch reads each of its leaves and scans all their entries |
| MetadataTree.Query3LevelTree | poc/test_adaptive_metadata_tree.py:270-317 | the 3-level query reads 1 + branches + leaves manifests, reports that as `total_manifests`, and scans every entry |
| ColumnFileUpdates.InitialEntries | poc/test_column_file_dv_updates.py:98-129 | a new manifest of `n` files has `n` entries, entry `i` with path `file-{i:05d}` and the 24-byte, cardinality-10 inline DV. A non-positive `n` gives none |
| ColumnFileUpdates.EntryList.constructor | poc/test_column_file_dv_updates.py:95 | a new entry list is empty |
| ColumnFileUpdates.EntryList.Append | poc/test_column_file_dv_updates.py:129 | `append` adds the entry at the end and changes nothing else |
| ColumnFileUpdates.EntryList.SetDeleteVector | poc/test_column_file_dv_updates.py:157-161 | assigning `delete_vector` replaces that field of that one entry and nothing else |
| ColumnFileUpdates.CreateManifestWithDvs | poc/test_column_file_dv_updates.py:79-131 | the manifest has its constant fields, length 500·n, `n` added files, 10000·n added rows, and a fresh entry list holding the initial entries |
| ColumnFileUpdates.ResolveIndex | poc/test_column_file_dv_updates.py:157 | Python list indexing accepts exactly `-n <= idx < n`, counting negative indices from the end |
| ColumnFileUpdates.FullRewrite | poc/test_column_file_dv_updates.py:133-170 | the shared entry list is rewritten in place. The call fails with `IndexError` iff the replacement loop does, and otherwise reports 520·n bytes in 2 I/O operations |
| ColumnFileUpdates.Targets | poc/test_column_file_dv_updates.py:156-157 | the positions a list of indices names are exactly those some in-range index resolves to |
| ColumnFileUpdates.RewriteFails | poc/test_column_file_dv_updates.py:156-161 | the replacement loop fails iff some index is out of range |
| ColumnFileUpdates.RewriteEffect | poc/test_column_file_dv_updates.py:156-161 | a successful rewrite gives the 32-byte, cardinality-15 DV to exactly the named entries and leaves every other entry untouched |
| ColumnFileUpdates.RewriteIdempotent | poc/test_column_file_dv_updates.py:156-161 | running the same replacements twice equals running them once |
| ColumnFileUpdates.RewriteKeepsReplaced | poc/test_column_file_dv_updates.py:156-161 | a DV already replaced stays replaced |
| ColumnFileUpdates.RewritePaths | poc/test_column_file_dv_updates.py:156-161 | the rewrite changes nothing but DVs |
| ColumnFileUpdates.ColumnFileUpdate | poc/test_column_file_dv_updates.py:172-209 | the column-file update writes 40·k + 200 bytes in 3 I/O operations and does not modify the manifest |
| ColumnFileUpdates.ColumnUpdateWritesLess | poc/test_column_file_dv_updates.py:211-250 | for a non-empty manifest and a percentage from 0 to 100, the scenario succeeds. Its column-file update then writes fewer bytes than its full rewrite, using one more I/O operation |
| ColumnFileUpdates.NumUpdates | poc/test_column_file_dv_updates.py:228 | `int(x)` truncates toward zero: for a non-negative product the count is its floor, for a negative one its ceiling |
| ColumnFileUpdates.NumUpdatesInRange | poc/test_column_file_dv_updates.py:228 | a percentage from 0 to 100 gives an update count from 0 to the file count |
| ColumnFileUpdates.RunScenario | poc/test_column_file_dv_updates.py:211-276 | both strategies share one entry list, which ends as the rewrite of the first `k` entries. The result reports both costs, or the `IndexError` the rewrite raises |
| ColumnFileUpdates.ScenarioUpdates | poc/test_column_file_dv_updates.py:228-237 | updating the first `k` of `n` new entries fails iff `k > n`. Within range exactly the first `k` get the new DV, and no path changes |
| ColumnFileUpdates.TargetsOfRange | poc/test_column_file_dv_updates.py:229 | `range(0, k)` names exactly the first `k` entries |
| ManifestGenerator.LocationLength | poc/utils/manifest_generator.py:97 | for a file id below 10^8 the location is 68 characters |
| ManifestGenerator.GenerateFileEntry | poc/utils/manifest_generator.py:75-127 | an entry is produced iff every packed field fits its width, and it is 59 bytes plus the location |
| ManifestGenerator.EntrySize | poc/utils/manifest_generator.py:97-127 | with in-range draws and an id below 10^8, an entry is exactly 127 bytes |
| ManifestGenerator.EntryRoundTrip | poc/utils/manifest_generator.py:91-127 | the entry layout parses back to content type 0, the location, `parquet`, the date, hour, records and size, snapshot `1000 + id`, sequence `id` and status 0 |
| ManifestGenerator.GenerateFileEntryRoundTrip | poc/utils/manifest_generator.py:75-127 | every entry the generator produces parses back to its inputs |
| ManifestGenerator.HeaderFields | poc/utils/manifest_generator.py:54-56 | the header is `ICEBERG_V4_MANIFEST`, u32 version 1 and the u64 file count |
| ManifestGenerator.GenerateRootManifest | poc/utils/manifest_generator.py:31-72 | the loop-and-break generator computes the root manifest function. The count is `target_size // 200` when none is given |
| ManifestGenerator.EntriesUntilExtends | poc/utils/manifest_generator.py:59-65 | the entry loop only ever appends to the buffer |
| ManifestGenerator.RootManifestLength | poc/utils/manifest_generator.py:67-72 | a produced manifest has exactly the target length, and starts with the header when the target leaves room for it |
| ManifestGenerator.EntriesPresentBounds | poc/utils/manifest_generator.py:59-65 | the loop writes at least one entry when there are files to write, and stops early only at the first entry that brings the length to the target |
| ManifestGenerator.RootManifestContents | poc/utils/manifest_generator.py:48-72 | for fewer than 10^8 files the manifest is the header and the entries written before the break, zero-padded or cut to the target |
| ManifestGenerator.HeaderCountExceedsEntries | poc/utils/manifest_generator.py:56-65 | a 500-byte manifest announcing 100 files holds only 4 entries |
| DeleteStorm.ByteBuffer.Allocate | real-benchmarks/java/src/main/java/org/apache/iceberg/benchmarks/DeleteStormBenchmark.java:295 | `ByteBuffer.allocate(n)` is a fresh zero-filled array of `n` bytes with the position at 0 |
| DeleteStorm.ByteBuffer.Put | real-benchmarks/java/src/main/java/org/apache/iceberg/benchmarks/DeleteStormBenchmark.java:299-301 | `put` throws an overflow iff the source is longer than the room left, and then nothing changes. Otherwise it copies the source at the position, advances the position by its length and leaves every other byte alone |
| DeleteStorm.LayoutStep | real-benchmarks/java/src/main/java/org/apache/iceberg/benchmarks/DeleteStormBenchmark.java:297-302 | one round of the loop puts the path (overflow if it does not fit), then fetches the companion (index fault if it is missing), then puts it (overflow if it does not fit) |
| DeleteStorm.WriteEntries | real-benchmarks/java/src/main/java/org/apache/iceberg/benchmarks/DeleteStormBenchmark.java:297-302 | the `put` loop writes exactly the layout, or stops with the layout's fault. Bytes past the position keep their old values |
| DeleteStorm.FillManifest | real-benchmarks/java/src/main/java/org/apache/iceberg/benchmarks/DeleteStormBenchmark.java:295-304 | the builder returns a fresh array holding the buffer manifest, or that manifest's fault |
| DeleteStorm.CreateManifestWithInlineDvs | real-benchmarks/java/src/main/java/org/apache/iceberg/benchmarks/DeleteStormBenchmark.java:292-305 | the inline builder allocates 1000 bytes per data file and writes each path followed by its DV's bitmap |
| DeleteStorm.CreateManifestWithExternalDvs | real-benchmarks/java/src/main/java/org/apache/iceberg/benchmarks/DeleteStormBenchmark.java:307-319 | the external builder allocates 500 bytes per data file and writes each path followed by its DV file key |
| DeleteStorm.LayoutCharacterized | real-benchmarks/java/src/main/java/org/apache/iceberg/benchmarks/DeleteStormBenchmark.java:295-302 | the writes succeed iff every path has a companion and the concatenation fits, and they then write exactly the concatenation. A fault with every companion present is an overflow, and a missing companion whose path fits is an index fault |
| DeleteStorm.ManifestShape | real-benchmarks/java/src/main/java/org/apache/iceberg/benchmarks/DeleteStormBenchmark.java:295-304 | a manifest is exactly the wrapped `size() * perFile` bytes: the concatenated paths and companions, then zeros. It is produced iff every path has a companion and the content fits |
| DeleteStorm.InterleaveUniform | real-benchmarks/java/src/main/java/org/apache/iceberg/benchmarks/DeleteStormBenchmark.java:297-302 | with uniform path and companion lengths, the content is `n * (p + c)` bytes |
| DeleteStorm.DvKeyInjective | real-benchmarks/java/src/main/java/org/apache/iceberg/benchmarks/DeleteStormBenchmark.java:245 | distinct DVs get distinct `dv-%05d.puffin` keys |
| DeleteStorm.DataFilePathInjective | real-benchmarks/java/src/main/java/org/apache/iceberg/benchmarks/DeleteStormBenchmark.java:130 | distinct files get distinct `file-%05d.parquet` paths |
| DeleteStorm.PathLengths | real-benchmarks/java/src/main/java/org/apache/iceberg/benchmarks/DeleteStormBenchmark.java:130-245 | below 100000 files, a data path is 29 characters plus the bucket and a DV key is 30 |
| DeleteStorm.ExternalManifestFits | real-benchmarks/java/src/main/java/org/apache/iceberg/benchmarks/DeleteStormBenchmark.java:307-318 | with the benchmark's own names, the external manifest fits its 500 bytes per file iff the bucket name has at most 441 characters |
| DeleteStorm.S3Requests | real-benchmarks/java/src/main/java/org/apache/iceberg/benchmarks/DeleteStormBenchmark.java:97-98 | the inline layout records one request, and the external one records one more per DV |
| DeleteStorm.ExternalReadsDistinct | real-benchmarks/java/src/main/java/org/apache/iceberg/benchmarks/DeleteStormBenchmark.java:269-285 | the external layout's reads name pairwise different objects, one request each |
| DeleteStorm.CountS3Operations | real-benchmarks/java/src/main/java/org/apache/iceberg/benchmarks/DeleteStormBenchmark.java:321-325 | the operation count is a 32-bit `int`, and is exactly three per file while that fits |
| DeleteStorm.CountS3OperationsIsTriple | real-benchmarks/java/src/main/java/org/apache/iceberg/benchmarks/DeleteStormBenchmark.java:321-325 | `countS3Operations` is `3 * numFiles` wrapped to an `int`, and exactly `3 * numFiles` while that fits |
| ColumnFamilies.DataFields | real-benchmarks/java/src/main/java/org/apache/iceberg/benchmarks/ColumnFamiliesBenchmark.java:517-519 | the fields for a column range come in column order, one per column of the range and none for an empty range |
| ColumnFamilies.CreateSchema | real-benchmarks/java/src/main/java/org/apache/iceberg/benchmarks/ColumnFamiliesBenchmark.java:513-522 | the schema loop builds `id` followed by the fields `col_0` to `col_{n-2}` |
| ColumnFamilies.CreateFamilySchema | real-benchmarks/java/src/main/java/org/apache/iceberg/benchmarks/ColumnFamiliesBenchmark.java:527-541 | the family schema loop builds `id` when the range starts at column 0, then the fields of the range except `col_0` |
| ColumnFamilies.SchemaShape | real-benchmarks/java/src/main/java/org/apache/iceberg/benchmarks/ColumnFamiliesBenchmark.java:513-522 | a single-file schema has `numColumns` fields (one when `numColumns < 1`): `id` first, then the columns in order, with field ids 1, 2, 3, … |
| ColumnFamilies.DataFieldsMembership | real-benchmarks/java/src/main/java/org/apache/iceberg/benchmarks/ColumnFamiliesBenchmark.java:517-519 | column `i` is in the fields of a range exactly when the range holds it, and `id` never is |
| ColumnFamilies.FamilyFieldsContents | real-benchmarks/java/src/main/java/org/apache/iceberg/benchmarks/ColumnFamiliesBenchmark.java:527-541 | a family schema holds `id` iff its range starts at 0, and `col_i` iff `i > 0` and the range holds `i` |
| ColumnFamilies.NumFamilies | real-benchmarks/java/src/main/java/org/apache/iceberg/benchmarks/ColumnFamiliesBenchmark.java:153 | the benchmark uses 5 families exactly when there are at least 1000 columns, otherwise 2 |
| ColumnFamilies.FamilyRangesContiguous | real-benchmarks/java/src/main/java/org/apache/iceberg/benchmarks/ColumnFamiliesBenchmark.java:318-327 | the family ranges tile the columns: the first starts at 0, each ends where the next starts, the last ends at `numColumns`, none runs backwards |
| ColumnFamilies.FamilyOfColumn | real-benchmarks/java/src/main/java/org/apache/iceberg/benchmarks/ColumnFamiliesBenchmark.java:318-327 | every column lies in the range of some family |
| ColumnFamilies.FamiliesOrdered | real-benchmarks/java/src/main/java/org/apache/iceberg/benchmarks/ColumnFamiliesBenchmark.java:326-327 | an earlier family's range ends no later than a later one's starts |
| ColumnFamilies.FamilyRangesPartition | real-benchmarks/java/src/main/java/org/apache/iceberg/benchmarks/ColumnFamiliesBenchmark.java:318-327 | every column belongs to exactly one family |
| ColumnFamilies.ChosenFamiliesNonEmpty | real-benchmarks/java/src/main/java/org/apache/iceberg/benchmarks/ColumnFamiliesBenchmark.java:318-327 | with the family count the benchmark picks and at least two columns, no family range is empty |
| ColumnFamilies.FamilySchemasVersusSingle | real-benchmarks/java/src/main/java/org/apache/iceberg/benchmarks/ColumnFamiliesBenchmark.java:513-541 | `col_0` is in the single-file schema but in no family schema, the last column is in no single-file schema, and every other column is in some family schema |
| ColumnFamilies.FamilyFiles | real-benchmarks/java/src/main/java/org/apache/iceberg/benchmarks/ColumnFamiliesBenchmark.java:325-331 | a row group has one file per family |
| ColumnFamilies.FamilyFileAt | real-benchmarks/java/src/main/java/org/apache/iceberg/benchmarks/ColumnFamiliesBenchmark.java:325-331 | file `family` of a row group lies at `s3://{bucket}/column-families/families/rg-%05d-family-%02d.parquet` and has the schema of that family's range |
| ColumnFamilies.CreateColumnFamilyData | real-benchmarks/java/src/main/java/org/apache/iceberg/benchmarks/ColumnFamiliesBenchmark.java:316-360 | a zero family count fails with a division by zero. Otherwise there is one group per row group (none for a negative count), each naming its files' paths in family order |
| ColumnFamilies.WriteRowGroup | real-benchmarks/java/src/main/java/org/apache/iceberg/benchmarks/ColumnFamiliesBenchmark.java:325-355 | the inner loop writes the row group's files family by family and records their paths in the same order |
| ColumnFamilies.CountS3Operations | real-benchmarks/java/src/main/java/org/apache/iceberg/benchmarks/ColumnFamiliesBenchmark.java:543-546 | the operation count is a 32-bit `int`, and equals ten times the file count whenever that does not overflow |
| ColumnFamilies.ReadRequest | real-benchmarks/java/src/main/java/org/apache/iceberg/benchmarks/ColumnFamiliesBenchmark.java:493-508 | a request that is issued asks the third `/`-piece of the path for its bucket, and a suffix of the path for its key |
| ColumnFamilies.IndexOf | real-benchmarks/java/src/main/java/org/apache/iceberg/benchmarks/ColumnFamiliesBenchmark.java:496 | `indexOf` returns -1 or a position where the text occurs |
| ColumnFamilies.SplitS3Path | real-benchmarks/java/src/main/java/org/apache/iceberg/benchmarks/ColumnFamiliesBenchmark.java:495 | the third piece of `s3://{bucket}/{key}` split on `/` is the bucket, for a non-empty bucket without `/` |
| ColumnFamilies.BucketFoundAfterScheme | real-benchmarks/java/src/main/java/org/apache/iceberg/benchmarks/ColumnFamiliesBenchmark.java:496 | a plain bucket name is first found at position 5, just after `s3://` |
| ColumnFamilies.ReadRequestRoundTrip | real-benchmarks/java/src/main/java/org/apache/iceberg/benchmarks/ColumnFamiliesBenchmark.java:493-508 | a path `s3://{bucket}/{key}` with a plain bucket is read from that bucket under that key |
| ColumnFamilies.FamilyPathRead | real-benchmarks/java/src/main/java/org/apache/iceberg/benchmarks/ColumnFamiliesBenchmark.java:493-508 | every family file path is read back from its bucket under its own key |
| ColumnFamilies.BucketAtStartMisread | real-benchmarks/java/src/main/java/org/apache/iceberg/benchmarks/ColumnFamiliesBenchmark.java:495-496 | when the bucket name also matches at position 0, the key is taken from the wrong place: the path after `|bucket| + 1` characters |
| ColumnFamilies.ShortBucketMisread | real-benchmarks/java/src/main/java/org/apache/iceberg/benchmarks/ColumnFamiliesBenchmark.java:495-496 | for a bucket named `s3` the request asks for key `//s3/{key}` instead of `{key}` |
| BenchmarkRunner.BenchmarkConfig.constructor | real-benchmarks/java/src/main/java/org/apache/iceberg/benchmarks/BenchmarkRunner.java:208-215 | a fresh configuration has no benchmark and no bucket, 10000 files, 1000 commits, region `us-east-1` and output directory `./results` |
| BenchmarkRunner.ParseInt | real-benchmarks/java/src/main/java/org/apache/iceberg/benchmarks/BenchmarkRunner.java:126-131 | a count that parses is a 32-bit `int` |
| BenchmarkRunner.ParseIntRoundTrip | real-benchmarks/java/src/main/java/org/apache/iceberg/benchmarks/BenchmarkRunner.java:126-131 | the text of every `int` parses back to it, and the text of any number outside the `int` range is a `NumberFormatException` |
| BenchmarkRunner.ParseIntNeedsDigits | real-benchmarks/java/src/main/java/org/apache/iceberg/benchmarks/BenchmarkRunner.java:126-131 | a value that does not start with a digit or a sign, such as the next flag, is a `NumberFormatException` |
| BenchmarkRunner.ScanStep | real-benchmarks/java/src/main/java/org/apache/iceberg/benchmarks/BenchmarkRunner.java:118-143 | one round of the loop: `--help` stops it, an unknown argument is skipped, a value flag in last position is an index fault, a value flag takes the next argument (parsed as an `int` for the counts) and the loop resumes after it |
| BenchmarkRunner.ParseArgs | real-benchmarks/java/src/main/java/org/apache/iceberg/benchmarks/BenchmarkRunner.java:115-151 | `parseArgs` throws exactly the exception the scan meets, returns `null` exactly when the scan does, and otherwise a fresh configuration holding the scanned settings |
| BenchmarkRunner.ScanAppend | real-benchmarks/java/src/main/java/org/apache/iceberg/benchmarks/BenchmarkRunner.java:118-143 | scanning two argument lists in turn is scanning their concatenation, unless the first ends on a flag that lacks its value |
| BenchmarkRunner.DefaultsApply | real-benchmarks/java/src/main/java/org/apache/iceberg/benchmarks/BenchmarkRunner.java:115-151 | with only `--benchmark` and `--s3-bucket` given, every other setting keeps its default |
| BenchmarkRunner.LastOccurrenceWins | real-benchmarks/java/src/main/java/org/apache/iceberg/benchmarks/BenchmarkRunner.java:120-122 | when a flag is repeated, the later value replaces the earlier one |
| BenchmarkRunner.HelpStopsScan | real-benchmarks/java/src/main/java/org/apache/iceberg/benchmarks/BenchmarkRunner.java:138-139 | `--help` yields `null` whatever follows it, malformed or not |
| BenchmarkRunner.UnknownSkipped | real-benchmarks/java/src/main/java/org/apache/iceberg/benchmarks/BenchmarkRunner.java:140-141 | an unrecognised argument is skipped and changes nothing |
| BenchmarkRunner.TrailingFlagFails | real-benchmarks/java/src/main/java/org/apache/iceberg/benchmarks/BenchmarkRunner.java:118-137 | a value-taking flag in last position throws `ArrayIndexOutOfBoundsException` |
| BenchmarkRunner.BadCountFails | real-benchmarks/java/src/main/java/org/apache/iceberg/benchmarks/BenchmarkRunner.java:126-131 | a file or commit count that does not parse throws `NumberFormatException`, whatever follows it |
| BenchmarkRunner.RequiredFlags | real-benchmarks/java/src/main/java/org/apache/iceberg/benchmarks/BenchmarkRunner.java:145-150 | after a complete scan, the result is `null` exactly when the benchmark or the bucket is missing |
| BenchmarkRunner.Dispatch | real-benchmarks/java/src/main/java/org/apache/iceberg/benchmarks/BenchmarkRunner.java:55-69 | the benchmark chosen is the one whose name matches exactly |
| BenchmarkRunner.DispatchRoundTrip | real-benchmarks/java/src/main/java/org/apache/iceberg/benchmarks/BenchmarkRunner.java:55-69 | each benchmark is selected by its own name, and a name selects a benchmark only if it is one of the three names |
| BenchmarkRunner.MainOutcome | real-benchmarks/java/src/main/java/org/apache/iceberg/benchmarks/BenchmarkRunner.java:32-83 | `main` runs a benchmark only when the arguments parse to a configuration and the credentials check passes |
| BenchmarkRunner.MainRuns | real-benchmarks/java/src/main/java/org/apache/iceberg/benchmarks/BenchmarkRunner.java:32-83 | a command line naming a known benchmark and a bucket, with valid credentials, runs that benchmark with the default settings |

## Left out

- Persistence and I/O. `_persist_root`, `_persist_latest_leaf`, JSON output, Parquet writers, S3 get and put calls and `saveResults` are not modelled: serialisation is modelled as the bytes returned.
- AdaptiveTree.AdaptiveTreeManager.CommitFile: `_persist_root` serialises the root on every commit. A root whose fields do not fit their widths would make `commit_file` raise `struct.error`. The model does not call `Serialize` from the commit, so it does not capture that failure.
- Timing, randomness and the S3 simulator. `perf_counter`, `nanoTime`, simulated latencies and the random draws are outside the model. The `time` element of the policy result and the speed-up and percentage figures are left out. Random values (dates, hours, record counts, sizes, DV assignments, bitmap contents) are parameters.
- Floating point. The `flush_rate` of `get_tree_stats` and the float helpers (inline thresholds, size estimates, G1 region sizes) are not modelled.
- ColumnFileUpdates.NumUpdates: `num_files * update_percentage / 100` is computed in exact rational arithmetic. A binary floating-point product could round across an integer, and the model does not capture that.
- Text encoding. Paths and locations are sequences of bytes, or ASCII characters where the source formats them. UTF-8 encoding of arbitrary text and Java's `getBytes` on non-ASCII characters are not modelled.
- BenchmarkRunner.ParseInt: only ASCII digits are read. Java's `Integer.parseInt` also accepts other Unicode decimal digits.
- `validateAWSCredentials` builds an S3 client. The model takes its outcome as the `credentialsValid` parameter of `BenchmarkRunner.MainOutcome`. The benchmarks `main` dispatches to, and their results, are not part of this model. DVResolutionBenchmark.java and WriteOverheadBenchmark.java are stubs in the source.
- Concurrency. The parallel family reads and writes of the column-families benchmark, the concurrent-writer test and the parallel S3 fetch are not modelled.
- Foreign libraries. The pyroaring and zlib branches of the MDV generators and Java's `RoaringBitmap` are not modelled. The container type the pyroaring path reports (`DensityPolicy.SparseContainerType`) is modelled, but not the sizes of its serialized bitmaps. Of the sizes, only the fallback rules of the generators are modelled. DV bitmaps in the delete-storm benchmark are arbitrary byte strings.
- Density scenarios B and C and their data generation, and the reporting around all scenarios, are not modelled. Only scenario A's deterministic MDVs are.
- The single-file baseline of the column-families benchmark (`createSingleFileData`) is represented only by its schema. Its row values and measurements are left out.
- Logging, printing and summaries throughout.
