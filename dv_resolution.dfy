/** Resolving delete vectors (DVs) to the data files they apply to: a path-keyed
    hash join, a positional join over an order-preserving DV list with empty
    slots, a coalesced "first non-empty slot across manifests" join, and the
    order-preserving merge that writes such a DV list. */
module DvResolution {
  import opened Results
  import opened StableSort

  datatype DataFile = DataFile(filePath: string, fileSizeBytes: int, recordCount: int, hasDv: bool)

  datatype DvEntry = DvEntry(filePath: string, dvSizeBytes: int, deletedRowCount: int)

  /** Estimated hash-table bytes per DV path, and array bytes per data file. */
  const HashEntryBytes := 200
  const PointerBytes := 8

  // ---------------------------------------------------------------------------
  // The path -> DV map

  /** `{dv.file_path: dv for dv in dvs}`: inserting in order, a later DV replaces an earlier one. */
  function DvMap(dvs: seq<DvEntry>): map<string, DvEntry>
  {
    if dvs == [] then map[] else DvMap(dvs[..|dvs| - 1])[dvs[|dvs| - 1].filePath := dvs[|dvs| - 1]]
  }

  /** The index of the last DV naming `path`, or -1 when none does. */
  function LastIndexOf(dvs: seq<DvEntry>, path: string): (r: int)
    ensures -1 <= r < |dvs|
    ensures r >= 0 ==> dvs[r].filePath == path
    ensures forall j :: r < j < |dvs| ==> dvs[j].filePath != path
  {
    if dvs == [] then -1
    else if dvs[|dvs| - 1].filePath == path then |dvs| - 1
    else LastIndexOf(dvs[..|dvs| - 1], path)
  }

  /** The map has a key for every DV path and no other, and holds the last DV with that path. */
  lemma {:induction false} DvMapLastWins(dvs: seq<DvEntry>, path: string)
    ensures path in DvMap(dvs) <==> LastIndexOf(dvs, path) >= 0
    ensures path in DvMap(dvs) ==> DvMap(dvs)[path] == dvs[LastIndexOf(dvs, path)]
  {
    if dvs != [] && dvs[|dvs| - 1].filePath != path {
      DvMapLastWins(dvs[..|dvs| - 1], path);
    }
  }

  function DvPaths(dvs: seq<DvEntry>): set<string>
  {
    set i | 0 <= i < |dvs| :: dvs[i].filePath
  }

  predicate DistinctDvPaths(dvs: seq<DvEntry>)
  {
    forall i, j :: 0 <= i < j < |dvs| ==> dvs[i].filePath != dvs[j].filePath
  }

  lemma {:induction false} DvMapKeys(dvs: seq<DvEntry>)
    ensures DvMap(dvs).Keys == DvPaths(dvs)
  {
    if dvs != [] {
      var init := dvs[..|dvs| - 1];
      DvMapKeys(init);
      assert DvPaths(dvs) == DvPaths(init) + {dvs[|dvs| - 1].filePath} by {
        forall p | p in DvPaths(dvs) ensures p in DvPaths(init) + {dvs[|dvs| - 1].filePath} {
          var i :| 0 <= i < |dvs| && dvs[i].filePath == p;
          if i < |dvs| - 1 { assert init[i] == dvs[i]; }
        }
        forall p | p in DvPaths(init) ensures p in DvPaths(dvs) {
          var i :| 0 <= i < |init| && init[i].filePath == p;
          assert dvs[i] == init[i];
        }
      }
    }
  }

  /** With distinct DV paths the map has exactly one entry per DV. */
  lemma {:induction false} DvMapSize(dvs: seq<DvEntry>)
    requires DistinctDvPaths(dvs)
    ensures |DvMap(dvs)| == |dvs|
  {
    if dvs != [] {
      var init := dvs[..|dvs| - 1];
      var last := dvs[|dvs| - 1];
      DvMapSize(init);
      DvMapKeys(init);
      assert last.filePath !in DvPaths(init) by {
        forall i | 0 <= i < |init| ensures init[i].filePath != last.filePath {
          assert init[i] == dvs[i];
        }
      }
      assert DvMap(dvs).Keys == DvMap(init).Keys + {last.filePath};
    }
  }

  /** The dictionary-building loop both joins start with. */
  method BuildDvMap(dvs: seq<DvEntry>) returns (dvMap: map<string, DvEntry>)
    ensures dvMap == DvMap(dvs)
  {
    dvMap := map[];
    for k := 0 to |dvs|
      invariant dvMap == DvMap(dvs[..k])
    {
      assert dvs[..k + 1][..k] == dvs[..k];
      dvMap := dvMap[dvs[k].filePath := dvs[k]];
    }
    assert dvs[..|dvs|] == dvs;
  }

  // ---------------------------------------------------------------------------
  // Hash join and positional join

  /** The data files whose path has a DV, in data-file order, each paired with that DV. */
  function Matches(dataFiles: seq<DataFile>, dvMap: map<string, DvEntry>): seq<(DataFile, DvEntry)>
  {
    if dataFiles == [] then []
    else
      var df := dataFiles[0];
      (if df.filePath in dvMap then [(df, dvMap[df.filePath])] else []) + Matches(dataFiles[1..], dvMap)
  }

  /** The data files that have a DV in the map, in their original order. */
  function WithDv(dataFiles: seq<DataFile>, dvMap: map<string, DvEntry>): seq<DataFile>
  {
    if dataFiles == [] then []
    else (if dataFiles[0].filePath in dvMap then [dataFiles[0]] else []) + WithDv(dataFiles[1..], dvMap)
  }

  /** The matched pairs are exactly the data files with a DV, in order, each with the map's DV. */
  lemma {:induction false} MatchesCharacterized(dataFiles: seq<DataFile>, dvMap: map<string, DvEntry>)
    ensures |Matches(dataFiles, dvMap)| == |WithDv(dataFiles, dvMap)|
    ensures forall k :: 0 <= k < |Matches(dataFiles, dvMap)| ==>
      var (df, dv) := Matches(dataFiles, dvMap)[k];
      df == WithDv(dataFiles, dvMap)[k] && df.filePath in dvMap && dv == dvMap[df.filePath]
  {
    if dataFiles != [] {
      var df := dataFiles[0];
      var m, w := Matches(dataFiles[1..], dvMap), WithDv(dataFiles[1..], dvMap);
      MatchesCharacterized(dataFiles[1..], dvMap);
      if df.filePath in dvMap {
        assert Matches(dataFiles, dvMap) == [(df, dvMap[df.filePath])] + m;
        assert WithDv(dataFiles, dvMap) == [df] + w;
      } else {
        assert Matches(dataFiles, dvMap) == m && WithDv(dataFiles, dvMap) == w;
      }
    }
  }

  datatype HashJoinResult = HashJoinResult(matched: seq<(DataFile, DvEntry)>, memoryBytes: int, hashTableSize: nat)

  /** `benchmark_hash_join` without its timings: build the path map, then probe it per data file. */
  method HashJoin(dataFiles: seq<DataFile>, dvs: seq<DvEntry>) returns (r: HashJoinResult)
    ensures r.matched == Matches(dataFiles, DvMap(dvs))
    ensures r.hashTableSize == |DvMap(dvs)| && r.memoryBytes == HashEntryBytes * r.hashTableSize
  {
    var dvMap := BuildDvMap(dvs);
    var matched := [];
    for i := 0 to |dataFiles|
      invariant matched + Matches(dataFiles[i..], dvMap) == Matches(dataFiles, dvMap)
    {
      var dataFile := dataFiles[i];
      assert dataFiles[i..][1..] == dataFiles[i + 1..];
      if dataFile.filePath in dvMap {
        assert matched + Matches(dataFiles[i..], dvMap)
            == (matched + [(dataFile, dvMap[dataFile.filePath])]) + Matches(dataFiles[i + 1..], dvMap);
        matched := matched + [(dataFile, dvMap[dataFile.filePath])];
      }
    }
    assert dataFiles[|dataFiles|..] == [];
    r := HashJoinResult(matched, |dvMap| * HashEntryBytes, |dvMap|);
  }

  /** One slot per data file: the DV for its path, or no DV. */
  function Slots(dataFiles: seq<DataFile>, dvMap: map<string, DvEntry>): (s: seq<Option<DvEntry>>)
    ensures |s| == |dataFiles|
    ensures forall i :: 0 <= i < |dataFiles| ==>
      s[i] == if dataFiles[i].filePath in dvMap then Some(dvMap[dataFiles[i].filePath]) else None
  {
    seq(|dataFiles|, i requires 0 <= i < |dataFiles| =>
      if dataFiles[i].filePath in dvMap then Some(dvMap[dataFiles[i].filePath]) else None)
  }

  datatype PositionalJoinResult = PositionalJoinResult(
    orderedDvs: seq<Option<DvEntry>>, matched: seq<(DataFile, DvEntry)>, memoryBytes: int, nullEntries: int)

  /** `benchmark_positional_join` without its timings: an order-preserving slot list, then a zip. */
  method PositionalJoin(dataFiles: seq<DataFile>, dvs: seq<DvEntry>) returns (r: PositionalJoinResult)
    ensures r.orderedDvs == Slots(dataFiles, DvMap(dvs))
    ensures r.matched == Matches(dataFiles, DvMap(dvs))
    ensures r.memoryBytes == PointerBytes * |dataFiles|
    ensures r.nullEntries == |dataFiles| - |dvs|
  {
    var dvMap := BuildDvMap(dvs);
    var orderedDvs := FillSlots(dataFiles, dvMap);
    var matched := ZipFilled(dataFiles, dvMap, orderedDvs);
    r := PositionalJoinResult(orderedDvs, matched, |dataFiles| * PointerBytes, |dataFiles| - |dvs|);
  }

  /** The first loop of the positional join: one slot per data file, in data-file order. */
  method FillSlots(dataFiles: seq<DataFile>, dvMap: map<string, DvEntry>) returns (orderedDvs: seq<Option<DvEntry>>)
    ensures orderedDvs == Slots(dataFiles, dvMap)
  {
    orderedDvs := [];
    for i := 0 to |dataFiles|
      invariant |orderedDvs| == i
      invariant forall k :: 0 <= k < i ==> orderedDvs[k] == Slots(dataFiles, dvMap)[k]
    {
      if dataFiles[i].filePath in dvMap {
        orderedDvs := orderedDvs + [Some(dvMap[dataFiles[i].filePath])];
      } else {
        orderedDvs := orderedDvs + [None];
      }
    }
  }

  /** The second loop: walks data files and slots together, keeping the filled pairs. */
  method ZipFilled(dataFiles: seq<DataFile>, dvMap: map<string, DvEntry>, orderedDvs: seq<Option<DvEntry>>)
    returns (matched: seq<(DataFile, DvEntry)>)
    requires orderedDvs == Slots(dataFiles, dvMap)
    ensures matched == Matches(dataFiles, dvMap)
  {
    matched := [];
    for i := 0 to |dataFiles|
      invariant matched + Matches(dataFiles[i..], dvMap) == Matches(dataFiles, dvMap)
    {
      assert dataFiles[i..][1..] == dataFiles[i + 1..];
      if orderedDvs[i].Some? {
        assert matched + Matches(dataFiles[i..], dvMap)
            == (matched + [(dataFiles[i], orderedDvs[i].value)]) + Matches(dataFiles[i + 1..], dvMap);
        matched := matched + [(dataFiles[i], orderedDvs[i].value)];
      }
    }
    assert dataFiles[|dataFiles|..] == [];
  }

  function CountNone<T>(s: seq<Option<T>>): nat
  {
    if s == [] then 0 else (if s[0].None? then 1 else 0) + CountNone(s[1..])
  }

  function FilePaths(dataFiles: seq<DataFile>): set<string>
  {
    set i | 0 <= i < |dataFiles| :: dataFiles[i].filePath
  }

  predicate DistinctFilePaths(dataFiles: seq<DataFile>)
  {
    forall i, j :: 0 <= i < j < |dataFiles| ==> dataFiles[i].filePath != dataFiles[j].filePath
  }

  /** The map without the key `p`. */
  function Without(dvMap: map<string, DvEntry>, p: string): (r: map<string, DvEntry>)
    ensures r.Keys == dvMap.Keys - {p}
    ensures |r| == if p in dvMap then |dvMap| - 1 else |dvMap|
  {
    var r := map k | k in dvMap && k != p :: dvMap[k];
    assert r.Keys == dvMap.Keys - {p};
    assert p in dvMap ==> dvMap.Keys == r.Keys + {p};
    assert p !in dvMap ==> dvMap.Keys == r.Keys;
    r
  }

  lemma SlotsOfTail(dataFiles: seq<DataFile>, dvMap: map<string, DvEntry>, rest: map<string, DvEntry>)
    requires dataFiles != []
    requires forall i :: 1 <= i < |dataFiles| ==>
      (dataFiles[i].filePath in dvMap <==> dataFiles[i].filePath in rest)
    requires forall k :: k in rest ==> k in dvMap && rest[k] == dvMap[k]
    ensures CountNone(Slots(dataFiles, dvMap)) == (if dataFiles[0].filePath in dvMap then 0 else 1)
                                                  + CountNone(Slots(dataFiles[1..], rest))
  {
    assert Slots(dataFiles, dvMap)[1..] == Slots(dataFiles[1..], rest);
  }

  lemma {:induction false} CountNoneSlots(dataFiles: seq<DataFile>, dvMap: map<string, DvEntry>)
    requires DistinctFilePaths(dataFiles) && dvMap.Keys <= FilePaths(dataFiles)
    ensures CountNone(Slots(dataFiles, dvMap)) == |dataFiles| - |dvMap|
  {
    if dataFiles == [] {
      assert dvMap.Keys == {};
    } else {
      var p := dataFiles[0].filePath;
      var tail := dataFiles[1..];
      var rest := Without(dvMap, p);
      assert rest.Keys <= FilePaths(tail) by {
        forall k | k in rest.Keys ensures k in FilePaths(tail) {
          var i :| 0 <= i < |dataFiles| && dataFiles[i].filePath == k;
          assert tail[i - 1] == dataFiles[i];
        }
      }
      CountNoneSlots(tail, rest);
      SlotsOfTail(dataFiles, dvMap, rest);
    }
  }

  /** `null_entries` counts the empty slots only when DV paths are distinct and each names
      one of the data files, whose paths are distinct. */
  lemma NullEntriesAreEmptySlots(dataFiles: seq<DataFile>, dvs: seq<DvEntry>)
    requires DistinctFilePaths(dataFiles) && DistinctDvPaths(dvs) && DvPaths(dvs) <= FilePaths(dataFiles)
    ensures CountNone(Slots(dataFiles, DvMap(dvs))) == |dataFiles| - |dvs|
  {
    DvMapKeys(dvs);
    DvMapSize(dvs);
    CountNoneSlots(dataFiles, DvMap(dvs));
  }

  /** Two DVs for one data file: the hash join and the positional join keep only the later one,
      yet `null_entries` reports one slot fewer than are empty. */
  lemma NullEntriesMiscount()
    ensures var dataFiles := [DataFile("a", 0, 0, true), DataFile("b", 0, 0, false)];
      var dvs := [DvEntry("a", 1, 1), DvEntry("a", 2, 2)];
      && Slots(dataFiles, DvMap(dvs)) == [Some(DvEntry("a", 2, 2)), None]
      && CountNone(Slots(dataFiles, DvMap(dvs))) == 1 != |dataFiles| - |dvs|
  {
    var dataFiles := [DataFile("a", 0, 0, true), DataFile("b", 0, 0, false)];
    var dvs := [DvEntry("a", 1, 1), DvEntry("a", 2, 2)];
    assert dvs[..1] == [DvEntry("a", 1, 1)];
    assert dvs[..1][..0] == [];
    assert DvMap(dvs) == map["a" := DvEntry("a", 2, 2)];
    var slots := Slots(dataFiles, DvMap(dvs));
    assert slots == [Some(DvEntry("a", 2, 2)), None];
    assert slots[1..] == [None] && slots[1..][1..] == [];
    assert CountNone(slots[1..]) == 1;
  }

  // ---------------------------------------------------------------------------
  // Coalesced join across several order-preserving DV manifests

  predicate SlotsFor(manifests: seq<seq<Option<DvEntry>>>, numFiles: nat)
  {
    forall k :: 0 <= k < |manifests| ==> |manifests[k]| == numFiles
  }

  /** The DV in slot `i` of the first manifest, in manifest order, that has one there. */
  function FirstNonNull(manifests: seq<seq<Option<DvEntry>>>, i: nat): Option<DvEntry>
    requires forall k :: 0 <= k < |manifests| ==> i < |manifests[k]|
  {
    if manifests == [] then None
    else if manifests[0][i].Some? then manifests[0][i]
    else FirstNonNull(manifests[1..], i)
  }

  /** No manifest has a DV in slot `i` exactly when the result is empty; otherwise the result
      is the slot of some manifest all of whose predecessors have that slot empty. */
  lemma {:induction false} FirstNonNullIsFirst(manifests: seq<seq<Option<DvEntry>>>, i: nat)
    requires forall k :: 0 <= k < |manifests| ==> i < |manifests[k]|
    ensures FirstNonNull(manifests, i).None? <==> forall k :: 0 <= k < |manifests| ==> manifests[k][i].None?
    ensures FirstNonNull(manifests, i).Some? ==>
      exists k :: 0 <= k < |manifests| && manifests[k][i] == FirstNonNull(manifests, i)
                  && forall j :: 0 <= j < k ==> manifests[j][i].None?
  {
    if manifests != [] {
      if manifests[0][i].Some? {
        assert manifests[0][i] == FirstNonNull(manifests, i);
      } else {
        var tail := manifests[1..];
        FirstNonNullIsFirst(tail, i);
        assert forall k :: 1 <= k < |manifests| ==> manifests[k] == tail[k - 1];
        if FirstNonNull(tail, i).Some? {
          var k :| 0 <= k < |tail| && tail[k][i] == FirstNonNull(tail, i)
                   && forall j :: 0 <= j < k ==> tail[j][i].None?;
          assert manifests[k + 1][i] == FirstNonNull(manifests, i);
        }
      }
    }
  }

  function CountSome<T>(s: seq<Option<T>>): nat
  {
    if s == [] then 0 else (if s[0].Some? then 1 else 0) + CountSome(s[1..])
  }

  /** Every slot is counted as either filled or empty; none is empty exactly when all are filled. */
  lemma {:induction false} CountSomeNone<T>(s: seq<Option<T>>)
    ensures CountSome(s) + CountNone(s) == |s|
    ensures CountNone(s) == 0 <==> forall i :: 0 <= i < |s| ==> s[i].Some?
  {
    if s != [] {
      CountSomeNone(s[1..]);
      assert forall i :: 1 <= i < |s| ==> s[i] == s[1..][i - 1];
    }
  }

  datatype CoalesceResult = CoalesceResult(coalescedDvs: seq<Option<DvEntry>>, resolvedDvs: nat)

  /** The coalescing loop of `benchmark_coalesced_join`: for each file, scan the manifests in
      order and stop at the first that has a DV for it. */
  method Coalesce(manifests: seq<seq<Option<DvEntry>>>, numFiles: nat) returns (r: CoalesceResult)
    requires SlotsFor(manifests, numFiles)
    ensures |r.coalescedDvs| == numFiles
    ensures forall i :: 0 <= i < numFiles ==> r.coalescedDvs[i] == FirstNonNull(manifests, i)
    ensures r.resolvedDvs == CountSome(r.coalescedDvs) == numFiles - CountNone(r.coalescedDvs)
    ensures r.resolvedDvs == numFiles <==> forall i :: 0 <= i < numFiles ==> r.coalescedDvs[i].Some?
  {
    var coalesced: seq<Option<DvEntry>> := [];
    for i := 0 to numFiles
      invariant |coalesced| == i
      invariant forall k :: 0 <= k < i ==> coalesced[k] == FirstNonNull(manifests, k)
    {
      var dv: Option<DvEntry> := None;
      var m := 0;
      while m < |manifests|
        invariant 0 <= m <= |manifests|
        invariant dv.None? && FirstNonNull(manifests[m..], i) == FirstNonNull(manifests, i)
      {
        assert manifests[m..][1..] == manifests[m + 1..];
        if manifests[m][i].Some? {
          dv := manifests[m][i];
          break;
        }
        m := m + 1;
      }
      coalesced := coalesced + [dv];
    }
    CountSomeNone(coalesced);
    r := CoalesceResult(coalesced, CountSome(coalesced));
  }

  // ---------------------------------------------------------------------------
  // Order-preserving write: sort the DVs by data-file position, then merge with empty slots

  /** `{df.file_path: i for i, df in enumerate(data_files)}`: a later index replaces an earlier one. */
  function PositionMap(dataFiles: seq<DataFile>): (pm: map<string, nat>)
    ensures forall p :: p in pm ==> pm[p] < |dataFiles|
  {
    if dataFiles == [] then map[]
    else PositionMap(dataFiles[..|dataFiles| - 1])[dataFiles[|dataFiles| - 1].filePath := |dataFiles| - 1]
  }

  /** `position_map.get(dv.file_path, float('inf'))`. Every position is below `|dataFiles|`, so
      giving unknown paths that key orders them exactly as infinity does. */
  function PositionKey(pm: map<string, nat>, unknown: nat): DvEntry -> int
  {
    (dv: DvEntry) => if dv.filePath in pm then pm[dv.filePath] else unknown
  }

  function SortedByPosition(dataFiles: seq<DataFile>, dvs: seq<DvEntry>): seq<DvEntry>
  {
    SortBy(dvs, PositionKey(PositionMap(dataFiles), |dataFiles|))
  }

  /** The cursor merge: a data file takes the next DV when its path matches, else an empty slot. */
  function MergeSlots(dataFiles: seq<DataFile>, dvs: seq<DvEntry>): seq<Option<DvEntry>>
  {
    if dataFiles == [] then []
    else if dvs != [] && dvs[0].filePath == dataFiles[0].filePath then
      [Some(dvs[0])] + MergeSlots(dataFiles[1..], dvs[1..])
    else [None] + MergeSlots(dataFiles[1..], dvs)
  }

  /** The DVs in the filled slots, in slot order. */
  function Placed(s: seq<Option<DvEntry>>): seq<DvEntry>
  {
    if s == [] then [] else (if s[0].Some? then [s[0].value] else []) + Placed(s[1..])
  }

  datatype WriteOverheadResult = WriteOverheadResult(
    unorderedManifest: seq<DvEntry>, orderedManifest: seq<Option<DvEntry>>, nullEntries: int)

  /** `benchmark_write_overhead` without its timings: the unordered manifest is the DV list
      as it arrived; the ordered one sorts the DVs by data-file position and merges them
      against the data files, leaving empty slots. */
  method WriteOverhead(dataFiles: seq<DataFile>, dvs: seq<DvEntry>) returns (r: WriteOverheadResult)
    ensures r.unorderedManifest == dvs
    ensures r.orderedManifest == MergeSlots(dataFiles, SortedByPosition(dataFiles, dvs))
    ensures |r.orderedManifest| == |dataFiles|
    ensures r.nullEntries == |dataFiles| - |dvs|
  {
    var unorderedManifest := dvs;
    var positionMap := PositionMap(dataFiles);
    var orderedDvs := SortBy(dvs, PositionKey(positionMap, |dataFiles|));
    var orderedManifest: seq<Option<DvEntry>> := [];
    var dvIdx := 0;
    for i := 0 to |dataFiles|
      invariant 0 <= dvIdx <= |orderedDvs|
      invariant |orderedManifest| == i
      invariant orderedManifest + MergeSlots(dataFiles[i..], orderedDvs[dvIdx..])
             == MergeSlots(dataFiles, orderedDvs)
    {
      assert dataFiles[i..][1..] == dataFiles[i + 1..];
      if dvIdx < |orderedDvs| && orderedDvs[dvIdx].filePath == dataFiles[i].filePath {
        assert orderedDvs[dvIdx..][1..] == orderedDvs[dvIdx + 1..];
        assert orderedManifest + MergeSlots(dataFiles[i..], orderedDvs[dvIdx..])
            == (orderedManifest + [Some(orderedDvs[dvIdx])]) + MergeSlots(dataFiles[i + 1..], orderedDvs[dvIdx + 1..]);
        orderedManifest := orderedManifest + [Some(orderedDvs[dvIdx])];
        dvIdx := dvIdx + 1;
      } else {
        assert orderedManifest + MergeSlots(dataFiles[i..], orderedDvs[dvIdx..])
            == (orderedManifest + [None]) + MergeSlots(dataFiles[i + 1..], orderedDvs[dvIdx..]);
        orderedManifest := orderedManifest + [None];
      }
    }
    assert dataFiles[|dataFiles|..] == [];
    r := WriteOverheadResult(unorderedManifest, orderedManifest, |orderedManifest| - |dvs|);
  }

  /** One slot per data file; a filled slot holds a DV for that file's path; the placed DVs are
      a prefix of the DV list, taken in order. */
  lemma MergeSlotsShape(dataFiles: seq<DataFile>, dvs: seq<DvEntry>)
    ensures |MergeSlots(dataFiles, dvs)| == |dataFiles|
    ensures forall i :: 0 <= i < |dataFiles| && MergeSlots(dataFiles, dvs)[i].Some? ==>
      MergeSlots(dataFiles, dvs)[i].value.filePath == dataFiles[i].filePath
    ensures |Placed(MergeSlots(dataFiles, dvs))| <= |dvs|
    ensures Placed(MergeSlots(dataFiles, dvs)) == dvs[..|Placed(MergeSlots(dataFiles, dvs))|]
  {
    MergeSlotsAligned(dataFiles, dvs);
    MergeSlotsPlacedPrefix(dataFiles, dvs);
  }

  /** Slot `i` is for data file `i`, and a filled slot holds a DV for that file. */
  lemma {:induction false} MergeSlotsAligned(dataFiles: seq<DataFile>, dvs: seq<DvEntry>)
    ensures |MergeSlots(dataFiles, dvs)| == |dataFiles|
    ensures forall i :: 0 <= i < |dataFiles| && MergeSlots(dataFiles, dvs)[i].Some? ==>
      MergeSlots(dataFiles, dvs)[i].value.filePath == dataFiles[i].filePath
  {
    if dataFiles != [] {
      var tail := dataFiles[1..];
      var matched := dvs != [] && dvs[0].filePath == dataFiles[0].filePath;
      var rest := if matched then dvs[1..] else dvs;
      var t := MergeSlots(tail, rest);
      MergeSlotsAligned(tail, rest);
      var s := MergeSlots(dataFiles, dvs);
      assert s == (if matched then [Some(dvs[0])] else [None]) + t;
      forall i | 1 <= i < |dataFiles| && s[i].Some? ensures s[i].value.filePath == dataFiles[i].filePath {
        assert s[i] == t[i - 1] && dataFiles[i] == tail[i - 1];
      }
    }
  }

  /** The placed DVs are a prefix of the DV list. */
  lemma {:induction false} MergeSlotsPlacedPrefix(dataFiles: seq<DataFile>, dvs: seq<DvEntry>)
    ensures |Placed(MergeSlots(dataFiles, dvs))| <= |dvs|
    ensures Placed(MergeSlots(dataFiles, dvs)) == dvs[..|Placed(MergeSlots(dataFiles, dvs))|]
  {
    if dataFiles != [] {
      var tail := dataFiles[1..];
      var s := MergeSlots(dataFiles, dvs);
      if dvs != [] && dvs[0].filePath == dataFiles[0].filePath {
        var t := MergeSlots(tail, dvs[1..]);
        MergeSlotsPlacedPrefix(tail, dvs[1..]);
        assert s == [Some(dvs[0])] + t && s[1..] == t;
        assert Placed(s) == [dvs[0]] + Placed(t);
        assert [dvs[0]] + dvs[1..][..|Placed(t)|] == dvs[..|Placed(t)| + 1];
      } else {
        var t := MergeSlots(tail, dvs);
        MergeSlotsPlacedPrefix(tail, dvs);
        assert s == [None] + t && s[1..] == t;
        assert Placed(s) == Placed(t);
      }
    }
  }

  lemma {:induction false} PlacedCount(s: seq<Option<DvEntry>>)
    ensures |Placed(s)| + CountNone(s) == |s|
  {
    if s != [] {
      PlacedCount(s[1..]);
    }
  }

  /** The first index holding a data file with path `p`. */
  function IndexIn(dataFiles: seq<DataFile>, p: string): (r: nat)
    requires p in FilePaths(dataFiles)
    ensures r < |dataFiles| && dataFiles[r].filePath == p
  {
    if dataFiles[0].filePath == p then 0
    else
      assert p in FilePaths(dataFiles[1..]) by {
        var i :| 0 <= i < |dataFiles| && dataFiles[i].filePath == p;
        assert dataFiles[1..][i - 1] == dataFiles[i];
      }
      1 + IndexIn(dataFiles[1..], p)
  }

  /** DVs for known paths whose data-file positions strictly increase. */
  predicate StrictlyPositioned(dataFiles: seq<DataFile>, dvs: seq<DvEntry>)
  {
    && (forall k :: 0 <= k < |dvs| ==> dvs[k].filePath in FilePaths(dataFiles))
    && (forall a, b :: 0 <= a < b < |dvs| ==> IndexIn(dataFiles, dvs[a].filePath) < IndexIn(dataFiles, dvs[b].filePath))
  }

  lemma IndexInTail(dataFiles: seq<DataFile>, p: string)
    requires p in FilePaths(dataFiles) && IndexIn(dataFiles, p) > 0
    ensures p in FilePaths(dataFiles[1..]) && IndexIn(dataFiles[1..], p) == IndexIn(dataFiles, p) - 1
  {
  }

  /** The merge places every DV of a strictly positioned list, each exactly once. */
  lemma {:induction false} MergePlacesAll(dataFiles: seq<DataFile>, dvs: seq<DvEntry>)
    requires StrictlyPositioned(dataFiles, dvs)
    ensures Placed(MergeSlots(dataFiles, dvs)) == dvs
  {
    if dataFiles != [] {
      var tail := dataFiles[1..];
      var matched := dvs != [] && dvs[0].filePath == dataFiles[0].filePath;
      var rest := if matched then dvs[1..] else dvs;
      forall k | 0 <= k < |rest|
        ensures IndexIn(dataFiles, rest[k].filePath) > 0
      {
        if matched {
          assert rest[k] == dvs[k + 1];
          assert IndexIn(dataFiles, dvs[0].filePath) == 0;
        } else if k > 0 {
          assert IndexIn(dataFiles, dvs[0].filePath) < IndexIn(dataFiles, dvs[k].filePath);
        }
      }
      forall k | 0 <= k < |rest|
        ensures rest[k].filePath in FilePaths(tail)
        ensures IndexIn(tail, rest[k].filePath) == IndexIn(dataFiles, rest[k].filePath) - 1
      {
        IndexInTail(dataFiles, rest[k].filePath);
      }
      assert StrictlyPositioned(tail, rest) by {
        forall a, b | 0 <= a < b < |rest|
          ensures IndexIn(tail, rest[a].filePath) < IndexIn(tail, rest[b].filePath)
        {
          if matched {
            assert rest[a] == dvs[a + 1] && rest[b] == dvs[b + 1];
          }
        }
      }
      MergePlacesAll(tail, rest);
      if matched {
        assert dvs == [dvs[0]] + rest;
      }
    }
  }

  predicate DvsNamingFiles(dataFiles: seq<DataFile>, dvs: seq<DvEntry>)
  {
    && DistinctFilePaths(dataFiles)
    && DistinctDvPaths(dvs)
    && DvPaths(dvs) <= FilePaths(dataFiles)
  }

  lemma {:induction false} PositionMapIsIndex(dataFiles: seq<DataFile>)
    requires DistinctFilePaths(dataFiles)
    ensures PositionMap(dataFiles).Keys == FilePaths(dataFiles)
    ensures forall p :: p in FilePaths(dataFiles) ==> PositionMap(dataFiles)[p] == IndexIn(dataFiles, p)
  {
    if dataFiles != [] {
      var n := |dataFiles|;
      var init := dataFiles[..n - 1];
      PositionMapIsIndex(init);
      FilePathsSnoc(dataFiles);
      forall p | p in FilePaths(dataFiles)
        ensures PositionMap(dataFiles)[p] == IndexIn(dataFiles, p)
      {
        if p != dataFiles[n - 1].filePath {
          IndexInPrefix(dataFiles, n - 1, p);
        }
      }
    }
  }

  /** The paths of a non-empty list are those of all but its last file, and the last one's. */
  lemma FilePathsSnoc(dataFiles: seq<DataFile>)
    requires dataFiles != []
    ensures FilePaths(dataFiles) == FilePaths(dataFiles[..|dataFiles| - 1]) + {dataFiles[|dataFiles| - 1].filePath}
  {
    var n := |dataFiles|;
    var init := dataFiles[..n - 1];
    forall p | p in FilePaths(dataFiles) ensures p in FilePaths(init) + {dataFiles[n - 1].filePath} {
      var i :| 0 <= i < n && dataFiles[i].filePath == p;
      if i < n - 1 { assert init[i] == dataFiles[i]; }
    }
    forall p | p in FilePaths(init) ensures p in FilePaths(dataFiles) {
      var i :| 0 <= i < |init| && init[i].filePath == p;
      assert dataFiles[i] == init[i];
    }
  }

  lemma {:induction false} IndexInPrefix(dataFiles: seq<DataFile>, m: nat, p: string)
    requires m <= |dataFiles| && p in FilePaths(dataFiles) && IndexIn(dataFiles, p) < m
    ensures p in FilePaths(dataFiles[..m]) && IndexIn(dataFiles[..m], p) == IndexIn(dataFiles, p)
  {
    assert dataFiles[..m][IndexIn(dataFiles, p)] == dataFiles[IndexIn(dataFiles, p)];
    if dataFiles[0].filePath != p {
      IndexInPrefix(dataFiles[1..], m - 1, p);
      assert dataFiles[1..][..m - 1] == dataFiles[..m][1..];
    }
  }

  lemma {:induction false} OccursAtMostOnce(dvs: seq<DvEntry>, x: DvEntry)
    requires DistinctDvPaths(dvs)
    ensures multiset(dvs)[x] <= 1
  {
    if dvs != [] {
      OccursAtMostOnce(dvs[1..], x);
      assert dvs == [dvs[0]] + dvs[1..];
      if x == dvs[0] {
        assert x !in dvs[1..] by {
          forall i | 0 <= i < |dvs[1..]| ensures dvs[1..][i] != x {
            assert dvs[1..][i] == dvs[i + 1];
          }
        }
      }
    }
  }

  lemma TwiceCounted(s: seq<DvEntry>, i: nat, j: nat)
    requires i < j < |s| && s[i] == s[j]
    ensures multiset(s)[s[i]] >= 2
  {
    assert s == s[..j] + s[j..];
    assert s[i] in s[..j];
    assert s[j] in s[j..];
  }

  /** Reordering a DV list keeps its paths distinct. */
  lemma PermutationKeepsDistinct(a: seq<DvEntry>, b: seq<DvEntry>)
    requires multiset(a) == multiset(b) && DistinctDvPaths(a)
    ensures DistinctDvPaths(b)
  {
    forall i, j | 0 <= i < j < |b| ensures b[i].filePath != b[j].filePath {
      if b[i] == b[j] {
        TwiceCounted(b, i, j);
        OccursAtMostOnce(a, b[i]);
      } else {
        assert b[i] in multiset(a) && b[j] in multiset(a);
        var x :| 0 <= x < |a| && a[x] == b[i];
        var y :| 0 <= y < |a| && a[y] == b[j];
        assert x != y;
      }
    }
  }

  /** With distinct data-file paths and distinct DV paths that all name data files, the ordered
      manifest places every DV exactly once, in data-file order, and leaves
      `|dataFiles| - |dvs|` slots empty. */
  lemma EveryDvPlacedOnce(dataFiles: seq<DataFile>, dvs: seq<DvEntry>)
    requires DvsNamingFiles(dataFiles, dvs)
    ensures Placed(MergeSlots(dataFiles, SortedByPosition(dataFiles, dvs))) == SortedByPosition(dataFiles, dvs)
    ensures multiset(Placed(MergeSlots(dataFiles, SortedByPosition(dataFiles, dvs)))) == multiset(dvs)
    ensures CountNone(MergeSlots(dataFiles, SortedByPosition(dataFiles, dvs))) == |dataFiles| - |dvs|
  {
    var sorted := SortedByPosition(dataFiles, dvs);
    SortedIsStrictlyPositioned(dataFiles, dvs);
    MergePlacesAll(dataFiles, sorted);
    MergeSlotsShape(dataFiles, sorted);
    PlacedCount(MergeSlots(dataFiles, sorted));
  }

  /** Sorting DVs that name distinct data files by position makes the positions strictly increase. */
  lemma SortedIsStrictlyPositioned(dataFiles: seq<DataFile>, dvs: seq<DvEntry>)
    requires DvsNamingFiles(dataFiles, dvs)
    ensures StrictlyPositioned(dataFiles, SortedByPosition(dataFiles, dvs))
    ensures multiset(SortedByPosition(dataFiles, dvs)) == multiset(dvs)
    ensures |SortedByPosition(dataFiles, dvs)| == |dvs|
  {
    var pm := PositionMap(dataFiles);
    var key := PositionKey(pm, |dataFiles|);
    var sorted := SortedByPosition(dataFiles, dvs);
    SortBySortedPermutation(dvs, key);
    PermutationKeepsDistinct(dvs, sorted);
    PositionMapIsIndex(dataFiles);
    SortedNamesFiles(dataFiles, dvs, sorted);
    forall a, b | 0 <= a < b < |sorted|
      ensures IndexIn(dataFiles, sorted[a].filePath) < IndexIn(dataFiles, sorted[b].filePath)
    {
      assert key(sorted[a]) <= key(sorted[b]);
      OrderedByIndex(dataFiles, sorted[a], sorted[b]);
    }
  }

  /** Two DVs for different data files, ordered by position key, are in strict data-file order. */
  lemma OrderedByIndex(dataFiles: seq<DataFile>, x: DvEntry, y: DvEntry)
    requires DistinctFilePaths(dataFiles)
    requires x.filePath in FilePaths(dataFiles) && y.filePath in FilePaths(dataFiles) && x.filePath != y.filePath
    requires PositionKey(PositionMap(dataFiles), |dataFiles|)(x) <= PositionKey(PositionMap(dataFiles), |dataFiles|)(y)
    ensures IndexIn(dataFiles, x.filePath) < IndexIn(dataFiles, y.filePath)
  {
    var pm := PositionMap(dataFiles);
    var ix, iy := IndexIn(dataFiles, x.filePath), IndexIn(dataFiles, y.filePath);
    PositionMapIsIndex(dataFiles);
    assert x.filePath in pm && pm[x.filePath] == ix;
    assert y.filePath in pm && pm[y.filePath] == iy;
    assert ix != iy by {
      assert dataFiles[ix].filePath == x.filePath && dataFiles[iy].filePath == y.filePath;
    }
  }

  /** A permutation of DVs that name data files still names data files. */
  lemma SortedNamesFiles(dataFiles: seq<DataFile>, dvs: seq<DvEntry>, sorted: seq<DvEntry>)
    requires DvPaths(dvs) <= FilePaths(dataFiles) && multiset(sorted) == multiset(dvs)
    ensures forall k :: 0 <= k < |sorted| ==> sorted[k].filePath in FilePaths(dataFiles)
  {
    forall k | 0 <= k < |sorted| ensures sorted[k].filePath in FilePaths(dataFiles) {
      assert sorted[k] in multiset(dvs);
      var i :| 0 <= i < |dvs| && dvs[i] == sorted[k];
      assert dvs[i].filePath in DvPaths(dvs);
    }
  }
}
