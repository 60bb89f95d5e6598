/** The column-file DV update benchmark (test_column_file_dv_updates.py): a manifest whose entries
    carry inline deletion vectors, a full rewrite that replaces the DVs of chosen entries in place,
    a column-file update that only accounts for the bytes it would write, and a scenario that
    runs both on shallow copies of one manifest. */
module ColumnFileUpdates {
  import opened Results
  import opened Bytes
  import opened Text

  datatype DeleteVector = DeleteVector(storageType: string, serializedBitmap: seq<byte>, cardinality: int)

  /** One manifest entry; the empty metric maps, bounds and offsets of the data file are left out. */
  datatype ManifestEntry = ManifestEntry(
    status: int, snapshotId: int, sequenceNumber: int, fileSequenceNumber: int,
    content: string, filePath: string, fileFormat: string,
    recordCount: int, fileSizeInBytes: int, sortOrderId: int,
    deleteVector: DeleteVector)

  /** The DV every new entry carries: 24 zero bytes for 10 deleted rows. */
  const InitialDv: DeleteVector := DeleteVector("inline", Zeros(24), 10)

  /** The DV the full rewrite installs: 32 zero bytes for 15 deleted rows. */
  const UpdatedDv: DeleteVector := DeleteVector("inline", Zeros(32), 15)

  function InitialEntry(i: nat): ManifestEntry
  {
    ManifestEntry(1, 1, 1, 1, "data", "s3://bucket/data/file-" + ZeroPad(i, 5) + ".parquet", "PARQUET",
                  10000, 1024 * 1024, 0, InitialDv)
  }

  /** The entries of a new manifest of `numFiles` files (none when `numFiles` is not positive). */
  function InitialEntries(numFiles: int): (r: seq<ManifestEntry>)
    ensures |r| == if numFiles > 0 then numFiles else 0
    ensures forall i :: 0 <= i < |r| ==> r[i] == InitialEntry(i)
  {
    if numFiles > 0 then seq(numFiles, i requires 0 <= i < numFiles => InitialEntry(i)) else []
  }

  /** The `entries` list of a manifest dictionary: one object shared by every shallow copy. */
  class EntryList {
    var entries: seq<ManifestEntry>

    constructor()
      ensures entries == []
    {
      entries := [];
    }

    /** `entries.append(entry)`. */
    method Append(entry: ManifestEntry)
      modifies this
      ensures entries == old(entries) + [entry]
    {
      entries := entries + [entry];
    }

    /** `entries[i]['delete_vector'] = dv` for an index already resolved into range. */
    method SetDeleteVector(i: nat, dv: DeleteVector)
      requires i < |entries|
      modifies this
      ensures entries == old(entries)[i := old(entries)[i].(deleteVector := dv)]
    {
      entries := entries[i := entries[i].(deleteVector := dv)];
    }
  }

  /** The manifest dictionary. Copying the datatype value copies the scalar fields and shares the
      entry list, as `dict.copy()` does. */
  datatype Manifest = Manifest(
    manifestPath: string, manifestLength: int, partitionSpecId: int, content: string,
    sequenceNumber: int, minSequenceNumber: int, addedSnapshotId: int,
    addedFilesCount: int, existingFilesCount: int, deletedFilesCount: int,
    addedRowsCount: int, existingRowsCount: int, deletedRowsCount: int,
    entries: EntryList)

  /** `create_manifest_with_dvs`. */
  method CreateManifestWithDvs(numFiles: int) returns (m: Manifest)
    ensures fresh(m.entries)
    ensures m.entries.entries == InitialEntries(numFiles)
    ensures m.manifestPath == "manifest-001.avro" && m.content == "data"
    ensures m.manifestLength == 500 * numFiles
    ensures m.addedFilesCount == numFiles && m.addedRowsCount == 10000 * numFiles
    ensures m.partitionSpecId == 0 && m.sequenceNumber == 1 && m.minSequenceNumber == 1 && m.addedSnapshotId == 1
    ensures m.existingFilesCount == 0 && m.deletedFilesCount == 0
    ensures m.existingRowsCount == 0 && m.deletedRowsCount == 0
  {
    var list := new EntryList();
    m := Manifest("manifest-001.avro", numFiles * 500, 0, "data", 1, 1, 1,
                  numFiles, 0, 0, numFiles * 10000, 0, 0, list);
    var i := 0;
    while i < numFiles
      invariant 0 <= i && (i <= numFiles || i == 0)
      invariant list.entries == InitialEntries(i)
    {
      assert InitialEntries(i + 1) == InitialEntries(i) + [InitialEntry(i)];
      list.Append(InitialEntry(i));
      i := i + 1;
    }
  }

  // ---------------------------------------------------------------------------
  // Full rewrite

  /** Python list indexing: `-n <= idx < 0` counts from the end, anything else out of range fails. */
  function ResolveIndex(idx: int, n: nat): (r: Option<nat>)
    ensures r.Some? <==> -(n as int) <= idx < n
    ensures r.Some? ==> r.value < n && (r.value == idx || r.value == idx + n)
  {
    if 0 <= idx < n then Some(idx)
    else if -(n as int) <= idx < 0 then Some(idx + n)
    else None
  }

  datatype RewriteOutcome = RewriteOutcome(entries: seq<ManifestEntry>, failed: bool)

  /** The DV-replacement loop: indices are processed in order, and an index out of range stops the
      loop with an `IndexError`, leaving the replacements already made in place. */
  function Rewrite(entries: seq<ManifestEntry>, indices: seq<int>): (r: RewriteOutcome)
    ensures |r.entries| == |entries|
    decreases |indices|
  {
    if indices == [] then RewriteOutcome(entries, false)
    else match ResolveIndex(indices[0], |entries|)
      case None => RewriteOutcome(entries, true)
      case Some(k) => Rewrite(entries[k := entries[k].(deleteVector := UpdatedDv)], indices[1..])
  }

  datatype IndexError = IndexError

  datatype WriteCost = WriteCost(bytesWritten: int, ioOps: int)

  /** `benchmark_full_rewrite` without its timings and simulated transfers. */
  method FullRewrite(m: Manifest, filesToUpdate: seq<int>) returns (r: Result<WriteCost, IndexError>)
    modifies m.entries
    ensures m.entries.entries == Rewrite(old(m.entries.entries), filesToUpdate).entries
    ensures r.Err? <==> Rewrite(old(m.entries.entries), filesToUpdate).failed
    ensures r.Ok? ==> r.value == WriteCost(520 * |old(m.entries.entries)|, 2)
  {
    var numFiles := |m.entries.entries|;
    var ioOps := 1;
    for i := 0 to |filesToUpdate|
      invariant |m.entries.entries| == numFiles
      invariant Rewrite(m.entries.entries, filesToUpdate[i..]) == Rewrite(old(m.entries.entries), filesToUpdate)
    {
      assert filesToUpdate[i..][1..] == filesToUpdate[i + 1..];
      var k := ResolveIndex(filesToUpdate[i], numFiles);
      if k.None? {
        return Err(IndexError);
      }
      m.entries.SetDeleteVector(k.value, UpdatedDv);
    }
    assert filesToUpdate[|filesToUpdate|..] == [];
    ioOps := ioOps + 1;
    r := Ok(WriteCost(numFiles * 520, ioOps));
  }

  /** The set of entry positions a list of indices names. */
  function Targets(indices: seq<int>, n: nat): (t: set<nat>)
    ensures forall i :: 0 <= i < |indices| && ResolveIndex(indices[i], n).Some? ==>
      ResolveIndex(indices[i], n).value in t
    ensures forall k :: k in t ==> exists i :: 0 <= i < |indices| && ResolveIndex(indices[i], n) == Some(k)
  {
    if indices == [] then {}
    else
      var tail := Targets(indices[1..], n);
      assert forall i :: 1 <= i < |indices| ==> indices[i] == indices[1..][i - 1];
      (if ResolveIndex(indices[0], n).Some? then {ResolveIndex(indices[0], n).value} else {}) + tail
  }

  /** The rewrite fails exactly when some index is out of range. */
  lemma {:induction false} RewriteFails(entries: seq<ManifestEntry>, indices: seq<int>)
    ensures Rewrite(entries, indices).failed <==>
      exists i :: 0 <= i < |indices| && ResolveIndex(indices[i], |entries|).None?
    decreases |indices|
  {
    if indices != [] {
      var n := |entries|;
      var tail := indices[1..];
      match ResolveIndex(indices[0], n)
      case None =>
      case Some(k) =>
        var next := entries[k := entries[k].(deleteVector := UpdatedDv)];
        RewriteFails(next, tail);
        if Rewrite(next, tail).failed {
          var i :| 0 <= i < |tail| && ResolveIndex(tail[i], n).None?;
          assert indices[i + 1] == tail[i];
        } else {
          forall i | 0 <= i < |indices| ensures ResolveIndex(indices[i], n).Some? {
            if i > 0 { assert indices[i] == tail[i - 1]; }
          }
        }
    }
  }

  /** A rewrite that succeeds gives the entries at the named positions the new DV, changes
      nothing else about them, and leaves every other entry untouched. */
  lemma {:induction false} RewriteEffect(entries: seq<ManifestEntry>, indices: seq<int>)
    requires !Rewrite(entries, indices).failed
    ensures forall j :: 0 <= j < |entries| ==>
      Rewrite(entries, indices).entries[j] ==
        if j in Targets(indices, |entries|) then entries[j].(deleteVector := UpdatedDv) else entries[j]
    decreases |indices|
  {
    if indices != [] {
      var n := |entries|;
      match ResolveIndex(indices[0], n)
      case None =>
      case Some(k) =>
        var next := entries[k := entries[k].(deleteVector := UpdatedDv)];
        RewriteEffect(next, indices[1..]);
        assert Targets(indices, n) == {k} + Targets(indices[1..], n);
    }
  }

  /** Replacing the same DVs a second time changes nothing, whether or not the first pass failed. */
  lemma {:induction false} RewriteIdempotent(entries: seq<ManifestEntry>, indices: seq<int>)
    ensures Rewrite(Rewrite(entries, indices).entries, indices) == Rewrite(entries, indices)
  {
    RewriteIdempotentFrom(entries, Rewrite(entries, indices).entries, indices);
  }

  /** A replaced DV stays replaced. */
  lemma {:induction false} RewriteKeepsReplaced(entries: seq<ManifestEntry>, indices: seq<int>, k: nat)
    requires k < |entries| && entries[k].deleteVector == UpdatedDv
    ensures Rewrite(entries, indices).entries[k].deleteVector == UpdatedDv
    decreases |indices|
  {
    if indices != [] {
      match ResolveIndex(indices[0], |entries|)
      case None =>
      case Some(k') =>
        RewriteKeepsReplaced(entries[k' := entries[k'].(deleteVector := UpdatedDv)], indices[1..], k);
    }
  }

  /** The rest of a rewrite, started once from `entries` and once from its own result, agrees. */
  lemma {:induction false} RewriteIdempotentFrom(entries: seq<ManifestEntry>, result: seq<ManifestEntry>, indices: seq<int>)
    requires result == Rewrite(entries, indices).entries
    ensures Rewrite(result, indices) == Rewrite(entries, indices)
    decreases |indices|
  {
    if indices != [] {
      var n := |entries|;
      match ResolveIndex(indices[0], n)
      case None =>
      case Some(k) =>
        var next := entries[k := entries[k].(deleteVector := UpdatedDv)];
        RewriteKeepsReplaced(next, indices[1..], k);
        assert result[k := result[k].(deleteVector := UpdatedDv)] == result;
        RewriteIdempotentFrom(next, result, indices[1..]);
    }
  }

  // ---------------------------------------------------------------------------
  // Column-file update

  /** `benchmark_column_file_update` without its timings: a DV column file of 40 bytes per updated
      entry plus a 200-byte pointer update, in three I/O operations; the manifest is not touched. */
  method ColumnFileUpdate(m: Manifest, filesToUpdate: seq<int>) returns (cost: WriteCost)
    ensures cost.bytesWritten == 40 * |filesToUpdate| + 200
    ensures cost.ioOps == 3
  {
    var ioOps := 1;
    var dvColumnSize := |filesToUpdate| * 40;
    ioOps := ioOps + 1;
    var metadataUpdateSize := 200;
    ioOps := ioOps + 1;
    cost := WriteCost(dvColumnSize + metadataUpdateSize, ioOps);
  }


  // ---------------------------------------------------------------------------
  // Scenario

  /** `int(num_files * update_percentage / 100)`: the product truncated toward zero. */
  function NumUpdates(numFiles: int, updatePercentage: real): (k: int)
    ensures var x := numFiles as real * updatePercentage / 100.0;
      x >= 0.0 ==> k as real <= x < k as real + 1.0
    ensures var x := numFiles as real * updatePercentage / 100.0;
      x < 0.0 ==> k as real - 1.0 < x <= k as real
  {
    var x := numFiles as real * updatePercentage / 100.0;
    if x >= 0.0 then x.Floor else -((-x).Floor)
  }

  function Range(lo: int, hi: int): (r: seq<int>)
    ensures |r| == if lo < hi then hi - lo else 0
    ensures forall j :: 0 <= j < |r| ==> r[j] == lo + j
    decreases hi - lo
  {
    if lo < hi then [lo] + Range(lo + 1, hi) else []
  }

  datatype ScenarioResult = ScenarioResult(numUpdates: int, full: WriteCost, column: WriteCost)

  /** What `run_scenario` reports: the update count and the two strategies' costs, or the
      `IndexError` of a full rewrite that runs past the end of the manifest. */
  function ScenarioOutcome(numFiles: int, updatePercentage: real): Result<ScenarioResult, IndexError>
  {
    var k := NumUpdates(numFiles, updatePercentage);
    var filesToUpdate := Range(0, k);
    if Rewrite(InitialEntries(numFiles), filesToUpdate).failed then Err(IndexError)
    else Ok(ScenarioResult(k, WriteCost(520 * |InitialEntries(numFiles)|, 2), WriteCost(40 * |filesToUpdate| + 200, 3)))
  }

  /** `run_scenario` without its output: both strategies get `manifest.copy()`, which shares the
      entry list, so the column-file update sees the DVs the full rewrite already replaced. The
      manifest is returned so that the shared list can be stated. */
  method RunScenario(numFiles: int, updatePercentage: real) returns (r: Result<ScenarioResult, IndexError>, m: Manifest)
    ensures fresh(m.entries)
    ensures m.entries.entries ==
      Rewrite(InitialEntries(numFiles), Range(0, NumUpdates(numFiles, updatePercentage))).entries
    ensures r == ScenarioOutcome(numFiles, updatePercentage)
  {
    m := CreateManifestWithDvs(numFiles);
    var numUpdates := NumUpdates(numFiles, updatePercentage);
    var filesToUpdate := Range(0, numUpdates);
    var fullCopy := m;
    var full := FullRewrite(fullCopy, filesToUpdate);
    if full.Err? {
      return Err(IndexError), m;
    }
    var columnCopy := m;
    var column := ColumnFileUpdate(columnCopy, filesToUpdate);
    r := Ok(ScenarioResult(numUpdates, full.value, column));
  }

  /** Updating the first `k` of `n` new entries: with `k <= n` exactly the first `k` get the new DV;
      with `k > n` the rewrite runs off the end and fails after replacing all `n`. */
  lemma ScenarioUpdates(numFiles: nat, k: nat)
    ensures var out := Rewrite(InitialEntries(numFiles), Range(0, k));
      && (out.failed <==> k > numFiles)
      && (k <= numFiles ==> forall j :: 0 <= j < numFiles ==>
            out.entries[j].deleteVector == if j < k then UpdatedDv else InitialDv)
      && forall j :: 0 <= j < numFiles ==> out.entries[j].filePath == InitialEntry(j).filePath
  {
    ScenarioFails(numFiles, k);
    if k <= numFiles {
      ScenarioDvs(numFiles, k);
    }
    RewritePaths(InitialEntries(numFiles), Range(0, k));
  }

  /** The rewrite of the first `k` indices fails exactly when `k` is past the end. */
  lemma ScenarioFails(numFiles: nat, k: nat)
    ensures Rewrite(InitialEntries(numFiles), Range(0, k)).failed <==> k > numFiles
  {
    var entries := InitialEntries(numFiles);
    RewriteFails(entries, Range(0, k));
    if k > numFiles {
      assert ResolveIndex(Range(0, k)[numFiles], numFiles).None?;
    } else {
      forall i | 0 <= i < k ensures ResolveIndex(Range(0, k)[i], numFiles).Some? {
      }
    }
  }

  /** Within range, exactly the first `k` entries get the new DV. */
  lemma ScenarioDvs(numFiles: nat, k: nat)
    requires k <= numFiles
    ensures forall j :: 0 <= j < numFiles ==>
      Rewrite(InitialEntries(numFiles), Range(0, k)).entries[j].deleteVector == if j < k then UpdatedDv else InitialDv
  {
    var entries := InitialEntries(numFiles);
    ScenarioFails(numFiles, k);
    RewriteEffect(entries, Range(0, k));
    TargetsOfRange(numFiles, k);
    forall j | 0 <= j < numFiles
      ensures Rewrite(entries, Range(0, k)).entries[j].deleteVector == if j < k then UpdatedDv else InitialDv
    {
      assert entries[j] == InitialEntry(j);
    }
  }

  /** The indices `0 .. k-1` select exactly the first `k` entries. */
  lemma TargetsOfRange(numFiles: nat, k: nat)
    requires k <= numFiles
    ensures forall j :: 0 <= j < numFiles ==> (j in Targets(Range(0, k), numFiles) <==> j < k)
  {
    var r := Range(0, k);
    forall j | 0 <= j < numFiles ensures j in Targets(r, numFiles) <==> j < k {
      if j < k {
        assert ResolveIndex(r[j], numFiles) == Some(j);
      }
      if j in Targets(r, numFiles) {
        var i :| 0 <= i < |r| && ResolveIndex(r[i], numFiles) == Some(j);
        assert r[i] == i;
      }
    }
  }

  /** The rewrite only ever changes DVs. */
  lemma {:induction false} RewritePaths(entries: seq<ManifestEntry>, indices: seq<int>)
    ensures forall j :: 0 <= j < |entries| ==>
      Rewrite(entries, indices).entries[j].(deleteVector := UpdatedDv) == entries[j].(deleteVector := UpdatedDv)
    decreases |indices|
  {
    if indices != [] {
      match ResolveIndex(indices[0], |entries|)
      case None =>
      case Some(k) =>
        RewritePaths(entries[k := entries[k].(deleteVector := UpdatedDv)], indices[1..]);
    }
  }

  /** For a percentage between 0 and 100 the update count lies between 0 and the file count. */
  lemma NumUpdatesInRange(numFiles: nat, updatePercentage: real)
    requires 0.0 <= updatePercentage <= 100.0
    ensures 0 <= NumUpdates(numFiles, updatePercentage) <= numFiles
  {
    var n := numFiles as real;
    assert n * updatePercentage <= n * 100.0;
    assert 0.0 <= n * updatePercentage;
  }

  /** On a manifest of at least one file and a percentage between 0 and 100, the scenario
      succeeds, and the column-file update writes fewer bytes than the full rewrite at the price
      of one more I/O operation. */
  lemma ColumnUpdateWritesLess(numFiles: nat, updatePercentage: real)
    requires 1 <= numFiles && 0.0 <= updatePercentage <= 100.0
    ensures ScenarioOutcome(numFiles, updatePercentage).Ok?
    ensures var costs := ScenarioOutcome(numFiles, updatePercentage).value;
      costs.column.bytesWritten < costs.full.bytesWritten && costs.column.ioOps == costs.full.ioOps + 1
  {
    var k := NumUpdates(numFiles, updatePercentage);
    NumUpdatesInRange(numFiles, updatePercentage);
    ScenarioFails(numFiles, k);
  }
}
