/** The adaptive root/leaf manifest tree: a root manifest that keeps data file
    entries inline until its estimated size reaches a threshold, then spills the
    whole inline batch into a new leaf manifest and keeps only a reference. */
module AdaptiveTree {
  import opened Results
  import opened Bytes
  import opened TreeManifests

  /** Estimated size of the root's reference to one leaf. */
  const LeafReferenceSize := 100
  const DefaultMaxSizeBytes := 16 * 1024 * 1024
  const DefaultMaxEntriesPerLeaf := 2000

  /** The entries of a list of leaves, leaf by leaf. */
  function Flatten(leaves: seq<LeafManifest>): seq<DataFileEntry>
  {
    if leaves == [] then [] else Flatten(leaves[..|leaves| - 1]) + leaves[|leaves| - 1].entries
  }

  /** Leaf k has id k, lives at `metadata/manifest-k.avro` and holds at least one entry. */
  ghost predicate LeavesWellFormed(leaves: seq<LeafManifest>)
  {
    forall k :: 0 <= k < |leaves| ==>
      leaves[k].manifestId == k && leaves[k].filePath == LeafPath(k) && leaves[k].entries != []
  }

  /** The leaf a flush creates when `leafCount` leaves already exist. */
  function NewLeaf(leafCount: nat, entries: seq<DataFileEntry>): LeafManifest
  {
    LeafManifest(leafCount, entries, LeafPath(leafCount))
  }

  /** The root's estimated size: its inline entries plus one reference per leaf. */
  function RootSize(inlineEntries: seq<DataFileEntry>, leafCount: nat): nat
  {
    SumSizes(inlineEntries) + LeafReferenceSize * leafCount
  }

  datatype TreeStats = TreeStats(
    totalEntries: nat, inlineEntries: nat, leafManifests: nat,
    treeDepth: nat, rootSizeBytes: nat, isFlat: bool)

  class RootManifest {
    var inlineEntries: seq<DataFileEntry>
    var leafManifests: seq<LeafManifest>
    var maxSizeBytes: int
    /** Stored but never consulted: a leaf takes the whole inline batch whatever its length. */
    var maxEntriesPerLeaf: int

    ghost predicate Valid()
      reads this
    {
      LeavesWellFormed(leafManifests)
    }

    /** Every entry the root accounts for: the leaves' entries in leaf order, then the inline ones. */
    function AllEntries(): seq<DataFileEntry>
      reads this
    {
      Flatten(leafManifests) + inlineEntries
    }

    /** `RootManifest()` with the default 16 MiB threshold and 2000-entry leaves. */
    constructor()
      ensures Valid()
      ensures inlineEntries == [] && leafManifests == []
      ensures maxSizeBytes == DefaultMaxSizeBytes && maxEntriesPerLeaf == DefaultMaxEntriesPerLeaf
    {
      inlineEntries := [];
      leafManifests := [];
      maxSizeBytes := DefaultMaxSizeBytes;
      maxEntriesPerLeaf := DefaultMaxEntriesPerLeaf;
    }

    /** `RootManifest(max_size_bytes=..., max_entries_per_leaf=...)`. */
    constructor WithLimits(maxSizeBytes: int, maxEntriesPerLeaf: int)
      ensures Valid()
      ensures inlineEntries == [] && leafManifests == []
      ensures this.maxSizeBytes == maxSizeBytes && this.maxEntriesPerLeaf == maxEntriesPerLeaf
    {
      inlineEntries := [];
      leafManifests := [];
      this.maxSizeBytes := maxSizeBytes;
      this.maxEntriesPerLeaf := maxEntriesPerLeaf;
    }

    /** The root's size: 200 bytes per inline entry, the inline MDV bytes, and 100 bytes per leaf. */
    function CurrentSizeBytes(): (r: nat)
      reads this
      ensures r == EntryBaseSize * |inlineEntries| + TotalMdvBytes(inlineEntries)
                   + LeafReferenceSize * |leafManifests|
    {
      SumSizesFormula(inlineEntries);
      RootSize(inlineEntries, |leafManifests|)
    }

    /** Moves the whole inline batch into a new leaf appended after the existing ones. */
    method FlushToLeaf() returns (flushed: bool)
      requires Valid()
      modifies this
      ensures Valid()
      ensures AllEntries() == old(AllEntries())
      ensures maxSizeBytes == old(maxSizeBytes) && maxEntriesPerLeaf == old(maxEntriesPerLeaf)
      ensures flushed <==> old(inlineEntries) != []
      ensures !flushed ==> inlineEntries == old(inlineEntries) && leafManifests == old(leafManifests)
      ensures flushed ==> (inlineEntries == []
                           && leafManifests == old(leafManifests) + [NewLeaf(|old(leafManifests)|, old(inlineEntries))])
    {
      if inlineEntries == [] {
        return false;
      }
      var leafId := |leafManifests|;
      var leaf := NewLeaf(leafId, inlineEntries);
      leafManifests := leafManifests + [leaf];
      assert leafManifests[..|leafManifests| - 1] == old(leafManifests);
      inlineEntries := [];
      return true;
    }

    /** Appends an entry inline and flushes when the new size reaches the threshold. */
    method AddEntry(entry: DataFileEntry) returns (flushed: bool)
      requires Valid()
      modifies this
      ensures Valid()
      ensures AllEntries() == old(AllEntries()) + [entry]
      ensures maxSizeBytes == old(maxSizeBytes) && maxEntriesPerLeaf == old(maxEntriesPerLeaf)
      ensures flushed <==> RootSize(old(inlineEntries) + [entry], |old(leafManifests)|) >= maxSizeBytes
      ensures !flushed ==> (inlineEntries == old(inlineEntries) + [entry]
                            && leafManifests == old(leafManifests)
                            && CurrentSizeBytes() < maxSizeBytes)
      ensures flushed ==> (inlineEntries == []
                           && leafManifests == old(leafManifests)
                                               + [NewLeaf(|old(leafManifests)|, old(inlineEntries) + [entry])]
                           && CurrentSizeBytes() == LeafReferenceSize * |leafManifests|)
    {
      inlineEntries := inlineEntries + [entry];
      if RootSize(inlineEntries, |leafManifests|) >= maxSizeBytes {
        flushed := FlushToLeaf();
        return;
      }
      return false;
    }

    /** `RootManifest.serialize`: magic, version 1, the inline entries, then the leaf references. */
    method Serialize() returns (r: Result<seq<byte>, PackError>)
      ensures r == RootEncoding(inlineEntries, leafManifests)
    {
      var entries, leaves := inlineEntries, leafManifests;
      if |entries| >= U32Limit { return Err(StructError); }
      var withEntries := AppendEntries(RootMagic() + U32(1) + U32(|entries|), entries);
      if withEntries.Err? { return withEntries; }
      if |leaves| >= U32Limit { return Err(StructError); }
      r := AppendLeafRefs(withEntries.value + U32(|leaves|), leaves);
    }

    /** `RootManifest.get_stats`, counting the entries leaf by leaf. */
    method GetStats() returns (stats: TreeStats)
      ensures stats.totalEntries == |AllEntries()|
      ensures stats.inlineEntries == |inlineEntries| && stats.leafManifests == |leafManifests|
      ensures stats.rootSizeBytes == CurrentSizeBytes()
      ensures stats.treeDepth == 2 <==> leafManifests != []
      ensures stats.treeDepth == 1 <==> leafManifests == []
      ensures stats.isFlat <==> leafManifests == []
    {
      var total := |inlineEntries|;
      var k := 0;
      while k < |leafManifests|
        invariant 0 <= k <= |leafManifests|
        invariant total == |inlineEntries| + |Flatten(leafManifests[..k])|
      {
        assert leafManifests[..k + 1][..k] == leafManifests[..k];
        total := total + |leafManifests[k].entries|;
        k := k + 1;
      }
      assert leafManifests[..k] == leafManifests;
      stats := TreeStats(total, |inlineEntries|, |leafManifests|,
                         if leafManifests != [] then 2 else 1,
                         CurrentSizeBytes(), |leafManifests| == 0);
    }
  }

  /** The size is not re-checked after a flush: a root whose threshold is at most one leaf
      reference is left at or above its threshold by the flush its first entry triggers. */
  method SizeNotRecheckedAfterFlush(entry: DataFileEntry) returns (root: RootManifest)
    ensures fresh(root) && root.Valid() && |root.leafManifests| == 1
    ensures root.CurrentSizeBytes() >= root.maxSizeBytes
  {
    root := new RootManifest.WithLimits(LeafReferenceSize, DefaultMaxEntriesPerLeaf);
    var flushed := root.AddEntry(entry);
  }

  lemma {:induction false} SizeWithoutMdvs(es: seq<DataFileEntry>)
    requires forall i :: 0 <= i < |es| ==> MdvBytes(es[i]) == []
    ensures SumSizes(es) == EntryBaseSize * |es|
  {
    SumSizesFormula(es);
    NoMdvBytes(es);
  }

  lemma {:induction false} NoMdvBytes(es: seq<DataFileEntry>)
    requires forall i :: 0 <= i < |es| ==> MdvBytes(es[i]) == []
    ensures TotalMdvBytes(es) == 0
  {
    if es != [] {
      NoMdvBytes(es[1..]);
    }
  }

  /** `max_entries_per_leaf` is never enforced: under the default 16 MiB threshold, entries without
      MDVs stay inline for 83886 commits and the 83887th flushes all of them into one leaf. */
  lemma LeafEntryLimitNotEnforced(es: seq<DataFileEntry>)
    requires |es| == 83887 && forall i :: 0 <= i < |es| ==> MdvBytes(es[i]) == []
    ensures RootSize(es[..83886], 0) < DefaultMaxSizeBytes <= RootSize(es, 0)
    ensures |es| > DefaultMaxEntriesPerLeaf
  {
    SizeWithoutMdvs(es);
    SizeWithoutMdvs(es[..83886]);
  }

  /** What `commit_file` reports (the commit time is left out). */
  datatype CommitStats = CommitStats(commitId: nat, flushed: bool, filesWritten: nat, rootSizeBytes: nat)

  datatype ManagerStats = ManagerStats(tree: TreeStats, totalCommits: nat, totalFlushes: nat)

  class AdaptiveTreeManager {
    const root: RootManifest
    var flushCount: nat
    var commitCount: nat

    /** Every commit added exactly one entry and every flush made exactly one leaf. */
    ghost predicate Valid()
      reads this, root
    {
      && root.Valid()
      && commitCount == |root.AllEntries()|
      && flushCount == |root.leafManifests|
    }

    constructor()
      ensures Valid() && fresh(root)
      ensures root.inlineEntries == [] && root.leafManifests == []
      ensures root.maxSizeBytes == DefaultMaxSizeBytes
      ensures flushCount == 0 && commitCount == 0
    {
      root := new RootManifest();
      flushCount := 0;
      commitCount := 0;
    }

    /** One-file commit: add the entry to the root, count the flush if one happened, count the commit. */
    method CommitFile(entry: DataFileEntry) returns (stats: CommitStats)
      requires Valid()
      modifies this, root
      ensures Valid()
      ensures root.AllEntries() == old(root.AllEntries()) + [entry]
      ensures root.maxSizeBytes == old(root.maxSizeBytes) && root.maxEntriesPerLeaf == old(root.maxEntriesPerLeaf)
      ensures commitCount == old(commitCount) + 1 && stats.commitId == commitCount
      ensures flushCount == old(flushCount) + (if stats.flushed then 1 else 0)
      ensures stats.flushed <==> RootSize(old(root.inlineEntries) + [entry], old(flushCount)) >= old(root.maxSizeBytes)
      ensures !stats.flushed ==> (root.inlineEntries == old(root.inlineEntries) + [entry]
                                  && root.leafManifests == old(root.leafManifests))
      ensures stats.flushed ==> (root.inlineEntries == []
                                 && root.leafManifests == old(root.leafManifests)
                                                          + [NewLeaf(old(flushCount), old(root.inlineEntries) + [entry])])
      ensures stats.filesWritten == (if stats.flushed then 2 else 1)
      ensures stats.rootSizeBytes == root.CurrentSizeBytes()
      ensures stats.flushed ==> stats.rootSizeBytes == LeafReferenceSize * flushCount
      ensures !stats.flushed ==> stats.rootSizeBytes < root.maxSizeBytes
    {
      var flushed := root.AddEntry(entry);
      if flushed {
        flushCount := flushCount + 1;
      }
      commitCount := commitCount + 1;
      stats := CommitStats(commitCount, flushed, if flushed then 2 else 1, root.CurrentSizeBytes());
    }

    /** `get_tree_stats` without the floating-point flush rate. */
    method GetTreeStats() returns (stats: ManagerStats)
      requires Valid()
      ensures stats.tree.totalEntries == commitCount == stats.totalCommits
      ensures stats.tree.leafManifests == flushCount == stats.totalFlushes
      ensures stats.tree.rootSizeBytes == root.CurrentSizeBytes()
      ensures stats.tree.inlineEntries == |root.inlineEntries|
      ensures stats.tree.treeDepth == (if root.leafManifests == [] then 1 else 2)
      ensures stats.tree.isFlat <==> root.leafManifests == []
    {
      var tree := root.GetStats();
      stats := ManagerStats(tree, commitCount, flushCount);
    }
  }
}
