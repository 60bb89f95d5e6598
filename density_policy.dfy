/** The density-adaptive inline/spill policy for manifest delete vectors (MDVs):
    small MDVs and run containers are always kept inline, and the rest are
    bin-packed in ascending size order against a global byte cap. */
module DensityPolicy {
  import opened Results
  import opened Bytes
  import opened Seqs
  import opened StableSort

  /** The Roaring container kinds the MDV generators report. */
  datatype Container = Array | Bitmap | Run

  datatype MdvEntry = MdvEntry(
    manifestId: int,
    totalRows: int,
    deletedRows: seq<int>,
    mdvBytes: seq<byte>,
    mdvSize: int,
    containerType: Container,
    shouldInline: bool)

  function Size(m: MdvEntry): int { m.mdvSize }

  function TotalSize(ms: seq<MdvEntry>): int { SumBy(ms, Size) }

  // ---------------------------------------------------------------------------
  // Simulated generators (the branches taken without a Roaring library)

  /** Array container: two bytes per deleted row. */
  function SparseMdv(totalRows: int, deletedRows: seq<int>): (r: (seq<byte>, Container))
    ensures |r.0| == 2 * |deletedRows| && r.1 == Array
  {
    (Zeros(2 * |deletedRows|), Array)
  }

  /** With a Roaring library the sparse generator reports an array container below 4096
      deleted rows and a bitmap container from 4096 on. */
  function SparseContainerType(deletedCount: nat): (c: Container)
    ensures c == Array <==> deletedCount < 4096
    ensures c == Bitmap <==> deletedCount >= 4096
  {
    if deletedCount < 4096 then Array else Bitmap
  }

  /** `bytes(n)` raises `ValueError` for a negative count. */
  datatype GenError = NegativeCount

  /** Bitmap container: 8 KiB for each (started) range of 65536 rows. */
  function DenseMdv(totalRows: int, deletedRows: seq<int>): (r: Result<(seq<byte>, Container), GenError>)
    ensures r.Ok? <==> totalRows > -65536
    ensures r.Ok? ==> r.value.1 == Bitmap && |r.value.0| % 8192 == 0
    ensures r.Ok? ==> var ranges := |r.value.0| / 8192;
                      (ranges - 1) * 65536 < totalRows <= ranges * 65536
  {
    var numRanges := (totalRows + 65535) / 65536;
    if numRanges < 0 then Err(NegativeCount) else Ok((Zeros(numRanges * 8192), Bitmap))
  }

  /** Run container: four bytes per deleted range. */
  function RunMdv(totalRows: int, deletedRanges: seq<(int, int)>): (r: (seq<byte>, Container))
    ensures |r.0| == 4 * |deletedRanges| && r.1 == Run
  {
    (Zeros(4 * |deletedRanges|), Run)
  }

  /** Scenario A (fragmented CDC stream): manifest i deletes `i % 10 + 1` rows of 10000. */
  function ScenarioARows(i: int): (rows: seq<int>)
    ensures 1 <= |rows| <= 10
    ensures forall j :: 0 <= j < |rows| ==> 0 <= rows[j] < 10000
  {
    seq(i % 10 + 1, j => (i * 13 + j * 17) % 10000)
  }

  function ScenarioAEntry(i: int): MdvEntry
  {
    var rows := ScenarioARows(i);
    var (bytes, container) := SparseMdv(10000, rows);
    MdvEntry(i, 10000, rows, bytes, |bytes|, container, true)
  }

  /** Builds the scenario A MDVs one manifest at a time. */
  method ScenarioA(numManifests: nat) returns (mdvs: seq<MdvEntry>)
    ensures |mdvs| == numManifests
    ensures forall i :: 0 <= i < numManifests ==> mdvs[i] == ScenarioAEntry(i)
  {
    mdvs := [];
    for i := 0 to numManifests
      invariant |mdvs| == i
      invariant forall k :: 0 <= k < i ==> mdvs[k] == ScenarioAEntry(k)
    {
      var rows := ScenarioARows(i);
      var (bytes, container) := SparseMdv(10000, rows);
      mdvs := mdvs + [MdvEntry(i, 10000, rows, bytes, |bytes|, container, true)];
    }
  }

  // ---------------------------------------------------------------------------
  // The policy

  function Smaller(floor: int): MdvEntry -> bool { (m: MdvEntry) => m.mdvSize < floor }

  function RunNotIn(must: seq<MdvEntry>): MdvEntry -> bool { (m: MdvEntry) => m.containerType == Run && m !in must }

  function NotIn(must: seq<MdvEntry>): MdvEntry -> bool { (m: MdvEntry) => m !in must }

  /** What the policy must inline: the entries below the floor, then the run containers not
      already among them, each group in input order. */
  function MustInline(mdvs: seq<MdvEntry>, floor: int): seq<MdvEntry>
  {
    var small := Filter(mdvs, Smaller(floor));
    small + Filter(mdvs, RunNotIn(small))
  }

  /** The remaining entries, stably sorted by ascending size. */
  function SortedCandidates(mdvs: seq<MdvEntry>, floor: int): seq<MdvEntry>
  {
    SortBy(Filter(mdvs, NotIn(MustInline(mdvs, floor))), Size)
  }

  /** The greedy bin-pack: each candidate in turn is accepted when the running total plus
      its size stays within the cap, and spilled otherwise. */
  function Pack(cands: seq<MdvEntry>, current: int, cap: int): (seq<MdvEntry>, seq<MdvEntry>)
  {
    if cands == [] then ([], [])
    else if current + cands[0].mdvSize <= cap then
      var rest := Pack(cands[1..], current + cands[0].mdvSize, cap);
      ([cands[0]] + rest.0, rest.1)
    else
      var rest := Pack(cands[1..], current, cap);
      (rest.0, [cands[0]] + rest.1)
  }

  function ByteFloor(byteFloorKb: int): int { byteFloorKb * 1024 }

  function GlobalCap(globalCapMb: int): int { globalCapMb * 1024 * 1024 }

  /** The (inlined, spilled) pair the policy returns. */
  function Policy(mdvs: seq<MdvEntry>, byteFloorKb: int, globalCapMb: int): (seq<MdvEntry>, seq<MdvEntry>)
  {
    var floor := ByteFloor(byteFloorKb);
    var must := MustInline(mdvs, floor);
    var packed := Pack(SortedCandidates(mdvs, floor), TotalSize(must), GlobalCap(globalCapMb));
    (must + packed.0, packed.1)
  }

  /** `apply_density_adaptive_policy` without its timing. */
  method ApplyPolicy(mdvs: seq<MdvEntry>, byteFloorKb: int, globalCapMb: int)
    returns (inlined: seq<MdvEntry>, spilled: seq<MdvEntry>)
    ensures (inlined, spilled) == Policy(mdvs, byteFloorKb, globalCapMb)
  {
    var byteFloorBytes := byteFloorKb * 1024;
    var globalCapBytes := globalCapMb * 1024 * 1024;
    var mustInline := Filter(mdvs, Smaller(byteFloorBytes));
    var runContainers := Filter(mdvs, RunNotIn(mustInline));
    mustInline := mustInline + runContainers;
    var candidates := Filter(mdvs, NotIn(mustInline));
    var candidatesSorted := SortBy(candidates, Size);
    assert mustInline == MustInline(mdvs, ByteFloor(byteFloorKb));
    assert candidatesSorted == SortedCandidates(mdvs, ByteFloor(byteFloorKb));
    inlined, spilled := PackInto(mustInline, candidatesSorted, globalCapBytes);
  }

  /** The greedy loop: appends each candidate that still fits to `inlined` (which starts as the
      forced entries, whose total is the starting size) and spills the others. */
  method PackInto(mustInline: seq<MdvEntry>, candidatesSorted: seq<MdvEntry>, globalCapBytes: int)
    returns (inlined: seq<MdvEntry>, spilled: seq<MdvEntry>)
    ensures inlined == mustInline + Pack(candidatesSorted, TotalSize(mustInline), globalCapBytes).0
    ensures spilled == Pack(candidatesSorted, TotalSize(mustInline), globalCapBytes).1
  {
    inlined := mustInline;
    spilled := [];
    var currentSize := TotalSize(inlined);
    ghost var start := currentSize;
    for i := 0 to |candidatesSorted|
      invariant var rest := Pack(candidatesSorted[i..], currentSize, globalCapBytes);
        && mustInline + Pack(candidatesSorted, start, globalCapBytes).0 == inlined + rest.0
        && Pack(candidatesSorted, start, globalCapBytes).1 == spilled + rest.1
    {
      var mdv := candidatesSorted[i];
      assert candidatesSorted[i..][1..] == candidatesSorted[i + 1..];
      if currentSize + mdv.mdvSize <= globalCapBytes {
        ConcatAssoc(inlined, [mdv], Pack(candidatesSorted[i + 1..], currentSize + mdv.mdvSize, globalCapBytes).0);
        inlined := inlined + [mdv];
        currentSize := currentSize + mdv.mdvSize;
      } else {
        ConcatAssoc(spilled, [mdv], Pack(candidatesSorted[i + 1..], currentSize, globalCapBytes).1);
        spilled := spilled + [mdv];
      }
    }
    assert candidatesSorted[|candidatesSorted|..] == [];
  }

  // ---------------------------------------------------------------------------
  // What the policy guarantees

  /** An entry the policy must inline: below the byte floor or a run container. */
  predicate IsForced(m: MdvEntry, floor: int)
  {
    m.mdvSize < floor || m.containerType == Run
  }

  function RunAtOrAbove(floor: int): MdvEntry -> bool { (m: MdvEntry) => m.containerType == Run && m.mdvSize >= floor }

  function NotForced(floor: int): MdvEntry -> bool { (m: MdvEntry) => !IsForced(m, floor) }

  /** `m not in must_inline` compares entries by value; it holds exactly for the entries
      that are neither below the floor nor run containers. */
  lemma MustInlineMembers(mdvs: seq<MdvEntry>, floor: int)
    ensures forall i :: 0 <= i < |mdvs| ==> (mdvs[i] in MustInline(mdvs, floor) <==> IsForced(mdvs[i], floor))
    ensures Filter(mdvs, RunNotIn(Filter(mdvs, Smaller(floor)))) == Filter(mdvs, RunAtOrAbove(floor))
    ensures Filter(mdvs, NotIn(MustInline(mdvs, floor))) == Filter(mdvs, NotForced(floor))
  {
    var small := Filter(mdvs, Smaller(floor));
    var runs := Filter(mdvs, RunNotIn(small));
    forall i | 0 <= i < |mdvs|
      ensures mdvs[i] in small <==> mdvs[i].mdvSize < floor
      ensures mdvs[i] in small + runs <==> IsForced(mdvs[i], floor)
    {
      FilterMembership(mdvs, Smaller(floor), i);
      FilterMembership(mdvs, RunNotIn(small), i);
    }
    FilterCongruent(mdvs, RunNotIn(small), RunAtOrAbove(floor));
    FilterCongruent(mdvs, NotIn(small + runs), NotForced(floor));
  }

  lemma {:induction false} PackPartition(cands: seq<MdvEntry>, current: int, cap: int)
    ensures multiset(Pack(cands, current, cap).0) + multiset(Pack(cands, current, cap).1) == multiset(cands)
  {
    if cands != [] {
      var c := cands[0];
      assert multiset(cands) == multiset{c} + multiset(cands[1..]) by {
        assert cands == [c] + cands[1..];
      }
      if current + c.mdvSize <= cap {
        var rest := Pack(cands[1..], current + c.mdvSize, cap);
        PackPartition(cands[1..], current + c.mdvSize, cap);
        assert Pack(cands, current, cap) == ([c] + rest.0, rest.1);
        assert multiset([c] + rest.0) == multiset{c} + multiset(rest.0);
        AddOne(c, multiset(rest.0), multiset(rest.1), multiset(cands[1..]));
      } else {
        var rest := Pack(cands[1..], current, cap);
        PackPartition(cands[1..], current, cap);
        assert Pack(cands, current, cap) == (rest.0, [c] + rest.1);
        assert multiset([c] + rest.1) == multiset{c} + multiset(rest.1);
        AddOne(c, multiset(rest.1), multiset(rest.0), multiset(cands[1..]));
      }
    }
  }

  /** Adding one element to either part adds it to the whole. */
  lemma AddOne(c: MdvEntry, part: multiset<MdvEntry>, other: multiset<MdvEntry>, whole: multiset<MdvEntry>)
    requires part + other == whole
    ensures (multiset{c} + part) + other == multiset{c} + whole
    ensures other + (multiset{c} + part) == multiset{c} + whole
  {
  }

  /** Once a candidate does not fit, no later (larger or equal) candidate fits either. */
  lemma {:induction false} PackRejectsRest(cands: seq<MdvEntry>, current: int, cap: int)
    requires SortedBy(cands, Size)
    requires cands != [] && current + cands[0].mdvSize > cap
    ensures Pack(cands, current, cap) == ([], cands)
  {
    var tail := cands[1..];
    if tail != [] {
      assert Size(cands[0]) <= Size(tail[0]);
      assert SortedBy(tail, Size) by {
        forall i, j | 0 <= i < j < |tail| ensures Size(tail[i]) <= Size(tail[j]) {
          assert tail[i] == cands[i + 1] && tail[j] == cands[j + 1];
        }
      }
      PackRejectsRest(tail, current, cap);
    }
    assert cands == [cands[0]] + tail;
  }

  /** On sorted candidates the accepted ones are a prefix and the spilled ones the rest. */
  lemma {:induction false} PackPrefix(cands: seq<MdvEntry>, current: int, cap: int)
    requires SortedBy(cands, Size)
    ensures Pack(cands, current, cap).0 + Pack(cands, current, cap).1 == cands
  {
    if cands != [] {
      if current + cands[0].mdvSize <= cap {
        PackPrefix(cands[1..], current + cands[0].mdvSize, cap);
        assert cands == [cands[0]] + cands[1..];
      } else {
        PackRejectsRest(cands, current, cap);
      }
    }
  }

  /** Accepting anything keeps the running total within the cap. */
  lemma {:induction false} PackWithinCap(cands: seq<MdvEntry>, current: int, cap: int)
    ensures Pack(cands, current, cap).0 != [] ==> current + TotalSize(Pack(cands, current, cap).0) <= cap
  {
    if cands != [] {
      var c := cands[0];
      if current + c.mdvSize <= cap {
        var rest := Pack(cands[1..], current + c.mdvSize, cap);
        PackWithinCap(cands[1..], current + c.mdvSize, cap);
        assert ([c] + rest.0)[1..] == rest.0;
        assert TotalSize([c] + rest.0) == c.mdvSize + TotalSize(rest.0);
      } else {
        PackWithinCap(cands[1..], current, cap);
      }
    }
  }

  /** With non-negative sizes, a running total already over the cap accepts nothing. */
  lemma {:induction false} PackNoRoom(cands: seq<MdvEntry>, current: int, cap: int)
    requires forall i :: 0 <= i < |cands| ==> cands[i].mdvSize >= 0
    requires current > cap
    ensures Pack(cands, current, cap) == ([], cands)
  {
    if cands != [] {
      PackNoRoom(cands[1..], current, cap);
      assert cands == [cands[0]] + cands[1..];
    }
  }

  /** Every MDV lands in exactly one of the two lists, as often as it occurs in the input. */
  lemma PolicyPartition(mdvs: seq<MdvEntry>, byteFloorKb: int, globalCapMb: int)
    ensures var (inlined, spilled) := Policy(mdvs, byteFloorKb, globalCapMb);
      multiset(inlined) + multiset(spilled) == multiset(mdvs)
  {
    var floor := ByteFloor(byteFloorKb);
    var small := Filter(mdvs, Smaller(floor));
    var must := MustInline(mdvs, floor);
    var cands := Filter(mdvs, NotIn(must));
    var packed := Pack(SortBy(cands, Size), TotalSize(must), GlobalCap(globalCapMb));
    MustInlineMembers(mdvs, floor);
    forall i | 0 <= i < |mdvs|
      ensures ExactlyOne(mdvs[i], Smaller(floor), RunAtOrAbove(floor), NotForced(floor))
    {
    }
    FilterPartition3(mdvs, Smaller(floor), RunAtOrAbove(floor), NotForced(floor));
    SortBySortedPermutation(cands, Size);
    PackPartition(SortBy(cands, Size), TotalSize(must), GlobalCap(globalCapMb));
    Regroup(multiset(small), multiset(Filter(mdvs, RunAtOrAbove(floor))),
      multiset(packed.0), multiset(packed.1), multiset(cands), multiset(mdvs));
  }

  /** The multiset bookkeeping of the partition: the forced groups plus the two halves of the
      candidates make up everything. */
  lemma Regroup(small: multiset<MdvEntry>, runs: multiset<MdvEntry>, accepted: multiset<MdvEntry>,
                rejected: multiset<MdvEntry>, cands: multiset<MdvEntry>, all: multiset<MdvEntry>)
    requires accepted + rejected == cands
    requires small + runs + cands == all
    ensures (small + runs + accepted) + rejected == all
  {
  }

  /** Entries below the floor and run containers are inlined and never spilled, whatever the cap. */
  lemma PolicyInlinesForced(mdvs: seq<MdvEntry>, byteFloorKb: int, globalCapMb: int)
    ensures var (inlined, spilled) := Policy(mdvs, byteFloorKb, globalCapMb);
      forall i :: 0 <= i < |mdvs| && IsForced(mdvs[i], ByteFloor(byteFloorKb)) ==>
        mdvs[i] in inlined && mdvs[i] !in spilled
  {
    var floor := ByteFloor(byteFloorKb);
    var must := MustInline(mdvs, floor);
    var cands := Filter(mdvs, NotIn(must));
    var packed := Pack(SortBy(cands, Size), TotalSize(must), GlobalCap(globalCapMb));
    MustInlineMembers(mdvs, floor);
    SortBySortedPermutation(cands, Size);
    PackPartition(SortBy(cands, Size), TotalSize(must), GlobalCap(globalCapMb));
    forall i | 0 <= i < |mdvs| && IsForced(mdvs[i], floor)
      ensures mdvs[i] !in packed.1
    {
      ForcedNotCandidate(must, cands, packed.1, mdvs[i]);
    }
  }

  /** A forced entry is not among the candidates, so it cannot be among those spilled from them. */
  lemma ForcedNotCandidate(must: seq<MdvEntry>, cands: seq<MdvEntry>, spilled: seq<MdvEntry>, m: MdvEntry)
    requires m in must
    requires forall k :: 0 <= k < |cands| ==> cands[k] !in must
    requires multiset(spilled) <= multiset(cands)
    ensures m !in spilled
  {
    assert m !in cands;
    assert m !in multiset(cands);
  }

  /** The inlined list is the forced entries followed by a prefix of the sorted candidates,
      and the spilled list is the rest of them. */
  lemma PolicyOrder(mdvs: seq<MdvEntry>, byteFloorKb: int, globalCapMb: int)
    ensures var (inlined, spilled) := Policy(mdvs, byteFloorKb, globalCapMb);
      var must := MustInline(mdvs, ByteFloor(byteFloorKb));
      && |must| <= |inlined| && inlined[..|must|] == must
      && inlined[|must|..] + spilled == SortedCandidates(mdvs, ByteFloor(byteFloorKb))
  {
    var floor := ByteFloor(byteFloorKb);
    var must := MustInline(mdvs, floor);
    var sorted := SortedCandidates(mdvs, floor);
    SortBySortedPermutation(Filter(mdvs, NotIn(must)), Size);
    PackPrefix(sorted, TotalSize(must), GlobalCap(globalCapMb));
    var packed := Pack(sorted, TotalSize(must), GlobalCap(globalCapMb));
    assert (must + packed.0)[|must|..] == packed.0;
  }

  /** The inlined total never exceeds the larger of the forced total and the cap. */
  lemma PolicyBound(mdvs: seq<MdvEntry>, byteFloorKb: int, globalCapMb: int)
    ensures var must := MustInline(mdvs, ByteFloor(byteFloorKb));
      var cap := GlobalCap(globalCapMb);
      TotalSize(Policy(mdvs, byteFloorKb, globalCapMb).0)
        <= if TotalSize(must) > cap then TotalSize(must) else cap
  {
    var floor := ByteFloor(byteFloorKb);
    var must := MustInline(mdvs, floor);
    var sorted := SortedCandidates(mdvs, floor);
    var packed := Pack(sorted, TotalSize(must), GlobalCap(globalCapMb));
    PackWithinCap(sorted, TotalSize(must), GlobalCap(globalCapMb));
    SumByAppend(must, packed.0, Size);
  }

  /** When the forced entries alone exceed the cap, every candidate is spilled. */
  lemma PolicyForcedOverCap(mdvs: seq<MdvEntry>, byteFloorKb: int, globalCapMb: int)
    requires forall i :: 0 <= i < |mdvs| ==> mdvs[i].mdvSize >= 0
    requires TotalSize(MustInline(mdvs, ByteFloor(byteFloorKb))) > GlobalCap(globalCapMb)
    ensures Policy(mdvs, byteFloorKb, globalCapMb)
         == (MustInline(mdvs, ByteFloor(byteFloorKb)), SortedCandidates(mdvs, ByteFloor(byteFloorKb)))
  {
    var floor := ByteFloor(byteFloorKb);
    var must := MustInline(mdvs, floor);
    var cands := Filter(mdvs, NotIn(must));
    var sorted := SortBy(cands, Size);
    CandidateSizes(mdvs, floor);
    assert sorted == SortedCandidates(mdvs, floor);
    PackNoRoom(sorted, TotalSize(must), GlobalCap(globalCapMb));
    assert must + [] == must;
  }

  /** Sorting and filtering keep sizes non-negative. */
  lemma CandidateSizes(mdvs: seq<MdvEntry>, floor: int)
    requires forall i :: 0 <= i < |mdvs| ==> mdvs[i].mdvSize >= 0
    ensures forall i :: 0 <= i < |SortedCandidates(mdvs, floor)| ==> SortedCandidates(mdvs, floor)[i].mdvSize >= 0
  {
    var cands := Filter(mdvs, NotIn(MustInline(mdvs, floor)));
    var sorted := SortBy(cands, Size);
    SortBySortedPermutation(cands, Size);
    forall i | 0 <= i < |sorted| ensures sorted[i].mdvSize >= 0 {
      assert sorted[i] in multiset(cands);
      assert sorted[i] in cands;
    }
  }

  /** Scenario A's MDVs are at most 20 bytes, so with any floor of at least 1 KiB they are
      all inlined, in input order, and nothing spills. */
  lemma ScenarioAAllInline(mdvs: seq<MdvEntry>, byteFloorKb: int, globalCapMb: int)
    requires forall i :: 0 <= i < |mdvs| ==> mdvs[i] == ScenarioAEntry(i)
    requires byteFloorKb >= 1
    ensures Policy(mdvs, byteFloorKb, globalCapMb) == (mdvs, [])
  {
    var floor := ByteFloor(byteFloorKb);
    forall i | 0 <= i < |mdvs| ensures Smaller(floor)(mdvs[i]) {
      assert mdvs[i].mdvSize <= 20;
    }
    FilterAll(mdvs, Smaller(floor));
    FilterNone(mdvs, RunNotIn(mdvs));
    assert MustInline(mdvs, floor) == mdvs;
    FilterNone(mdvs, NotIn(mdvs));
    assert mdvs + [] == mdvs;
  }
}
