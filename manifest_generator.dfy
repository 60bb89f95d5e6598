/** The root-manifest generator (poc/utils/manifest_generator.py): fixed-layout file entries and a
    root manifest of exactly the requested size, made of a header, as many entries as fit and
    zero padding. The random fields of each entry are supplied by the caller. */
module ManifestGenerator {
  import opened Results
  import opened Bytes
  import opened Text
  import opened Seqs

  // ---------------------------------------------------------------------------
  // File entries

  /** The fields `generate_file_entry` draws with `random.randint`. */
  datatype RandomFields = RandomFields(partitionDate: int, partitionHour: int, recordCount: int, fileSize: int)

  /** The inclusive ranges the draws come from. */
  predicate InBounds(f: RandomFields)
  {
    && 0 <= f.partitionDate <= 1826
    && 0 <= f.partitionHour <= 23
    && 500_000 <= f.recordCount <= 1_500_000
    && 64 * 1024 * 1024 <= f.fileSize <= 192 * 1024 * 1024
  }

  const FileFormat: string := "parquet"

  function LocationText(fileId: nat): string
  {
    "s3://bucket/" + "table/data/" + "date=2024-01-01/" + "hour=12/file_" + ZeroPad(fileId, 8) + ".parquet"
  }

  lemma LocationIsAscii(fileId: nat)
    ensures IsAscii(LocationText(fileId))
  {
    DigitsAreAscii(ZeroPad(fileId, 8));
    assert IsAscii("s3://bucket/") && IsAscii("table/data/") && IsAscii("date=2024-01-01/");
    assert IsAscii("hour=12/file_") && IsAscii(".parquet");
    AsciiConcat("s3://bucket/", "table/data/");
    AsciiConcat("s3://bucket/" + "table/data/", "date=2024-01-01/");
    AsciiConcat("s3://bucket/" + "table/data/" + "date=2024-01-01/", "hour=12/file_");
    AsciiConcat("s3://bucket/" + "table/data/" + "date=2024-01-01/" + "hour=12/file_", ZeroPad(fileId, 8));
    AsciiConcat("s3://bucket/" + "table/data/" + "date=2024-01-01/" + "hour=12/file_" + ZeroPad(fileId, 8), ".parquet");
  }

  /** The UTF-8 bytes of the location: one byte per character, since it is ASCII. */
  function Location(fileId: nat): (b: seq<byte>)
    ensures |b| == |LocationText(fileId)|
  {
    LocationIsAscii(fileId);
    Ascii(LocationText(fileId))
  }

  function Format(): (b: seq<byte>)
    ensures |b| == 7
  {
    Ascii(FileFormat)
  }

  lemma Pow10Eight()
    ensures Pow10(8) == 100_000_000
  {
    assert Pow10(4) == 10_000 by { assert Pow10(2) == 100; }
  }

  /** Below 10^8 the file id takes exactly eight digits, so the location is 68 bytes long. */
  lemma LocationLength(fileId: nat)
    requires fileId < 100_000_000
    ensures |LocationText(fileId)| == 68
  {
    Pow10Eight();
  }

  /** Every `struct.pack` of the entry accepts its value. */
  predicate EntryFits(fileId: int, f: RandomFields)
  {
    && 0 <= fileId && 1000 + fileId < U64Limit && |LocationText(fileId)| < U16Limit
    && 0 <= f.partitionDate < U32Limit && 0 <= f.partitionHour < U32Limit
    && 0 <= f.recordCount < U64Limit && 0 <= f.fileSize < U64Limit
  }

  /** The fields after the file format, from the partition date to the status. */
  function EntryTail(fileId: nat, f: RandomFields): (b: seq<byte>)
    requires EntryFits(fileId, f)
    ensures |b| == 44
  {
    U32(f.partitionDate) + (U32(f.partitionHour) + (U64(f.recordCount) + (U64(f.fileSize)
      + (U64(1000 + fileId) + (U64(fileId) + U32(0))))))
  }

  /** The layout of an entry, written right to left so that each field is a prefix of the rest. */
  function EntryLayout(fileId: nat, f: RandomFields): (b: seq<byte>)
    requires EntryFits(fileId, f)
    ensures |b| == 59 + |LocationText(fileId)|
  {
    U32(0) + (U16(|Location(fileId)|) + (Location(fileId) + (U16(|Format()|) + (Format() + EntryTail(fileId, f)))))
  }

  /** `generate_file_entry(file_id)` with the given draws; `struct.error` when a field is out of
      range (a negative id fails on its sequence number, a huge one on its snapshot id). */
  function GenerateFileEntry(fileId: int, f: RandomFields): (r: Result<seq<byte>, PackError>)
    ensures r.Ok? <==> EntryFits(fileId, f)
    ensures r.Ok? ==> |r.value| == 59 + |LocationText(fileId)|
  {
    if EntryFits(fileId, f) then Ok(EntryLayout(fileId, f)) else Err(StructError)
  }

  /** With in-range draws, an id below 10^8 gives an entry of exactly 127 bytes. */
  lemma EntrySize(fileId: nat, f: RandomFields)
    requires InBounds(f) && fileId < 100_000_000
    ensures GenerateFileEntry(fileId, f).Ok? && |GenerateFileEntry(fileId, f).value| == 127
  {
    LocationLength(fileId);
  }

  // ---------------------------------------------------------------------------
  // Decoding an entry (the partner of the layout)

  datatype DecodedEntry = DecodedEntry(
    contentType: nat, location: seq<byte>, fileFormat: seq<byte>,
    partitionDate: nat, partitionHour: nat, recordCount: nat, fileSize: nat,
    snapshotId: nat, sequenceNumber: nat, status: nat)

  /** Reads an entry back: two length-prefixed strings and the fixed-width fields around them. */
  function ParseFileEntry(s: seq<byte>): Option<DecodedEntry>
  {
    if |s| < 6 then None
    else
      var n := FromLittleEndian(s[4..6]);
      var s1 := s[6..];
      if |s1| < n + 2 then None
      else
        var m := FromLittleEndian(s1[n..n + 2]);
        var s2 := s1[n + 2..];
        if |s2| != m + 44 then None
        else
          var t := s2[m..];
          Some(DecodedEntry(
            FromLittleEndian(s[..4]), s1[..n], s2[..m],
            FromLittleEndian(t[..4]), FromLittleEndian(t[4..8]), FromLittleEndian(t[8..16]),
            FromLittleEndian(t[16..24]), FromLittleEndian(t[24..32]), FromLittleEndian(t[32..40]),
            FromLittleEndian(t[40..44])))
  }

  /** Field positions inside the fixed-width tail, for any byte strings of the right widths. */
  lemma TailSlices(a: seq<byte>, b: seq<byte>, c: seq<byte>, d: seq<byte>, e: seq<byte>, g: seq<byte>, h: seq<byte>)
    requires |a| == 4 && |b| == 4 && |c| == 8 && |d| == 8 && |e| == 8 && |g| == 8 && |h| == 4
    ensures var t := a + (b + (c + (d + (e + (g + h)))));
      && t[..4] == a && t[4..8] == b && t[8..16] == c && t[16..24] == d
      && t[24..32] == e && t[32..40] == g && t[40..44] == h
  {
    var t := a + (b + (c + (d + (e + (g + h)))));
    assert t[4..] == b + (c + (d + (e + (g + h))));
    assert t[8..] == c + (d + (e + (g + h)));
    assert t[16..] == d + (e + (g + h));
    assert t[24..] == e + (g + h);
    assert t[32..] == g + h;
  }

  /** Positions of the length-prefixed strings, for any byte strings of the right widths. */
  lemma EntrySlices(a: seq<byte>, b: seq<byte>, loc: seq<byte>, c: seq<byte>, fmt: seq<byte>, tail: seq<byte>)
    requires |a| == 4 && |b| == 2 && |c| == 2 && |tail| == 44
    requires FromLittleEndian(b) == |loc| && FromLittleEndian(c) == |fmt|
    ensures var s := a + (b + (loc + (c + (fmt + tail))));
      && |s| >= 6 && s[..4] == a && s[4..6] == b
      && var s1 := s[6..];
      && |s1| >= |loc| + 2 && s1[..|loc|] == loc && s1[|loc|..|loc| + 2] == c
      && var s2 := s1[|loc| + 2..];
      && |s2| == |fmt| + 44 && s2[..|fmt|] == fmt && s2[|fmt|..] == tail
  {
    var s := a + (b + (loc + (c + (fmt + tail))));
    assert s[4..] == b + (loc + (c + (fmt + tail)));
    var s1 := loc + (c + (fmt + tail));
    assert s[6..] == s1;
    assert s1[|loc|..] == c + (fmt + tail);
    assert s1[|loc| + 2..] == fmt + tail;
  }

  /** Parsing an entry gives back exactly the fields that went into it. */
  lemma EntryRoundTrip(fileId: nat, f: RandomFields)
    requires EntryFits(fileId, f)
    ensures ParseFileEntry(EntryLayout(fileId, f)) == Some(DecodedEntry(
      0, Location(fileId), Format(), f.partitionDate, f.partitionHour, f.recordCount, f.fileSize,
      1000 + fileId, fileId, 0))
  {
    var loc := Location(fileId);
    var tail := EntryTail(fileId, f);
    TailSlices(U32(f.partitionDate), U32(f.partitionHour), U64(f.recordCount), U64(f.fileSize),
               U64(1000 + fileId), U64(fileId), U32(0));
    EntrySlices(U32(0), U16(|loc|), loc, U16(7), Format(), tail);
  }

  /** Every entry the generator produces decodes to its inputs. */
  lemma GenerateFileEntryRoundTrip(fileId: int, f: RandomFields)
    ensures GenerateFileEntry(fileId, f).Ok? ==>
      ParseFileEntry(GenerateFileEntry(fileId, f).value) == Some(DecodedEntry(
        0, Location(fileId), Format(), f.partitionDate, f.partitionHour, f.recordCount, f.fileSize,
        1000 + fileId, fileId, 0))
  {
    if GenerateFileEntry(fileId, f).Ok? {
      EntryRoundTrip(fileId, f);
    }
  }

  // ---------------------------------------------------------------------------
  // Root manifest

  const BytesPerEntry: int := 200
  const ManifestMagic: string := "ICEBERG_V4_MANIFEST"

  /** `num_files`, or `target_size // 200` when it is not given (floor division). */
  function FileCount(targetSize: int, numFiles: Option<int>): int
  {
    if numFiles.None? then targetSize / BytesPerEntry else numFiles.value
  }

  /** The 31-byte header: magic, version 1, file count. */
  function Header(count: nat): (b: seq<byte>)
    requires count < U64Limit
    ensures |b| == 31
  {
    assert IsAscii(ManifestMagic);
    Ascii(ManifestMagic) + (U32(1) + U64(count))
  }

  /** The header decodes to magic, version 1 and the file count. */
  lemma HeaderFields(count: nat)
    requires count < U64Limit
    ensures Header(count)[..19] == Ascii(ManifestMagic)
    ensures FromLittleEndian(Header(count)[19..23]) == 1
    ensures FromLittleEndian(Header(count)[23..31]) == count
  {
    var h := Header(count);
    assert h[19..] == U32(1) + U64(count);
    assert h[19..23] == U32(1);
    assert h[23..31] == U64(count);
  }

  /** The entries of a manifest, file id by file id. */
  function EntryGen(draws: nat -> RandomFields): nat -> Result<seq<byte>, PackError>
  {
    (i: nat) => GenerateFileEntry(i, draws(i))
  }

  /** The entry loop from file `i` on: append entry `i`, stop once the length reaches the target. */
  function EntriesUntil(data: seq<byte>, i: nat, count: nat, targetSize: int, gen: nat -> Result<seq<byte>, PackError>)
    : Result<seq<byte>, PackError>
    decreases count - i
  {
    if i >= count then Ok(data)
    else match gen(i)
      case Err(e) => Err(e)
      case Ok(entry) =>
        if |data + entry| >= targetSize then Ok(data + entry)
        else EntriesUntil(data + entry, i + 1, count, targetSize, gen)
  }

  /** Where Python's `data[:stop]` ends; a negative stop counts from the end. */
  function SliceStop(length: nat, stop: int): (r: nat)
    ensures r <= length
  {
    if stop >= 0 then (if stop <= length then stop else length)
    else if length + stop >= 0 then length + stop else 0
  }

  /** `generate_root_manifest` with an integer target size. */
  function RootManifest(targetSize: int, count: int, draws: nat -> RandomFields): Result<seq<byte>, PackError>
  {
    if !(0 <= count < U64Limit) then Err(StructError)
    else match EntriesUntil(Header(count), 0, count, targetSize, EntryGen(draws))
      case Err(e) => Err(e)
      case Ok(data) =>
        Ok(PadTo(data, targetSize))
  }

  /** Zero padding up to the target, then `[:target_size]`. */
  function PadTo(data: seq<byte>, targetSize: int): seq<byte>
  {
    var padded := if |data| < targetSize then data + Zeros(targetSize - |data|) else data;
    padded[..SliceStop(|padded|, targetSize)]
  }

  /** The generator, as the loop that extends a buffer entry by entry and breaks early. */
  method GenerateRootManifest(targetSize: int, numFiles: Option<int>, draws: nat -> RandomFields)
    returns (r: Result<seq<byte>, PackError>)
    ensures r == RootManifest(targetSize, FileCount(targetSize, numFiles), draws)
  {
    var count := if numFiles.None? then targetSize / BytesPerEntry else numFiles.value;
    if !(0 <= count < U64Limit) {
      return Err(StructError);
    }
    var gen := EntryGen(draws);
    var data := Header(count);
    var i := 0;
    while i < count
      invariant 0 <= i <= count
      invariant EntriesUntil(data, i, count, targetSize, gen) == EntriesUntil(Header(count), 0, count, targetSize, gen)
    {
      var entry := gen(i);
      if entry.Err? {
        assert EntriesUntil(data, i, count, targetSize, gen) == Err(entry.error);
        return Err(entry.error);
      }
      ghost var before := data;
      data := data + entry.value;
      if |data| >= targetSize {
        assert EntriesUntil(before, i, count, targetSize, gen) == Ok(data);
        break;
      }
      assert EntriesUntil(before, i, count, targetSize, gen) == EntriesUntil(data, i + 1, count, targetSize, gen);
      i := i + 1;
    }
    assert EntriesUntil(Header(count), 0, count, targetSize, gen) == Ok(data);
    ghost var unpadded := data;
    if |data| < targetSize {
      data := data + Zeros(targetSize - |data|);
    }
    r := Ok(data[..SliceStop(|data|, targetSize)]);
    assert r.value == PadTo(unpadded, targetSize);
  }

  /** The loop only ever appends. */
  lemma {:induction false} EntriesUntilExtends(data: seq<byte>, i: nat, count: nat, targetSize: int,
                                               gen: nat -> Result<seq<byte>, PackError>)
    ensures EntriesUntil(data, i, count, targetSize, gen).Ok? ==> data <= EntriesUntil(data, i, count, targetSize, gen).value
    decreases count - i
  {
    if i < count && gen(i).Ok? {
      EntriesUntilExtends(data + gen(i).value, i + 1, count, targetSize, gen);
    }
  }

  /** A manifest that is produced has exactly the target length (for a non-negative target) and,
      when the target leaves room for it, starts with the header that names the file count. */
  lemma RootManifestLength(targetSize: int, count: int, draws: nat -> RandomFields)
    ensures RootManifest(targetSize, count, draws).Ok? && targetSize >= 0 ==>
      |RootManifest(targetSize, count, draws).value| == targetSize
    ensures RootManifest(targetSize, count, draws).Ok? && targetSize >= 31 ==>
      0 <= count < U64Limit && RootManifest(targetSize, count, draws).value[..31] == Header(count)
  {
    if 0 <= count < U64Limit {
      EntriesUntilExtends(Header(count), 0, count, targetSize, EntryGen(draws));
    }
  }

  /** Every entry below `n` is produced and is 127 bytes long. */
  predicate FixedEntries(gen: nat -> Result<seq<byte>, PackError>, n: nat)
  {
    forall j :: 0 <= j < n ==> gen(j).Ok? && |gen(j).value| == 127
  }

  lemma EntryGenFixed(draws: nat -> RandomFields)
    requires forall k :: InBounds(draws(k))
    ensures FixedEntries(EntryGen(draws), 100_000_000)
  {
    forall j | 0 <= j < 100_000_000 ensures EntryGen(draws)(j).Ok? && |EntryGen(draws)(j).value| == 127 {
      EntrySize(j, draws(j));
    }
  }

  /** Entries `0` up to `hi` back to back. */
  function EntriesBytes(hi: nat, gen: nat -> Result<seq<byte>, PackError>): (b: seq<byte>)
    requires FixedEntries(gen, hi)
    ensures |b| == 127 * hi
  {
    if hi == 0 then [] else EntriesBytes(hi - 1, gen) + gen(hi - 1).value
  }

  /** How many entries a manifest of `count` < 10^8 files holds: the loop stops at the first entry
      that brings the length to the target (but always writes one when `count > 0`). */
  function EntriesPresent(count: nat, targetSize: int): (k: nat)
    ensures k <= count
  {
    if count == 0 then 0
    else
      var needed := if targetSize <= 158 then 1 else (targetSize - 31 + 126) / 127;
      if needed < count then needed else count
  }

  /** The entry count stops short of `count` only at the first entry that reaches the target. */
  lemma EntriesPresentBounds(count: nat, targetSize: int)
    ensures count > 0 ==> EntriesPresent(count, targetSize) >= 1
    ensures forall j :: 1 <= j < EntriesPresent(count, targetSize) ==> 31 + 127 * j < targetSize
    ensures EntriesPresent(count, targetSize) < count ==> 31 + 127 * EntriesPresent(count, targetSize) >= targetSize
  {
  }

  lemma {:induction false} EntriesUntilFixed(header: seq<byte>, i: nat, count: nat, targetSize: int,
                                             gen: nat -> Result<seq<byte>, PackError>)
    requires |header| == 31 && FixedEntries(gen, count)
    requires i <= EntriesPresent(count, targetSize)
    requires i == 0 || 31 + 127 * i < targetSize
    ensures EntriesUntil(header + EntriesBytes(i, gen), i, count, targetSize, gen)
         == Ok(header + EntriesBytes(EntriesPresent(count, targetSize), gen))
    decreases count - i
  {
    var k := EntriesPresent(count, targetSize);
    EntriesPresentBounds(count, targetSize);
    var data := header + EntriesBytes(i, gen);
    if i < count {
      assert i < k;
      var entry := gen(i).value;
      ConcatAssoc(header, EntriesBytes(i, gen), entry);
      var next := data + entry;
      assert next == header + EntriesBytes(i + 1, gen);
      if |next| >= targetSize {
        assert i + 1 == k;
      } else {
        EntriesUntilFixed(header, i + 1, count, targetSize, gen);
      }
    } else {
      assert i == k;
    }
  }

  /** For fewer than 10^8 files the manifest is the header, the first `EntriesPresent` entries and
      zero padding, cut to the target size. The header's count may exceed the entries present,
      and when it does the entries already reach the target. */
  lemma RootManifestContents(targetSize: int, count: nat, draws: nat -> RandomFields)
    requires forall k :: InBounds(draws(k))
    requires count <= 100_000_000
    ensures FixedEntries(EntryGen(draws), count)
    ensures var data := Header(count) + EntriesBytes(EntriesPresent(count, targetSize), EntryGen(draws));
      && (EntriesPresent(count, targetSize) < count ==> |data| >= targetSize)
      && RootManifest(targetSize, count, draws) == Ok(PadTo(data, targetSize))
  {
    EntryGenFixed(draws);
    EntriesPresentBounds(count, targetSize);
    assert Header(count) + EntriesBytes(0, EntryGen(draws)) == Header(count);
    EntriesUntilFixed(Header(count), 0, count, targetSize, EntryGen(draws));
  }

  /** A 500-byte manifest that announces 100 files holds only 4 of them. */
  lemma HeaderCountExceedsEntries(draws: nat -> RandomFields)
    requires forall k :: InBounds(draws(k))
    ensures FixedEntries(EntryGen(draws), 4)
    ensures EntriesPresent(100, 500) == 4
    ensures RootManifest(500, 100, draws).Ok?
    ensures RootManifest(500, 100, draws).value[..31] == Header(100)
    ensures RootManifest(500, 100, draws).value == (Header(100) + EntriesBytes(4, EntryGen(draws)))[..500]
  {
    RootManifestContents(500, 100, draws);
    RootManifestLength(500, 100, draws);
  }
}
