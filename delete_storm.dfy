/** The delete-storm benchmark's manifests (DeleteStormBenchmark.java): a manifest is a fixed-size
    `ByteBuffer` into which the data-file paths and either the inline delete-vector bitmaps or the
    keys of external delete-vector files are written back to back, the rest staying zero. */
module DeleteStorm {
  import opened Results
  import opened Bytes
  import opened Text
  import opened JavaInt
  import opened Seqs

  /** The exceptions the manifest builders can throw. */
  datatype Fault = IllegalArgument | IndexOutOfBounds | BufferOverflow

  /** A delete vector: the data file it belongs to, its serialized roaring bitmap, its cardinality. */
  datatype DeleteVector = DeleteVector(dataFile: string, serializedBitmap: seq<byte>, cardinality: int)

  // ---------------------------------------------------------------------------
  // java.nio.ByteBuffer, as far as the manifests use it

  /** A heap buffer: a backing array and a write position. */
  class ByteBuffer {
    var hb: array<byte>
    var position: nat

    ghost predicate Valid()
      reads this
    {
      position <= hb.Length
    }

    function Remaining(): int
      reads this
    {
      hb.Length - position
    }

    /** `ByteBuffer.allocate(capacity)` for a non-negative capacity: a zero-filled array. */
    constructor Allocate(capacity: nat)
      ensures Valid() && fresh(hb) && hb.Length == capacity && position == 0
      ensures forall k :: 0 <= k < capacity ==> hb[k] == 0
    {
      hb := new byte[capacity](_ => 0);
      position := 0;
    }

    /** `put(byte[])`: copies `src` at the position and advances it, or throws
        `BufferOverflowException` (reported as `overflow`) without writing when it does not fit. */
    method Put(src: seq<byte>) returns (overflow: bool)
      requires Valid()
      modifies this, hb
      ensures Valid() && hb == old(hb)
      ensures overflow <==> |src| > old(Remaining())
      ensures overflow ==> position == old(position) && hb[..] == old(hb[..])
      ensures !overflow ==> position == old(position) + |src| && hb[..position] == old(hb[..position]) + src
      ensures !overflow ==> forall k :: 0 <= k < hb.Length ==>
        hb[k] == if old(position) <= k < position then src[k - old(position)] else old(hb[k])
    {
      if |src| > hb.Length - position {
        return true;
      }
      var j := 0;
      while j < |src|
        modifies hb
        invariant 0 <= j <= |src|
        invariant forall k :: 0 <= k < hb.Length ==>
          hb[k] == if position <= k < position + j then src[k - position] else old(hb[k])
      {
        hb[position + j] := src[j];
        j := j + 1;
      }
      position := position + |src|;
      assert hb[..position] == old(hb[..position]) + src;
      return false;
    }
  }

  // ---------------------------------------------------------------------------
  // What the buffer ends up holding

  /** Each path followed by its companion (a bitmap or a DV file key), with no lengths or
      separators between them. */
  function Interleave(paths: seq<seq<byte>>, companions: seq<seq<byte>>): seq<byte>
    requires |companions| >= |paths|
  {
    if paths == [] then [] else paths[0] + companions[0] + Interleave(paths[1..], companions[1..])
  }

  /** `Ok(prefix + v)` when the rest succeeds with `v`, the same error otherwise. */
  function Prepend(prefix: seq<byte>, r: Result<seq<byte>, Fault>): Result<seq<byte>, Fault>
  {
    if r.Ok? then Ok(prefix + r.value) else r
  }

  /** The writes of the manifest loop into a buffer with `room` bytes left, in the order the loop
      performs them: the path (which may overflow), then fetching the companion (which may be
      missing), then the companion (which may overflow). */
  function Layout(paths: seq<seq<byte>>, companions: seq<seq<byte>>, room: nat): (r: Result<seq<byte>, Fault>)
    ensures r.Ok? ==> |r.value| <= room
    decreases |paths|
  {
    if paths == [] then Ok([])
    else if |paths[0]| > room then Err(BufferOverflow)
    else if companions == [] then Err(IndexOutOfBounds)
    else if |paths[0]| + |companions[0]| > room then Err(BufferOverflow)
    else Prepend(paths[0] + companions[0], Layout(paths[1..], companions[1..], room - |paths[0]| - |companions[0]|))
  }

  /** The manifest: a buffer of `size() * perFile` bytes (a Java `int` product, so it can wrap;
      a negative capacity makes `allocate` throw), the writes, then the whole backing array. */
  function BufferManifest(paths: seq<seq<byte>>, companions: seq<seq<byte>>, perFile: int): Result<seq<byte>, Fault>
  {
    var capacity := Int32(|paths| * perFile);
    if capacity < 0 then Err(IllegalArgument)
    else match Layout(paths, companions, capacity)
      case Err(e) => Err(e)
      case Ok(content) => Ok(content + Zeros(capacity - |content|))
  }

  lemma PrependAssoc(a: seq<byte>, b: seq<byte>, r: Result<seq<byte>, Fault>)
    ensures Prepend(a, Prepend(b, r)) == Prepend(a + b, r)
  {
    if r.Ok? {
      assert a + (b + r.value) == a + b + r.value;
    }
  }

  lemma PrependEmpty(r: Result<seq<byte>, Fault>)
    ensures Prepend([], r) == r
  {
    if r.Ok? {
      assert [] + r.value == r.value;
    }
  }

  /** One round of the loop: the writes for file `i` onwards. */
  lemma LayoutStep(paths: seq<seq<byte>>, companions: seq<seq<byte>>, i: nat, room: nat)
    requires i < |paths| && i <= |companions|
    ensures Layout(paths[i..], companions[i..], room) == (
      if |paths[i]| > room then Err(BufferOverflow)
      else if i == |companions| then Err(IndexOutOfBounds)
      else if |paths[i]| + |companions[i]| > room then Err(BufferOverflow)
      else Prepend(paths[i] + companions[i], Layout(paths[i + 1..], companions[i + 1..], room - |paths[i]| - |companions[i]|)))
  {
    assert paths[i..][1..] == paths[i + 1..];
    if i < |companions| {
      assert companions[i..][1..] == companions[i + 1..];
    }
  }

  /** The loop of `put` calls into an empty buffer: path `i`, then companion `i`, for every data
      file. It stops at the first fault; otherwise the buffer holds the writes and is unchanged
      after them. */
  method WriteEntries(buffer: ByteBuffer, paths: seq<seq<byte>>, companions: seq<seq<byte>>)
    returns (fault: Option<Fault>)
    requires buffer.Valid() && buffer.position == 0
    modifies buffer, buffer.hb
    ensures buffer.Valid() && buffer.hb == old(buffer.hb)
    ensures fault.Some? <==> Layout(paths, companions, buffer.hb.Length).Err?
    ensures fault.Some? ==> fault.value == Layout(paths, companions, buffer.hb.Length).error
    ensures fault.None? ==> buffer.hb[..buffer.position] == Layout(paths, companions, buffer.hb.Length).value
    ensures fault.None? ==> forall k :: buffer.position <= k < buffer.hb.Length ==> buffer.hb[k] == old(buffer.hb[k])
  {
    var i := 0;
    assert paths[0..] == paths && companions[0..] == companions;
    PrependEmpty(Layout(paths, companions, buffer.hb.Length));
    while i < |paths|
      invariant 0 <= i <= |paths| && i <= |companions|
      invariant buffer.Valid() && buffer.hb == old(buffer.hb)
      invariant forall k :: buffer.position <= k < buffer.hb.Length ==> buffer.hb[k] == old(buffer.hb[k])
      invariant Prepend(buffer.hb[..buffer.position], Layout(paths[i..], companions[i..], buffer.Remaining()))
             == Layout(paths, companions, buffer.hb.Length)
    {
      ghost var written := buffer.hb[..buffer.position];
      LayoutStep(paths, companions, i, buffer.Remaining());
      var overflow := buffer.Put(paths[i]);
      if overflow {
        return Some(BufferOverflow);
      }
      if i >= |companions| {
        return Some(IndexOutOfBounds);
      }
      overflow := buffer.Put(companions[i]);
      if overflow {
        return Some(BufferOverflow);
      }
      ConcatAssoc(written, paths[i], companions[i]);
      PrependAssoc(written, paths[i] + companions[i], Layout(paths[i + 1..], companions[i + 1..], buffer.Remaining()));
      i := i + 1;
    }
    return None;
  }

  /** Both builders: allocate `size() * perFile` bytes, write the entries, return the array. */
  method FillManifest(paths: seq<seq<byte>>, companions: seq<seq<byte>>, perFile: int)
    returns (r: Result<array<byte>, Fault>)
    ensures r.Err? <==> BufferManifest(paths, companions, perFile).Err?
    ensures r.Err? ==> r.error == BufferManifest(paths, companions, perFile).error
    ensures r.Ok? ==> fresh(r.value) && r.value[..] == BufferManifest(paths, companions, perFile).value
  {
    var capacity := Int32(|paths| * perFile);
    if capacity < 0 {
      return Err(IllegalArgument);
    }
    var buffer := new ByteBuffer.Allocate(capacity);
    var fault := WriteEntries(buffer, paths, companions);
    if fault.Some? {
      return Err(fault.value);
    }
    assert buffer.hb[..] == buffer.hb[..buffer.position] + Zeros(capacity - buffer.position);
    r := Ok(buffer.hb);
  }

  /** `createManifestWithInlineDVs`: each path followed by its DV's serialized bitmap, 1000 bytes
      of buffer per data file. */
  method CreateManifestWithInlineDvs(dataFiles: seq<seq<byte>>, dvs: seq<DeleteVector>)
    returns (r: Result<array<byte>, Fault>)
    ensures r.Err? <==> BufferManifest(dataFiles, Bitmaps(dvs), 1000).Err?
    ensures r.Err? ==> r.error == BufferManifest(dataFiles, Bitmaps(dvs), 1000).error
    ensures r.Ok? ==> fresh(r.value) && r.value[..] == BufferManifest(dataFiles, Bitmaps(dvs), 1000).value
  {
    r := FillManifest(dataFiles, Bitmaps(dvs), 1000);
  }

  /** `createManifestWithExternalDVs`: each path followed by the key of its DV file, 500 bytes of
      buffer per data file. */
  method CreateManifestWithExternalDvs(dataFiles: seq<seq<byte>>, dvFiles: seq<seq<byte>>)
    returns (r: Result<array<byte>, Fault>)
    ensures r.Err? <==> BufferManifest(dataFiles, dvFiles, 500).Err?
    ensures r.Err? ==> r.error == BufferManifest(dataFiles, dvFiles, 500).error
    ensures r.Ok? ==> fresh(r.value) && r.value[..] == BufferManifest(dataFiles, dvFiles, 500).value
  {
    r := FillManifest(dataFiles, dvFiles, 500);
  }

  function Bitmaps(dvs: seq<DeleteVector>): (b: seq<seq<byte>>)
    ensures |b| == |dvs| && forall i :: 0 <= i < |dvs| ==> b[i] == dvs[i].serializedBitmap
  {
    seq(|dvs|, i requires 0 <= i < |dvs| => dvs[i].serializedBitmap)
  }

  // ---------------------------------------------------------------------------
  // Properties of the manifests

  /** The writes succeed exactly when every path has a companion and everything fits; they then
      hold exactly the interleaving. A missing companion is reported as such whenever the writes
      before it fit, and a fault with every companion present is an overflow. */
  lemma {:induction false} LayoutCharacterized(paths: seq<seq<byte>>, companions: seq<seq<byte>>, room: nat)
    ensures Layout(paths, companions, room).Ok? <==>
      |companions| >= |paths| && |Interleave(paths, companions)| <= room
    ensures Layout(paths, companions, room).Ok? ==> Layout(paths, companions, room).value == Interleave(paths, companions)
    ensures Layout(paths, companions, room).Err? && |companions| >= |paths| ==>
      Layout(paths, companions, room).error == BufferOverflow
    ensures |companions| < |paths| && |Interleave(paths[..|companions|], companions)| + |paths[|companions|]| <= room ==>
      Layout(paths, companions, room) == Err(IndexOutOfBounds)
    decreases |paths|
  {
    if paths != [] && companions != [] {
      var rest := room - |paths[0]| - |companions[0]|;
      if |paths[0]| + |companions[0]| <= room {
        LayoutCharacterized(paths[1..], companions[1..], rest);
      }
      if |companions| < |paths| {
        assert paths[..|companions|][1..] == paths[1..][..|companions[1..]|];
        assert paths[1..][|companions[1..]|] == paths[|companions|];
        assert Interleave(paths[..|companions|], companions)
            == paths[0] + companions[0] + Interleave(paths[1..][..|companions[1..]|], companions[1..]);
      }
    }
  }

  /** A manifest is exactly `size() * perFile` bytes (wrapped to an `int`), whatever it holds; it
      starts with the interleaved paths and companions and is zero after them. It is produced
      exactly when that product is non-negative, every path has a companion and everything fits. */
  lemma ManifestShape(paths: seq<seq<byte>>, companions: seq<seq<byte>>, perFile: int)
    requires Int32(|paths| * perFile) >= 0
    ensures BufferManifest(paths, companions, perFile).Ok? <==>
      |companions| >= |paths| &&
      |Interleave(paths, companions)| <= Int32(|paths| * perFile)
    ensures BufferManifest(paths, companions, perFile).Ok? ==>
      var m := BufferManifest(paths, companions, perFile).value;
      var content := Interleave(paths, companions);
      && |m| == Int32(|paths| * perFile)
      && m[..|content|] == content
      && forall k :: |content| <= k < |m| ==> m[k] == 0
  {
    LayoutCharacterized(paths, companions, Int32(|paths| * perFile));
  }

  /** Every path and companion of the same lengths: the interleaving is that long per file. */
  lemma {:induction false} InterleaveUniform(paths: seq<seq<byte>>, companions: seq<seq<byte>>, p: nat, c: nat)
    requires |companions| >= |paths|
    requires forall i :: 0 <= i < |paths| ==> |paths[i]| == p && |companions[i]| == c
    ensures |Interleave(paths, companions)| == |paths| * (p + c)
    decreases |paths|
  {
    if paths != [] {
      InterleaveUniform(paths[1..], companions[1..], p, c);
    }
  }

  // ---------------------------------------------------------------------------
  // Names of the objects the benchmark writes

  /** `s3://{bucket}/data/file-%05d.parquet`, the data files of `createTestDataOnS3`. */
  function DataFilePath(bucket: string, i: nat): string
  {
    "s3://" + bucket + "/data/file-" + ZeroPad(i, 5) + ".parquet"
  }

  /** `delete-vectors/dv-%05d.puffin`, the DV files of the external layout. */
  function DvKey(i: nat): string
  {
    "delete-vectors/dv-" + ZeroPad(i, 5) + ".puffin"
  }

  /** The DV file keys, one per delete vector. */
  function DvFiles(n: nat): (keys: seq<string>)
    ensures |keys| == n && forall i :: 0 <= i < n ==> keys[i] == DvKey(i)
  {
    seq(n, i requires 0 <= i < n => DvKey(i))
  }

  /** Distinct files get distinct DV keys, so the external layout reads one object per DV. */
  lemma DvKeyInjective(i: nat, j: nat)
    requires DvKey(i) == DvKey(j)
    ensures i == j
  {
    var a := ZeroPad(i, 5);
    var b := ZeroPad(j, 5);
    assert |a| == |b|;
    assert a == DvKey(i)[18..18 + |a|];
    assert b == DvKey(j)[18..18 + |b|];
  }

  /** Likewise for the data file paths in one bucket. */
  lemma DataFilePathInjective(bucket: string, i: nat, j: nat)
    requires DataFilePath(bucket, i) == DataFilePath(bucket, j)
    ensures i == j
  {
    var a := ZeroPad(i, 5);
    var b := ZeroPad(j, 5);
    var start := 16 + |bucket|;
    assert |a| == |b|;
    assert a == DataFilePath(bucket, i)[start..start + |a|];
    assert b == DataFilePath(bucket, j)[start..start + |b|];
  }

  lemma PathLengths(bucket: string, i: nat)
    requires i < 100_000
    ensures |DataFilePath(bucket, i)| == 29 + |bucket| && |DvKey(i)| == 30
  {
    assert Pow10(5) == 100_000 by { assert Pow10(2) == 100; }
  }

  /** With the benchmark's own names (ASCII bucket, fewer than 100000 files), every data file
      path is `29 + |bucket|` bytes and every DV key 30, so the external manifest is produced
      exactly when the bucket name has at most 441 characters. */
  lemma ExternalManifestFits(bucket: string, paths: seq<seq<byte>>, keys: seq<seq<byte>>)
    requires IsAscii(bucket) && 0 < |paths| < 100_000 && |keys| == |paths|
    requires forall i :: 0 <= i < |paths| ==> |paths[i]| == |DataFilePath(bucket, i)| && |keys[i]| == |DvKey(i)|
    ensures BufferManifest(paths, keys, 500).Ok? <==> |bucket| <= 441
  {
    var n := |paths|;
    forall i | 0 <= i < n ensures |paths[i]| == 29 + |bucket| && |keys[i]| == 30 {
      PathLengths(bucket, i);
    }
    InterleaveUniform(paths, keys, 29 + |bucket|, 30);
    assert Int32(n * 500) == n * 500;
    ManifestShape(paths, keys, 500);
    ScaledCompare(n, 59 + |bucket|, 500);
  }

  lemma ScaledCompare(n: nat, a: nat, b: nat)
    requires n > 0
    ensures n * a <= n * b <==> a <= b
  {
    if a <= b {
      assert n * b == n * a + n * (b - a);
    } else {
      assert n * a == n * b + n * (a - b);
    }
  }

  // ---------------------------------------------------------------------------
  // Request counts

  /** The S3 requests recorded for the two layouts: the inline planner reads one manifest, the
      external one the manifest and one file per delete vector. */
  datatype RequestCounts = RequestCounts(inline: nat, external: nat)

  function S3Requests(numDvs: nat): (c: RequestCounts)
    ensures c.inline == 1
    ensures c.external - c.inline == numDvs
  {
    RequestCounts(1, numDvs + 1)
  }

  /** The external layout's reads name pairwise different objects: the manifest key and the DV
      keys, all distinct, one per request. */
  lemma ExternalReadsDistinct(numDvs: nat)
    ensures forall i, j :: 0 <= i < j < numDvs ==> DvFiles(numDvs)[i] != DvFiles(numDvs)[j]
    ensures forall i :: 0 <= i < numDvs ==> DvFiles(numDvs)[i] != "manifests/external-manifest.avro"
    ensures |DvFiles(numDvs)| + 1 == S3Requests(numDvs).external
  {
    forall i, j | 0 <= i < j < numDvs ensures DvFiles(numDvs)[i] != DvFiles(numDvs)[j] {
      if DvKey(i) == DvKey(j) {
        DvKeyInjective(i, j);
      }
    }
    forall i | 0 <= i < numDvs ensures DvFiles(numDvs)[i] != "manifests/external-manifest.avro" {
      assert DvKey(i)[0] == 'd';
    }
  }

  /** `countS3Operations`: `numFiles + numFiles * 2` in `int` arithmetic. */
  function CountS3Operations(numFiles: int): (r: int)
    ensures IsInt32(r)
    ensures 0 <= numFiles <= 715_827_882 ==> r == 3 * numFiles
  {
    Int32(numFiles + Int32(numFiles * 2))
  }

  /** Three operations per file, wrapped to an `int` as a whole; exactly `3 * numFiles` while that
      fits. */
  lemma CountS3OperationsIsTriple(numFiles: int)
    ensures CountS3Operations(numFiles) == Int32(3 * numFiles)
    ensures 0 <= numFiles <= 715_827_882 ==> CountS3Operations(numFiles) == 3 * numFiles
  {
    Int32AddWrapped(numFiles, numFiles * 2);
  }
}
