/** Data file entries and leaf manifests of the adaptive root/leaf metadata
    tree, their size estimates, and the little-endian binary layout that leaf and
    root manifests are serialized to, together with a decoder for that layout. */
module TreeManifests {
  import opened Results
  import opened Bytes
  import Text
  import opened Seqs

  /** Fixed estimate for an entry's path, statistics and partition data. */
  const EntryBaseSize := 200

  /** A data file entry; `filePath` is the UTF-8 encoding of the path. */
  datatype DataFileEntry = DataFileEntry(
    fileId: int,
    filePath: seq<byte>,
    recordCount: int,
    fileSizeBytes: int,
    partitionValues: map<string, string>,
    mdv: Option<seq<byte>>)

  /** A leaf manifest: the batch of entries flushed out of the root at once. */
  datatype LeafManifest = LeafManifest(manifestId: int, entries: seq<DataFileEntry>, filePath: seq<byte>)

  /** The delete-vector payload an entry carries: none when the MDV is missing or empty. */
  function MdvBytes(e: DataFileEntry): seq<byte>
  {
    if e.mdv.Some? then e.mdv.value else []
  }

  /** Estimated serialized size of one entry. */
  function EntrySize(e: DataFileEntry): nat
  {
    EntryBaseSize + |MdvBytes(e)|
  }

  function SumSizes(es: seq<DataFileEntry>): nat
  {
    if es == [] then 0 else SumSizes(es[..|es| - 1]) + EntrySize(es[|es| - 1])
  }

  /** Total number of delete-vector bytes carried by a list of entries. */
  function TotalMdvBytes(es: seq<DataFileEntry>): nat
  {
    if es == [] then 0 else |MdvBytes(es[0])| + TotalMdvBytes(es[1..])
  }

  /** `LeafManifest.size_bytes`: the sum of its entries' estimated sizes. */
  function LeafSize(leaf: LeafManifest): (n: nat)
    ensures n == EntryBaseSize * |leaf.entries| + TotalMdvBytes(leaf.entries)
  {
    SumSizesFormula(leaf.entries);
    SumSizes(leaf.entries)
  }

  lemma {:induction false} SumSizesAppend(a: seq<DataFileEntry>, b: seq<DataFileEntry>)
    ensures SumSizes(a + b) == SumSizes(a) + SumSizes(b)
    decreases |b|
  {
    if b == [] {
      assert a + b == a;
    } else {
      assert (a + b)[..|a + b| - 1] == a + b[..|b| - 1];
      SumSizesAppend(a, b[..|b| - 1]);
    }
  }

  lemma {:induction false} TotalMdvBytesAppend(a: seq<DataFileEntry>, b: seq<DataFileEntry>)
    ensures TotalMdvBytes(a + b) == TotalMdvBytes(a) + TotalMdvBytes(b)
  {
    if a != [] {
      assert (a + b)[1..] == a[1..] + b;
      TotalMdvBytesAppend(a[1..], b);
    } else {
      assert a + b == b;
    }
  }

  /** A list of entries is estimated at 200 bytes per entry plus every delete-vector byte it carries. */
  lemma {:induction false} SumSizesFormula(es: seq<DataFileEntry>)
    ensures SumSizes(es) == EntryBaseSize * |es| + TotalMdvBytes(es)
  {
    if es != [] {
      var init := es[..|es| - 1];
      SumSizesFormula(init);
      TotalMdvBytesAppend(init, [es[|es| - 1]]);
      assert init + [es[|es| - 1]] == es;
      assert TotalMdvBytes([es[|es| - 1]]) == |MdvBytes(es[|es| - 1])| by {
        assert [es[|es| - 1]][1..] == [];
      }
    }
  }

  /** `f"metadata/manifest-{leaf_id}.avro"`, UTF-8 encoded. */
  function LeafPathText(id: nat): string
  {
    "metadata/manifest-" + Text.Decimal(id) + ".avro"
  }

  function LeafPath(id: nat): seq<byte>
  {
    Text.DigitsAreAscii(Text.Decimal(id));
    Ascii(LeafPathText(id))
  }

  // ---------------------------------------------------------------------------
  // Binary layout

  function LeafMagic(): seq<byte> { Ascii("ICEBERG_V4_LEAF") }

  function RootMagic(): seq<byte> { Ascii("ICEBERG_V4_ROOT") }

  /** Every field of the entry fits the width `struct.pack` writes it with. */
  predicate EntryEncodable(e: DataFileEntry)
  {
    && |e.filePath| < U16Limit
    && 0 <= e.recordCount < U64Limit
    && 0 <= e.fileSizeBytes < U64Limit
    && |MdvBytes(e)| < U32Limit
  }

  /** An entry is encodable exactly when each of its four `struct.pack` calls succeeds, so the
      layout fails precisely where Python raises `struct.error`. */
  lemma EncodableIffPackable(e: DataFileEntry)
    ensures EntryEncodable(e) <==>
      && PackUnsigned(|e.filePath|, 2).Ok?
      && PackUnsigned(e.recordCount, 8).Ok?
      && PackUnsigned(e.fileSizeBytes, 8).Ok?
      && PackUnsigned(|MdvBytes(e)|, 4).Ok?
  {
    Pow256Widths();
  }

  predicate AllEncodable(es: seq<DataFileEntry>)
  {
    forall i :: 0 <= i < |es| ==> EntryEncodable(es[i])
  }

  /** u16 path length, path, u64 record count, u64 file size, u32 MDV length, MDV bytes. */
  function EncodeEntry(e: DataFileEntry): (b: seq<byte>)
    requires EntryEncodable(e)
    ensures |b| == 22 + |e.filePath| + |MdvBytes(e)|
  {
    U16(|e.filePath|) + e.filePath + U64(e.recordCount) + U64(e.fileSizeBytes)
      + U32(|MdvBytes(e)|) + MdvBytes(e)
  }

  function EncodeEntries(es: seq<DataFileEntry>): seq<byte>
    requires AllEncodable(es)
  {
    if es == [] then [] else EncodeEntries(es[..|es| - 1]) + EncodeEntry(es[|es| - 1])
  }

  lemma {:induction false} EncodeEntriesAppend(a: seq<DataFileEntry>, b: seq<DataFileEntry>)
    requires AllEncodable(a) && AllEncodable(b)
    ensures AllEncodable(a + b) && EncodeEntries(a + b) == EncodeEntries(a) + EncodeEntries(b)
    decreases |b|
  {
    if b == [] {
      assert a + b == a;
    } else {
      var init, last := b[..|b| - 1], b[|b| - 1];
      assert a + b == (a + init) + [last] && (a + b)[..|a + b| - 1] == a + init;
      EncodeEntriesAppend(a, init);
      var x, y, z := EncodeEntries(a), EncodeEntries(init), EncodeEntry(last);
      assert EncodeEntries(a + b) == (x + y) + z;
      assert EncodeEntries(b) == y + z;
      ConcatAssoc(x, y, z);
    }
  }

  /** The bytes `LeafManifest.serialize` produces, or the `struct.error` it raises. */
  function LeafEncoding(leaf: LeafManifest): Result<seq<byte>, PackError>
  {
    if |leaf.entries| < U32Limit && AllEncodable(leaf.entries) then
      Ok(LeafMagic() + U32(|leaf.entries|) + EncodeEntries(leaf.entries))
    else Err(StructError)
  }

  /** A root's reference to a leaf: u16 path length, path, u32 entry count. */
  predicate LeafRefEncodable(leaf: LeafManifest)
  {
    |leaf.filePath| < U16Limit && |leaf.entries| < U32Limit
  }

  predicate AllLeafRefsEncodable(leaves: seq<LeafManifest>)
  {
    forall i :: 0 <= i < |leaves| ==> LeafRefEncodable(leaves[i])
  }

  function EncodeLeafRef(leaf: LeafManifest): (b: seq<byte>)
    requires LeafRefEncodable(leaf)
  {
    U16(|leaf.filePath|) + leaf.filePath + U32(|leaf.entries|)
  }

  function EncodeLeafRefs(leaves: seq<LeafManifest>): seq<byte>
    requires AllLeafRefsEncodable(leaves)
  {
    if leaves == [] then [] else EncodeLeafRefs(leaves[..|leaves| - 1]) + EncodeLeafRef(leaves[|leaves| - 1])
  }

  lemma {:induction false} EncodeLeafRefsAppend(a: seq<LeafManifest>, b: seq<LeafManifest>)
    requires AllLeafRefsEncodable(a) && AllLeafRefsEncodable(b)
    ensures AllLeafRefsEncodable(a + b) && EncodeLeafRefs(a + b) == EncodeLeafRefs(a) + EncodeLeafRefs(b)
    decreases |b|
  {
    if b == [] {
      assert a + b == a;
    } else {
      var init, last := b[..|b| - 1], b[|b| - 1];
      assert a + b == (a + init) + [last] && (a + b)[..|a + b| - 1] == a + init;
      EncodeLeafRefsAppend(a, init);
      var x, y, z := EncodeLeafRefs(a), EncodeLeafRefs(init), EncodeLeafRef(last);
      assert EncodeLeafRefs(a + b) == (x + y) + z;
      assert EncodeLeafRefs(b) == y + z;
      ConcatAssoc(x, y, z);
    }
  }

  /** The bytes `RootManifest.serialize` produces, or the `struct.error` it raises. */
  function RootEncoding(inlineEntries: seq<DataFileEntry>, leaves: seq<LeafManifest>): Result<seq<byte>, PackError>
  {
    if |inlineEntries| < U32Limit && AllEncodable(inlineEntries)
       && |leaves| < U32Limit && AllLeafRefsEncodable(leaves)
    then
      Ok(RootMagic() + U32(1) + U32(|inlineEntries|) + EncodeEntries(inlineEntries)
         + U32(|leaves|) + EncodeLeafRefs(leaves))
    else Err(StructError)
  }

  /** Appends one entry in the leaf layout to `data`; an out-of-range field fails as `struct.pack` does. */
  method AppendEntry(data: seq<byte>, e: DataFileEntry) returns (r: Result<seq<byte>, PackError>)
    ensures r == if EntryEncodable(e) then Ok(data + EncodeEntry(e)) else Err(StructError)
  {
    if |e.filePath| >= U16Limit { return Err(StructError); }
    var out := data + U16(|e.filePath|) + e.filePath;
    if !(0 <= e.recordCount < U64Limit) { return Err(StructError); }
    out := out + U64(e.recordCount);
    if !(0 <= e.fileSizeBytes < U64Limit) { return Err(StructError); }
    out := out + U64(e.fileSizeBytes);
    var mdv := MdvBytes(e);
    if |mdv| >= U32Limit { return Err(StructError); }
    out := out + U32(|mdv|) + mdv;
    assert out == data + EncodeEntry(e);
    return Ok(out);
  }

  lemma EncodePrefixStep(es: seq<DataFileEntry>, i: nat)
    requires i < |es| && AllEncodable(es[..i]) && EntryEncodable(es[i])
    ensures AllEncodable(es[..i + 1])
    ensures EncodeEntries(es[..i + 1]) == EncodeEntries(es[..i]) + EncodeEntry(es[i])
  {
    assert es[..i + 1][..i] == es[..i];
  }

  /** Appends every entry in turn to `data`, stopping at the first that cannot be packed. */
  method AppendEntries(data: seq<byte>, entries: seq<DataFileEntry>) returns (r: Result<seq<byte>, PackError>)
    ensures r == if AllEncodable(entries) then Ok(data + EncodeEntries(entries)) else Err(StructError)
  {
    var out := data;
    var i := 0;
    while i < |entries|
      invariant 0 <= i <= |entries|
      invariant AllEncodable(entries[..i])
      invariant out == data + EncodeEntries(entries[..i])
    {
      var next := AppendEntry(out, entries[i]);
      if next.Err? {
        assert !EntryEncodable(entries[i]);
        return Err(StructError);
      }
      EncodePrefixStep(entries, i);
      ConcatAssoc(data, EncodeEntries(entries[..i]), EncodeEntry(entries[i]));
      out := next.value;
      i := i + 1;
    }
    assert entries[..i] == entries;
    return Ok(out);
  }

  /** Appends each leaf's reference (u16 path length, path, u32 entry count) to `data`. */
  method AppendLeafRefs(data: seq<byte>, leaves: seq<LeafManifest>) returns (r: Result<seq<byte>, PackError>)
    ensures r == if AllLeafRefsEncodable(leaves) then Ok(data + EncodeLeafRefs(leaves)) else Err(StructError)
  {
    var out := data;
    var k := 0;
    while k < |leaves|
      invariant 0 <= k <= |leaves|
      invariant AllLeafRefsEncodable(leaves[..k])
      invariant out == data + EncodeLeafRefs(leaves[..k])
    {
      var leaf := leaves[k];
      if |leaf.filePath| >= U16Limit || |leaf.entries| >= U32Limit {
        assert !LeafRefEncodable(leaves[k]);
        return Err(StructError);
      }
      assert leaves[..k + 1][..k] == leaves[..k];
      ConcatAssoc(data, EncodeLeafRefs(leaves[..k]), EncodeLeafRef(leaf));
      out := out + U16(|leaf.filePath|) + leaf.filePath + U32(|leaf.entries|);
      k := k + 1;
    }
    assert leaves[..k] == leaves;
    return Ok(out);
  }

  /** `LeafManifest.serialize`: magic, u32 entry count, then each entry in turn. */
  method SerializeLeaf(leaf: LeafManifest) returns (r: Result<seq<byte>, PackError>)
    ensures r == LeafEncoding(leaf)
  {
    if |leaf.entries| >= U32Limit { return Err(StructError); }
    r := AppendEntries(LeafMagic() + U32(|leaf.entries|), leaf.entries);
  }

  // ---------------------------------------------------------------------------
  // Decoding: the partner that reads the layout back.

  /** What the layout keeps of an entry (the id and the partition values are not written). */
  datatype EntryView = EntryView(path: seq<byte>, recordCount: nat, fileSizeBytes: nat, mdv: seq<byte>)

  datatype LeafRefView = LeafRefView(path: seq<byte>, entryCount: nat)

  datatype RootView = RootView(version: nat, inlineEntries: seq<EntryView>, leafRefs: seq<LeafRefView>)

  function View(e: DataFileEntry): EntryView
    requires EntryEncodable(e)
  {
    EntryView(e.filePath, e.recordCount, e.fileSizeBytes, MdvBytes(e))
  }

  function Views(es: seq<DataFileEntry>): (vs: seq<EntryView>)
    requires AllEncodable(es)
    ensures |vs| == |es|
  {
    seq(|es|, i requires 0 <= i < |es| => View(es[i]))
  }

  function RefView(leaf: LeafManifest): LeafRefView
  {
    LeafRefView(leaf.filePath, |leaf.entries|)
  }

  function RefViews(leaves: seq<LeafManifest>): (vs: seq<LeafRefView>)
    ensures |vs| == |leaves|
  {
    seq(|leaves|, i requires 0 <= i < |leaves| => RefView(leaves[i]))
  }

  function ParseEntry(s: seq<byte>): Option<(EntryView, seq<byte>)>
  {
    if |s| < 2 then None
    else
      var n := FromLittleEndian(s[..2]);
      if |s| < 22 + n then None
      else
        var m := FromLittleEndian(s[18 + n..22 + n]);
        if |s| < 22 + n + m then None
        else
          Some((EntryView(s[2..2 + n], FromLittleEndian(s[2 + n..10 + n]),
                          FromLittleEndian(s[10 + n..18 + n]), s[22 + n..22 + n + m]),
                s[22 + n + m..]))
  }

  function ParseEntries(s: seq<byte>, count: nat): Option<(seq<EntryView>, seq<byte>)>
  {
    if count == 0 then Some(([], s))
    else match ParseEntry(s)
      case None => None
      case Some((v, rest)) =>
        match ParseEntries(rest, count - 1)
        case None => None
        case Some((vs, rest')) => Some(([v] + vs, rest'))
  }

  function ParseLeafRef(s: seq<byte>): Option<(LeafRefView, seq<byte>)>
  {
    if |s| < 2 then None
    else
      var n := FromLittleEndian(s[..2]);
      if |s| < 6 + n then None
      else Some((LeafRefView(s[2..2 + n], FromLittleEndian(s[2 + n..6 + n])), s[6 + n..]))
  }

  function ParseLeafRefs(s: seq<byte>, count: nat): Option<(seq<LeafRefView>, seq<byte>)>
  {
    if count == 0 then Some(([], s))
    else match ParseLeafRef(s)
      case None => None
      case Some((v, rest)) =>
        match ParseLeafRefs(rest, count - 1)
        case None => None
        case Some((vs, rest')) => Some(([v] + vs, rest'))
  }

  /** Reads a serialized leaf manifest: magic, u32 count, that many entries, nothing after. */
  function ParseLeaf(s: seq<byte>): Option<seq<EntryView>>
  {
    if |s| < 19 || s[..15] != LeafMagic() then None
    else match ParseEntries(s[19..], FromLittleEndian(s[15..19]))
      case Some((vs, rest)) => if rest == [] then Some(vs) else None
      case None => None
  }

  /** Reads a serialized root manifest: magic, u32 version, inline entries, leaf references. */
  function ParseRoot(s: seq<byte>): Option<RootView>
  {
    if |s| < 23 || s[..15] != RootMagic() then None
    else match ParseEntries(s[23..], FromLittleEndian(s[19..23]))
      case None => None
      case Some((vs, rest)) =>
        if |rest| < 4 then None
        else match ParseLeafRefs(rest[4..], FromLittleEndian(rest[..4]))
          case Some((refs, rest')) =>
            if rest' == [] then Some(RootView(FromLittleEndian(s[15..19]), vs, refs)) else None
          case None => None
  }

  lemma ParseEntryEncoded(e: DataFileEntry, rest: seq<byte>)
    requires EntryEncodable(e)
    ensures ParseEntry(EncodeEntry(e) + rest) == Some((View(e), rest))
  {
    var p, m := e.filePath, MdvBytes(e);
    var n := |p|;
    var a, b, c, d := U16(n), U64(e.recordCount), U64(e.fileSizeBytes), U32(|m|);
    var s := EncodeEntry(e) + rest;
    assert s == a + p + b + c + d + m + rest;
    assert s[..2] == a;
    assert s[2..2 + n] == p;
    assert s[2 + n..10 + n] == b;
    assert s[10 + n..18 + n] == c;
    assert s[18 + n..22 + n] == d;
    assert s[22 + n..22 + n + |m|] == m;
    assert s[22 + n + |m|..] == rest;
  }

  lemma ViewsCons(es: seq<DataFileEntry>)
    requires AllEncodable(es) && es != []
    ensures Views(es) == [View(es[0])] + Views(es[1..])
  {
  }

  lemma {:induction false} ParseEntriesEncoded(es: seq<DataFileEntry>, rest: seq<byte>)
    requires AllEncodable(es)
    ensures ParseEntries(EncodeEntries(es) + rest, |es|) == Some((Views(es), rest))
  {
    if es != [] {
      var tail := EncodeEntries(es[1..]) + rest;
      EncodedHead(es, rest);
      ParseEntriesEncoded(es[1..], rest);
      ParseEntriesStep(EncodeEntries(es) + rest, |es|, View(es[0]), tail, Views(es[1..]), rest);
      ViewsCons(es);
    } else {
      assert EncodeEntries(es) + rest == rest;
    }
  }

  /** The first entry of an encoded list parses back, leaving the encoding of the others. */
  lemma EncodedHead(es: seq<DataFileEntry>, rest: seq<byte>)
    requires AllEncodable(es) && es != []
    ensures ParseEntry(EncodeEntries(es) + rest) == Some((View(es[0]), EncodeEntries(es[1..]) + rest))
  {
    HeadEncoding(es);
    ConcatAssoc(EncodeEntry(es[0]), EncodeEntries(es[1..]), rest);
    ParseEntryEncoded(es[0], EncodeEntries(es[1..]) + rest);
  }

  lemma ParseEntriesStep(x: seq<byte>, count: nat, v: EntryView, tail: seq<byte>, vs: seq<EntryView>, rest: seq<byte>)
    requires count > 0 && ParseEntry(x) == Some((v, tail)) && ParseEntries(tail, count - 1) == Some((vs, rest))
    ensures ParseEntries(x, count) == Some(([v] + vs, rest))
  {
  }

  lemma HeadEncoding(es: seq<DataFileEntry>)
    requires AllEncodable(es) && es != []
    ensures EncodeEntries(es) == EncodeEntry(es[0]) + EncodeEntries(es[1..])
  {
    EncodeEntriesAppend([es[0]], es[1..]);
    assert [es[0]] + es[1..] == es;
    assert EncodeEntries([es[0]]) == EncodeEntry(es[0]) by {
      assert [es[0]][..0] == [];
    }
  }

  lemma ParseLeafRefEncoded(leaf: LeafManifest, rest: seq<byte>)
    requires LeafRefEncodable(leaf)
    ensures ParseLeafRef(EncodeLeafRef(leaf) + rest) == Some((RefView(leaf), rest))
  {
    var p := leaf.filePath;
    var n := |p|;
    var a, c := U16(n), U32(|leaf.entries|);
    var s := EncodeLeafRef(leaf) + rest;
    assert s == a + p + c + rest;
    assert s[..2] == a;
    assert s[2..2 + n] == p;
    assert s[2 + n..6 + n] == c;
    assert s[6 + n..] == rest;
  }

  lemma RefViewsCons(leaves: seq<LeafManifest>)
    requires leaves != []
    ensures RefViews(leaves) == [RefView(leaves[0])] + RefViews(leaves[1..])
  {
  }

  lemma {:induction false} ParseLeafRefsEncoded(leaves: seq<LeafManifest>, rest: seq<byte>)
    requires AllLeafRefsEncodable(leaves)
    ensures ParseLeafRefs(EncodeLeafRefs(leaves) + rest, |leaves|) == Some((RefViews(leaves), rest))
  {
    if leaves != [] {
      var tail := EncodeLeafRefs(leaves[1..]) + rest;
      EncodedHeadRef(leaves, rest);
      ParseLeafRefsEncoded(leaves[1..], rest);
      ParseLeafRefsStep(EncodeLeafRefs(leaves) + rest, |leaves|, RefView(leaves[0]), tail, RefViews(leaves[1..]), rest);
      RefViewsCons(leaves);
    } else {
      assert EncodeLeafRefs(leaves) + rest == rest;
    }
  }

  lemma EncodedHeadRef(leaves: seq<LeafManifest>, rest: seq<byte>)
    requires AllLeafRefsEncodable(leaves) && leaves != []
    ensures ParseLeafRef(EncodeLeafRefs(leaves) + rest) == Some((RefView(leaves[0]), EncodeLeafRefs(leaves[1..]) + rest))
  {
    HeadLeafRefEncoding(leaves);
    ConcatAssoc(EncodeLeafRef(leaves[0]), EncodeLeafRefs(leaves[1..]), rest);
    ParseLeafRefEncoded(leaves[0], EncodeLeafRefs(leaves[1..]) + rest);
  }

  lemma ParseLeafRefsStep(x: seq<byte>, count: nat, v: LeafRefView, tail: seq<byte>, vs: seq<LeafRefView>, rest: seq<byte>)
    requires count > 0 && ParseLeafRef(x) == Some((v, tail)) && ParseLeafRefs(tail, count - 1) == Some((vs, rest))
    ensures ParseLeafRefs(x, count) == Some(([v] + vs, rest))
  {
  }

  lemma HeadLeafRefEncoding(leaves: seq<LeafManifest>)
    requires AllLeafRefsEncodable(leaves) && leaves != []
    ensures EncodeLeafRefs(leaves) == EncodeLeafRef(leaves[0]) + EncodeLeafRefs(leaves[1..])
  {
    EncodeLeafRefsAppend([leaves[0]], leaves[1..]);
    assert [leaves[0]] + leaves[1..] == leaves;
    assert EncodeLeafRefs([leaves[0]]) == EncodeLeafRef(leaves[0]) by {
      assert [leaves[0]][..0] == [];
    }
  }

  lemma HeaderSlices(magic: seq<byte>, a: seq<byte>, b: seq<byte>, rest: seq<byte>)
    requires |magic| == 15 && |a| == 4 && |b| == 4
    ensures var s := magic + a + b + rest;
      s[..15] == magic && s[15..19] == a && s[19..23] == b && s[23..] == rest
  {
  }

  /** Round trip: a serialized leaf reads back as its entries' paths, counts, sizes and MDVs, in order. */
  lemma LeafRoundTrip(leaf: LeafManifest)
    requires LeafEncoding(leaf).Ok?
    ensures ParseLeaf(LeafEncoding(leaf).value) == Some(Views(leaf.entries))
  {
    var es := leaf.entries;
    var body := EncodeEntries(es);
    var s := LeafMagic() + U32(|es|) + body;
    assert s[..15] == LeafMagic() && s[15..19] == U32(|es|) && s[19..] == body + [];
    ParseEntriesEncoded(es, []);
  }

  /** Round trip: a serialized root reads back as version 1, its inline entries and its leaf references. */
  lemma RootRoundTrip(inlineEntries: seq<DataFileEntry>, leaves: seq<LeafManifest>)
    requires RootEncoding(inlineEntries, leaves).Ok?
    ensures ParseRoot(RootEncoding(inlineEntries, leaves).value)
         == Some(RootView(1, Views(inlineEntries), RefViews(leaves)))
  {
    var head := RootMagic() + U32(1) + U32(|inlineEntries|);
    var body := EncodeEntries(inlineEntries);
    var count, refs := U32(|leaves|), EncodeLeafRefs(leaves);
    var tail := count + refs;
    ConcatAssoc(head + body, count, refs);
    ConcatAssoc(head, body, tail);
    HeaderSlices(RootMagic(), U32(1), U32(|inlineEntries|), body + tail);
    ParseEntriesEncoded(inlineEntries, tail);
    assert tail[..4] == count && tail[4..] == refs + [];
    ParseLeafRefsEncoded(leaves, []);
  }

  /** Total number of path bytes in a list of entries. */
  function TotalPathBytes(es: seq<DataFileEntry>): nat
  {
    if es == [] then 0 else TotalPathBytes(es[..|es| - 1]) + |es[|es| - 1].filePath|
  }

  /** The size estimate and the real layout differ only in what they charge for the fixed part of
      an entry: the layout spends 22 bytes plus the path where the estimate spends 200. So the
      encoded entries are shorter than their estimate exactly when their paths average fewer than
      178 bytes. */
  lemma {:induction false} EncodedLengthVersusEstimate(es: seq<DataFileEntry>)
    requires AllEncodable(es)
    ensures |EncodeEntries(es)| + (EntryBaseSize - 22) * |es| == SumSizes(es) + TotalPathBytes(es)
  {
    if es != [] {
      var init := es[..|es| - 1];
      assert AllEncodable(init) by {
        forall i | 0 <= i < |init| ensures EntryEncodable(init[i]) {
          assert init[i] == es[i];
        }
      }
      EncodedLengthVersusEstimate(init);
    }
  }
}
