/** The column-families benchmark (ColumnFamiliesBenchmark.java): a table's columns split into
    contiguous families, each row group written as one Parquet file per family, the schemas of
    those files, and how a read splits an `s3://` path into bucket and key. */
module ColumnFamilies {
  import opened Results
  import opened Text
  import opened JavaInt
  import opened Seqs

  // ---------------------------------------------------------------------------
  // Schemas

  datatype FieldType = LongType | DoubleType

  /** A required field of an Iceberg schema. */
  datatype Field = Field(id: int, name: string, fieldType: FieldType)

  const IdField: Field := Field(1, "id", LongType)

  /** Column `i`'s field: `col_i` with field id `i + 2`. */
  function DataField(i: nat): Field
  {
    Field(i + 2, "col_" + Decimal(i), DoubleType)
  }

  /** The data fields for the columns `lo` up to `hi`, in order. */
  function DataFields(lo: nat, hi: int): (fs: seq<Field>)
    ensures |fs| == if hi <= lo then 0 else hi - lo
    ensures forall j :: 0 <= j < |fs| ==> fs[j] == DataField(lo + j)
    decreases hi - lo
  {
    if hi <= lo then [] else DataFields(lo, hi - 1) + [DataField(hi - 1)]
  }

  /** The fields of `createSchema(numColumns)`: `id`, then a field per column below
      `numColumns - 1`. */
  function SchemaFields(numColumns: int): seq<Field>
  {
    [IdField] + DataFields(0, numColumns - 1)
  }

  /** The fields of `createFamilySchema(startCol, endCol)`: `id` when the family starts at column
      0, then the columns of the range except column 0. */
  function FamilyFields(startCol: int, endCol: int): seq<Field>
  {
    (if startCol == 0 then [IdField] else []) + DataFields(if startCol > 1 then startCol else 1, endCol)
  }

  /** `createSchema`: the loop that appends one field per column. */
  method CreateSchema(numColumns: int) returns (fields: seq<Field>)
    ensures fields == SchemaFields(numColumns)
  {
    fields := [IdField];
    var i := 0;
    while i < numColumns - 1
      invariant 0 <= i && (i <= numColumns - 1 || i == 0)
      invariant fields == [IdField] + DataFields(0, i)
    {
      fields := fields + [DataField(i)];
      i := i + 1;
    }
  }

  /** `createFamilySchema`: `id` if the family starts at column 0, then the loop over the range
      that skips column 0. */
  method CreateFamilySchema(startCol: int, endCol: int) returns (fields: seq<Field>)
    ensures fields == FamilyFields(startCol, endCol)
  {
    fields := [];
    if startCol == 0 {
      fields := fields + [IdField];
    }
    ghost var head := fields;
    var i := startCol;
    while i < endCol
      invariant startCol <= i && (i <= endCol || i == startCol)
      invariant fields == head + DataFields(if startCol > 1 then startCol else 1, if i > 1 then i else 1)
    {
      if i > 0 {
        fields := fields + [DataField(i)];
      }
      i := i + 1;
    }
  }

  function FieldIds(fs: seq<Field>): (ids: seq<int>)
    ensures |ids| == |fs| && forall j :: 0 <= j < |fs| ==> ids[j] == fs[j].id
  {
    seq(|fs|, j requires 0 <= j < |fs| => fs[j].id)
  }

  /** `createSchema(n)` has `n` fields (one when `n < 1`): `id` first and then `col_0`,
      `col_1`, ..., with the field ids 1, 2, ... in order; so the ids are distinct. */
  lemma SchemaShape(numColumns: int)
    ensures |SchemaFields(numColumns)| == if numColumns >= 1 then numColumns else 1
    ensures SchemaFields(numColumns)[0] == IdField
    ensures forall j :: 1 <= j < |SchemaFields(numColumns)| ==> SchemaFields(numColumns)[j] == DataField(j - 1)
    ensures forall j :: 0 <= j < |SchemaFields(numColumns)| ==> FieldIds(SchemaFields(numColumns))[j] == j + 1
  {
  }

  /** `DataFields(lo, hi)` holds column `i`'s field exactly for `lo <= i < hi`, and never `id`. */
  lemma DataFieldsMembership(lo: nat, hi: int, i: nat)
    ensures DataField(i) in DataFields(lo, hi) <==> lo <= i < hi
    ensures IdField !in DataFields(lo, hi)
  {
    var fs := DataFields(lo, hi);
    if DataField(i) in fs {
      var j :| 0 <= j < |fs| && fs[j] == DataField(i);
      DataFieldInjective(i, lo + j);
    }
    if lo <= i < hi {
      assert fs[i - lo] == DataField(i);
    }
  }

  /** A family schema has `id` exactly when its range starts at column 0, and `col_i` exactly for
      the columns `i > 0` of its range: `col_0` is in no family schema. */
  lemma FamilyFieldsContents(startCol: int, endCol: int, i: nat)
    ensures IdField in FamilyFields(startCol, endCol) <==> startCol == 0
    ensures DataField(i) in FamilyFields(startCol, endCol) <==> i > 0 && startCol <= i < endCol
  {
    var lo := if startCol > 1 then startCol else 1;
    var head: seq<Field> := if startCol == 0 then [IdField] else [];
    DataFieldsMembership(lo, endCol, i);
    assert DataField(i) !in head;
    assert FamilyFields(startCol, endCol) == head + DataFields(lo, endCol);
  }

  lemma DataFieldInjective(i: nat, j: nat)
    requires DataField(i) == DataField(j)
    ensures i == j
  {
  }

  // ---------------------------------------------------------------------------
  // Family ranges

  /** `numColumns >= 1000 ? 5 : 2`. */
  function NumFamilies(numColumns: int): (n: nat)
    ensures n == 2 || n == 5
    ensures n == 5 <==> numColumns >= 1000
  {
    if numColumns >= 1000 then 5 else 2
  }

  /** `colsPerFamily = numColumns / numFamilies` (truncating). */
  function ColsPerFamily(numColumns: nat, numFamilies: int): (cpf: nat)
    requires numFamilies > 0
  {
    JavaDiv(numColumns, numFamilies)
  }

  function FamilyStart(numColumns: nat, numFamilies: int, family: nat): int
    requires numFamilies > 0
  {
    family * ColsPerFamily(numColumns, numFamilies)
  }

  /** The last family runs to `numColumns`; the others are `colsPerFamily` wide. */
  function FamilyEnd(numColumns: nat, numFamilies: int, family: nat): int
    requires numFamilies > 0
  {
    if family == numFamilies - 1 then numColumns else (family + 1) * ColsPerFamily(numColumns, numFamilies)
  }

  lemma MulMonotone(a: nat, b: nat, c: nat)
    requires a <= b
    ensures a * c <= b * c
  {
    assert b * c == a * c + (b - a) * c;
  }

  /** The ranges tile the columns: the first starts at 0, each ends where the next starts, the
      last ends at `numColumns`, and none runs backwards. */
  lemma FamilyRangesContiguous(numColumns: nat, numFamilies: int)
    requires numFamilies > 0
    ensures FamilyStart(numColumns, numFamilies, 0) == 0
    ensures FamilyEnd(numColumns, numFamilies, numFamilies - 1) == numColumns
    ensures forall f: nat :: f < numFamilies - 1 ==>
      FamilyEnd(numColumns, numFamilies, f) == FamilyStart(numColumns, numFamilies, f + 1)
    ensures forall f: nat :: f < numFamilies ==>
      0 <= FamilyStart(numColumns, numFamilies, f) <= FamilyEnd(numColumns, numFamilies, f)
  {
    var cpf := ColsPerFamily(numColumns, numFamilies);
    assert numFamilies * cpf <= numColumns by {
      JavaDivTruncates(numColumns, numFamilies);
    }
    forall f: nat | f < numFamilies
      ensures 0 <= FamilyStart(numColumns, numFamilies, f) <= FamilyEnd(numColumns, numFamilies, f)
    {
      MulMonotone(f, f + 1, cpf);
      MulMonotone(f, numFamilies, cpf);
    }
  }

  /** Column `c` lies in family `c / colsPerFamily`, or in the last family when that is past it
      (or when the families are zero columns wide). */
  lemma FamilyOfColumn(numColumns: nat, numFamilies: int, c: nat) returns (f: nat)
    requires numFamilies > 0 && c < numColumns
    ensures f < numFamilies
    ensures FamilyStart(numColumns, numFamilies, f) <= c < FamilyEnd(numColumns, numFamilies, f)
  {
    var cpf := ColsPerFamily(numColumns, numFamilies);
    var last := numFamilies - 1;
    if cpf == 0 {
      f := last;
      assert FamilyStart(numColumns, numFamilies, f) == f * 0;
    } else {
      f := if c / cpf >= last then last else c / cpf;
      QuotientFamily(c, cpf, f, last, numColumns);
      assert FamilyStart(numColumns, numFamilies, f) == f * cpf;
    }
  }

  /** The family index the column's quotient picks, capped at the last family, brackets it. */
  lemma QuotientFamily(c: nat, cpf: nat, f: nat, last: nat, numColumns: nat)
    requires cpf > 0 && c < numColumns && f == (if c / cpf >= last then last else c / cpf)
    ensures f * cpf <= c
    ensures f != last ==> c < (f + 1) * cpf
  {
    DivBounds(c, cpf);
    if c / cpf >= last {
      MulMonotone(f, c / cpf, cpf);
    }
  }

  /** The quotient brackets the dividend. */
  lemma DivBounds(c: nat, d: nat)
    requires d > 0
    ensures (c / d) * d <= c < (c / d + 1) * d
  {
    assert c == (c / d) * d + c % d;
    assert (c / d + 1) * d == (c / d) * d + d;
  }

  /** Earlier families end no later than later ones start. */
  lemma FamiliesOrdered(numColumns: nat, numFamilies: int, f: nat, g: nat)
    requires numFamilies > 0 && f < g < numFamilies
    ensures FamilyEnd(numColumns, numFamilies, f) <= FamilyStart(numColumns, numFamilies, g)
  {
    MulMonotone(f + 1, g, ColsPerFamily(numColumns, numFamilies));
  }

  predicate InFamily(numColumns: nat, numFamilies: int, f: nat, c: nat)
    requires numFamilies > 0
  {
    f < numFamilies && FamilyStart(numColumns, numFamilies, f) <= c < FamilyEnd(numColumns, numFamilies, f)
  }

  /** Every column belongs to exactly one family. */
  lemma FamilyRangesPartition(numColumns: nat, numFamilies: int, c: nat)
    requires numFamilies > 0 && c < numColumns
    ensures exists f: nat :: InFamily(numColumns, numFamilies, f, c)
    ensures forall f: nat, g: nat ::
      InFamily(numColumns, numFamilies, f, c) && InFamily(numColumns, numFamilies, g, c) ==> f == g
  {
    var f := FamilyOfColumn(numColumns, numFamilies, c);
    assert InFamily(numColumns, numFamilies, f, c);
    forall f: nat, g: nat | InFamily(numColumns, numFamilies, f, c) && InFamily(numColumns, numFamilies, g, c)
      ensures f == g
    {
      if f < g {
        FamiliesOrdered(numColumns, numFamilies, f, g);
      } else if g < f {
        FamiliesOrdered(numColumns, numFamilies, g, f);
      }
    }
  }

  /** For any column count of at least 2, the family count the benchmark picks gives every
      family at least one column. */
  lemma ChosenFamiliesNonEmpty(numColumns: nat, f: nat)
    requires numColumns >= 2 && f < NumFamilies(numColumns)
    ensures FamilyStart(numColumns, NumFamilies(numColumns), f) < FamilyEnd(numColumns, NumFamilies(numColumns), f)
  {
    var nf := NumFamilies(numColumns);
    var cpf := ColsPerFamily(numColumns, nf);
    assert cpf >= 1;
    FamilyRangesContiguous(numColumns, nf);
    if f == nf - 1 {
      JavaDivTruncates(numColumns, nf);
      MulMonotone(f, nf, cpf);
      assert f * cpf + cpf <= numColumns;
    }
  }

  /** The family schemas together hold `id` and the columns 1 to `numColumns - 1` once each
      (`col_0` in none), while `createSchema` holds `col_0` to `col_{numColumns-2}`: the two
      layouts name the same number of data columns but disagree on `col_0` and the last one. */
  lemma FamilySchemasVersusSingle(numColumns: nat, numFamilies: int, i: nat)
    requires numFamilies > 0 && numColumns >= 2
    ensures DataField(0) in SchemaFields(numColumns)
    ensures forall f: nat :: f < numFamilies ==>
      DataField(0) !in FamilyFields(FamilyStart(numColumns, numFamilies, f), FamilyEnd(numColumns, numFamilies, f))
    ensures DataField(numColumns - 1) !in SchemaFields(numColumns)
    ensures 0 < i < numColumns ==> exists f: nat ::
      f < numFamilies &&
      DataField(i) in FamilyFields(FamilyStart(numColumns, numFamilies, f), FamilyEnd(numColumns, numFamilies, f))
  {
    DataFieldsMembership(0, numColumns - 1, 0);
    forall f: nat | f < numFamilies
      ensures DataField(0) !in FamilyFields(FamilyStart(numColumns, numFamilies, f), FamilyEnd(numColumns, numFamilies, f))
    {
      FamilyFieldsContents(FamilyStart(numColumns, numFamilies, f), FamilyEnd(numColumns, numFamilies, f), 0);
    }
    DataFieldsMembership(0, numColumns - 1, numColumns - 1);
    assert DataField(numColumns - 1) != IdField;
    if 0 < i < numColumns {
      var f := FamilyOfColumn(numColumns, numFamilies, i);
      FamilyFieldsContents(FamilyStart(numColumns, numFamilies, f), FamilyEnd(numColumns, numFamilies, f), i);
    }
  }

  // ---------------------------------------------------------------------------
  // Family files

  /** `s3://{bucket}/column-families/families/rg-%05d-family-%02d.parquet`. */
  function FamilyPath(bucket: string, rowGroup: nat, family: nat): string
  {
    "s3://" + bucket + "/" + FamilyKey(rowGroup, family)
  }

  function FamilyKey(rowGroup: nat, family: nat): string
  {
    "column-families/families/rg-" + ZeroPad(rowGroup, 5) + "-family-" + ZeroPad(family, 2) + ".parquet"
  }

  /** A Parquet file the benchmark writes: its path and its schema. */
  datatype FamilyFile = FamilyFile(path: string, schema: seq<Field>)

  /** A row group: its id and the paths of its family files. */
  datatype ColumnFamilyGroup = ColumnFamilyGroup(rowGroupId: int, families: seq<string>)

  datatype ArithmeticError = DivideByZero

  /** The files of row group `rowGroup`, one per family, with that family's schema. */
  function FamilyFiles(bucket: string, numColumns: nat, numFamilies: int, rowGroup: nat): (fs: seq<FamilyFile>)
    requires numFamilies > 0
    ensures |fs| == numFamilies
  {
    seq(numFamilies, f requires 0 <= f < numFamilies =>
      FamilyFile(FamilyPath(bucket, rowGroup, f),
                 FamilyFields(FamilyStart(numColumns, numFamilies, f), FamilyEnd(numColumns, numFamilies, f))))
  }

  function Paths(fs: seq<FamilyFile>): (ps: seq<string>)
    ensures |ps| == |fs| && forall j :: 0 <= j < |fs| ==> ps[j] == fs[j].path
  {
    seq(|fs|, j requires 0 <= j < |fs| => fs[j].path)
  }

  /** The files of a row group: one per family, none for a negative family count. */
  function RowGroupFiles(bucket: string, numColumns: nat, numFamilies: int, rowGroup: nat): seq<FamilyFile>
  {
    if numFamilies > 0 then FamilyFiles(bucket, numColumns, numFamilies, rowGroup) else []
  }

  /** One round of the inner loop builds file `family` of the row group. */
  lemma FamilyFileAt(bucket: string, numColumns: nat, numFamilies: int, rowGroup: nat, family: nat, cpf: int)
    requires numFamilies > 0 && family < numFamilies && cpf == JavaDiv(numColumns, numFamilies)
    ensures RowGroupFiles(bucket, numColumns, numFamilies, rowGroup)[family] ==
      FamilyFile("s3://" + bucket + "/" + FamilyKey(rowGroup, family),
                 FamilyFields(family * cpf, if family == numFamilies - 1 then numColumns else (family + 1) * cpf))
  {
  }

  lemma PathsAppend(fs: seq<FamilyFile>, f: FamilyFile)
    ensures Paths(fs + [f]) == Paths(fs) + [f.path]
  {
  }

  /** `createColumnFamilyData`: for each row group, one file per family. The files written are
      returned in `written`, row group by row group; a zero family count divides by zero. */
  method CreateColumnFamilyData(bucket: string, numColumns: nat, numRowGroups: int, numFamilies: int)
    returns (r: Result<seq<ColumnFamilyGroup>, ArithmeticError>, written: seq<seq<FamilyFile>>)
    ensures r.Err? <==> numFamilies == 0
    ensures r.Ok? ==> |r.value| == |written| == (if numRowGroups > 0 then numRowGroups else 0)
    ensures r.Ok? ==> forall rg :: 0 <= rg < |written| ==>
      written[rg] == RowGroupFiles(bucket, numColumns, numFamilies, rg) &&
      r.value[rg] == ColumnFamilyGroup(rg, Paths(written[rg]))
  {
    if numFamilies == 0 {
      return Err(DivideByZero), [];
    }
    var colsPerFamily := JavaDiv(numColumns, numFamilies);
    var groups: seq<ColumnFamilyGroup> := [];
    written := [];
    var rowGroup := 0;
    while rowGroup < numRowGroups
      invariant 0 <= rowGroup && (rowGroup <= numRowGroups || rowGroup == 0)
      invariant |groups| == |written| == rowGroup
      invariant forall rg :: 0 <= rg < rowGroup ==>
        written[rg] == RowGroupFiles(bucket, numColumns, numFamilies, rg) &&
        groups[rg] == ColumnFamilyGroup(rg, Paths(written[rg]))
    {
      var files, paths := WriteRowGroup(bucket, numColumns, numFamilies, colsPerFamily, rowGroup);
      groups := groups + [ColumnFamilyGroup(rowGroup, paths)];
      written := written + [files];
      rowGroup := rowGroup + 1;
    }
    r := Ok(groups);
  }

  /** The inner loop of `createColumnFamilyData`: the files of one row group, family by family,
      with their paths in the same order. */
  method WriteRowGroup(bucket: string, numColumns: nat, numFamilies: int, colsPerFamily: int, rowGroup: nat)
    returns (files: seq<FamilyFile>, paths: seq<string>)
    requires numFamilies != 0 && colsPerFamily == JavaDiv(numColumns, numFamilies)
    ensures files == RowGroupFiles(bucket, numColumns, numFamilies, rowGroup)
    ensures paths == Paths(files)
  {
    ghost var expected := RowGroupFiles(bucket, numColumns, numFamilies, rowGroup);
    files := [];
    paths := [];
    var family := 0;
    while family < numFamilies
      invariant 0 <= family && (family <= numFamilies || family == 0)
      invariant family <= |expected| && files == expected[..family] && paths == Paths(files)
    {
      var startCol := family * colsPerFamily;
      var endCol := if family == numFamilies - 1 then numColumns else (family + 1) * colsPerFamily;
      var familySchema := CreateFamilySchema(startCol, endCol);
      var s3Path := "s3://" + bucket + "/" + FamilyKey(rowGroup, family);
      FamilyFileAt(bucket, numColumns, numFamilies, rowGroup, family, colsPerFamily);
      TakeStep(expected, family);
      PathsAppend(files, expected[family]);
      files := files + [FamilyFile(s3Path, familySchema)];
      paths := paths + [s3Path];
      family := family + 1;
    }
    assert files == expected;
  }

  /** `countS3Operations`: `numFiles * 10` in `int` arithmetic. */
  function CountS3Operations(numFiles: int): (r: int)
    ensures IsInt32(r)
    ensures 0 <= numFiles <= 214_748_364 ==> r == 10 * numFiles
  {
    Int32(numFiles * 10)
  }

  // ---------------------------------------------------------------------------
  // Splitting an s3:// path (readParquetFile)

  predicate NoSlash(s: string)
  {
    forall i :: 0 <= i < |s| ==> s[i] != '/'
  }

  /** The pieces between the `/` characters, empty ones included. */
  function SplitAll(s: string): (parts: seq<string>)
    ensures |parts| >= 1
    decreases |s|
  {
    if s == [] then [[]]
    else if s[0] == '/' then [[]] + SplitAll(s[1..])
    else
      var rest := SplitAll(s[1..]);
      [[s[0]] + rest[0]] + rest[1..]
  }

  function DropTrailingEmpty(parts: seq<string>): (r: seq<string>)
    ensures r <= parts
  {
    if parts == [] then []
    else if parts[|parts| - 1] == [] then DropTrailingEmpty(parts[..|parts| - 1])
    else parts
  }

  /** Java's `s.split("/")`: without a `/` the whole string; otherwise the pieces with the
      trailing empty ones removed. */
  function JavaSplit(s: string): seq<string>
  {
    if NoSlash(s) then [s] else DropTrailingEmpty(SplitAll(s))
  }

  predicate OccursAt(s: string, t: string, at: nat)
  {
    at + |t| <= |s| && s[at..at + |t|] == t
  }

  /** `s.indexOf(t, from)`: the first position at or after `from` where `t` occurs, or -1. */
  function IndexFrom(s: string, t: string, from: nat): (r: int)
    ensures r == -1 || (from <= r && OccursAt(s, t, r))
    decreases |s| - from
  {
    if from + |t| > |s| then -1
    else if OccursAt(s, t, from) then from
    else IndexFrom(s, t, from + 1)
  }

  function IndexOf(s: string, t: string): (r: int)
    ensures r == -1 || (0 <= r && OccursAt(s, t, r))
  {
    IndexFrom(s, t, 0)
  }

  /** The GET request `readParquetFile` issues. */
  datatype GetObject = GetObject(bucket: string, key: string)

  /** `readParquetFile`: the bucket is the third piece of the path, the key everything after the
      first occurrence of the bucket name and one more character. A path too short for either
      throws inside the `try`, is logged, and issues no request (`None`). */
  function ReadRequest(s3Path: string): (r: Option<GetObject>)
    ensures r.Some? ==> |JavaSplit(s3Path)| >= 3 && r.value.bucket == JavaSplit(s3Path)[2]
    ensures r.Some? ==> |r.value.key| <= |s3Path| && r.value.key == s3Path[|s3Path| - |r.value.key|..]
  {
    var parts := JavaSplit(s3Path);
    if |parts| < 3 then None
    else
      var bucket := parts[2];
      var begin := IndexOf(s3Path, bucket) + |bucket| + 1;
      if begin > |s3Path| then None
      else Some(GetObject(bucket, s3Path[begin..]))
  }

  lemma {:induction false} SplitAllSegment(w: string, t: string)
    requires NoSlash(w)
    ensures SplitAll(w + "/" + t) == [w] + SplitAll(t)
    decreases |w|
  {
    if w == [] {
      assert w + "/" + t == "/" + t;
      assert ("/" + t)[1..] == t;
    } else {
      SplitAllSegment(w[1..], t);
      assert (w + "/" + t)[1..] == w[1..] + "/" + t;
      assert [w[0]] + w[1..] == w;
    }
  }

  lemma {:induction false} DropTrailingKeeps(parts: seq<string>, j: nat)
    requires j < |parts| && parts[j] != []
    ensures j < |DropTrailingEmpty(parts)| && DropTrailingEmpty(parts)[j] == parts[j]
    decreases |parts|
  {
    if parts[|parts| - 1] == [] {
      DropTrailingKeeps(parts[..|parts| - 1], j);
    }
  }

  lemma {:induction false} IndexFromFirst(s: string, t: string, from: nat, at: nat)
    requires from <= at && OccursAt(s, t, at)
    requires forall j: nat :: from <= j < at ==> !OccursAt(s, t, j)
    ensures IndexFrom(s, t, from) == at
    decreases at - from
  {
    if from < at {
      IndexFromFirst(s, t, from + 1, at);
    }
  }

  /** A bucket name of at least three characters with no `/` or `:`, as S3 bucket names are. */
  predicate PlainBucket(b: string)
  {
    |b| >= 3 && forall i :: 0 <= i < |b| ==> b[i] != '/' && b[i] != ':'
  }

  function S3Path(bucket: string, key: string): string
  {
    "s3://" + bucket + "/" + key
  }

  /** The third piece of `s3://{bucket}/{key}` is the bucket, for a non-empty bucket without `/`. */
  lemma SplitS3Path(bucket: string, key: string)
    requires bucket != [] && NoSlash(bucket)
    ensures |JavaSplit(S3Path(bucket, key))| >= 3 && JavaSplit(S3Path(bucket, key))[2] == bucket
  {
    var path := S3Path(bucket, key);
    var rest := bucket + "/" + key;
    assert path == "s3:" + "/" + ("" + "/" + rest);
    SplitAllSegment(bucket, key);
    SplitAllSegment("", rest);
    SplitAllSegment("s3:", "" + "/" + rest);
    assert SplitAll(path)[2] == bucket;
    assert path[3] == '/';
    DropTrailingKeeps(SplitAll(path), 2);
  }

  /** A plain bucket name cannot match inside the `s3://` scheme, so it is first found at 5. */
  lemma BucketFoundAfterScheme(bucket: string, key: string)
    requires PlainBucket(bucket)
    ensures IndexOf(S3Path(bucket, key), bucket) == 5
  {
    var path := S3Path(bucket, key);
    assert path[2] == ':' && path[3] == '/' && path[4] == '/';
    forall j: nat | j < 5 ensures !OccursAt(path, bucket, j) {
    }
    assert path[5..5 + |bucket|] == bucket;
    IndexFromFirst(path, bucket, 0, 5);
  }

  /** A path `s3://{bucket}/{key}` is read from that bucket under that key. */
  lemma ReadRequestRoundTrip(bucket: string, key: string)
    requires PlainBucket(bucket)
    ensures ReadRequest(S3Path(bucket, key)) == Some(GetObject(bucket, key))
  {
    SplitS3Path(bucket, key);
    BucketFoundAfterScheme(bucket, key);
    assert S3Path(bucket, key)[5 + |bucket| + 1..] == key;
  }

  /** Every family file is read back from its bucket under its key. */
  lemma FamilyPathRead(bucket: string, rowGroup: nat, family: nat)
    requires PlainBucket(bucket)
    ensures ReadRequest(FamilyPath(bucket, rowGroup, family)) == Some(GetObject(bucket, FamilyKey(rowGroup, family)))
  {
    ReadRequestRoundTrip(bucket, FamilyKey(rowGroup, family));
    assert FamilyPath(bucket, rowGroup, family) == S3Path(bucket, FamilyKey(rowGroup, family));
  }

  /** The key is taken after the FIRST occurrence of the bucket name: a bucket name that also
      matches at the very start of the path yields the path after `|bucket| + 1` characters. */
  lemma BucketAtStartMisread(bucket: string, key: string)
    requires bucket != [] && NoSlash(bucket) && OccursAt(S3Path(bucket, key), bucket, 0)
    ensures ReadRequest(S3Path(bucket, key)) == Some(GetObject(bucket, S3Path(bucket, key)[|bucket| + 1..]))
  {
    SplitS3Path(bucket, key);
  }

  /** So a bucket named `s3` is found inside the scheme, and the key comes out wrong. */
  lemma ShortBucketMisread(key: string)
    ensures ReadRequest(S3Path("s3", key)) == Some(GetObject("s3", "//s3/" + key))
  {
    assert S3Path("s3", key)[..2] == "s3";
    BucketAtStartMisread("s3", key);
    assert S3Path("s3", key)[3..] == "//s3/" + key;
  }
}
