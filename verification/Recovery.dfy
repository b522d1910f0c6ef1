/** Datasets as scans deliver them, row digests, and the order-free comparison of two versions. */
module Recovery {
  import opened Basics
  import opened Sorting
  import opened ByteStrings
  import opened Arrow
  import opened RowEncoding

  datatype Field = Field(name: string, kind: Type)

  datatype Schema = Schema(fields: seq<Field>, metadata: string)

  datatype Batch = Batch(rowCount: nat, columns: seq<Array>)

  /** One version of a table: its schema and the record batches a scan of it yields, in scan order. */
  datatype Dataset = Dataset(schema: Schema, batches: seq<Batch>)

  type Row = seq<Value>

  ghost predicate ValidBatch(schema: Schema, b: Batch) {
    |b.columns| == |schema.fields| &&
    forall c :: 0 <= c < |b.columns| ==>
      Arrow.Valid(b.columns[c]) && b.columns[c].len == b.rowCount && TypeOf(b.columns[c]) == schema.fields[c].kind
  }

  ghost predicate ValidBatches(schema: Schema, batches: seq<Batch>) {
    forall i :: 0 <= i < |batches| ==> ValidBatch(schema, batches[i])
  }

  ghost predicate ValidDataset(ds: Dataset) {
    ValidBatches(ds.schema, ds.batches)
  }

  function Types(schema: Schema): (r: seq<Type>)
    ensures |r| == |schema.fields|
  {
    seq(|schema.fields|, i requires 0 <= i < |schema.fields| => schema.fields[i].kind)
  }

  predicate SupportedSchema(schema: Schema) {
    forall i :: 0 <= i < |schema.fields| ==> Supported(schema.fields[i].kind)
  }

  /** Logical row i of a batch. */
  ghost function RowAt(schema: Schema, b: Batch, i: nat): (r: Row)
    requires ValidBatch(schema, b) && i < b.rowCount
    ensures |r| == |schema.fields|
    ensures SupportedSchema(schema) ==> RowTyped(Types(schema), r)
  {
    var r := seq(|b.columns|, c requires 0 <= c < |b.columns| => Logical(b.columns[c], i));
    assert forall c :: 0 <= c < |b.columns| ==> HasType(r[c], schema.fields[c].kind) by {
      forall c | 0 <= c < |b.columns| ensures HasType(r[c], schema.fields[c].kind) {
        LogicalHasType(b.columns[c], i);
      }
    }
    r
  }

  ghost function BatchRows(schema: Schema, b: Batch): (r: seq<Row>)
    requires ValidBatch(schema, b)
    ensures |r| == b.rowCount
    ensures SupportedSchema(schema) ==> forall i :: 0 <= i < |r| ==> RowTyped(Types(schema), r[i])
  {
    seq(b.rowCount, i requires 0 <= i < b.rowCount => RowAt(schema, b, i))
  }

  ghost function RowsOf(schema: Schema, batches: seq<Batch>): (r: seq<Row>)
    requires ValidBatches(schema, batches)
    ensures SupportedSchema(schema) ==> forall i :: 0 <= i < |r| ==> RowTyped(Types(schema), r[i])
  {
    if batches == [] then []
    else RowsOf(schema, batches[..|batches| - 1]) + BatchRows(schema, batches[|batches| - 1])
  }

  lemma {:induction false} RowsWide(schema: Schema, batches: seq<Batch>)
    requires ValidBatches(schema, batches)
    ensures forall i :: 0 <= i < |RowsOf(schema, batches)| ==> |RowsOf(schema, batches)[i]| == |schema.fields|
  {
    if batches != [] { RowsWide(schema, batches[..|batches| - 1]); }
  }

  /** The live rows of a version, in scan order. */
  ghost function LiveRows(ds: Dataset): (r: seq<Row>)
    requires ValidDataset(ds)
    ensures forall i :: 0 <= i < |r| ==> |r[i]| == |ds.schema.fields|
  {
    RowsWide(ds.schema, ds.batches);
    RowsOf(ds.schema, ds.batches)
  }

  lemma RowsOfStep(schema: Schema, batches: seq<Batch>, n: nat)
    requires ValidBatches(schema, batches) && n < |batches|
    ensures RowsOf(schema, batches[..n + 1]) == RowsOf(schema, batches[..n]) + BatchRows(schema, batches[n])
  {
    assert batches[..n + 1][..n] == batches[..n];
  }

  function CountBatches(batches: seq<Batch>): nat {
    if batches == [] then 0 else CountBatches(batches[..|batches| - 1]) + batches[|batches| - 1].rowCount
  }

  lemma {:induction false} CountBatchesRows(schema: Schema, batches: seq<Batch>)
    requires ValidBatches(schema, batches)
    ensures CountBatches(batches) == |RowsOf(schema, batches)|
  {
    if batches != [] { CountBatchesRows(schema, batches[..|batches| - 1]); }
  }

  /** `count_rows`: the table's own count of live rows. */
  function CountRows(ds: Dataset): (n: nat)
    requires ValidDataset(ds)
    ensures n == |LiveRows(ds)|
  {
    CountBatchesRows(ds.schema, ds.batches);
    CountBatches(ds.batches)
  }

  // ---------- digests ----------

  /** Field k, and no other, is named id. */
  ghost predicate OnlyId(schema: Schema, k: nat) {
    && k < |schema.fields| && schema.fields[k].name == "id"
    && forall j :: 0 <= j < |schema.fields| && schema.fields[j].name == "id" ==> j == k
  }

  /** `batch.column(schema.get_field_index('id'))`: the one field named id; a missing or repeated
      name gives index -1, which selects the last column. */
  function IdColumn(schema: Schema): (r: Option<nat>)
    ensures r == None <==> schema.fields == []
    ensures r.Some? ==> r.value < |schema.fields|
    ensures forall k: nat :: OnlyId(schema, k) ==> r == Some(k)
    ensures schema.fields != [] && (forall k: nat :: !OnlyId(schema, k)) ==> r == Some(|schema.fields| - 1)
  {
    if |schema.fields| == 0 then None
    else
      var hits := set i | 0 <= i < |schema.fields| && schema.fields[i].name == "id";
      if exists k | 0 <= k < |schema.fields| :: hits == {k} then
        var k :| 0 <= k < |schema.fields| && hits == {k};
        assert k in hits && forall j :: 0 <= j < |schema.fields| && schema.fields[j].name == "id" ==> j in hits;
        assert OnlyId(schema, k);
        Some(k)
      else
        assert forall k: nat :: OnlyId(schema, k) ==> hits == {k};
        Some(|schema.fields| - 1)
  }

  datatype Error =
    | SchemaChanged
    | RowCountChanged
    | SpoolExists
    | UnsupportedType
    | NoIdColumn
    | IdMissing
    | RowChanged
    | RowsMissing

  type Result<+T> = Basics.Result<T, Error>

  /** What a digest scan yields before it ends, and the error that ended it, if any. */
  datatype Scan<+D> = Scan(evidence: seq<(string, D)>, failure: Option<Error>)

  /** The functions the script takes from its libraries: SHA-256 and `str` of a row id. */
  datatype Library<!D> = Library(hash: Bytes -> D, str: Value -> string)

  /** No two byte strings share a digest. */
  ghost predicate Injective<D(!new)>(lib: Library<D>) {
    forall x, y {:trigger lib.hash(x), lib.hash(y)} :: lib.hash(x) == lib.hash(y) ==> x == y
  }

  ghost function Evidence<D>(lib: Library<D>, schema: Schema, id: nat, row: Row): (string, D)
    requires SupportedSchema(schema) && RowTyped(Types(schema), row) && id < |row|
  {
    (lib.str(row[id]), lib.hash(EncodeRow(Types(schema), row)))
  }

  ghost function EvidenceOf<D>(lib: Library<D>, schema: Schema, id: nat, rows: seq<Row>): (r: seq<(string, D)>)
    requires SupportedSchema(schema) && id < |schema.fields|
    requires forall i :: 0 <= i < |rows| ==> RowTyped(Types(schema), rows[i])
    ensures |r| == |rows|
  {
    seq(|rows|, i requires 0 <= i < |rows| => Evidence(lib, schema, id, rows[i]))
  }

  /** Every batch of the scan can be encoded and has a column to take ids from. */
  predicate Scannable(ds: Dataset) {
    ds.batches == [] || (SupportedSchema(ds.schema) && ds.schema.fields != [])
  }

  /** No row misses its value in column k. */
  ghost predicate Present(rows: seq<Row>, k: nat)
    requires forall i :: 0 <= i < |rows| ==> k < |rows[i]|
  {
    forall i :: 0 <= i < |rows| ==> !rows[i][k].Missing?
  }

  ghost predicate IdsPresent(schema: Schema, rows: seq<Row>)
    requires forall i :: 0 <= i < |rows| ==> |rows[i]| == |schema.fields|
  {
    IdColumn(schema).Some? ==> Present(rows, IdColumn(schema).value)
  }

  /** The digest scan is exactly the evidence of the rows up to the first row without an id. */
  ghost predicate ScanOf<D>(lib: Library<D>, ds: Dataset, scan: Scan<D>)
    requires ValidDataset(ds)
  {
    var rows := LiveRows(ds);
    (scan.failure.Some? ==> scan.failure.value in {UnsupportedType, NoIdColumn, IdMissing}) &&
    if !Scannable(ds) then scan.failure.Some? && scan.evidence == []
    else if ds.batches == [] then scan == Scan([], None)
    else
      var n := |scan.evidence|;
      && n <= |rows|
      && IdsPresent(ds.schema, rows[..n])
      && scan.evidence == EvidenceOf(lib, ds.schema, IdColumn(ds.schema).value, rows[..n])
      && (scan.failure == None ==> n == |rows|)
      && (scan.failure.Some? ==> n < |rows| && rows[n][IdColumn(ds.schema).value].Missing?)
  }

  /** Every column's bytes agree with the reference encoding. */
  ghost predicate Encoded(schema: Schema, b: Batch, columns: seq<seq<Bytes>>)
    requires ValidBatch(schema, b) && SupportedSchema(schema)
  {
    |columns| == |b.columns| &&
    forall c :: 0 <= c < |columns| ==> Agrees(TypeOf(b.columns[c]), columns[c], Rows(b.columns[c]))
  }

  /** Feeding one row's column bytes to a hasher in order hashes the row's encoding. */
  method RowBytes(schema: Schema, b: Batch, columns: seq<seq<Bytes>>, i: nat) returns (bytes: Bytes)
    requires ValidBatch(schema, b) && SupportedSchema(schema) && i < b.rowCount
    requires Encoded(schema, b, columns)
    ensures bytes == EncodeRow(Types(schema), RowAt(schema, b, i))
  {
    bytes := [];
    ghost var types, row := Types(schema), RowAt(schema, b, i);
    for c := 0 to |columns|
      invariant bytes + EncodeRow(types[c..], row[c..]) == EncodeRow(types, row)
    {
      hide *;
      RowBytesStep(schema, b, columns, i, c);
      bytes := bytes + columns[c][i];
    }
  }

  lemma RowBytesStep(schema: Schema, b: Batch, columns: seq<seq<Bytes>>, i: nat, c: nat)
    requires ValidBatch(schema, b) && SupportedSchema(schema) && i < b.rowCount
    requires Encoded(schema, b, columns) && c < |columns|
    ensures var types, row := Types(schema), RowAt(schema, b, i);
      && c < |types| == |row| && i < |columns[c]|
      && EncodeRow(types[c..], row[c..]) == columns[c][i] + EncodeRow(types[c + 1..], row[c + 1..])
  {
    var types, row := Types(schema), RowAt(schema, b, i);
    assert Rows(b.columns[c])[i] == row[c];
    assert columns[c][i] == EncodeValue(types[c], row[c]);
    assert types[c..][1..] == types[c + 1..] && row[c..][1..] == row[c + 1..];
  }

  method EncodeColumns(schema: Schema, b: Batch) returns (columns: seq<seq<Bytes>>)
    requires ValidBatch(schema, b) && SupportedSchema(schema)
    ensures Encoded(schema, b, columns)
  {
    columns := [];
    for c := 0 to |b.columns|
      invariant |columns| == c
      invariant forall k :: 0 <= k < c ==> Agrees(TypeOf(b.columns[k]), columns[k], Rows(b.columns[k]))
    {
      EncodeColumnRefines(b.columns[c]);
      columns := columns + [EncodeColumn(b.columns[c])];
    }
  }

  /** The digests of one batch, up to the first row without an id. */
  method BatchDigests<D>(lib: Library<D>, schema: Schema, b: Batch, id: nat) returns (evidence: seq<(string, D)>)
    requires ValidBatch(schema, b) && SupportedSchema(schema) && IdColumn(schema) == Some(id)
    ensures |evidence| <= b.rowCount
    ensures IdsPresent(schema, BatchRows(schema, b)[..|evidence|])
    ensures evidence == EvidenceOf(lib, schema, id, BatchRows(schema, b)[..|evidence|])
    ensures |evidence| < b.rowCount ==> BatchRows(schema, b)[|evidence|][id].Missing?
  {
    hide Encoded, EncodeRow, IdColumn;
    evidence := [];
    ghost var rows := BatchRows(schema, b);
    var columns := EncodeColumns(schema, b);
    for i := 0 to b.rowCount
      invariant |evidence| == i && IdsPresent(schema, rows[..i])
      invariant evidence == EvidenceOf(lib, schema, id, rows[..i])
    {
      var rowId := Logical(b.columns[id], i);
      if rowId.Missing? {
        return;
      }
      var bytes := RowBytes(schema, b, columns, i);
      EvidenceNext(lib, schema, id, rows, i);
      evidence := evidence + [(lib.str(rowId), lib.hash(bytes))];
    }
  }

  method RowDigests<D>(lib: Library<D>, ds: Dataset) returns (scan: Scan<D>)
    requires ValidDataset(ds)
    ensures ScanOf(lib, ds, scan)
  {
    hide IdColumn, BatchRows;
    var schema := ds.schema;
    scan := Scan([], None);
    for n := 0 to |ds.batches|
      invariant n > 0 ==> Scannable(ds)
      invariant n == 0 ==> scan.evidence == []
      invariant scan.failure == None
      invariant Scannable(ds) && ds.batches != [] ==>
        var done := RowsOf(schema, ds.batches[..n]);
        IdsPresent(schema, done) && scan.evidence == EvidenceOf(lib, schema, IdColumn(schema).value, done)
    {
      var b := ds.batches[n];
      if !SupportedSchema(schema) {
        return scan.(failure := Some(UnsupportedType));
      }
      var id := IdColumn(schema);
      if id == None {
        return scan.(failure := Some(NoIdColumn));
      }
      var more := BatchDigests(lib, schema, b, id.value);
      ghost var done, added := RowsOf(schema, ds.batches[..n]), BatchRows(schema, b);
      RowsOfStep(schema, ds.batches, n);
      PrefixOfAll(ds, n);
      EvidenceAppend(lib, schema, id.value, done, added[..|more|]);
      scan := scan.(evidence := scan.evidence + more);
      assert LiveRows(ds)[..|scan.evidence|] == done + added[..|more|];
      if |more| < b.rowCount {
        assert LiveRows(ds)[|scan.evidence|] == added[|more|];
        return scan.(failure := Some(IdMissing));
      }
      assert added[..|more|] == added;
    }
    assert ds.batches[..|ds.batches|] == ds.batches;
    assert LiveRows(ds)[..|LiveRows(ds)|] == LiveRows(ds);
  }

  lemma EvidenceNext<D>(lib: Library<D>, schema: Schema, id: nat, x: seq<Row>, i: nat)
    requires SupportedSchema(schema) && id < |schema.fields| && i < |x|
    requires forall k :: 0 <= k < |x| ==> RowTyped(Types(schema), x[k])
    ensures EvidenceOf(lib, schema, id, x[..i + 1]) == EvidenceOf(lib, schema, id, x[..i])
      + [Evidence(lib, schema, id, x[i])]
  {
  }

  lemma EvidenceAppend<D>(lib: Library<D>, schema: Schema, id: nat, x: seq<Row>, y: seq<Row>)
    requires SupportedSchema(schema) && id < |schema.fields|
    requires forall i :: 0 <= i < |x| ==> RowTyped(Types(schema), x[i])
    requires forall i :: 0 <= i < |y| ==> RowTyped(Types(schema), y[i])
    ensures EvidenceOf(lib, schema, id, x + y) == EvidenceOf(lib, schema, id, x) + EvidenceOf(lib, schema, id, y)
  {
  }

  /** The rows of the first batches open the rows of the whole scan. */
  lemma {:induction false} PrefixOfAll(ds: Dataset, n: nat)
    requires ValidDataset(ds) && n < |ds.batches|
    ensures RowsOf(ds.schema, ds.batches[..n]) + BatchRows(ds.schema, ds.batches[n]) <= LiveRows(ds)
    decreases |ds.batches| - n
  {
    RowsOfStep(ds.schema, ds.batches, n);
    if n + 1 < |ds.batches| {
      PrefixOfAll(ds, n + 1);
    } else {
      assert ds.batches[..n + 1] == ds.batches;
    }
  }

  // ---------- comparison ----------

  lemma PutBack<T>(a: multiset<T>, b: multiset<T>, e: T)
    requires e in a && e in b && a - multiset{e} == b - multiset{e}
    ensures a == b
  {
    assert a == a - multiset{e} + multiset{e} && b == b - multiset{e} + multiset{e};
  }

  ghost predicate Tagged<K, R>(kx: seq<K>, x: seq<R>, ky: seq<K>, y: seq<R>) {
    |kx| == |x| && |ky| == |y| &&
    forall i, j :: 0 <= i < |x| && 0 <= j < |y| && kx[i] == ky[j] ==> x[i] == y[j]
  }

  lemma TagsRemain<K, R>(kx: seq<K>, x: seq<R>, ky: seq<K>, y: seq<R>, j: nat)
    requires Tagged(kx, x, ky, y) && |x| > 0 && j < |y|
    ensures Tagged(kx[1..], x[1..], ky[..j] + ky[j + 1..], y[..j] + y[j + 1..])
  {
    var ky', y' := ky[..j] + ky[j + 1..], y[..j] + y[j + 1..];
    forall i, m | 0 <= i < |x| - 1 && 0 <= m < |y'| && kx[1..][i] == ky'[m]
      ensures x[1..][i] == y'[m]
    {
      var at := if m < j then m else m + 1;
      assert ky'[m] == ky[at] && y'[m] == y[at] && kx[1..][i] == kx[i + 1];
    }
  }

  /** Two lists agree as multisets when lists that tag each element uniquely do. */
  lemma {:induction false} TagsDecideMultiset<K, R>(kx: seq<K>, x: seq<R>, ky: seq<K>, y: seq<R>)
    requires Tagged(kx, x, ky, y) && multiset(kx) == multiset(ky)
    ensures multiset(x) == multiset(y)
  {
    if x == [] {
      assert |multiset(ky)| == |ky|;
    } else {
      assert kx[0] in multiset(ky);
      var j :| 0 <= j < |ky| && ky[j] == kx[0];
      TailMultiset(kx);
      TailMultiset(x);
      RemoveAt(ky, j);
      RemoveAt(y, j);
      assert x[0] == y[j];
      hide Tagged;
      TagsRemain(kx, x, ky, y, j);
      TagsDecideMultiset(kx[1..], x[1..], ky[..j] + ky[j + 1..], y[..j] + y[j + 1..]);
      PutBack(multiset(x), multiset(y), x[0]);
    }
  }

  lemma EvidenceDecides<D(!new)>(lib: Library<D>, schema: Schema, id: nat, x: seq<Row>, y: seq<Row>)
    requires Injective(lib) && SupportedSchema(schema) && id < |schema.fields|
    requires forall i :: 0 <= i < |x| ==> RowTyped(Types(schema), x[i])
    requires forall i :: 0 <= i < |y| ==> RowTyped(Types(schema), y[i])
    ensures multiset(EvidenceOf(lib, schema, id, x)) == multiset(EvidenceOf(lib, schema, id, y)) <==>
      multiset(x) == multiset(y)
  {
    var kx, ky := EvidenceOf(lib, schema, id, x), EvidenceOf(lib, schema, id, y);
    if multiset(kx) == multiset(ky) {
      forall i, j | 0 <= i < |x| && 0 <= j < |y| && kx[i] == ky[j]
        ensures x[i] == y[j]
      {
        RowDetermined(Types(schema), x[i], y[j]);
      }
      TagsDecideMultiset(kx, x, ky, y);
    }
    if multiset(x) == multiset(y) {
      TagsDecideMultiset(x, kx, y, ky);
    }
  }

  /** The evidence table: how often each (id, digest) is still owed. */
  type Ledger<!D(==)> = map<(string, D), int>

  function Owed<D(==)>(ledger: Ledger<D>, key: (string, D)): int {
    if key in ledger then ledger[key] else 0
  }

  /** The ledger together with the part of the other scan already consumed is the whole first scan,
      and nothing is ever owed a negative number of times. */
  ghost predicate Balanced<D(!new)>(ledger: Ledger<D>, consumed: seq<(string, D)>, whole: seq<(string, D)>) {
    forall key :: Owed(ledger, key) >= 0 && Owed(ledger, key) + multiset(consumed)[key] == multiset(whole)[key]
  }

  lemma CountNext<T>(s: seq<T>, i: nat, key: T)
    requires i < |s|
    ensures multiset(s[..i + 1])[key] == multiset(s[..i])[key] + (if key == s[i] then 1 else 0)
  {
    assert s[..i + 1] == s[..i] + [s[i]];
  }

  lemma RecordStep<D(!new)>(ledger: Ledger<D>, evidence: seq<(string, D)>, i: nat)
    requires i < |evidence| && Balanced(ledger, [], evidence[..i])
    ensures Balanced(ledger[evidence[i] := Owed(ledger, evidence[i]) + 1], [], evidence[..i + 1])
  {
    var next := ledger[evidence[i] := Owed(ledger, evidence[i]) + 1];
    forall key
      ensures Owed(next, key) >= 0 && Owed(next, key) == multiset(evidence[..i + 1])[key]
    {
      CountNext(evidence, i, key);
      assert Owed(ledger, key) >= 0;
    }
  }

  lemma SettleStep<D(!new)>(ledger: Ledger<D>, whole: seq<(string, D)>, evidence: seq<(string, D)>, i: nat)
    requires i < |evidence| && Balanced(ledger, evidence[..i], whole) && Owed(ledger, evidence[i]) > 0
    ensures Balanced(ledger[evidence[i] := ledger[evidence[i]] - 1], evidence[..i + 1], whole)
  {
    var next := ledger[evidence[i] := ledger[evidence[i]] - 1];
    forall key
      ensures Owed(next, key) >= 0 && Owed(next, key) + multiset(evidence[..i + 1])[key] == multiset(whole)[key]
    {
      CountNext(evidence, i, key);
      assert Owed(ledger, key) + multiset(evidence[..i])[key] == multiset(whole)[key];
    }
  }

  /** INSERT ... ON CONFLICT DO UPDATE SET n = n + 1, for each row of the first scan. */
  method RecordAll<D(==,!new)>(evidence: seq<(string, D)>) returns (ledger: Ledger<D>)
    ensures Balanced(ledger, [], evidence)
  {
    ledger := map[];
    for i := 0 to |evidence|
      invariant Balanced(ledger, [], evidence[..i])
    {
      RecordStep(ledger, evidence, i);
      ledger := ledger[evidence[i] := Owed(ledger, evidence[i]) + 1];
    }
    assert evidence[..|evidence|] == evidence;
  }

  /** UPDATE ... SET n = n - 1 WHERE n > 0, for each row of the second scan; stops at the first row
      that changes nothing. */
  method SettleAll<D(==,!new)>(owed: Ledger<D>, ghost whole: seq<(string, D)>, evidence: seq<(string, D)>)
    returns (ledger: Ledger<D>, settled: nat)
    requires Balanced(owed, [], whole)
    ensures settled <= |evidence| && Balanced(ledger, evidence[..settled], whole)
    ensures settled < |evidence| ==> Owed(ledger, evidence[settled]) == 0
  {
    ledger, settled := owed, 0;
    while settled < |evidence|
      invariant settled <= |evidence| && Balanced(ledger, evidence[..settled], whole)
    {
      var key := evidence[settled];
      if Owed(ledger, key) <= 0 {
        return;
      }
      SettleStep(ledger, whole, evidence, settled);
      ledger := ledger[key := ledger[key] - 1];
      settled := settled + 1;
    }
  }

  lemma ExtraRow<T>(xs: seq<T>, n: nat, ys: seq<T>)
    requires n < |ys| && multiset(ys[..n])[ys[n]] >= multiset(xs)[ys[n]]
    ensures multiset(xs) != multiset(ys)
  {
    assert ys == ys[..n] + [ys[n]] + ys[n + 1..];
  }

  lemma MissingIdDiffers(schema: Schema, xs: seq<Row>, ys: seq<Row>, n: nat)
    requires forall i :: 0 <= i < |xs| ==> |xs[i]| == |schema.fields|
    requires IdColumn(schema).Some? && IdsPresent(schema, xs)
    requires n < |ys| && |ys[n]| == |schema.fields| && ys[n][IdColumn(schema).value].Missing?
    ensures multiset(xs) != multiset(ys)
  {
    assert ys[n] in multiset(ys);
    assert ys[n] !in xs;
  }

  /** What settling the second scan says about the two versions, when the scans yield rows. */
  lemma Settled<D(!new)>(lib: Library<D>, schema: Schema, id: nat, x: seq<Row>, y: seq<Row>, n: nat,
                         ledger: Ledger<D>, checked: nat)
    requires Injective(lib) && SupportedSchema(schema) && IdColumn(schema) == Some(id)
    requires forall i :: 0 <= i < |x| ==> RowTyped(Types(schema), x[i])
    requires forall i :: 0 <= i < |y| ==> RowTyped(Types(schema), y[i])
    requires |x| == |y| && checked <= n <= |y|
    requires Balanced(ledger, EvidenceOf(lib, schema, id, y)[..checked], EvidenceOf(lib, schema, id, x))
    requires checked < n ==> Owed(ledger, EvidenceOf(lib, schema, id, y)[checked]) == 0
    ensures checked < n ==> multiset(x) != multiset(y)
    ensures checked == |y| ==> multiset(x) == multiset(y) && forall key :: key in ledger ==> ledger[key] == 0
  {
    var kx, ky := EvidenceOf(lib, schema, id, x), EvidenceOf(lib, schema, id, y);
    EvidenceDecides(lib, schema, id, x, y);
    if checked < n {
      ExtraRow(kx, checked, ky);
    } else if checked == |y| {
      assert ky[..checked] == ky;
      SubmultisetOfSameSize(multiset(ky), multiset(kx));
      assert forall key :: key in ledger ==> Owed(ledger, key) == 0;
    }
  }

  lemma Verdict<D(!new)>(lib: Library<D>, before: Dataset, after: Dataset, first: seq<(string, D)>, second: Scan<D>,
                         ledger: Ledger<D>, checked: nat)
    requires ValidDataset(before) && ValidDataset(after) && Injective(lib)
    requires before.schema == after.schema && |LiveRows(before)| == |LiveRows(after)|
    requires ScanOf(lib, before, Scan(first, None)) && ScanOf(lib, after, second)
    requires checked <= |second.evidence| && Balanced(ledger, second.evidence[..checked], first)
    requires checked < |second.evidence| ==> Owed(ledger, second.evidence[checked]) == 0
    ensures second.failure.Some? ==> !Scannable(after) || multiset(LiveRows(before)) != multiset(LiveRows(after))
    ensures checked < |second.evidence| ==> multiset(LiveRows(before)) != multiset(LiveRows(after))
    ensures checked == |second.evidence| && second.failure == None ==>
      multiset(LiveRows(before)) == multiset(LiveRows(after)) && checked == |first| &&
      forall key :: key in ledger ==> ledger[key] == 0
  {
    if |LiveRows(after)| == 0 {
      assert LiveRows(before) == [] && LiveRows(after) == [] && first == [] && second.evidence == [];
      assert forall key :: key in ledger ==> Owed(ledger, key) >= 0;
    } else if Scannable(after) {
      ScanPrefix(lib, before, Scan(first, None));
      ScanPrefix(lib, after, second);
      PrefixVerdict(lib, after.schema, LiveRows(before), LiveRows(after), first, second, ledger, checked);
    }
  }

  ghost predicate IsPrefixScan<D>(lib: Library<D>, schema: Schema, rows: seq<Row>, scan: Scan<D>)
    requires SupportedSchema(schema) && IdColumn(schema).Some?
    requires forall i :: 0 <= i < |rows| ==> RowTyped(Types(schema), rows[i])
  {
    var id, n := IdColumn(schema).value, |scan.evidence|;
    && n <= |rows|
    && (forall i :: 0 <= i < n ==> RowTyped(Types(schema), rows[i]) && !rows[i][id].Missing?)
    && scan.evidence == EvidenceOf(lib, schema, id, rows)[..n]
    && (scan.failure == None ==> n == |rows|)
    && (scan.failure.Some? ==> n < |rows| && rows[n][id].Missing?)
  }

  lemma ScanPrefix<D>(lib: Library<D>, ds: Dataset, scan: Scan<D>)
    requires ValidDataset(ds) && ScanOf(lib, ds, scan) && |LiveRows(ds)| > 0 && Scannable(ds)
    ensures SupportedSchema(ds.schema) && IdColumn(ds.schema).Some? && IsPrefixScan(lib, ds.schema, LiveRows(ds), scan)
  {
    assert ds.batches != [];
  }

  lemma PrefixVerdict<D(!new)>(lib: Library<D>, schema: Schema, x: seq<Row>, y: seq<Row>, first: seq<(string, D)>,
                               second: Scan<D>, ledger: Ledger<D>, checked: nat)
    requires Injective(lib) && SupportedSchema(schema) && IdColumn(schema).Some? && |x| == |y|
    requires forall i :: 0 <= i < |x| ==> RowTyped(Types(schema), x[i])
    requires forall i :: 0 <= i < |y| ==> RowTyped(Types(schema), y[i])
    requires IsPrefixScan(lib, schema, x, Scan(first, None)) && IsPrefixScan(lib, schema, y, second)
    requires checked <= |second.evidence| && Balanced(ledger, second.evidence[..checked], first)
    requires checked < |second.evidence| ==> Owed(ledger, second.evidence[checked]) == 0
    ensures second.failure.Some? || checked < |second.evidence| ==> multiset(x) != multiset(y)
    ensures checked == |second.evidence| && second.failure == None ==>
      multiset(x) == multiset(y) && checked == |first| && forall key :: key in ledger ==> ledger[key] == 0
  {
    hide Balanced, Owed, Injective, EvidenceOf, SupportedSchema, IdColumn, Types;
    var id, n := IdColumn(schema).value, |second.evidence|;
    var kx, ky := EvidenceOf(lib, schema, id, x), EvidenceOf(lib, schema, id, y);
    assert kx[..|x|] == kx && x[..|x|] == x && first == kx;
    assert ky[..n][..checked] == ky[..checked];
    Settled(lib, schema, id, x, y, n, ledger, checked);
    if second.failure.Some? {
      MissingIdDiffers(schema, x, y, n);
    }
  }

  lemma FailedScan<D>(lib: Library<D>, ds: Dataset, scan: Scan<D>)
    requires ValidDataset(ds) && ScanOf(lib, ds, scan) && scan.failure.Some?
    ensures scan.failure.value in {UnsupportedType, NoIdColumn, IdMissing}
    ensures !Scannable(ds) || !IdsPresent(ds.schema, LiveRows(ds))
  {
    if Scannable(ds) {
      var n := |scan.evidence|;
      assert LiveRows(ds)[n][IdColumn(ds.schema).value].Missing?;
    }
  }

  lemma CompleteScan<D>(lib: Library<D>, ds: Dataset, scan: Scan<D>)
    requires ValidDataset(ds) && ScanOf(lib, ds, scan) && scan.failure == None
    ensures Scannable(ds) && IdsPresent(ds.schema, LiveRows(ds)) && |scan.evidence| == |LiveRows(ds)|
  {
    assert LiveRows(ds)[..|LiveRows(ds)|] == LiveRows(ds);
  }

  lemma SameCount(x: seq<Row>, y: seq<Row>)
    ensures multiset(x) == multiset(y) ==> |x| == |y|
  {
    assert |multiset(x)| == |x| && |multiset(y)| == |y|;
  }

  /** Which column must hold a value in every row. */
  lemma IdsPresentMeans(before: Dataset, after: Dataset)
    requires ValidDataset(before) && ValidDataset(after)
    ensures var schema, rows := before.schema, LiveRows(before);
      && (forall k: nat :: OnlyId(schema, k) ==> (IdsPresent(schema, rows) <==> Present(rows, k)))
      && (schema.fields != [] && (forall k: nat :: !OnlyId(schema, k)) ==>
            (IdsPresent(schema, rows) <==> Present(rows, |schema.fields| - 1)))
    ensures before.schema.fields == [] && before.schema == after.schema ==>
      (Scannable(before) && Scannable(after) && IdsPresent(before.schema, LiveRows(before))
        && multiset(LiveRows(before)) == multiset(LiveRows(after))
       <==> before.batches == [] && after.batches == [])
  {
  }

  /** Success exactly when nothing was lost, added or altered, whatever order the rows come in. The
      last two checks of the script never fire once the row counts agree. */
  method CompareVersions<D(==,!new)>(lib: Library<D>, before: Dataset, after: Dataset, spoolExists: bool)
    returns (r: Result<nat>)
    requires ValidDataset(before) && ValidDataset(after) && Injective(lib)
    ensures r.Success? <==>
      && !spoolExists
      && before.schema == after.schema
      && Scannable(before) && Scannable(after)
      && IdsPresent(before.schema, LiveRows(before))
      && multiset(LiveRows(before)) == multiset(LiveRows(after))
    ensures forall k: nat :: OnlyId(before.schema, k) ==> (r.Success? <==>
      && !spoolExists
      && before.schema == after.schema
      && Scannable(before) && Scannable(after)
      && Present(LiveRows(before), k)
      && multiset(LiveRows(before)) == multiset(LiveRows(after)))
    ensures before.schema.fields != [] && (forall k: nat :: !OnlyId(before.schema, k)) ==> (r.Success? <==>
      && !spoolExists
      && before.schema == after.schema
      && Scannable(before) && Scannable(after)
      && Present(LiveRows(before), |before.schema.fields| - 1)
      && multiset(LiveRows(before)) == multiset(LiveRows(after)))
    ensures before.schema.fields == [] ==> (r.Success? <==>
      && !spoolExists
      && before.schema == after.schema
      && before.batches == [] && after.batches == [])
    ensures r.Success? ==> r.value == |LiveRows(before)|
    ensures r != Failure(RowsMissing)
    ensures before.schema != after.schema ==> r == Failure(SchemaChanged)
    ensures r == Failure(RowChanged) ==> multiset(LiveRows(before)) != multiset(LiveRows(after))
  {
    hide ScanOf, Balanced, Scannable, IdsPresent, Injective, LiveRows, OnlyId, Present, IdColumn;
    IdsPresentMeans(before, after);
    if before.schema != after.schema {
      return Failure(SchemaChanged);
    }
    SameCount(LiveRows(before), LiveRows(after));
    if CountRows(before) != CountRows(after) {
      return Failure(RowCountChanged);
    }
    if spoolExists {
      return Failure(SpoolExists);
    }
    var first := RowDigests(lib, before);
    if first.failure.Some? {
      FailedScan(lib, before, first);
      return Failure(first.failure.value);
    }
    CompleteScan(lib, before, first);
    var ledger := RecordAll(first.evidence);
    var rows := |first.evidence|;
    var second := RowDigests(lib, after);
    var checked;
    ledger, checked := SettleAll(ledger, first.evidence, second.evidence);
    Verdict(lib, before, after, first.evidence, second, ledger, checked);
    if checked < |second.evidence| {
      return Failure(RowChanged);
    }
    if second.failure.Some? {
      FailedScan(lib, after, second);
      return Failure(second.failure.value);
    }
    CompleteScan(lib, after, second);
    if checked != rows || exists key | key in ledger :: ledger[key] != 0 {
      return Failure(RowsMissing);
    }
    return Success(rows);
  }
}
