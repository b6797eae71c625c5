/** From write_row to the row iterator: what was accepted before a successful close is what a
  reader of the delivered batches gets, in normal form and in order. */
module EndToEnd {
  import opened Values
  import opened Arrow
  import opened Schema
  import opened Conversion
  import opened RoundTrip
  import opened Soundness
  import opened WriterState
  import opened WriterRuns
  import opened Reader
  import opened Wrapping
  import Conformance
  import Reread
  import WriterCalls

  /** The columns as the reader takes them, with the UUID marks of both schemas. */
  function Seen(l: Layout): (fields: seq<Field>)
    ensures |fields| == |l.fields|
  {
    seq(|l.fields|, j requires 0 <= j < |l.fields| =>
      if j < |l.nodes| then Marked(l.fields[j], l.nodes[j]) else l.fields[j])
  }

  /** The normal form of a row, value by value. */
  function NormalRow(row: Row, fields: seq<Field>): (n: Row)
    ensures |n| == |fields|
  {
    seq(|fields|, j requires 0 <= j < |fields| => if j < |row| then Normal(row[j], fields[j]) else Null)
  }

  /** The answers of a reader that meets exactly these rows. */
  function RowItems(rows: seq<Row>, fields: seq<Field>): (items: seq<Item>)
    ensures |items| == |rows|
  {
    seq(|rows|, r requires 0 <= r < |rows| => Item(Ok(NormalRow(rows[r], fields)), false))
  }

  ghost predicate Readable(l: Layout) {
    && |l.nodes| == |l.fields|
    && FieldsValid(l.fields)
    && forall j :: 0 <= j < |l.fields| ==> Describes(l.nodes[j], l.fields[j])
  }

  ghost predicate ColumnsFit(columns: Columns, fields: seq<Field>) {
    |columns| == |fields| && forall j :: 0 <= j < |fields| ==> Fits(columns[j], fields[j])
  }

  function AsResults(batches: seq<RecordBatch>): (rs: seq<Outcome<RecordBatch>>)
    ensures |rs| == |batches|
  {
    seq(|batches|, b requires 0 <= b < |batches| => Ok(batches[b]))
  }

  lemma BatchColumns(columns: Columns, fields: seq<Field>, batch: RecordBatch)
    requires |columns| == |fields| > 0 && BuildBatch(columns, fields) == Ok(batch)
    ensures |batch.columns| == |fields|
    ensures forall j :: 0 <= j < |fields| ==>
              Build(columns[j], fields[j]) == Ok(batch.columns[j]) && Len(batch.columns[j]) == |columns[j]|
  {
    var rs := BuildAll(columns, fields);
    forall j | 0 <= j < |fields|
      ensures Build(columns[j], fields[j]) == Ok(batch.columns[j]) && Len(batch.columns[j]) == |columns[j]|
    {
      assert rs[j] == Ok(Collect(rs).value[j]);
      BuildShape(columns[j], fields[j]);
    }
  }

  lemma BatchReadsBack(l: Layout, columns: Columns, batch: RecordBatch, n: nat)
    requires Readable(l) && Rectangular(columns, l.fields, n) && ColumnsFit(columns, l.fields)
    requires BuildBatch(columns, l.fields) == Ok(batch)
    ensures Fitting(l, batch) && batch.numRows == n
    ensures BatchItems(l, batch) == RowItems(Rows(columns), Seen(l))
  {
    BatchColumns(columns, l.fields, batch);
    forall i | 0 <= i < n
      ensures BatchItems(l, batch)[i] == RowItems(Rows(columns), Seen(l))[i]
    {
      var cells, row := RowCells(l, batch, i), NormalRow(RowAt(columns, i), Seen(l));
      forall j | 0 <= j < |l.fields|
        ensures cells[j] == Ok(row[j])
      {
        ReadBuilt(columns[j], l.fields[j], l.nodes[j], i);
      }
      CollectValues(cells, row);
    }
  }

  lemma {:induction false} ItemsAppend(l: Layout, batches: seq<Outcome<RecordBatch>>, last: RecordBatch)
    requires AllFitting(l, batches) && Fitting(l, last)
    ensures AllFitting(l, batches + [Ok(last)])
    ensures Items(l, batches + [Ok(last)]) == Items(l, batches) + BatchItems(l, last)
  {
    var all := batches + [Ok(last)];
    if batches == [] {
      assert all[1..] == [];
    } else {
      assert all[1..] == batches[1..] + [Ok(last)];
      ItemsAppend(l, batches[1..], last);
    }
  }

  lemma RowItemsAppend(a: seq<Row>, b: seq<Row>, fields: seq<Field>)
    ensures RowItems(a + b, fields) == RowItems(a, fields) + RowItems(b, fields)
  {
  }

  /** The columns are rectangular, accepted, and make up the batch. */
  ghost predicate Stored(l: Layout, columns: Columns, batch: RecordBatch) {
    && columns != [] && Rectangular(columns, l.fields, |columns[0]|)
    && BuildBatch(columns, l.fields) == Ok(batch)
  }

  ghost predicate Delivers(l: Layout, columns: Columns, batch: RecordBatch) {
    Stored(l, columns, batch) && ColumnsFit(columns, l.fields)
  }

  lemma StoredFits(l: Layout, columns: Columns, batch: RecordBatch)
    requires Readable(l) && Stored(l, columns, batch)
    ensures Fitting(l, batch) && batch.numRows == |columns[0]|
  {
    BatchColumns(columns, l.fields, batch);
  }

  lemma DeliveredReadsBack(l: Layout, columns: Columns, batch: RecordBatch)
    requires Readable(l) && Delivers(l, columns, batch)
    ensures Fitting(l, batch) && BatchItems(l, batch) == RowItems(Rows(columns), Seen(l))
  {
    BatchReadsBack(l, columns, batch, |columns[0]|);
  }

  /** Reading the batches built from a history of columns gives the normal forms of its rows. */
  lemma {:induction false} HistoryReadsBack(l: Layout, sources: seq<Columns>, delivered: seq<RecordBatch>)
    requires Readable(l) && |sources| == |delivered|
    requires forall b :: 0 <= b < |sources| ==> Delivers(l, sources[b], delivered[b])
    ensures AllFitting(l, AsResults(delivered))
    ensures Items(l, AsResults(delivered)) == RowItems(AllRows(sources), Seen(l))
    decreases |sources|
  {
    if sources != [] {
      var n := |sources| - 1;
      HistoryReadsBack(l, sources[..n], delivered[..n]);
      DeliveredReadsBack(l, sources[n], delivered[n]);
      JoinItems(l, delivered, n);
      JoinRows(l, sources, n);
    }
  }

  lemma JoinItems(l: Layout, delivered: seq<RecordBatch>, n: nat)
    requires |delivered| == n + 1 && AllFitting(l, AsResults(delivered[..n])) && Fitting(l, delivered[n])
    ensures AllFitting(l, AsResults(delivered))
    ensures Items(l, AsResults(delivered)) == Items(l, AsResults(delivered[..n])) + BatchItems(l, delivered[n])
  {
    AsResultsStep(delivered, n);
    ItemsAppend(l, AsResults(delivered[..n]), delivered[n]);
  }

  lemma AsResultsStep(delivered: seq<RecordBatch>, n: nat)
    requires |delivered| == n + 1
    ensures AsResults(delivered) == AsResults(delivered[..n]) + [Ok(delivered[n])]
  {
  }

  // ---------------------------------------------------------------- only if the offsets fit

  lemma CellTells(l: Layout, columns: Columns, batch: RecordBatch, i: nat, j: nat)
    requires Fitting(l, batch) && |columns| == |l.fields| && i < batch.numRows && j < |l.fields| && i < |columns[j]|
    requires BatchItems(l, batch)[i] == Item(Ok(NormalRow(RowAt(columns, i), Seen(l))), false)
    ensures Read(l.fields[j], l.nodes[j], batch.columns[j], i) == Ok(Normal(columns[j][i], Seen(l)[j]))
  {
    var cells := RowCells(l, batch, i);
    assert BatchItems(l, batch)[i] == ItemOf(cells);
    assert cells[j] == Ok(Collect(cells).value[j]);
  }

  /** A batch that reads back has no wrapped offset in any column. */
  lemma BatchFits(l: Layout, columns: Columns, batch: RecordBatch)
    requires Readable(l) && Stored(l, columns, batch) && Fitting(l, batch) && batch.numRows == |columns[0]|
    requires BatchItems(l, batch) == RowItems(Rows(columns), Seen(l))
    ensures ColumnsFit(columns, l.fields)
  {
    BatchColumns(columns, l.fields, batch);
    forall j | 0 <= j < |l.fields|
      ensures Fits(columns[j], l.fields[j])
    {
      forall i | 0 <= i < |columns[j]|
        ensures Read(l.fields[j], l.nodes[j], batch.columns[j], i) == Ok(Normal(columns[j][i], Seen(l)[j]))
      {
        assert BatchItems(l, batch)[i] == RowItems(Rows(columns), Seen(l))[i];
        CellTells(l, columns, batch, i, j);
      }
      FitsIfReadsBack(columns[j], l.fields[j], l.nodes[j]);
    }
  }

  lemma SameSuffix<T>(a: seq<T>, x: seq<T>, b: seq<T>, y: seq<T>)
    requires a + x == b + y && |x| == |y|
    ensures a == b && x == y
  {
    assert a == (a + x)[..|a|] && b == (b + y)[..|b|];
    assert x == (a + x)[|a|..] && y == (b + y)[|b|..];
  }

  lemma {:induction false} HistoryFits(l: Layout, sources: seq<Columns>, delivered: seq<RecordBatch>)
    requires Readable(l) && AllStored(l, sources, delivered)
    requires AllFitting(l, AsResults(delivered))
    requires Items(l, AsResults(delivered)) == RowItems(AllRows(sources), Seen(l))
    ensures AllFit(sources, l.fields)
    decreases |sources|
  {
    if sources != [] {
      var n := |sources| - 1;
      LastFits(l, sources, delivered, n);
      HistoryFits(l, sources[..n], delivered[..n]);
      AllFitStep(sources, l.fields, n);
    }
  }

  /** No offset wraps in any batch of the history. */
  ghost predicate AllFit(sources: seq<Columns>, fields: seq<Field>) {
    forall b :: 0 <= b < |sources| ==> ColumnsFit(sources[b], fields)
  }

  lemma AllFitStep(sources: seq<Columns>, fields: seq<Field>, n: nat)
    requires |sources| == n + 1 && AllFit(sources[..n], fields) && ColumnsFit(sources[n], fields)
    ensures AllFit(sources, fields)
  {
    forall b | 0 <= b < |sources|
      ensures ColumnsFit(sources[b], fields)
    {
      if b < n { assert sources[..n][b] == sources[b]; }
    }
  }

  ghost predicate AllStored(l: Layout, sources: seq<Columns>, delivered: seq<RecordBatch>) {
    |sources| == |delivered| && forall b :: 0 <= b < |sources| ==> Stored(l, sources[b], delivered[b])
  }

  lemma LastFits(l: Layout, sources: seq<Columns>, delivered: seq<RecordBatch>, n: nat)
    requires Readable(l) && AllStored(l, sources, delivered) && |sources| == n + 1
    requires AllFitting(l, AsResults(delivered))
    requires Items(l, AsResults(delivered)) == RowItems(AllRows(sources), Seen(l))
    ensures AllStored(l, sources[..n], delivered[..n]) && AllFitting(l, AsResults(delivered[..n]))
    ensures Items(l, AsResults(delivered[..n])) == RowItems(AllRows(sources[..n]), Seen(l))
    ensures ColumnsFit(sources[n], l.fields)
  {
    StoredFits(l, sources[n], delivered[n]);
    PrefixFitting(l, delivered, n);
    JoinItems(l, delivered, n);
    JoinRows(l, sources, n);
    SameSuffix(Items(l, AsResults(delivered[..n])), BatchItems(l, delivered[n]),
               RowItems(AllRows(sources[..n]), Seen(l)), RowItems(Rows(sources[n]), Seen(l)));
    BatchFits(l, sources[n], delivered[n]);
  }

  lemma PrefixFitting(l: Layout, delivered: seq<RecordBatch>, n: nat)
    requires n <= |delivered| && AllFitting(l, AsResults(delivered))
    ensures AllFitting(l, AsResults(delivered[..n]))
  {
    assert forall k :: 0 <= k < n ==> AsResults(delivered[..n])[k] == AsResults(delivered)[k];
  }

  lemma JoinRows(l: Layout, sources: seq<Columns>, n: nat)
    requires |sources| == n + 1
    ensures RowItems(AllRows(sources), Seen(l))
            == RowItems(AllRows(sources[..n]), Seen(l)) + RowItems(Rows(sources[n]), Seen(l))
  {
    RowItemsAppend(AllRows(sources[..n]), Rows(sources[n]), Seen(l));
  }

  /** Main result: after any calls and a successful close, a reader of the file gets exactly the
      accepted rows, in call order, in normal form, and never an error, however the file is cut
      into batches for it, if and only if no offset wrapped in a delivered batch. */
  lemma WrittenRowsReadBack(root: SchemaNode, batchSize: Option<nat>, sampleSize: nat,
                            calls: seq<(Op, World)>, w: World, nodes: seq<ParquetType>,
                            file: seq<Outcome<RecordBatch>>)
    requires NewWriter(root, batchSize, sampleSize).Ok?
    requires var s := NewWriter(root, batchSize, sampleSize).value;
             && Readable(Layout(s.fields, nodes))
             && Step(Run(s, calls), Close, w).1.Ok?
             && SameFile(Layout(s.fields, nodes), AsResults(Step(Run(s, calls), Close, w).0.delivered), file)
    ensures var s := NewWriter(root, batchSize, sampleSize).value;
            var t, l := Step(Run(s, calls), Close, w).0, Layout(s.fields, nodes);
            && AllFitting(l, file)
            && (Items(l, file) == RowItems(t.accepted, Seen(l))
                <==> AllFit(t.sources, s.fields))
  {
    var s := NewWriter(root, batchSize, sampleSize).value;
    InitInv(root, batchSize, sampleSize);
    ReachableInv(s, calls);
    StepKeepsInv(Run(s, calls), Close, w);
    ClosedDeliversAll(s, calls, w);
    var t, l := Step(Run(s, calls), Close, w).0, Layout(s.fields, nodes);
    CutsDoNotMatter(l, AsResults(t.delivered), file);
    HistoryReadsBackIff(t, l);
  }

  lemma HistoryReadsBackIff(t: State, l: Layout)
    requires Readable(l) && HistoryOk(t) && t.fields == l.fields && AllFitting(l, AsResults(t.delivered))
    ensures Items(l, AsResults(t.delivered)) == RowItems(AllRows(t.sources), Seen(l))
            <==> AllFit(t.sources, l.fields)
  {
    HistoryStored(t, l);
    if AllFit(t.sources, l.fields) {
      HistoryReadsBack(l, t.sources, t.delivered);
    }
    if Items(l, AsResults(t.delivered)) == RowItems(AllRows(t.sources), Seen(l)) {
      HistoryFits(l, t.sources, t.delivered);
    }
  }

  lemma HistoryStored(t: State, l: Layout)
    requires HistoryOk(t) && t.fields == l.fields
    ensures AllStored(l, t.sources, t.delivered)
  {
  }

  // ---------------------------------------------------------------- in terms of the schema

  /** What a row reads back as, by the root fields of its schema. */
  function StoredRow(row: Row, nodes: seq<SchemaNode>): (n: Row)
    ensures |n| == |nodes|
  {
    seq(|nodes|, j requires 0 <= j < |nodes| =>
      if j < |row| then Conformance.Stored(row[j], nodes[j], true) else Null)
  }

  function StoredItems(rows: seq<Row>, nodes: seq<SchemaNode>): (items: seq<Item>)
    ensures |items| == |rows|
  {
    seq(|rows|, r requires 0 <= r < |rows| => Item(Ok(StoredRow(rows[r], nodes)), false))
  }

  ghost predicate RowsAccepted(rows: seq<Row>, fields: seq<Field>) {
    forall row :: row in rows ==> RowAccepted(row, fields)
  }

  lemma ColumnRowsAccepted(columns: Columns, fields: seq<Field>, n: nat)
    requires Rectangular(columns, fields, n)
    ensures RowsAccepted(Rows(columns), fields)
  {
    forall i | 0 <= i < |Rows(columns)|
      ensures RowAccepted(Rows(columns)[i], fields)
    {
      forall j | 0 <= j < |fields|
        ensures Accepts(Rows(columns)[i][j], fields[j])
      {
        assert columns[j][i] in columns[j];
      }
    }
  }

  lemma {:induction false} SourceRowsAccepted(sources: seq<Columns>, fields: seq<Field>)
    requires forall b :: 0 <= b < |sources| ==> sources[b] != [] && Rectangular(sources[b], fields, |sources[b][0]|)
    ensures RowsAccepted(AllRows(sources), fields)
    decreases |sources|
  {
    if sources != [] {
      var n := |sources| - 1;
      SourceRowsAccepted(sources[..n], fields);
      ColumnRowsAccepted(sources[n], fields, |sources[n][0]|);
    }
  }

  /** In every reachable state all accepted rows are rows that the checks accept. */
  lemma OnlyAccepted(s: State)
    requires Inv(s)
    ensures RowsAccepted(s.accepted, s.fields)
  {
    SourceRowsAccepted(s.sources, s.fields);
    ColumnRowsAccepted(s.columns, s.fields, s.count);
  }

  /** The layout of a file that a writer of the schema makes. */
  function WrittenLayout(s: State): (l: Layout)
    ensures |l.nodes| == |l.fields| == |s.fields|
  {
    Layout(s.fields, Reread.ParquetTypesOf(s.fields))
  }

  lemma WrittenReadable(s: State)
    requires FieldsValid(s.fields)
    ensures Readable(WrittenLayout(s)) && Seen(WrittenLayout(s)) == s.fields
  {
    forall j | 0 <= j < |s.fields|
      ensures Describes(WrittenLayout(s).nodes[j], s.fields[j])
      ensures Marked(s.fields[j], WrittenLayout(s).nodes[j]) == s.fields[j]
    {
      Reread.CanonicalDescribes(s.fields[j]);
    }
  }

  lemma StoredIsNormal(root: SchemaNode, batchSize: Option<nat>, sampleSize: nat, rows: seq<Row>)
    requires NewWriter(root, batchSize, sampleSize).Ok?
    requires RowsAccepted(rows, NewWriter(root, batchSize, sampleSize).value.fields)
    ensures RowItems(rows, NewWriter(root, batchSize, sampleSize).value.fields) == StoredItems(rows, root.fields)
  {
    var fields := NewWriter(root, batchSize, sampleSize).value.fields;
    WriterCalls.BuiltWriter(root, batchSize, sampleSize);
    forall r | 0 <= r < |rows|
      ensures NormalRow(rows[r], fields) == StoredRow(rows[r], root.fields)
    {
      assert rows[r] in rows;
      forall j | 0 <= j < |fields|
        ensures Normal(rows[r][j], fields[j]) == Conformance.Stored(rows[r][j], root.fields[j], true)
      {
        Conformance.MappedItself(root.fields[j]);
        Conformance.SchemaMeaning(rows[r][j], root.fields[j], fields[j], true);
      }
    }
  }

  /** Main result in terms of the schema: after any calls and a successful close, a reader of the
      file, however it is cut into batches, gets for every accepted row, in call order, what the
      schema says it is stored as, and no error, if and only if no offset wrapped. */
  lemma SchemaReadsBack(root: SchemaNode, batchSize: Option<nat>, sampleSize: nat,
                        calls: seq<(Op, World)>, w: World, file: seq<Outcome<RecordBatch>>)
    requires NewWriter(root, batchSize, sampleSize).Ok?
    requires var s := NewWriter(root, batchSize, sampleSize).value;
             var t := Step(Run(s, calls), Close, w);
             t.1.Ok? && SameFile(WrittenLayout(s), AsResults(t.0.delivered), file)
    ensures var s := NewWriter(root, batchSize, sampleSize).value;
            var t, l := Step(Run(s, calls), Close, w).0, WrittenLayout(s);
            && AllFitting(l, file)
            && (Items(l, file) == StoredItems(t.accepted, root.fields) <==> AllFit(t.sources, s.fields))
  {
    var s := NewWriter(root, batchSize, sampleSize).value;
    InitInv(root, batchSize, sampleSize);
    WrittenReadable(s);
    WrittenRowsReadBack(root, batchSize, sampleSize, calls, w, WrittenLayout(s).nodes, file);
    ReachableInv(s, calls);
    StepKeepsInv(Run(s, calls), Close, w);
    OnlyAccepted(Step(Run(s, calls), Close, w).0);
    StoredIsNormal(root, batchSize, sampleSize, Step(Run(s, calls), Close, w).0.accepted);
  }
}
