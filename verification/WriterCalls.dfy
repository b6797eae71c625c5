/** When each call of the writer succeeds, what it adds, what it asks of the sink, and what a built
  writer is like: exact conditions in terms of the arguments, the buffered values and the answers of
  the outside world. */
module WriterCalls {
  import opened Values
  import opened Arrow
  import opened Schema
  import opened Conversion
  import opened RoundTrip
  import opened Soundness
  import opened WriterState
  import opened WriterRuns
  import opened WriterBounds
  import opened WriterColumns
  import Conformance

  // ---------------------------------------------------------------- construction

  predicate NoUuidDecimal(nodes: seq<SchemaNode>) {
    forall j :: 0 <= j < |nodes| ==> !HasUuidDecimal(nodes[j])
  }

  /** The sizes that the builder admits for n columns. */
  predicate SizesAdmitted(n: nat, batchSize: Option<nat>, sampleSize: nat) {
    && n <= 1_000_000
    && (batchSize.Some? ==> 1 <= batchSize.value <= 1_000_000 && batchSize.value * n <= 1_000_000)
    && 1 <= sampleSize <= 10_000
  }

  /** Building succeeds exactly for validated schemas without uuid decimals and admitted sizes; a
      uuid decimal in a validated schema is a panic and everything else a schema error. */
  lemma BuildsWriterIff(root: SchemaNode, batchSize: Option<nat>, sampleSize: nat)
    ensures var r := NewWriter(root, batchSize, sampleSize);
            if !ValidRoot(root) then r == Err(SchemaError)
            else if !NoUuidDecimal(root.fields) then r == Panic
            else if !SizesAdmitted(|root.fields|, batchSize, sampleSize) then r == Err(SchemaError)
            else r.Ok?
  {
    if ValidRoot(root) {
      ValidNodesMap(root.fields);
      if batchSize.Some? && |root.fields| <= MAX_BUFFERED_VALUE_SLOTS {
        LargestBatchSize(|root.fields|, batchSize.value);
      }
    }
  }

  /** A built writer is open and empty, has the mapped fields, and works with the sizes it was given,
      or with 1000 rows per batch, or fewer when the schema has more than 1000 columns. */
  lemma BuiltWriter(root: SchemaNode, batchSize: Option<nat>, sampleSize: nat)
    requires NewWriter(root, batchSize, sampleSize).Ok?
    ensures var s, n := NewWriter(root, batchSize, sampleSize).value, |root.fields|;
            && s.open && s.delivered == [] && s.sources == [] && s.accepted == []
            && |s.fields| == n && (forall j :: 0 <= j < n ==> ToArrowField(root.fields[j]) == Ok(s.fields[j]))
            && |s.columns| == n && (forall j :: 0 <= j < n ==> s.columns[j] == []) && s.count == 0
            && s.samples == [] && s.totalRows == 0
            && s.fixedSize == batchSize && s.sampleSize == sampleSize
            && n > 0
            && s.batchSize ==
               if batchSize.Some? then batchSize.value else if n <= 1000 then 1000 else 1_000_000 / n
  {
    var s, n := NewWriter(root, batchSize, sampleSize).value, |root.fields|;
    ValidNodesMap(root.fields);
    forall j | 0 <= j < n
      ensures ToArrowField(root.fields[j]) == Ok(s.fields[j])
    {
      Conformance.FieldsMapped(root.fields, j);
    }
    DefaultBatchSize(n);
  }

  /** A built writer accepts exactly the rows whose values conform to the schema's root fields. */
  lemma AcceptedIffConforms(root: SchemaNode, batchSize: Option<nat>, sampleSize: nat, row: Row)
    requires NewWriter(root, batchSize, sampleSize).Ok?
    ensures RowAccepted(row, NewWriter(root, batchSize, sampleSize).value.fields) <==>
            && |row| == |root.fields|
            && forall j :: 0 <= j < |row| ==> Conformance.Conforms(row[j], root.fields[j])
  {
    var fields := NewWriter(root, batchSize, sampleSize).value.fields;
    BuiltWriter(root, batchSize, sampleSize);
    if |row| == |root.fields| {
      forall j | 0 <= j < |row|
        ensures Accepts(row[j], fields[j]) <==> Conformance.Conforms(row[j], root.fields[j])
      {
        Conformance.MappedItself(root.fields[j]);
        Conformance.SchemaMeaning(row[j], root.fields[j], fields[j], true);
      }
    }
  }

  // ---------------------------------------------------------------- when calls succeed

  /** The buffered rows are out of the way: there are none, or they go out and, if the sink is full
      then, it flushes. */
  ghost predicate FlushGoesWell(s: State, w: World)
    requires |s.columns| == |s.fields|
  {
    s.count == 0 || (Deliverable(s, w) && (w.memoryFull ==> w.flush))
  }

  /** `write_row` succeeds exactly when the row is accepted and either leaves the buffer below the
      batch size or fills it and the flush goes well. */
  lemma RowSucceedsIff(s: State, row: Row, w: World)
    requires BufferOk(s)
    ensures WriteRowStep(s, row, w).1.Ok? <==>
            && RowAccepted(row, s.fields)
            && var t := Pushed(s, row, w);
               t.count < t.batchSize || FlushGoesWell(t, w)
  {
    if RowAccepted(row, s.fields) { FlushSucceedsIff(Pushed(s, row, w), w); }
  }

  /** `write_columns` succeeds exactly when the buffered rows are out of the way and the argument is
      empty, or conforms to the schema and an open sink takes it. */
  lemma ColumnsSucceedIff(s: State, named: Named, w: World)
    requires BufferOk(s)
    ensures var r := WriteColumnsStep(s, named, w).1;
            && (r.Ok? <==> FlushGoesWell(s, w) && (named == [] || (Conforms(named, s.fields) && s.open && w.write2)))
            && (FlushGoesWell(s, w) && named != [] && Conforms(named, s.fields) && !(s.open && w.write2)
                ==> r == Err(IoError))
            && (FlushGoesWell(s, w) && named != [] && !DistinctNames(named) ==> r == Err(SchemaError))
  {
    FlushSucceedsIff(s, w);
    TakenIffConforms(named, s.fields);
  }

  /** `flush` and `close` succeed exactly when the buffered rows are out of the way and an open sink
      does its own part. */
  lemma FlushCloseSucceedIff(s: State, w: World)
    requires BufferOk(s)
    ensures FlushStep(s, w).1.Ok? <==> FlushGoesWell(s, w) && (s.open ==> w.finish)
    ensures CloseStep(s, w).1.Ok? <==> FlushGoesWell(s, w) && (s.open ==> w.finish)
    ensures !CloseStep(s, w).0.open && FlushStep(s, w).0.open == s.open
    ensures FlushGoesWell(s, w) && s.open && !w.finish ==>
              FlushStep(s, w).1 == CloseStep(s, w).1 == Err(IoError)
  {
    FlushSucceedsIff(s, w);
  }

  predicate NoClose(calls: Calls) {
    forall k :: 0 <= k < |calls| ==> !calls[k].0.Close?
  }

  /** A writer stays open until it is closed, whatever fails. */
  lemma {:induction false} OpenUntilClosed(s: State, calls: Calls)
    requires |s.columns| == |s.fields| && NoClose(calls)
    ensures Run(s, calls).open == s.open
    decreases |calls|
  {
    if calls != [] {
      var n := |calls| - 1;
      OpenUntilClosed(s, calls[..n]);
      StaysOpen(Run(s, calls[..n]), calls[n].0, calls[n].1);
    }
  }

  lemma StaysOpen(s: State, op: Op, w: World)
    requires |s.columns| == |s.fields| && !op.Close?
    ensures Step(s, op, w).0.open == s.open
  {
    FlushStaysOpen(s, w);
    if op.WriteRow? && RowAccepted(op.row, s.fields) { FlushStaysOpen(Pushed(s, op.row, w), w); }
  }

  lemma FlushStaysOpen(s: State, w: World)
    requires |s.columns| == |s.fields|
    ensures FlushRows(s, w).0.open == s.open
  {
  }

  /** Main result on success: whatever calls a built writer has had, closing it succeeds exactly when
      the rows that wait, if any, agree in units, have offsets that can be built and are taken by the
      sink, a full sink flushes, and the sink closes. */
  lemma ClosingSucceedsIff(root: SchemaNode, batchSize: Option<nat>, sampleSize: nat, calls: Calls, w: World)
    requires NewWriter(root, batchSize, sampleSize).Ok? && NoClose(calls)
    ensures var s := Run(NewWriter(root, batchSize, sampleSize).value, calls);
            CloseStep(s, w).1.Ok? <==>
            && (s.count > 0 ==> BufferAgrees(s) && BufferBuildable(s) && w.write && (w.memoryFull ==> w.flush))
            && w.finish
  {
    var start := NewWriter(root, batchSize, sampleSize).value;
    InitInv(root, batchSize, sampleSize);
    ReachableInv(start, calls);
    BuiltWriter(root, batchSize, sampleSize);
    OpenUntilClosed(start, calls);
    FlushCloseSucceedIff(Run(start, calls), w);
  }

  // ---------------------------------------------------------------- batches of built columns

  /** Columns that can be built make a batch exactly when there is one, they are equally long, and no
      required one holds a null, accepted or not; otherwise the batch is an Arrow error. */
  lemma BatchIff(columns: Columns, fields: seq<Field>)
    requires |columns| == |fields| && forall j :: 0 <= j < |fields| ==> Build(columns[j], fields[j]).Ok?
    ensures var r := BuildBatch(columns, fields);
            if && columns != []
               && (forall j :: 0 <= j < |columns| ==> |columns[j]| == |columns[0]|)
               && (forall j :: 0 <= j < |columns| ==> fields[j].nullable || Null !in columns[j])
            then r.Ok? else r == Err(ArrowError)
  {
    var rs := BuildAll(columns, fields);
    var arrays := Collect(rs).value;
    forall j | 0 <= j < |fields|
      ensures Len(arrays[j]) == |columns[j]| && TypeOf(arrays[j]) == fields[j].dataType
      ensures HasNulls(arrays[j]) <==> Null in columns[j]
    {
      assert rs[j] == Ok(arrays[j]);
      NullsShow(columns[j], fields[j], arrays[j]);
    }
  }

  lemma NullsShow(values: seq<Value>, f: Field, a: Array)
    requires Build(values, f) == Ok(a)
    ensures Len(a) == |values| && TypeOf(a) == f.dataType && (HasNulls(a) <==> Null in values)
  {
    BuildShape(values, f);
    if Null in values {
      var i :| 0 <= i < |values| && values[i] == Null;
      assert IsNull(a, i);
    }
    if HasNulls(a) {
      var i :| 0 <= i < Len(a) && IsNull(a, i);
      assert values[i] == Null;
    }
  }

  // ---------------------------------------------------------------- what columns add

  /** Row i of the added rows has, for every field, entry i of the column of that name. */
  ghost predicate RowsOfColumns(rows: seq<Row>, named: Named, fields: seq<Field>) {
    && named != [] && |rows| == |named[0].1|
    && forall i, j, k :: 0 <= i < |rows| && 0 <= j < |fields| && 0 <= k < |named| && named[k].0 == fields[j].name ==>
         |rows[i]| == |fields| && i < |named[k].1| && rows[i][j] == named[k].1[i]
  }

  /** `write_columns` accepts the rows of its argument, in order, exactly when it succeeds. */
  lemma ColumnsAcceptance(s: State, named: Named, w: World)
    requires Inv(s)
    ensures var (t, r) := WriteColumnsStep(s, named, w);
            && s.accepted <= t.accepted
            && var added := t.accepted[|s.accepted|..];
               if r.Ok? && named != [] then RowsOfColumns(added, named, s.fields) else added == []
  {
    FlushKeepsInv(s, w);
    var (t, r) := WriteColumnsStep(s, named, w);
    if r.Ok? && named != [] {
      TakenConforms(named, s.fields);
      OrderedRows(named, s.fields);
      assert t.accepted[|s.accepted|..] == Rows(Ordered(named, s.fields));
    }
  }

  lemma OrderedRows(named: Named, fields: seq<Field>)
    requires FieldsValid(fields) && ColumnsBatch(named, fields).Ok? && Conforms(named, fields)
    ensures RowsOfColumns(Rows(Ordered(named, fields)), named, fields)
  {
    ColumnsTaken(named, fields);
    var columns := Ordered(named, fields);
    forall j, k | 0 <= j < |fields| && 0 <= k < |named| && named[k].0 == fields[j].name
      ensures columns[j] == named[k].1 && |named[k].1| == |named[0].1|
    {
      ByNameFinds(named, k);
    }
    var k0 := ColumnFor(named, fields, 0);
    assert |columns[0]| == |named[0].1|;
  }

  lemma ColumnFor(named: Named, fields: seq<Field>, j: nat) returns (k: nat)
    requires Conforms(named, fields) && j < |fields|
    ensures k < |named| && named[k].0 == fields[j].name
  {
    assert fields[j].name in FieldNames(fields);
    k :| 0 <= k < |named| && named[k].0 == fields[j].name;
  }

  // ---------------------------------------------------------------- counts and samples

  predicate TakesRow(op: Op, fields: seq<Field>) {
    op.WriteRow? && RowAccepted(op.row, fields)
  }

  /** How many rows write_row has accepted. */
  function RowsTaken(fields: seq<Field>, calls: Calls): nat {
    if calls == [] then 0
    else
      var n := |calls| - 1;
      RowsTaken(fields, calls[..n]) + if TakesRow(calls[n].0, fields) then 1 else 0
  }

  /** With index i in the range of the random number, a full reservoir changes at most at i. */
  lemma ReservoirStep(s: State, w: World)
    requires |s.samples| <= s.sampleSize && w.index <= s.totalRows
    ensures var after := SampleRow(s, w).samples;
            if |s.samples| < s.sampleSize then after == s.samples + [w.rowSize]
            else |after| == |s.samples|
                 && forall k :: 0 <= k < |after| ==> after[k] == if k == w.index then w.rowSize else s.samples[k]
  {
    assert w.index % (s.totalRows + 1) == w.index by { Small(w.index, s.totalRows + 1); }
  }

  lemma Small(i: nat, n: nat)
    requires i < n
    ensures i % n == i
  {
  }

  /** Every sample is the size of an accepted row. */
  ghost predicate SampledFrom(samples: seq<nat>, fields: seq<Field>, calls: Calls) {
    forall x :: x in samples ==> exists k :: 0 <= k < |calls| && TakesRow(calls[k].0, fields) && calls[k].1.rowSize == x
  }

  /** The batch size is what the last accepted row made of it, once there were enough samples. */
  ghost predicate SizedBy(size: nat, fields: seq<Field>, calls: Calls) {
    exists k ::
      && 0 <= k < |calls| && TakesRow(calls[k].0, fields)
      && size == DynamicBatchSizeFor(calls[k].1.suggested, |fields|)
      && forall m :: k < m < |calls| ==> !TakesRow(calls[m].0, fields)
  }

  /** What the counters and samples of a writer that started in `s` are after `calls`. */
  ghost predicate Counted(s: State, t: State, calls: Calls) {
    var rows := RowsTaken(s.fields, calls);
    && t.fields == s.fields && t.sampleSize == s.sampleSize && t.fixedSize == s.fixedSize
    && t.totalRows + t.count == rows
    && |t.samples| == (if s.fixedSize.Some? then 0 else Min(rows, s.sampleSize))
    && SampledFrom(t.samples, s.fields, calls)
    && (if s.fixedSize.Some? || rows < Min(s.sampleSize, 10) then t.batchSize == s.batchSize
        else SizedBy(t.batchSize, s.fields, calls))
  }

  lemma FlushCounted(s: State, w: World)
    requires |s.columns| == |s.fields|
    ensures var t := FlushRows(s, w).0;
            && t.totalRows + t.count == s.totalRows + s.count && t.samples == s.samples && t.batchSize == s.batchSize
            && t.fields == s.fields && t.sampleSize == s.sampleSize && t.fixedSize == s.fixedSize
  {
  }

  /** A call that takes no row leaves counters and samples alone. */
  lemma OtherCounted(s: State, op: Op, w: World)
    requires |s.columns| == |s.fields| && !TakesRow(op, s.fields)
    ensures var t := Step(s, op, w).0;
            && t.totalRows + t.count == s.totalRows + s.count && t.samples == s.samples && t.batchSize == s.batchSize
            && t.fields == s.fields && t.sampleSize == s.sampleSize && t.fixedSize == s.fixedSize
  {
    FlushCounted(s, w);
  }

  lemma RowCounted(s: State, row: Row, w: World)
    requires |s.columns| == |s.fields| && RowAccepted(row, s.fields) && |s.samples| <= s.sampleSize && s.sampleSize > 0
    ensures var t := Step(s, WriteRow(row), w).0;
            && t.totalRows + t.count == s.totalRows + s.count + 1
            && t.fields == s.fields && t.sampleSize == s.sampleSize && t.fixedSize == s.fixedSize
            && (s.fixedSize.Some? ==> t.samples == s.samples && t.batchSize == s.batchSize)
            && (s.fixedSize.None? ==>
                  && |t.samples| == Min(|s.samples| + 1, s.sampleSize)
                  && (forall x :: x in t.samples ==> x in s.samples || x == w.rowSize)
                  && t.batchSize == if |t.samples| >= Min(s.sampleSize, 10)
                                    then DynamicBatchSizeFor(w.suggested, |s.fields|) else s.batchSize)
  {
    FlushCounted(Pushed(s, row, w), w);
  }

  /** Main result on sampling: over any calls, rows delivered from the buffer and rows waiting are the
      rows accepted; a writer without a fixed size has as many samples as rows, up to its sample size,
      each the size of an accepted row; and its batch size is the initial one until the samples are
      enough, and from then on what the last accepted row made of it. */
  lemma {:induction false} SamplesCount(root: SchemaNode, batchSize: Option<nat>, sampleSize: nat, calls: Calls)
    requires NewWriter(root, batchSize, sampleSize).Ok?
    ensures var s := NewWriter(root, batchSize, sampleSize).value; Counted(s, Run(s, calls), calls)
    decreases |calls|
  {
    BuiltWriter(root, batchSize, sampleSize);
    var s := NewWriter(root, batchSize, sampleSize).value;
    if calls != [] {
      var n := |calls| - 1;
      SamplesCount(root, batchSize, sampleSize, calls[..n]);
      CountedStep(s, Run(s, calls[..n]), calls, n);
    }
  }

  lemma CountedStep(s: State, before: State, calls: Calls, n: nat)
    requires |calls| == n + 1 && Counted(s, before, calls[..n]) && |before.columns| == |before.fields|
    requires 1 <= s.sampleSize
    ensures Counted(s, Step(before, calls[n].0, calls[n].1).0, calls)
  {
    var (op, w) := calls[n];
    var t := Step(before, op, w).0;
    if TakesRow(op, s.fields) {
      RowCounted(before, op.row, w);
      SamplesGrow(s.fields, before.samples, t.samples, calls, n);
      assert SizedBy(DynamicBatchSizeFor(w.suggested, |s.fields|), s.fields, calls);
    } else {
      OtherCounted(before, op, w);
      SamplesStay(s.fields, before.samples, calls, n);
      if SizedBy(before.batchSize, s.fields, calls[..n]) { SizeStays(before.batchSize, s.fields, calls, n); }
    }
  }

  lemma SamplesStay(fields: seq<Field>, samples: seq<nat>, calls: Calls, n: nat)
    requires |calls| == n + 1 && SampledFrom(samples, fields, calls[..n])
    ensures SampledFrom(samples, fields, calls)
  {
    forall x | x in samples
      ensures exists k :: 0 <= k < |calls| && TakesRow(calls[k].0, fields) && calls[k].1.rowSize == x
    {
      var k :| 0 <= k < n && TakesRow(calls[..n][k].0, fields) && calls[..n][k].1.rowSize == x;
      assert calls[k] == calls[..n][k];
    }
  }

  lemma SamplesGrow(fields: seq<Field>, samples: seq<nat>, after: seq<nat>, calls: Calls, n: nat)
    requires |calls| == n + 1 && SampledFrom(samples, fields, calls[..n]) && TakesRow(calls[n].0, fields)
    requires forall x :: x in after ==> x in samples || x == calls[n].1.rowSize
    ensures SampledFrom(after, fields, calls)
  {
    SamplesStay(fields, samples, calls, n);
  }

  lemma SizeStays(size: nat, fields: seq<Field>, calls: Calls, n: nat)
    requires |calls| == n + 1 && SizedBy(size, fields, calls[..n]) && !TakesRow(calls[n].0, fields)
    ensures SizedBy(size, fields, calls)
  {
    var k :|
      && 0 <= k < n && TakesRow(calls[..n][k].0, fields)
      && size == DynamicBatchSizeFor(calls[..n][k].1.suggested, |fields|)
      && forall m :: k < m < n ==> !TakesRow(calls[..n][m].0, fields);
    assert calls[k] == calls[..n][k];
    forall m | k < m < |calls|
      ensures !TakesRow(calls[m].0, fields)
    {
      if m < n { assert calls[m] == calls[..n][m]; }
    }
  }

  // ---------------------------------------------------------------- what the answers tell

  predicate Refusal(a: Answer) {
    a == Wrote(false) || a == Flushed(false) || a == Closed(false)
  }

  predicate AnyRefusal(answers: seq<Answer>) {
    exists a :: a in answers && Refusal(a)
  }

  /** The answers of one call account for what it delivered and for why it failed. */
  ghost predicate Explains(answers: seq<Answer>, s: State, t: State, r: Outcome<()>) {
    && |t.delivered| == |s.delivered| + multiset(answers)[Wrote(true)]
    && (AnyRefusal(answers) ==> r == Err(IoError))
    && (s.open && r == Err(IoError) ==> AnyRefusal(answers))
  }

  lemma {:induction false} CollectCause<T>(rs: seq<Outcome<T>>, e: Error)
    requires Collect(rs) == Err(e)
    ensures exists i :: 0 <= i < |rs| && rs[i] == Err(e)
  {
    if rs[0].Ok? {
      CollectCause(rs[1..], e);
      var i :| 0 <= i < |rs[1..]| && rs[1..][i] == Err(e);
      assert rs[i + 1] == Err(e);
    }
  }

  /** Only the sink causes IO errors: building arrays does not. */
  lemma {:induction false} NoIoError(values: seq<Value>, f: Field)
    ensures Build(values, f) != Err(IoError)
    decreases f
  {
    match f.dataType
    case Primitive(t) =>
      if Collect(EncodeAll(values, t)) == Err(IoError) { CollectCause(EncodeAll(values, t), IoError); }
    case ListOf(item) => NoIoError(FlatMap(values, ItemsOf), item);
    case MapOf(entries) =>
      if entries.dataType.StructOf? && |entries.dataType.fields| == 2 {
        NoIoError(FlatMap(values, KeysOf), entries.dataType.fields[0]);
        NoIoError(FlatMap(values, ValuesOf), entries.dataType.fields[1]);
      }
    case StructOf(fields) =>
      var rs := BuildColumns(values, fields);
      forall j | 0 <= j < |fields|
        ensures rs[j] != Err(IoError)
      {
        NoIoError(Column(values, fields[j].name), fields[j]);
      }
      if Collect(rs) == Err(IoError) { CollectCause(rs, IoError); }
  }

  lemma BatchNoIoError(columns: Columns, fields: seq<Field>)
    requires |columns| == |fields|
    ensures BuildBatch(columns, fields) != Err(IoError)
  {
    var rs := BuildAll(columns, fields);
    forall j | 0 <= j < |fields|
      ensures rs[j] != Err(IoError)
    {
      NoIoError(columns[j], fields[j]);
    }
    if Collect(rs) == Err(IoError) { CollectCause(rs, IoError); }
  }

  lemma ColumnsNoIoError(named: Named, fields: seq<Field>)
    ensures ColumnsBatch(named, fields) != Err(IoError)
  {
    var rs := PlaceColumns(ByName(named), fields);
    forall j | 0 <= j < |fields|
      ensures rs[j] != Err(IoError)
    {
      if fields[j].name in ByName(named) { NoIoError(ByName(named)[fields[j].name], fields[j]); }
    }
    if Collect(rs) == Err(IoError) { CollectCause(rs, IoError); }
  }

  lemma FlushExplained(s: State, w: World)
    requires |s.columns| == |s.fields|
    ensures Explains(FlushAnswers(s, w), s, FlushRows(s, w).0, FlushRows(s, w).1)
    ensures FlushRows(s, w).0.open == s.open
  {
    var answers := FlushAnswers(s, w);
    BatchNoIoError(s.columns, s.fields);
    if answers == [] {
      NothingAsked(s, w);
    } else {
      AnswerList(answers, w);
    }
  }

  lemma NothingAsked(s: State, w: World)
    requires |s.columns| == |s.fields| && FlushAnswers(s, w) == [] && BuildBatch(s.columns, s.fields) != Err(IoError)
    ensures FlushRows(s, w).0 == s && (s.open ==> FlushRows(s, w).1 != Err(IoError))
  {
  }

  lemma AnswerList(answers: seq<Answer>, w: World)
    requires answers == if !w.write then [Wrote(false)]
                        else [Wrote(true), MemoryFull(w.memoryFull)] + (if w.memoryFull then [Flushed(w.flush)] else [])
    ensures multiset(answers)[Wrote(true)] == if w.write then 1 else 0
    ensures AnyRefusal(answers) <==> !w.write || (w.memoryFull && !w.flush)
  {
    if !w.write {
      NotWritten(answers);
    } else if w.memoryFull {
      assert answers == [Wrote(true), MemoryFull(true), Flushed(w.flush)];
      WrittenAndFlushed(answers, w.flush);
    } else {
      assert answers == [Wrote(true), MemoryFull(false)];
      WrittenOnly(answers);
    }
  }

  lemma NotWritten(answers: seq<Answer>)
    requires answers == [Wrote(false)]
    ensures multiset(answers)[Wrote(true)] == 0 && AnyRefusal(answers)
  {
    RefusalAt(answers, 0);
  }

  lemma WrittenOnly(answers: seq<Answer>)
    requires answers == [Wrote(true), MemoryFull(false)]
    ensures multiset(answers)[Wrote(true)] == 1 && !AnyRefusal(answers)
  {
    assert multiset(answers) == multiset{Wrote(true), MemoryFull(false)};
  }

  lemma WrittenAndFlushed(answers: seq<Answer>, flushed: bool)
    requires answers == [Wrote(true), MemoryFull(true), Flushed(flushed)]
    ensures multiset(answers)[Wrote(true)] == 1 && (AnyRefusal(answers) <==> !flushed)
  {
    assert multiset(answers) == multiset{Wrote(true), MemoryFull(true), Flushed(flushed)};
    if !flushed { RefusalAt(answers, 2); }
  }

  lemma RefusalAt(answers: seq<Answer>, k: nat)
    requires k < |answers| && Refusal(answers[k])
    ensures AnyRefusal(answers)
  {
    assert answers[k] in answers;
  }

  /** One more answer after a flush that went well. */
  lemma OneMore(answers: seq<Answer>, last: Answer)
    ensures AnyRefusal(answers + [last]) <==> AnyRefusal(answers) || Refusal(last)
    ensures multiset(answers + [last])[Wrote(true)] ==
            multiset(answers)[Wrote(true)] + if last == Wrote(true) then 1 else 0
  {
    if AnyRefusal(answers) {
      var a :| a in answers && Refusal(a);
      assert a in answers + [last];
    }
    if Refusal(last) { RefusalAt(answers + [last], |answers|); }
  }

  /** Main result on the sink: during any call the number of batches it took is the number by which
      the file grew, any refusal makes the call fail with an IO error, and an open writer gives an IO
      error for no other reason. */
  lemma AnswersExplain(s: State, op: Op, w: World)
    requires |s.columns| == |s.fields|
    ensures Explains(Answers(s, op, w), s, Step(s, op, w).0, Step(s, op, w).1)
  {
    match op
    case WriteRow(row) => RowExplained(s, row, w);
    case WriteColumns(named) => ColumnsExplained(s, named, w);
    case Flush => FinishExplained(s, w, Flushed(w.finish));
    case Close => FinishExplained(s, w, Closed(w.finish));
  }

  lemma RowExplained(s: State, row: Row, w: World)
    requires |s.columns| == |s.fields|
    ensures Explains(RowAnswers(s, row, w), s, WriteRowStep(s, row, w).0, WriteRowStep(s, row, w).1)
  {
    if RowAccepted(row, s.fields) {
      var t := Pushed(s, row, w);
      assert t.delivered == s.delivered && t.open == s.open;
      if t.count >= t.batchSize { FlushExplained(t, w); }
    }
  }

  lemma ColumnsExplained(s: State, named: Named, w: World)
    requires |s.columns| == |s.fields|
    ensures var (t, r) := WriteColumnsStep(s, named, w);
            Explains(Answers(s, Op.WriteColumns(named), w), s, t, r)
  {
    FlushExplained(s, w);
    var (t, flushed) := FlushRows(s, w);
    var answers := FlushAnswers(s, w);
    assert answers + [] == answers;
    ColumnsNoIoError(named, s.fields);
    if flushed.Ok? && named != [] && ColumnsBatch(named, s.fields).Ok? && t.open {
      SentExplained(s, named, w);
    }
  }

  lemma SentExplained(s: State, named: Named, w: World)
    requires |s.columns| == |s.fields| && named != [] && ColumnsBatch(named, s.fields).Ok?
    requires var (t, flushed) := FlushRows(s, w);
             flushed.Ok? && t.open && Explains(FlushAnswers(s, w), s, t, flushed)
    ensures var (t, r) := WriteColumnsStep(s, named, w);
            Explains(FlushAnswers(s, w) + [Wrote(w.write2)], s, t, r)
  {
    OneMore(FlushAnswers(s, w), Wrote(w.write2));
  }

  /** The common end of flush and close: once the rows are out, an open sink does its own part. */
  lemma FinishExplained(s: State, w: World, last: Answer)
    requires |s.columns| == |s.fields| && (last == Flushed(w.finish) || last == Closed(w.finish))
    ensures var (t, flushed) := FlushRows(s, w);
            var r: Outcome<()> := if flushed.Ok? && t.open && !w.finish then Err(IoError) else flushed;
            Explains(FlushAnswers(s, w) + (if flushed.Ok? && t.open then [last] else []), s, t, r)
  {
    FlushExplained(s, w);
    OneMore(FlushAnswers(s, w), last);
    assert FlushAnswers(s, w) + [] == FlushAnswers(s, w);
  }

  /** A writer that is open asks its sink after every buffered batch whether it is full, and before
      anything else ends well it has asked for what the call is for. */
  lemma QuestionsAsked(s: State, op: Op, w: World)
    requires |s.columns| == |s.fields| && s.open
    ensures var (t, r) := Step(s, op, w);
            var answers := Answers(s, op, w);
            && (op.Flush? && r.Ok? ==> answers != [] && answers[|answers| - 1] == Flushed(true))
            && (op.Close? && r.Ok? ==> answers != [] && answers[|answers| - 1] == Closed(true))
            && (!op.WriteRow? && s.count > 0 && Wrote(true) in FlushAnswers(s, w) ==>
                  |answers| >= 2 && answers[..2] == [Wrote(true), MemoryFull(w.memoryFull)])
            && (!op.WriteRow? && s.count > 0 && r.Ok? && w.memoryFull ==>
                  |answers| >= 3 && answers[2] == Flushed(true))
  {
  }
}
