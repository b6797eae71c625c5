/** What holds in every reachable state of the writer, over all interleavings of calls and all
  choices of the outside world. */
module WriterRuns {
  import opened Values
  import opened Arrow
  import opened Schema
  import opened Conversion
  import opened RoundTrip
  import opened Soundness
  import opened WriterState

  // ---------------------------------------------------------------- the invariant

  /** Columns of equal length whose values the validator has accepted. */
  ghost predicate Rectangular(columns: Columns, fields: seq<Field>, n: nat) {
    && |columns| == |fields|
    && forall j :: 0 <= j < |fields| ==> |columns[j]| == n && AcceptsAll(columns[j], fields[j])
  }

  function AllRows(sources: seq<Columns>): seq<Row> {
    if sources == [] then [] else AllRows(sources[..|sources| - 1]) + Rows(sources[|sources| - 1])
  }

  ghost predicate FieldsValid(fields: seq<Field>) {
    && 0 < |fields| <= MAX_BUFFERED_VALUE_SLOTS
    && UniqueFieldNames(fields)
    && forall j :: 0 <= j < |fields| ==> FieldOk(fields[j])
  }

  /** Every delivered batch is what its source columns build. */
  ghost predicate HistoryOk(s: State) {
    && |s.delivered| == |s.sources|
    && forall b :: 0 <= b < |s.sources| ==>
         && s.sources[b] != []
         && Rectangular(s.sources[b], s.fields, |s.sources[b][0]|)
         && BuildBatch(s.sources[b], s.fields) == Ok(s.delivered[b])
  }

  ghost predicate SizesOk(s: State) {
    && BatchSizeOk(s.batchSize, |s.fields|)
    && 1 <= s.sampleSize <= MAX_SAMPLE_SIZE && |s.samples| <= s.sampleSize
    && (s.fixedSize.Some? ==> s.batchSize == s.fixedSize.value)
  }

  /** Conservation: what was delivered, then what is buffered, is what was accepted, in order. */
  ghost predicate Conserved(s: State)
    requires |s.columns| == |s.fields|
  {
    s.accepted == AllRows(s.sources) + Rows(s.columns)
  }

  ghost predicate BufferOk(s: State) {
    FieldsValid(s.fields) && Rectangular(s.columns, s.fields, s.count)
  }

  ghost predicate Inv(s: State) {
    && BufferOk(s)
    && HistoryOk(s)
    && SizesOk(s)
    && Conserved(s)
  }

  // ---------------------------------------------------------------- initial states

  lemma InitInv(root: SchemaNode, batchSize: Option<nat>, sampleSize: nat)
    requires NewWriter(root, batchSize, sampleSize).Ok?
    ensures Inv(NewWriter(root, batchSize, sampleSize).value)
  {
    ValidNodesMap(root.fields);
    var s := NewWriter(root, batchSize, sampleSize).value;
    BatchSizesOk(|s.fields|, if batchSize.Some? then batchSize.value else 0);
  }

  // ---------------------------------------------------------------- steps keep the invariant

  lemma FlushKeepsInv(s: State, w: World)
    requires Inv(s)
    ensures Inv(FlushRows(s, w).0)
    ensures FlushRows(s, w).1.Ok? ==> FlushRows(s, w).0.count == 0
    ensures FlushRows(s, w).0.accepted == s.accepted
    ensures FlushRows(s, w).0.open == s.open
  {
    var t := FlushRows(s, w).0;
    if t != s {
      AllRowsAppend(s.sources, s.columns);
      assert Rows(t.columns) == [];
      HistoryGrows(s, s.columns, BuildBatch(s.columns, s.fields).value, t);
    }
  }

  lemma SampleKeepsInv(s: State, w: World)
    requires Inv(s) && s.fixedSize.None?
    ensures Inv(SampleRow(s, w))
  {
    SampleKeepsSizes(s, w);
  }

  lemma SampleKeepsSizes(s: State, w: World)
    requires SizesOk(s) && s.fixedSize.None? && |s.fields| <= MAX_BUFFERED_VALUE_SLOTS
    ensures SizesOk(SampleRow(s, w))
  {
    BatchSizesOk(|s.fields|, w.suggested);
  }

  lemma AppendRow(columns: Columns, row: Row, n: nat)
    requires |columns| == |row| > 0 && forall j :: 0 <= j < |columns| ==> |columns[j]| == n
    ensures Rows(Appended(columns, row)) == Rows(columns) + [row]
  {
    var after := Appended(columns, row);
    forall i | 0 <= i < n
      ensures RowAt(after, i) == RowAt(columns, i)
    {
    }
    assert RowAt(after, n) == row;
  }

  lemma PushKeepsInv(s: State, row: Row)
    requires Inv(s) && RowAccepted(row, s.fields)
    ensures Inv(PushRow(s, row))
  {
    AppendRow(s.columns, row, s.count);
    var t := PushRow(s, row);
    assert t.accepted == AllRows(t.sources) + (Rows(s.columns) + [row]);
  }

  lemma WriteRowKeepsInv(s: State, row: Row, w: World)
    requires Inv(s)
    ensures Inv(WriteRowStep(s, row, w).0)
  {
    if RowAccepted(row, s.fields) {
      if s.fixedSize.None? { SampleKeepsInv(s, w); }
      var sampled := if s.fixedSize.None? then SampleRow(s, w) else s;
      PushKeepsInv(sampled, row);
      FlushKeepsInv(PushRow(sampled, row), w);
    }
  }

  /** When columns are taken, the batch is the one the ordered columns build. */
  lemma ColumnsTaken(named: seq<(string, seq<Value>)>, fields: seq<Field>)
    requires FieldsValid(fields) && ColumnsBatch(named, fields).Ok?
    ensures var columns := Ordered(named, fields);
            && (forall j :: 0 <= j < |fields| ==> fields[j].name in ByName(named))
            && columns != [] && Rectangular(columns, fields, |columns[0]|)
            && BuildBatch(columns, fields) == ColumnsBatch(named, fields)
  {
    var byName, columns := ByName(named), Ordered(named, fields);
    var placed := PlaceColumns(byName, fields);
    forall j | 0 <= j < |fields|
      ensures fields[j].name in byName && AcceptsAll(columns[j], fields[j])
      ensures |columns[j]| == |columns[0]|
      ensures placed[j] == BuildAll(columns, fields)[j]
    {
      assert placed[j].Ok? && placed[0].Ok?;
    }
    assert placed == BuildAll(columns, fields);
  }

  lemma WriteColumnsKeepsInv(s: State, named: seq<(string, seq<Value>)>, w: World)
    requires Inv(s)
    ensures Inv(WriteColumnsStep(s, named, w).0)
  {
    FlushKeepsInv(s, w);
    var t := FlushRows(s, w).0;
    if WriteColumnsStep(s, named, w).0 != t { TakeKeepsInv(t, named); }
  }

  /** The state after a batch of caller-supplied columns went out. */
  function Taken(t: State, named: seq<(string, seq<Value>)>, batch: RecordBatch): State {
    var columns := Ordered(named, t.fields);
    t.(delivered := t.delivered + [batch], sources := t.sources + [columns], accepted := t.accepted + Rows(columns))
  }

  lemma TakeKeepsInv(t: State, named: seq<(string, seq<Value>)>)
    requires Inv(t) && t.count == 0 && ColumnsBatch(named, t.fields).Ok?
    ensures Inv(Taken(t, named, ColumnsBatch(named, t.fields).value))
  {
    ColumnsTaken(named, t.fields);
    SentKeepsInv(t, Ordered(named, t.fields), ColumnsBatch(named, t.fields).value);
  }

  lemma SentKeepsInv(t: State, columns: Columns, batch: RecordBatch)
    requires Inv(t) && t.count == 0 && columns != [] && Rectangular(columns, t.fields, |columns[0]|)
    requires BuildBatch(columns, t.fields) == Ok(batch)
    ensures Inv(t.(delivered := t.delivered + [batch], sources := t.sources + [columns],
                   accepted := t.accepted + Rows(columns)))
  {
    var u := t.(delivered := t.delivered + [batch], sources := t.sources + [columns],
                accepted := t.accepted + Rows(columns));
    HistoryGrows(t, columns, batch, u);
    SentConserves(t, columns);
  }

  lemma SentConserves(t: State, columns: Columns)
    requires |t.columns| == |t.fields| && Conserved(t) && Rows(t.columns) == []
    ensures t.accepted + Rows(columns) == AllRows(t.sources + [columns]) + Rows(t.columns)
  {
    AllRowsAppend(t.sources, columns);
    assert t.accepted == AllRows(t.sources) + [];
  }

  lemma AllRowsAppend(sources: seq<Columns>, columns: Columns)
    ensures AllRows(sources + [columns]) == AllRows(sources) + Rows(columns)
    ensures AllRows(sources + [columns]) + [] == AllRows(sources) + Rows(columns)
  {
    assert (sources + [columns])[..|sources|] == sources;
  }

  lemma HistoryGrows(s: State, columns: Columns, batch: RecordBatch, t: State)
    requires HistoryOk(s) && columns != [] && Rectangular(columns, s.fields, |columns[0]|)
    requires BuildBatch(columns, s.fields) == Ok(batch) && t.fields == s.fields
    requires t.delivered == s.delivered + [batch] && t.sources == s.sources + [columns]
    ensures HistoryOk(t)
  {
  }

  lemma StepKeepsInv(s: State, op: Op, w: World)
    requires Inv(s)
    ensures Inv(Step(s, op, w).0)
  {
    match op
    case WriteRow(row) => WriteRowKeepsInv(s, row, w);
    case WriteColumns(named) => WriteColumnsKeepsInv(s, named, w);
    case Flush => FlushKeepsInv(s, w);
    case Close => FlushKeepsInv(s, w);
  }

  // ---------------------------------------------------------------- main results over runs

  /** Conservation, the size bounds and the history hold after any calls in any order. */
  lemma {:induction false} ReachableInv(s: State, calls: seq<(Op, World)>)
    requires Inv(s)
    ensures Inv(Run(s, calls))
    decreases |calls|
  {
    if calls != [] {
      var n := |calls| - 1;
      ReachableInv(s, calls[..n]);
      StepKeepsInv(Run(s, calls[..n]), calls[n].0, calls[n].1);
    }
  }

  lemma FlushCounts(s: State, w: World)
    requires |s.columns| == |s.fields|
    ensures var (t, r) := FlushRows(s, w);
            && t.batchSize == s.batchSize && t.accepted == s.accepted
            && (r.Ok? ==> t.count == 0) && (t.count == s.count || t.count == 0)
  {
  }

  /** A call accepts a row exactly when it passes the checks, then exactly that row, even if the
      flush it triggers fails; a refused row changes nothing. */
  lemma RowAcceptance(s: State, row: Row, w: World)
    requires Inv(s)
    ensures var (t, r) := WriteRowStep(s, row, w);
            && t.accepted == (if RowAccepted(row, s.fields) then s.accepted + [row] else s.accepted)
            && (!RowAccepted(row, s.fields) ==> t == s && r == Err(SchemaError))
            && (r.Ok? ==> t.count < t.batchSize)
  {
    if RowAccepted(row, s.fields) {
      var pushed := PushRow(if s.fixedSize.None? then SampleRow(s, w) else s, row);
      BatchSizesOk(|s.fields|, w.suggested);
      FlushCounts(pushed, w);
    }
  }

  /** After a successful close, the delivered batches hold exactly the accepted rows. */
  lemma ClosedDeliversAll(s: State, calls: seq<(Op, World)>, w: World)
    requires Inv(s)
    requires var last := Run(s, calls); Step(last, Close, w).1.Ok?
    ensures var t := Step(Run(s, calls), Close, w).0;
            t.accepted == AllRows(t.sources) == Run(s, calls).accepted && !t.open
  {
    ReachableInv(s, calls);
    var last := Run(s, calls);
    FlushKeepsInv(last, w);
    var t := Step(last, Close, w).0;
    assert Rows(t.columns) == [];
    assert AllRows(t.sources) + [] == AllRows(t.sources);
  }

  // ---------------------------------------------------------------- when delivery is possible

  /** Buffered values whose units all agree with the schema. */
  ghost predicate BufferAgrees(s: State)
    requires |s.columns| == |s.fields|
  {
    forall j :: 0 <= j < |s.fields| ==> AllAgree(s.columns[j], s.fields[j])
  }

  /** Buffered values whose offsets can be built. */
  ghost predicate BufferBuildable(s: State)
    requires |s.columns| == |s.fields|
  {
    forall j :: 0 <= j < |s.fields| ==> Buildable(s.columns[j], s.fields[j])
  }

  /** The buffered rows make a batch exactly when their time units agree with the schema and their
      offsets can be built; a wrong unit alone is an error, wrong offsets alone are a panic. */
  lemma BuildsIff(s: State)
    requires BufferOk(s)
    ensures var batch := BuildBatch(s.columns, s.fields);
            && (batch.Ok? <==> BufferAgrees(s) && BufferBuildable(s))
            && (!BufferAgrees(s) && BufferBuildable(s) ==> batch == Err(ConversionError))
            && (BufferAgrees(s) && !BufferBuildable(s) ==> batch == Panic)
  {
    var rs := BuildAll(s.columns, s.fields);
    forall j | 0 <= j < |s.fields|
      ensures Decided(s.columns[j], s.fields[j]) && rs[j] == Build(s.columns[j], s.fields[j])
    {
      BuildAccepted(s.columns[j], s.fields[j]);
    }
    if j :| 0 <= j < |s.fields| && !rs[j].Ok? {
      if BufferAgrees(s) || BufferBuildable(s) { FirstFailure(rs, j); }
    } else {
      BatchBuilds(s, rs);
    }
  }

  /** Nothing stands between the buffered rows and the file: the writer is open, the sink takes the
      batch, the buffered units agree with the schema, and the offsets can be built. */
  ghost predicate Deliverable(s: State, w: World)
    requires |s.columns| == |s.fields|
  {
    s.open && w.write && BufferAgrees(s) && BufferBuildable(s)
  }

  /** A flush empties the buffer exactly when the rows are deliverable, and succeeds exactly when,
      besides, a memory flush does. Rows that make no batch stay where they are. */
  lemma FlushSucceedsIff(s: State, w: World)
    requires BufferOk(s)
    ensures var (t, r) := FlushRows(s, w);
            && (t.count == 0 <==> s.count == 0 || Deliverable(s, w))
            && (r.Ok? <==> s.count == 0 || (Deliverable(s, w) && (w.memoryFull ==> w.flush)))
            && (s.count > 0 && !Deliverable(s, w) ==> t == s)
            && (s.count > 0 && !BufferAgrees(s) && BufferBuildable(s) ==> r == Err(ConversionError))
            && (s.count > 0 && BufferAgrees(s) && !BufferBuildable(s) ==> r == Panic)
  {
    BuildsIff(s);
  }

  lemma BatchBuilds(s: State, rs: seq<Outcome<Array>>)
    requires BufferOk(s) && rs == BuildAll(s.columns, s.fields)
    requires forall j :: 0 <= j < |s.fields| ==> rs[j].Ok?
    ensures BuildBatch(s.columns, s.fields).Ok?
  {
    var arrays := Collect(rs).value;
    forall j | 0 <= j < |s.fields|
      ensures Len(arrays[j]) == s.count && TypeOf(arrays[j]) == s.fields[j].dataType
      ensures s.fields[j].nullable || !HasNulls(arrays[j])
    {
      ColumnBuilt(s.columns[j], s.fields[j], arrays[j]);
    }
  }

  lemma ColumnBuilt(values: seq<Value>, f: Field, a: Array)
    requires Build(values, f) == Ok(a) && AcceptsAll(values, f)
    ensures Len(a) == |values| && TypeOf(a) == f.dataType && (f.nullable || !HasNulls(a))
  {
    BuildShape(values, f);
    RequiredHasNoNulls(values, f, a);
  }

  lemma PoisonedFlushFails(s: State, w: World)
    requires BufferOk(s) && !BufferAgrees(s)
    ensures s.count > 0 && FlushRows(s, w).0 == s && !FlushRows(s, w).1.Ok?
  {
    var j :| 0 <= j < |s.fields| && !AllAgree(s.columns[j], s.fields[j]);
    MismatchNeverBuilds(s.columns[j], s.fields[j]);
    assert !BuildAll(s.columns, s.fields)[j].Ok?;
  }

  /** One accepted value with the wrong unit poisons the writer: from then on nothing is ever
      delivered, and no call of flush, write_columns or close succeeds, whatever the sink does. */
  lemma {:induction false} PoisonedForever(s: State, calls: seq<(Op, World)>, op: Op, w: World)
    requires Inv(s) && !BufferAgrees(s)
    ensures var t := Run(s, calls);
            && Inv(t) && !BufferAgrees(t) && t.delivered == s.delivered
            && (!op.WriteRow? ==> !Step(t, op, w).1.Ok?)
    decreases |calls|
  {
    if calls != [] {
      var n := |calls| - 1;
      PoisonedForever(s, calls[..n], op, w);
      PoisonedStep(Run(s, calls[..n]), calls[n].0, calls[n].1);
    }
    PoisonedStep(Run(s, calls), op, w);
  }

  lemma PoisonedStep(s: State, op: Op, w: World)
    requires Inv(s) && !BufferAgrees(s)
    ensures var (t, r) := Step(s, op, w);
            Inv(t) && t.delivered == s.delivered && !BufferAgrees(t) && (!op.WriteRow? ==> !r.Ok?)
  {
    StepKeepsInv(s, op, w);
    PoisonedFlushFails(s, w);
    if op.WriteRow? { PoisonedRow(s, op.row, w); }
  }

  lemma PoisonedRow(s: State, row: Row, w: World)
    requires BufferOk(s) && !BufferAgrees(s)
    ensures var t := WriteRowStep(s, row, w).0; t.delivered == s.delivered && !BufferAgrees(t)
  {
    if RowAccepted(row, s.fields) {
      var sampled := if s.fixedSize.None? then SampleRow(s, w) else s;
      PushStaysPoisoned(sampled, row);
      PoisonedFlushFails(PushRow(sampled, row), w);
    }
  }

  lemma PushStaysPoisoned(s: State, row: Row)
    requires BufferOk(s) && RowAccepted(row, s.fields) && !BufferAgrees(s)
    ensures BufferOk(PushRow(s, row)) && !BufferAgrees(PushRow(s, row))
  {
    var j :| 0 <= j < |s.fields| && !AllAgree(s.columns[j], s.fields[j]);
    var v :| v in s.columns[j] && !UnitsAgree(v, s.fields[j]);
    assert v in PushRow(s, row).columns[j];
  }
}
