/** The writer as a state machine: one step per call, with everything outside the crate (row
  size estimates, the random index, the f64 average, the sink's answers) as explicit choices. */
module WriterState {
  import opened Values
  import opened Arrow
  import opened Schema
  import opened Conversion
  import opened RoundTrip

  const DEFAULT_BATCH_SIZE: nat := 1000
  const MIN_BATCH_SIZE: nat := 10
  const MAX_BATCH_SIZE: nat := 1_000_000
  const MAX_SAMPLE_SIZE: nat := 10_000
  const MAX_BUFFERED_VALUE_SLOTS: nat := 1_000_000
  const MIN_SAMPLES_FOR_ESTIMATE: nat := 10

  type Columns = seq<seq<Value>>

  /** `sources` and `accepted` are history: the column values behind each delivered batch, and
      the rows accepted so far in call order. */
  datatype State = State(
    fields: seq<Field>,
    open: bool,
    delivered: seq<RecordBatch>,
    sources: seq<Columns>,
    accepted: seq<Row>,
    columns: Columns,
    count: nat,
    batchSize: nat,
    sampleSize: nat,
    samples: seq<nat>,
    totalRows: nat,
    fixedSize: Option<nat>)

  /** The outside world during one call. `write`/`flush` answer the buffered rows' delivery,
      `write2` the delivery of caller-supplied columns, `finish` the sink's own flush or close. */
  datatype World = World(
    rowSize: nat, index: nat, suggested: nat,
    write: bool, memoryFull: bool, flush: bool,
    write2: bool, finish: bool)

  datatype Op =
    | WriteRow(row: Row)
    | WriteColumns(named: seq<(string, seq<Value>)>)
    | Flush
    | Close

  // ---------------------------------------------------------------- batch sizes

  function MaxBatchSizeFor(columnCount: nat): nat {
    Min(Max(MAX_BUFFERED_VALUE_SLOTS / Max(columnCount, 1), 1), MAX_BATCH_SIZE)
  }

  function DefaultBatchSizeFor(columnCount: nat): nat {
    Min(DEFAULT_BATCH_SIZE, MaxBatchSizeFor(columnCount))
  }

  function DynamicBatchSizeFor(suggested: nat, columnCount: nat): nat {
    var most := MaxBatchSizeFor(columnCount);
    Max(Min(MIN_BATCH_SIZE, most), Min(suggested, most))
  }

  /** Every batch size the writer can pick keeps batch size times width within the slot limit. */
  predicate BatchSizeOk(batchSize: nat, columnCount: nat) {
    1 <= batchSize <= MAX_BATCH_SIZE && batchSize * columnCount <= MAX_BUFFERED_VALUE_SLOTS
  }

  lemma BatchSizesOk(columnCount: nat, size: nat)
    requires columnCount <= MAX_BUFFERED_VALUE_SLOTS
    ensures BatchSizeOk(DefaultBatchSizeFor(columnCount), columnCount)
    ensures BatchSizeOk(DynamicBatchSizeFor(size, columnCount), columnCount)
    ensures 1 <= size <= MaxBatchSizeFor(columnCount) ==> BatchSizeOk(size, columnCount)
  {
    var most := MaxBatchSizeFor(columnCount);
    if columnCount >= 1 {
      Quotient(MAX_BUFFERED_VALUE_SLOTS, columnCount);
      forall b: nat | b <= most
        ensures b * columnCount <= MAX_BUFFERED_VALUE_SLOTS
      {
        Scaled(b, MAX_BUFFERED_VALUE_SLOTS / columnCount, columnCount);
      }
    }
  }

  /** The largest batch size for n columns: exactly the sizes up to it keep both limits. */
  lemma LargestBatchSize(n: nat, size: nat)
    requires n <= 1_000_000
    ensures size <= MaxBatchSizeFor(n) <==> size <= 1_000_000 && size * n <= 1_000_000
  {
    if n >= 1 {
      var q := 1_000_000 / n;
      Quotient(1_000_000, n);
      if size <= q { Scaled(size, q, n); } else { Scaled(q + 1, size, n); }
    }
  }

  /** Without a given size: 1000 rows, or as many as fit when there are more than 1000 columns. */
  lemma DefaultBatchSize(n: nat)
    requires 1 <= n <= 1_000_000
    ensures DefaultBatchSizeFor(n) == if n <= 1000 then 1000 else 1_000_000 / n
  {
    LargestBatchSize(n, 1000);
    if n <= 1000 { Scaled(1000, 1000, n); }
    Quotient(1_000_000, n);
  }

  /** The dynamic size is the size nearest to the suggestion among those that keep both limits and
      have at least ten rows, if ten rows fit at all, and the largest that fits otherwise. */
  lemma DynamicBatchSize(suggested: nat, n: nat)
    requires n <= 1_000_000
    ensures var size := DynamicBatchSizeFor(suggested, n);
            && BatchSizeOk(size, n)
            && (10 * n <= 1_000_000 ==>
                  && size >= 10
                  && (suggested < 10 ==> size == 10)
                  && (suggested >= 10 && BatchSizeOk(suggested, n) ==> size == suggested)
                  && (!BatchSizeOk(suggested, n) && suggested >= 10 ==> !BatchSizeOk(size + 1, n)))
            && (10 * n > 1_000_000 ==> !BatchSizeOk(size + 1, n))
  {
    var most := MaxBatchSizeFor(n);
    BatchSizesOk(n, suggested);
    LargestBatchSize(n, 10);
    LargestBatchSize(n, suggested);
    LargestBatchSize(n, most + 1);
    LargestBatchSize(n, most);
  }

  lemma Quotient(a: nat, b: nat)
    requires 1 <= b <= a
    ensures 1 <= a / b && (a / b) * b <= a
  {
    assert a == (a / b) * b + a % b;
  }

  lemma Scaled(x: nat, y: nat, z: nat)
    requires x <= y
    ensures x * z <= y * z
  {
  }

  // ---------------------------------------------------------------- construction

  /** `WriterBuilder::build`, for a sink that could be created. */
  function NewWriter(root: SchemaNode, batchSize: Option<nat>, sampleSize: nat): Outcome<State> {
    if !ValidRoot(root) then Err(SchemaError)
    else
      var fields :- ToArrowFields(root.fields);
      var n := |fields|;
      if n > MAX_BUFFERED_VALUE_SLOTS then Err(SchemaError)
      else if batchSize.Some? && !(1 <= batchSize.value <= MaxBatchSizeFor(n)) then Err(SchemaError)
      else if !(1 <= sampleSize <= MAX_SAMPLE_SIZE) then Err(SchemaError)
      else
        Ok(State(fields, true, [], [], [], EmptyColumns(n), 0,
                 if batchSize.Some? then batchSize.value else DefaultBatchSizeFor(n),
                 sampleSize, [], 0, batchSize))
  }

  function EmptyColumns(n: nat): (cs: Columns)
    ensures |cs| == n && forall j :: 0 <= j < n ==> cs[j] == []
  {
    seq(n, j => [])
  }

  // ---------------------------------------------------------------- flushing

  function BuildAll(columns: Columns, fields: seq<Field>): (rs: seq<Outcome<Array>>)
    requires |columns| == |fields|
    ensures |rs| == |fields|
  {
    seq(|fields|, j requires 0 <= j < |fields| => Build(columns[j], fields[j]))
  }

  function BuildBatch(columns: Columns, fields: seq<Field>): Outcome<RecordBatch>
    requires |columns| == |fields|
  {
    var arrays :- Collect(BuildAll(columns, fields));
    NewRecordBatch(fields, arrays)
  }

  /** `flush_buffered_rows`. The buffer is emptied only after the sink has taken the batch. */
  function FlushRows(s: State, w: World): (r: (State, Outcome<()>))
    requires |s.columns| == |s.fields|
    ensures |r.0.columns| == |r.0.fields| && r.0.fields == s.fields
  {
    if s.count == 0 then (s, Ok(()))
    else
      var batch := BuildBatch(s.columns, s.fields);
      if !batch.Ok? then (s, batch.PropagateFailure<()>())
      else if !s.open || !w.write then (s, Err(IoError))
      else
        (Emptied(s, batch.value), if w.memoryFull && !w.flush then Err(IoError) else Ok(()))
  }

  function Emptied(s: State, batch: RecordBatch): State {
    s.(delivered := s.delivered + [batch], sources := s.sources + [s.columns],
       columns := EmptyColumns(|s.fields|), count := 0, totalRows := s.totalRows + s.count)
  }

  // ---------------------------------------------------------------- rows

  predicate RowAccepted(row: Row, fields: seq<Field>) {
    |row| == |fields| && forall j :: 0 <= j < |fields| ==> Accepts(row[j], fields[j])
  }

  /** `sample_row_size`: fill the reservoir, then replace at a random index below the row count. */
  function SampleRow(s: State, w: World): State {
    var index := w.index % (s.totalRows + 1);
    var samples :=
      if |s.samples| < s.sampleSize then s.samples + [w.rowSize]
      else if index < s.sampleSize && index < |s.samples| then s.samples[index := w.rowSize]
      else s.samples;
    if |samples| >= Min(s.sampleSize, MIN_SAMPLES_FOR_ESTIMATE) && samples != []
    then s.(samples := samples, batchSize := DynamicBatchSizeFor(w.suggested, |s.fields|))
    else s.(samples := samples)
  }

  function PushRow(s: State, row: Row): (t: State)
    requires |row| == |s.columns|
    ensures |t.columns| == |s.columns| && t.fields == s.fields
  {
    s.(columns := Appended(s.columns, row), count := s.count + 1, accepted := s.accepted + [row])
  }

  function Appended(columns: Columns, row: Row): (r: Columns)
    requires |row| == |columns|
    ensures |r| == |columns|
  {
    seq(|columns|, j requires 0 <= j < |columns| => columns[j] + [row[j]])
  }

  function WriteRowStep(s: State, row: Row, w: World): (r: (State, Outcome<()>))
    requires |s.columns| == |s.fields|
    ensures |r.0.columns| == |r.0.fields| && r.0.fields == s.fields
  {
    if !RowAccepted(row, s.fields) then (s, Err(SchemaError))
    else
      var t := PushRow(if s.fixedSize.None? then SampleRow(s, w) else s, row);
      if t.count >= t.batchSize then FlushRows(t, w) else (t, Ok(()))
  }

  // ---------------------------------------------------------------- columns

  function NamesOf(named: seq<(string, seq<Value>)>): (names: set<string>) {
    set k | 0 <= k < |named| :: named[k].0
  }

  predicate DistinctNames(named: seq<(string, seq<Value>)>) {
    forall i, k :: 0 <= i < k < |named| ==> named[i].0 != named[k].0
  }

  /** The hash map of the columns by name; a later column of the same name would win. */
  function ByName(named: seq<(string, seq<Value>)>): (m: map<string, seq<Value>>)
    ensures m.Keys == NamesOf(named)
  {
    if named == [] then map[]
    else
      var n := |named| - 1;
      assert forall k :: 0 <= k < |named| && named[k].0 != named[n].0 ==> named[k].0 in NamesOf(named[..n]);
      ByName(named[..n])[named[n].0 := named[n].1]
  }

  /** All columns that a schema field names are as long as the first field's column. */
  predicate LengthsAgree(byName: map<string, seq<Value>>, fields: seq<Field>) {
    var expected := if fields != [] && fields[0].name in byName then |byName[fields[0].name]| else 0;
    forall j :: 0 <= j < |fields| && fields[j].name in byName ==> |byName[fields[j].name]| == expected
  }

  /** Take one schema field's column out of the map, validate it and build its array. */
  function PlaceColumn(byName: map<string, seq<Value>>, f: Field): Outcome<Array> {
    if f.name !in byName then Err(SchemaError)
    else if exists v :: v in byName[f.name] && !Accepts(v, f) then Err(SchemaError)
    else Build(byName[f.name], f)
  }

  function PlaceColumns(byName: map<string, seq<Value>>, fields: seq<Field>): (rs: seq<Outcome<Array>>)
    ensures |rs| == |fields|
  {
    seq(|fields|, j requires 0 <= j < |fields| => PlaceColumn(byName, fields[j]))
  }

  /** The batch that the given columns make, or why they are refused. */
  function ColumnsBatch(named: seq<(string, seq<Value>)>, fields: seq<Field>): Outcome<RecordBatch> {
    if |named| != |fields| || !DistinctNames(named) || !LengthsAgree(ByName(named), fields) then Err(SchemaError)
    else
      var arrays :- Collect(PlaceColumns(ByName(named), fields));
      NewRecordBatch(fields, arrays)
  }

  /** The given columns in schema order. */
  function Ordered(named: seq<(string, seq<Value>)>, fields: seq<Field>): (columns: Columns)
    ensures |columns| == |fields|
  {
    var byName := ByName(named);
    seq(|fields|, j requires 0 <= j < |fields| => if fields[j].name in byName then byName[fields[j].name] else [])
  }

  function WriteColumnsStep(s: State, named: seq<(string, seq<Value>)>, w: World): (r: (State, Outcome<()>))
    requires |s.columns| == |s.fields|
    ensures |r.0.columns| == |r.0.fields| && r.0.fields == s.fields
  {
    var (t, flushed) := FlushRows(s, w);
    if !flushed.Ok? || named == [] then (t, flushed)
    else
      var batch := ColumnsBatch(named, s.fields);
      if !batch.Ok? then (t, batch.PropagateFailure<()>())
      else if !t.open || !w.write2 then (t, Err(IoError))
      else
        var columns := Ordered(named, s.fields);
        (t.(delivered := t.delivered + [batch.value], sources := t.sources + [columns],
            accepted := t.accepted + Rows(columns)), Ok(()))
  }

  /** The rows of a set of columns, as long as its first column. */
  function Rows(columns: Columns): (rows: seq<Row>)
    ensures |rows| == if columns == [] then 0 else |columns[0]|
  {
    seq(if columns == [] then 0 else |columns[0]|, i requires 0 <= i => RowAt(columns, i))
  }

  function RowAt(columns: Columns, i: nat): (row: Row)
    ensures |row| == |columns|
  {
    seq(|columns|, j requires 0 <= j < |columns| => if i < |columns[j]| then columns[j][i] else Null)
  }

  // ---------------------------------------------------------------- flush, close, runs

  function FlushStep(s: State, w: World): (r: (State, Outcome<()>))
    requires |s.columns| == |s.fields|
    ensures |r.0.columns| == |r.0.fields| && r.0.fields == s.fields
  {
    var (t, flushed) := FlushRows(s, w);
    if flushed.Ok? && t.open && !w.finish then (t, Err(IoError)) else (t, flushed)
  }

  /** `close` consumes the writer, whether or not the buffered rows could be delivered. */
  function CloseStep(s: State, w: World): (r: (State, Outcome<()>))
    requires |s.columns| == |s.fields|
    ensures |r.0.columns| == |r.0.fields| && r.0.fields == s.fields
  {
    var (t, flushed) := FlushRows(s, w);
    (t.(open := false), if flushed.Ok? && t.open && !w.finish then Err(IoError) else flushed)
  }

  function Step(s: State, op: Op, w: World): (r: (State, Outcome<()>))
    requires |s.columns| == |s.fields|
    ensures |r.0.columns| == |r.0.fields| && r.0.fields == s.fields
  {
    match op
    case WriteRow(row) => WriteRowStep(s, row, w)
    case WriteColumns(named) => WriteColumnsStep(s, named, w)
    case Flush => FlushStep(s, w)
    case Close => CloseStep(s, w)
  }

  // ---------------------------------------------------------------- what the sink is asked

  /** One answer of the sink. */
  datatype Answer = Wrote(ok: bool) | MemoryFull(full: bool) | Flushed(ok: bool) | Closed(ok: bool)

  /** The sink's answers while buffered rows are flushed: the batch, the memory check after a batch
      that was taken, and the memory flush when it is full. */
  function FlushAnswers(s: State, w: World): seq<Answer>
    requires |s.columns| == |s.fields|
  {
    if s.count == 0 || !BuildBatch(s.columns, s.fields).Ok? || !s.open then []
    else if !w.write then [Wrote(false)]
    else [Wrote(true), MemoryFull(w.memoryFull)] + (if w.memoryFull then [Flushed(w.flush)] else [])
  }

  /** All answers during one call: they tie the choices of the world to what the sink said. */
  function Answers(s: State, op: Op, w: World): seq<Answer>
    requires |s.columns| == |s.fields|
  {
    match op
    case WriteRow(row) => RowAnswers(s, row, w)
    case WriteColumns(named) =>
      var (t, flushed) := FlushRows(s, w);
      FlushAnswers(s, w) +
      (if flushed.Ok? && named != [] && ColumnsBatch(named, s.fields).Ok? && t.open then [Wrote(w.write2)] else [])
    case Flush =>
      var (t, flushed) := FlushRows(s, w);
      FlushAnswers(s, w) + (if flushed.Ok? && t.open then [Flushed(w.finish)] else [])
    case Close =>
      var (t, flushed) := FlushRows(s, w);
      FlushAnswers(s, w) + (if flushed.Ok? && t.open then [Closed(w.finish)] else [])
  }

  function RowAnswers(s: State, row: Row, w: World): seq<Answer>
    requires |s.columns| == |s.fields|
  {
    if !RowAccepted(row, s.fields) then []
    else
      var t := PushRow(if s.fixedSize.None? then SampleRow(s, w) else s, row);
      if t.count >= t.batchSize then FlushAnswers(t, w) else []
  }

  function Run(s: State, calls: seq<(Op, World)>): (t: State)
    requires |s.columns| == |s.fields|
    ensures |t.columns| == |t.fields| && t.fields == s.fields
  {
    if calls == [] then s
    else
      var n := |calls| - 1;
      Step(Run(s, calls[..n]), calls[n].0, calls[n].1).0
  }
}
