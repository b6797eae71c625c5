/** How much the writer buffers and how large its batches are: the exact conditions under which
  the buffer stays below the batch size and a fixed batch size is met. */
module WriterBounds {
  import opened Values
  import opened Arrow
  import opened Schema
  import opened Conversion
  import opened RoundTrip
  import opened Soundness
  import opened WriterState
  import opened WriterRuns

  type Calls = seq<(Op, World)>

  // ---------------------------------------------------------------- one call

  /** The state in which write_row decides whether to flush. */
  function Pushed(s: State, row: Row, w: World): (t: State)
    requires |row| == |s.columns| == |s.fields|
    ensures |t.columns| == |t.fields| && t.fields == s.fields
  {
    PushRow(if s.fixedSize.None? then SampleRow(s, w) else s, row)
  }

  ghost predicate Bounded(s: State) {
    s.count < s.batchSize
  }

  /** A row that fills the buffer finds the buffer deliverable. */
  ghost predicate FlushGoesOut(s: State, op: Op, w: World)
    requires |s.columns| == |s.fields|
  {
    op.WriteRow? && RowAccepted(op.row, s.fields) ==>
      var t := Pushed(s, op.row, w);
      t.count >= t.batchSize ==> Deliverable(t, w)
  }

  lemma PushedOk(s: State, row: Row, w: World)
    requires BufferOk(s) && RowAccepted(row, s.fields) && Bounded(s)
    ensures BufferOk(Pushed(s, row, w))
    ensures var t := Pushed(s, row, w); t.count == s.count + 1 && t.open == s.open && t.batchSize >= 1
  {
    BatchSizesOk(|s.fields|, w.suggested);
  }

  /** After an accepted row the buffer is below the batch size exactly when it was not full, or
      its rows could be delivered. */
  lemma RowBoundIff(s: State, row: Row, w: World)
    requires BufferOk(s) && Bounded(s) && RowAccepted(row, s.fields)
    ensures var t := Pushed(s, row, w);
            Bounded(WriteRowStep(s, row, w).0) <==> t.count < t.batchSize || Deliverable(t, w)
  {
    var t := Pushed(s, row, w);
    PushedOk(s, row, w);
    FlushSucceedsIff(t, w);
    FlushCounts(t, w);
  }

  lemma StepBoundIff(s: State, op: Op, w: World)
    requires BufferOk(s) && Bounded(s)
    ensures Bounded(Step(s, op, w).0) <==> FlushGoesOut(s, op, w)
  {
    if op.WriteRow? {
      if RowAccepted(op.row, s.fields) { RowBoundIff(s, op.row, w); }
    } else {
      FlushCounts(s, w);
    }
  }

  // ---------------------------------------------------------------- runs

  /** The bound holds at the start and after every call. */
  ghost predicate AlwaysBounded(s: State, calls: Calls)
    requires |s.columns| == |s.fields|
    decreases |calls|
  {
    Bounded(Run(s, calls)) && (calls != [] ==> AlwaysBounded(s, calls[..|calls| - 1]))
  }

  ghost predicate FlushesGoOut(s: State, calls: Calls)
    requires |s.columns| == |s.fields|
    decreases |calls|
  {
    calls != [] ==>
      var n := |calls| - 1;
      FlushesGoOut(s, calls[..n]) && FlushGoesOut(Run(s, calls[..n]), calls[n].0, calls[n].1)
  }

  /** Main result: over any run, fewer rows than the batch size are buffered after every call exactly
      when every row that filled the buffer met an open writer, a sink that took the batch, agreeing
      units and offsets that could be built; then at most a million values are ever buffered. */
  lemma {:induction false} BufferBound(s: State, calls: Calls)
    requires Inv(s) && Bounded(s)
    ensures AlwaysBounded(s, calls) <==> FlushesGoOut(s, calls)
    ensures AlwaysBounded(s, calls) ==> Run(s, calls).count * |s.fields| <= MAX_BUFFERED_VALUE_SLOTS
    decreases |calls|
  {
    if calls != [] {
      var n := |calls| - 1;
      BufferBound(s, calls[..n]);
      ReachableInv(s, calls[..n]);
      if AlwaysBounded(s, calls[..n]) { StepBoundIff(Run(s, calls[..n]), calls[n].0, calls[n].1); }
    }
    ReachableInv(s, calls);
    SlotBound(Run(s, calls));
  }

  lemma SlotBound(s: State)
    requires SizesOk(s)
    ensures Bounded(s) ==> s.count * |s.fields| <= MAX_BUFFERED_VALUE_SLOTS
  {
    if Bounded(s) { Scaled(s.count, s.batchSize, |s.fields|); }
  }

  // ---------------------------------------------------------------- a sink that refuses

  function Repeat(op: Op, w: World, n: nat): (calls: Calls)
    ensures |calls| == n
  {
    if n == 0 then [] else Repeat(op, w, n - 1) + [(op, w)]
  }

  lemma RepeatPrefix(op: Op, w: World, n: nat)
    requires n > 0
    ensures Repeat(op, w, n)[..n - 1] == Repeat(op, w, n - 1) && Repeat(op, w, n)[n - 1] == (op, w)
  {
  }

  /** How the bound fails: under a sink that refuses every batch, each accepted row stays in the
      buffer, although the call that brought it may have reported an error. */
  lemma {:induction false} FailedFlushesGrowBuffer(s: State, row: Row, w: World, n: nat)
    requires |s.columns| == |s.fields| && RowAccepted(row, s.fields) && !w.write
    ensures Run(s, Repeat(WriteRow(row), w, n)).count == s.count + n
  {
    if n > 0 {
      FailedFlushesGrowBuffer(s, row, w, n - 1);
      var calls := Repeat(WriteRow(row), w, n);
      RepeatPrefix(WriteRow(row), w, n);
      RefusedRowStays(Run(s, calls[..n - 1]), row, w);
    }
  }

  lemma RefusedRowStays(s: State, row: Row, w: World)
    requires |s.columns| == |s.fields| && RowAccepted(row, s.fields) && !w.write
    ensures Step(s, WriteRow(row), w).0.count == s.count + 1
  {
  }

  // ---------------------------------------------------------------- fixed batch sizes

  lemma BatchRows(columns: Columns, fields: seq<Field>)
    requires |columns| == |fields| > 0 && BuildBatch(columns, fields).Ok?
    ensures BuildBatch(columns, fields).value.numRows == |columns[0]|
  {
    assert BuildAll(columns, fields)[0] == Ok(Collect(BuildAll(columns, fields)).value[0]);
    BuildShape(columns[0], fields[0]);
  }

  ghost predicate FixedSoFar(s: State, n: nat) {
    && BufferOk(s) && s.fixedSize == Some(n) && s.batchSize == n && s.count < n
    && forall b :: 0 <= b < |s.delivered| ==> s.delivered[b].numRows == n
  }

  /** After every call the delivered batches have n rows each and fewer than n rows wait. */
  ghost predicate AlwaysFixed(s: State, calls: Calls, n: nat)
    requires |s.columns| == |s.fields|
    decreases |calls|
  {
    FixedSoFar(Run(s, calls), n) && (calls != [] ==> AlwaysFixed(s, calls[..|calls| - 1], n))
  }

  /** With a fixed size n, a run of rows only delivers batches of exactly n rows, with fewer than n
      rows waiting, exactly when every full buffer was deliverable. */
  lemma {:induction false} FixedBatches(s: State, calls: Calls, n: nat)
    requires Inv(s) && s.fixedSize == Some(n) && s.delivered == [] && s.count == 0
    requires forall k :: 0 <= k < |calls| ==> calls[k].0.WriteRow?
    ensures AlwaysFixed(s, calls, n) <==> FlushesGoOut(s, calls)
    decreases |calls|
  {
    if calls == [] {
      FixedStart(s, n);
    } else {
      var m := |calls| - 1;
      FixedBatches(s, calls[..m], n);
      if AlwaysFixed(s, calls[..m], n) { FixedStep(Run(s, calls[..m]), calls[m].0.row, calls[m].1, n); }
    }
  }

  lemma FixedStart(s: State, n: nat)
    requires BufferOk(s) && SizesOk(s) && s.fixedSize == Some(n) && s.delivered == [] && s.count == 0
    ensures FixedSoFar(s, n)
  {
  }

  lemma FixedStep(s: State, row: Row, w: World, n: nat)
    requires FixedSoFar(s, n)
    ensures FixedSoFar(WriteRowStep(s, row, w).0, n) <==> FlushGoesOut(s, WriteRow(row), w)
  {
    if RowAccepted(row, s.fields) {
      RowBoundIff(s, row, w);
      if FlushGoesOut(s, WriteRow(row), w) { FixedKept(s, row, w, n); }
    }
  }

  lemma FixedKept(s: State, row: Row, w: World, n: nat)
    requires FixedSoFar(s, n) && RowAccepted(row, s.fields)
    requires var t := Pushed(s, row, w); t.count >= t.batchSize ==> Deliverable(t, w)
    ensures FixedSoFar(WriteRowStep(s, row, w).0, n)
  {
    var t := Pushed(s, row, w);
    PushedOk(s, row, w);
    if t.count >= n {
      BuildsIff(t);
      BatchRows(t.columns, t.fields);
    }
  }
}
