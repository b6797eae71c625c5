/** The writer as the object it is: methods that update the buffered columns, the counters and
  the sink in place, each proved to take the step that WriterState specifies. */
module Writer {
  import opened Values
  import opened Arrow
  import opened Schema
  import opened Conversion
  import opened RoundTrip
  import opened WriterState
  import WriterRuns

  /** The external Arrow writer, reduced to the batches it has taken and the answers it has given.
    Any call may fail; a failed write is taken to leave the file as it was. */
  class ArrowSink {
    var batches: seq<RecordBatch>
    ghost var answers: seq<Answer>

    constructor ()
      ensures batches == [] && answers == []
    {
      batches, answers := [], [];
    }

    method Write(batch: RecordBatch) returns (ok: bool)
      modifies this
      ensures batches == if ok then old(batches) + [batch] else old(batches)
      ensures answers == old(answers) + [Wrote(ok)]
    {
      ok := *;
      if ok {
        batches := batches + [batch];
      }
      answers := answers + [Wrote(ok)];
    }

    method Flush() returns (ok: bool)
      modifies `answers
      ensures answers == old(answers) + [Flushed(ok)]
    {
      ok := *;
      answers := answers + [Flushed(ok)];
    }

    method IsMemoryFull() returns (full: bool)
      modifies `answers
      ensures answers == old(answers) + [MemoryFull(full)]
    {
      full := *;
      answers := answers + [MemoryFull(full)];
    }

    method Close() returns (ok: bool)
      modifies `answers
      ensures answers == old(answers) + [Closed(ok)]
    {
      ok := *;
      answers := answers + [Closed(ok)];
    }
  }

  /** `rng.random_range(0..=n)`. */
  method RandomUpTo(n: nat) returns (i: nat)
    ensures i <= n
  {
    i :| 0 <= i <= n;
  }

  lemma SmallRemainder(i: nat, n: nat)
    requires i < n
    ensures i % n == i
  {
  }

  lemma ByNameStep(named: seq<(string, seq<Value>)>, k: nat)
    requires k < |named| && DistinctNames(named[..k])
    ensures ByName(named[..k + 1]) == ByName(named[..k])[named[k].0 := named[k].1]
    ensures if named[k].0 in ByName(named[..k]) then !DistinctNames(named) else DistinctNames(named[..k + 1])
  {
    assert named[..k + 1][..k] == named[..k];
    DistinctStep(named, k);
  }

  lemma DistinctStep(named: seq<(string, seq<Value>)>, k: nat)
    requires k < |named| && DistinctNames(named[..k])
    ensures if named[k].0 in NamesOf(named[..k]) then !DistinctNames(named) else DistinctNames(named[..k + 1])
  {
    var before := named[..k];
    if named[k].0 in NamesOf(before) {
      var i :| 0 <= i < k && before[i].0 == named[k].0;
      assert named[i].0 == named[k].0;
    } else {
      assert forall i :: 0 <= i < k ==> before[i].0 in NamesOf(before);
    }
  }

  lemma FlushDelivers(s: State, w: World, batch: RecordBatch)
    requires |s.columns| == |s.fields| && s.count > 0 && s.open && w.write
    requires BuildBatch(s.columns, s.fields) == Ok(batch)
    ensures FlushRows(s, w) == (Emptied(s, batch), if w.memoryFull && !w.flush then Err(IoError) else Ok(()))
  {
  }

  /** Sampling and flushing consult different parts of the world. */
  lemma SampleUnaffected(s: State, v: World, w: World)
    requires w == v.(write := w.write, memoryFull := w.memoryFull, flush := w.flush)
    ensures SampleRow(s, w) == SampleRow(s, v)
  {
  }

  /** So do flushing buffered rows and the rest of a call. */
  lemma FlushUnaffected(s: State, v: World, w: World)
    requires |s.columns| == |s.fields| && w == v.(write2 := w.write2, finish := w.finish)
    ensures FlushRows(s, w) == FlushRows(s, v) && FlushAnswers(s, w) == FlushAnswers(s, v)
  {
  }

  class Writer {
    const fields: seq<Field>
    const sink: ArrowSink
    var open: bool
    var bufferedColumns: seq<seq<Value>>
    var bufferedRowCount: nat
    var currentBatchSize: nat
    const sampleSize: nat
    var sizeSamples: seq<nat>
    var totalRowsWritten: nat
    const fixedBatchSize: Option<nat>
    ghost var sources: seq<Columns>
    ghost var accepted: seq<Row>

    ghost function Current(): State
      reads this, sink
    {
      State(fields, open, sink.batches, sources, accepted, bufferedColumns, bufferedRowCount,
                  currentBatchSize, sampleSize, sizeSamples, totalRowsWritten, fixedBatchSize)
    }

    ghost predicate Valid()
      reads this, sink
    {
      WriterRuns.Inv(Current())
    }

    ghost predicate Shaped()
      reads this
    {
      |bufferedColumns| == |fields|
    }

    constructor (initial: State, sink: ArrowSink)
      requires initial.delivered == sink.batches
      ensures Current() == initial && this.sink == sink
    {
      this.fields, this.sink, open := initial.fields, sink, initial.open;
      bufferedColumns, bufferedRowCount := initial.columns, initial.count;
      currentBatchSize, sampleSize, sizeSamples := initial.batchSize, initial.sampleSize, initial.samples;
      totalRowsWritten, fixedBatchSize := initial.totalRows, initial.fixedSize;
      sources, accepted := initial.sources, initial.accepted;
    }

    /** `WriterBuilder::build`. */
    static method Build(root: SchemaNode, batchSize: Option<nat>, sampleSize: nat) returns (r: Outcome<Writer>)
      ensures r.Ok? <==> NewWriter(root, batchSize, sampleSize).Ok?
      ensures !r.Ok? ==> r == NewWriter(root, batchSize, sampleSize).PropagateFailure<Writer>()
      ensures r.Ok? ==> fresh(r.value) && fresh(r.value.sink) && r.value.Valid()
      ensures r.Ok? ==> r.value.Current() == NewWriter(root, batchSize, sampleSize).value && r.value.sink.answers == []
    {
      var initial :- NewWriter(root, batchSize, sampleSize);
      WriterRuns.InitInv(root, batchSize, sampleSize);
      var sink := new ArrowSink();
      var writer := new Writer(initial, sink);
      return Ok(writer);
    }

    /** `flush_buffered_rows`. */
    method FlushBufferedRows(ghost before: World) returns (r: Outcome<()>, ghost w: World)
      requires Shaped()
      modifies this, sink
      ensures w == before.(write := w.write, memoryFull := w.memoryFull, flush := w.flush)
      ensures (Current(), r) == FlushRows(old(Current()), w)
      ensures sink.answers == old(sink.answers) + FlushAnswers(old(Current()), w)
    {
      w := before;
      if bufferedRowCount == 0 {
        return Ok(()), w;
      }
      var batch := BuildBufferedBatch();
      if !batch.Ok? {
        return batch.PropagateFailure<()>(), w;
      }
      r, w := Deliver(batch.value, w);
    }

    /** Writing the batch that the buffered columns make. */
    method Deliver(batch: RecordBatch, ghost before: World) returns (r: Outcome<()>, ghost w: World)
      requires Shaped() && bufferedRowCount > 0 && BuildBatch(bufferedColumns, fields) == Ok(batch)
      modifies this, sink
      ensures w == before.(write := w.write, memoryFull := w.memoryFull, flush := w.flush)
      ensures (Current(), r) == FlushRows(old(Current()), w)
      ensures sink.answers == old(sink.answers) + FlushAnswers(old(Current()), w)
    {
      ghost var s := Current();
      w := before;
      if !open {
        return Err(IoError), w;
      }
      var written := sink.Write(batch);
      w := w.(write := written);
      if !written {
        return Err(IoError), w;
      }
      EmptyBuffers();
      assert Current() == Emptied(s, batch);
      r, w := FlushIfFull(w);
      FlushDelivers(s, w, batch);
    }

    /** The batch is out: count its rows and start over with empty columns. */
    method EmptyBuffers()
      requires Shaped()
      modifies `sources, `totalRowsWritten, `bufferedRowCount, `bufferedColumns
      ensures var s := old(Current());
              Current() == s.(sources := s.sources + [s.columns], columns := EmptyColumns(|s.fields|), count := 0,
                              totalRows := s.totalRows + s.count)
    {
      sources := sources + [bufferedColumns];
      totalRowsWritten := totalRowsWritten + bufferedRowCount;
      bufferedRowCount := 0;
      bufferedColumns := EmptyColumns(|fields|);
    }

    /** Flush the sink when it holds too much in memory. */
    method FlushIfFull(ghost before: World) returns (r: Outcome<()>, ghost w: World)
      modifies sink`answers
      ensures w == before.(memoryFull := w.memoryFull, flush := w.flush)
      ensures r == if w.memoryFull && !w.flush then Err(IoError) else Ok(())
      ensures sink.answers ==
              old(sink.answers) + [MemoryFull(w.memoryFull)] + (if w.memoryFull then [Flushed(w.flush)] else [])
    {
      var full := sink.IsMemoryFull();
      w := before.(memoryFull := full);
      r := Ok(());
      if full {
        var flushed := sink.Flush();
        w := w.(flush := flushed);
        if !flushed {
          r := Err(IoError);
        }
      }
    }

    method BuildBufferedBatch() returns (r: Outcome<RecordBatch>)
      requires Shaped()
      ensures r == BuildBatch(bufferedColumns, fields)
    {
      var built := BuildBufferedColumns();
      var arrays :- built;
      return NewRecordBatch(fields, arrays);
    }

    /** Converting the buffered columns, one per schema field. */
    method BuildBufferedColumns() returns (r: Outcome<seq<Array>>)
      requires Shaped()
      ensures r == Collect(BuildAll(bufferedColumns, fields))
    {
      ghost var results := BuildAll(bufferedColumns, fields);
      var arrays: seq<Array> := [];
      for j := 0 to |fields|
        invariant |arrays| == j && forall k :: 0 <= k < j ==> results[k] == Ok(arrays[k])
      {
        if !results[j].Ok? { CollectFailure(results, j); }
        var built := BuildArray(bufferedColumns[j], fields[j]);
        var column :- built;
        arrays := arrays + [column];
      }
      CollectValues(results, arrays);
      return Ok(arrays);
    }

    /** `write_row`. */
    method WriteRow(row: Row) returns (r: Outcome<()>, ghost w: World)
      requires Valid()
      modifies this, sink
      ensures (Current(), r) == WriteRowStep(old(Current()), row, w)
      ensures sink.answers == old(sink.answers) + RowAnswers(old(Current()), row, w)
      ensures Valid()
    {
      ghost var s := Current();
      r, w := TakeRow(row);
      WriterRuns.WriteRowKeepsInv(s, row, w);
    }

    method TakeRow(row: Row) returns (r: Outcome<()>, ghost w: World)
      requires Shaped() && 1 <= sampleSize && |sizeSamples| <= sampleSize
      modifies this, sink
      ensures (Current(), r) == WriteRowStep(old(Current()), row, w)
      ensures sink.answers == old(sink.answers) + RowAnswers(old(Current()), row, w)
    {
      w := World(0, 0, 0, true, false, true, true, true);
      ghost var s := Current();
      if !RowAccepted(row, fields) {
        return Err(SchemaError), w;
      }
      if fixedBatchSize.None? {
        w := SampleRowSize(w);
      }
      ghost var sampled, v := Current(), w;
      PushValues(row);
      r := Ok(());
      if bufferedRowCount >= currentBatchSize {
        r, w := FlushBufferedRows(w);
      }
      SampleUnaffected(s, v, w);
      assert sampled == if s.fixedSize.None? then SampleRow(s, w) else s;
    }

    /** Moving the row's values to the ends of the buffered columns. */
    method PushValues(row: Row)
      requires Shaped() && |row| == |fields|
      modifies `bufferedColumns, `bufferedRowCount, `accepted
      ensures Current() == PushRow(old(Current()), row)
    {
      ghost var before := bufferedColumns;
      for j := 0 to |row|
        invariant |bufferedColumns| == |row|
        invariant bufferedRowCount == old(bufferedRowCount) && accepted == old(accepted)
        invariant forall k :: 0 <= k < j ==> bufferedColumns[k] == before[k] + [row[k]]
        invariant forall k :: j <= k < |row| ==> bufferedColumns[k] == before[k]
      {
        bufferedColumns := bufferedColumns[j := bufferedColumns[j] + [row[j]]];
      }
      assert bufferedColumns == Appended(before, row);
      bufferedRowCount := bufferedRowCount + 1;
      accepted := accepted + [row];
    }

    /** `sample_row_size` and `update_batch_size`. */
    method SampleRowSize(ghost before: World) returns (ghost w: World)
      requires 1 <= sampleSize && |sizeSamples| <= sampleSize
      modifies `sizeSamples, `currentBatchSize
      ensures w == before.(rowSize := w.rowSize, index := w.index, suggested := w.suggested)
      ensures Current() == SampleRow(old(Current()), w)
    {
      var rowSize: nat := *;
      var suggested: nat := *;
      w := before.(rowSize := rowSize, suggested := suggested);
      if |sizeSamples| < sampleSize {
        sizeSamples := sizeSamples + [rowSize];
      } else {
        var index := RandomUpTo(totalRowsWritten);
        w := w.(index := index);
        SmallRemainder(index, totalRowsWritten + 1);
        if index < sampleSize {
          sizeSamples := sizeSamples[index := rowSize];
        }
      }
      if |sizeSamples| >= Min(sampleSize, MIN_SAMPLES_FOR_ESTIMATE) {
        currentBatchSize := DynamicBatchSizeFor(suggested, |fields|);
      }
    }

    /** `write_columns`. */
    method WriteColumns(named: seq<(string, seq<Value>)>) returns (r: Outcome<()>, ghost w: World)
      requires Valid()
      modifies this, sink
      ensures (Current(), r) == WriteColumnsStep(old(Current()), named, w)
      ensures sink.answers == old(sink.answers) + Answers(old(Current()), Op.WriteColumns(named), w)
      ensures Valid()
    {
      ghost var s := Current();
      r, w := TakeNamedColumns(named);
      WriterRuns.WriteColumnsKeepsInv(s, named, w);
    }

    method TakeNamedColumns(named: seq<(string, seq<Value>)>) returns (r: Outcome<()>, ghost w: World)
      requires Shaped() && UniqueFieldNames(fields)
      modifies this, sink
      ensures (Current(), r) == WriteColumnsStep(old(Current()), named, w)
      ensures sink.answers == old(sink.answers) + Answers(old(Current()), Op.WriteColumns(named), w)
    {
      ghost var s := Current();
      w := World(0, 0, 0, true, false, true, true, true);
      r, w := FlushBufferedRows(w);
      if !r.Ok? || named == [] {
        return;
      }
      var batch := ArrangeColumns(named);
      if !batch.Ok? {
        return batch.PropagateFailure<()>(), w;
      }
      if !open {
        return Err(IoError), w;
      }
      ghost var v := w;
      r, w := SendColumns(batch.value, Ordered(named, fields), w);
      FlushUnaffected(s, v, w);
    }

    /** Writing a batch of caller-supplied columns. */
    method SendColumns(batch: RecordBatch, ghost columns: Columns, ghost before: World)
      returns (r: Outcome<()>, ghost w: World)
      modifies sink, `sources, `accepted
      ensures w == before.(write2 := w.write2) && sink.answers == old(sink.answers) + [Wrote(w.write2)]
      ensures var t := old(Current());
              (Current(), r) ==
                if !w.write2 then (t, Err(IoError))
                else (t.(delivered := t.delivered + [batch], sources := t.sources + [columns],
                         accepted := t.accepted + Rows(columns)), Ok(()))
    {
      var written := sink.Write(batch);
      w := before.(write2 := written);
      if !written {
        return Err(IoError), w;
      }
      sources := sources + [columns];
      accepted := accepted + Rows(columns);
      r := Ok(());
    }

    /** The checks of `write_columns`: count, duplicates, lengths, then one column per field. */
    method ArrangeColumns(named: seq<(string, seq<Value>)>) returns (r: Outcome<RecordBatch>)
      requires UniqueFieldNames(fields)
      ensures r == ColumnsBatch(named, fields)
    {
      if |named| != |fields| {
        return Err(SchemaError);
      }
      var collected := CollectByName(named);
      var byName :- collected;
      var agree := CheckLengths(byName);
      if !agree {
        return Err(SchemaError);
      }
      var taken := TakeColumns(byName);
      var arrays :- taken;
      return NewRecordBatch(fields, arrays);
    }

    /** Filling the hash map, which stops at the first name seen before. */
    static method CollectByName(named: seq<(string, seq<Value>)>) returns (r: Outcome<map<string, seq<Value>>>)
      ensures r == if DistinctNames(named) then Ok(ByName(named)) else Err(SchemaError)
    {
      var byName: map<string, seq<Value>> := map[];
      for k := 0 to |named|
        invariant byName == ByName(named[..k]) && DistinctNames(named[..k])
      {
        ByNameStep(named, k);
        if named[k].0 in byName {
          return Err(SchemaError);
        }
        byName := byName[named[k].0 := named[k].1];
      }
      assert named[..|named|] == named;
      return Ok(byName);
    }

    method CheckLengths(byName: map<string, seq<Value>>) returns (agree: bool)
      ensures agree == LengthsAgree(byName, fields)
    {
      var expected := if fields != [] && fields[0].name in byName then |byName[fields[0].name]| else 0;
      for j := 0 to |fields|
        invariant forall k :: 0 <= k < j && fields[k].name in byName ==> |byName[fields[k].name]| == expected
      {
        if fields[j].name in byName && |byName[fields[j].name]| != expected {
          return false;
        }
      }
      return true;
    }

    /** Removing each field's column from the map, validating it and building its array. */
    method TakeColumns(byName: map<string, seq<Value>>) returns (r: Outcome<seq<Array>>)
      requires UniqueFieldNames(fields)
      ensures r == Collect(PlaceColumns(byName, fields))
    {
      ghost var results := PlaceColumns(byName, fields);
      var left, arrays: seq<Array> := byName, [];
      for j := 0 to |fields|
        invariant |arrays| == j && forall k :: 0 <= k < j ==> results[k] == Ok(arrays[k])
        invariant forall k :: j <= k < |fields| ==> (fields[k].name in left <==> fields[k].name in byName)
        invariant forall k :: j <= k < |fields| && fields[k].name in left ==>
                    left[fields[k].name] == byName[fields[k].name]
      {
        if !results[j].Ok? { CollectFailure(results, j); }
        if fields[j].name !in left {
          return Err(SchemaError);
        }
        var values := left[fields[j].name];
        left := left - {fields[j].name};
        if exists v :: v in values && !Accepts(v, fields[j]) {
          return Err(SchemaError);
        }
        var built := BuildArray(values, fields[j]);
        var column :- built;
        arrays := arrays + [column];
      }
      CollectValues(results, arrays);
      return Ok(arrays);
    }

    /** `flush`. */
    method Flush() returns (r: Outcome<()>, ghost w: World)
      requires Valid()
      modifies this, sink
      ensures (Current(), r) == FlushStep(old(Current()), w)
      ensures sink.answers == old(sink.answers) + Answers(old(Current()), Op.Flush, w)
      ensures Valid()
    {
      ghost var s := Current();
      r, w := FlushAll();
      WriterRuns.FlushKeepsInv(s, w);
    }

    method FlushAll() returns (r: Outcome<()>, ghost w: World)
      requires Shaped()
      modifies this, sink
      ensures (Current(), r) == FlushStep(old(Current()), w)
      ensures sink.answers == old(sink.answers) + Answers(old(Current()), Op.Flush, w)
    {
      ghost var s := Current();
      w := World(0, 0, 0, true, false, true, true, true);
      r, w := FlushBufferedRows(w);
      if r.Ok? && open {
        ghost var v := w;
        var finished := sink.Flush();
        w := w.(finish := finished);
        FlushUnaffected(s, v, w);
        if !finished {
          r := Err(IoError);
        }
      }
    }

    /** `close`: the sink is dropped or closed, and no call follows. */
    method Close() returns (r: Outcome<()>, ghost w: World)
      requires Valid()
      modifies this, sink
      ensures (Current(), r) == CloseStep(old(Current()), w)
      ensures sink.answers == old(sink.answers) + Answers(old(Current()), Op.Close, w)
      ensures Valid()
    {
      ghost var s := Current();
      r, w := FlushAndClose();
      WriterRuns.FlushKeepsInv(s, w);
    }

    method FlushAndClose() returns (r: Outcome<()>, ghost w: World)
      requires Shaped()
      modifies this, sink
      ensures (Current(), r) == CloseStep(old(Current()), w)
      ensures sink.answers == old(sink.answers) + Answers(old(Current()), Op.Close, w)
    {
      ghost var s := Current();
      w := World(0, 0, 0, true, false, true, true, true);
      r, w := FlushBufferedRows(w);
      if r.Ok? && open {
        ghost var v := w;
        var finished := sink.Close();
        w := w.(finish := finished);
        FlushUnaffected(s, v, w);
        if !finished {
          r := Err(IoError);
        }
      }
      open := false;
    }
  }
}
