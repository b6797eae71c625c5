/** Repacking: reading rows from a list of files in batches and writing them out again in files
  of a given number of rows. */
module Repack {
  import opened Values
  import opened Arrow
  import opened RepackLog
  import W = WriterState

  const DEFAULT_MAX_READ_ROWS_PER_CHUNK: nat := 8192

  /** What the external reader yields: a batch of rows or an error. */
  type Batch = Outcome<seq<Row>>

  /** An input that can be opened has a schema and yields batches; the cuts are the reader's. */
  datatype Input = Input(schema: seq<Field>, batches: seq<Batch>)

  datatype RepackedFile = RepackedFile(index: nat, numRows: nat)

  // ---------------------------------------------------------------- what repacking means

  /** The rows of all batches that could be read. */
  function BatchRows(batches: seq<Batch>): seq<Row> {
    if batches == [] then []
    else
      var n := |batches| - 1;
      BatchRows(batches[..n]) + (if batches[n].Ok? then batches[n].value else [])
  }

  function InputRows(inputs: seq<Outcome<Input>>): seq<Row> {
    if inputs == [] then []
    else
      var n := |inputs| - 1;
      InputRows(inputs[..n]) + (if inputs[n].Ok? then BatchRows(inputs[n].value.batches) else [])
  }

  /** The reference: cut off n rows at a time; what is left, at most n rows, is the last file. */
  function Split(rows: seq<Row>, n: nat): (parts: seq<seq<Row>>)
    requires n > 0
    ensures parts != []
  {
    if |rows| <= n then [rows] else [rows[..n]] + Split(rows[n..], n)
  }

  function Parts(rows: seq<Row>, rowsPerFile: Option<nat>): (parts: seq<seq<Row>>)
    requires rowsPerFile.Some? ==> rowsPerFile.value > 0
  {
    match rowsPerFile
    case Some(n) => Split(rows, n)
    case None => [rows]
  }

  function Concat(parts: seq<seq<Row>>): seq<Row> {
    if parts == [] then [] else Concat(parts[..|parts| - 1]) + parts[|parts| - 1]
  }

  lemma {:induction false} ConcatFront(first: seq<Row>, rest: seq<seq<Row>>)
    ensures Concat([first] + rest) == first + Concat(rest)
    decreases |rest|
  {
    var all := [first] + rest;
    if rest == [] {
      assert all[..0] == [];
      assert Concat(all) == Concat([]) + first;
    } else {
      assert all[..|all| - 1] == [first] + rest[..|rest| - 1];
      ConcatFront(first, rest[..|rest| - 1]);
    }
  }

  /** Main result on the reference: nothing is lost or reordered, every file but the last has
      exactly n rows, the last has at most n and, unless there are no rows at all, at least one. */
  lemma {:induction false} SplitProperties(rows: seq<Row>, n: nat)
    requires n > 0
    ensures var parts := Split(rows, n);
            && Concat(parts) == rows
            && (forall k :: 0 <= k < |parts| - 1 ==> |parts[k]| == n)
            && |parts[|parts| - 1]| <= n
            && (rows != [] ==> parts[|parts| - 1] != [])
            && (rows == [] ==> parts == [[]])
    decreases |rows|
  {
    if |rows| > n {
      SplitProperties(rows[n..], n);
      ConcatFront(rows[..n], Split(rows[n..], n));
      assert rows == rows[..n] + rows[n..];
    } else {
      assert [rows][..0] == [];
    }
  }

  /** These properties determine the split, so it does not matter how the rows arrived. */
  lemma {:induction false} SplitUnique(parts: seq<seq<Row>>, n: nat)
    requires n > 0 && parts != []
    requires forall k :: 0 <= k < |parts| - 1 ==> |parts[k]| == n
    requires |parts[|parts| - 1]| <= n && (|parts| > 1 ==> parts[|parts| - 1] != [])
    ensures Split(Concat(parts), n) == parts
    decreases |parts|
  {
    if |parts| == 1 {
      assert parts[..0] == [];
      assert Concat(parts) == parts[0];
    } else {
      var rest := parts[1..];
      assert parts == [parts[0]] + rest;
      ConcatFront(parts[0], rest);
      SplitUnique(rest, n);
      assert Concat(rest)[..] == Concat(parts)[n..];
      LastBound(rest);
    }
  }

  lemma {:induction false} LastBound(parts: seq<seq<Row>>)
    requires parts != [] && parts[|parts| - 1] != []
    ensures Concat(parts) != []
  {
  }

  // ---------------------------------------------------------------- chunk size

  function EffectiveMaxReadRowsPerChunk(requested: Option<nat>, columnCount: nat): nat {
    Min(if requested.Some? then requested.value else DEFAULT_MAX_READ_ROWS_PER_CHUNK, W.MaxBatchSizeFor(columnCount))
  }

  /** A positive request gives a positive chunk that keeps a chunk within the slot limit. */
  lemma ChunkSizeOk(requested: Option<nat>, columnCount: nat)
    requires requested.Some? ==> requested.value > 0
    requires columnCount <= W.MAX_BUFFERED_VALUE_SLOTS
    ensures W.BatchSizeOk(EffectiveMaxReadRowsPerChunk(requested, columnCount), columnCount)
  {
    W.BatchSizesOk(columnCount, EffectiveMaxReadRowsPerChunk(requested, columnCount));
  }

  /** And it is the largest such chunk within the request, or within 8192 rows without one. */
  lemma ChunkSizeLargest(requested: Option<nat>, columnCount: nat, larger: nat)
    requires columnCount <= 1_000_000
    ensures var size := EffectiveMaxReadRowsPerChunk(requested, columnCount);
            && size <= (if requested.Some? then requested.value else 8192)
            && (size < larger <= (if requested.Some? then requested.value else 8192)
                ==> !W.BatchSizeOk(larger, columnCount))
  {
    W.LargestBatchSize(columnCount, larger);
  }

  // ---------------------------------------------------------------- the program

  function Outputs(parts: seq<seq<Row>>): (outs: seq<Output>)
    ensures |outs| == |parts|
  {
    seq(|parts|, k requires 0 <= k < |parts| => Output(k, parts[k], |parts[k]|))
  }

  function Reported(outs: seq<Output>): (files: seq<RepackedFile>)
    ensures |files| == |outs|
  {
    seq(|outs|, k requires 0 <= k < |outs| => RepackedFile(outs[k].index, outs[k].numRows))
  }

  /** The report on the parts of a split: file k has number k and as many rows as part k. */
  lemma ReportedParts(parts: seq<seq<Row>>)
    ensures var files := Reported(Outputs(parts));
            && |files| == |parts|
            && forall k :: 0 <= k < |parts| ==> files[k].index == k && files[k].numRows == |parts[k]|
  {
  }

  predicate AllReadable(inputs: seq<Outcome<Input>>) {
    && inputs != [] && inputs[0].Ok?
    && forall k :: 0 <= k < |inputs| ==> inputs[k].Ok? && inputs[k].value.schema == inputs[0].value.schema
  }

  predicate AllRead(batches: seq<Batch>, n: nat)
    requires n <= |batches|
  {
    forall b :: 0 <= b < n ==> batches[b].Ok?
  }

  predicate AllBatchesRead(input: Input) {
    AllRead(input.batches, |input.batches|)
  }

  /** Every input can be read to the end, and everything asked of the outside world up to the
      persist phase was answered well. */
  predicate Ready(inputs: seq<Outcome<Input>>, prepared: Log) {
    AllReadable(inputs) && AllInputsRead(inputs) && AllOk(prepared)
  }

  /** `repack_files`. Argument parsing guarantees an input and a positive row count. A persisted
      file is visible under its final path; `prepared` is the log up to the persist phase.

      Unless every input could be read and every answer before the persist phase was good, the
      result is an error, nothing is persisted and nothing was asked to be. If they were, each file
      of the split was created, holds exactly its rows by the writes of the log, and was closed, in
      order and with a look at the cancellation flag after every write; the files are persisted in
      order, and the result is a success exactly when all of them were. */
  method RepackFiles(inputs: seq<Outcome<Input>>, rowsPerFile: Option<nat>, outside: Outside)
    returns (r: Outcome<seq<RepackedFile>>, persisted: seq<Output>, ghost prepared: Log)
    requires inputs != [] && (rowsPerFile.Some? ==> rowsPerFile.value > 0)
    requires outside.log == []
    modifies outside
    ensures NoPersist(prepared)
    ensures !Ready(inputs, prepared) ==> r == Err(IoError) && persisted == [] && outside.log == prepared
    ensures Ready(inputs, prepared) ==>
              var all := Outputs(Parts(InputRows(inputs), rowsPerFile));
              && Prepared(prepared, all, |inputs|)
              && persisted <= all && outside.log == prepared + PersistAnswers(all, |persisted|)
              && r == if persisted == all then Ok(Reported(all)) else Err(IoError)
  {
    persisted, prepared := [], [];
    var sameSchema := ValidateInputs(inputs);
    if !sameSchema {
      return Err(IoError), [], [];
    }
    var ok, completed, current := RepackInputs(inputs, rowsPerFile, outside);
    if !ok {
      return Err(IoError), [], outside.log;
    }
    LoopEnds(completed, current, rowsPerFile, InputRows(inputs));
    var closed, outputs := CloseOutputs(completed, current, |inputs|, outside);
    prepared := outside.log;
    if !closed {
      return Err(IoError), [], prepared;
    }
    RecordedFacts(prepared, outputs, None, |inputs|);
    r, persisted := PersistOutputs(outputs, outside);
  }

  predicate AllInputsRead(inputs: seq<Outcome<Input>>) {
    forall f :: 0 <= f < |inputs| ==> inputs[f].Ok? && AllBatchesRead(inputs[f].value)
  }

  /** The outer loop: one input after the other. */
  method RepackInputs(inputs: seq<Outcome<Input>>, rowsPerFile: Option<nat>, outside: Outside)
    returns (ok: bool, completed: seq<Output>, current: Option<Output>)
    requires (rowsPerFile.Some? ==> rowsPerFile.value > 0) && AllReadable(inputs) && outside.log == []
    modifies outside
    ensures NoPersist(outside.log) && (ok <==> AllOk(outside.log) && AllInputsRead(inputs))
    ensures ok ==> Progress(completed, current, rowsPerFile, InputRows(inputs))
    ensures ok ==> Recorded(outside.log, completed, current, |inputs|)
  {
    ok, completed, current := true, [], None;
    for f := 0 to |inputs|
      invariant Progress(completed, current, rowsPerFile, InputRows(inputs[..f]))
      invariant Recorded(outside.log, completed, current, f)
      invariant AllInputsRead(inputs[..f])
    {
      InputConsumed(inputs, f);
      ok, completed, current :=
        RepackInput(f, inputs[f].value, rowsPerFile, completed, current,
                    InputRows(inputs[..f]), InputRows(inputs[..f + 1]), outside);
      if !ok {
        return;
      }
    }
    assert inputs[..|inputs|] == inputs;
    RecordedFacts(outside.log, completed, current, |inputs|);
    ok := true;
  }

  lemma InputConsumed(inputs: seq<Outcome<Input>>, f: nat)
    requires f < |inputs| && inputs[f].Ok?
    ensures InputRows(inputs[..f + 1]) == InputRows(inputs[..f]) + BatchRows(inputs[f].value.batches)
    ensures AllInputsRead(inputs[..f + 1]) <==> AllInputsRead(inputs[..f]) && AllBatchesRead(inputs[f].value)
    ensures AllInputsRead(inputs) ==> AllBatchesRead(inputs[f].value)
  {
    assert inputs[..f + 1][..f] == inputs[..f];
    if AllInputsRead(inputs[..f + 1]) {
      assert forall k :: 0 <= k < f ==> inputs[..f][k] == inputs[..f + 1][k];
      assert inputs[..f + 1][f] == inputs[f];
    }
  }

  /** The open output is closed; when there is none at all, an empty one is made. */
  method CloseOutputs(completed: seq<Output>, current: Option<Output>, ghost inputs: nat, outside: Outside)
    returns (ok: bool, outs: seq<Output>)
    requires Recorded(outside.log, completed, current, inputs)
    modifies outside
    ensures NoPersist(outside.log) && (ok <==> AllOk(outside.log))
    ensures ok ==> outs == FinalOutputs(completed, current) && Recorded(outside.log, outs, None, inputs)
  {
    ok, outs := true, completed;
    RecordedFacts(outside.log, completed, current, inputs);
    if current.Some? {
      ok := CloseOutput(completed, current.value, inputs, outside);
      if !ok {
        return;
      }
      outs := outs + [current.value];
    }
    if outs == [] {
      var last: Output;
      ok, last := OpenOutput(outs, None, inputs, outside);
      if !ok {
        return;
      }
      ok := CloseOutput(outs, last, inputs, outside);
      assert outs + [last] == [last];
      outs := [last];
    }
  }

  /** The output at hand, or a new one. */
  method OpenOutput(completed: seq<Output>, current: Option<Output>, ghost inputs: nat, outside: Outside)
    returns (ok: bool, output: Output)
    requires Recorded(outside.log, completed, current, inputs)
    modifies outside
    ensures NoPersist(outside.log) && (ok <==> AllOk(outside.log))
    ensures output == if current.Some? then current.value else Output(|completed|, [], 0)
    ensures ok ==> Recorded(outside.log, completed, Some(output), inputs)
  {
    RecordedFacts(outside.log, completed, current, inputs);
    if current.Some? {
      return true, current.value;
    }
    OutputCreated(outside.log, completed, inputs);
    ghost var before := outside.log;
    ok := outside.Ask(Create(|completed|));
    if !ok { FailedAnswer(before, Create(|completed|)); }
    output := Output(|completed|, [], 0);
  }

  method CloseOutput(ghost completed: seq<Output>, output: Output, ghost inputs: nat, outside: Outside)
    returns (ok: bool)
    requires Recorded(outside.log, completed, Some(output), inputs)
    modifies outside
    ensures NoPersist(outside.log) && (ok <==> AllOk(outside.log))
    ensures ok ==> Recorded(outside.log, completed + [output], None, inputs)
  {
    RecordedFacts(outside.log, completed, Some(output), inputs);
    OutputClosed(outside.log, completed, output, inputs);
    ghost var before := outside.log;
    ok := outside.Ask(Close(output.index));
    if !ok { FailedAnswer(before, Close(output.index)); }
  }

  /** Every input opens, and has the first one's schema. */
  method ValidateInputs(inputs: seq<Outcome<Input>>) returns (ok: bool)
    requires inputs != []
    ensures ok == AllReadable(inputs)
    ensures ok <==> forall k :: 0 <= k < |inputs| ==>
                      inputs[0].Ok? && inputs[k].Ok? && inputs[k].value.schema == inputs[0].value.schema
  {
    if !inputs[0].Ok? {
      return false;
    }
    for k := 1 to |inputs|
      invariant forall i :: 0 <= i < k ==> inputs[i].Ok? && inputs[i].value.schema == inputs[0].value.schema
    {
      if !inputs[k].Ok? || inputs[k].value.schema != inputs[0].value.schema {
        return false;
      }
    }
    return true;
  }

  /** Completed outputs are full, the current one is started and not full, numbers and counts
      are right, and together they hold exactly the rows consumed so far. */
  ghost predicate Progress(completed: seq<Output>, current: Option<Output>, rowsPerFile: Option<nat>, rows: seq<Row>) {
    && (forall k :: 0 <= k < |completed| ==> completed[k] == Output(k, completed[k].rows, |completed[k].rows|))
    && (forall k :: 0 <= k < |completed| ==> rowsPerFile == Some(|completed[k].rows|))
    && (current.Some? ==>
          && current.value == Output(|completed|, current.value.rows, |current.value.rows|)
          && current.value.rows != []
          && (rowsPerFile.Some? ==> |current.value.rows| < rowsPerFile.value))
    && Concat(RowsOf(completed)) + (if current.Some? then current.value.rows else []) == rows
  }

  function RowsOf(outs: seq<Output>): (parts: seq<seq<Row>>)
    ensures |parts| == |outs|
  {
    seq(|outs|, k requires 0 <= k < |outs| => outs[k].rows)
  }

  /** The middle loop: the batches of one input, which is opened again for reading. */
  method RepackInput(f: nat, input: Input, rowsPerFile: Option<nat>, completed0: seq<Output>, current0: Option<Output>,
                     ghost before: seq<Row>, ghost after: seq<Row>, outside: Outside)
    returns (ok: bool, completed: seq<Output>, current: Option<Output>)
    requires (rowsPerFile.Some? ==> rowsPerFile.value > 0) && after == before + BatchRows(input.batches)
    requires Progress(completed0, current0, rowsPerFile, before) && Recorded(outside.log, completed0, current0, f)
    modifies outside
    ensures NoPersist(outside.log) && (ok <==> AllOk(outside.log) && AllBatchesRead(input))
    ensures ok ==> Progress(completed, current, rowsPerFile, after)
    ensures ok ==> Recorded(outside.log, completed, current, f + 1)
  {
    completed, current := completed0, current0;
    ok := ReopenInput(f, completed, current, outside);
    if !ok {
      return;
    }
    ghost var rows: seq<Row>;
    ok, completed, current, rows :=
      RepackBatches(input.batches, rowsPerFile, completed, current, before, f + 1, outside);
    assert input.batches[..|input.batches|] == input.batches;
  }

  /** The batches of an input that has been opened. */
  method RepackBatches(batches: seq<Batch>, rowsPerFile: Option<nat>, completed0: seq<Output>, current0: Option<Output>,
                       ghost before: seq<Row>, ghost inputs: nat, outside: Outside)
    returns (ok: bool, completed: seq<Output>, current: Option<Output>, ghost rows: seq<Row>)
    requires rowsPerFile.Some? ==> rowsPerFile.value > 0
    requires Progress(completed0, current0, rowsPerFile, before) && Recorded(outside.log, completed0, current0, inputs)
    modifies outside
    ensures NoPersist(outside.log) && (ok <==> AllOk(outside.log) && AllRead(batches, |batches|))
    ensures ok ==> rows == before + BatchRows(batches[..|batches|]) && Progress(completed, current, rowsPerFile, rows)
    ensures ok ==> Recorded(outside.log, completed, current, inputs)
  {
    ok, completed, current, rows := true, completed0, current0, before;
    assert before + BatchRows(batches[..0]) == before;
    var b := 0;
    while b < |batches|
      invariant ok && b <= |batches| && AllRead(batches, b) && rows == before + BatchRows(batches[..b])
      invariant Progress(completed, current, rowsPerFile, rows) && Recorded(outside.log, completed, current, inputs)
    {
      ok, completed, current, rows :=
        RepackNext(batches, b, rowsPerFile, completed, current, before, rows, inputs, outside);
      if !ok {
        return;
      }
      b := b + 1;
    }
    RecordedFacts(outside.log, completed, current, inputs);
  }

  method ReopenInput(f: nat, ghost completed: seq<Output>, ghost current: Option<Output>, outside: Outside)
    returns (ok: bool)
    requires Recorded(outside.log, completed, current, f)
    modifies outside
    ensures NoPersist(outside.log) && (ok <==> AllOk(outside.log))
    ensures ok ==> Recorded(outside.log, completed, current, f + 1)
  {
    ghost var before := outside.log;
    RecordedFacts(before, completed, current, f);
    InputOpened(before, completed, current, f);
    ok := outside.Ask(OpenInput(f));
    if !ok { FailedAnswer(before, OpenInput(f)); }
  }

  /** The body of the middle loop: the next batch, which may be an error. */
  method RepackNext(batches: seq<Batch>, b: nat, rowsPerFile: Option<nat>, completed0: seq<Output>,
                    current0: Option<Output>, ghost before: seq<Row>, ghost rows0: seq<Row>, ghost inputs: nat,
                    outside: Outside)
    returns (ok: bool, completed: seq<Output>, current: Option<Output>, ghost rows: seq<Row>)
    requires (rowsPerFile.Some? ==> rowsPerFile.value > 0) && b < |batches|
    requires rows0 == before + BatchRows(batches[..b])
    requires Progress(completed0, current0, rowsPerFile, rows0) && Recorded(outside.log, completed0, current0, inputs)
    modifies outside
    ensures NoPersist(outside.log) && (ok <==> AllOk(outside.log) && batches[b].Ok?)
    ensures rows == before + BatchRows(batches[..b + 1])
    ensures ok ==> Progress(completed, current, rowsPerFile, rows) && Recorded(outside.log, completed, current, inputs)
  {
    rows := before + BatchRows(batches[..b + 1]);
    if !batches[b].Ok? {
      RecordedFacts(outside.log, completed0, current0, inputs);
      return false, completed0, current0, rows;
    }
    BatchConsumed(before, batches, b);
    ok, completed, current :=
      RepackBatch(batches[b].value, rowsPerFile, completed0, current0, rows0, rows, inputs, outside);
  }

  lemma BatchConsumed(before: seq<Row>, batches: seq<Batch>, b: nat)
    requires b < |batches|
    ensures batches[b].Ok? ==>
              before + BatchRows(batches[..b + 1]) == before + BatchRows(batches[..b]) + batches[b].value
  {
    assert batches[..b + 1][..b] == batches[..b];
  }

  /** The inner loop: slices of one batch, each up to the end of the batch or of the output. */
  method RepackBatch(batch: seq<Row>, rowsPerFile: Option<nat>, completed0: seq<Output>, current0: Option<Output>,
                     ghost before: seq<Row>, ghost after: seq<Row>, ghost inputs: nat, outside: Outside)
    returns (ok: bool, completed: seq<Output>, current: Option<Output>)
    requires (rowsPerFile.Some? ==> rowsPerFile.value > 0) && after == before + batch
    requires Progress(completed0, current0, rowsPerFile, before) && Recorded(outside.log, completed0, current0, inputs)
    modifies outside
    ensures NoPersist(outside.log) && (ok <==> AllOk(outside.log))
    ensures ok ==> Progress(completed, current, rowsPerFile, after)
    ensures ok ==> Recorded(outside.log, completed, current, inputs)
  {
    ok, completed, current := true, completed0, current0;
    var currentOutputRows: nat := if current.Some? then current.value.numRows else 0;
    var offset: nat := 0;
    ghost var rows := before;
    while offset < |batch|
      invariant ok && offset <= |batch| && rows == before + batch[..offset]
      invariant currentOutputRows == if current.Some? then current.value.numRows else 0
      invariant Progress(completed, current, rowsPerFile, rows) && Recorded(outside.log, completed, current, inputs)
      decreases |batch| - offset
    {
      var written: nat;
      ok, completed, current, currentOutputRows, written, rows :=
        WriteNext(batch, offset, rowsPerFile, completed, current, currentOutputRows, before, rows, inputs, outside);
      if !ok {
        return;
      }
      offset := offset + written;
    }
    RecordedFacts(outside.log, completed, current, inputs);
    assert batch[..|batch|] == batch;
  }

  /** One turn of the inner loop: the next slice of the batch, and how long it was. */
  method WriteNext(batch: seq<Row>, offset: nat, rowsPerFile: Option<nat>, completed0: seq<Output>,
                   current0: Option<Output>, outputRows: nat, ghost before: seq<Row>, ghost rows0: seq<Row>,
                   ghost inputs: nat, outside: Outside)
    returns (ok: bool, completed: seq<Output>, current: Option<Output>, currentOutputRows: nat, written: nat,
             ghost rows: seq<Row>)
    requires (rowsPerFile.Some? ==> rowsPerFile.value > 0) && offset < |batch| && rows0 == before + batch[..offset]
    requires Progress(completed0, current0, rowsPerFile, rows0) && Recorded(outside.log, completed0, current0, inputs)
    requires outputRows == if current0.Some? then current0.value.numRows else 0
    modifies outside
    ensures NoPersist(outside.log) && (ok <==> AllOk(outside.log))
    ensures 0 < written <= |batch| - offset && rows == before + batch[..offset + written]
    ensures ok ==> Progress(completed, current, rowsPerFile, rows) && Recorded(outside.log, completed, current, inputs)
    ensures ok ==> currentOutputRows == if current.Some? then current.value.numRows else 0
  {
    written := SliceLength(|batch| - offset, rowsPerFile, completed0, current0, outputRows, rows0);
    var slice := batch[offset..offset + written];
    rows := before + batch[..offset + written];
    SliceConsumed(before, batch, offset, offset + written);
    ok, completed, current, currentOutputRows :=
      WriteSlice(slice, rowsPerFile, completed0, current0, outputRows, rows0, rows, inputs, outside);
  }

  /** As many rows as are left in the batch, or in the output. The subtraction does not underflow,
      and the slice is not empty. */
  method SliceLength(remainingInBatch: nat, rowsPerFile: Option<nat>, ghost completed: seq<Output>,
                     ghost current: Option<Output>, currentOutputRows: nat, ghost rows: seq<Row>) returns (n: nat)
    requires remainingInBatch > 0 && (rowsPerFile.Some? ==> rowsPerFile.value > 0)
    requires Progress(completed, current, rowsPerFile, rows)
    requires currentOutputRows == if current.Some? then current.value.numRows else 0
    ensures 0 < n <= remainingInBatch
    ensures rowsPerFile.Some? ==> currentOutputRows + n <= rowsPerFile.value
    ensures n == remainingInBatch || rowsPerFile == Some(currentOutputRows + n)
  {
    n := remainingInBatch;
    if rowsPerFile.Some? {
      var remainingInOutput: nat := rowsPerFile.value - currentOutputRows;
      n := Min(remainingInBatch, remainingInOutput);
    }
  }

  /** What a turn does with its slice: open an output if there is none, write the slice to it, look at
      the cancellation flag, and close the output once it is full. */
  method WriteSlice(slice: seq<Row>, rowsPerFile: Option<nat>, completed0: seq<Output>, current0: Option<Output>,
                    rows0: nat, ghost before: seq<Row>, ghost after: seq<Row>, ghost inputs: nat, outside: Outside)
    returns (ok: bool, completed: seq<Output>, current: Option<Output>, rows: nat)
    requires Progress(completed0, current0, rowsPerFile, before) && Recorded(outside.log, completed0, current0, inputs)
    requires slice != [] && after == before + slice && rows0 == if current0.Some? then current0.value.numRows else 0
    requires rowsPerFile.Some? ==> rows0 + |slice| <= rowsPerFile.value
    modifies outside
    ensures NoPersist(outside.log) && (ok <==> AllOk(outside.log))
    ensures ok ==> Progress(completed, current, rowsPerFile, after)
    ensures ok ==> Recorded(outside.log, completed, current, inputs)
    ensures ok ==> rows == if current.Some? then current.value.numRows else 0
  {
    completed, current, rows := completed0, current0, rows0;
    var output;
    ok, output := OpenOutput(completed, current, inputs, outside);
    if !ok {
      return;
    }
    ok := WriteAndCheck(completed, output, slice, inputs, outside);
    if !ok {
      return;
    }
    SliceWritten(completed, current, output.rows + slice, rowsPerFile, before, slice);
    output := Output(output.index, output.rows + slice, output.numRows + |slice|);
    ok, completed, current, rows := CloseIfFull(rowsPerFile, completed, output, rows + |slice|, inputs, outside);
  }

  /** The output is closed once it has its rows, and kept open until then. */
  method CloseIfFull(rowsPerFile: Option<nat>, completed0: seq<Output>, output: Output, rows0: nat, ghost inputs: nat,
                     outside: Outside)
    returns (ok: bool, completed: seq<Output>, current: Option<Output>, rows: nat)
    requires Recorded(outside.log, completed0, Some(output), inputs)
    modifies outside
    ensures NoPersist(outside.log) && (ok <==> AllOk(outside.log))
    ensures ok ==> Recorded(outside.log, completed, current, inputs)
    ensures ok ==> (completed, current, rows) ==
                     if rowsPerFile == Some(rows0) then (completed0 + [output], None, 0)
                     else (completed0, Some(output), rows0)
  {
    ok, completed, current, rows := true, completed0, Some(output), rows0;
    RecordedFacts(outside.log, completed, current, inputs);
    if rowsPerFile == Some(rows) {
      ok := CloseOutput(completed, output, inputs, outside);
      completed, current, rows := completed + [output], None, 0;
    }
  }

  /** Writing the slice and looking at the cancellation flag. */
  method WriteAndCheck(ghost completed: seq<Output>, output: Output, slice: seq<Row>, ghost inputs: nat,
                       outside: Outside)
    returns (ok: bool)
    requires Recorded(outside.log, completed, Some(output), inputs)
    modifies outside
    ensures NoPersist(outside.log) && (ok <==> AllOk(outside.log))
    ensures ok ==> Recorded(outside.log, completed,
                            Some(Output(output.index, output.rows + slice, output.numRows + |slice|)), inputs)
  {
    ghost var log := outside.log;
    RecordedFacts(log, completed, Some(output), inputs);
    SliceRecorded(log, completed, output, slice, inputs);
    ok := outside.Ask(Write(output.index, slice));
    if !ok {
      FailedAnswer(log, Write(output.index, slice));
      return;
    }
    ghost var written := outside.log;
    ok := outside.Ask(CheckCancelled);
    if !ok { FailedAnswer(written, CheckCancelled); }
  }

  lemma SliceConsumed(before: seq<Row>, batch: seq<Row>, from: nat, to: nat)
    requires from <= to <= |batch|
    ensures before + batch[..from] + batch[from..to] == before + batch[..to]
  {
  }

  /** Writing a slice moves the progress on by exactly that slice, in either continuation. */
  lemma SliceWritten(completed: seq<Output>, current: Option<Output>, after: seq<Row>, rowsPerFile: Option<nat>,
                     rows: seq<Row>, slice: seq<Row>)
    requires Progress(completed, current, rowsPerFile, rows) && slice != []
    requires after == (if current.Some? then current.value.rows else []) + slice
    requires rowsPerFile.Some? ==> |after| <= rowsPerFile.value
    ensures var output := Output(|completed|, after, |after|);
            if rowsPerFile == Some(|after|) then Progress(completed + [output], None, rowsPerFile, rows + slice)
            else Progress(completed, Some(output), rowsPerFile, rows + slice)
  {
    var output := Output(|completed|, after, |after|);
    var parts := RowsOf(completed + [output]);
    assert parts[..|completed|] == RowsOf(completed);
    assert Concat(parts) == Concat(RowsOf(completed)) + after;
    assert Concat(parts) + [] == Concat(parts);
    assert Concat(RowsOf(completed)) + after == rows + slice;
  }

  /** The outputs after the loops: the open one is closed, and there is at least one. */
  function FinalOutputs(completed: seq<Output>, current: Option<Output>): (outs: seq<Output>) {
    if current.Some? then completed + [current.value]
    else if completed == [] then [Output(0, [], 0)]
    else completed
  }

  lemma LoopEnds(completed: seq<Output>, current: Option<Output>, rowsPerFile: Option<nat>, rows: seq<Row>)
    requires rowsPerFile.Some? ==> rowsPerFile.value > 0
    requires Progress(completed, current, rowsPerFile, rows)
    ensures Outputs(Parts(rows, rowsPerFile)) == FinalOutputs(completed, current)
  {
    var outs := FinalOutputs(completed, current);
    var parts := RowsOf(outs);
    var n := |outs| - 1;
    if current.Some? {
      assert parts[..n] == RowsOf(completed);
      assert Concat(parts) == Concat(RowsOf(completed)) + current.value.rows;
    } else if completed == [] {
      assert parts == [[]] && parts[..0] == [];
      assert Concat(parts) == Concat([]) + [];
      assert rows == [];
    } else {
      assert Concat(RowsOf(completed)) + [] == Concat(RowsOf(completed));
    }
    ProgressEnds(outs, rowsPerFile, rows);
  }

  /** When everything is closed, the outputs are the parts of the reference. */
  lemma ProgressEnds(outs: seq<Output>, rowsPerFile: Option<nat>, rows: seq<Row>)
    requires rowsPerFile.Some? ==> rowsPerFile.value > 0
    requires outs != [] && Concat(RowsOf(outs)) == rows
    requires forall k :: 0 <= k < |outs| ==> outs[k] == Output(k, outs[k].rows, |outs[k].rows|)
    requires forall k :: 0 <= k < |outs| - 1 ==> rowsPerFile == Some(|outs[k].rows|)
    requires var last := outs[|outs| - 1].rows;
             && (rowsPerFile.Some? ==> |last| <= rowsPerFile.value)
             && (|outs| > 1 ==> last != [])
    requires rowsPerFile.None? ==> |outs| == 1
    ensures Outputs(Parts(rows, rowsPerFile)) == outs
  {
    var parts := RowsOf(outs);
    if rowsPerFile.Some? {
      SplitUnique(parts, rowsPerFile.value);
    } else {
      assert parts[..0] == [];
      assert Concat(parts) == Concat([]) + parts[0];
      assert Concat(parts) == parts[0];
    }
  }

  /** `persist_outputs`: in order, stopping at the first failure. */
  method PersistOutputs(outs: seq<Output>, outside: Outside)
    returns (r: Outcome<seq<RepackedFile>>, persisted: seq<Output>)
    modifies outside
    ensures persisted <= outs && outside.log == old(outside.log) + PersistAnswers(outs, |persisted|)
    ensures r == if persisted == outs then Ok(Reported(outs)) else Err(IoError)
  {
    persisted := [];
    var files: seq<RepackedFile> := [];
    ghost var start := outside.log;
    for k := 0 to |outs|
      invariant persisted == outs[..k] && files == Reported(outs)[..k]
      invariant outside.log == start + Persisted(outs, k)
    {
      var ok := outside.Ask(Persist(outs[k].index));
      if !ok {
        assert |persisted| < |outs|;
        return Err(IoError), persisted;
      }
      persisted := persisted + [outs[k]];
      files := files + [RepackedFile(outs[k].index, outs[k].numRows)];
      assert Persisted(outs, k + 1) == Persisted(outs, k) + [Answer(Persist(outs[k].index), true)];
    }
    assert outs[..|outs|] == outs && Reported(outs)[..|outs|] == Reported(outs);
    assert start + Persisted(outs, |outs|) == start + PersistAnswers(outs, |outs|);
    return Ok(files), persisted;
  }
}
