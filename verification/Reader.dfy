/** Row and column iteration over the batches of a file, projection, and their agreement.

  The batches come from the external Parquet reader, which may cut a file into batches in any
  way, zero-row batches included, and may report an error in place of a batch. */
module Reader {
  import opened Values
  import opened Arrow
  import opened Conversion

  /** What every iterator holds besides its batches: the Arrow fields and the aligned nodes. */
  datatype Layout = Layout(fields: seq<Field>, nodes: seq<ParquetType>)

  predicate Fitting(l: Layout, b: RecordBatch) {
    && |l.nodes| == |l.fields| == |b.columns|
    && forall j :: 0 <= j < |b.columns| ==> Len(b.columns[j]) == b.numRows
  }

  // ---------------------------------------------------------------- cells, rows and columns

  function Cell(l: Layout, b: RecordBatch, i: nat, j: nat): Outcome<Value>
    requires Fitting(l, b) && j < |l.fields|
  {
    Read(l.fields[j], l.nodes[j], b.columns[j], i)
  }

  function RowCells(l: Layout, b: RecordBatch, i: nat): (cells: seq<Outcome<Value>>)
    requires Fitting(l, b)
    ensures |cells| == |l.fields|
  {
    seq(|l.fields|, j requires 0 <= j < |l.fields| => Cell(l, b, i, j))
  }

  function ColumnCells(l: Layout, b: RecordBatch, j: nat): (cells: seq<Outcome<Value>>)
    requires Fitting(l, b) && j < |l.fields|
    ensures |cells| == b.numRows
  {
    seq(b.numRows, i requires 0 <= i < b.numRows => Cell(l, b, i, j))
  }

  // ---------------------------------------------------------------- the row iterator

  /** One answer of the row iterator. A sticky answer is given again on the next call: when a
      cell cannot be converted the position is not advanced. */
  datatype Item = Item(result: Outcome<Row>, sticky: bool)

  function ItemOf(cells: seq<Outcome<Value>>): Item {
    var row := Collect(cells);
    Item(row, !row.Ok?)
  }

  function BatchItems(l: Layout, b: RecordBatch): (items: seq<Item>)
    requires Fitting(l, b)
    ensures |items| == b.numRows
  {
    seq(b.numRows, i requires 0 <= i < b.numRows => ItemOf(RowCells(l, b, i)))
  }

  predicate AllFitting(l: Layout, batches: seq<Outcome<RecordBatch>>) {
    forall k :: 0 <= k < |batches| && batches[k].Ok? ==> Fitting(l, batches[k].value)
  }

  function Items(l: Layout, batches: seq<Outcome<RecordBatch>>): seq<Item>
    requires AllFitting(l, batches)
  {
    if batches == [] then []
    else
      (if batches[0].Ok? then BatchItems(l, batches[0].value)
       else [Item(batches[0].PropagateFailure<Row>(), false)]) + Items(l, batches[1..])
  }

  predicate Positioned(l: Layout, current: Option<RecordBatch>, row: nat) {
    current.Some? ==> Fitting(l, current.value) && row <= current.value.numRows
  }

  /** The answers still to come from a position in a batch and the batches after it. */
  ghost function PendingFrom(l: Layout, current: Option<RecordBatch>, row: nat, batches: seq<Outcome<RecordBatch>>)
    : seq<Item>
    requires Positioned(l, current, row) && AllFitting(l, batches)
  {
    (if current.Some? then BatchItems(l, current.value)[row..] else []) + Items(l, batches)
  }

  lemma PendingRow(l: Layout, b: RecordBatch, row: nat, batches: seq<Outcome<RecordBatch>>)
    requires Fitting(l, b) && row < b.numRows && AllFitting(l, batches)
    ensures var pending := PendingFrom(l, Some(b), row, batches);
            && pending != [] && pending[0] == BatchItems(l, b)[row]
            && pending[1..] == PendingFrom(l, Some(b), row + 1, batches)
  {
  }

  lemma PendingFetch(l: Layout, current: Option<RecordBatch>, row: nat, batches: seq<Outcome<RecordBatch>>)
    requires Positioned(l, current, row) && AllFitting(l, batches) && batches != []
    requires current.Some? ==> row == current.value.numRows
    ensures var pending, head, rest := PendingFrom(l, current, row, batches), batches[0], batches[1..];
            if head.Ok? then pending == PendingFrom(l, Some(head.value), 0, rest)
            else pending == [Item(head.PropagateFailure<Row>(), false)] + PendingFrom(l, current, row, rest)
  {
    var rest := Items(l, batches[1..]);
    if current.Some? {
      SkipAll(BatchItems(l, current.value), Items(l, batches));
      SkipAll(BatchItems(l, current.value), rest);
    }
    if batches[0].Ok? { SkipAll(BatchItems(l, batches[0].value), rest); }
    assert [] + Items(l, batches) == Items(l, batches) && [] + rest == rest;
  }

  lemma SkipAll<T>(s: seq<T>, t: seq<T>)
    ensures s[|s|..] + t == t && s[0..] == s
  {
  }

  class RowIterator {
    const layout: Layout
    var batchReader: seq<Outcome<RecordBatch>>
    var currentBatch: Option<RecordBatch>
    var currentRow: nat

    ghost predicate Valid()
      reads this
    {
      AllFitting(layout, batchReader) && Positioned(layout, currentBatch, currentRow)
    }

    /** The answers still to come. */
    ghost function Pending(): seq<Item>
      requires Valid()
      reads this
    {
      PendingFrom(layout, currentBatch, currentRow, batchReader)
    }

    constructor (layout: Layout, batches: seq<Outcome<RecordBatch>>)
      requires AllFitting(layout, batches)
      ensures Valid() && Pending() == Items(layout, batches)
      ensures this.layout == layout
    {
      this.layout, batchReader := layout, batches;
      currentBatch, currentRow := None, 0;
    }

    /** `RowIterator::next`: the first pending answer; empty batches are skipped. */
    method Next() returns (r: Option<Outcome<Row>>)
      requires Valid()
      modifies this
      ensures Valid()
      ensures old(Pending()) == [] ==> r == None && Pending() == []
      ensures old(Pending()) != [] ==>
                var first := old(Pending())[0];
                && r == Some(first.result)
                && Pending() == if first.sticky then old(Pending()) else old(Pending())[1..]
    {
      ghost var pending := Pending();
      while true
        invariant Valid() && Pending() == pending
        decreases |batchReader|
      {
        if currentBatch.Some? && currentRow < currentBatch.value.numRows {
          PendingRow(layout, currentBatch.value, currentRow, batchReader);
          var row := ConvertRow(currentBatch.value, currentRow);
          if row.Ok? {
            currentRow := currentRow + 1;
          }
          return Some(row);
        }
        if batchReader == [] {
          return None;
        }
        PendingFetch(layout, currentBatch, currentRow, batchReader);
        var next := batchReader[0];
        batchReader := batchReader[1..];
        if !next.Ok? {
          return Some(next.PropagateFailure<Row>());
        }
        currentBatch, currentRow := Some(next.value), 0;
      }
    }

    method ConvertRow(b: RecordBatch, i: nat) returns (r: Outcome<Row>)
      requires Fitting(layout, b)
      ensures r == Collect(RowCells(layout, b, i))
    {
      ghost var cells := RowCells(layout, b, i);
      var row: Row := [];
      for j := 0 to |b.columns|
        invariant |row| == j && forall k :: 0 <= k < j ==> cells[k] == Ok(row[k])
      {
        if !cells[j].Ok? { CollectFailure(cells, j); }
        var value :- Read(layout.fields[j], layout.nodes[j], b.columns[j], i);
        row := row + [value];
      }
      CollectValues(cells, row);
      return Ok(row);
    }
  }

  /** Reading a file to the end. It terminates when no answer is sticky. */
  method ReadAllRows(layout: Layout, batches: seq<Outcome<RecordBatch>>) returns (rows: seq<Outcome<Row>>)
    requires AllFitting(layout, batches)
    requires !HasSticky(Items(layout, batches))
    ensures rows == Results(Items(layout, batches))
  {
    var it := new RowIterator(layout, batches);
    rows := Drain(it, it.Pending());
  }

  function Results(items: seq<Item>): (rs: seq<Outcome<Row>>)
    ensures |rs| == |items|
  {
    seq(|items|, k requires 0 <= k < |items| => items[k].result)
  }

  lemma ResultsStep(done: seq<Item>, left: seq<Item>, rows: seq<Outcome<Row>>)
    requires left != [] && rows == Results(done)
    ensures rows + [left[0].result] == Results(done + left[..1])
    ensures done + left == (done + left[..1]) + left[1..]
    ensures HasSticky(left[1..]) || left[0].sticky ==> HasSticky(left)
  {
    if HasSticky(left[1..]) {
      var k :| 0 <= k < |left[1..]| && left[1..][k].sticky;
      assert left[k + 1].sticky;
    }
  }

  /** The consumer's loop. */
  method Drain(it: RowIterator, ghost all: seq<Item>) returns (rows: seq<Outcome<Row>>)
    requires it.Valid() && it.Pending() == all && !HasSticky(all)
    modifies it
    ensures rows == Results(all)
  {
    ghost var done, left := [], all;
    rows := [];
    while true
      invariant it.Valid() && it.Pending() == left && !HasSticky(left)
      invariant all == done + left && rows == Results(done)
      decreases |left|
    {
      if left != [] { ResultsStep(done, left, rows); }
      var next := it.Next();
      if next.None? {
        assert done + [] == done;
        return;
      }
      rows := rows + [next.value];
      done, left := done + left[..1], left[1..];
    }
  }

  /** The answers still to come after n calls. */
  function AfterCalls(pending: seq<Item>, n: nat): seq<Item> {
    if n == 0 then pending
    else
      var now := AfterCalls(pending, n - 1);
      if now == [] || now[0].sticky then now else now[1..]
  }

  /** Reading comes to an end exactly when no answer is sticky. */
  lemma ReadingEndsIff(pending: seq<Item>)
    ensures (exists n :: AfterCalls(pending, n) == []) <==> !HasSticky(pending)
  {
    if !HasSticky(pending) {
      NoneSticky(pending, |pending|);
      assert AfterCalls(pending, |pending|) == [];
    } else {
      forall n: nat
        ensures AfterCalls(pending, n) != []
      {
        StickyStays(pending, n);
      }
    }
  }

  lemma {:induction false} NoneSticky(pending: seq<Item>, n: nat)
    requires n <= |pending| && !HasSticky(pending)
    ensures AfterCalls(pending, n) == pending[n..]
  {
    if n > 0 { NoneSticky(pending, n - 1); }
  }

  lemma {:induction false} StickyStays(pending: seq<Item>, n: nat)
    requires HasSticky(pending)
    ensures HasSticky(AfterCalls(pending, n))
  {
    if n > 0 {
      StickyStays(pending, n - 1);
      var before := AfterCalls(pending, n - 1);
      var k :| 0 <= k < |before| && before[k].sticky;
      if !before[0].sticky { assert before[1..][k - 1] == before[k]; }
    }
  }

  predicate HasSticky(items: seq<Item>) {
    exists k :: 0 <= k < |items| && items[k].sticky
  }

  // ---------------------------------------------------------------- the column iterator

  datatype ColumnBatch = ColumnBatch(columns: seq<(string, seq<Value>)>)

  function NamedColumn(l: Layout, b: RecordBatch, j: nat): Outcome<(string, seq<Value>)>
    requires Fitting(l, b) && j < |l.fields|
  {
    var values :- Collect(ColumnCells(l, b, j));
    Ok((l.fields[j].name, values))
  }

  function ReadColumns(l: Layout, b: RecordBatch): Outcome<ColumnBatch>
    requires Fitting(l, b)
  {
    var columns :- Collect(seq(|l.fields|, j requires 0 <= j < |l.fields| => NamedColumn(l, b, j)));
    Ok(ColumnBatch(columns))
  }

  function EmptyBatch(l: Layout): ColumnBatch {
    ColumnBatch(seq(|l.fields|, j requires 0 <= j < |l.fields| => (l.fields[j].name, [])))
  }

  /** One answer of the column iterator per batch. */
  function ColumnBatches(l: Layout, batches: seq<Outcome<RecordBatch>>): (rs: seq<Outcome<ColumnBatch>>)
    requires AllFitting(l, batches)
    ensures |rs| == |batches|
  {
    seq(|batches|, k requires 0 <= k < |batches| =>
      if batches[k].Ok? then ReadColumns(l, batches[k].value) else batches[k].PropagateFailure<ColumnBatch>())
  }

  /** All answers: an empty file is announced by a synthetic batch of empty columns. */
  function ColumnAnswers(l: Layout, isEmptyFile: bool, batches: seq<Outcome<RecordBatch>>)
    : (rs: seq<Outcome<ColumnBatch>>)
    requires AllFitting(l, batches)
  {
    (if isEmptyFile then [Ok(EmptyBatch(l))] else []) + ColumnBatches(l, batches)
  }

  class ColumnIterator {
    const layout: Layout
    const isEmptyFile: bool
    var batchReader: seq<Outcome<RecordBatch>>
    var returnedEmptyBatch: bool

    ghost predicate Valid()
      reads this
    {
      AllFitting(layout, batchReader)
    }

    ghost function Pending(): seq<Outcome<ColumnBatch>>
      requires Valid()
      reads this
    {
      ColumnAnswers(layout, isEmptyFile && !returnedEmptyBatch, batchReader)
    }

    constructor (layout: Layout, isEmptyFile: bool, batches: seq<Outcome<RecordBatch>>)
      requires AllFitting(layout, batches)
      ensures Valid()
      ensures Pending() == ColumnAnswers(layout, isEmptyFile, batches)
    {
      this.layout, this.isEmptyFile, batchReader, returnedEmptyBatch := layout, isEmptyFile, batches, false;
    }

    /** `ColumnIterator::next`: a batch whose cells cannot be converted is consumed. */
    method Next() returns (r: Option<Outcome<ColumnBatch>>)
      requires Valid()
      modifies this
      ensures Valid()
      ensures if old(Pending()) == [] then r == None && Pending() == []
              else r == Some(old(Pending())[0]) && Pending() == old(Pending())[1..]
    {
      ghost var pending := Pending();
      if isEmptyFile && !returnedEmptyBatch {
        returnedEmptyBatch := true;
        var columns: seq<(string, seq<Value>)> := [];
        for j := 0 to |layout.fields|
          invariant columns == EmptyBatch(layout).columns[..j]
        {
          columns := columns + [(layout.fields[j].name, [])];
        }
        assert columns == EmptyBatch(layout).columns;
        assert Pending() == pending[1..];
        return Some(Ok(ColumnBatch(columns)));
      }
      if batchReader == [] {
        return None;
      }
      var next := batchReader[0];
      batchReader := batchReader[1..];
      assert Pending() == pending[1..];
      if !next.Ok? {
        return Some(next.PropagateFailure<ColumnBatch>());
      }
      var columns := ConvertColumns(next.value);
      return Some(columns);
    }

    method ConvertColumns(b: RecordBatch) returns (r: Outcome<ColumnBatch>)
      requires Fitting(layout, b)
      ensures r == ReadColumns(layout, b)
    {
      ghost var results := seq(|layout.fields|, j requires 0 <= j < |layout.fields| => NamedColumn(layout, b, j));
      var columns: seq<(string, seq<Value>)> := [];
      for j := 0 to |b.columns|
        invariant |columns| == j && forall k :: 0 <= k < j ==> results[k] == Ok(columns[k])
      {
        if !results[j].Ok? { CollectFailure(results, j); }
        var column := ConvertColumn(b, j);
        var values :- column;
        columns := columns + [(layout.fields[j].name, values)];
      }
      CollectValues(results, columns);
      return Ok(ColumnBatch(columns));
    }

    method ConvertColumn(b: RecordBatch, j: nat) returns (r: Outcome<seq<Value>>)
      requires Fitting(layout, b) && j < |layout.fields|
      ensures r == Collect(ColumnCells(layout, b, j))
    {
      ghost var cells := ColumnCells(layout, b, j);
      var values: seq<Value> := [];
      for i := 0 to b.numRows
        invariant |values| == i && forall k :: 0 <= k < i ==> cells[k] == Ok(values[k])
      {
        if !cells[i].Ok? { CollectFailure(cells, i); }
        var value :- Read(layout.fields[j], layout.nodes[j], b.columns[j], i);
        values := values + [value];
      }
      CollectValues(cells, values);
      return Ok(values);
    }
  }

  // ---------------------------------------------------------------- rows and columns agree

  predicate AllBatches(l: Layout, batches: seq<Outcome<RecordBatch>>) {
    forall k :: 0 <= k < |batches| ==> batches[k].Ok? && Fitting(l, batches[k].value)
  }

  /** The cells of column j over a whole file. */
  function FileColumn(l: Layout, batches: seq<Outcome<RecordBatch>>, j: nat): seq<Outcome<Value>>
    requires AllBatches(l, batches) && j < |l.fields|
  {
    if batches == [] then [] else ColumnCells(l, batches[0].value, j) + FileColumn(l, batches[1..], j)
  }

  function FileLen(l: Layout, batches: seq<Outcome<RecordBatch>>): nat
    requires AllBatches(l, batches)
  {
    if batches == [] then 0 else batches[0].value.numRows + FileLen(l, batches[1..])
  }

  /** Two ways of cutting one file into batches. */
  ghost predicate SameFile(l: Layout, a: seq<Outcome<RecordBatch>>, b: seq<Outcome<RecordBatch>>) {
    && AllBatches(l, a) && AllBatches(l, b)
    && FileLen(l, a) == FileLen(l, b)
    && forall j :: 0 <= j < |l.fields| ==> FileColumn(l, a, j) == FileColumn(l, b, j)
  }

  /** What a consumer of the column iterator has after concatenating column j. */
  function JoinColumn(rs: seq<Outcome<ColumnBatch>>, j: nat): seq<Value>
    requires forall k :: 0 <= k < |rs| ==> rs[k].Ok? && j < |rs[k].value.columns|
  {
    if rs == [] then [] else rs[0].value.columns[j].1 + JoinColumn(rs[1..], j)
  }

  function FileColumns(l: Layout, batches: seq<Outcome<RecordBatch>>): (columns: seq<seq<Outcome<Value>>>)
    requires AllBatches(l, batches)
    ensures |columns| == |l.fields|
  {
    seq(|l.fields|, j requires 0 <= j < |l.fields| => FileColumn(l, batches, j))
  }

  function RowOf(columns: seq<seq<Outcome<Value>>>, r: nat): (cells: seq<Outcome<Value>>)
    ensures |cells| == |columns|
  {
    seq(|columns|, j requires 0 <= j < |columns| => if r < |columns[j]| then columns[j][r] else Panic)
  }

  /** Row r of a whole file, cell by cell. */
  function FileRow(l: Layout, batches: seq<Outcome<RecordBatch>>, r: nat): (cells: seq<Outcome<Value>>)
    requires AllBatches(l, batches)
    ensures |cells| == |l.fields|
  {
    RowOf(FileColumns(l, batches), r)
  }

  lemma {:induction false} ColumnLength(l: Layout, batches: seq<Outcome<RecordBatch>>, j: nat)
    requires AllBatches(l, batches) && j < |l.fields|
    ensures |FileColumn(l, batches, j)| == FileLen(l, batches)
  {
    if batches != [] { ColumnLength(l, batches[1..], j); }
  }

  lemma {:induction false} ItemsLength(l: Layout, batches: seq<Outcome<RecordBatch>>)
    requires AllBatches(l, batches)
    ensures |Items(l, batches)| == FileLen(l, batches)
  {
    if batches != [] { ItemsLength(l, batches[1..]); }
  }

  /** The items are the rows of the columns. */
  ghost predicate Transposed(items: seq<Item>, columns: seq<seq<Outcome<Value>>>) {
    && (forall j :: 0 <= j < |columns| ==> |columns[j]| == |items|)
    && forall r :: 0 <= r < |items| ==> items[r] == ItemOf(RowOf(columns, r))
  }

  lemma TransposedAppend(a: seq<Item>, x: seq<seq<Outcome<Value>>>, b: seq<Item>, y: seq<seq<Outcome<Value>>>,
                         c: seq<Item>, z: seq<seq<Outcome<Value>>>)
    requires Transposed(a, x) && Transposed(b, y) && c == a + b
    requires |x| == |y| == |z| && forall j :: 0 <= j < |z| ==> z[j] == x[j] + y[j]
    ensures Transposed(c, z)
  {
    forall r | 0 <= r < |c|
      ensures c[r] == ItemOf(RowOf(z, r))
    {
      if r < |a| {
        assert RowOf(z, r) == RowOf(x, r);
      } else {
        assert RowOf(z, r) == RowOf(y, r - |a|);
      }
    }
  }

  function BatchColumnCells(l: Layout, b: RecordBatch): (columns: seq<seq<Outcome<Value>>>)
    requires Fitting(l, b)
    ensures |columns| == |l.fields|
  {
    seq(|l.fields|, j requires 0 <= j < |l.fields| => ColumnCells(l, b, j))
  }

  lemma BatchTransposed(l: Layout, b: RecordBatch)
    requires Fitting(l, b)
    ensures Transposed(BatchItems(l, b), BatchColumnCells(l, b))
  {
    forall r | 0 <= r < b.numRows
      ensures BatchItems(l, b)[r] == ItemOf(RowOf(BatchColumnCells(l, b), r))
    {
      assert RowOf(BatchColumnCells(l, b), r) == RowCells(l, b, r);
    }
  }

  /** One row's answer: the values of its cells in column order if all of them can be read, and
      otherwise a failure, which is given again on every further call. */
  lemma RowAnswerExact(l: Layout, b: RecordBatch, i: nat)
    requires Fitting(l, b) && i < b.numRows
    ensures var item := BatchItems(l, b)[i];
            && (item.result.Ok? <==> forall j :: 0 <= j < |l.fields| ==> Cell(l, b, i, j).Ok?)
            && (item.sticky <==> exists j :: 0 <= j < |l.fields| && !Cell(l, b, i, j).Ok?)
            && (item.result.Ok? ==>
                  && |item.result.value| == |l.fields|
                  && forall j :: 0 <= j < |l.fields| ==> Cell(l, b, i, j) == Ok(item.result.value[j]))
  {
    var cells := RowCells(l, b, i);
    assert forall j :: 0 <= j < |l.fields| ==> cells[j] == Cell(l, b, i, j);
  }

  /** The answers to a file in two parts are those to the parts. */
  lemma {:induction false} ItemsConcat(l: Layout, a: seq<Outcome<RecordBatch>>, b: seq<Outcome<RecordBatch>>)
    requires AllFitting(l, a) && AllFitting(l, b)
    ensures AllFitting(l, a + b) && Items(l, a + b) == Items(l, a) + Items(l, b)
    decreases |a|
  {
    if a == [] {
      assert [] + b == b;
    } else {
      ItemsConcat(l, a[1..], b);
      assert (a + b)[1..] == a[1..] + b;
    }
  }

  /** A batch that failed is one answer, which is not given again. */
  lemma FailedBatch(l: Layout, e: Error)
    ensures Items(l, [Err(e)]) == [Item(Err(e), false)]
  {
    var failed: seq<Outcome<RecordBatch>> := [Err(e)];
    assert failed[1..] == [];
  }

  /** The answers of the row iterator are the rows of the file, in whatever batches they lie. */
  lemma {:induction false} FileTransposed(l: Layout, batches: seq<Outcome<RecordBatch>>)
    requires AllBatches(l, batches)
    ensures Transposed(Items(l, batches), FileColumns(l, batches))
    decreases |batches|
  {
    if batches != [] {
      var b, rest := batches[0].value, batches[1..];
      BatchTransposed(l, b);
      FileTransposed(l, rest);
      TransposedAppend(BatchItems(l, b), BatchColumnCells(l, b), Items(l, rest), FileColumns(l, rest),
                       Items(l, batches), FileColumns(l, batches));
    }
  }

  lemma ItemAt(l: Layout, batches: seq<Outcome<RecordBatch>>, r: nat)
    requires AllBatches(l, batches) && r < |Items(l, batches)|
    ensures Items(l, batches)[r] == ItemOf(FileRow(l, batches, r))
  {
    FileTransposed(l, batches);
  }

  /** The answers of the row iterator, errors and stickiness included, do not depend on how the
      file is cut into batches. */
  lemma CutsDoNotMatter(l: Layout, a: seq<Outcome<RecordBatch>>, b: seq<Outcome<RecordBatch>>)
    requires SameFile(l, a, b)
    ensures Items(l, a) == Items(l, b)
  {
    ItemsLength(l, a);
    ItemsLength(l, b);
    forall r | 0 <= r < |Items(l, a)|
      ensures Items(l, a)[r] == Items(l, b)[r]
    {
      ItemAt(l, a, r);
      ItemAt(l, b, r);
      assert FileRow(l, a, r) == FileRow(l, b, r);
    }
  }

  /** The joined j-th column holds the values of the file's j-th column of cells. */
  lemma {:induction false} JoinedColumn(l: Layout, batches: seq<Outcome<RecordBatch>>, j: nat)
    requires AllBatches(l, batches) && j < |l.fields|
    requires forall k :: 0 <= k < |batches| ==> ColumnBatches(l, batches)[k].Ok?
    ensures forall k :: 0 <= k < |batches| ==> j < |ColumnBatches(l, batches)[k].value.columns|
    ensures var joined, cells := JoinColumn(ColumnBatches(l, batches), j), FileColumn(l, batches, j);
            |joined| == |cells| && forall i :: 0 <= i < |cells| ==> cells[i] == Ok(joined[i])
  {
    if batches != [] {
      ColumnBatchesStep(l, batches);
      JoinedColumn(l, batches[1..], j);
      var b, rs := batches[0].value, ColumnBatches(l, batches);
      BatchJoined(l, b, j);
      JoinedAppend(ColumnCells(l, b, j), rs[0].value.columns[j].1,
                   FileColumn(l, batches[1..], j), JoinColumn(rs[1..], j));
    }
  }

  lemma JoinedAppend(a: seq<Outcome<Value>>, x: seq<Value>, b: seq<Outcome<Value>>, y: seq<Value>)
    requires |a| == |x| && forall i :: 0 <= i < |a| ==> a[i] == Ok(x[i])
    requires |b| == |y| && forall i :: 0 <= i < |b| ==> b[i] == Ok(y[i])
    ensures forall i :: 0 <= i < |a + b| ==> (a + b)[i] == Ok((x + y)[i])
  {
  }

  lemma ColumnBatchesStep(l: Layout, batches: seq<Outcome<RecordBatch>>)
    requires AllBatches(l, batches) && batches != []
    ensures var rs, rest := ColumnBatches(l, batches), ColumnBatches(l, batches[1..]);
            && rs[0] == ReadColumns(l, batches[0].value) && rs[1..] == rest
            && forall k :: 0 <= k < |rest| ==> rest[k] == rs[k + 1]
  {
  }

  lemma BatchJoined(l: Layout, b: RecordBatch, j: nat)
    requires Fitting(l, b) && j < |l.fields| && ReadColumns(l, b).Ok?
    ensures var columns, cells := ReadColumns(l, b).value.columns, ColumnCells(l, b, j);
            && j < |columns| && |columns[j].1| == |cells|
            && forall i :: 0 <= i < |cells| ==> cells[i] == Ok(columns[j].1[i])
  {
    assert NamedColumn(l, b, j) == Ok(ReadColumns(l, b).value.columns[j]);
  }

  // ---------------------------------------------------------------- answers in full

  /** The columns of an answer have the file's field names, in order. */
  predicate HasNames(answer: ColumnBatch, fields: seq<Field>) {
    && |answer.columns| == |fields|
    && forall j :: 0 <= j < |fields| ==> answer.columns[j].0 == fields[j].name
  }

  lemma BatchNamed(l: Layout, b: RecordBatch)
    requires Fitting(l, b) && ReadColumns(l, b).Ok?
    ensures HasNames(ReadColumns(l, b).value, l.fields)
  {
    var named := seq(|l.fields|, j requires 0 <= j < |l.fields| => NamedColumn(l, b, j));
    assert forall j :: 0 <= j < |l.fields| ==> named[j] == Ok(ReadColumns(l, b).value.columns[j]);
  }

  /** Every successful answer of the column iterator, the synthetic one included, has exactly the
      file's field names, in order. */
  lemma AnswersNamed(l: Layout, isEmptyFile: bool, batches: seq<Outcome<RecordBatch>>)
    requires AllFitting(l, batches)
    ensures forall answer :: answer in ColumnAnswers(l, isEmptyFile, batches) && answer.Ok? ==>
              HasNames(answer.value, l.fields)
  {
    forall k | 0 <= k < |batches| && ColumnBatches(l, batches)[k].Ok?
      ensures HasNames(ColumnBatches(l, batches)[k].value, l.fields)
    {
      BatchNamed(l, batches[k].value);
    }
  }

  /** One answer for a batch: it succeeds exactly when every cell can be read, and then has the values
      of the cells column by column; a failed batch is passed on. */
  lemma ColumnAnswerExact(l: Layout, batches: seq<Outcome<RecordBatch>>, k: nat)
    requires AllFitting(l, batches) && k < |batches|
    ensures var answer := ColumnBatches(l, batches)[k];
            && (batches[k].Err? ==> answer == Err(batches[k].error))
            && (batches[k].Ok? ==>
                  var b := batches[k].value;
                  && (answer.Ok? <==>
                        forall i, j :: 0 <= i < b.numRows && 0 <= j < |l.fields| ==> Cell(l, b, i, j).Ok?)
                  && (answer.Ok? ==>
                        && HasNames(answer.value, l.fields)
                        && forall j :: 0 <= j < |l.fields| ==>
                             var values := answer.value.columns[j].1;
                             |values| == b.numRows
                             && forall i :: 0 <= i < b.numRows ==> Cell(l, b, i, j) == Ok(values[i])))
  {
    if batches[k].Ok? {
      var b := batches[k].value;
      BatchOkIff(l, b);
      assert forall i, j :: 0 <= i < b.numRows && 0 <= j < |l.fields| ==> ColumnCells(l, b, j)[i] == Cell(l, b, i, j);
      if ReadColumns(l, b).Ok? {
        BatchNamed(l, b);
        forall j | 0 <= j < |l.fields|
          ensures |ReadColumns(l, b).value.columns[j].1| == b.numRows
          ensures forall i :: 0 <= i < b.numRows ==>
                    Cell(l, b, i, j) == Ok(ReadColumns(l, b).value.columns[j].1[i])
        {
          BatchJoined(l, b, j);
        }
      }
    }
  }

  /** There is one answer per batch, after a first one of empty columns when the file has no rows. */
  lemma AnswersCounted(l: Layout, isEmptyFile: bool, batches: seq<Outcome<RecordBatch>>)
    requires AllFitting(l, batches)
    ensures var answers := ColumnAnswers(l, isEmptyFile, batches);
            if !isEmptyFile then answers == ColumnBatches(l, batches)
            else
              && |answers| == |batches| + 1 && answers[1..] == ColumnBatches(l, batches)
              && answers[0].Ok? && HasNames(answers[0].value, l.fields)
              && forall j :: 0 <= j < |l.fields| ==> answers[0].value.columns[j].1 == []
  {
    assert [] + ColumnBatches(l, batches) == ColumnBatches(l, batches);
  }

  // ---------------------------------------------------------------- when reading succeeds

  /** Every cell of the file can be converted. */
  ghost predicate CellsOk(l: Layout, batches: seq<Outcome<RecordBatch>>)
    requires AllBatches(l, batches)
  {
    forall j :: 0 <= j < |l.fields| ==> ColumnOk(FileColumn(l, batches, j))
  }

  predicate ColumnOk(cells: seq<Outcome<Value>>) {
    forall i :: 0 <= i < |cells| ==> cells[i].Ok?
  }

  ghost predicate RowsOk(l: Layout, batches: seq<Outcome<RecordBatch>>)
    requires AllFitting(l, batches)
  {
    forall r :: 0 <= r < |Items(l, batches)| ==> Items(l, batches)[r].result.Ok?
  }

  ghost predicate AnswersOk(l: Layout, isEmptyFile: bool, batches: seq<Outcome<RecordBatch>>)
    requires AllFitting(l, batches)
  {
    forall answer :: answer in ColumnAnswers(l, isEmptyFile, batches) ==> answer.Ok?
  }

  lemma RowsOkIff(l: Layout, batches: seq<Outcome<RecordBatch>>)
    requires AllBatches(l, batches)
    ensures RowsOk(l, batches) <==> CellsOk(l, batches)
  {
    ItemsLength(l, batches);
    forall r | 0 <= r < |Items(l, batches)|
      ensures Items(l, batches)[r].result.Ok? <==> forall j :: 0 <= j < |l.fields| ==> FileRow(l, batches, r)[j].Ok?
    {
      ItemAt(l, batches, r);
    }
    forall r, j | 0 <= r < |Items(l, batches)| && 0 <= j < |l.fields|
      ensures r < |FileColumn(l, batches, j)| && FileRow(l, batches, r)[j] == FileColumn(l, batches, j)[r]
    {
      ColumnLength(l, batches, j);
    }
    if RowsOk(l, batches) {
      forall j | 0 <= j < |l.fields|
        ensures ColumnOk(FileColumn(l, batches, j))
      {
        ColumnLength(l, batches, j);
        forall r | 0 <= r < |FileColumn(l, batches, j)|
          ensures FileColumn(l, batches, j)[r].Ok?
        {
          assert FileRow(l, batches, r)[j].Ok?;
        }
      }
    }
  }

  lemma BatchOkIff(l: Layout, b: RecordBatch)
    requires Fitting(l, b)
    ensures ReadColumns(l, b).Ok? <==> forall j :: 0 <= j < |l.fields| ==> ColumnOk(ColumnCells(l, b, j))
  {
    var named := seq(|l.fields|, j requires 0 <= j < |l.fields| => NamedColumn(l, b, j));
    assert forall j :: 0 <= j < |l.fields| ==> (named[j].Ok? <==> ColumnOk(ColumnCells(l, b, j)));
  }

  lemma ConcatOk(a: seq<Outcome<Value>>, b: seq<Outcome<Value>>)
    ensures ColumnOk(a + b) <==> ColumnOk(a) && ColumnOk(b)
  {
    if ColumnOk(a + b) {
      assert forall i :: 0 <= i < |a| ==> a[i] == (a + b)[i];
      assert forall i :: 0 <= i < |b| ==> b[i] == (a + b)[|a| + i];
    }
  }

  lemma {:induction false} BatchesOkIff(l: Layout, batches: seq<Outcome<RecordBatch>>)
    requires AllBatches(l, batches)
    ensures (forall k :: 0 <= k < |batches| ==> ColumnBatches(l, batches)[k].Ok?) <==> CellsOk(l, batches)
  {
    if batches != [] {
      var rs, rest := ColumnBatches(l, batches), ColumnBatches(l, batches[1..]);
      ColumnBatchesStep(l, batches);
      BatchesOkIff(l, batches[1..]);
      BatchOkIff(l, batches[0].value);
      forall j | 0 <= j < |l.fields|
        ensures ColumnOk(FileColumn(l, batches, j)) <==>
                ColumnOk(ColumnCells(l, batches[0].value, j)) && ColumnOk(FileColumn(l, batches[1..], j))
      {
        ConcatOk(ColumnCells(l, batches[0].value, j), FileColumn(l, batches[1..], j));
      }
      HeadTailOk(rs, rest);
    }
  }

  lemma HeadTailOk(rs: seq<Outcome<ColumnBatch>>, rest: seq<Outcome<ColumnBatch>>)
    requires rs != [] && rs[1..] == rest
    ensures (forall k :: 0 <= k < |rs| ==> rs[k].Ok?) <==> rs[0].Ok? && forall k :: 0 <= k < |rest| ==> rest[k].Ok?
  {
    assert forall k :: 0 <= k < |rest| ==> rest[k] == rs[k + 1];
    assert forall k :: 1 <= k < |rs| ==> rs[k] == rest[k - 1];
  }

  lemma AnswersOkIff(l: Layout, isEmptyFile: bool, batches: seq<Outcome<RecordBatch>>)
    requires AllBatches(l, batches)
    ensures AnswersOk(l, isEmptyFile, batches) <==> CellsOk(l, batches)
  {
    BatchesOkIff(l, batches);
    if AnswersOk(l, isEmptyFile, batches) { AnswersAreBatches(l, isEmptyFile, batches); }
  }

  /** Over one file, in any two cuts, all rows can be read exactly when all columns can. */
  lemma RowsSucceedIffColumns(l: Layout, a: seq<Outcome<RecordBatch>>, b: seq<Outcome<RecordBatch>>, isEmptyFile: bool)
    requires SameFile(l, a, b)
    ensures RowsOk(l, a) <==> AnswersOk(l, isEmptyFile, b)
  {
    RowsOkIff(l, a);
    AnswersOkIff(l, isEmptyFile, b);
  }

  /** Main result: however the two readers cut the file, and with or without the synthetic batch,
      when one of them succeeds so does the other, and row r of the row iterator holds, at position
      j, entry r of the concatenated j-th column of the column iterator. */
  lemma RowsAndColumnsAgree(l: Layout, a: seq<Outcome<RecordBatch>>, b: seq<Outcome<RecordBatch>>, isEmptyFile: bool,
                            r: nat, j: nat)
    requires SameFile(l, a, b) && j < |l.fields|
    requires RowsOk(l, a) || AnswersOk(l, isEmptyFile, b)
    ensures RowsOk(l, a) && AnswersOk(l, isEmptyFile, b)
    ensures forall answer :: answer in ColumnAnswers(l, isEmptyFile, b) ==> j < |answer.value.columns|
    ensures var column := JoinColumn(ColumnAnswers(l, isEmptyFile, b), j);
            && |Items(l, a)| == |column|
            && (r < |column| ==> |Items(l, a)[r].result.value| == |l.fields|
                                 && Items(l, a)[r].result.value[j] == column[r])
  {
    RowsSucceedIffColumns(l, a, b, isEmptyFile);
    AnswersAreBatches(l, isEmptyFile, b);
    JoinedColumn(l, b, j);
    JoinAnswers(l, isEmptyFile, b, j);
    ItemsLength(l, a);
    ColumnLength(l, a, j);
    if r < |Items(l, a)| {
      ItemAt(l, a, r);
      assert FileRow(l, a, r)[j] == FileColumn(l, a, j)[r];
    }
  }

  lemma AnswersAreBatches(l: Layout, isEmptyFile: bool, b: seq<Outcome<RecordBatch>>)
    requires AllFitting(l, b) && forall answer :: answer in ColumnAnswers(l, isEmptyFile, b) ==> answer.Ok?
    ensures forall k :: 0 <= k < |b| ==> ColumnBatches(l, b)[k].Ok?
  {
    forall k | 0 <= k < |b|
      ensures ColumnBatches(l, b)[k].Ok?
    {
      assert ColumnBatches(l, b)[k] in ColumnAnswers(l, isEmptyFile, b);
    }
  }

  /** The synthetic batch adds nothing to any column. */
  lemma JoinAnswers(l: Layout, isEmptyFile: bool, b: seq<Outcome<RecordBatch>>, j: nat)
    requires AllFitting(l, b) && j < |l.fields|
    requires forall k :: 0 <= k < |b| ==> ColumnBatches(l, b)[k].Ok? && j < |ColumnBatches(l, b)[k].value.columns|
    ensures forall answer :: answer in ColumnAnswers(l, isEmptyFile, b) ==> answer.Ok? && j < |answer.value.columns|
    ensures JoinColumn(ColumnAnswers(l, isEmptyFile, b), j) == JoinColumn(ColumnBatches(l, b), j)
  {
    var rs := ColumnBatches(l, b);
    if isEmptyFile {
      assert ([Ok(EmptyBatch(l))] + rs)[1..] == rs;
      assert [] + JoinColumn(rs, j) == JoinColumn(rs, j);
    } else {
      assert [] + rs == rs;
    }
  }


  // ---------------------------------------------------------------- alignment and projection

  /** `align_parquet_fields`: by name, the first root field of a name wins. */
  function Align(fields: seq<Field>, roots: seq<ParquetType>): (rs: seq<Outcome<ParquetType>>)
    ensures |rs| == |fields|
  {
    seq(|fields|, j requires 0 <= j < |fields| => AlignOne(fields[j], roots))
  }

  function AlignOne(f: Field, roots: seq<ParquetType>): Outcome<ParquetType> {
    match FindByName(roots, f.name)
    case Some(p) => Ok(p)
    case None => Err(ConversionError)
  }

  /** The search by name finds the first node of that name, if there is one. */
  lemma {:induction false} FirstOfName(ps: seq<ParquetType>, name: string)
    ensures FindByName(ps, name).None? <==> forall k :: 0 <= k < |ps| ==> ps[k].name != name
    ensures FindByName(ps, name).Some? ==>
              exists k :: 0 <= k < |ps| && ps[k] == FindByName(ps, name).value && ps[k].name == name
                          && forall m :: 0 <= m < k ==> ps[m].name != name
  {
    if ps != [] && ps[0].name != name {
      FirstOfName(ps[1..], name);
      assert forall k :: 0 <= k < |ps| - 1 ==> ps[k + 1] == ps[1..][k];
      assert forall k :: 1 <= k < |ps| ==> ps[k] == ps[1..][k - 1];
      if FindByName(ps, name).Some? {
        var k :| 0 <= k < |ps[1..]| && ps[1..][k] == FindByName(ps, name).value && ps[1..][k].name == name
                 && forall m :: 0 <= m < k ==> ps[1..][m].name != name;
        assert ps[k + 1] == ps[1..][k];
      }
    }
  }

  /** Alignment succeeds exactly when every field has a root node of its name, and is a conversion error
      otherwise; each field then gets the first node of its name. */
  lemma {:induction false} AlignIff(fields: seq<Field>, roots: seq<ParquetType>)
    ensures var r := Collect(Align(fields, roots));
            && (r.Ok? <==> forall j :: 0 <= j < |fields| ==> FindByName(roots, fields[j].name).Some?)
            && (!r.Ok? ==> r == Err(ConversionError))
            && (r.Ok? ==> |r.value| == |fields|
                          && forall j :: 0 <= j < |fields| ==> FindByName(roots, fields[j].name) == Some(r.value[j]))
    decreases |fields|
  {
    var rs := Align(fields, roots);
    assert forall j :: 0 <= j < |fields| ==> (rs[j].Ok? <==> FindByName(roots, fields[j].name).Some?);
    if fields != [] {
      AlignIff(fields[1..], roots);
      assert rs[1..] == Align(fields[1..], roots);
    }
  }

  method AlignParquetFields(fields: seq<Field>, roots: seq<ParquetType>) returns (r: Outcome<seq<ParquetType>>)
    ensures r == Collect(Align(fields, roots))
  {
    var byName: map<string, ParquetType> := map[];
    for k := 0 to |roots|
      invariant forall s :: FindByName(roots[..k], s) == if s in byName then Some(byName[s]) else None
    {
      FindInPrefix(roots, k);
      if roots[k].name !in byName {
        byName := byName[roots[k].name := roots[k]];
      }
    }
    assert roots[..|roots|] == roots;
    ghost var results := Align(fields, roots);
    var nodes: seq<ParquetType> := [];
    for j := 0 to |fields|
      invariant |nodes| == j && forall k :: 0 <= k < j ==> results[k] == Ok(nodes[k])
    {
      if fields[j].name !in byName {
        CollectFailure(results, j);
        return Err(ConversionError);
      }
      nodes := nodes + [byName[fields[j].name]];
    }
    CollectValues(results, nodes);
    return Ok(nodes);
  }

  lemma {:induction false} FindInPrefix(roots: seq<ParquetType>, k: nat)
    requires k < |roots|
    ensures forall s :: FindByName(roots[..k + 1], s) ==
              if FindByName(roots[..k], s).Some? then FindByName(roots[..k], s)
              else if roots[k].name == s then Some(roots[k]) else None
  {
    if k > 0 {
      FindInPrefix(roots[1..], k - 1);
      assert roots[..k + 1][1..] == roots[1..][..k];
      assert roots[..k][1..] == roots[1..][..k - 1];
    } else {
      assert roots[..1] == [roots[0]] && roots[..0] == [];
      assert roots[..1][1..] == [];
    }
  }

  /** Positions of the requested columns, in file order. */
  function Selected(fields: seq<Field>, requested: set<string>): (indices: seq<nat>)
    ensures forall k :: 0 <= k < |indices| ==> indices[k] < |fields| && fields[indices[k]].name in requested
    ensures forall k, m :: 0 <= k < m < |indices| ==> indices[k] < indices[m]
    ensures forall j :: 0 <= j < |fields| && fields[j].name in requested ==> j in indices
  {
    if fields == [] then []
    else
      var n := |fields| - 1;
      var before := Selected(fields[..n], requested);
      assert forall j :: 0 <= j < n ==> fields[..n][j] == fields[j];
      if fields[n].name in requested then before + [n] else before
  }

  method SelectColumns(fields: seq<Field>, columns: seq<string>) returns (indices: seq<nat>)
    ensures indices == Selected(fields, set s | s in columns)
  {
    var requested := set s | s in columns;
    indices := [];
    for j := 0 to |fields|
      invariant indices == Selected(fields[..j], requested)
    {
      assert fields[..j + 1][..j] == fields[..j];
      if fields[j].name in requested {
        indices := indices + [j];
      }
    }
    assert fields[..|fields|] == fields;
  }

  function Pick<T>(xs: seq<T>, indices: seq<nat>): (ys: seq<T>)
    requires forall k :: 0 <= k < |indices| ==> indices[k] < |xs|
    ensures |ys| == |indices|
  {
    seq(|indices|, k requires 0 <= k < |indices| => xs[indices[k]])
  }

  /** A batch of the projected read: the external reader returns the selected roots in file order. */
  function ProjectBatch(b: RecordBatch, indices: seq<nat>): RecordBatch
    requires forall k :: 0 <= k < |indices| ==> indices[k] < |b.fields| && indices[k] < |b.columns|
  {
    RecordBatch(Pick(b.fields, indices), Pick(b.columns, indices), b.numRows)
  }

  /** The aligned layout of a projected read is the full layout at the selected positions. */
  function Narrow(full: Layout, indices: seq<nat>): Layout
    requires |full.nodes| == |full.fields| && forall k :: 0 <= k < |indices| ==> indices[k] < |full.fields|
  {
    Layout(Pick(full.fields, indices), Pick(full.nodes, indices))
  }

  ghost predicate Complete(full: Layout, batches: seq<Outcome<RecordBatch>>) {
    && |full.nodes| == |full.fields| && AllBatches(full, batches)
    && forall k :: 0 <= k < |batches| ==> |batches[k].value.fields| == |batches[k].value.columns|
  }

  function ProjectFile(full: Layout, batches: seq<Outcome<RecordBatch>>, indices: seq<nat>)
    : (r: seq<Outcome<RecordBatch>>)
    requires Complete(full, batches) && forall k :: 0 <= k < |indices| ==> indices[k] < |full.fields|
    ensures |r| == |batches|
  {
    seq(|batches|, k requires 0 <= k < |batches| => Ok(ProjectBatch(batches[k].value, indices)))
  }

  lemma {:induction false} ProjectedLength(full: Layout, batches: seq<Outcome<RecordBatch>>, indices: seq<nat>)
    requires Complete(full, batches) && forall k :: 0 <= k < |indices| ==> indices[k] < |full.fields|
    requires AllBatches(Narrow(full, indices), ProjectFile(full, batches, indices))
    ensures FileLen(Narrow(full, indices), ProjectFile(full, batches, indices)) == FileLen(full, batches)
  {
    if batches != [] {
      ProjectedTail(full, batches, indices);
      ProjectedLength(full, batches[1..], indices);
    }
  }

  lemma ProjectedTail(full: Layout, batches: seq<Outcome<RecordBatch>>, indices: seq<nat>)
    requires Complete(full, batches) && batches != [] && forall k :: 0 <= k < |indices| ==> indices[k] < |full.fields|
    ensures ProjectFile(full, batches, indices)[0] == Ok(ProjectBatch(batches[0].value, indices))
    ensures ProjectFile(full, batches, indices)[1..] == ProjectFile(full, batches[1..], indices)
  {
  }

  lemma {:induction false} ProjectedColumn(full: Layout, batches: seq<Outcome<RecordBatch>>, indices: seq<nat>, k: nat)
    requires Complete(full, batches) && (forall m :: 0 <= m < |indices| ==> indices[m] < |full.fields|) && k < |indices|
    requires AllBatches(Narrow(full, indices), ProjectFile(full, batches, indices))
    ensures FileColumn(Narrow(full, indices), ProjectFile(full, batches, indices), k)
            == FileColumn(full, batches, indices[k])
  {
    if batches != [] {
      ProjectedTail(full, batches, indices);
      ProjectedColumn(full, batches[1..], indices, k);
      var narrow, b := Narrow(full, indices), batches[0].value;
      assert ColumnCells(narrow, ProjectBatch(b, indices), k) == ColumnCells(full, b, indices[k]);
    }
  }

  /** A projected read of the file: its batches are any cut of the projected columns. */
  ghost predicate ProjectedRead(full: Layout, a: seq<Outcome<RecordBatch>>, indices: seq<nat>,
                                b: seq<Outcome<RecordBatch>>) {
    && Complete(full, a) && (forall k :: 0 <= k < |indices| ==> indices[k] < |full.fields|)
    && SameFile(Narrow(full, indices), ProjectFile(full, a, indices), b)
  }

  /** The k-th column of a projected read is the selected column of the file. */
  lemma ProjectedCells(full: Layout, a: seq<Outcome<RecordBatch>>, indices: seq<nat>, b: seq<Outcome<RecordBatch>>)
    requires ProjectedRead(full, a, indices, b)
    ensures FileLen(Narrow(full, indices), b) == FileLen(full, a)
    ensures forall k :: 0 <= k < |indices| ==>
              FileColumn(Narrow(full, indices), b, k) == FileColumn(full, a, indices[k])
  {
    ProjectedLength(full, a, indices);
    forall k | 0 <= k < |indices|
      ensures FileColumn(Narrow(full, indices), b, k) == FileColumn(full, a, indices[k])
    {
      ProjectedColumn(full, a, indices, k);
    }
  }

  lemma ProjectedFileRow(full: Layout, a: seq<Outcome<RecordBatch>>, indices: seq<nat>, b: seq<Outcome<RecordBatch>>,
                         r: nat)
    requires ProjectedRead(full, a, indices, b)
    ensures FileRow(Narrow(full, indices), b, r) == Pick(FileRow(full, a, r), indices)
  {
    ProjectedCells(full, a, indices, b);
  }

  lemma PickedItem(cells: seq<Outcome<Value>>, indices: seq<nat>)
    requires forall k :: 0 <= k < |indices| ==> indices[k] < |cells|
    ensures ItemOf(cells).result.Ok? ==>
              ItemOf(Pick(cells, indices)) == Item(Ok(Pick(ItemOf(cells).result.value, indices)), false)
  {
    if Collect(cells).Ok? { CollectValues(Pick(cells, indices), Pick(Collect(cells).value, indices)); }
  }

  /** Main result on projected rows: for any cut, a projected read has as many rows as the file,
      also when it selects no column at all; every row is the row of the file at the selected
      positions, and it can be read whenever the cells at those positions can. */
  lemma ProjectionCommutes(full: Layout, a: seq<Outcome<RecordBatch>>, requested: set<string>,
                           b: seq<Outcome<RecordBatch>>, r: nat)
    requires ProjectedRead(full, a, Selected(full.fields, requested), b)
    ensures var indices := Selected(full.fields, requested);
            var rows, picked := Items(full, a), Items(Narrow(full, indices), b);
            && |picked| == |rows|
            && (r < |rows| ==>
                  && picked[r] == ItemOf(Pick(FileRow(full, a, r), indices))
                  && (rows[r].result.Ok? ==> |rows[r].result.value| == |full.fields|
                                             && picked[r] == Item(Ok(Pick(rows[r].result.value, indices)), false)))
  {
    var indices := Selected(full.fields, requested);
    ProjectedCells(full, a, indices, b);
    ItemsLength(full, a);
    ItemsLength(Narrow(full, indices), b);
    if r < |Items(full, a)| {
      ItemAt(full, a, r);
      ItemAt(Narrow(full, indices), b, r);
      ProjectedFileRow(full, a, indices, b, r);
      PickedItem(FileRow(full, a, r), indices);
    }
  }

  lemma JoinedUnique(cells: seq<Outcome<Value>>, x: seq<Value>, y: seq<Value>)
    requires |x| == |cells| == |y|
    requires forall i :: 0 <= i < |cells| ==> cells[i] == Ok(x[i]) && cells[i] == Ok(y[i])
    ensures x == y
  {
  }

  /** And on projected columns: when all columns of the file can be read, so can the projected
      ones, and the k-th joined column is the joined column at the k-th selected position. */
  lemma ColumnProjectionCommutes(full: Layout, a: seq<Outcome<RecordBatch>>, requested: set<string>,
                                 b: seq<Outcome<RecordBatch>>, isEmptyFile: bool, k: nat)
    requires ProjectedRead(full, a, Selected(full.fields, requested), b) && k < |Selected(full.fields, requested)|
    requires AnswersOk(full, isEmptyFile, a)
    ensures var indices := Selected(full.fields, requested);
            var narrow, j := Narrow(full, indices), indices[k];
            && AnswersOk(narrow, isEmptyFile, b)
            && (forall answer :: answer in ColumnAnswers(narrow, isEmptyFile, b) ==>
                  k < |answer.value.columns| && answer.value.columns[k].0 == full.fields[j].name)
            && (forall answer :: answer in ColumnAnswers(full, isEmptyFile, a) ==> j < |answer.value.columns|)
            && JoinColumn(ColumnAnswers(narrow, isEmptyFile, b), k)
               == JoinColumn(ColumnAnswers(full, isEmptyFile, a), j)
  {
    var indices := Selected(full.fields, requested);
    var narrow, j := Narrow(full, indices), indices[k];
    ProjectedCells(full, a, indices, b);
    AnswersOkIff(full, isEmptyFile, a);
    AnswersOkIff(narrow, isEmptyFile, b);
    AnswersAreBatches(full, isEmptyFile, a);
    AnswersAreBatches(narrow, isEmptyFile, b);
    JoinedColumn(full, a, j);
    JoinedColumn(narrow, b, k);
    JoinAnswers(full, isEmptyFile, a, j);
    JoinAnswers(narrow, isEmptyFile, b, k);
    AnswersNamed(narrow, isEmptyFile, b);
    assert narrow.fields[k].name == full.fields[j].name;
    JoinedUnique(FileColumn(full, a, j),
                 JoinColumn(ColumnBatches(narrow, b), k), JoinColumn(ColumnBatches(full, a), j));
  }

  /** The constructors of the projected readers align the selected fields by themselves; the
      nodes they find are those of the full alignment, duplicate root names included. */
  lemma NarrowIsAligned(fields: seq<Field>, roots: seq<ParquetType>, requested: set<string>)
    requires Collect(Align(fields, roots)).Ok?
    ensures var indices, full := Selected(fields, requested), Layout(fields, Collect(Align(fields, roots)).value);
            && Collect(Align(Pick(fields, indices), roots)).Ok?
            && Layout(Pick(fields, indices), Collect(Align(Pick(fields, indices), roots)).value)
               == Narrow(full, indices)
  {
    AlignPicked(fields, roots, Selected(fields, requested));
  }

  /** A field is aligned with the same node whether or not other fields are there. */
  lemma AlignPicked(fields: seq<Field>, roots: seq<ParquetType>, indices: seq<nat>)
    requires Collect(Align(fields, roots)).Ok? && forall k :: 0 <= k < |indices| ==> indices[k] < |fields|
    ensures Collect(Align(Pick(fields, indices), roots)) == Ok(Pick(Collect(Align(fields, roots)).value, indices))
  {
    var picked, nodes := Pick(fields, indices), Collect(Align(fields, roots)).value;
    forall k | 0 <= k < |indices|
      ensures Align(picked, roots)[k] == Ok(Pick(nodes, indices)[k])
    {
      assert Align(picked, roots)[k] == Align(fields, roots)[indices[k]];
    }
    CollectValues(Align(picked, roots), Pick(nodes, indices));
  }

  /** The adapter's hash for one row: file-order names against row values, later keys replacing. */
  function RowHash(names: seq<string>, row: Row): (m: map<string, Value>)
    decreases |row|
  {
    if row == [] then map[]
    else
      var n := |row| - 1;
      var before := RowHash(names, row[..n]);
      if n < |names| then before[names[n] := row[n]] else before
  }

  lemma {:induction false} RowHashEntries(names: seq<string>, row: Row)
    requires |names| == |row|
    requires forall j, k :: 0 <= j < k < |names| ==> names[j] != names[k]
    ensures RowHash(names, row).Keys == set k | 0 <= k < |row| :: names[k]
    ensures forall k :: 0 <= k < |row| ==> RowHash(names, row)[names[k]] == row[k]
  {
    RowHashPrefix(names, row);
  }

  lemma {:induction false} RowHashPrefix(names: seq<string>, row: Row)
    requires |row| <= |names|
    requires forall j, k :: 0 <= j < k < |names| ==> names[j] != names[k]
    ensures forall s :: s in RowHash(names, row) <==> exists k :: 0 <= k < |row| && names[k] == s
    ensures forall k :: 0 <= k < |row| ==> names[k] in RowHash(names, row) && RowHash(names, row)[names[k]] == row[k]
    decreases |row|
  {
    if row != [] { RowHashPrefix(names, row[..|row| - 1]); }
  }

  /** With any names, each key of the hash has the value at its last position; values beyond the names
      are dropped. */
  lemma {:induction false} RowHashLast(names: seq<string>, row: Row, s: string)
    ensures s in RowHash(names, row) <==> exists k :: 0 <= k < |row| && k < |names| && names[k] == s
    ensures s in RowHash(names, row) ==>
              exists k :: 0 <= k < |row| && k < |names| && names[k] == s && RowHash(names, row)[s] == row[k]
                          && forall m :: k < m < |row| && m < |names| ==> names[m] != s
    decreases |row|
  {
    if row != [] {
      var n := |row| - 1;
      RowHashLast(names, row[..n], s);
      if n < |names| && names[n] == s {
        assert RowHash(names, row)[s] == row[n];
      } else if s in RowHash(names, row) {
        var k :| 0 <= k < n && k < |names| && names[k] == s && RowHash(names, row[..n])[s] == row[..n][k]
                 && forall m :: k < m < n && m < |names| ==> names[m] != s;
        assert RowHash(names, row)[s] == row[k];
      }
    }
  }

  /** With unique column names, the hash of a projected row pairs each requested name that the
      file has with the value the full row has in that column, and has no other key. */
  lemma ProjectedHash(fields: seq<Field>, requested: set<string>, row: Row)
    requires |row| == |fields|
    requires forall j, k :: 0 <= j < k < |fields| ==> fields[j].name != fields[k].name
    ensures var indices := Selected(fields, requested);
            var names := seq(|indices|, k requires 0 <= k < |indices| => fields[indices[k]].name);
            var h := RowHash(names, Pick(row, indices));
            && (forall s :: s in h <==> s in requested && exists j :: 0 <= j < |fields| && fields[j].name == s)
            && (forall j :: 0 <= j < |fields| && fields[j].name in requested ==> h[fields[j].name] == row[j])
  {
    var indices := Selected(fields, requested);
    var names := seq(|indices|, k requires 0 <= k < |indices| => fields[indices[k]].name);
    var picked := Pick(row, indices);
    RowHashPrefix(names, picked);
    var h := RowHash(names, picked);
    forall j | 0 <= j < |fields| && fields[j].name in requested
      ensures fields[j].name in h && h[fields[j].name] == row[j]
    {
      var k :| 0 <= k < |indices| && indices[k] == j;
      assert names[k] == fields[j].name;
    }
    forall s | s in h
      ensures s in requested && exists j :: 0 <= j < |fields| && fields[j].name == s
    {
      var k :| 0 <= k < |picked| && names[k] == s;
      assert fields[indices[k]].name == s;
    }
  }
}
