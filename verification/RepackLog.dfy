/** What repacking asks of the outside world, and what it was answered: a log of file operations
  and looks at the cancellation flag, kept by the object that performs them. */
module RepackLog {
  import opened Values

  /** An output file: its number in the naming scheme, its rows, and the count kept beside them. */
  datatype Output = Output(index: nat, rows: seq<Row>, numRows: nat)

  datatype Operation =
    | OpenInput(input: nat)
    | Create(index: nat)
    | Write(index: nat, rows: seq<Row>)
    | CheckCancelled
    | Close(index: nat)
    | Persist(index: nat)

  datatype Answer = Answer(op: Operation, ok: bool)

  type Log = seq<Answer>

  /** Files and the cancellation flag. Any operation may fail; a failed look at the flag is one
      that finds it set. */
  class Outside {
    ghost var log: Log

    constructor ()
      ensures log == []
    {
      log := [];
    }

    method Ask(op: Operation) returns (ok: bool)
      modifies this
      ensures log == old(log) + [Answer(op, ok)]
    {
      ok := *;
      log := log + [Answer(op, ok)];
    }
  }

  // ---------------------------------------------------------------- reading a log

  predicate AllOk(log: Log) {
    forall i :: 0 <= i < |log| ==> log[i].ok
  }

  predicate NoPersist(log: Log) {
    forall i :: 0 <= i < |log| ==> !log[i].op.Persist?
  }

  /** The rows that were written to one output, in order. */
  function Written(log: Log, index: nat): seq<Row> {
    if log == [] then []
    else
      var n := |log| - 1;
      Written(log[..n], index) +
      (if log[n].ok && log[n].op.Write? && log[n].op.index == index then log[n].op.rows else [])
  }

  /** Every write that succeeded was followed by a look at the cancellation flag. */
  predicate Checked(log: Log) {
    forall i :: 0 <= i < |log| && log[i].op.Write? && log[i].ok ==>
      i + 1 < |log| && log[i + 1].op.CheckCancelled?
  }

  /** Outputs are handled one after the other: nothing is written to an output before it is created
      or after it is closed. */
  predicate InOrder(log: Log) {
    forall i, k :: 0 <= i < k < |log| ==> Before(log[i].op, log[k].op)
  }

  predicate Before(first: Operation, second: Operation) {
    && (first.Close? && second.Write? ==> first.index < second.index)
    && (first.Write? && second.Create? ==> first.index < second.index)
  }

  ghost predicate Started(log: Log, out: Output) {
    Answer(Create(out.index), true) in log && Written(log, out.index) == out.rows
  }

  /** The output was created, holds exactly its rows, and was closed. */
  ghost predicate Done(log: Log, out: Output) {
    Started(log, out) && Answer(Close(out.index), true) in log
  }

  // ---------------------------------------------------------------- the log so far

  /** Outputs below `closed` may have been closed, those below `created` created and
      written. */
  predicate Within(op: Operation, closed: nat, created: nat) {
    && (op.Close? ==> op.index < closed)
    && (op.Create? || op.Write? ==> op.index < created)
    && !op.Persist?
  }

  predicate AllWithin(log: Log, closed: nat, created: nat) {
    forall i :: 0 <= i < |log| ==> Within(log[i].op, closed, created)
  }

  predicate InputsOpened(log: Log, inputs: nat) {
    forall f :: 0 <= f < inputs ==> Answer(OpenInput(f), true) in log
  }

  /** Everything succeeded so far, completed outputs are done and the current one is started. */
  ghost predicate Recorded(log: Log, completed: seq<Output>, current: Option<Output>, inputs: nat) {
    && AllOk(log) && Checked(log) && InOrder(log) && InputsOpened(log, inputs)
    && AllWithin(log, |completed|, |completed| + if current.Some? then 1 else 0)
    && (forall k :: 0 <= k < |completed| ==> completed[k].index == k && Done(log, completed[k]))
    && (current.Some? ==> current.value.index == |completed| && Started(log, current.value))
  }

  /** All inputs were opened and all outputs are done, in order and with every check. */
  ghost predicate Prepared(log: Log, outs: seq<Output>, inputs: nat) {
    && Checked(log) && InOrder(log) && InputsOpened(log, inputs)
    && forall k :: 0 <= k < |outs| ==> Done(log, outs[k])
  }

  lemma RecordedFacts(log: Log, completed: seq<Output>, current: Option<Output>, inputs: nat)
    requires Recorded(log, completed, current, inputs)
    ensures NoPersist(log)
    ensures current.None? ==> Prepared(log, completed, inputs)
  {
  }

  lemma {:induction false} WrittenBelow(log: Log, closed: nat, created: nat, index: nat)
    requires AllWithin(log, closed, created) && created <= index
    ensures Written(log, index) == []
  {
    if log != [] { WrittenBelow(log[..|log| - 1], closed, created, index); }
  }

  /** One more answer that is not a write leaves the written rows alone. */
  lemma WrittenSame(log: Log, a: Answer, index: nat)
    requires !(a.op.Write? && a.op.index == index)
    ensures Written(log + [a], index) == Written(log, index)
  {
    assert (log + [a])[..|log|] == log;
  }

  lemma WrittenMore(log: Log, index: nat, rows: seq<Row>)
    ensures Written(log + [Answer(Write(index, rows), true)], index) == Written(log, index) + rows
  {
    var a := Answer(Write(index, rows), true);
    assert (log + [a])[..|log|] == log;
  }

  /** What any harmless answer keeps: one that is neither a write nor a persist. */
  lemma AnswerKeeps(log: Log, a: Answer, completed: seq<Output>, current: Option<Output>, inputs: nat)
    requires Recorded(log, completed, current, inputs) && a.ok && !a.op.Write? && !a.op.Persist?
    ensures var after := log + [a];
            && AllOk(after) && Checked(after) && InputsOpened(after, inputs)
            && (forall k :: 0 <= k < |completed| ==> Done(after, completed[k]))
            && (current.Some? ==> Started(after, current.value))
  {
    var after := log + [a];
    assert forall x :: x in log ==> x in after;
    forall k | 0 <= k < |completed|
      ensures Done(after, completed[k])
    {
      WrittenSame(log, a, completed[k].index);
    }
    if current.Some? { WrittenSame(log, a, current.value.index); }
    forall i | 0 <= i < |after| && after[i].op.Write? && after[i].ok
      ensures i + 1 < |after| && after[i + 1].op.CheckCancelled?
    {
      assert log[i].op.Write? && log[i].ok;
    }
  }

  lemma OrderKept(log: Log, op: Operation, closed: nat, created: nat)
    requires InOrder(log) && AllWithin(log, closed, created)
    requires (op.Write? ==> closed <= op.index) && (op.Create? ==> created <= op.index)
    ensures InOrder(log + [Answer(op, true)])
  {
  }

  lemma InputOpened(log: Log, completed: seq<Output>, current: Option<Output>, inputs: nat)
    requires Recorded(log, completed, current, inputs)
    ensures Recorded(log + [Answer(OpenInput(inputs), true)], completed, current, inputs + 1)
  {
    var a := Answer(OpenInput(inputs), true);
    AnswerKeeps(log, a, completed, current, inputs);
    OrderKept(log, a.op, |completed|, |completed| + if current.Some? then 1 else 0);
    assert a in log + [a];
  }

  lemma OutputCreated(log: Log, completed: seq<Output>, inputs: nat)
    requires Recorded(log, completed, None, inputs)
    ensures var n := |completed|;
            Recorded(log + [Answer(Create(n), true)], completed, Some(Output(n, [], 0)), inputs)
  {
    var n := |completed|;
    var a := Answer(Create(n), true);
    AnswerKeeps(log, a, completed, None, inputs);
    OrderKept(log, a.op, n, n);
    WrittenBelow(log, n, n, n);
    WrittenSame(log, a, n);
    assert a in log + [a];
  }

  lemma OutputClosed(log: Log, completed: seq<Output>, current: Output, inputs: nat)
    requires Recorded(log, completed, Some(current), inputs)
    ensures Recorded(log + [Answer(Close(current.index), true)], completed + [current], None, inputs)
  {
    var a := Answer(Close(current.index), true);
    AnswerKeeps(log, a, completed, Some(current), inputs);
    OrderKept(log, a.op, |completed|, |completed| + 1);
    assert a in log + [a];
  }

  /** A slice is written and the flag is not set: the two answers together. */
  lemma SliceRecorded(log: Log, completed: seq<Output>, current: Output, rows: seq<Row>, inputs: nat)
    requires Recorded(log, completed, Some(current), inputs)
    ensures Recorded(log + [Answer(Write(current.index, rows), true)] + [Answer(CheckCancelled, true)], completed,
                     Some(Output(current.index, current.rows + rows, current.numRows + |rows|)), inputs)
  {
    var n := |completed|;
    var a, b := Answer(Write(n, rows), true), Answer(CheckCancelled, true);
    var mid := log + [a];
    var after := mid + [b];
    OrderKept(log, a.op, n, n + 1);
    assert AllWithin(mid, n, n + 1);
    OrderKept(mid, b.op, n, n + 1);
    WrittenMore(log, n, rows);
    WrittenSame(mid, b, n);
    assert forall x :: x in log ==> x in after;
    forall k | 0 <= k < n
      ensures Done(after, completed[k])
    {
      WrittenSame(log, a, k);
      WrittenSame(mid, b, k);
    }
    SliceChecked(log, a, b);
  }

  lemma SliceChecked(log: Log, a: Answer, b: Answer)
    requires Checked(log) && a.op.Write? && b.op.CheckCancelled?
    ensures Checked(log + [a] + [b])
  {
    var after := log + [a] + [b];
    forall i | 0 <= i < |after| && after[i].op.Write? && after[i].ok
      ensures i + 1 < |after| && after[i + 1].op.CheckCancelled?
    {
      if i < |log| { assert log[i].op.Write? && log[i].ok; }
    }
  }

  // ---------------------------------------------------------------- the persist phase

  /** The answers while outputs are persisted in order, the first k of them successfully. */
  function PersistAnswers(outs: seq<Output>, k: nat): (log: Log)
    requires k <= |outs|
  {
    Persisted(outs, k) + (if k < |outs| then [Answer(Persist(outs[k].index), false)] else [])
  }

  function Persisted(outs: seq<Output>, k: nat): (log: Log)
    requires k <= |outs|
    ensures |log| == k
  {
    seq(k, i requires 0 <= i < k => Answer(Persist(outs[i].index), true))
  }

  lemma FailedAnswer(log: Log, op: Operation)
    ensures !AllOk(log + [Answer(op, false)])
  {
    assert !(log + [Answer(op, false)])[|log|].ok;
  }
}
