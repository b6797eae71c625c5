/** What `write_columns` takes: exactly the schema's columns, in any order. */
module WriterColumns {
  import opened Values
  import opened Arrow
  import opened Schema
  import opened Conversion
  import opened RoundTrip
  import opened Soundness
  import opened WriterState
  import opened WriterRuns

  type Named = seq<(string, seq<Value>)>

  function FieldNames(fields: seq<Field>): set<string> {
    set j | 0 <= j < |fields| :: fields[j].name
  }

  // ---------------------------------------------------------------- counting names

  /** Pigeonhole: a list of columns has as many names as entries exactly when none repeats. */
  lemma {:induction false} CountNames(named: Named)
    ensures |NamesOf(named)| <= |named|
    ensures DistinctNames(named) <==> |NamesOf(named)| == |named|
  {
    if named != [] {
      var n := |named| - 1;
      var before, last := named[..n], named[n].0;
      CountNames(before);
      NamesStep(named, n);
      if last in NamesOf(before) {
        var k :| 0 <= k < n && before[k].0 == last;
        assert named[k].0 == named[n].0;
        assert NamesOf(named) == NamesOf(before);
      }
      assert DistinctNames(named) <==> DistinctNames(before) && last !in NamesOf(before);
    } else {
      assert NamesOf(named) == {};
    }
  }

  lemma NamesStep(named: Named, n: nat)
    requires |named| == n + 1
    ensures NamesOf(named) == NamesOf(named[..n]) + {named[n].0}
  {
    forall x | x in NamesOf(named[..n])
      ensures x in NamesOf(named)
    {
      var k :| 0 <= k < n && named[..n][k].0 == x;
      assert named[k].0 == x;
    }
    forall x | x in NamesOf(named) && x != named[n].0
      ensures x in NamesOf(named[..n])
    {
      var k :| 0 <= k < |named| && named[k].0 == x;
      assert named[..n][k].0 == x;
    }
  }

  lemma {:induction false} CountFieldNames(fields: seq<Field>)
    requires UniqueFieldNames(fields)
    ensures |FieldNames(fields)| == |fields|
  {
    var named := seq(|fields|, j requires 0 <= j < |fields| => (fields[j].name, []));
    CountNames(named);
    assert NamesOf(named) == FieldNames(fields) by {
      forall x
        ensures x in NamesOf(named) <==> x in FieldNames(fields)
      {
        if x in NamesOf(named) {
          var k :| 0 <= k < |named| && named[k].0 == x;
          assert fields[k].name == x;
        }
        if x in FieldNames(fields) {
          var k :| 0 <= k < |fields| && fields[k].name == x;
          assert named[k].0 == x;
        }
      }
    }
  }

  lemma {:induction false} ByNameFinds(named: Named, k: nat)
    requires DistinctNames(named) && k < |named|
    ensures named[k].0 in ByName(named) && ByName(named)[named[k].0] == named[k].1
    decreases |named|
  {
    var n := |named| - 1;
    if k < n {
      ByNameFinds(named[..n], k);
    }
  }

  // ---------------------------------------------------------------- when columns are taken

  /** The argument names every schema field exactly once and nothing else, all columns are equally
      long, every value is accepted and has the schema's time unit, and all offsets can be built. */
  ghost predicate Conforms(named: Named, fields: seq<Field>) {
    && DistinctNames(named)
    && NamesOf(named) == FieldNames(fields)
    && (forall k, l :: 0 <= k < |named| && 0 <= l < |named| ==> |named[k].1| == |named[l].1|)
    && (forall k, j :: 0 <= k < |named| && 0 <= j < |fields| && named[k].0 == fields[j].name ==>
          ValuesConform(named[k].1, fields[j]))
  }

  ghost predicate ValuesConform(values: seq<Value>, f: Field) {
    AcceptsAll(values, f) && AllAgree(values, f) && Buildable(values, f)
  }

  /** A column for every field, under pairwise distinct names: the name sets are equal. */
  lemma NamesMatch(named: Named, fields: seq<Field>)
    requires UniqueFieldNames(fields) && |named| == |fields| && DistinctNames(named)
    requires forall j :: 0 <= j < |fields| ==> fields[j].name in ByName(named)
    ensures NamesOf(named) == FieldNames(fields)
  {
    CountNames(named);
    CountFieldNames(fields);
    SubsetOfSameSize(FieldNames(fields), NamesOf(named));
  }

  lemma FieldIndex(named: Named, fields: seq<Field>, k: nat) returns (j: nat)
    requires NamesOf(named) == FieldNames(fields) && k < |named|
    ensures j < |fields| && fields[j].name == named[k].0
  {
    assert named[k].0 in NamesOf(named);
    j :| 0 <= j < |fields| && fields[j].name == named[k].0;
  }

  lemma TakenConforms(named: Named, fields: seq<Field>)
    requires FieldsValid(fields) && ColumnsBatch(named, fields).Ok?
    ensures Conforms(named, fields)
  {
    ColumnsTaken(named, fields);
    NamesMatch(named, fields);
    var columns := Ordered(named, fields);
    forall k | 0 <= k < |named|
      ensures |named[k].1| == |columns[0]|
    {
      var j := FieldIndex(named, fields, k);
      ByNameFinds(named, k);
      assert columns[j] == named[k].1;
    }
    forall k, j | 0 <= k < |named| && 0 <= j < |fields| && named[k].0 == fields[j].name
      ensures ValuesConform(named[k].1, fields[j])
    {
      ByNameFinds(named, k);
      assert columns[j] == named[k].1;
      assert BuildAll(columns, fields)[j].Ok?;
      BuildAccepted(named[k].1, fields[j]);
    }
  }

  lemma ConformingColumn(named: Named, fields: seq<Field>, j: nat)
    requires Conforms(named, fields) && j < |fields|
    ensures fields[j].name in ByName(named)
    ensures var column := ByName(named)[fields[j].name];
            && ValuesConform(column, fields[j])
            && forall k :: 0 <= k < |named| ==> |named[k].1| == |column|
  {
    assert fields[j].name in FieldNames(fields);
    var k :| 0 <= k < |named| && named[k].0 == fields[j].name;
    ByNameFinds(named, k);
  }

  lemma ConformingTaken(named: Named, fields: seq<Field>)
    requires FieldsValid(fields) && Conforms(named, fields)
    ensures ColumnsBatch(named, fields).Ok?
  {
    CountNames(named);
    CountFieldNames(fields);
    var n := |named[0].1|;
    forall j | 0 <= j < |fields|
      ensures ColumnReady(ByName(named), fields[j], n)
    {
      ConformingPlaces(named, fields, j);
    }
    ReadyColumnsBuild(ByName(named), fields, n);
  }

  ghost predicate ColumnReady(byName: map<string, seq<Value>>, f: Field, n: nat) {
    && f.name in byName && |byName[f.name]| == n
    && var placed := PlaceColumn(byName, f);
       && placed.Ok? && Len(placed.value) == n && TypeOf(placed.value) == f.dataType
       && (f.nullable || !HasNulls(placed.value))
  }

  lemma ConformingPlaces(named: Named, fields: seq<Field>, j: nat)
    requires FieldsValid(fields) && Conforms(named, fields) && j < |fields| && named != []
    ensures ColumnReady(ByName(named), fields[j], |named[0].1|)
  {
    ConformingColumn(named, fields, j);
    ColumnPlaced(ByName(named), fields[j]);
  }

  lemma ReadyColumnsBuild(byName: map<string, seq<Value>>, fields: seq<Field>, n: nat)
    requires fields != [] && forall j :: 0 <= j < |fields| ==> ColumnReady(byName, fields[j], n)
    ensures LengthsAgree(byName, fields)
    ensures Collect(PlaceColumns(byName, fields)).Ok?
    ensures NewRecordBatch(fields, Collect(PlaceColumns(byName, fields)).value).Ok?
  {
    var placed := PlaceColumns(byName, fields);
    assert forall j :: 0 <= j < |fields| ==> placed[j] == PlaceColumn(byName, fields[j]);
    var arrays := Collect(placed).value;
    forall j | 0 <= j < |fields|
      ensures Len(arrays[j]) == n && TypeOf(arrays[j]) == fields[j].dataType
      ensures fields[j].nullable || !HasNulls(arrays[j])
    {
      assert ColumnReady(byName, fields[j], n) && placed[j] == Ok(arrays[j]);
    }
  }

  lemma ColumnPlaced(byName: map<string, seq<Value>>, f: Field)
    requires FieldOk(f) && f.name in byName && ValuesConform(byName[f.name], f)
    ensures var placed := PlaceColumn(byName, f);
            && placed.Ok? && Len(placed.value) == |byName[f.name]| && TypeOf(placed.value) == f.dataType
            && (f.nullable || !HasNulls(placed.value))
  {
    BuildAccepted(byName[f.name], f);
    ColumnBuilt(byName[f.name], f, PlaceColumn(byName, f).value);
  }

  /** Main result: a batch goes out exactly when the argument conforms to the schema. */
  lemma TakenIffConforms(named: Named, fields: seq<Field>)
    requires FieldsValid(fields)
    ensures ColumnsBatch(named, fields).Ok? <==> Conforms(named, fields)
  {
    if ColumnsBatch(named, fields).Ok? { TakenConforms(named, fields); }
    if Conforms(named, fields) { ConformingTaken(named, fields); }
  }

  // ---------------------------------------------------------------- order of the argument

  lemma SameMembers(a: Named, b: Named)
    requires multiset(a) == multiset(b)
    ensures |a| == |b| && NamesOf(a) == NamesOf(b)
    ensures forall x :: x in a <==> x in b
  {
    assert |multiset(a)| == |multiset(b)|;
    forall x
      ensures x in a <==> x in b
    {
      assert x in a <==> x in multiset(a);
      assert x in b <==> x in multiset(b);
    }
    forall s
      ensures s in NamesOf(a) <==> s in NamesOf(b)
    {
      if s in NamesOf(a) {
        var k :| 0 <= k < |a| && a[k].0 == s;
        assert a[k] in a;
        var l :| 0 <= l < |b| && b[l] == a[k];
      }
      if s in NamesOf(b) {
        var k :| 0 <= k < |b| && b[k].0 == s;
        assert b[k] in b;
        var l :| 0 <= l < |a| && a[l] == b[k];
      }
    }
  }

  lemma SameMap(a: Named, b: Named)
    requires multiset(a) == multiset(b)
    ensures DistinctNames(a) <==> DistinctNames(b)
    ensures DistinctNames(a) ==> ByName(a) == ByName(b)
  {
    SameMembers(a, b);
    CountNames(a);
    CountNames(b);
    if DistinctNames(a) {
      forall x | x in NamesOf(a)
        ensures ByName(a)[x] == ByName(b)[x]
      {
        var k :| 0 <= k < |a| && a[k].0 == x;
        assert a[k] in a && a[k] in b;
        var l :| 0 <= l < |b| && b[l] == a[k];
        ByNameFinds(a, k);
        ByNameFinds(b, l);
      }
    }
  }

  /** The columns may come in any order: batch, error and row history are the same. */
  lemma OrderIrrelevant(s: State, a: Named, b: Named, w: World)
    requires |s.columns| == |s.fields| && multiset(a) == multiset(b)
    ensures ColumnsBatch(a, s.fields) == ColumnsBatch(b, s.fields)
    ensures WriteColumnsStep(s, a, w) == WriteColumnsStep(s, b, w)
  {
    SameMembers(a, b);
    SameMap(a, b);
    SameStep(s, a, b, w);
  }

  lemma SameStep(s: State, a: Named, b: Named, w: World)
    requires |s.columns| == |s.fields| && |a| == |b|
    requires DistinctNames(a) <==> DistinctNames(b)
    requires DistinctNames(a) ==> ByName(a) == ByName(b)
    ensures ColumnsBatch(a, s.fields) == ColumnsBatch(b, s.fields)
    ensures WriteColumnsStep(s, a, w) == WriteColumnsStep(s, b, w)
  {
    if DistinctNames(a) {
      assert Ordered(a, s.fields) == Ordered(b, s.fields);
    }
  }
}
