/** Equality and hashing of values: records compare without regard to insertion order, and the
  hasher is fed the same tokens for equal values and only for equal values. */
module Hashing {
  import opened Values
  import opened Sorting

  /** What a hasher can be fed. A string or byte string is one self-delimiting token. */
  datatype Token =
    | Tag(n: nat)
    | Length(n: nat)
    | Word(i: int)
    | Text(s: string)
    | Raw(bytes: seq<byte>)
    | FloatBits(f: Float)

  // ---------------------------------------------------------------- equality

  /** `OrderedFloat`: NaN equals itself and the zeros are equal. */
  function Canonical(f: Float): Float {
    if f.Zero? then Zero(false) else f
  }

  predicate LeafEq(a: Leaf, b: Leaf) {
    match (a, b)
    case (Float16(f), Float16(g)) => Canonical(f) == Canonical(g)
    case (Float32(f), Float32(g)) => Canonical(f) == Canonical(g)
    case (Float64(f), Float64(g)) => Canonical(f) == Canonical(g)
    case _ => a == b
  }

  /** The derived equality; two records are equal when they have as many entries and every entry
      of the first is found, equal, in the second. */
  predicate Eq(v: Value, w: Value)
    decreases v
  {
    match (v, w)
    case (Null, Null) => true
    case (Leaf(a), Leaf(b)) => LeafEq(a, b)
    case (List(a), List(b)) => |a| == |b| && forall k :: 0 <= k < |a| ==> Eq(a[k], b[k])
    case (Map(a), Map(b)) =>
      |a| == |b| && forall k :: 0 <= k < |a| ==> Eq(a[k].0, b[k].0) && Eq(a[k].1, b[k].1)
    case (Record(a), Record(b)) =>
      && |a| == |b|
      && forall k :: 0 <= k < |a| ==> var x := Lookup(b, a[k].0); x.Some? && Eq(a[k].1, x.value)
    case _ => false
  }

  /** An `IndexMap` has no key twice. */
  predicate WellKeyed(v: Value) {
    match v
    case List(a) => forall k :: 0 <= k < |a| ==> WellKeyed(a[k])
    case Map(a) => forall k :: 0 <= k < |a| ==> WellKeyed(a[k].0) && WellKeyed(a[k].1)
    case Record(a) =>
      && (forall i, k :: 0 <= i < k < |a| ==> a[i].0 != a[k].0)
      && forall k :: 0 <= k < |a| ==> WellKeyed(a[k].1)
    case _ => true
  }

  /** When two floats are equal: both are NaN, both are zeros of any sign, or they are the same number
      or the same infinity. */
  predicate SameNumber(f: Float, g: Float) {
    || (f.NaN? && g.NaN?)
    || (f.Zero? && g.Zero?)
    || (f.Finite? && g.Finite? && f.r == g.r)
    || (f.Infinity? && g.Infinity? && f.negative == g.negative)
  }

  /** Scalars are equal exactly when they are the same, or float scalars of the same width and the
      same number. */
  lemma LeafEqIff(a: Leaf, b: Leaf)
    ensures LeafEq(a, b) <==>
            || a == b
            || (a.Float16? && b.Float16? && SameNumber(a.f16, b.f16))
            || (a.Float32? && b.Float32? && SameNumber(a.f32, b.f32))
            || (a.Float64? && b.Float64? && SameNumber(a.f64, b.f64))
  {
  }

  /** Records are equal exactly when they have the same names, and equal values under each of them. */
  lemma RecordEqIff(a: RecordEntries, b: RecordEntries)
    requires WellKeyed(Record(a)) && WellKeyed(Record(b))
    ensures Eq(Record(a), Record(b)) <==>
            KeysOf(a) == KeysOf(b)
            && forall i, k :: 0 <= i < |a| && 0 <= k < |b| && a[i].0 == b[k].0 ==> Eq(a[i].1, b[k].1)
  {
    if Eq(Record(a), Record(b)) { EqualRecordsAgree(a, b); }
    if KeysOf(a) == KeysOf(b)
       && forall i, k :: 0 <= i < |a| && 0 <= k < |b| && a[i].0 == b[k].0 ==> Eq(a[i].1, b[k].1) {
      AgreeingRecordsEqual(a, b);
    }
  }

  lemma EqualRecordsAgree(a: RecordEntries, b: RecordEntries)
    requires UniqueKeys(a) && UniqueKeys(b) && Eq(Record(a), Record(b))
    ensures KeysOf(a) == KeysOf(b)
    ensures forall i, k :: 0 <= i < |a| && 0 <= k < |b| && a[i].0 == b[k].0 ==> Eq(a[i].1, b[k].1)
  {
    CountKeys(a);
    CountKeys(b);
    forall s | s in KeysOf(a)
      ensures s in KeysOf(b)
    {
      var i :| 0 <= i < |a| && a[i].0 == s;
      var k :| 0 <= k < |b| && b[k] == (s, Lookup(b, s).value);
    }
    SubsetOfSameSize(KeysOf(a), KeysOf(b));
    forall i, k | 0 <= i < |a| && 0 <= k < |b| && a[i].0 == b[k].0
      ensures Eq(a[i].1, b[k].1)
    {
      LookupUnique(b, k);
    }
  }

  lemma AgreeingRecordsEqual(a: RecordEntries, b: RecordEntries)
    requires UniqueKeys(a) && UniqueKeys(b) && KeysOf(a) == KeysOf(b)
    requires forall i, k :: 0 <= i < |a| && 0 <= k < |b| && a[i].0 == b[k].0 ==> Eq(a[i].1, b[k].1)
    ensures Eq(Record(a), Record(b))
  {
    CountKeys(a);
    CountKeys(b);
    forall i | 0 <= i < |a|
      ensures Lookup(b, a[i].0).Some? && Eq(a[i].1, Lookup(b, a[i].0).value)
    {
      assert a[i].0 in KeysOf(b);
      var k :| 0 <= k < |b| && b[k].0 == a[i].0;
      LookupUnique(b, k);
    }
  }

  /** A value without records and floats. */
  predicate Plain(v: Value) {
    match v
    case Leaf(l) => !l.Float16? && !l.Float32? && !l.Float64?
    case List(a) => forall k :: 0 <= k < |a| ==> Plain(a[k])
    case Map(a) => forall k :: 0 <= k < |a| ==> Plain(a[k].0) && Plain(a[k].1)
    case Record(_) => false
    case Null => true
  }

  /** Only floats and records are ever equal without being the same. */
  lemma {:induction false} PlainEq(v: Value, w: Value)
    requires Plain(v)
    ensures Eq(v, w) <==> v == w
    decreases v
  {
    match (v, w)
    case (List(a), List(b)) =>
      forall k | 0 <= k < |a| && k < |b|
        ensures Eq(a[k], b[k]) <==> a[k] == b[k]
      {
        PlainEq(a[k], b[k]);
      }
      assert Eq(v, w) ==> a == b;
    case (Map(a), Map(b)) =>
      forall k | 0 <= k < |a| && k < |b|
        ensures Eq(a[k].0, b[k].0) && Eq(a[k].1, b[k].1) <==> a[k] == b[k]
      {
        PlainEq(a[k].0, b[k].0);
        PlainEq(a[k].1, b[k].1);
      }
      assert Eq(v, w) ==> a == b;
    case (Leaf(a), Leaf(b)) =>
    case _ =>
  }

  // ---------------------------------------------------------------- tokens

  function TimestampTag(unit: TimeUnit): nat {
    match unit
    case Second => 19
    case Millisecond => 20
    case Microsecond => 21
    case Nanosecond => 22
  }

  function LeafTag(l: Leaf): nat {
    match l
    case Int8(_) => 0
    case Int16(_) => 1
    case Int32(_) => 2
    case Int64(_) => 3
    case UInt8(_) => 4
    case UInt16(_) => 5
    case UInt32(_) => 6
    case UInt64(_) => 7
    case Float16(_) => 8
    case Float32(_) => 9
    case Float64(_) => 10
    case Boolean(_) => 11
    case Str(_) => 12
    case Bytes(_) => 13
    case Uuid(_) => 14
    case Date32(_) => 15
    case Date64(_) => 16
    case Decimal128(_, _) => 17
    case Decimal256(_, _) => 18
    case Timestamp(unit, _, _) => TimestampTag(unit)
    case TimeMillis(_) => 23
    case TimeMicros(_) => 24
    case TimeNanos(_) => 25
  }

  function TzTokens(tz: Option<string>): seq<Token> {
    match tz
    case None => [Tag(0)]
    case Some(s) => [Tag(1), Text(s)]
  }

  function Payload(l: Leaf): (p: seq<Token>)
    ensures p != []
  {
    match l
    case Int8(i) => [Word(i)]
    case Int16(i) => [Word(i)]
    case Int32(i) => [Word(i)]
    case Int64(i) => [Word(i)]
    case UInt8(i) => [Word(i)]
    case UInt16(i) => [Word(i)]
    case UInt32(i) => [Word(i)]
    case UInt64(i) => [Word(i)]
    case Float16(f) => [FloatBits(Canonical(f))]
    case Float32(f) => [FloatBits(Canonical(f))]
    case Float64(f) => [FloatBits(Canonical(f))]
    case Boolean(b) => [Word(if b then 1 else 0)]
    case Str(s) => [Text(s)]
    case Bytes(b) => [Raw(b)]
    case Uuid(u) => [Raw(u)]
    case Date32(d) => [Word(d)]
    case Date64(d) => [Word(d)]
    case Decimal128(d, s) => [Word(d), Word(s)]
    case Decimal256(d, s) => [Word(d), Word(s)]
    case Timestamp(_, t, tz) => [Word(t)] + TzTokens(tz)
    case TimeMillis(t) => [Word(t)]
    case TimeMicros(t) => [Word(t)]
    case TimeNanos(t) => [Word(t)]
  }

  function Flatten(parts: seq<seq<Token>>): seq<Token> {
    if parts == [] then [] else parts[0] + Flatten(parts[1..])
  }

  function EntryTokens(e: (string, seq<Token>)): seq<Token> {
    [Text(e.0)] + e.1
  }

  function EntriesTokens(es: seq<(string, seq<Token>)>): seq<Token> {
    if es == [] then [] else EntryTokens(es[0]) + EntriesTokens(es[1..])
  }

  /** The variant's discriminant. */
  function VariantTag(v: Value): nat {
    match v
    case Leaf(l) => LeafTag(l)
    case List(_) => 26
    case Map(_) => 27
    case Record(_) => 28
    case Null => 29
  }

  /** What `hash` feeds the hasher: the discriminant, then the content. */
  function Hash(v: Value): seq<Token>
    decreases v, 2
  {
    [Tag(VariantTag(v))] + Body(v)
  }

  /** Sorting looks at keys only, so it may as well come after the values of a record's entries
      have been turned into tokens. */
  function Body(v: Value): seq<Token>
    decreases v, 1
  {
    match v
    case Leaf(l) => Payload(l)
    case List(a) => [Length(|a|)] + Flatten(ItemParts(v))
    case Map(a) => [Length(|a|)] + Flatten(PairParts(v))
    case Record(a) => [Length(|a|)] + EntriesTokens(Sort(HashedEntries(v)))
    case Null => [Word(0)]
  }

  function ItemParts(v: Value): (parts: seq<seq<Token>>)
    requires v.List?
    ensures |parts| == |v.items|
    decreases v, 0
  {
    seq(|v.items|, k requires 0 <= k < |v.items| => Hash(v.items[k]))
  }

  function PairParts(v: Value): (parts: seq<seq<Token>>)
    requires v.Map?
    ensures |parts| == |v.entries|
    decreases v, 0
  {
    seq(|v.entries|, k requires 0 <= k < |v.entries| => Hash(v.entries[k].0) + Hash(v.entries[k].1))
  }

  function HashedEntries(v: Value): (es: seq<(string, seq<Token>)>)
    requires v.Record?
    ensures |es| == |v.fields|
    decreases v, 0
  {
    seq(|v.fields|, k requires 0 <= k < |v.fields| => (v.fields[k].0, Hash(v.fields[k].1)))
  }

  // ---------------------------------------------------------------- equal values, equal tokens

  lemma {:induction false} EqualHashes(v: Value, w: Value)
    requires WellKeyed(v) && WellKeyed(w) && Eq(v, w)
    ensures Hash(v) == Hash(w)
    decreases v, 1
  {
    match (v, w)
    case (Leaf(a), Leaf(b)) =>
    case (List(a), List(b)) =>
      forall k | 0 <= k < |a|
        ensures Hash(a[k]) == Hash(b[k])
      {
        EqualHashes(a[k], b[k]);
      }
      assert ItemParts(v) == ItemParts(w);
    case (Map(a), Map(b)) =>
      forall k | 0 <= k < |a|
        ensures Hash(a[k].0) == Hash(b[k].0) && Hash(a[k].1) == Hash(b[k].1)
      {
        EqualHashes(a[k].0, b[k].0);
        EqualHashes(a[k].1, b[k].1);
      }
      assert PairParts(v) == PairParts(w);
    case (Record(a), Record(b)) => EqualRecordHashes(v, w);
    case (Null, Null) =>
  }

  lemma {:induction false} EqualRecordHashes(v: Value, w: Value)
    requires v.Record? && w.Record? && WellKeyed(v) && WellKeyed(w) && Eq(v, w)
    ensures Sort(HashedEntries(v)) == Sort(HashedEntries(w))
    decreases v, 0
  {
    var a, b, x, y := v.fields, w.fields, HashedEntries(v), HashedEntries(w);
    forall k | 0 <= k < |x|
      ensures x[k] in y
    {
      var u := Lookup(b, a[k].0).value;
      var m :| 0 <= m < |b| && b[m] == (a[k].0, u);
      EqualHashes(a[k].1, u);
      assert x[k] == y[m];
    }
    SameMembersSort(x, y);
  }

  function KeysOf<T>(s: seq<(string, T)>): set<string> {
    set k | 0 <= k < |s| :: s[k].0
  }

  lemma {:induction false} CountKeys<T(!new)>(s: seq<(string, T)>)
    requires UniqueKeys(s)
    ensures |KeysOf(s)| == |s|
  {
    if s == [] {
      assert KeysOf(s) == {};
    } else {
      var n := |s| - 1;
      CountKeys(s[..n]);
      KeysStep(s[..n], s[n]);
      assert s[..n] + [s[n]] == s;
      assert s[n].0 !in KeysOf(s[..n]);
    }
  }

  lemma KeysStep<T>(s: seq<(string, T)>, e: (string, T))
    ensures KeysOf(s + [e]) == KeysOf(s) + {e.0}
  {
    var t := s + [e];
    forall x | x in KeysOf(s)
      ensures x in KeysOf(t)
    {
      var k :| 0 <= k < |s| && s[k].0 == x;
      assert t[k].0 == x;
    }
    assert t[|s|].0 == e.0;
  }

  /** Equally long lists with unique keys, one contained in the other, sort to the same list. */
  lemma SameMembersSort<T(!new)>(x: seq<(string, T)>, y: seq<(string, T)>)
    requires UniqueKeys(x) && UniqueKeys(y) && |x| == |y|
    requires forall k :: 0 <= k < |x| ==> x[k] in y
    ensures Sort(x) == Sort(y)
  {
    CountKeys(x);
    CountKeys(y);
    forall s | s in KeysOf(x)
      ensures s in KeysOf(y)
    {
      var k :| 0 <= k < |x| && x[k].0 == s;
      var m :| 0 <= m < |y| && x[k] == y[m];
      assert y[m].0 == s;
    }
    SubsetOfSameSize(KeysOf(x), KeysOf(y));
    forall e
      ensures e in x <==> e in y
    {
      if e in y {
        var m :| 0 <= m < |y| && y[m] == e;
        assert e.0 in KeysOf(y);
        var k :| 0 <= k < |x| && x[k].0 == e.0;
        var n :| 0 <= n < |y| && x[k] == y[n];
        assert n == m;
      }
    }
    SortSorted(x);
    SortSorted(y);
    SortedCanonical(Sort(x), Sort(y));
  }

  // ---------------------------------------------------------------- equal tokens, equal values

  lemma PayloadPrefix(l: Leaf, m: Leaf, a: seq<Token>, b: seq<Token>)
    requires LeafTag(l) == LeafTag(m) && Payload(l) + a == Payload(m) + b
    ensures LeafEq(l, m) && a == b
  {
    if l.Timestamp? {
      HeadAndTail(Word(l.t), TzTokens(l.tz), a, Word(m.t), TzTokens(m.tz), b);
      TzPrefix(l.tz, m.tz, a, b);
    } else {
      SamePrefix(Payload(l), a, Payload(m), b);
    }
  }

  lemma SamePrefix(x: seq<Token>, a: seq<Token>, y: seq<Token>, b: seq<Token>)
    requires |x| == |y| && x + a == y + b
    ensures x == y && a == b
  {
    assert (x + a)[..|x|] == x && (y + b)[..|y|] == y;
    assert (x + a)[|x|..] == a && (y + b)[|y|..] == b;
  }

  lemma TzPrefix(s: Option<string>, t: Option<string>, a: seq<Token>, b: seq<Token>)
    requires TzTokens(s) + a == TzTokens(t) + b
    ensures s == t && a == b
  {
    var x, y := TzTokens(s) + a, TzTokens(t) + b;
    assert x[0] == y[0];
    if s.Some? {
      assert x[1] == y[1] && x[2..] == a && y[2..] == b;
    } else {
      assert x[1..] == a && y[1..] == b;
    }
  }

  lemma FlattenFrom(parts: seq<seq<Token>>, k: nat)
    requires k < |parts|
    ensures Flatten(parts[k..]) == parts[k] + Flatten(parts[k + 1..])
  {
    assert parts[k..][1..] == parts[k + 1..];
  }

  lemma HeadAndTail(s: Token, x: seq<Token>, a: seq<Token>, t: Token, y: seq<Token>, b: seq<Token>)
    requires [s] + x + a == [t] + y + b
    ensures s == t && x + a == y + b
  {
    assert ([s] + x + a)[0] == s && ([t] + y + b)[0] == t;
    assert ([s] + x + a)[1..] == x + a && ([t] + y + b)[1..] == y + b;
  }

  /** The tokens of a value cannot be a proper prefix of those of another, and determine it. */
  lemma {:induction false} HashPrefix(v: Value, w: Value, a: seq<Token>, b: seq<Token>)
    requires WellKeyed(v) && WellKeyed(w) && Hash(v) + a == Hash(w) + b
    ensures Eq(v, w) && a == b
    decreases v, 1, 0
  {
    HeadAndTail(Tag(VariantTag(v)), Body(v), a, Tag(VariantTag(w)), Body(w), b);
    match v
    case Leaf(l) => PayloadPrefix(l, w.leaf, a, b);
    case Null => assert (Body(v) + a)[1..] == a && (Body(w) + b)[1..] == b;
    case List(_) =>
      var p, q := ItemParts(v), ItemParts(w);
      HeadAndTail(Length(|v.items|), Flatten(p), a, Length(|w.items|), Flatten(q), b);
      assert p[0..] == p && q[0..] == q;
      ListPrefix(v, w, 0, a, b);
    case Map(_) =>
      var p, q := PairParts(v), PairParts(w);
      HeadAndTail(Length(|v.entries|), Flatten(p), a, Length(|w.entries|), Flatten(q), b);
      assert p[0..] == p && q[0..] == q;
      MapPrefix(v, w, 0, a, b);
    case Record(_) =>
      var se, sf := Sort(HashedEntries(v)), Sort(HashedEntries(w));
      HeadAndTail(Length(|v.fields|), EntriesTokens(se), a, Length(|w.fields|), EntriesTokens(sf), b);
      assert se[0..] == se && sf[0..] == sf;
      RecordPrefix(v, w, 0, a, b);
      PairedRecordsEq(v, w);
  }

  lemma PartsStep(p: seq<seq<Token>>, q: seq<seq<Token>>, k: nat, a: seq<Token>, b: seq<Token>)
    requires k < |p| && k < |q| && Flatten(p[k..]) + a == Flatten(q[k..]) + b
    ensures p[k] + (Flatten(p[k + 1..]) + a) == q[k] + (Flatten(q[k + 1..]) + b)
  {
    FlattenFrom(p, k);
    FlattenFrom(q, k);
    assert p[k] + (Flatten(p[k + 1..]) + a) == Flatten(p[k..]) + a;
    assert q[k] + (Flatten(q[k + 1..]) + b) == Flatten(q[k..]) + b;
  }

  lemma {:induction false} ListPrefix(v: Value, w: Value, k: nat, a: seq<Token>, b: seq<Token>)
    requires v.List? && w.List? && WellKeyed(v) && WellKeyed(w) && k <= |v.items| == |w.items|
    requires Flatten(ItemParts(v)[k..]) + a == Flatten(ItemParts(w)[k..]) + b
    ensures a == b && forall i :: k <= i < |v.items| ==> Eq(v.items[i], w.items[i])
    decreases v, 0, |v.items| - k
  {
    if k == |v.items| {
      assert [] + a == a && [] + b == b;
    } else {
      var p, q := ItemParts(v), ItemParts(w);
      PartsStep(p, q, k, a, b);
      HashPrefix(v.items[k], w.items[k], Flatten(p[k + 1..]) + a, Flatten(q[k + 1..]) + b);
      ListPrefix(v, w, k + 1, a, b);
    }
  }

  lemma {:induction false} MapPrefix(v: Value, w: Value, k: nat, a: seq<Token>, b: seq<Token>)
    requires v.Map? && w.Map? && WellKeyed(v) && WellKeyed(w) && k <= |v.entries| == |w.entries|
    requires Flatten(PairParts(v)[k..]) + a == Flatten(PairParts(w)[k..]) + b
    ensures a == b
    ensures forall i :: k <= i < |v.entries| ==>
              Eq(v.entries[i].0, w.entries[i].0) && Eq(v.entries[i].1, w.entries[i].1)
    decreases v, 0, |v.entries| - k
  {
    if k == |v.entries| {
      assert [] + a == a && [] + b == b;
    } else {
      var p, q := PairParts(v), PairParts(w);
      PartsStep(p, q, k, a, b);
      PairPrefix(v, w, k, Flatten(p[k + 1..]) + a, Flatten(q[k + 1..]) + b);
      MapPrefix(v, w, k + 1, a, b);
    }
  }

  lemma {:induction false} PairPrefix(v: Value, w: Value, k: nat, a: seq<Token>, b: seq<Token>)
    requires v.Map? && w.Map? && k < |v.entries| && k < |w.entries|
    requires WellKeyed(v) && WellKeyed(w)
    requires PairParts(v)[k] + a == PairParts(w)[k] + b
    ensures Eq(v.entries[k].0, w.entries[k].0) && Eq(v.entries[k].1, w.entries[k].1) && a == b
    decreases v, 0, 0
  {
    var (kv, vv) := v.entries[k];
    var (kw, vw) := w.entries[k];
    assert Hash(kv) + (Hash(vv) + a) == PairParts(v)[k] + a;
    assert Hash(kw) + (Hash(vw) + b) == PairParts(w)[k] + b;
    HashPrefix(kv, kw, Hash(vv) + a, Hash(vw) + b);
    HashPrefix(vv, vw, a, b);
  }

  /** Both records have the key, with equal values. */
  ghost predicate Paired(v: Value, w: Value, key: string)
    requires v.Record? && w.Record?
  {
    exists i, j :: 0 <= i < |v.fields| && 0 <= j < |w.fields| && v.fields[i].0 == key == w.fields[j].0
                   && Eq(v.fields[i].1, w.fields[j].1)
  }

  lemma EntriesStep(es: seq<(string, seq<Token>)>, fs: seq<(string, seq<Token>)>, k: nat, a: seq<Token>, b: seq<Token>)
    requires k < |es| && k < |fs| && EntriesTokens(es[k..]) + a == EntriesTokens(fs[k..]) + b
    ensures es[k].0 == fs[k].0
    ensures es[k].1 + (EntriesTokens(es[k + 1..]) + a) == fs[k].1 + (EntriesTokens(fs[k + 1..]) + b)
  {
    assert es[k..][1..] == es[k + 1..] && fs[k..][1..] == fs[k + 1..];
    var x, y := EntriesTokens(es[k + 1..]) + a, EntriesTokens(fs[k + 1..]) + b;
    assert EntriesTokens(es[k..]) + a == [Text(es[k].0)] + es[k].1 + x;
    assert EntriesTokens(fs[k..]) + b == [Text(fs[k].0)] + fs[k].1 + y;
    HeadAndTail(Text(es[k].0), es[k].1, x, Text(fs[k].0), fs[k].1, y);
  }

  lemma EntryOf(v: Value, e: (string, seq<Token>)) returns (i: nat)
    requires v.Record? && e in HashedEntries(v)
    ensures i < |v.fields| && e == (v.fields[i].0, Hash(v.fields[i].1))
  {
    i :| 0 <= i < |v.fields| && HashedEntries(v)[i] == e;
  }

  lemma {:induction false} RecordPrefix(v: Value, w: Value, k: nat, a: seq<Token>, b: seq<Token>)
    requires v.Record? && w.Record? && WellKeyed(v) && WellKeyed(w) && k <= |v.fields| == |w.fields|
    requires EntriesTokens(Sort(HashedEntries(v))[k..]) + a == EntriesTokens(Sort(HashedEntries(w))[k..]) + b
    ensures a == b && forall m :: k <= m < |v.fields| ==> Paired(v, w, Sort(HashedEntries(v))[m].0)
    decreases v, 0, |v.fields| - k
  {
    var se, sf := Sort(HashedEntries(v)), Sort(HashedEntries(w));
    if k == |v.fields| {
      assert [] + a == a && [] + b == b;
    } else {
      EntriesStep(se, sf, k, a, b);
      var i := EntryOf(v, se[k]);
      var j := EntryOf(w, sf[k]);
      HashPrefix(v.fields[i].1, w.fields[j].1, EntriesTokens(se[k + 1..]) + a, EntriesTokens(sf[k + 1..]) + b);
      RecordPrefix(v, w, k + 1, a, b);
    }
  }

  lemma KeyInSorted(v: Value, i: nat) returns (m: nat)
    requires v.Record? && i < |v.fields|
    ensures m < |v.fields| && Sort(HashedEntries(v))[m].0 == v.fields[i].0
  {
    var e := HashedEntries(v)[i];
    assert e in Sort(HashedEntries(v));
    m :| 0 <= m < |v.fields| && Sort(HashedEntries(v))[m] == e;
  }

  lemma PairedRecordsEq(v: Value, w: Value)
    requires v.Record? && w.Record? && WellKeyed(v) && WellKeyed(w) && |v.fields| == |w.fields|
    requires forall m :: 0 <= m < |v.fields| ==> Paired(v, w, Sort(HashedEntries(v))[m].0)
    ensures Eq(v, w)
  {
    forall i | 0 <= i < |v.fields|
      ensures var x := Lookup(w.fields, v.fields[i].0); x.Some? && Eq(v.fields[i].1, x.value)
    {
      var m := KeyInSorted(v, i);
      PairedLookup(v, w, i);
    }
  }

  lemma PairedLookup(v: Value, w: Value, i: nat)
    requires v.Record? && w.Record? && WellKeyed(v) && WellKeyed(w) && i < |v.fields|
    requires Paired(v, w, v.fields[i].0)
    ensures var x := Lookup(w.fields, v.fields[i].0); x.Some? && Eq(v.fields[i].1, x.value)
  {
    var i', j :| 0 <= i' < |v.fields| && 0 <= j < |w.fields| && v.fields[i'].0 == v.fields[i].0 == w.fields[j].0
                 && Eq(v.fields[i'].1, w.fields[j].1);
    assert i' == i;
    LookupUnique(w.fields, j);
  }

  lemma {:induction false} LookupUnique(r: RecordEntries, j: nat)
    requires j < |r| && UniqueKeys(r)
    ensures Lookup(r, r[j].0) == Some(r[j].1)
  {
    if j > 0 { LookupUnique(r[1..], j - 1); }
  }

  /** Main result: two values feed the hasher the same tokens exactly when they are equal. */
  lemma HashIffEq(v: Value, w: Value)
    requires WellKeyed(v) && WellKeyed(w)
    ensures Hash(v) == Hash(w) <==> Eq(v, w)
  {
    if Eq(v, w) { EqualHashes(v, w); }
    if Hash(v) == Hash(w) { HashPrefix(v, w, [], []); }
  }

  /** So the derived equality is an equivalence, as `Eq` requires. */
  lemma EqIsEquivalence(u: Value, v: Value, w: Value)
    requires WellKeyed(u) && WellKeyed(v) && WellKeyed(w)
    ensures Eq(u, u)
    ensures Eq(u, v) ==> Eq(v, u)
    ensures Eq(u, v) && Eq(v, w) ==> Eq(u, w)
  {
    HashIffEq(u, u);
    HashIffEq(u, v);
    HashIffEq(v, u);
    HashIffEq(v, w);
    HashIffEq(u, w);
  }

  // ---------------------------------------------------------------- the hasher

  class Hasher {
    var fed: seq<Token>

    constructor ()
      ensures fed == []
    {
      fed := [];
    }

    method Feed(t: seq<Token>)
      modifies this
      ensures fed == old(fed) + t
    {
      fed := fed + t;
    }
  }

  /** `hash` as it runs: discriminant first, then the parts in order; a record's entries are
      sorted by key and then fed one after the other. */
  method HashInto(v: Value, state: Hasher)
    modifies state
    ensures state.fed == old(state.fed) + Hash(v)
    decreases v, 1
  {
    ghost var start, tag := state.fed, Tag(VariantTag(v));
    state.Feed([Tag(VariantTag(v))]);
    match v
    case Leaf(l) =>
      state.Feed(Payload(l));
      Regroup(start, tag, [], Payload(l));
    case Null =>
      state.Feed([Word(0)]);
      Regroup(start, tag, [], [Word(0)]);
    case List(items) =>
      state.Feed([Length(|items|)]);
      HashItems(v, state);
      Regroup(start, tag, [Length(|items|)], Flatten(ItemParts(v)));
    case Map(entries) =>
      state.Feed([Length(|entries|)]);
      HashPairs(v, state);
      Regroup(start, tag, [Length(|entries|)], Flatten(PairParts(v)));
    case Record(fields) =>
      state.Feed([Length(|fields|)]);
      HashRecord(v, state);
      Regroup(start, tag, [Length(|fields|)], EntriesTokens(Sort(HashedEntries(v))));
  }

  lemma Regroup(start: seq<Token>, tag: Token, length: seq<Token>, rest: seq<Token>)
    ensures start + [tag] + length + rest == start + ([tag] + (length + rest))
    ensures length == [] ==> start + [tag] + rest == start + ([tag] + rest)
  {
  }

  method HashItems(v: Value, state: Hasher)
    requires v.List?
    modifies state
    ensures state.fed == old(state.fed) + Flatten(ItemParts(v))
    decreases v, 0
  {
    ghost var start, parts := state.fed, ItemParts(v);
    assert Flatten(parts[..0]) == [];
    for k := 0 to |v.items|
      invariant state.fed == start + Flatten(parts[..k])
    {
      ghost var fed := state.fed;
      HashInto(v.items[k], state);
      PartFed(start, parts, k, fed, state.fed);
    }
    assert parts[..|v.items|] == parts;
  }

  method HashPairs(v: Value, state: Hasher)
    requires v.Map?
    modifies state
    ensures state.fed == old(state.fed) + Flatten(PairParts(v))
    decreases v, 0
  {
    ghost var start, parts := state.fed, PairParts(v);
    assert Flatten(parts[..0]) == [];
    for k := 0 to |v.entries|
      invariant state.fed == start + Flatten(parts[..k])
    {
      ghost var fed := state.fed;
      HashInto(v.entries[k].0, state);
      HashInto(v.entries[k].1, state);
      PairFed(start, parts, k, Hash(v.entries[k].0), Hash(v.entries[k].1), fed, state.fed);
    }
    assert parts[..|v.entries|] == parts;
  }

  lemma PartFed(start: seq<Token>, parts: seq<seq<Token>>, k: nat, before: seq<Token>, after: seq<Token>)
    requires k < |parts| && before == start + Flatten(parts[..k]) && after == before + parts[k]
    ensures after == start + Flatten(parts[..k + 1])
  {
    FlattenSnoc(parts, k);
  }

  lemma PairFed(start: seq<Token>, parts: seq<seq<Token>>, k: nat, key: seq<Token>, value: seq<Token>,
                before: seq<Token>, after: seq<Token>)
    requires k < |parts| && parts[k] == key + value
    requires before == start + Flatten(parts[..k]) && after == before + key + value
    ensures after == start + Flatten(parts[..k + 1])
  {
    PartFed(start, parts, k, before, after);
  }

  method HashRecord(v: Value, state: Hasher)
    requires v.Record?
    modifies state
    ensures state.fed == old(state.fed) + EntriesTokens(Sort(HashedEntries(v)))
    decreases v, 0
  {
    var entries := Sort(v.fields);
    ghost var start, hashed := state.fed, HashEach(entries);
    for k := 0 to |entries|
      invariant state.fed == start + EntriesTokens(hashed[..k])
    {
      ghost var fed := state.fed;
      assert entries[k] in v.fields;
      state.Feed([Text(entries[k].0)]);
      HashInto(entries[k].1, state);
      EntryFed(start, hashed, k, fed, state.fed);
    }
    assert hashed[..|entries|] == hashed;
    SortCommutes(v.fields);
    assert HashedEntries(v) == HashEach(v.fields);
  }

  lemma EntryFed(start: seq<Token>, es: seq<(string, seq<Token>)>, k: nat, before: seq<Token>, after: seq<Token>)
    requires k < |es| && before == start + EntriesTokens(es[..k]) && after == before + [Text(es[k].0)] + es[k].1
    ensures after == start + EntriesTokens(es[..k + 1])
  {
    EntriesSnoc(es, k);
  }

  ghost function HashEach(es: RecordEntries): (hs: seq<(string, seq<Token>)>)
    ensures |hs| == |es|
  {
    seq(|es|, k requires 0 <= k < |es| => (es[k].0, Hash(es[k].1)))
  }

  lemma {:induction false} FlattenSnoc(parts: seq<seq<Token>>, k: nat)
    requires k < |parts|
    ensures Flatten(parts[..k + 1]) == Flatten(parts[..k]) + parts[k]
  {
    if k > 0 {
      FlattenSnoc(parts[1..], k - 1);
      assert parts[..k + 1][1..] == parts[1..][..k];
      assert parts[..k][1..] == parts[1..][..k - 1];
    } else {
      assert parts[..1][1..] == [];
    }
  }

  lemma {:induction false} EntriesSnoc(es: seq<(string, seq<Token>)>, k: nat)
    requires k < |es|
    ensures EntriesTokens(es[..k + 1]) == EntriesTokens(es[..k]) + [Text(es[k].0)] + es[k].1
  {
    if k > 0 {
      EntriesSnoc(es[1..], k - 1);
      assert es[..k + 1][1..] == es[1..][..k];
      assert es[..k][1..] == es[1..][..k - 1];
    } else {
      assert es[..1][1..] == [];
    }
  }

  /** Sorting looks at keys only, so it commutes with hashing the values. */
  lemma {:induction false} SortCommutes(es: RecordEntries)
    ensures HashEach(Sort(es)) == Sort(HashEach(es))
  {
    if es != [] {
      SortCommutes(es[1..]);
      assert HashEach(es)[1..] == HashEach(es[1..]);
      InsertCommutes(es[0], Sort(es[1..]));
    }
  }

  lemma {:induction false} InsertCommutes(e: (string, Value), es: RecordEntries)
    ensures HashEach(Insert(e, es)) == Insert((e.0, Hash(e.1)), HashEach(es))
  {
    if es != [] && !Below(e.0, es[0].0) {
      InsertCommutes(e, es[1..]);
      assert HashEach(es)[1..] == HashEach(es[1..]);
    }
  }
}
