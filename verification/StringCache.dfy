/** The bounded string cache of the writing side. */
module StringCache {
  import opened Values
  import opened Texts

  const CAPACITY_MAX: nat := 65_536
  const VALUE_BYTES_MAX: nat := 4096
  const RETAINED_BYTES_MAX: nat := 16 * 1024 * 1024

  /** A reference-counted string: the allocation it lives in and its content. */
  datatype Shared = Shared(allocation: nat, text: Text)

  /** `allocations` counts the strings interned so far, which names them. */
  datatype Cache = Cache(
    capacity: nat, entries: map<Text, Shared>, retained: nat, hits: nat, misses: nat, allocations: nat)

  datatype Call = Intern(s: Text) | Clear

  function NewCache(capacity: nat): Cache {
    Cache(Min(capacity, CAPACITY_MAX), map[], 0, 0, 0, 0)
  }

  function InternStep(c: Cache, s: Text): (Cache, Shared) {
    if s in c.entries then (c.(hits := c.hits + 1), c.entries[s])
    else
      var interned := Shared(c.allocations, s);
      var missed := c.(misses := c.misses + 1, allocations := c.allocations + 1);
      if |c.entries| < c.capacity && |s| <= VALUE_BYTES_MAX && SaturatingAdd(c.retained, |s|) <= RETAINED_BYTES_MAX
      then (missed.(entries := c.entries[s := interned], retained := SaturatingAdd(c.retained, |s|)), interned)
      else (missed, interned)
  }

  function ClearStep(c: Cache): Cache {
    c.(entries := map[], retained := 0, hits := 0, misses := 0)
  }

  function Step(c: Cache, call: Call): Cache {
    match call
    case Intern(s) => InternStep(c, s).0
    case Clear => ClearStep(c)
  }

  function Run(c: Cache, calls: seq<Call>): Cache {
    if calls == [] then c else Step(Run(c, calls[..|calls| - 1]), calls[|calls| - 1])
  }

  /** Number of intern calls after the last clear. */
  function SinceClear(calls: seq<Call>): nat {
    if calls == [] || calls[|calls| - 1].Clear? then 0 else 1 + SinceClear(calls[..|calls| - 1])
  }

  // ---------------------------------------------------------------- invariant

  ghost predicate Valid(c: Cache) {
    && (forall s :: s in c.entries ==>
          c.entries[s].text == s && |s| <= VALUE_BYTES_MAX && c.entries[s].allocation < c.allocations)
    && |c.entries| <= c.capacity <= CAPACITY_MAX
    && c.retained == TotalLength(c.entries.Keys) <= RETAINED_BYTES_MAX
  }

  lemma InternKept(c: Cache, s: Text)
    requires Valid(c)
    ensures var (d, answer) := InternStep(c, s);
            Valid(d) && answer.text == s && c.entries.Keys <= d.entries.Keys
            && forall t :: t in c.entries ==> d.entries[t] == c.entries[t]
  {
    if s !in c.entries {
      TotalLengthInsert(c.entries.Keys, s);
      assert c.entries[s := Shared(c.allocations, s)].Keys == c.entries.Keys + {s};
    }
  }

  /** A call retains its text, besides what was retained, exactly when there is room: fewer entries
      than the capacity, at most 4096 bytes of text, and at most 16 MiB of texts in all. It is a hit
      exactly when the text was retained before; a miss gets an allocation that no entry has. */
  lemma RetainedIff(c: Cache, s: Text)
    requires Valid(c)
    ensures var (d, answer) := InternStep(c, s);
            && d.capacity == c.capacity
            && (forall t :: t in d.entries <==>
                  t in c.entries
                  || (t == s && |c.entries| < c.capacity && |s| <= 4096
                      && TotalLength(c.entries.Keys) + |s| <= 16_777_216))
            && (if s in c.entries then d.hits == c.hits + 1 && d.misses == c.misses
                else d.hits == c.hits && d.misses == c.misses + 1)
            && (s !in c.entries ==> forall t :: t in c.entries ==> c.entries[t].allocation != answer.allocation)
  {
  }

  /** After a clear nothing is retained or counted, so that the next call is a miss. */
  lemma ClearForgets(c: Cache, s: Text)
    ensures var d := Step(c, Clear);
            && (forall t :: t !in d.entries) && d.retained == 0 && d.hits == 0 && d.misses == 0
            && d.capacity == c.capacity
            && InternStep(d, s).0.misses == 1
  {
  }

  /** How often `s` is asked for. */
  function Asked(calls: seq<Call>, s: Text): nat {
    if calls == [] then 0
    else Asked(calls[..|calls| - 1], s) + if calls[|calls| - 1] == Intern(s) then 1 else 0
  }

  /** Main result on hits: until the next clear every call for a retained text is a hit, and the hits
      grow by at least the number of these calls. */
  lemma {:induction false} RetainedHits(c: Cache, calls: seq<Call>, s: Text)
    requires Valid(c) && s in c.entries && forall k :: 0 <= k < |calls| ==> calls[k].Intern?
    ensures var d := Run(c, calls);
            && Valid(d) && s in d.entries
            && d.hits >= c.hits + Asked(calls, s)
            && InternStep(d, s).0.hits == d.hits + 1
    decreases |calls|
  {
    if calls != [] {
      var n := |calls| - 1;
      RetainedHits(c, calls[..n], s);
      InternKept(Run(c, calls[..n]), calls[n].s);
      RetainedIff(Run(c, calls[..n]), calls[n].s);
    }
  }

  /** Main result: over any calls the bounds hold, the retained bytes are the total length of the
      retained texts, and hits and misses add up to the calls since the last clear. */
  lemma {:induction false} ReachableValid(capacity: nat, calls: seq<Call>)
    ensures var c := Run(NewCache(capacity), calls);
            && Valid(c) && c.capacity == Min(capacity, 65_536)
            && c.hits + c.misses == SinceClear(calls)
    decreases |calls|
  {
    var none: map<Text, Shared> := map[];
    assert none.Keys == {} && TotalLength({}) == 0;
    if calls != [] {
      var n := |calls| - 1;
      ReachableValid(capacity, calls[..n]);
      if calls[n].Intern? { InternKept(Run(NewCache(capacity), calls[..n]), calls[n].s); }
    }
  }

  /** A retained text is answered with the same allocation until the next clear. */
  lemma {:induction false} SharedUntilClear(c: Cache, calls: seq<Call>, s: Text)
    requires Valid(c) && s in c.entries && forall k :: 0 <= k < |calls| ==> calls[k].Intern?
    ensures var d := Run(c, calls);
            Valid(d) && s in d.entries && InternStep(d, s).1 == c.entries[s]
    decreases |calls|
  {
    if calls != [] {
      var n := |calls| - 1;
      SharedUntilClear(c, calls[..n], s);
      InternKept(Run(c, calls[..n]), calls[n].s);
    }
  }

  // ---------------------------------------------------------------- larger capacities

  /** The larger cache holds at least what the smaller one holds; they differ only once the
      smaller one is full, and from then on the smaller one keeps its entries. */
  ghost predicate Simulates(small: Cache, large: Cache) {
    && small.capacity <= large.capacity
    && small.entries.Keys <= large.entries.Keys
    && |small.entries| <= small.capacity
    && (|small.entries| == small.capacity
        || (small.entries.Keys == large.entries.Keys && small.retained == large.retained))
    && small.hits <= large.hits
  }

  lemma SimulatesStep(small: Cache, large: Cache, call: Call)
    requires Simulates(small, large)
    ensures Simulates(Step(small, call), Step(large, call))
  {
    if call.Intern? {
      SameSize(small.entries, large.entries);
    }
  }

  lemma SameSize(a: map<Text, Shared>, b: map<Text, Shared>)
    ensures a.Keys == b.Keys ==> |a| == |b|
  {
    assert |a| == |a.Keys| && |b| == |b.Keys|;
  }

  /** Main result: on the same calls, a larger capacity never yields fewer hits. */
  lemma {:induction false} MoreCapacityMoreHits(a: nat, b: nat, calls: seq<Call>)
    requires a <= b
    ensures Simulates(Run(NewCache(a), calls), Run(NewCache(b), calls))
    ensures Run(NewCache(a), calls).hits <= Run(NewCache(b), calls).hits
    decreases |calls|
  {
    if calls != [] {
      var n := |calls| - 1;
      MoreCapacityMoreHits(a, b, calls[..n]);
      SimulatesStep(Run(NewCache(a), calls[..n]), Run(NewCache(b), calls[..n]), calls[n]);
    }
  }

  // ---------------------------------------------------------------- the object

  class StringCache {
    const capacity: nat
    var entries: map<Text, Shared>
    var retainedBytes: nat
    var hits: nat
    var misses: nat
    var allocations: nat

    ghost function Current(): Cache
      reads this
    {
      Cache(capacity, entries, retainedBytes, hits, misses, allocations)
    }

    constructor (capacity: nat)
      ensures Current() == NewCache(capacity)
    {
      this.capacity := Min(capacity, CAPACITY_MAX);
      entries, retainedBytes, hits, misses, allocations := map[], 0, 0, 0, 0;
    }

    method Intern(s: Text) returns (r: Shared)
      modifies this
      ensures (Current(), r) == InternStep(old(Current()), s)
    {
      if s in entries {
        hits := hits + 1;
        return entries[s];
      }
      r := Shared(allocations, s);
      allocations := allocations + 1;
      misses := misses + 1;
      var next := SaturatingAdd(retainedBytes, |s|);
      if |entries| < capacity && |s| <= VALUE_BYTES_MAX && next <= RETAINED_BYTES_MAX {
        retainedBytes := next;
        entries := entries[s := r];
      }
    }

    /** Cache size, hits and misses; the hit rate is their quotient, zero before any call. */
    method Stats() returns (size: nat, h: nat, m: nat, rate: real)
      ensures size == |entries| && h == hits && m == misses
      ensures 0.0 <= rate <= 1.0 && (hits + misses == 0 ==> rate == 0.0)
      ensures rate * (hits + misses) as real == hits as real
    {
      size, h, m := |entries|, hits, misses;
      if hits + misses > 0 {
        rate := hits as real / (hits + misses) as real;
      } else {
        rate := 0.0;
      }
    }

    method ClearAll()
      modifies this
      ensures Current() == ClearStep(old(Current()))
    {
      entries, retainedBytes, hits, misses := map[], 0, 0, 0;
    }
  }
}
