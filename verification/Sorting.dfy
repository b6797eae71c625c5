/** Sorting entries by their string key, as `sort_by` does on unique keys. */
module Sorting {

  /** Strict order of strings by code point, which is the byte order of their UTF-8 forms. */
  predicate Below(a: string, b: string) {
    if b == [] then false
    else if a == [] then true
    else if a[0] != b[0] then a[0] < b[0]
    else Below(a[1..], b[1..])
  }

  /** The texts agree up to place k, where `a` ends or has the smaller character. */
  predicate BelowAt(a: string, b: string, k: nat) {
    k <= |a| && k < |b| && a[..k] == b[..k] && (k == |a| || a[k] < b[k])
  }

  lemma BelowAtHead(a: string, b: string, k: nat)
    requires BelowAt(a, b, k)
    ensures if k > 0 then a != [] && a[0] == b[0] else a == [] || a[0] < b[0]
  {
    if k > 0 { assert a[..k][0] == a[0] && b[..k][0] == b[0]; }
  }

  /** The order: a text is below another when it is a proper prefix of it, or has the smaller character
      at the first place where they differ. */
  lemma {:induction false} BelowIff(a: string, b: string)
    ensures Below(a, b) <==> exists k: nat :: BelowAt(a, b, k)
  {
    if a != [] && b != [] && a[0] == b[0] {
      BelowIff(a[1..], b[1..]);
      if k: nat :| BelowAt(a[1..], b[1..], k) {
        assert a[..k + 1] == [a[0]] + a[1..][..k] && b[..k + 1] == [b[0]] + b[1..][..k];
        assert BelowAt(a, b, k + 1);
      }
      if k: nat :| BelowAt(a, b, k) {
        BelowAtHead(a, b, k);
        assert a[1..][..k - 1] == a[..k][1..] && b[1..][..k - 1] == b[..k][1..];
        assert BelowAt(a[1..], b[1..], k - 1);
      }
    } else {
      if k: nat :| BelowAt(a, b, k) { BelowAtHead(a, b, k); }
      if Below(a, b) { assert BelowAt(a, b, 0); }
    }
  }

  lemma {:induction false} BelowTrichotomy(a: string, b: string)
    ensures Below(a, b) || a == b || Below(b, a)
    ensures !(Below(a, b) && Below(b, a))
    ensures !Below(a, a)
    decreases |a| + |b|
  {
    BelowIrreflexive(a);
    if a != [] {
      if b != [] && a[0] == b[0] {
        BelowTrichotomy(a[1..], b[1..]);
        assert a == [a[0]] + a[1..] && b == [b[0]] + b[1..];
      }
    }
  }

  lemma {:induction false} BelowIrreflexive(a: string)
    ensures !Below(a, a)
  {
    if a != [] { BelowIrreflexive(a[1..]); }
  }

  lemma {:induction false} BelowTransitive(a: string, b: string, c: string)
    requires Below(a, b) && Below(b, c)
    ensures Below(a, c)
  {
    if a != [] && a[0] == b[0] && b[0] == c[0] {
      BelowTransitive(a[1..], b[1..], c[1..]);
    }
  }

  ghost predicate SortedByKey<T(!new)>(s: seq<(string, T)>) {
    forall i, k :: 0 <= i < k < |s| ==> Below(s[i].0, s[k].0)
  }

  ghost predicate UniqueKeys<T(!new)>(s: seq<(string, T)>) {
    forall i, k :: 0 <= i < k < |s| ==> s[i].0 != s[k].0
  }

  function Insert<T(!new)>(e: (string, T), s: seq<(string, T)>): (r: seq<(string, T)>)
    ensures |r| == |s| + 1
    ensures forall x :: x in r <==> x == e || x in s
  {
    if s == [] || Below(e.0, s[0].0) then [e] + s
    else
      assert s == [s[0]] + s[1..];
      [s[0]] + Insert(e, s[1..])
  }

  function Sort<T(!new)>(s: seq<(string, T)>): (r: seq<(string, T)>)
    ensures |r| == |s|
    ensures forall x :: x in r <==> x in s
  {
    if s == [] then []
    else
      assert s == [s[0]] + s[1..];
      Insert(s[0], Sort(s[1..]))
  }

  lemma {:induction false} InsertSorted<T(!new)>(e: (string, T), s: seq<(string, T)>)
    requires SortedByKey(s) && forall x :: x in s ==> x.0 != e.0
    ensures SortedByKey(Insert(e, s))
  {
    if s != [] {
      BelowTrichotomy(e.0, s[0].0);
      assert s[0] in s;
      if Below(e.0, s[0].0) {
        forall k | 0 < k < |s|
          ensures Below(e.0, s[k].0)
        {
          BelowTransitive(e.0, s[0].0, s[k].0);
        }
      } else {
        InsertSorted(e, s[1..]);
        var r := Insert(e, s[1..]);
        forall k | 0 <= k < |r|
          ensures Below(s[0].0, r[k].0)
        {
          assert r[k] in r;
          if r[k] in s[1..] {
            var i :| 0 <= i < |s| - 1 && s[1..][i] == r[k];
            assert s[i + 1] == r[k];
          }
        }
      }
    }
  }

  lemma {:induction false} SortSorted<T(!new)>(s: seq<(string, T)>)
    requires UniqueKeys(s)
    ensures SortedByKey(Sort(s))
  {
    if s != [] {
      SortSorted(s[1..]);
      forall x | x in Sort(s[1..])
        ensures x.0 != s[0].0
      {
        var i :| 0 <= i < |s| - 1 && s[1..][i] == x;
        assert s[i + 1] == x;
      }
      InsertSorted(s[0], Sort(s[1..]));
    }
  }

  /** A sorted list is determined by its members. */
  lemma {:induction false} SortedCanonical<T(!new)>(a: seq<(string, T)>, b: seq<(string, T)>)
    requires SortedByKey(a) && SortedByKey(b)
    requires forall x :: x in a <==> x in b
    ensures a == b
    decreases |a|
  {
    assert a == [] || a[0] in b;
    assert b == [] || b[0] in a;
    if a != [] {
      SameHead(a, b);
      forall x
        ensures x in a[1..] <==> x in b[1..]
      {
        TailMember(a, x);
        TailMember(b, x);
      }
      SortedCanonical(a[1..], b[1..]);
      assert a == [a[0]] + a[1..] && b == [b[0]] + b[1..];
    }
  }

  lemma TailMember<T(!new)>(a: seq<(string, T)>, x: (string, T))
    requires SortedByKey(a) && a != []
    ensures x in a[1..] <==> x in a && x != a[0]
  {
    assert a == [a[0]] + a[1..];
    if a[0] in a[1..] {
      var i :| 0 <= i < |a| - 1 && a[1..][i] == a[0];
      assert Below(a[0].0, a[i + 1].0);
      BelowTrichotomy(a[0].0, a[0].0);
    }
  }

  lemma SameHead<T(!new)>(a: seq<(string, T)>, b: seq<(string, T)>)
    requires SortedByKey(a) && SortedByKey(b) && a != [] && b != []
    requires forall x :: x in a <==> x in b
    ensures a[0] == b[0]
  {
    assert a[0] in a && b[0] in b;
    var i :| 0 <= i < |b| && b[i] == a[0];
    var k :| 0 <= k < |a| && a[k] == b[0];
    if i > 0 && k > 0 {
      BelowTrichotomy(a[0].0, b[0].0);
    }
  }
}
