/** Splitting strings at a character and joining them with dots. */
module Strings {

  function SplitAt(s: string, c: char): (parts: seq<string>)
    ensures parts != []
  {
    if s == [] then [[]]
    else
      var rest := SplitAt(s[1..], c);
      if s[0] == c then [[]] + rest else [[s[0]] + rest[0]] + rest[1..]
  }

  lemma {:induction false} SplitPlain(s: string, c: char)
    requires c !in s
    ensures SplitAt(s, c) == [s]
  {
    if s != [] {
      SplitPlain(s[1..], c);
      assert s == [s[0]] + s[1..];
    }
  }

  lemma {:induction false} SplitOnce(a: string, c: char, b: string)
    requires c !in a && c !in b
    ensures SplitAt(a + [c] + b, c) == [a, b]
  {
    var s := a + [c] + b;
    if a == [] {
      assert s[1..] == b;
      SplitPlain(b, c);
    } else {
      assert s[1..] == a[1..] + [c] + b;
      SplitOnce(a[1..], c, b);
      assert a == [a[0]] + a[1..];
    }
  }

  /** Parts joined with dots. */
  function Join(parts: seq<string>): string {
    if parts == [] then []
    else if |parts| == 1 then parts[0]
    else Join(parts[..|parts| - 1]) + "." + parts[|parts| - 1]
  }

  predicate DotFree(parts: seq<string>) {
    forall k :: 0 <= k < |parts| ==> '.' !in parts[k]
  }

  lemma {:induction false} SplitAppend(a: string, b: string)
    requires '.' !in b
    ensures SplitAt(a + "." + b, '.') == SplitAt(a, '.') + [b]
  {
    var s := a + "." + b;
    if a == [] {
      assert s[1..] == b;
      SplitPlain(b, '.');
    } else {
      assert s[1..] == a[1..] + "." + b;
      SplitAppend(a[1..], b);
    }
  }

  lemma {:induction false} JoinFront(first: string, rest: seq<string>)
    requires rest != []
    ensures Join([first] + rest) == first + "." + Join(rest)
    decreases |rest|
  {
    var all, n := [first] + rest, |rest| - 1;
    assert all[..n + 1] == [first] + rest[..n];
    if n > 0 {
      JoinFront(first, rest[..n]);
      assert first + "." + Join(rest[..n]) + "." + rest[n] == first + "." + (Join(rest[..n]) + "." + rest[n]);
    }
  }

  /** Joining undoes splitting, for every text, and the parts have no dots. */
  lemma {:induction false} JoinSplit(s: string)
    ensures Join(SplitAt(s, '.')) == s && DotFree(SplitAt(s, '.'))
  {
    if s != [] {
      var rest := SplitAt(s[1..], '.');
      JoinSplit(s[1..]);
      assert s == [s[0]] + s[1..];
      if s[0] == '.' { JoinFront([], rest); } else { JoinPrepend(s[0], rest); }
    }
  }

  /** A character before the first part is a character before the text. */
  lemma JoinPrepend(c: char, parts: seq<string>)
    requires parts != []
    ensures Join([[c] + parts[0]] + parts[1..]) == [c] + Join(parts)
  {
    if |parts| > 1 {
      JoinFront(parts[0], parts[1..]);
      JoinFront([c] + parts[0], parts[1..]);
      assert parts == [parts[0]] + parts[1..];
      assert ([c] + parts[0]) + "." + Join(parts[1..]) == [c] + (parts[0] + "." + Join(parts[1..]));
    } else {
      assert parts == [parts[0]];
    }
  }

  /** Splitting undoes joining when no part contains a dot. */
  lemma {:induction false} SplitJoin(parts: seq<string>)
    requires parts != [] && DotFree(parts)
    ensures SplitAt(Join(parts), '.') == parts
    decreases |parts|
  {
    var n := |parts| - 1;
    if n == 0 {
      SplitPlain(parts[0], '.');
    } else {
      SplitJoin(parts[..n]);
      SplitAppend(Join(parts[..n]), parts[n]);
      assert parts == parts[..n] + [parts[n]];
    }
  }
}
