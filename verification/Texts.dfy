/** UTF-8 texts as byte strings, machine-word arithmetic, and total lengths of sets of texts. */
module Texts {
  import opened Values

  type Text = seq<byte>

  const USIZE_MAX: nat := 0xFFFF_FFFF_FFFF_FFFF

  function SaturatingAdd(a: nat, b: nat): nat {
    if a + b > USIZE_MAX then USIZE_MAX else a + b
  }

  function SaturatingMul(a: nat, b: nat): nat {
    if a * b > USIZE_MAX then USIZE_MAX else a * b
  }

  ghost function TotalLength(s: set<Text>): nat {
    if s == {} then 0
    else
      var x :| x in s;
      |x| + TotalLength(s - {x})
  }

  lemma {:induction false} TotalLengthRemove(s: set<Text>, y: Text)
    requires y in s
    ensures TotalLength(s) == |y| + TotalLength(s - {y})
  {
    var x :| x in s && TotalLength(s) == |x| + TotalLength(s - {x});
    if x != y {
      TotalLengthRemove(s - {x}, y);
      TotalLengthRemove(s - {y}, x);
      assert s - {x} - {y} == s - {y} - {x};
    }
  }

  lemma TotalLengthInsert(s: set<Text>, y: Text)
    requires y !in s
    ensures TotalLength(s + {y}) == TotalLength(s) + |y|
  {
    TotalLengthRemove(s + {y}, y);
    assert s + {y} - {y} == s;
  }
}
