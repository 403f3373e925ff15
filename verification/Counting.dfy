/** Counting distinct numbers: the pigeonhole arguments used by the log and the page allocator. */
module Counting {
  ghost predicate Distinct(s: seq<int>) {
    forall i, j :: 0 <= i < j < |s| ==> s[i] != s[j]
  }

  function Range(n: nat): (s: set<int>)
    ensures |s| == n
    ensures forall i :: i in s <==> 0 <= i < n
  {
    if n == 0 then {} else Range(n - 1) + {n - 1}
  }

  lemma {:induction false} DistinctFit(s: seq<int>, t: set<int>)
    requires Distinct(s) && forall i :: 0 <= i < |s| ==> s[i] in t
    ensures |s| <= |t|
  {
    if s != [] {
      var k := |s| - 1;
      DistinctFit(s[..k], t - {s[k]});
    }
  }

  lemma {:induction false} SetOfSeq(s: seq<int>)
    ensures |set x | x in s| <= |s|
  {
    if s != [] {
      var k := |s| - 1;
      SetOfSeq(s[..k]);
      assert s == s[..k] + [s[k]];
      assert (set x | x in s) == (set x | x in s[..k]) + {s[k]};
    }
  }
}
