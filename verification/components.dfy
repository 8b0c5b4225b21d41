/** Reference definitions shared by the three vector sizes. */
module Components {

  /** Sum of pairwise products of two equally long component sequences. */
  function Dot(a: seq<int>, b: seq<int>): int
    requires |a| == |b|
  {
    if |a| == 0 then 0 else a[0] * b[0] + Dot(a[1..], b[1..])
  }

  predicate IsZero(s: seq<int>)
  {
    forall i :: 0 <= i < |s| ==> s[i] == 0
  }

  /** A vector's dot product with itself is a sum of squares: never negative, and zero only for the zero vector. */
  lemma {:induction false} SumOfSquares(s: seq<int>)
    ensures Dot(s, s) >= 0
    ensures Dot(s, s) == 0 <==> IsZero(s)
  {
    if |s| > 0 {
      SumOfSquares(s[1..]);
      assert s[0] * s[0] >= 0;
      assert s[0] != 0 ==> s[0] * s[0] > 0;
      if IsZero(s[1..]) && s[0] == 0 {
        forall i | 0 <= i < |s| ensures s[i] == 0 {
          if i > 0 { assert s[i] == s[1..][i - 1]; }
        }
      }
      if IsZero(s) {
        forall i | 0 <= i < |s[1..]| ensures s[1..][i] == 0 {
          assert s[1..][i] == s[i + 1];
        }
      }
    }
  }
}
