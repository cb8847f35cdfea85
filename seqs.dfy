/** Java stream `filter(...).collect(toList())` over sequences. */
module Seqs {

  /** The elements of `s` that satisfy `keep`, in their original order. */
  function Filter<T(==)>(s: seq<T>, keep: T -> bool): (r: seq<T>)
    ensures |r| <= |s|
    ensures forall x :: x in r ==> x in s && keep(x)
    ensures forall x :: x in s && keep(x) ==> x in r
  {
    if s == [] then []
    else (if keep(s[0]) then [s[0]] else []) + Filter(s[1..], keep)
  }

  /** Filtering a concatenation filters each part: the filter never reorders elements across parts. */
  lemma {:induction false} FilterAppend<T>(a: seq<T>, b: seq<T>, keep: T -> bool)
    ensures Filter(a + b, keep) == Filter(a, keep) + Filter(b, keep)
  {
    if a != [] {
      assert (a + b)[0] == a[0] && (a + b)[1..] == a[1..] + b;
      FilterAppend(a[1..], b, keep);
    } else {
      assert a + b == b;
    }
  }

  /** Two tests that agree on every element of `s` keep the same elements. */
  lemma {:induction false} FilterCongruent<T>(s: seq<T>, keep1: T -> bool, keep2: T -> bool)
    requires forall x :: x in s ==> (keep1(x) <==> keep2(x))
    ensures Filter(s, keep1) == Filter(s, keep2)
  {
    if s != [] {
      FilterCongruent(s[1..], keep1, keep2);
    }
  }

  /** Every position in `rest` moved one to the right. */
  function Shift(rest: seq<int>): (shifted: seq<int>)
    ensures |shifted| == |rest|
    ensures forall j :: 0 <= j < |rest| ==> shifted[j] == rest[j] + 1
  {
    seq(|rest|, j requires 0 <= j < |rest| => rest[j] + 1)
  }

  lemma ShiftMembership(rest: seq<int>, i: int)
    ensures i in Shift(rest) <==> i - 1 in rest
  {
    var shifted := Shift(rest);
    if i - 1 in rest {
      var j :| 0 <= j < |rest| && rest[j] == i - 1;
      assert shifted[j] == i;
    }
  }

  predicate StrictlyIncreasing(xs: seq<int>) {
    forall j, k :: 0 <= j < k < |xs| ==> xs[j] < xs[k]
  }

  /** Shifting increasing non-negative positions and putting 0 in front keeps them increasing. */
  lemma ShiftIncreasing(rest: seq<int>)
    requires StrictlyIncreasing(rest)
    requires forall j :: 0 <= j < |rest| ==> rest[j] >= 0
    ensures StrictlyIncreasing(Shift(rest)) && StrictlyIncreasing([0] + Shift(rest))
  {
  }

  /** `idx` holds exactly the positions of `s` whose element passes `keep`. */
  predicate MarksPassing<T>(s: seq<T>, keep: T -> bool, idx: seq<int>) {
    forall i :: 0 <= i < |s| ==> (i in idx <==> keep(s[i]))
  }

  lemma MarksPassingStep<T>(s: seq<T>, keep: T -> bool, rest: seq<int>)
    requires s != [] && MarksPassing(s[1..], keep, rest)
    requires forall j :: 0 <= j < |rest| ==> rest[j] >= 0
    ensures MarksPassing(s, keep, (if keep(s[0]) then [0] else []) + Shift(rest))
  {
    var idx := (if keep(s[0]) then [0] else []) + Shift(rest);
    forall i | 0 <= i < |s|
      ensures i in idx <==> keep(s[i])
    {
      ShiftMembership(rest, i);
      if i > 0 {
        assert s[1..][i - 1] == s[i];
      }
    }
  }

  /**
   * The filter result is the subsequence of `s` at exactly the positions whose
   * element passes the test: `idx` lists those positions in increasing order.
   */
  lemma {:induction false} FilterSelects<T>(s: seq<T>, keep: T -> bool) returns (idx: seq<int>)
    ensures |idx| == |Filter(s, keep)|
    ensures forall j :: 0 <= j < |idx| ==> 0 <= idx[j] < |s| && Filter(s, keep)[j] == s[idx[j]]
    ensures StrictlyIncreasing(idx)
    ensures MarksPassing(s, keep, idx)
  {
    if s == [] {
      idx := [];
    } else {
      var rest := FilterSelects(s[1..], keep);
      var r, r' := Filter(s, keep), Filter(s[1..], keep);
      var head := if keep(s[0]) then [s[0]] else [];
      assert r == head + r';
      idx := (if keep(s[0]) then [0] else []) + Shift(rest);
      assert |idx| == |r|;
      assert forall j :: 0 <= j < |idx| ==> 0 <= idx[j] < |s| && r[j] == s[idx[j]] by {
        forall j | |head| <= j < |idx|
          ensures 0 <= idx[j] < |s| && r[j] == s[idx[j]]
        {
          var m := j - |head|;
          assert idx[j] == rest[m] + 1;
          assert r[j] == r'[m] == s[1..][rest[m]];
        }
      }
      ShiftIncreasing(rest);
      MarksPassingStep(s, keep, rest);
    }
  }
}
