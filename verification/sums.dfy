/** Sums of natural numbers, used to aggregate stroke counts over the tracers of a level. */
module Sums {

  function Sum(s: seq<nat>): nat {
    if s == [] then 0 else Sum(s[..|s| - 1]) + s[|s| - 1]
  }

  /** Extending a prefix by one element adds that element. */
  lemma SumPrefix(s: seq<nat>, i: nat)
    requires i < |s|
    ensures Sum(s[..i + 1]) == Sum(s[..i]) + s[i]
  {
    assert s[..i + 1][..i] == s[..i];
  }

  /** A sum of zeros is zero. */
  lemma {:induction false} SumZero(s: seq<nat>)
    requires forall k :: 0 <= k < |s| ==> s[k] == 0
    ensures Sum(s) == 0
  {
    if s != [] {
      SumZero(s[..|s| - 1]);
    }
  }

  /** Raising one element by one raises the sum by one. */
  lemma {:induction false} SumIncrement(s: seq<nat>, j: nat)
    requires j < |s|
    ensures Sum(s[j := s[j] + 1]) == Sum(s) + 1
  {
    var t := s[j := s[j] + 1];
    var n := |s| - 1;
    if j < n {
      assert t[..n] == s[..n][j := s[j] + 1];
      SumIncrement(s[..n], j);
    } else {
      assert t[..n] == s[..n];
    }
  }

  /** Pointwise below means below in sum, and the sums are equal exactly when
      the sequences are. */
  lemma {:induction false} SumBelow(a: seq<nat>, b: seq<nat>)
    requires |a| == |b|
    requires forall k :: 0 <= k < |a| ==> a[k] <= b[k]
    ensures Sum(a) <= Sum(b)
    ensures Sum(a) == Sum(b) <==> a == b
  {
    if a != [] {
      var n := |a| - 1;
      SumBelow(a[..n], b[..n]);
      if Sum(a) == Sum(b) {
        assert a[..n] == b[..n] && a[n] == b[n];
        assert a == a[..n] + [a[n]] && b == b[..n] + [b[n]];
      }
    }
  }
}
