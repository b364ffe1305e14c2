/** Sub-collections of a list of values, as inclusion masks. */
module Subsets {
  import opened Basics

  function Count(m: seq<bool>): (n: nat)
    ensures n <= |m|
  {
    if m == [] then 0 else (if m[0] then 1 else 0) + Count(m[1..])
  }

  function Nothing(n: nat): (m: seq<bool>)
    ensures |m| == n && Count(m) == 0
  {
    if n == 0 then [] else [false] + Nothing(n - 1)
  }

  function Pick<T>(s: seq<T>, m: seq<bool>): (r: seq<T>)
    requires |s| == |m|
    ensures |r| == Count(m)
  {
    if s == [] then [] else if m[0] then [s[0]] + Pick(s[1..], m[1..]) else Pick(s[1..], m[1..])
  }

  function PickSum(vs: seq<int>, m: seq<bool>): int
    requires |vs| == |m|
  {
    if vs == [] then 0 else (if m[0] then vs[0] else 0) + PickSum(vs[1..], m[1..])
  }

  lemma {:induction false} PickSumIsSum(vs: seq<int>, m: seq<bool>)
    requires |vs| == |m|
    ensures Sum(Pick(vs, m)) == PickSum(vs, m)
  {
    if vs == [] {
    } else {
      PickSumIsSum(vs[1..], m[1..]);
      if m[0] {
        assert Pick(vs, m)[1..] == Pick(vs[1..], m[1..]);
      }
    }
  }

  ghost predicate Ascending(vs: seq<int>) {
    forall i, j :: 0 <= i < j < |vs| ==> vs[i] <= vs[j]
  }

  /** No k values of an ascending list total less than its first k values. */
  lemma {:induction false} FirstValuesAreLeast(vs: seq<int>, m: seq<bool>)
    requires |vs| == |m| && Ascending(vs)
    ensures Sum(vs[..Count(m)]) <= PickSum(vs, m)
  {
    if vs == [] {
    } else {
      var k := Count(m);
      FirstValuesAreLeast(vs[1..], m[1..]);
      if m[0] {
        assert vs[..k][1..] == vs[1..][..k - 1];
      } else if k > 0 {
        assert k <= |vs| - 1;
        ShiftedWindow(vs, k);
      }
    }
  }

  /** In an ascending list a window of k values moved right does not lose value. */
  lemma {:induction false} ShiftedWindow(vs: seq<int>, k: nat)
    requires Ascending(vs) && k < |vs|
    ensures Sum(vs[..k]) <= Sum(vs[1..][..k])
  {
    if k == 0 {
    } else {
      ShiftedWindow(vs, k - 1);
      assert vs[..k] == vs[..k - 1] + [vs[k - 1]];
      assert vs[1..][..k] == vs[1..][..k - 1] + [vs[k]];
      SumConcat(vs[..k - 1], [vs[k - 1]]);
      SumConcat(vs[1..][..k - 1], [vs[k]]);
    }
  }

  /** No k values of an ascending list total more than its last k values. */
  lemma {:induction false} LastValuesAreMost(vs: seq<int>, m: seq<bool>)
    requires |vs| == |m| && Ascending(vs)
    ensures PickSum(vs, m) <= Sum(vs[|vs| - Count(m)..])
  {
    if vs == [] {
    } else {
      var k := Count(m);
      var tail := vs[1..];
      LastValuesAreMost(tail, m[1..]);
      if m[0] {
        var s := vs[|vs| - k..];
        assert s[1..] == tail[|tail| - (k - 1)..];
        assert vs[0] <= s[0];
      } else {
        assert vs[|vs| - k..] == tail[|tail| - k..];
      }
    }
  }
}
