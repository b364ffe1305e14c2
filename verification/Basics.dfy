/** Options, results, sums and insertion-ordered dictionaries shared by every model. */
module Basics {

  datatype Option<+T> = None | Some(value: T)

  datatype Result<+T, +E> = Ok(value: T) | Err(error: E) {
    predicate IsFailure() { Err? }

    function PropagateFailure<U>(): Result<U, E>
      requires Err?
    {
      Err(error)
    }

    function Extract(): T
      requires Ok?
    {
      value
    }
  }

  function Sum(s: seq<int>): int {
    if s == [] then 0 else s[0] + Sum(s[1..])
  }

  lemma {:induction false} SumConcat(a: seq<int>, b: seq<int>)
    ensures Sum(a + b) == Sum(a) + Sum(b)
  {
    if a == [] {
      assert a + b == b;
    } else {
      SumConcat(a[1..], b);
      assert (a + b)[1..] == a[1..] + b;
    }
  }

  lemma {:induction false} SumNonNegative(s: seq<int>)
    requires forall i :: 0 <= i < |s| ==> s[i] >= 0
    ensures Sum(s) >= 0
  {
    if s == [] {
    } else {
      SumNonNegative(s[1..]);
    }
  }

  /** Replacing or removing one summand. */
  lemma SumSplit(s: seq<int>, i: nat)
    requires i < |s|
    ensures Sum(s) == Sum(s[..i]) + s[i] + Sum(s[i + 1..])
  {
    SumConcat(s[..i], s[i..]);
    assert s == s[..i] + s[i..];
  }

  /** The elements of s at the given positions, in the order of the positions. */
  function At<T>(s: seq<T>, positions: seq<nat>): (r: seq<T>)
    requires forall i :: 0 <= i < |positions| ==> positions[i] < |s|
    ensures |r| == |positions|
  {
    seq(|positions|, i requires 0 <= i < |positions| => s[positions[i]])
  }

  ghost predicate NoDuplicates<T>(s: seq<T>) {
    forall i, j :: 0 <= i < j < |s| ==> s[i] != s[j]
  }

  /** s without the element at position i */
  function Without<T>(s: seq<T>, i: nat): (r: seq<T>)
    requires i < |s|
    ensures |r| == |s| - 1
    ensures forall j :: 0 <= j < |r| ==> r[j] == s[if j < i then j else j + 1]
  {
    s[..i] + s[i + 1..]
  }

  lemma WithoutMultiset<T>(s: seq<T>, i: nat)
    requires i < |s|
    ensures multiset(Without(s, i)) == multiset(s) - multiset{s[i]}
  {
    assert s == s[..i] + [s[i]] + s[i + 1..];
  }

  lemma SumWithout(s: seq<int>, i: nat)
    requires i < |s|
    ensures Sum(s) == s[i] + Sum(Without(s, i))
  {
    SumSplit(s, i);
    SumConcat(s[..i], s[i + 1..]);
  }

  /** The total picked at a list of positions does not depend on their order. */
  lemma {:induction false} SumAtPermutation(vs: seq<int>, a: seq<nat>, b: seq<nat>)
    requires forall i :: 0 <= i < |a| ==> a[i] < |vs|
    requires forall i :: 0 <= i < |b| ==> b[i] < |vs|
    requires multiset(a) == multiset(b)
    ensures Sum(At(vs, a)) == Sum(At(vs, b))
  {
    assert |a| == |multiset(a)| == |multiset(b)| == |b|;
    if a != [] {
      assert a[0] in multiset(b);
      var i: nat :| i < |b| && b[i] == a[0];
      WithoutMultiset(a, 0);
      WithoutMultiset(b, i);
      hide Sum, Without, At;
      SumAtWithout(vs, a, 0);
      SumAtWithout(vs, b, i);
      SumAtPermutation(vs, Without(a, 0), Without(b, i));
    } else {
      assert b == [];
    }
  }

  lemma SumAtWithout(vs: seq<int>, a: seq<nat>, i: nat)
    requires i < |a| && forall j :: 0 <= j < |a| ==> a[j] < |vs|
    ensures forall j :: 0 <= j < |a| - 1 ==> Without(a, i)[j] < |vs|
    ensures Sum(At(vs, a)) == vs[a[i]] + Sum(At(vs, Without(a, i)))
  {
    SumWithout(At(vs, a), i);
    assert At(vs, Without(a, i)) == Without(At(vs, a), i);
  }

  lemma SameElementsSameMultiset<T>(a: seq<T>, b: seq<T>)
    requires NoDuplicates(a) && NoDuplicates(b)
    requires forall x :: x in a <==> x in b
    ensures multiset(a) == multiset(b)
  {
    forall x
      ensures multiset(a)[x] == multiset(b)[x]
    {
      OccursOnce(a, x);
      OccursOnce(b, x);
    }
  }

  lemma {:induction false} OccursOnce<T>(s: seq<T>, x: T)
    requires NoDuplicates(s)
    ensures multiset(s)[x] == if x in s then 1 else 0
  {
    if s == [] {
    } else {
      assert s == [s[0]] + s[1..];
      OccursOnce(s[1..], x);
    }
  }

  /** The values of a map added up, in whatever order */
  ghost function Total(m: map<string, int>): int {
    if m == map[] then 0 else
      var k :| k in m;
      m[k] + Total(m - {k})
  }

  lemma {:induction false} TotalSplit(m: map<string, int>, k: string)
    requires k in m
    ensures Total(m) == m[k] + Total(m - {k})
    decreases |m|
  {
    var first :| first in m && Total(m) == m[first] + Total(m - {first});
    if first == k {
    } else {
      TotalSplit(m - {first}, k);
      TotalSplit(m - {k}, first);
      assert m - {first} - {k} == m - {k} - {first};
    }
  }

  lemma TotalPut(m: map<string, int>, k: string, v: int)
    requires k !in m
    ensures Total(m[k := v]) == Total(m) + v
  {
    TotalSplit(m[k := v], k);
    assert m[k := v] - {k} == m;
  }

  lemma {:induction false} TotalNonNegative(m: map<string, int>)
    requires forall k :: k in m ==> m[k] >= 0
    ensures Total(m) >= 0
    decreases |m|
  {
    if m == map[] {
    } else {
      var k :| k in m;
      TotalSplit(m, k);
      TotalNonNegative(m - {k});
    }
  }

  lemma NothingTotal()
    ensures Total(map[]) == 0
  {
  }
}

/** A Python dictionary: distinct keys, iterated in the order they were first inserted. */
module Dicts {
  import opened Basics

  type Dict<V> = seq<(string, V)>

  ghost predicate DistinctKeys<V>(d: Dict<V>) {
    forall i, j :: 0 <= i < j < |d| ==> d[i].0 != d[j].0
  }

  /** A dictionary read as a mapping, forgetting the order. */
  function Mapping<V>(d: Dict<V>): map<string, V> {
    if d == [] then map[] else Mapping(d[..|d| - 1])[d[|d| - 1].0 := d[|d| - 1].1]
  }

  function Keys<V>(d: Dict<V>): set<string> {
    Mapping(d).Keys
  }

  /** The position of a key, or the length of the dictionary when the key is missing. */
  function IndexOf<V>(d: Dict<V>, k: string): (i: nat)
    ensures i <= |d|
    ensures i < |d| ==> d[i].0 == k
    ensures forall j :: 0 <= j < i ==> d[j].0 != k
  {
    if d == [] || d[0].0 == k then 0 else 1 + IndexOf(d[1..], k)
  }

  predicate Has<V>(d: Dict<V>, k: string) {
    IndexOf(d, k) < |d|
  }

  lemma HasAt<V>(d: Dict<V>, i: nat)
    requires i < |d|
    ensures Has(d, d[i].0)
  {
  }

  function Get<V>(d: Dict<V>, k: string): V
    requires Has(d, k)
  {
    d[IndexOf(d, k)].1
  }

  /** d[k] = v: an existing key keeps its place, a new one goes last. */
  function Put<V>(d: Dict<V>, k: string, v: V): Dict<V> {
    var i := IndexOf(d, k);
    if i < |d| then d[i := (k, v)] else d + [(k, v)]
  }

  /** d.pop(k, None) */
  function Pop<V>(d: Dict<V>, k: string): Dict<V> {
    var i := IndexOf(d, k);
    if i < |d| then Without(d, i) else d
  }

  /** The keys in the order of iteration */
  ghost function KeyOrder<V>(d: Dict<V>): seq<string> {
    seq(|d|, i requires 0 <= i < |d| => d[i].0)
  }

  /** Assigning to a key there is keeps the order, a new key goes last, and removing a key keeps the others in order. */
  lemma OrderOfKeys<V>(d: Dict<V>, k: string, v: V)
    ensures KeyOrder(Put(d, k, v)) == if k in KeyOrder(d) then KeyOrder(d) else KeyOrder(d) + [k]
    ensures k !in KeyOrder(d) ==> Pop(d, k) == d
    ensures k in KeyOrder(d) ==> exists i: nat :: i < |d| && KeyOrder(d)[i] == k && Pop(d, k) == Without(d, i)
  {
    var i := IndexOf(d, k);
    if i < |d| {
      assert KeyOrder(d)[i] == k;
    }
  }

  lemma {:induction false} MappingAt<V>(d: Dict<V>)
    ensures forall k :: k in Keys(d) ==> exists i :: 0 <= i < |d| && d[i] == (k, Mapping(d)[k])
    ensures forall i :: 0 <= i < |d| ==> d[i].0 in Keys(d)
    ensures DistinctKeys(d) ==> forall i :: 0 <= i < |d| ==> Mapping(d)[d[i].0] == d[i].1
  {
    if d == [] {
    } else {
      var front := d[..|d| - 1];
      MappingAt(front);
      assert forall i :: 0 <= i < |front| ==> front[i] == d[i];
      forall k | k in Keys(d)
        ensures exists i :: 0 <= i < |d| && d[i] == (k, Mapping(d)[k])
      {
        if k == d[|d| - 1].0 {
          assert d[|d| - 1] == (k, Mapping(d)[k]);
        } else {
          var i :| 0 <= i < |front| && front[i] == (k, Mapping(front)[k]);
          assert d[i] == (k, Mapping(d)[k]);
        }
      }
    }
  }

  lemma HasKey<V>(d: Dict<V>, k: string)
    ensures Has(d, k) <==> k in Keys(d)
    ensures DistinctKeys(d) && Has(d, k) ==> Get(d, k) == Mapping(d)[k]
  {
    MappingAt(d);
    if Has(d, k) {
      assert d[IndexOf(d, k)].0 == k;
    }
  }

  /** Two dictionaries with the same entries, in whatever order, are the same mapping. */
  lemma SameEntries<V>(d: Dict<V>, m: map<string, V>)
    requires DistinctKeys(d)
    requires forall i :: 0 <= i < |d| ==> d[i].0 in m && m[d[i].0] == d[i].1
    requires forall k :: k in m ==> exists i :: 0 <= i < |d| && d[i].0 == k
    ensures Mapping(d) == m
  {
    MappingAt(d);
    forall k | k in m
      ensures k in Mapping(d)
    {
      var i :| 0 <= i < |d| && d[i].0 == k;
      assert d[i].0 in Keys(d);
    }
  }

  lemma PutEffect<V>(d: Dict<V>, k: string, v: V)
    requires DistinctKeys(d)
    ensures DistinctKeys(Put(d, k, v))
    ensures Mapping(Put(d, k, v)) == Mapping(d)[k := v]
  {
    var i := IndexOf(d, k);
    var p := Put(d, k, v);
    var m := Mapping(d)[k := v];
    MappingAt(d);
    assert p[i] == (k, v);
    assert forall j :: 0 <= j < |d| ==> p[j].0 == d[j].0;
    assert forall j :: 0 <= j < |d| && j != i ==> p[j] == d[j];
    forall q | q in m
      ensures exists j :: 0 <= j < |p| && p[j].0 == q
    {
      if q == k {
        assert p[i].0 == q;
      } else {
        var j :| 0 <= j < |d| && d[j] == (q, Mapping(d)[q]);
        assert p[j].0 == q;
      }
    }
    hide IndexOf, Mapping;
    SameEntries(p, m);
  }

  lemma PopEffect<V>(d: Dict<V>, k: string)
    requires DistinctKeys(d)
    ensures DistinctKeys(Pop(d, k))
    ensures Mapping(Pop(d, k)) == Mapping(d) - {k}
  {
    HasKey(d, k);
    if Has(d, k) {
      WithoutEffect(d, IndexOf(d, k));
    }
  }

  lemma WithoutLast<V>(d: Dict<V>, i: nat)
    requires DistinctKeys(d) && i < |d|
    ensures var n := |d| - 1;
      DistinctKeys(Without(d, i)) && DistinctKeys(d[..n]) && (forall j :: 0 <= j < n ==> d[..n][j].0 != d[n].0) &&
      Without(d, i) == if i == n then d[..n] else Without(d[..n], i) + [d[n]]
  {
  }

  lemma {:induction false} WithoutEffect<V>(d: Dict<V>, i: nat)
    requires DistinctKeys(d) && i < |d|
    ensures DistinctKeys(Without(d, i)) && Mapping(Without(d, i)) == Mapping(d) - {d[i].0}
  {
    var n := |d| - 1;
    var front, last := d[..n], d[n];
    assert d == front + [last];
    hide Without, DistinctKeys, Mapping;
    WithoutLast(d, i);
    MappingLast(front, last);
    if i == n {
      NewKey(front, last.0);
    } else {
      WithoutEffect(front, i);
      MappingLast(Without(front, i), last);
      PutAndRemove(Mapping(front), front[i].0, last.0, last.1);
    }
  }

  lemma PutAndRemove<V>(m: map<string, V>, k: string, q: string, v: V)
    requires q != k
    ensures m[q := v] - {k} == (m - {k})[q := v]
  {
  }

  lemma MappingLast<V>(d: Dict<V>, entry: (string, V))
    ensures Mapping(d + [entry]) == Mapping(d)[entry.0 := entry.1]
  {
    assert (d + [entry])[..|d|] == d;
  }

  /** A key at no position is not in the mapping. */
  lemma NewKey<V>(d: Dict<V>, k: string)
    requires forall j :: 0 <= j < |d| ==> d[j].0 != k
    ensures k !in Mapping(d)
  {
    MappingAt(d);
  }
}
