/**
 Coin selection on token values: the exact-subset search as a plain recursion without
 pruning, the greedy fallback, and what the two guarantee. Positions refer to the list
 the values were taken from, so the same choice applies to token objects and to values.
 */
module Selection {
  import opened Basics
  import opened Subsets

  // ---------- the exact-subset search ----------

  /** The shorter of two candidates; the first one on a tie. */
  function Shorter(a: Option<seq<bool>>, b: Option<seq<bool>>): Option<seq<bool>> {
    if a.None? then b
    else if b.None? || Count(a.value) <= Count(b.value) then a
    else b
  }

  function Prefixed(bit: bool, m: Option<seq<bool>>): Option<seq<bool>> {
    if m.None? then None else Some([bit] + m.value)
  }

  /** Try to include the first value, then to leave it out; keep the shorter result. */
  function BestMask(vs: seq<int>, need: int): (r: Option<seq<bool>>)
    ensures r.Some? ==> |r.value| == |vs|
  {
    if need == 0 then Some(Nothing(|vs|))
    else if need < 0 || vs == [] then None
    else Shorter(Prefixed(true, BestMask(vs[1..], need - vs[0])), Prefixed(false, BestMask(vs[1..], need)))
  }

  /** The running total of the picked values never passes the amount. */
  ghost predicate NeverOver(vs: seq<int>, need: int, m: seq<bool>)
    requires |vs| == |m|
  {
    need >= 0 && (vs == [] || NeverOver(vs[1..], if m[0] then need - vs[0] else need, m[1..]))
  }

  ghost predicate ExactMask(vs: seq<int>, need: int, m: seq<bool>) {
    |m| == |vs| && PickSum(vs, m) == need && NeverOver(vs, need, m)
  }

  /** Include-first order: at the first position where the masks differ, a includes. */
  ghost predicate Earlier(a: seq<bool>, b: seq<bool>) {
    a != [] && b != [] && if a[0] == b[0] then Earlier(a[1..], b[1..]) else a[0]
  }

  lemma {:induction false} NothingPicksNothing(vs: seq<int>)
    ensures PickSum(vs, Nothing(|vs|)) == 0 && NeverOver(vs, 0, Nothing(|vs|))
  {
    if vs == [] {
    } else {
      NothingPicksNothing(vs[1..]);
      assert Nothing(|vs|)[1..] == Nothing(|vs| - 1);
    }
  }

  lemma {:induction false} CountZero(m: seq<bool>)
    requires Count(m) == 0
    ensures m == Nothing(|m|)
  {
    if m == [] {
    } else {
      CountZero(m[1..]);
      assert m == [m[0]] + m[1..];
    }
  }

  /** Whatever the search finds adds up to the amount without ever passing it. */
  lemma {:induction false} FoundIsExact(vs: seq<int>, need: int)
    requires BestMask(vs, need).Some?
    ensures ExactMask(vs, need, BestMask(vs, need).value)
  {
    if need == 0 {
      NothingPicksNothing(vs);
    } else {
      var found := BestMask(vs, need).value;
      var bit := found[0];
      var rest := if bit then need - vs[0] else need;
      assert BestMask(vs[1..], rest).Some? && found == [bit] + BestMask(vs[1..], rest).value;
      FoundIsExact(vs[1..], rest);
      assert found[1..] == BestMask(vs[1..], rest).value;
    }
  }

  /** The search finds something at least as short, and earlier on a tie, as any exact mask. */
  lemma {:induction false} FoundIsBest(vs: seq<int>, need: int, m: seq<bool>)
    requires ExactMask(vs, need, m)
    ensures BestMask(vs, need).Some?
    ensures var b := BestMask(vs, need).value;
      Count(b) <= Count(m) && (Count(b) == Count(m) ==> b == m || Earlier(b, m))
  {
    if need == 0 {
      if Count(m) == 0 {
        CountZero(m);
      }
    } else {
      assert m == [m[0]] + m[1..];
      FoundIsBest(vs[1..], if m[0] then need - vs[0] else need, m[1..]);
      var b := BestMask(vs, need).value;
      assert b == [b[0]] + b[1..];
    }
  }

  /**
   The search for every list of integers and every amount: it fails exactly when no
   sub-collection reaches the amount without its running total passing it, and otherwise
   returns the shortest such sub-collection, the first one in include-first order.
   */
  lemma SearchIsOptimal(vs: seq<int>, need: int)
    ensures BestMask(vs, need).None? <==> forall m :: !ExactMask(vs, need, m)
    ensures BestMask(vs, need).Some? ==>
      var b := BestMask(vs, need).value;
      ExactMask(vs, need, b) &&
      forall m :: ExactMask(vs, need, m) ==>
        Count(b) <= Count(m) && (Count(b) == Count(m) ==> b == m || Earlier(b, m))
  {
    if BestMask(vs, need).Some? {
      FoundIsExact(vs, need);
    }
    forall m | ExactMask(vs, need, m)
      ensures BestMask(vs, need).Some?
      ensures var b := BestMask(vs, need).value;
        Count(b) <= Count(m) && (Count(b) == Count(m) ==> b == m || Earlier(b, m))
    {
      FoundIsBest(vs, need, m);
    }
  }

  lemma {:induction false} NonNegativeNeverOver(vs: seq<int>, m: seq<bool>)
    requires |vs| == |m|
    requires forall i :: 0 <= i < |vs| ==> vs[i] >= 0
    ensures PickSum(vs, m) >= 0 && NeverOver(vs, PickSum(vs, m), m)
  {
    if vs == [] {
    } else {
      NonNegativeNeverOver(vs[1..], m[1..]);
    }
  }

  lemma {:induction false} AscendingNeverOver(vs: seq<int>, m: seq<bool>)
    requires |vs| == |m| && Ascending(vs) && PickSum(vs, m) >= 0
    ensures NeverOver(vs, PickSum(vs, m), m)
  {
    if vs == [] {
    } else {
      if vs[0] < 0 {
        AscendingNeverOver(vs[1..], m[1..]);
      } else {
        NonNegativeNeverOver(vs, m);
      }
    }
  }

  /**
   When the bound on the running total is no restriction: for non-negative values, and for
   the ascending lists that select_tokens passes even when some values are negative.
   */
  lemma SearchIsComplete(vs: seq<int>, need: int)
    requires (forall i :: 0 <= i < |vs| ==> vs[i] >= 0) || (Ascending(vs) && need >= 0)
    ensures BestMask(vs, need).Some? <==> exists m :: |m| == |vs| && PickSum(vs, m) == need
    ensures BestMask(vs, need).Some? ==>
      forall m :: |m| == |vs| && PickSum(vs, m) == need ==> Count(BestMask(vs, need).value) <= Count(m)
  {
    SearchIsOptimal(vs, need);
    forall m | |m| == |vs| && PickSum(vs, m) == need
      ensures ExactMask(vs, need, m)
    {
      if forall i :: 0 <= i < |vs| ==> vs[i] >= 0 {
        NonNegativeNeverOver(vs, m);
      } else {
        AscendingNeverOver(vs, m);
      }
    }
  }

  /** On values in arbitrary order a negative one can be missed: 5 - 2 == 3 is not found. */
  lemma NegativeValueMissed()
    ensures BestMask([5, -2], 3).None?
    ensures PickSum([5, -2], [true, true]) == 3
  {
    assert BestMask([-2], 3).None? by {
      assert [-2][1..] == [];
      assert BestMask([], 5).None? && BestMask([], 3).None?;
    }
    assert [5, -2][1..] == [-2];
    assert BestMask([-2], -2).None?;
    assert [true, true][1..] == [true];
    assert [-2][1..] == [] && [true][1..] == [];
  }

  /**
   A list is searched completely for every amount, negative ones included, exactly when it holds
   no negative value. select_tokens passes positive amounts and ascending lists only, for which
   SearchIsComplete says that nothing is missed.
   */
  lemma CompleteForEveryAmountIff(vs: seq<int>)
    ensures (forall m :: |m| == |vs| ==> BestMask(vs, PickSum(vs, m)).Some?)
      <==> (forall i :: 0 <= i < |vs| ==> vs[i] >= 0)
  {
    if forall i :: 0 <= i < |vs| ==> vs[i] >= 0 {
      forall m: seq<bool> | |m| == |vs|
        ensures BestMask(vs, PickSum(vs, m)).Some?
      {
        SearchIsComplete(vs, PickSum(vs, m));
      }
    } else {
      var i: nat :| i < |vs| && vs[i] < 0;
      var m := Single(vs, i);
      assert |m| == |vs| && PickSum(vs, m) == vs[i] && BestMask(vs, vs[i]).None?;
    }
  }

  lemma {:induction false} Single(vs: seq<int>, i: nat) returns (m: seq<bool>)
    requires i < |vs|
    ensures |m| == |vs| && PickSum(vs, m) == vs[i]
  {
    if i == 0 {
      m := [true] + Nothing(|vs| - 1);
      NothingPicksNothing(vs[1..]);
      assert m[1..] == Nothing(|vs| - 1);
    } else {
      var rest := Single(vs[1..], i - 1);
      m := [false] + rest;
      assert m[1..] == rest;
    }
  }

  // ---------- sorted(tokens, key=value) ----------

  /** Insert a position after every position whose value is not larger. */
  function Insert(vs: seq<int>, order: seq<nat>, p: nat): (r: seq<nat>)
    requires p < |vs| && forall i :: 0 <= i < |order| ==> order[i] < |vs|
    ensures |r| == |order| + 1
    ensures forall i :: 0 <= i < |r| ==> r[i] < |vs|
    ensures forall q :: q in r <==> q in order || q == p
  {
    if order == [] then [p]
    else if vs[p] < vs[order[0]] then [p] + order
    else
      var rest := Insert(vs, order[1..], p);
      assert forall q :: q in order <==> q == order[0] || q in order[1..];
      [order[0]] + rest
  }

  /** The first n positions in ascending order of value, equal values in their original order. */
  function OrderFirst(vs: seq<int>, n: nat): (r: seq<nat>)
    requires n <= |vs|
    ensures |r| == n
    ensures forall i :: 0 <= i < |r| ==> r[i] < n
    ensures forall p: nat :: p < n ==> p in r
  {
    if n == 0 then [] else
      var before := OrderFirst(vs, n - 1);
      var r := Insert(vs, before, n - 1);
      assert forall i :: 0 <= i < |r| ==> r[i] in r;
      r
  }

  function Order(vs: seq<int>): (r: seq<nat>)
    ensures |r| == |vs| && forall i :: 0 <= i < |r| ==> r[i] < |vs|
  {
    OrderFirst(vs, |vs|)
  }

  ghost predicate InOrder(vs: seq<int>, a: nat, b: nat)
    requires a < |vs| && b < |vs|
  {
    vs[a] < vs[b] || (vs[a] == vs[b] && a < b)
  }

  ghost predicate Ordered(vs: seq<int>, order: seq<nat>) {
    (forall i :: 0 <= i < |order| ==> order[i] < |vs|) &&
    (forall i, j :: 0 <= i < j < |order| ==> InOrder(vs, order[i], order[j]))
  }

  lemma {:induction false} InsertOrdered(vs: seq<int>, order: seq<nat>, p: nat)
    requires p < |vs| && Ordered(vs, order)
    requires forall q :: q in order ==> q < p
    ensures Ordered(vs, Insert(vs, order, p))
  {
    var r := Insert(vs, order, p);
    if order == [] {
    } else if vs[p] < vs[order[0]] {
    } else {
      assert order[0] in order;
      forall q | q in order[1..]
        ensures q < p && InOrder(vs, order[0], q)
      {
        assert q in order;
      }
      InsertOrdered(vs, order[1..], p);
      var rest := Insert(vs, order[1..], p);
      assert r == [order[0]] + rest;
      forall j | 0 <= j < |rest|
        ensures InOrder(vs, order[0], rest[j])
      {
        assert rest[j] in rest;
      }
    }
  }

  /** sorted is a stable ascending arrangement of all positions. */
  lemma {:induction false} OrderFirstOrdered(vs: seq<int>, n: nat)
    requires n <= |vs|
    ensures Ordered(vs, OrderFirst(vs, n))
  {
    if n == 0 {
    } else {
      OrderFirstOrdered(vs, n - 1);
      InsertOrdered(vs, OrderFirst(vs, n - 1), n - 1);
    }
  }

  lemma OrderIsSorted(vs: seq<int>)
    ensures Ordered(vs, Order(vs)) && Ascending(At(vs, Order(vs))) && NoDuplicates(Order(vs))
  {
    OrderFirstOrdered(vs, |vs|);
    var order := Order(vs);
    assert forall i, j :: 0 <= i < j < |order| ==> InOrder(vs, order[i], order[j]);
  }

  // ---------- select_tokens ----------

  datatype SelectError = NegativeAmount | InsufficientFunds

  /** How many values from the front it takes to cover the amount, at least one. */
  function CoverLength(vs: seq<int>, need: int): (k: Option<nat>)
    ensures k.Some? ==> 0 < k.value <= |vs|
  {
    if vs == [] then None
    else if vs[0] >= need then Some(1)
    else Shifted(1, CoverLength(vs[1..], need - vs[0]))
  }

  /** A length counted from n positions further left */
  function Shifted(n: nat, k: Option<nat>): Option<nat> {
    match k
    case None => None
    case Some(j) => Some(n + j)
  }

  /** The positions of the tokens chosen for an amount. */
  function Select(vs: seq<int>, amount: int): (r: Result<seq<nat>, SelectError>)
    ensures r.Ok? ==> forall i :: 0 <= i < |r.value| ==> r.value[i] < |vs|
  {
    if amount < 0 then Err(NegativeAmount)
    else if amount == 0 then Ok([])
    else
      var order := Order(vs);
      var sorted := At(vs, order);
      match BestMask(sorted, amount)
      case Some(m) => PickedFrom(order, m); Ok(Pick<nat>(order, m))
      case None =>
        match CoverLength(sorted, amount)
        case None => Err(InsufficientFunds)
        case Some(k) => Ok(order[..k])
  }

  /** Distinct positions of the list. */
  ghost predicate Choice(vs: seq<int>, c: seq<nat>) {
    NoDuplicates(c) && forall i :: 0 <= i < |c| ==> c[i] < |vs|
  }

  ghost predicate ExactChoice(vs: seq<int>, amount: int, c: seq<nat>) {
    Choice(vs, c) && Sum(At(vs, c)) == amount
  }

  ghost predicate CoveringChoice(vs: seq<int>, amount: int, c: seq<nat>) {
    Choice(vs, c) && Sum(At(vs, c)) >= amount
  }

  lemma {:induction false} PickedFrom<T>(s: seq<T>, m: seq<bool>)
    requires |s| == |m|
    ensures forall i :: 0 <= i < |Pick(s, m)| ==> Pick(s, m)[i] in s
    ensures forall j :: 0 <= j < |s| && m[j] ==> s[j] in Pick(s, m)
  {
    if s == [] {
    } else {
      PickedFrom(s[1..], m[1..]);
      assert forall j :: 0 < j < |s| ==> s[j] == s[1..][j - 1] && m[j] == m[1..][j - 1];
    }
  }

  lemma {:induction false} PickDistinct<T>(s: seq<T>, m: seq<bool>)
    requires |s| == |m| && NoDuplicates(s)
    ensures NoDuplicates(Pick(s, m))
    ensures forall j :: 0 <= j < |s| ==> (m[j] <==> s[j] in Pick(s, m))
  {
    PickedFrom(s, m);
    if s == [] {
    } else {
      PickedFrom(s[1..], m[1..]);
      PickDistinct(s[1..], m[1..]);
      assert s[0] !in s[1..];
      forall j | 0 <= j < |s|
        ensures m[j] <==> s[j] in Pick(s, m)
      {
        if j > 0 {
          assert s[j] == s[1..][j - 1] && s[j] != s[0];
        }
      }
    }
  }

  lemma {:induction false} PickAt(vs: seq<int>, order: seq<nat>, m: seq<bool>)
    requires |order| == |m| && forall i :: 0 <= i < |order| ==> order[i] < |vs|
    ensures forall i :: 0 <= i < |Pick<nat>(order, m)| ==> Pick<nat>(order, m)[i] < |vs|
    ensures At(vs, Pick<nat>(order, m)) == Pick(At(vs, order), m)
    ensures Sum(At(vs, Pick<nat>(order, m))) == PickSum(At(vs, order), m)
  {
    PickSumIsSum(At(vs, order), m);
    if order == [] {
    } else {
      PickAt(vs, order[1..], m[1..]);
      assert At(vs, order)[1..] == At(vs, order[1..]);
    }
  }

  /** Every choice of positions is some mask over the sorted list, with the same size and total. */
  lemma ChoiceAsMask(vs: seq<int>, c: seq<nat>) returns (m: seq<bool>)
    requires Choice(vs, c)
    ensures |m| == |vs| && Count(m) == |c|
    ensures PickSum(At(vs, Order(vs)), m) == Sum(At(vs, c))
  {
    OrderIsSorted(vs);
    var order := Order(vs);
    m := seq(|order|, j requires 0 <= j < |order| => order[j] in c);
    PickAt(vs, order, m);
    PickDistinct(order, m);
    PickedFrom(order, m);
    var picked := Pick<nat>(order, m);
    forall x: nat
      ensures x in picked <==> x in c
    {
      if x in picked || x in c {
        assert x in order;
        var j :| 0 <= j < |order| && order[j] == x;
      }
    }
    SameElementsSameMultiset(picked, c);
    SumAtPermutation(vs, picked, c);
    assert |multiset(picked)| == |multiset(c)|;
  }

  lemma MaskAsChoice(vs: seq<int>, m: seq<bool>)
    requires |m| == |vs|
    ensures Choice(vs, Pick<nat>(Order(vs), m))
    ensures Sum(At(vs, Pick<nat>(Order(vs), m))) == PickSum(At(vs, Order(vs)), m)
  {
    OrderIsSorted(vs);
    PickDistinct(Order(vs), m);
    PickAt(vs, Order(vs), m);
  }

  lemma SortedTotal(vs: seq<int>)
    ensures Sum(At(vs, Order(vs))) == Sum(vs)
  {
    OrderIsSorted(vs);
    var all := seq(|vs|, i => i);
    forall x | x in Order(vs)
      ensures x in all
    {
      assert all[x] == x;
    }
    SameElementsSameMultiset(all, Order(vs));
    SumAtPermutation(vs, all, Order(vs));
    assert At(vs, all) == vs;
  }

  /** The greedy prefix of an ascending list exists exactly when the whole list covers the amount. */
  lemma {:induction false} CoverLengthEffect(vs: seq<int>, need: int)
    requires Ascending(vs) && need > 0
    ensures CoverLength(vs, need).None? <==> Sum(vs) < need
    ensures CoverLength(vs, need).Some? ==>
      var k := CoverLength(vs, need).value;
      Sum(vs[..k]) >= need > Sum(vs[..k - 1])
  {
    if vs == [] {
    } else {
      var tail := vs[1..];
      if vs[0] < need {
        CoverLengthEffect(tail, need - vs[0]);
        if CoverLength(tail, need - vs[0]).Some? {
          var k := CoverLength(vs, need).value;
          assert vs[..k][1..] == tail[..k - 1];
          assert vs[..k - 1][1..] == tail[..k - 2];
        }
      } else {
        SumNonNegative(tail);
        assert vs[..1][1..] == [];
      }
    }
  }

  /** What a choice made by the greedy fallback looks like. */
  ghost predicate GreedyChoice(vs: seq<int>, amount: int, c: seq<nat>)
    requires Choice(vs, c)
  {
    0 < |c| <= |vs| && c == Order(vs)[..|c|] &&
    Sum(At(vs, c)) > amount > Sum(At(vs, c[..|c| - 1])) &&
    Sum(At(vs, c)) - amount < vs[c[|c| - 1]] &&
    forall i :: 0 <= i < |c| ==> vs[c[i]] <= vs[c[|c| - 1]]
  }

  lemma OneValue(v: int)
    ensures Sum([v]) == v
  {
  }

  lemma GreedyEffect(vs: seq<int>, amount: int, k: nat)
    requires amount > 0 && CoverLength(At(vs, Order(vs)), amount) == Some(k)
    requires Sum(At(vs, Order(vs)[..k])) != amount
    ensures Choice(vs, Order(vs)[..k]) && GreedyChoice(vs, amount, Order(vs)[..k])
  {
    hide Order, CoverLength, Sum;
    OrderIsSorted(vs);
    var order := Order(vs);
    var sorted := At(vs, order);
    var c := order[..k];
    CoverLengthEffect(sorted, amount);
    OneValue(sorted[k - 1]);
    assert At(vs, c) == sorted[..k];
    assert c[..k - 1] == order[..k - 1];
    assert At(vs, c[..k - 1]) == sorted[..k - 1];
    assert sorted[..k] == sorted[..k - 1] + [sorted[k - 1]];
    SumConcat(sorted[..k - 1], [sorted[k - 1]]);
  }

  /**
   The contract of coin selection for a positive amount, negative values included: it pays
   exactly, and with the fewest tokens that can, exactly when some sub-collection pays
   exactly; otherwise it fails exactly when the whole register is worth less than the
   amount, and else takes the shortest ascending prefix that covers the amount, overpaying
   by less than the largest token taken.
   */
  lemma SelectContract(vs: seq<int>, amount: int)
    requires amount > 0
    ensures Select(vs, amount).Err? ==>
      Select(vs, amount).error == InsufficientFunds && Sum(vs) < amount &&
      forall c :: !ExactChoice(vs, amount, c)
    ensures Select(vs, amount).Ok? ==>
      var c := Select(vs, amount).value;
      Choice(vs, c) &&
      if exists c' :: ExactChoice(vs, amount, c')
      then ExactChoice(vs, amount, c) && forall c' :: ExactChoice(vs, amount, c') ==> |c| <= |c'|
      else Sum(vs) >= amount && GreedyChoice(vs, amount, c)
  {
    OrderIsSorted(vs);
    SortedTotal(vs);
    var order := Order(vs);
    var sorted := At(vs, order);
    SearchIsComplete(sorted, amount);
    CoverLengthEffect(sorted, amount);
    forall c' | ExactChoice(vs, amount, c')
      ensures BestMask(sorted, amount).Some? && Count(BestMask(sorted, amount).value) <= |c'|
    {
      var m := ChoiceAsMask(vs, c');
    }
    if BestMask(sorted, amount).Some? {
      var m := BestMask(sorted, amount).value;
      FoundIsExact(sorted, amount);
      MaskAsChoice(vs, m);
      assert ExactChoice(vs, amount, Pick<nat>(order, m));
    } else if CoverLength(sorted, amount).Some? {
      var k := CoverLength(sorted, amount).value;
      if Sum(At(vs, order[..k])) == amount {
        assert ExactChoice(vs, amount, order[..k]);
      } else {
        GreedyEffect(vs, amount, k);
      }
    }
  }

  /** Nothing is taken for nothing, and a negative amount is refused for what it is. */
  lemma SelectReason(vs: seq<int>, amount: int)
    ensures Select(vs, amount) == Err(NegativeAmount) <==> amount < 0
    ensures Select(vs, amount) == Err(InsufficientFunds) ==> amount > 0 && Sum(vs) < amount
    ensures amount == 0 ==> Select(vs, amount) == Ok([])
  {
    if amount > 0 {
      SelectContract(vs, amount);
    }
  }

  lemma {:induction false} NonNegativeMaskBelowTotal(vs: seq<int>, m: seq<bool>)
    requires |m| == |vs| && forall i :: 0 <= i < |vs| ==> vs[i] >= 0
    ensures PickSum(vs, m) <= Sum(vs)
  {
    if vs == [] {
    } else {
      NonNegativeMaskBelowTotal(vs[1..], m[1..]);
    }
  }

  lemma SelectCovers(vs: seq<int>, amount: int)
    requires amount > 0
    ensures Select(vs, amount).Err? ==> Sum(vs) < amount
    ensures Select(vs, amount).Ok? ==>
      |Select(vs, amount).value| <= |vs| && CoveringChoice(vs, amount, Select(vs, amount).value)
  {
    SelectContract(vs, amount);
    if Select(vs, amount).Ok? {
      var m := ChoiceAsMask(vs, Select(vs, amount).value);
    }
  }

  /** With no negative token, selection fails exactly when the register is worth too little. */
  lemma SelectFailsIff(vs: seq<int>, amount: int)
    requires amount > 0 && forall i :: 0 <= i < |vs| ==> vs[i] >= 0
    ensures Select(vs, amount).Err? <==> Sum(vs) < amount
  {
    hide Select, Order, Sum, PickSum, NoDuplicates;
    SelectCovers(vs, amount);
    if Select(vs, amount).Ok? {
      var m := ChoiceAsMask(vs, Select(vs, amount).value);
      NonNegativeMaskBelowTotal(At(vs, Order(vs)), m);
      SortedTotal(vs);
    }
  }

  /** The total of the j largest values. */
  function LargestTotal(vs: seq<int>, j: nat): int
    requires j <= |vs|
  {
    var sorted := At(vs, Order(vs));
    Sum(sorted[|vs| - j..])
  }

  /** k tokens, the largest ones, cover the amount; fewer than k never do. */
  ghost predicate FewestCover(vs: seq<int>, amount: int, k: nat) {
    k <= |vs| && LargestTotal(vs, k) >= amount && forall j: nat :: j < k ==> LargestTotal(vs, j) < amount
  }

  lemma {:induction false} CoverNeeds(vs: seq<int>, amount: int, k: nat, c: seq<nat>)
    requires FewestCover(vs, amount, k) && CoveringChoice(vs, amount, c)
    ensures k <= |c|
  {
    hide Order, Sum, NoDuplicates;
    OrderIsSorted(vs);
    var m := ChoiceAsMask(vs, c);
    LastValuesAreMost(At(vs, Order(vs)), m);
    assert LargestTotal(vs, |c|) >= amount;
  }

  /** Whenever something covers the amount there is such a k. */
  lemma {:induction false} FewestCoverExists(vs: seq<int>, amount: int, j: nat) returns (k: nat)
    requires j <= |vs| && LargestTotal(vs, j) >= amount
    ensures FewestCover(vs, amount, k)
  {
    if i: nat :| i < j && LargestTotal(vs, i) >= amount {
      k := FewestCoverExists(vs, amount, i);
    } else {
      k := j;
    }
  }

  /** CoverLength is the first prefix that covers. */
  lemma {:induction false} CoverLengthFirst(vs: seq<int>, need: int, j: nat)
    requires 0 < j <= |vs| && Sum(vs[..j]) >= need
    ensures CoverLength(vs, need).Some? && CoverLength(vs, need).value <= j
    decreases |vs|
  {
    assert vs[..j][1..] == vs[1..][..j - 1];
    if vs[0] >= need {
    } else {
      assert j > 1 by {
        assert vs[..1] == [vs[0]];
      }
      CoverLengthFirst(vs[1..], need - vs[0], j - 1);
    }
  }

  /** k tokens that pay exactly, if any number of tokens does; otherwise the k smallest cover the amount. */
  ghost predicate FewestSuffice(vs: seq<int>, amount: int, k: nat)
    requires k <= |vs|
  {
    if exists c :: ExactChoice(vs, amount, c) then exists c :: ExactChoice(vs, amount, c) && |c| == k
    else Sum(At(vs, Order(vs)[..k])) >= amount
  }

  /** The choice has the fewest number of tokens exactly when that number suffices in the way select_tokens pays. */
  lemma ChosenFewest(vs: seq<int>, amount: int, k: nat)
    requires amount > 0 && Select(vs, amount).Ok? && FewestCover(vs, amount, k)
    ensures |Select(vs, amount).value| == k <==> FewestSuffice(vs, amount, k)
  {
    SelectContract(vs, amount);
    SelectCovers(vs, amount);
    var c := Select(vs, amount).value;
    CoverNeeds(vs, amount, k, c);
    if exists c' :: ExactChoice(vs, amount, c') {
      hide Select, Sum, Order, NoDuplicates, FewestCover;
      if c' :| ExactChoice(vs, amount, c') && |c'| == k {
        assert |c| <= |c'|;
      }
    } else {
      GreedyFewest(vs, amount, k);
    }
  }

  lemma GreedyFewest(vs: seq<int>, amount: int, k: nat)
    requires amount > 0 && Select(vs, amount).Ok? && k <= |Select(vs, amount).value| <= |vs|
    requires forall c :: !ExactChoice(vs, amount, c)
    ensures |Select(vs, amount).value| == k <==> Sum(At(vs, Order(vs)[..k])) >= amount
  {
    SelectContract(vs, amount);
    var c := Select(vs, amount).value;
    var sorted := At(vs, Order(vs));
    hide Sum, NoDuplicates, Order, CoverLength;
    assert At(vs, Order(vs)[..k]) == sorted[..k];
    if Sum(sorted[..k]) >= amount {
      NothingIsZero(sorted);
      CoverLengthFirst(sorted, amount, k);
      GreedyLength(vs, amount);
    }
  }

  lemma NothingIsZero(vs: seq<int>)
    ensures Sum(vs[..0]) == 0
  {
  }

  /** Without an exact choice, the choice is the shortest covering prefix. */
  lemma GreedyLength(vs: seq<int>, amount: int)
    requires amount > 0 && Select(vs, amount).Ok? && forall c :: !ExactChoice(vs, amount, c)
    ensures CoverLength(At(vs, Order(vs)), amount) == Some(|Select(vs, amount).value|)
  {
    var sorted := At(vs, Order(vs));
    if BestMask(sorted, amount).Some? {
      FoundIsExact(sorted, amount);
      MaskAsChoice(vs, BestMask(sorted, amount).value);
      assert ExactChoice(vs, amount, Pick<nat>(Order(vs), BestMask(sorted, amount).value));
    }
  }

  /**
   The doc comment of select_tokens promises a minimal set worth at least the amount. Let k be the
   fewest tokens that can cover it. The choice is minimal exactly when, if the amount can be paid
   exactly, k tokens can pay it exactly, and otherwise the k smallest tokens cover it.
   */
  lemma SelectIsMinimalIff(vs: seq<int>, amount: int, k: nat)
    requires amount > 0 && Select(vs, amount).Ok? && FewestCover(vs, amount, k)
    ensures var c := Select(vs, amount).value;
      CoveringChoice(vs, amount, c) &&
      ((forall c' :: CoveringChoice(vs, amount, c') ==> |c| <= |c'|) <==> FewestSuffice(vs, amount, k))
  {
    hide Select, Sum, Order, NoDuplicates;
    SelectCovers(vs, amount);
    ChosenFewest(vs, amount, k);
    var c := Select(vs, amount).value;
    CoverNeeds(vs, amount, k, c);
    var fewest := LargestCover(vs, amount, k);
    forall c' | CoveringChoice(vs, amount, c')
      ensures k <= |c'|
    {
      CoverNeeds(vs, amount, k, c');
    }
  }

  lemma LargestCover(vs: seq<int>, amount: int, j: nat) returns (c: seq<nat>)
    requires j <= |vs| && LargestTotal(vs, j) >= amount
    ensures CoveringChoice(vs, amount, c) && |c| == j
  {
    hide Order;
    OrderIsSorted(vs);
    c := Order(vs)[|vs| - j..];
    assert At(vs, c) == At(vs, Order(vs))[|vs| - j..];
  }

  /** Tokens worth 3 and 10, amount 4: both are taken although the second alone covers it. */
  lemma GreedyNotMinimal()
    ensures Select([3, 10], 4) == Ok([0, 1])
    ensures CoveringChoice([3, 10], 4, [1])
  {
    var vs := [3, 10];
    assert OrderFirst(vs, 0) == [] && Insert(vs, [], 0) == [0] && OrderFirst(vs, 1) == [0];
    assert [0][1..] == [] && Insert(vs, [], 1) == [1];
    assert Insert(vs, [0], 1) == [0, 1];
    assert Order(vs) == [0, 1] && At(vs, [0, 1]) == vs;
    assert vs[1..] == [10] && [10][1..] == [];
    assert BestMask([10], 1).None? && BestMask([10], 4).None? && BestMask(vs, 4).None?;
    assert CoverLength([10], 1) == Some(1) && CoverLength(vs, 4) == Some(2);
    assert Order(vs)[..2] == Order(vs);
    assert At(vs, [1]) == [10] && Sum([10]) == 10;
  }
}
