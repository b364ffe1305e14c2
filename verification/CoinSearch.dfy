/** _find_exact_token_subset of wallet/wallet.py: the pruned search over token objects. */
module CoinSearch {
  import opened Basics
  import opened Subsets
  import opened Selection
  import opened Tokens

  function ValuesOfObjects(tokens: seq<Token>): (vs: seq<int>)
    ensures |vs| == |tokens|
  {
    seq(|tokens|, i requires 0 <= i < |tokens| => tokens[i].value)
  }

  /** The recorded best after a search below `selected` finds `found` in the remaining tokens. */
  function Improved(best: Option<seq<Token>>, selected: seq<Token>, rest: seq<Token>, found: Option<seq<bool>>)
    : Option<seq<Token>>
    requires found.Some? ==> |found.value| == |rest|
  {
    if found.None? || (best.Some? && |best.value| <= |selected| + Count(found.value)) then best
    else Some(selected + Pick(rest, found.value))
  }

  /** The closure of the search: the best subset so far and the list the recursion pushes to and pops from. */
  class SubsetSearch {
    const tokens: seq<Token>
    const amount: int
    var best: Option<seq<Token>>
    var selected: seq<Token>

    constructor (tokens: seq<Token>, amount: int)
      ensures this.tokens == tokens && this.amount == amount
      ensures best == None && selected == []
    {
      this.tokens, this.amount := tokens, amount;
      best, selected := None, [];
    }

    /**
     Explores every way to complete `selected` with tokens from `index` on. Both prunings are
     invisible: the best subset ends up as if the search had tried everything, and `selected`
     is left as it was found.
     */
    method Search(index: nat, total: int)
      requires index <= |tokens|
      modifies this
      ensures selected == old(selected)
      ensures best ==
        Improved(old(best), selected, tokens[index..], BestMask(ValuesOfObjects(tokens[index..]), amount - total))
      decreases |tokens| - index
    {
      hide BestMask, Pick, Count, ValuesOfObjects, Shorter;
      ghost var rest := tokens[index..];
      SearchEnds(rest, amount - total);
      if total == amount {
        assert selected + [] == selected;
        if best.None? || |selected| < |best.value| {
          best := Some(selected);
        }
        return;
      }
      if total > amount || index >= |tokens| {
        return;
      }
      if best.Some? && |selected| >= |best.value| {
        return;
      }
      var token := tokens[index];
      ghost var tail := tokens[index + 1..];
      assert rest[1..] == tail;
      SearchBranches(rest, amount - total);
      ghost var inc := BestMask(ValuesOfObjects(tail), amount - total - token.value);
      ghost var exc := BestMask(ValuesOfObjects(tail), amount - total);
      selected := selected + [token];
      Search(index + 1, total + token.value);
      selected := selected[..|selected| - 1];
      Search(index + 1, total);
      TwoBranches(old(best), selected, rest, inc, exc);
    }
  }

  /** Where the search stops: at the amount with nothing more to pick, or beyond it or out of tokens with no result. */
  lemma SearchEnds(rest: seq<Token>, need: int)
    ensures need == 0 ==>
      BestMask(ValuesOfObjects(rest), need) == Some(Nothing(|rest|)) && Pick(rest, Nothing(|rest|)) == []
    ensures need < 0 || (need > 0 && rest == []) ==> BestMask(ValuesOfObjects(rest), need) == None
  {
    assert |Pick(rest, Nothing(|rest|))| == 0;
  }

  lemma SearchBranches(rest: seq<Token>, need: int)
    requires rest != [] && need > 0
    ensures var tail := ValuesOfObjects(rest[1..]);
      BestMask(ValuesOfObjects(rest), need) ==
        Shorter(Prefixed(true, BestMask(tail, need - rest[0].value)), Prefixed(false, BestMask(tail, need)))
  {
    assert ValuesOfObjects(rest)[1..] == ValuesOfObjects(rest[1..]);
  }

  lemma PrefixedPick(rest: seq<Token>, m: Option<seq<bool>>)
    requires rest != [] && (m.Some? ==> |m.value| == |rest| - 1)
    ensures m.Some? ==>
      Count([true] + m.value) == 1 + Count(m.value) && Count([false] + m.value) == Count(m.value) &&
      Pick(rest, [true] + m.value) == [rest[0]] + Pick(rest[1..], m.value) &&
      Pick(rest, [false] + m.value) == Pick(rest[1..], m.value)
  {
    if m.Some? {
      assert ([true] + m.value)[1..] == m.value && ([false] + m.value)[1..] == m.value;
    }
  }

  /**
   Improving first with the subsets that include a token and then with the others keeps the
   shorter, the first on a tie.
   */
  lemma TwoBranches(best: Option<seq<Token>>, selected: seq<Token>, rest: seq<Token>,
                    inc: Option<seq<bool>>, exc: Option<seq<bool>>)
    requires rest != [] && (inc.Some? ==> |inc.value| == |rest| - 1) && (exc.Some? ==> |exc.value| == |rest| - 1)
    ensures Improved(Improved(best, selected + [rest[0]], rest[1..], inc), selected, rest[1..], exc) ==
      Improved(best, selected, rest, Shorter(Prefixed(true, inc), Prefixed(false, exc)))
  {
    PrefixedPick(rest, inc);
    PrefixedPick(rest, exc);
    if inc.Some? {
      assert selected + [rest[0]] + Pick(rest[1..], inc.value) == selected + Pick(rest, [true] + inc.value);
    }
  }

  method FindExactTokenSubset(tokens: seq<Token>, amount: int) returns (r: Option<seq<Token>>)
    ensures r.Some? <==> BestMask(ValuesOfObjects(tokens), amount).Some?
    ensures r.Some? ==> r.value == Pick(tokens, BestMask(ValuesOfObjects(tokens), amount).value)
  {
    var search := new SubsetSearch(tokens, amount);
    search.Search(0, 0);
    r := search.best;
    assert tokens[0..] == tokens;
  }

  /** The result of the pruned search, without mentioning how it searches. */
  lemma FoundSubsetIsOptimal(tokens: seq<Token>, amount: int, m: seq<bool>)
    requires |m| == |tokens| && PickSum(ValuesOfObjects(tokens), m) == amount
    requires (forall i :: 0 <= i < |tokens| ==> tokens[i].value >= 0) ||
      (amount >= 0 && Ascending(ValuesOfObjects(tokens)))
    ensures BestMask(ValuesOfObjects(tokens), amount).Some?
    ensures var best := BestMask(ValuesOfObjects(tokens), amount).value;
      Sum(ValuesOfObjects(Pick(tokens, best))) == amount && |Pick(tokens, best)| <= Count(m)
  {
    var vs := ValuesOfObjects(tokens);
    SearchIsComplete(vs, amount);
    SearchIsOptimal(vs, amount);
    var best := BestMask(vs, amount).value;
    PickSumIsSum(vs, best);
    PickValues(tokens, best);
  }

  lemma {:induction false} PickValues(tokens: seq<Token>, m: seq<bool>)
    requires |m| == |tokens|
    ensures ValuesOfObjects(Pick(tokens, m)) == Pick(ValuesOfObjects(tokens), m)
  {
    if tokens == [] {
    } else {
      PickValues(tokens[1..], m[1..]);
      assert ValuesOfObjects(tokens)[1..] == ValuesOfObjects(tokens[1..]);
    }
  }

  /** The greedy loop of select_tokens. */
  method CoverFromSmallest(tokens: seq<Token>, amount: int) returns (r: Option<seq<Token>>)
    ensures r.Some? <==> CoverLength(ValuesOfObjects(tokens), amount).Some?
    ensures r.Some? ==> r.value == tokens[..CoverLength(ValuesOfObjects(tokens), amount).value]
  {
    ghost var vs := ValuesOfObjects(tokens);
    var selected: seq<Token> := [];
    var total := 0;
    for i := 0 to |tokens|
      invariant selected == tokens[..i]
      invariant CoverLength(vs, amount) == Shifted(i, CoverLength(vs[i..], amount - total))
    {
      assert vs[i..][0] == tokens[i].value && vs[i..][1..] == vs[i + 1..];
      selected := selected + [tokens[i]];
      total := total + tokens[i].value;
      if total >= amount {
        return Some(selected);
      }
    }
    return None;
  }
}
