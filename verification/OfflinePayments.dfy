/**
 What a payment of the offline wallet is worth, when it is made, and what it changes
 (wallet/offline_wallet.py:29-112).
 */
module OfflinePayments {
  import opened Basics
  import opened Dicts
  import opened Subsets
  import opened Selection
  import opened PocModels
  import opened OfflineWallet
  import opened OfflineRuns

  // ---------- depositing ----------

  /** A token is taken in exactly when it is the wallet's own and fits under the cap, and then under its id. */
  lemma DepositedIff(policy: PolicyConfig, w: WalletData, t: Token)
    requires DistinctKeys(w.utr)
    ensures var (after, error) := Deposited(policy, w, t);
      var fits := Balance(w.utr) + t.value <= policy.maxBalance;
      (error == None <==> t.currentOwner == w.publicKey && fits) &&
      (error == Some(OwnerMismatch) <==> t.currentOwner != w.publicKey) &&
      (error == Some(BalanceCap) <==> t.currentOwner == w.publicKey && !fits) &&
      after == w.(utr := after.utr) &&
      Mapping(after.utr) == if error == None then Mapping(w.utr)[t.tokenId := t] else Mapping(w.utr)
  {
    PutEffect(w.utr, t.tokenId, t);
    hide Put, Mapping, Balance;
  }

  // ---------- what can be paid with ----------

  /** Issued no longer ago than the expiry period, in whole seconds, and with a hop left */
  ghost predicate Usable(policy: PolicyConfig, t: Token, now: int) {
    now / 1_000_000 - t.issueTimestamp <= policy.tokenExpirySeconds && t.nonce < policy.maxHops
  }

  /** What the usable tokens are worth together */
  ghost function UsableTotal(policy: PolicyConfig, tokens: seq<Token>, now: int): int {
    if tokens == [] then 0 else
      var n := |tokens| - 1;
      UsableTotal(policy, tokens[..n], now) + if Usable(policy, tokens[n], now) then tokens[n].value else 0
  }

  lemma {:induction false} SpendableIff(policy: PolicyConfig, tokens: seq<Token>, now: int, t: Token)
    ensures t in SpendableTokens(policy, tokens, now) <==> t in tokens && Usable(policy, t, now)
  {
    if tokens == [] {
    } else {
      var n := |tokens| - 1;
      SpendableIff(policy, tokens[..n], now, t);
      assert tokens == tokens[..n] + [tokens[n]];
    }
  }

  lemma {:induction false} SpendableTotal(policy: PolicyConfig, tokens: seq<Token>, now: int)
    ensures Sum(ValuesOf(SpendableTokens(policy, tokens, now))) == UsableTotal(policy, tokens, now)
  {
    if tokens == [] {
    } else {
      hide Sum, ValuesOf;
      var n := |tokens| - 1;
      SpendableTotal(policy, tokens[..n], now);
      OneMoreValue(SpendableTokens(policy, tokens[..n], now), tokens[n]);
    }
  }

  lemma OneMoreValue(tokens: seq<Token>, t: Token)
    ensures Sum(ValuesOf(tokens + [t])) == Sum(ValuesOf(tokens)) + t.value
    ensures tokens + [] == tokens
  {
    assert ValuesOf(tokens + [t]) == ValuesOf(tokens) + [t.value];
    SumConcat(ValuesOf(tokens), [t.value]);
    assert Sum([t.value]) == t.value;
  }

  lemma PlaceOf(vs: seq<int>, p: nat) returns (q: nat)
    requires p < |vs|
    ensures q < |Order(vs)| && Order(vs)[q] == p
  {
    assert p in OrderFirst(vs, |vs|);
    q :| q < |Order(vs)| && Order(vs)[q] == p;
  }

  /** No token left out of the selection is worth less than a selected one. */
  ghost predicate SmallestFirst(pool: seq<Token>, selected: seq<Token>) {
    forall t, i :: t in pool && t !in selected && 0 <= i < |selected| ==> selected[i].value <= t.value
  }

  lemma PrefixIsSmallest(pool: seq<Token>, k: nat)
    requires k <= |pool|
    ensures SmallestFirst(pool, At(pool, Order(ValuesOf(pool)))[..k])
  {
    var vs := ValuesOf(pool);
    var order := Order(vs);
    var sorted := At(pool, order);
    OrderIsSorted(vs);
    forall t, i | t in pool && t !in sorted[..k] && 0 <= i < k
      ensures sorted[i].value <= t.value
    {
      var p: nat :| p < |pool| && pool[p] == t;
      var q := PlaceOf(vs, p);
      assert sorted[q] == t && forall j :: 0 <= j < k ==> sorted[..k][j] == sorted[j];
      assert q >= k;
      assert At(vs, order)[i] <= At(vs, order)[q];
    }
  }

  /** The selection is worth the amount, and not without its last token. */
  ghost predicate JustCovers(amount: int, selected: seq<Token>) {
    selected != [] && Sum(ValuesOf(selected)) >= amount > Sum(ValuesOf(selected[..|selected| - 1]))
  }

  lemma FromPoolWorth(pool: seq<Token>, amount: int)
    requires amount > 0
    ensures FromPool(pool, amount).None? <==> Sum(ValuesOf(pool)) < amount
    ensures FromPool(pool, amount).Some? ==>
      var selected := FromPool(pool, amount).value;
      JustCovers(amount, selected) && SmallestFirst(pool, selected)
  {
    var vs := ValuesOf(pool);
    hide Order, CoverLength, Sum, SmallestFirst;
    OrderIsSorted(vs);
    SortedTotal(vs);
    var sorted := At(pool, Order(vs));
    assert ValuesOf(sorted) == At(vs, Order(vs));
    CoverLengthEffect(ValuesOf(sorted), amount);
    if FromPool(pool, amount).Some? {
      var selected := FromPool(pool, amount).value;
      var k := |selected|;
      assert ValuesOf(selected) == ValuesOf(sorted)[..k];
      assert ValuesOf(selected[..k - 1]) == ValuesOf(sorted)[..k - 1];
      PrefixIsSmallest(pool, k);
    }
  }

  // ---------- when a payment is made ----------

  /**
   A payment is made exactly when the amount is positive, within the limit of one payment, and covered
   by the usable tokens together, values of either sign included. The first of these that fails is the
   error.
   */
  lemma PaymentIff(policy: PolicyConfig, w: WalletData, receiver: Key, amount: int, now: int,
                   draws: nat -> TransferDraw)
    ensures var out := Payment(policy, w, receiver, amount, now, draws).1;
      var total := UsableTotal(policy, TokensOf(w.utr), now);
      (out.Ok? <==> 0 < amount <= policy.maxTxValue && total >= amount) &&
      (out == Err(NotPositive) <==> amount <= 0) &&
      (out == Err(MaxTxValueExceeded) <==> amount > 0 && amount > policy.maxTxValue) &&
      (out == Err(InsufficientSpendable) <==> 0 < amount <= policy.maxTxValue && total < amount)
  {
    if amount > 0 {
      SpendableTotal(policy, TokensOf(w.utr), now);
      FromPoolWorth(SpendableTokens(policy, TokensOf(w.utr), now), amount);
      hide FromPool, SpendableTokens, SpendAll, Sum, UsableTotal, JustCovers, SmallestFirst;
    }
  }

  // ---------- what a payment is worth ----------

  /** The values of the tokens a bundle carries, transfer by transfer */
  ghost function PaidValues(b: PaymentBundle): (vs: seq<int>)
    ensures |vs| == |b.transfers|
  {
    seq(|b.transfers|, i requires 0 <= i < |b.transfers| =>
      if b.transfers[i].body.tokenId in b.tokens then b.tokens[b.transfers[i].body.tokenId].value else 0)
  }

  /** What a payment selects, from a register keyed by token id */
  lemma SelectedFacts(policy: PolicyConfig, w: WalletData, receiver: Key, amount: int, now: int,
                      draws: nat -> TransferDraw)
    requires KeyedById(w.utr) && Payment(policy, w, receiver, amount, now, draws).1.Ok?
    ensures var selected := Selected(policy, w, amount, now);
      var pool := SpendableTokens(policy, TokensOf(w.utr), now);
      DistinctIds(selected) && Ascending(ValuesOf(selected)) && JustCovers(amount, selected) &&
      SmallestFirst(pool, selected) &&
      (forall i :: 0 <= i < |selected| ==> selected[i] in TokensOf(w.utr) && Usable(policy, selected[i], now)) &&
      BundleOf(w.publicKey, receiver, selected, draws, Payment(policy, w, receiver, amount, now, draws).1.value)
  {
    var tokens := TokensOf(w.utr);
    var pool := SpendableTokens(policy, tokens, now);
    SpendableDistinct(policy, tokens, now);
    FromPoolEffect(pool, amount);
    FromPoolWorth(pool, amount);
    var selected := Selected(policy, w, amount, now);
    forall i | 0 <= i < |selected|
      ensures selected[i] in tokens && Usable(policy, selected[i], now)
    {
      SpendableIff(policy, tokens, now, selected[i]);
    }
    hide FromPool, SpendableTokens, JustCovers, SmallestFirst, BundleOf, DistinctIds, Ascending, SpendAll;
    SpendAllBundle(w.(syncRequired := w.syncRequired + Unspendable(policy, tokens, now)), receiver, selected, draws);
  }

  lemma PaidAreSelected(sender: Key, receiver: Key, selected: seq<Token>, draws: nat -> TransferDraw,
                        bundle: PaymentBundle)
    requires BundleOf(sender, receiver, selected, draws, bundle)
    ensures PaidValues(bundle) == ValuesOf(selected)
  {
    forall i | 0 <= i < |selected|
      ensures PaidValues(bundle)[i] == selected[i].value
    {
      SameToken(sender, receiver, selected[i], draws(i));
      assert bundle.transfers[i] == TransferOf(sender, receiver, selected[i], draws(i));
    }
  }

  /** A usable token that the payment did not take */
  ghost predicate LeftBehind(policy: PolicyConfig, w: WalletData, bundle: PaymentBundle, now: int, t: Token) {
    t in TokensOf(w.utr) && Usable(policy, t, now) && t.tokenId !in bundle.tokens
  }

  /**
   A payment is worth at least its amount, and less than it without its last token. Its values ascend,
   and no usable token left behind is worth less than one that was paid.
   */
  lemma PaymentWorth(policy: PolicyConfig, w: WalletData, receiver: Key, amount: int, now: int,
                     draws: nat -> TransferDraw)
    requires KeyedById(w.utr) && Payment(policy, w, receiver, amount, now, draws).1.Ok?
    ensures var bundle := Payment(policy, w, receiver, amount, now, draws).1.value;
      var vs := PaidValues(bundle);
      vs != [] && Sum(vs) >= amount > Sum(vs[..|vs| - 1]) && Ascending(vs) &&
      forall t, i :: LeftBehind(policy, w, bundle, now, t) && 0 <= i < |vs| ==> vs[i] <= t.value
  {
    hide Payment, Sum, BundleOf, Selected, SpendableTokens, Usable, Ascending, DistinctIds;
    SelectedFacts(policy, w, receiver, amount, now, draws);
    var bundle := Payment(policy, w, receiver, amount, now, draws).1.value;
    var selected := Selected(policy, w, amount, now);
    PaidAreSelected(w.publicKey, receiver, selected, draws, bundle);
    assert ValuesOf(selected)[..|selected| - 1] == ValuesOf(selected[..|selected| - 1]);
    forall t, i | LeftBehind(policy, w, bundle, now, t) && 0 <= i < |selected|
      ensures PaidValues(bundle)[i] <= t.value
    {
      SpendableIff(policy, TokensOf(w.utr), now, t);
      NotSelected(w.publicKey, receiver, selected, draws, bundle, t);
    }
  }

  lemma NotSelected(sender: Key, receiver: Key, selected: seq<Token>, draws: nat -> TransferDraw,
                    bundle: PaymentBundle, t: Token)
    requires BundleOf(sender, receiver, selected, draws, bundle) && t.tokenId !in bundle.tokens
    ensures t !in selected
  {
  }

  // ---------- what a payment changes ----------

  ghost function ById(selected: seq<Token>): map<string, Token> {
    if selected == [] then map[] else
      var n := |selected| - 1;
      ById(selected[..n])[selected[n].tokenId := selected[n]]
  }

  /** The selected tokens moved from the unspent to the spent register, as they were; nothing else changed. */
  ghost predicate MovedToSpent(w: WalletData, selected: map<string, Token>, after: WalletData) {
    after == w.(utr := after.utr, spent := after.spent) && DistinctKeys(after.utr) && DistinctKeys(after.spent) &&
    Mapping(after.utr) == Mapping(w.utr) - selected.Keys && Mapping(after.spent) == Mapping(w.spent) + selected
  }

  lemma {:induction false} SpendAllMoves(w: WalletData, receiver: Key, selected: seq<Token>,
                                         draws: nat -> TransferDraw)
    requires DistinctKeys(w.utr) && DistinctKeys(w.spent)
    ensures var (after, bundle) := SpendAll(w, receiver, selected, draws);
      MovedToSpent(w, ById(selected), after) && bundle.tokens.Keys == ById(selected).Keys
  {
    hide Pop, Put, Mapping, DistinctKeys, TransferOf;
    if selected == [] {
      assert Mapping(w.utr) - {} == Mapping(w.utr) && Mapping(w.spent) + map[] == Mapping(w.spent);
    } else {
      var n := |selected| - 1;
      SpendAllMoves(w, receiver, selected[..n], draws);
      var before := SpendAll(w, receiver, selected[..n], draws).0;
      PopEffect(before.utr, selected[n].tokenId);
      PutEffect(before.spent, selected[n].tokenId, selected[n]);
      OneMoreMoved(Mapping(w.utr), Mapping(w.spent), ById(selected[..n]), selected[n].tokenId, selected[n]);
    }
  }

  lemma OneMoreMoved<K, V>(utr: map<K, V>, spent: map<K, V>, moved: map<K, V>, k: K, v: V)
    ensures utr - moved.Keys - {k} == utr - moved[k := v].Keys
    ensures (spent + moved)[k := v] == spent + moved[k := v]
  {
  }

  lemma {:induction false} ByIdIsHeld(d: Dict<Token>, selected: seq<Token>)
    requires KeyedById(d) && forall i :: 0 <= i < |selected| ==> selected[i] in TokensOf(d)
    ensures forall id :: id in ById(selected) ==> id in Keys(d) && ById(selected)[id] == Mapping(d)[id]
  {
    hide Mapping;
    if selected == [] {
    } else {
      var n := |selected| - 1;
      ByIdIsHeld(d, selected[..n]);
      var j :| 0 <= j < |d| && TokensOf(d)[j] == selected[n];
      MappingAt(d);
      assert d[j].0 in Keys(d);
    }
  }

  /** The ids of the tokens that cannot be paid with now */
  ghost predicate FlagsUnusable(policy: PolicyConfig, tokens: seq<Token>, now: int, ids: set<string>) {
    forall id :: id in ids <==>
      exists i :: 0 <= i < |tokens| && tokens[i].tokenId == id && !Usable(policy, tokens[i], now)
  }

  /**
   What a payment changes: exactly the bundled tokens leave the unspent register for the spent one, as
   they were, and exactly the ids of unusable tokens are flagged for synchronisation. A failed payment
   moves nothing.
   */
  lemma PaymentEffect(policy: PolicyConfig, w: WalletData, receiver: Key, amount: int, now: int,
                      draws: nat -> TransferDraw) returns (flagged: set<string>)
    requires KeyedById(w.utr) && DistinctKeys(w.spent)
    ensures FlagsUnusable(policy, TokensOf(w.utr), now, flagged)
    ensures var (after, out) := Payment(policy, w, receiver, amount, now, draws);
      after.syncRequired == w.syncRequired + (if 0 < amount <= policy.maxTxValue then flagged else {}) &&
      (out.Err? ==> after == w.(syncRequired := after.syncRequired)) &&
      (out.Ok? ==>
        (forall id :: id in out.value.tokens ==> id in Keys(w.utr)) &&
        MovedToSpent(w.(syncRequired := after.syncRequired),
                     map id | id in out.value.tokens :: Mapping(w.utr)[id], after))
  {
    hide FromPool, SpendableTokens, SpendAll, Usable, Unspendable, Mapping, BundleOf, JustCovers, FlagsUnusable;
    hide SmallestFirst, DistinctIds, Ascending, DistinctKeys;
    flagged := Unspendable(policy, TokensOf(w.utr), now);
    FlaggedExactly(policy, TokensOf(w.utr), now);
    var (after, out) := Payment(policy, w, receiver, amount, now, draws);
    if out.Ok? {
      var checked := w.(syncRequired := w.syncRequired + flagged);
      var selected := Selected(policy, w, amount, now);
      SelectedFacts(policy, w, receiver, amount, now, draws);
      SpendAllMoves(checked, receiver, selected, draws);
      ByIdIsHeld(w.utr, selected);
      assert ById(selected) == map id | id in out.value.tokens :: Mapping(w.utr)[id];
    }
  }

  lemma FlaggedExactly(policy: PolicyConfig, tokens: seq<Token>, now: int)
    ensures FlagsUnusable(policy, tokens, now, Unspendable(policy, tokens, now))
  {
  }

  /**
   What a payment hands over: each transfer is signed by the payer over one held token, which travels
   with the receiver as owner and one more owner change; the transfer continues the token's last one and
   counts one more hop. No token is handed over twice.
   */
  lemma PaymentHandsOver(policy: PolicyConfig, w: WalletData, receiver: Key, amount: int, now: int,
                         draws: nat -> TransferDraw, i: nat)
    requires KeyedById(w.utr) && Payment(policy, w, receiver, amount, now, draws).1.Ok?
    requires i < |Payment(policy, w, receiver, amount, now, draws).1.value.transfers|
    ensures var bundle := Payment(policy, w, receiver, amount, now, draws).1.value;
      var (id, transfer) := (bundle.transfers[i].body.tokenId, bundle.transfers[i]);
      id in Keys(w.utr) && id in bundle.tokens &&
      var t := Mapping(w.utr)[id];
      Usable(policy, t, now) && bundle.tokens[id] == t.(currentOwner := receiver, nonce := t.nonce + 1) &&
      transfer.signature == Signed(w.publicKey, TransferMessage(transfer.body)) &&
      transfer.body == TransferBody(draws(i).transferId, id, w.publicKey, receiver, t.nonce + 1, t.lastTransferId,
                                    t.lastTransferHash, t.lastTransferHash, t.hopCount + 1, draws(i).timestamp) &&
      forall j :: 0 <= j < |bundle.transfers| && bundle.transfers[j].body.tokenId == id ==> j == i
  {
    hide Payment, Selected, Usable, SpendableTokens, Ascending, JustCovers, Mapping;
    SelectedFacts(policy, w, receiver, amount, now, draws);
    var selected := Selected(policy, w, amount, now);
    var t := selected[i];
    var k :| 0 <= k < |w.utr| && TokensOf(w.utr)[k] == t;
    MappingAt(w.utr);
    assert w.utr[k].0 in Keys(w.utr);
    forall j | 0 <= j < |selected|
      ensures TransferOf(w.publicKey, receiver, selected[j], draws(j)).body.tokenId == selected[j].tokenId
    {
      SameToken(w.publicKey, receiver, selected[j], draws(j));
    }
  }
}
