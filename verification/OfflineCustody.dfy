/**
 Custody in a network of offline wallets: when no token is in two places, and why nothing is held
 that was not minted.
 */
module OfflineCustody {
  import opened Basics
  import opened Dicts
  import opened PocModels
  import opened OfflineWallet
  import opened OfflineRuns

  import Selection

  type Wallets = seq<WalletData>

  /** A transfer on its way, with the value of its token */
  type Item = (TransferBody, int)

  // ---------- everything is backed by a minted token ----------

  /** The minted tokens with their values */
  ghost function Live(minted: seq<Token>): map<string, int> {
    if minted == [] then map[] else
      var n := |minted| - 1;
      Live(minted[..n])[minted[n].tokenId := minted[n].value]
  }

  ghost predicate Priced(live: map<string, int>, d: Dict<Token>) {
    forall i :: 0 <= i < |d| ==> d[i].0 in live && live[d[i].0] == d[i].1.value
  }

  ghost function ItemsOf(b: PaymentBundle): set<Item> {
    set i | 0 <= i < |b.transfers| && b.transfers[i].body.tokenId in b.tokens ::
      (b.transfers[i].body, b.tokens[b.transfers[i].body.tokenId].value)
  }

  ghost function Pool(bundles: seq<PaymentBundle>): set<Item> {
    if bundles == [] then {} else Pool(bundles[..|bundles| - 1]) + ItemsOf(bundles[|bundles| - 1])
  }

  ghost predicate WalletsPriced(wallets: Wallets, live: map<string, int>) {
    forall w :: 0 <= w < |wallets| ==> KeyedById(wallets[w].utr) && Priced(live, wallets[w].utr)
  }

  ghost predicate PoolPriced(pool: set<Item>, live: map<string, int>) {
    forall item :: item in pool ==> item.0.tokenId in live && live[item.0.tokenId] == item.1
  }

  /** Every token held or on its way was minted, with the value it has. */
  ghost predicate Backed(s: Network) {
    WalletsPriced(s.wallets, Live(s.minted)) && PoolPriced(Pool(s.bundles), Live(s.minted))
  }

  lemma PricedUpdate(wallets: Wallets, live: map<string, int>, w: nat, w': WalletData)
    requires WalletsPriced(wallets, live) && w < |wallets| && KeyedById(w'.utr) && Priced(live, w'.utr)
    ensures WalletsPriced(wallets[w := w'], live)
  {
    hide KeyedById, Priced;
  }

  lemma RegisterPriced(wallets: Wallets, live: map<string, int>, w: nat)
    requires WalletsPriced(wallets, live) && w < |wallets|
    ensures KeyedById(wallets[w].utr) && Priced(live, wallets[w].utr)
  {
  }

  lemma TakenInPriced(live: map<string, int>, d: Dict<Token>, t: Token)
    requires KeyedById(d) && Priced(live, d) && t.tokenId in live && live[t.tokenId] == t.value
    ensures var d' := Put(d, t.tokenId, t);
      KeyedById(d') && Priced(live, d') && Keys(d') == Keys(d) + {t.tokenId}
  {
    hide Mapping;
    PutEffect(d, t.tokenId, t);
    assert Keys(Put(d, t.tokenId, t)) == Mapping(Put(d, t.tokenId, t)).Keys;
  }

  lemma {:induction false} LiveAt(minted: seq<Token>, k: nat)
    requires DistinctIds(minted) && k < |minted|
    ensures minted[k].tokenId in Live(minted) && Live(minted)[minted[k].tokenId] == minted[k].value
  {
    if k == |minted| - 1 {
    } else {
      LiveAt(minted[..|minted| - 1], k);
    }
  }

  lemma LiveAppend(minted: seq<Token>, t: Token)
    ensures Live(minted + [t]) == Live(minted)[t.tokenId := t.value]
  {
    assert (minted + [t])[..|minted|] == minted;
  }

  lemma {:induction false} LiveIds(minted: seq<Token>)
    ensures forall id :: id in Live(minted) <==> exists k :: 0 <= k < |minted| && minted[k].tokenId == id
  {
    if minted == [] {
    } else {
      var n := |minted| - 1;
      LiveIds(minted[..n]);
      forall id
        ensures id in Live(minted) <==> exists k :: 0 <= k < |minted| && minted[k].tokenId == id
      {
        if id in Live(minted[..n]) {
          var k :| 0 <= k < n && minted[..n][k].tokenId == id;
          assert minted[k].tokenId == id;
        }
        if id == minted[n].tokenId {
          assert minted[n].tokenId == id;
        }
        if k :| 0 <= k < |minted| && minted[k].tokenId == id {
          assert k < n ==> minted[..n][k].tokenId == id;
        }
      }
    }
  }

  // ---------- minting and depositing ----------

  /** The ids an event mints are new. */
  ghost predicate FreshIds(s: Network, e: Event) {
    e.Mint? ==> forall k :: 0 <= k < |s.minted| ==> s.minted[k].tokenId != e.draw.tokenId
  }

  lemma MintBacked(s: Network, t: Token)
    requires Backed(s) && DistinctIds(s.minted) && forall k :: 0 <= k < |s.minted| ==> s.minted[k].tokenId != t.tokenId
    ensures Backed(s.(minted := s.minted + [t])) && DistinctIds(s.minted + [t])
  {
    var live := Live(s.minted);
    LiveAppend(s.minted, t);
    LiveIds(s.minted);
    hide Live, KeyedById, Pool;
    forall w | 0 <= w < |s.wallets|
      ensures Priced(live[t.tokenId := t.value], s.wallets[w].utr)
    {
      RegisterPriced(s.wallets, live, w);
    }
  }

  lemma DepositBacked(policy: PolicyConfig, s: Network, w: nat, k: nat)
    requires Backed(s) && DistinctIds(s.minted) && w < |s.wallets| && k < |s.minted|
    ensures Backed(s.(wallets := s.wallets[w := Deposited(policy, s.wallets[w], s.minted[k]).0]))
  {
    var t := s.minted[k];
    LiveAt(s.minted, k);
    hide Live, KeyedById, Priced, Pool, PoolPriced, Put, Keys, Balance, WalletsPriced;
    RegisterPriced(s.wallets, Live(s.minted), w);
    TakenInPriced(Live(s.minted), s.wallets[w].utr, t);
    PricedUpdate(s.wallets, Live(s.minted), w, Deposited(policy, s.wallets[w], t).0);
  }

  // ---------- receiving ----------

  lemma AcceptedMeans(policy: PolicyConfig, w: WalletData, transfer: Transfer, t: Token, now: Reading)
    requires Applied(policy, w, transfer, t, now).1.Accepted?
    ensures transfer.body.receiverPk == w.publicKey && transfer.body.transferId !in w.processed
    ensures var after := Applied(policy, w, transfer, t, now).0;
      var received := Kept(w.publicKey, transfer, t);
      after.publicKey == w.publicKey && after.utr == Put(w.utr, t.tokenId, received) &&
      after.processed == w.processed + {transfer.body.transferId} && received.tokenId == t.tokenId &&
      received.value == t.value
  {
    hide Put, Balance;
  }

  lemma AppliedBacked(policy: PolicyConfig, s: Network, w: nat, transfer: Transfer, t: Token, now: Reading)
    requires Backed(s) && w < |s.wallets| && (transfer.body, t.value) in Pool(s.bundles)
    requires t.tokenId == transfer.body.tokenId
    ensures Backed(s.(wallets := s.wallets[w := Applied(policy, s.wallets[w], transfer, t, now).0]))
  {
    var before := s.wallets[w];
    var (after, reason) := Applied(policy, before, transfer, t, now);
    if reason.Accepted? {
      AcceptedMeans(policy, before, transfer, t, now);
      hide Applied, Live, KeyedById, Priced, Pool, Put, Keys, WalletsPriced;
      RegisterPriced(s.wallets, Live(s.minted), w);
      TakenInPriced(Live(s.minted), before.utr, Kept(before.publicKey, transfer, t));
      PricedUpdate(s.wallets, Live(s.minted), w, after);
    } else {
      assert s.wallets[w := after] == s.wallets;
    }
  }

  lemma {:induction false} InPool(bundles: seq<PaymentBundle>, b: nat, i: nat)
    requires b < |bundles| && i < |bundles[b].transfers| && bundles[b].transfers[i].body.tokenId in bundles[b].tokens
    ensures var body := bundles[b].transfers[i].body;
      (body, bundles[b].tokens[body.tokenId].value) in Pool(bundles)
  {
    if b == |bundles| - 1 {
    } else {
      InPool(bundles[..|bundles| - 1], b, i);
    }
  }

  /** The network after n transfers of a delivered bundle */
  function Delivering(policy: PolicyConfig, s: Network, w: nat, b: nat, n: nat, clock: nat -> Reading): Network
    requires w < |s.wallets| && b < |s.bundles| && n <= |s.bundles[b].transfers|
  {
    s.(wallets := s.wallets[w := BundleReceived(policy, s.wallets[w], s.bundles[b], n, clock).0])
  }

  lemma DeliveringStep(policy: PolicyConfig, s: Network, w: nat, b: nat, n: nat, clock: nat -> Reading)
    requires w < |s.wallets| && b < |s.bundles| && n < |s.bundles[b].transfers| && CountedBundle(policy, s.bundles[b])
    ensures var before := Delivering(policy, s, w, b, n, clock);
      var transfer := s.bundles[b].transfers[n];
      transfer.body.tokenId in s.bundles[b].tokens &&
      var t := s.bundles[b].tokens[transfer.body.tokenId];
      t.tokenId == transfer.body.tokenId && (transfer.body, t.value) in Pool(s.bundles) &&
      (Delivering(policy, s, w, b, n + 1, clock) == before ||
       Delivering(policy, s, w, b, n + 1, clock) ==
         before.(wallets := before.wallets[w := Applied(policy, before.wallets[w], transfer, t, clock(n)).0]))
  {
    hide Applied, Pool;
    var transfer := s.bundles[b].transfers[n];
    assert CountedTransfer(policy, s.bundles[b], transfer.body);
    InPool(s.bundles, b, n);
    var before := BundleReceived(policy, s.wallets[w], s.bundles[b], n, clock).0;
    var after := BundleReceived(policy, s.wallets[w], s.bundles[b], n + 1, clock).0;
    assert s.wallets[w := before][w := after] == s.wallets[w := after];
  }

  lemma DeliveringNothing(policy: PolicyConfig, s: Network, w: nat, b: nat, clock: nat -> Reading)
    requires w < |s.wallets| && b < |s.bundles|
    ensures Delivering(policy, s, w, b, 0, clock) == s
  {
    assert s.wallets[w := s.wallets[w]] == s.wallets;
  }

  lemma {:induction false} DeliverBacked(policy: PolicyConfig, s: Network, w: nat, b: nat, n: nat,
                                         clock: nat -> Reading)
    requires Backed(s) && w < |s.wallets| && b < |s.bundles| && n <= |s.bundles[b].transfers|
    requires CountedBundle(policy, s.bundles[b])
    ensures Backed(Delivering(policy, s, w, b, n, clock))
  {
    if n == 0 {
      DeliveringNothing(policy, s, w, b, clock);
    } else {
      DeliverBacked(policy, s, w, b, n - 1, clock);
      DeliveringStep(policy, s, w, b, n - 1, clock);
      var transfer := s.bundles[b].transfers[n - 1];
      var before := Delivering(policy, s, w, b, n - 1, clock);
      assert before.bundles == s.bundles;
      hide Backed, Delivering, Applied, Pool, CountedBundle;
      AppliedBacked(policy, before, w, transfer, s.bundles[b].tokens[transfer.body.tokenId], clock(n - 1));
    }
  }

  // ---------- paying ----------

  ghost function SelectedIds(selected: seq<Token>): set<string> {
    set i | 0 <= i < |selected| :: selected[i].tokenId
  }

  lemma SelectedSplit(selected: seq<Token>)
    requires selected != []
    ensures SelectedIds(selected) == SelectedIds(selected[..|selected| - 1]) + {selected[|selected| - 1].tokenId}
  {
    assert selected == selected[..|selected| - 1] + [selected[|selected| - 1]];
  }

  lemma PoppedPriced(live: map<string, int>, d: Dict<Token>, id: string)
    requires KeyedById(d) && Priced(live, d)
    ensures KeyedById(Pop(d, id)) && Priced(live, Pop(d, id)) && Keys(Pop(d, id)) == Keys(d) - {id}
  {
    hide Mapping;
    PopEffect(d, id);
    assert Keys(Pop(d, id)) == Mapping(Pop(d, id)).Keys;
  }

  lemma {:induction false} SpendAllShrinks(live: map<string, int>, w: WalletData, receiver: Key,
                                           selected: seq<Token>, draws: nat -> TransferDraw)
    requires KeyedById(w.utr) && Priced(live, w.utr)
    ensures var w' := SpendAll(w, receiver, selected, draws).0;
      w'.publicKey == w.publicKey && w'.processed == w.processed && KeyedById(w'.utr) && Priced(live, w'.utr) &&
      Keys(w'.utr) == Keys(w.utr) - SelectedIds(selected)
  {
    hide KeyedById, Priced, Keys, Pop, Put, SelectedIds;
    if selected == [] {
      NothingSelected();
    } else {
      var n := |selected| - 1;
      SpendAllShrinks(live, w, receiver, selected[..n], draws);
      PoppedPriced(live, SpendAll(w, receiver, selected[..n], draws).0.utr, selected[n].tokenId);
      SelectedSplit(selected);
    }
  }

  lemma NothingSelected()
    ensures SelectedIds([]) == {}
  {
  }

  /** The tokens a payment takes are tokens of the register. */
  lemma SelectedHeld(policy: PolicyConfig, live: map<string, int>, w: WalletData, amount: int, now: int)
    requires HonestWallet(policy, w) && Priced(live, w.utr)
    ensures var selected := Selected(policy, w, amount, now);
      forall i :: 0 <= i < |selected| ==>
        selected[i].tokenId in Keys(w.utr) && selected[i].tokenId in live &&
        live[selected[i].tokenId] == selected[i].value
  {
    var tokens := TokensOf(w.utr);
    var pool := SpendableTokens(policy, tokens, now);
    var selected := Selected(policy, w, amount, now);
    SpendableDistinct(policy, tokens, now);
    SpendableFrom(policy, tokens, now);
    if FromPool(pool, amount).Some? {
      FromPoolEffect(pool, amount);
      MappingAt(w.utr);
      hide FromPool, SpendableTokens, DistinctIds, DistinctKeys, Mapping;
      forall i | 0 <= i < |selected|
        ensures selected[i].tokenId in Keys(w.utr) && selected[i].tokenId in live &&
          live[selected[i].tokenId] == selected[i].value
      {
        assert selected[i] in pool && selected[i] in tokens;
        var j :| 0 <= j < |tokens| && tokens[j] == selected[i];
        assert w.utr[j].1 == selected[i];
      }
    }
  }

  /** A payment spends the selected tokens, or changes no register. */
  lemma PaymentOutcome(policy: PolicyConfig, w: WalletData, receiver: Key, amount: int, now: int,
                       draws: nat -> TransferDraw)
    ensures var (after, r) := Payment(policy, w, receiver, amount, now, draws);
      var checked := w.(syncRequired := w.syncRequired + Unspendable(policy, TokensOf(w.utr), now));
      (r.Ok? ==> after == SpendAll(checked, receiver, Selected(policy, w, amount, now), draws).0) &&
      (r.Err? ==> after == w || after == checked)
  {
    hide SpendAll, FromPool, SpendableTokens, Unspendable, TokensOf;
  }

  /** The network after wallet w made a payment, or failed to */
  ghost function AfterPayment(s: Network, w: nat, result: (WalletData, Result<PaymentBundle, WalletError>)): Network
    requires w < |s.wallets|
  {
    s.(wallets := s.wallets[w := result.0], bundles := if result.1.Ok? then s.bundles + [result.1.value] else s.bundles)
  }

  /** Whatever becomes of a payment, the payer keeps its key, its processed transfers and no token it did not have. */
  lemma PaymentShrinks(policy: PolicyConfig, live: map<string, int>, before: WalletData, receiver: Key, amount: int,
                       now: int, draws: nat -> TransferDraw)
    requires KeyedById(before.utr) && Priced(live, before.utr)
    ensures var (after, r) := Payment(policy, before, receiver, amount, now, draws);
      after.publicKey == before.publicKey && after.processed == before.processed &&
      KeyedById(after.utr) && Priced(live, after.utr) &&
      Keys(after.utr) ==
        Keys(before.utr) - if r.Ok? then SelectedIds(Selected(policy, before, amount, now)) else {}
  {
    hide Payment, KeyedById, Priced, Keys, SpendAll, Unspendable, SelectedIds, TokensOf, Selected;
    PaymentOutcome(policy, before, receiver, amount, now, draws);
    var checked := before.(syncRequired := before.syncRequired + Unspendable(policy, TokensOf(before.utr), now));
    SpendAllShrinks(live, checked, receiver, Selected(policy, before, amount, now), draws);
    var (after, r) := Payment(policy, before, receiver, amount, now, draws);
    assert r.Err? ==> after.utr == before.utr;
  }

  /** The items of an honest bundle are the selected tokens, each with its own id. */
  ghost predicate ItemsFor(b: PaymentBundle, selected: seq<Token>) {
    (forall item :: item in ItemsOf(b) ==>
      exists i :: 0 <= i < |selected| && selected[i].tokenId == item.0.tokenId && selected[i].value == item.1) &&
    (forall x, y :: x in ItemsOf(b) && y in ItemsOf(b) && x.0.tokenId == y.0.tokenId ==> x == y) &&
    (forall i :: 0 <= i < |selected| ==> HasItem(b, selected[i].tokenId))
  }

  ghost predicate HasItem(b: PaymentBundle, id: string) {
    exists item :: item in ItemsOf(b) && item.0.tokenId == id
  }

  /** Transfer i of the bundle is for token i. */
  ghost predicate Matching(b: PaymentBundle, selected: seq<Token>, i: nat)
    requires i < |b.transfers| && i < |selected|
  {
    b.transfers[i].body.tokenId == selected[i].tokenId && selected[i].tokenId in b.tokens &&
    b.tokens[selected[i].tokenId].value == selected[i].value
  }

  lemma PaidItems(sender: Key, receiver: Key, selected: seq<Token>, draws: nat -> TransferDraw, bundle: PaymentBundle)
    requires DistinctIds(selected) && BundleOf(sender, receiver, selected, draws, bundle)
    ensures ItemsFor(bundle, selected)
  {
    forall i | 0 <= i < |selected|
      ensures Matching(bundle, selected, i)
    {
      SameToken(sender, receiver, selected[i], draws(i));
    }
    hide TransferOf, Outbound, BundleOf;
    assert |bundle.transfers| == |selected| by {
      BundleLength(sender, receiver, selected, draws, bundle);
    }
    MatchingItems(bundle, selected);
  }

  lemma BundleLength(sender: Key, receiver: Key, selected: seq<Token>, draws: nat -> TransferDraw,
                     bundle: PaymentBundle)
    requires BundleOf(sender, receiver, selected, draws, bundle)
    ensures |bundle.transfers| == |selected|
  {
  }

  /** The item is transfer i, for token i. */
  ghost predicate ItemAt(b: PaymentBundle, selected: seq<Token>, item: (TransferBody, int), i: nat) {
    i < |b.transfers| && i < |selected| &&
    item.0 == b.transfers[i].body && item.0.tokenId == selected[i].tokenId && item.1 == selected[i].value
  }

  lemma ItemHasIndex(b: PaymentBundle, selected: seq<Token>, item: (TransferBody, int)) returns (i: nat)
    requires |b.transfers| == |selected| && forall k :: 0 <= k < |selected| ==> Matching(b, selected, k)
    requires item in ItemsOf(b)
    ensures ItemAt(b, selected, item, i)
  {
    i :| i < |b.transfers| && b.transfers[i].body.tokenId in b.tokens &&
      item == (b.transfers[i].body, b.tokens[b.transfers[i].body.tokenId].value);
    assert Matching(b, selected, i);
  }

  lemma TokenHasItem(b: PaymentBundle, selected: seq<Token>, i: nat)
    requires i < |b.transfers| && i < |selected| && Matching(b, selected, i)
    ensures HasItem(b, selected[i].tokenId)
  {
    assert (b.transfers[i].body, b.tokens[b.transfers[i].body.tokenId].value) in ItemsOf(b);
  }

  lemma MatchingItems(b: PaymentBundle, selected: seq<Token>)
    requires DistinctIds(selected) && |b.transfers| == |selected| && forall i :: 0 <= i < |selected| ==>
      Matching(b, selected, i)
    ensures ItemsFor(b, selected)
  {
    hide ItemsOf, Matching;
    forall i | 0 <= i < |selected|
      ensures HasItem(b, selected[i].tokenId)
    {
      TokenHasItem(b, selected, i);
    }
    forall item | item in ItemsOf(b)
      ensures exists i :: 0 <= i < |selected| && selected[i].tokenId == item.0.tokenId && selected[i].value == item.1
    {
      var i := ItemHasIndex(b, selected, item);
    }
    forall x, y | x in ItemsOf(b) && y in ItemsOf(b) && x.0.tokenId == y.0.tokenId
      ensures x == y
    {
      var i := ItemHasIndex(b, selected, x);
      var j := ItemHasIndex(b, selected, y);
      SameIndex(selected, i, j);
    }
  }

  lemma SameIndex(selected: seq<Token>, i: nat, j: nat)
    requires DistinctIds(selected) && i < |selected| && j < |selected| && selected[i].tokenId == selected[j].tokenId
    ensures i == j
  {
  }

  lemma PoolAppend(bundles: seq<PaymentBundle>, bundle: PaymentBundle)
    ensures Pool(bundles + [bundle]) == Pool(bundles) + ItemsOf(bundle)
  {
    assert (bundles + [bundle])[..|bundles|] == bundles;
  }

  /** What a successful payment hands out: tokens the payer held and holds no longer, each once. */
  lemma PaymentHandsOut(policy: PolicyConfig, live: map<string, int>, w: WalletData, receiver: Key,
                        amount: int, now: int, draws: nat -> TransferDraw)
    requires HonestWallet(policy, w) && Priced(live, w.utr) && Payment(policy, w, receiver, amount, now, draws).1.Ok?
    ensures var (after, r) := Payment(policy, w, receiver, amount, now, draws);
      (forall item :: item in ItemsOf(r.value) ==>
        item.0.tokenId in live && live[item.0.tokenId] == item.1 && item.0.tokenId in Keys(w.utr) - Keys(after.utr)) &&
      (forall x, y :: (x in ItemsOf(r.value) && y in ItemsOf(r.value) && x.0.tokenId == y.0.tokenId) ==> x == y)
  {
    var selected := Selected(policy, w, amount, now);
    PaymentShrinks(policy, live, w, receiver, amount, now, draws);
    PaymentSelects(policy, w, receiver, amount, now, draws);
    SelectedHeld(policy, live, w, amount, now);
    var (after, r) := Payment(policy, w, receiver, amount, now, draws);
    hide Payment, Keys, Selected, HonestWallet, Priced, ItemsOf, SelectedIds;
    PaidItems(w.publicKey, receiver, selected, draws, r.value);
    forall item | item in ItemsOf(r.value)
      ensures item.0.tokenId in live && live[item.0.tokenId] == item.1
      ensures item.0.tokenId in Keys(w.utr) - Keys(after.utr)
    {
      var i :| 0 <= i < |selected| && selected[i].tokenId == item.0.tokenId && selected[i].value == item.1;
      IsSelected(selected, i);
    }
  }

  lemma IsSelected(selected: seq<Token>, i: nat)
    requires i < |selected|
    ensures selected[i].tokenId in SelectedIds(selected)
  {
  }

  lemma PayBacked(policy: PolicyConfig, s: Network, w: nat, receiver: Key, amount: int, now: int,
                  draws: nat -> TransferDraw)
    requires Backed(s) && w < |s.wallets| && HonestWallet(policy, s.wallets[w])
    ensures Backed(AfterPayment(s, w, Payment(policy, s.wallets[w], receiver, amount, now, draws)))
  {
    var live := Live(s.minted);
    var before := s.wallets[w];
    var (after, r) := Payment(policy, before, receiver, amount, now, draws);
    RegisterPriced(s.wallets, live, w);
    hide Payment, Live, KeyedById, Priced, Pool, Keys, HonestWallet, WalletsPriced, ItemsOf;
    PaymentShrinks(policy, live, before, receiver, amount, now, draws);
    PricedUpdate(s.wallets, live, w, after);
    if r.Ok? {
      PaymentHandsOut(policy, live, before, receiver, amount, now, draws);
      PoolAppend(s.bundles, r.value);
    }
  }

  // ---------- one place for each token ----------

  /** The wallet the transfer is addressed to has processed its id, and will never accept it. */
  ghost predicate ClosedBy(w: WalletData, transfer: TransferBody) {
    transfer.receiverPk == w.publicKey && transfer.transferId in w.processed
  }

  ghost predicate Open(wallets: Wallets, transfer: TransferBody) {
    forall w :: 0 <= w < |wallets| ==> !ClosedBy(wallets[w], transfer)
  }

  ghost predicate Unheld(wallets: Wallets, id: string) {
    forall w :: 0 <= w < |wallets| ==> id !in Keys(wallets[w].utr)
  }

  ghost predicate WalletsApart(wallets: Wallets) {
    forall i, j :: 0 <= i < j < |wallets| ==> Keys(wallets[i].utr) !! Keys(wallets[j].utr)
  }

  ghost predicate DistinctWallets(wallets: Wallets) {
    forall i, j :: 0 <= i < j < |wallets| ==> wallets[i].publicKey != wallets[j].publicKey
  }

  ghost predicate PoolApart(wallets: Wallets, pool: set<Item>) {
    (forall item :: item in pool && Open(wallets, item.0) ==> Unheld(wallets, item.0.tokenId)) &&
    (forall a, b ::
      (a in pool && b in pool && Open(wallets, a.0) && Open(wallets, b.0) && a.0.tokenId == b.0.tokenId) ==> a == b)
  }

  /** Each token is in at most one register, or in at most one transfer that may still be accepted, and not in both. */
  ghost predicate OnePlace(s: Network) {
    WalletsApart(s.wallets) && PoolApart(s.wallets, Pool(s.bundles))
  }

  lemma OthersApart(wallets: Wallets, w: nat)
    requires WalletsApart(wallets) && w < |wallets|
    ensures forall v :: 0 <= v < |wallets| && v != w ==> Keys(wallets[v].utr) !! Keys(wallets[w].utr)
  {
    hide Keys;
    forall v | 0 <= v < |wallets| && v != w
      ensures Keys(wallets[v].utr) !! Keys(wallets[w].utr)
    {
      assert v < w || w < v;
    }
  }

  lemma ApartUpdate(wallets: Wallets, w: nat, w': WalletData)
    requires WalletsApart(wallets) && w < |wallets|
    requires forall v :: 0 <= v < |wallets| && v != w ==> Keys(w'.utr) !! Keys(wallets[v].utr)
    ensures WalletsApart(wallets[w := w'])
  {
    hide Keys;
  }

  lemma UnheldUpdate(wallets: Wallets, w: nat, w': WalletData, id: string)
    requires Unheld(wallets, id) && w < |wallets| && id !in Keys(w'.utr)
    ensures Unheld(wallets[w := w'], id)
  {
    hide Keys;
  }

  lemma NotHeldBy(wallets: Wallets, w: nat, id: string)
    requires Unheld(wallets, id) && w < |wallets|
    ensures id !in Keys(wallets[w].utr)
  {
  }

  lemma OpenUpdate(wallets: Wallets, w: nat, w': WalletData, transfer: TransferBody)
    requires w < |wallets| && w'.publicKey == wallets[w].publicKey && wallets[w].processed <= w'.processed
    requires Open(wallets[w := w'], transfer)
    ensures Open(wallets, transfer) && !ClosedBy(w', transfer)
  {
    var wallets' := wallets[w := w'];
    assert !ClosedBy(wallets'[w], transfer);
    forall v | 0 <= v < |wallets|
      ensures !ClosedBy(wallets[v], transfer)
    {
      assert !ClosedBy(wallets'[v], transfer);
    }
  }

  /** A wallet that processes no transfer closes none. */
  lemma OpenSame(wallets: Wallets, w: nat, w': WalletData, transfer: TransferBody)
    requires w < |wallets| && w'.publicKey == wallets[w].publicKey && w'.processed == wallets[w].processed
    ensures Open(wallets[w := w'], transfer) <==> Open(wallets, transfer)
  {
    var wallets' := wallets[w := w'];
    forall v | 0 <= v < |wallets|
      ensures ClosedBy(wallets'[v], transfer) <==> ClosedBy(wallets[v], transfer)
    {
    }
  }

  /** Fewer open transfers, and for those still open nobody holds the token. */
  lemma PoolUpdate(wallets: Wallets, wallets': Wallets, pool: set<Item>)
    requires PoolApart(wallets, pool)
    requires forall item :: item in pool && Open(wallets', item.0) ==>
      Open(wallets, item.0) && Unheld(wallets', item.0.tokenId)
    ensures PoolApart(wallets', pool)
  {
    hide Open, Unheld;
  }

  lemma OpenUnheld(wallets: Wallets, pool: set<Item>, item: Item)
    requires PoolApart(wallets, pool) && item in pool && Open(wallets, item.0)
    ensures Unheld(wallets, item.0.tokenId)
  {
  }

  lemma OneOpen(wallets: Wallets, pool: set<Item>, a: Item, b: Item)
    requires PoolApart(wallets, pool) && a in pool && b in pool && Open(wallets, a.0) && Open(wallets, b.0)
    ensures a.0.tokenId == b.0.tokenId ==> a == b
  {
  }

  // ---------- what keeps tokens in one place ----------

  /** A transfer a wallet accepts is open: other wallets have other keys. */
  lemma ArrivalOpen(wallets: Wallets, w: nat, transfer: TransferBody)
    requires DistinctWallets(wallets) && w < |wallets|
    requires transfer.receiverPk == wallets[w].publicKey && transfer.transferId !in wallets[w].processed
    ensures Open(wallets, transfer)
  {
    forall v | 0 <= v < |wallets|
      ensures !ClosedBy(wallets[v], transfer)
    {
      assert v < w || v == w || w < v;
    }
  }

  /** An accepted transfer was the one place of its token, which now is the receiver's register. */
  lemma AppliedOnePlace(policy: PolicyConfig, s: Network, w: nat, transfer: Transfer, t: Token, now: Reading)
    requires OnePlace(s) && Backed(s) && DistinctWallets(s.wallets) && w < |s.wallets|
    requires (transfer.body, t.value) in Pool(s.bundles) && t.tokenId == transfer.body.tokenId
    ensures OnePlace(s.(wallets := s.wallets[w := Applied(policy, s.wallets[w], transfer, t, now).0]))
  {
    var wallets, pool := s.wallets, Pool(s.bundles);
    var (after, reason) := Applied(policy, wallets[w], transfer, t, now);
    if reason.Accepted? {
      AcceptedMeans(policy, wallets[w], transfer, t, now);
      RegisterPriced(wallets, Live(s.minted), w);
      hide Applied, Live, KeyedById, Priced, PoolApart, Pool, Put, Keys, WalletsPriced, WalletsApart, Open, Unheld;
      hide DistinctWallets;
      var item := (transfer.body, t.value);
      TakenInPriced(Live(s.minted), wallets[w].utr, Kept(wallets[w].publicKey, transfer, t));
      ArrivalOpen(wallets, w, transfer.body);
      OpenUnheld(wallets, pool, item);
      OthersApart(wallets, w);
      forall v | 0 <= v < |wallets| && v != w
        ensures Keys(after.utr) !! Keys(wallets[v].utr)
      {
        NotHeldBy(wallets, v, t.tokenId);
      }
      ApartUpdate(wallets, w, after);
      forall other | other in pool && Open(wallets[w := after], other.0)
        ensures Open(wallets, other.0) && Unheld(wallets[w := after], other.0.tokenId)
      {
        OpenUpdate(wallets, w, after, other.0);
        OpenUnheld(wallets, pool, other);
        OneOpen(wallets, pool, item, other);
        NotHeldBy(wallets, w, other.0.tokenId);
        UnheldUpdate(wallets, w, after, other.0.tokenId);
      }
      PoolUpdate(wallets, wallets[w := after], pool);
    } else {
      assert wallets[w := after] == wallets;
    }
  }

  lemma DistinctUpdate(wallets: Wallets, w: nat, w': WalletData)
    requires DistinctWallets(wallets) && w < |wallets| && w'.publicKey == wallets[w].publicKey
    ensures DistinctWallets(wallets[w := w'])
  {
  }

  lemma {:induction false} ReceivedKey(policy: PolicyConfig, w: WalletData, bundle: PaymentBundle, n: nat,
                                       clock: nat -> Reading)
    requires n <= |bundle.transfers|
    ensures BundleReceived(policy, w, bundle, n, clock).0.publicKey == w.publicKey
  {
    hide Verdict, Balance, Put;
    if n == 0 {
    } else {
      ReceivedKey(policy, w, bundle, n - 1, clock);
    }
  }

  lemma DeliveringShape(policy: PolicyConfig, s: Network, w: nat, b: nat, n: nat, clock: nat -> Reading)
    requires w < |s.wallets| && b < |s.bundles| && n <= |s.bundles[b].transfers| && DistinctWallets(s.wallets)
    ensures var before := Delivering(policy, s, w, b, n, clock);
      |before.wallets| == |s.wallets| && before.bundles == s.bundles && DistinctWallets(before.wallets)
  {
    hide BundleReceived, DistinctWallets;
    ReceivedKey(policy, s.wallets[w], s.bundles[b], n, clock);
    DistinctUpdate(s.wallets, w, BundleReceived(policy, s.wallets[w], s.bundles[b], n, clock).0);
  }

  lemma {:induction false} DeliverOnePlace(policy: PolicyConfig, s: Network, w: nat, b: nat, n: nat,
                                           clock: nat -> Reading)
    requires w < |s.wallets| && b < |s.bundles| && n <= |s.bundles[b].transfers|
    requires OnePlace(s) && Backed(s) && DistinctWallets(s.wallets) && CountedBundle(policy, s.bundles[b])
    ensures OnePlace(Delivering(policy, s, w, b, n, clock))
  {
    hide Backed, OnePlace, DistinctWallets, Delivering, Applied, Pool, CountedBundle;
    if n == 0 {
      DeliveringNothing(policy, s, w, b, clock);
    } else {
      DeliverOnePlace(policy, s, w, b, n - 1, clock);
      DeliverBacked(policy, s, w, b, n - 1, clock);
      DeliveringStep(policy, s, w, b, n - 1, clock);
      var transfer := s.bundles[b].transfers[n - 1];
      var before := Delivering(policy, s, w, b, n - 1, clock);
      DeliveringShape(policy, s, w, b, n - 1, clock);
      AppliedOnePlace(policy, before, w, transfer, s.bundles[b].tokens[transfer.body.tokenId], clock(n - 1));
    }
  }

  /** A payment moves each token it takes from the register to one open transfer. */
  lemma PayOnePlace(policy: PolicyConfig, s: Network, w: nat, receiver: Key, amount: int, now: int,
                    draws: nat -> TransferDraw)
    requires OnePlace(s) && Backed(s) && w < |s.wallets| && HonestWallet(policy, s.wallets[w])
    ensures OnePlace(AfterPayment(s, w, Payment(policy, s.wallets[w], receiver, amount, now, draws)))
  {
    var live, wallets, pool := Live(s.minted), s.wallets, Pool(s.bundles);
    var (after, r) := Payment(policy, wallets[w], receiver, amount, now, draws);
    RegisterPriced(wallets, live, w);
    hide Payment, Live, KeyedById, Priced, PoolApart, Pool, Keys, HonestWallet, WalletsPriced, WalletsApart;
    hide ItemsOf, Open, Unheld;
    PaymentShrinks(policy, live, wallets[w], receiver, amount, now, draws);
    var wallets' := wallets[w := after];
    OthersApart(wallets, w);
    ApartUpdate(wallets, w, after);
    forall item | item in pool && Open(wallets', item.0)
      ensures Open(wallets, item.0) && Unheld(wallets', item.0.tokenId) && item.0.tokenId !in Keys(wallets[w].utr)
    {
      OpenUpdate(wallets, w, after, item.0);
      OpenUnheld(wallets, pool, item);
      NotHeldBy(wallets, w, item.0.tokenId);
      UnheldUpdate(wallets, w, after, item.0.tokenId);
    }
    PoolUpdate(wallets, wallets', pool);
    if r.Ok? {
      PaymentHandsOut(policy, live, wallets[w], receiver, amount, now, draws);
      PoolAppend(s.bundles, r.value);
      forall item | item in ItemsOf(r.value)
        ensures Unheld(wallets', item.0.tokenId)
      {
        GivenUp(wallets, w, after, item.0.tokenId);
      }
      PoolGrows(wallets', pool, ItemsOf(r.value), Keys(wallets[w].utr));
    }
  }

  lemma GivenUp(wallets: Wallets, w: nat, w': WalletData, id: string)
    requires WalletsApart(wallets) && w < |wallets| && id in Keys(wallets[w].utr) && id !in Keys(w'.utr)
    ensures Unheld(wallets[w := w'], id)
  {
    hide Keys;
    OthersApart(wallets, w);
  }

  lemma PoolGrows(wallets: Wallets, pool: set<Item>, items: set<Item>, ids: set<string>)
    requires PoolApart(wallets, pool)
    requires forall item :: item in pool && Open(wallets, item.0) ==> item.0.tokenId !in ids
    requires forall item :: item in items ==> item.0.tokenId in ids && Unheld(wallets, item.0.tokenId)
    requires forall x, y :: (x in items && y in items && x.0.tokenId == y.0.tokenId) ==> x == y
    ensures PoolApart(wallets, pool + items)
  {
    hide Open, Unheld;
  }

  // ---------- deposits ----------

  /** No other wallet holds the token, and no transfer of it may still be accepted. */
  ghost predicate SafeDeposit(s: Network, w: nat, id: string) {
    (forall v :: 0 <= v < |s.wallets| && v != w ==> id !in Keys(s.wallets[v].utr)) &&
    (forall item :: item in Pool(s.bundles) && Open(s.wallets, item.0) ==> item.0.tokenId != id)
  }

  lemma DepositMeans(policy: PolicyConfig, w: WalletData, t: Token)
    ensures var (after, error) := Deposited(policy, w, t);
      after == if error.None? then w.(utr := Put(w.utr, t.tokenId, t)) else w
  {
  }

  /**
   receive_token looks at the owner and the cap only. A deposit it accepts keeps each token in one
   place exactly when no other wallet holds the token and no transfer of it may still be accepted.
   */
  lemma DepositOnePlaceIff(policy: PolicyConfig, s: Network, w: nat, t: Token)
    requires OnePlace(s) && w < |s.wallets| && KeyedById(s.wallets[w].utr)
    requires Deposited(policy, s.wallets[w], t).1.None?
    ensures OnePlace(s.(wallets := s.wallets[w := Deposited(policy, s.wallets[w], t).0])) <==>
      SafeDeposit(s, w, t.tokenId)
  {
    var wallets, pool := s.wallets, Pool(s.bundles);
    DepositMeans(policy, wallets[w], t);
    var after := Deposited(policy, wallets[w], t).0;
    PutEffect(wallets[w].utr, t.tokenId, t);
    assert Keys(after.utr) == Keys(wallets[w].utr) + {t.tokenId};
    hide Deposited, KeyedById, DistinctKeys, Pool, Put, Keys, Open, Unheld, PoolApart, WalletsApart;
    var wallets' := wallets[w := after];
    OthersApart(wallets, w);
    forall item | item in pool
      ensures Open(wallets', item.0) <==> Open(wallets, item.0)
    {
      OpenSame(wallets, w, after, item.0);
    }
    if SafeDeposit(s, w, t.tokenId) {
      ApartUpdate(wallets, w, after);
      forall item | item in pool && Open(wallets', item.0)
        ensures Open(wallets, item.0) && Unheld(wallets', item.0.tokenId)
      {
        OpenUnheld(wallets, pool, item);
        NotHeldBy(wallets, w, item.0.tokenId);
        UnheldUpdate(wallets, w, after, item.0.tokenId);
      }
      PoolUpdate(wallets, wallets', pool);
    }
    if OnePlace(s.(wallets := wallets')) {
      OthersApart(wallets', w);
      forall v | 0 <= v < |wallets| && v != w
        ensures t.tokenId !in Keys(wallets[v].utr)
      {
        assert wallets'[v] == wallets[v];
      }
      forall item | item in pool && Open(wallets, item.0)
        ensures item.0.tokenId != t.tokenId
      {
        OpenUnheld(wallets', pool, item);
        NotHeldBy(wallets', w, item.0.tokenId);
      }
    }
  }

  // ---------- runs ----------

  /** What the theorems assume of the start: honest wallets with different keys, and everything backed. */
  ghost predicate Started(policy: PolicyConfig, s: Network) {
    Counted(policy, s) && Backed(s) && DistinctIds(s.minted) && DistinctWallets(s.wallets)
  }

  ghost predicate FreshRun(policy: PolicyConfig, s: Network, events: seq<Event>)
    decreases |events|
  {
    events == [] || (FreshIds(s, events[0]) && FreshRun(policy, Step(policy, s, events[0]), events[1..]))
  }

  lemma StepStarted(policy: PolicyConfig, s: Network, e: Event)
    requires policy.maxHops >= 0 && Started(policy, s) && FreshIds(s, e)
    ensures Started(policy, Step(policy, s, e))
  {
    StepKeepsCount(policy, s, e);
    StepBacked(policy, s, e);
    StepDistinct(policy, s, e);
    hide Counted, Backed, DistinctIds, DistinctWallets, Step;
  }

  lemma StepBacked(policy: PolicyConfig, s: Network, e: Event)
    requires Counted(policy, s) && Backed(s) && DistinctIds(s.minted) && FreshIds(s, e)
    ensures Backed(Step(policy, s, e)) && DistinctIds(Step(policy, s, e).minted)
  {
    hide Backed, Payment, BundleReceived, HonestWallet, CountedBundle, Deposited, HopsCounted;
    match e
    case Mint(issuerPk, owner, value, draw) =>
      MintBacked(s, MintedToken(issuerPk, owner, value, draw));
    case Deposit(to, k) =>
      if to < |s.wallets| && k < |s.minted| {
        DepositBacked(policy, s, to, k);
      }
    case Pay(payer, receiver, amount, now, draws) =>
      if payer < |s.wallets| {
        PayBacked(policy, s, payer, receiver, amount, now, draws);
      }
    case Deliver(to, b, clock) =>
      if to < |s.wallets| && b < |s.bundles| {
        DeliverBacked(policy, s, to, b, |s.bundles[b].transfers|, clock);
      }
  }

  lemma StepDistinct(policy: PolicyConfig, s: Network, e: Event)
    requires DistinctWallets(s.wallets)
    ensures DistinctWallets(Step(policy, s, e).wallets)
  {
    hide DistinctWallets, SpendAll, BundleReceived, FromPool, SpendableTokens, Unspendable, Balance, Put;
    match e
    case Mint(issuerPk, owner, value, draw) =>
    case Deposit(to, k) =>
      if to < |s.wallets| && k < |s.minted| {
        DistinctUpdate(s.wallets, to, Deposited(policy, s.wallets[to], s.minted[k]).0);
      }
    case Pay(payer, receiver, amount, now, draws) =>
      if payer < |s.wallets| {
        var w := s.wallets[payer];
        PaymentOutcome(policy, w, receiver, amount, now, draws);
        var checked := w.(syncRequired := w.syncRequired + Unspendable(policy, TokensOf(w.utr), now));
        SpendAllKey(checked, receiver, Selected(policy, w, amount, now), draws);
        DistinctUpdate(s.wallets, payer, Payment(policy, w, receiver, amount, now, draws).0);
      }
    case Deliver(to, b, clock) =>
      if to < |s.wallets| && b < |s.bundles| {
        ReceivedKey(policy, s.wallets[to], s.bundles[b], |s.bundles[b].transfers|, clock);
        DistinctUpdate(s.wallets, to,
                       BundleReceived(policy, s.wallets[to], s.bundles[b], |s.bundles[b].transfers|, clock).0);
      }
  }

  lemma {:induction false} SpendAllKey(w: WalletData, receiver: Key, selected: seq<Token>, draws: nat -> TransferDraw)
    ensures SpendAll(w, receiver, selected, draws).0.publicKey == w.publicKey
  {
    if selected == [] {
    } else {
      SpendAllKey(w, receiver, selected[..|selected| - 1], draws);
    }
  }

  /** The event deposits a minted token that the wallet would take in although the token is elsewhere. */
  ghost predicate Doubles(policy: PolicyConfig, s: Network, e: Event) {
    e.Deposit? && e.depositedBy < |s.wallets| && e.token < |s.minted| &&
    var (w, t) := (s.wallets[e.depositedBy], s.minted[e.token]);
    t.currentOwner == w.publicKey && Balance(w.utr) + t.value <= policy.maxBalance &&
    !SafeDeposit(s, e.depositedBy, t.tokenId)
  }

  lemma StepOnePlaceIff(policy: PolicyConfig, s: Network, e: Event)
    requires Started(policy, s) && OnePlace(s)
    ensures OnePlace(Step(policy, s, e)) <==> !Doubles(policy, s, e)
  {
    hide OnePlace, Backed, DistinctWallets, Payment, BundleReceived;
    hide CountedBundle, Balance, Put, SafeDeposit, KeyedById;
    match e
    case Mint(issuerPk, owner, value, draw) =>
      SamePlaces(s, s.minted + [MintedToken(issuerPk, owner, value, draw)]);
    case Deposit(to, k) =>
      if to < |s.wallets| && k < |s.minted| {
        if Deposited(policy, s.wallets[to], s.minted[k]).1.None? {
          HonestKeyed(policy, s, to);
          DepositOnePlaceIff(policy, s, to, s.minted[k]);
        } else {
          assert s.wallets[to := s.wallets[to]] == s.wallets;
        }
      }
    case Pay(payer, receiver, amount, now, draws) =>
      if payer < |s.wallets| {
        PayOnePlace(policy, s, payer, receiver, amount, now, draws);
      }
    case Deliver(to, b, clock) =>
      if to < |s.wallets| && b < |s.bundles| {
        DeliverOnePlace(policy, s, to, b, |s.bundles[b].transfers|, clock);
      }
  }

  lemma SamePlaces(s: Network, minted: seq<Token>)
    ensures OnePlace(s.(minted := minted)) <==> OnePlace(s)
  {
  }

  lemma HonestKeyed(policy: PolicyConfig, s: Network, w: nat)
    requires Counted(policy, s) && w < |s.wallets|
    ensures KeyedById(s.wallets[w].utr)
  {
    assert HonestWallet(policy, s.wallets[w]);
  }

  ghost predicate AlwaysOnePlace(policy: PolicyConfig, s: Network, events: seq<Event>)
    decreases |events|
  {
    OnePlace(s) && (events == [] || AlwaysOnePlace(policy, Step(policy, s, events[0]), events[1..]))
  }

  ghost predicate NeverDoubles(policy: PolicyConfig, s: Network, events: seq<Event>)
    decreases |events|
  {
    events == [] || (!Doubles(policy, s, events[0]) && NeverDoubles(policy, Step(policy, s, events[0]), events[1..]))
  }

  /**
   Whatever is minted, deposited, paid, delivered late, twice or never: each token stays in one
   place throughout the run exactly when no deposit takes in a token that is held by another wallet
   or still on its way.
   */
  lemma {:induction false} OnePlaceIff(policy: PolicyConfig, s: Network, events: seq<Event>)
    requires policy.maxHops >= 0 && Started(policy, s) && OnePlace(s) && FreshRun(policy, s, events)
    ensures AlwaysOnePlace(policy, s, events) <==> NeverDoubles(policy, s, events)
    decreases |events|
  {
    hide Started, OnePlace, Doubles, Step, FreshIds;
    if events == [] {
    } else {
      StepOnePlaceIff(policy, s, events[0]);
      StepStarted(policy, s, events[0]);
      if !Doubles(policy, s, events[0]) {
        OnePlaceIff(policy, Step(policy, s, events[0]), events[1..]);
      }
    }
  }

  lemma {:induction false} RunOnePlace(policy: PolicyConfig, s: Network, events: seq<Event>)
    requires policy.maxHops >= 0 && Started(policy, s) && OnePlace(s) && FreshRun(policy, s, events)
    requires NeverDoubles(policy, s, events)
    ensures Started(policy, Run(policy, s, events)) && OnePlace(Run(policy, s, events))
    decreases |events|
  {
    hide Started, OnePlace, Doubles, Step, FreshIds;
    if events == [] {
    } else {
      StepOnePlaceIff(policy, s, events[0]);
      StepStarted(policy, s, events[0]);
      RunOnePlace(policy, Step(policy, s, events[0]), events[1..]);
    }
  }

  // ---------- conservation ----------

  /** Everything the issuer minted */
  function MintedTotal(events: seq<Event>): int
    decreases |events|
  {
    if events == [] then 0 else (if events[0].Mint? then events[0].value else 0) + MintedTotal(events[1..])
  }

  /** Minted values are not negative. */
  ghost predicate SoundMints(events: seq<Event>) {
    forall i :: 0 <= i < |events| && events[i].Mint? ==> events[i].value >= 0
  }

  ghost predicate NonNegativeValues(live: map<string, int>) {
    forall id :: id in live ==> live[id] >= 0
  }

  lemma {:induction false} MintedIsLive(policy: PolicyConfig, s: Network, events: seq<Event>)
    requires FreshRun(policy, s, events)
    ensures Total(Live(Run(policy, s, events).minted)) == Total(Live(s.minted)) + MintedTotal(events)
    ensures NonNegativeValues(Live(s.minted)) && SoundMints(events) ==>
      NonNegativeValues(Live(Run(policy, s, events).minted))
    decreases |events|
  {
    hide Total, Live, NonNegativeValues;
    if events == [] {
    } else {
      var e := events[0];
      StepMints(policy, s, e);
      MintedIsLive(policy, Step(policy, s, e), events[1..]);
      hide Step;
      assert SoundMints(events) ==> SoundMints(events[1..]) && (e.Mint? ==> e.value >= 0);
    }
  }

  lemma StepMints(policy: PolicyConfig, s: Network, e: Event)
    requires FreshIds(s, e)
    ensures Total(Live(Step(policy, s, e).minted)) == Total(Live(s.minted)) + if e.Mint? then e.value else 0
    ensures NonNegativeValues(Live(s.minted)) && (e.Mint? ==> e.value >= 0) ==>
      NonNegativeValues(Live(Step(policy, s, e).minted))
  {
    hide Total, Payment, BundleReceived, Deposited;
    if e.Mint? {
      var t := MintedToken(e.issuerPk, e.owner, e.value, e.draw);
      LiveAppend(s.minted, t);
      LiveIds(s.minted);
      TotalPut(Live(s.minted), t.tokenId, t.value);
    }
  }

  ghost function HeldTotal(wallets: Wallets): int {
    if wallets == [] then 0 else HeldTotal(wallets[..|wallets| - 1]) + Balance(wallets[|wallets| - 1].utr)
  }

  /** A register worth what a map says is worth its part of the map's total. */
  lemma {:induction false} BalanceWithin(live: map<string, int>, d: Dict<Token>)
    requires DistinctKeys(d) && Priced(live, d)
    ensures Total(live) == Balance(d) + Total(live - Keys(d))
  {
    hide Total;
    if d == [] {
      assert live - Keys(d) == live;
    } else {
      var n := |d| - 1;
      var (front, last) := (d[..n], d[n]);
      BalanceWithin(live, front);
      assert d == front + [last];
      MappingLast(front, last);
      BalanceLast(front, last);
      NewKey(front, last.0);
      TotalSplit(live - Keys(front), last.0);
      assert live - Keys(front) - {last.0} == live - Keys(d);
    }
  }

  lemma BalanceLast(d: Dict<Token>, entry: (string, Token))
    ensures Balance(d + [entry]) == Balance(d) + entry.1.value
  {
    assert ValuesOf(TokensOf(d + [entry])) == ValuesOf(TokensOf(d)) + [entry.1.value];
    SumConcat(ValuesOf(TokensOf(d)), [entry.1.value]);
    assert Sum([entry.1.value]) == entry.1.value;
  }

  lemma {:induction false} HeldAtMostLive(wallets: Wallets, live: map<string, int>)
    requires WalletsApart(wallets) && WalletsPriced(wallets, live) && NonNegativeValues(live)
    ensures HeldTotal(wallets) <= Total(live)
  {
    hide Balance, Keys;
    if wallets == [] {
      TotalNonNegative(live);
    } else {
      var n := |wallets| - 1;
      var last := wallets[n].utr;
      BalanceWithin(live, last);
      OthersApart(wallets, n);
      forall w | 0 <= w < n
        ensures Priced(live - Keys(last), wallets[..n][w].utr)
      {
        PricedApart(live, wallets[w].utr, Keys(last));
      }
      HeldAtMostLive(wallets[..n], live - Keys(last));
    }
  }

  lemma PricedApart(live: map<string, int>, d: Dict<Token>, ids: set<string>)
    requires Priced(live, d) && Keys(d) !! ids
    ensures Priced(live - ids, d)
  {
    MappingAt(d);
  }

  /** No token id is in two unspent registers. */
  ghost predicate SingleCustody(wallets: Wallets) {
    forall i, j, id ::
      (0 <= i < |wallets| && 0 <= j < |wallets| && id in Keys(wallets[i].utr) && id in Keys(wallets[j].utr)) ==> i == j
  }

  lemma ApartIsSingle(wallets: Wallets)
    requires WalletsApart(wallets)
    ensures SingleCustody(wallets)
  {
    hide Keys;
    forall i | 0 <= i < |wallets|
      ensures forall j :: 0 <= j < |wallets| && j != i ==> Keys(wallets[j].utr) !! Keys(wallets[i].utr)
    {
      OthersApart(wallets, i);
    }
  }

  /** One deposit of any token, minted or not, keeps single custody exactly when no other wallet holds the token. */
  lemma DepositKeepsSingleIff(policy: PolicyConfig, wallets: Wallets, w: nat, t: Token)
    requires SingleCustody(wallets) && w < |wallets| && KeyedById(wallets[w].utr)
    requires Deposited(policy, wallets[w], t).1.None?
    ensures SingleCustody(wallets[w := Deposited(policy, wallets[w], t).0]) <==>
      forall v :: 0 <= v < |wallets| && v != w ==> t.tokenId !in Keys(wallets[v].utr)
  {
    DepositMeans(policy, wallets[w], t);
    PutEffect(wallets[w].utr, t.tokenId, t);
    var after := Deposited(policy, wallets[w], t).0;
    assert Keys(after.utr) == Keys(wallets[w].utr) + {t.tokenId};
    hide Deposited, KeyedById, DistinctKeys, Put, Keys;
    var wallets' := wallets[w := after];
    assert forall v :: 0 <= v < |wallets| && v != w ==> wallets'[v] == wallets[v];
    assert t.tokenId in Keys(wallets'[w].utr);
  }

  /** New wallets with the given keys */
  function EmptyNetwork(keys: seq<Key>): Network {
    Network(seq(|keys|, i requires 0 <= i < |keys| => WalletData(keys[i], [], [], map[], map[], {}, {})), [], [])
  }

  /**
   Custody over whole runs of wallets with different keys, as long as no deposit takes in a token
   that is elsewhere: no token is in two unspent registers, and unless a negative token was minted
   the wallets never hold more than was minted. Only the minted ids need to be new.
   */
  lemma NetworkCustody(policy: PolicyConfig, keys: seq<Key>, events: seq<Event>)
    requires policy.maxHops >= 0 && NoDuplicates(keys) && FreshRun(policy, EmptyNetwork(keys), events)
    requires NeverDoubles(policy, EmptyNetwork(keys), events)
    ensures var s := Run(policy, EmptyNetwork(keys), events);
      SingleCustody(s.wallets) && (SoundMints(events) ==> HeldTotal(s.wallets) <= MintedTotal(events))
  {
    NothingTotal();
    EmptyStarted(policy, keys);
    hide Run, FreshRun, NeverDoubles, WalletsApart, WalletsPriced, PoolApart, PoolPriced, Total, Live, Keys, Pool;
    hide EmptyNetwork, MintedTotal, Counted, NoDuplicates, SingleCustody, SoundMints, NonNegativeValues;
    RunOnePlace(policy, EmptyNetwork(keys), events);
    MintedIsLive(policy, EmptyNetwork(keys), events);
    var s := Run(policy, EmptyNetwork(keys), events);
    ApartIsSingle(s.wallets);
    if SoundMints(events) {
      HeldAtMostLive(s.wallets, Live(s.minted));
    }
  }

  lemma EmptyStarted(policy: PolicyConfig, keys: seq<Key>)
    requires NoDuplicates(keys)
    ensures var s := EmptyNetwork(keys);
      Started(policy, s) && OnePlace(s) && Live(s.minted) == map[] && NonNegativeValues(Live(s.minted))
  {
  }

  // ---------- each token deposited once ----------

  /** No minted token is deposited twice. */
  ghost predicate DepositedOnce(events: seq<Event>) {
    forall i, j :: 0 <= i < j < |events| && events[i].Deposit? && events[j].Deposit? ==>
      events[i].token != events[j].token
  }

  /** Everything held or on its way is one of the minted tokens at the given positions. */
  ghost predicate BackedBy(s: Network, used: seq<nat>) {
    (forall i :: 0 <= i < |used| ==> used[i] < |s.minted|) && NoDuplicates(used) &&
    Backed(s.(minted := At(s.minted, used)))
  }

  /** A token that was not deposited before is nowhere. */
  lemma UndepositedIsSafe(s: Network, used: seq<nat>, w: nat, k: nat)
    requires BackedBy(s, used) && DistinctIds(s.minted) && k < |s.minted| && k !in used
    ensures SafeDeposit(s, w, s.minted[k].tokenId)
  {
    var some := At(s.minted, used);
    var id := s.minted[k].tokenId;
    LiveIds(some);
    assert id !in Live(some);
    hide Live, Pool, Open, DistinctIds, NoDuplicates, KeyedById;
    forall v | 0 <= v < |s.wallets|
      ensures id !in Keys(s.wallets[v].utr)
    {
      RegisterPriced(s.wallets, Live(some), v);
      MappingAt(s.wallets[v].utr);
    }
  }

  lemma DepositBackedBy(policy: PolicyConfig, s: Network, used: seq<nat>, w: nat, k: nat)
    requires BackedBy(s, used) && DistinctIds(s.minted) && w < |s.wallets| && k < |s.minted| && k !in used
    ensures BackedBy(Step(policy, s, Deposit(w, k)), used + [k])
  {
    var (some, t) := (At(s.minted, used), s.minted[k]);
    assert DistinctIds(some);
    assert At(s.minted, used + [k]) == some + [t];
    hide Backed, Deposited;
    MintBacked(s.(minted := some), t);
    DepositBacked(policy, s.(minted := some + [t]), w, |some|);
  }

  /** Only minting and depositing look at what was minted. */
  lemma OtherStepBackedBy(policy: PolicyConfig, s: Network, used: seq<nat>, e: Event)
    requires Counted(policy, s) && BackedBy(s, used) && DistinctIds(s.minted) && !e.Deposit?
    ensures BackedBy(Step(policy, s, e), used)
  {
    var some := s.(minted := At(s.minted, used));
    assert DistinctIds(some.minted) && Counted(policy, some);
    hide Backed, Counted, DistinctIds, Payment, BundleReceived;
    if e.Mint? {
      assert At(Step(policy, s, e).minted, used) == some.minted;
    } else {
      StepBacked(policy, some, e);
    }
  }

  lemma {:induction false} OnceNeverDoubles(policy: PolicyConfig, s: Network, used: seq<nat>, events: seq<Event>)
    requires policy.maxHops >= 0 && Started(policy, s) && BackedBy(s, used) && FreshRun(policy, s, events)
    requires DepositedOnce(events) && forall i :: 0 <= i < |events| && events[i].Deposit? ==> events[i].token !in used
    ensures NeverDoubles(policy, s, events)
    decreases |events|
  {
    hide Counted, Backed, DistinctWallets, DistinctIds, FreshIds, SafeDeposit, BackedBy, Step;
    if events == [] {
    } else {
      var e := events[0];
      var next := Step(policy, s, e);
      StepStarted(policy, s, e);
      if e.Deposit? && e.depositedBy < |s.wallets| && e.token < |s.minted| {
        UndepositedIsSafe(s, used, e.depositedBy, e.token);
        DepositBackedBy(policy, s, used, e.depositedBy, e.token);
        OnceNeverDoubles(policy, next, used + [e.token], events[1..]);
      } else {
        IdleBackedBy(policy, s, used, e);
        OnceNeverDoubles(policy, next, used, events[1..]);
      }
    }
  }

  lemma IdleBackedBy(policy: PolicyConfig, s: Network, used: seq<nat>, e: Event)
    requires Counted(policy, s) && BackedBy(s, used) && DistinctIds(s.minted)
    requires e.Deposit? ==> e.depositedBy >= |s.wallets| || e.token >= |s.minted|
    ensures BackedBy(Step(policy, s, e), used)
  {
    hide BackedBy, Counted, DistinctIds, Payment, BundleReceived;
    if !e.Deposit? {
      OtherStepBackedBy(policy, s, used, e);
    }
  }

  /**
   A condition on the events alone: when every minted token is deposited at most once, whatever
   else happens, custody is single and no more is held than was minted.
   */
  lemma DepositedOnceIsCustody(policy: PolicyConfig, keys: seq<Key>, events: seq<Event>)
    requires policy.maxHops >= 0 && NoDuplicates(keys) && FreshRun(policy, EmptyNetwork(keys), events)
    requires DepositedOnce(events)
    ensures var s := Run(policy, EmptyNetwork(keys), events);
      SingleCustody(s.wallets) && (SoundMints(events) ==> HeldTotal(s.wallets) <= MintedTotal(events))
  {
    EmptyStarted(policy, keys);
    assert At(EmptyNetwork(keys).minted, []) == EmptyNetwork(keys).minted;
    hide Run, FreshRun, NeverDoubles, Counted, Backed, DistinctWallets, DistinctIds, OnePlace, Live;
    hide SingleCustody, SoundMints, HeldTotal, MintedTotal;
    OnceNeverDoubles(policy, EmptyNetwork(keys), [], events);
    NetworkCustody(policy, keys, events);
  }

  // ---------- a token deposited twice ----------

  function ExamplePolicy(): PolicyConfig {
    PolicyConfig(1000, 7, 10000, 100)
  }

  function ExampleToken(): Token {
    MintedToken("issuer", "A", 5, MintDraw("t", 0, 0))
  }

  function ExampleDraws(): nat -> TransferDraw {
    (n: nat) => TransferDraw("x", 0)
  }

  function ExampleTransfer(): Transfer {
    TransferOf("A", "B", ExampleToken(), TransferDraw("x", 0))
  }

  function ExampleBundle(): PaymentBundle {
    PaymentBundle([ExampleTransfer()], map["t" := Outbound(ExampleToken(), "B")])
  }

  function ExampleWallet(key: Key, utr: Dict<Token>): WalletData {
    WalletData(key, utr, [], map[], map[], {}, {})
  }

  /** A minted token is deposited, paid on, received, and deposited a second time. */
  function ExampleRun(): seq<Event> {
    [Mint("issuer", "A", 5, MintDraw("t", 0, 0)), Deposit(0, 0), Pay(0, "B", 5, 0, ExampleDraws()),
     Deliver(1, 0, (n: nat) => Reading(0, 0)), Deposit(0, 0)]
  }

  lemma ExampleDeposited(w: WalletData)
    requires w.publicKey == "A" && w.utr == []
    ensures Deposited(ExamplePolicy(), w, ExampleToken()) == (w.(utr := [("t", ExampleToken())]), None)
  {
    assert Put([], "t", ExampleToken()) == [("t", ExampleToken())];
    assert ValuesOf(TokensOf([])) == [];
  }

  lemma ExamplePaid()
    ensures var w := ExampleWallet("A", [("t", ExampleToken())]);
      Payment(ExamplePolicy(), w, "B", 5, 0, ExampleDraws()) ==
        (ExampleWallet("A", []).(spent := [("t", ExampleToken())]), Ok(ExampleBundle()))
  {
    var t := ExampleToken();
    var w := ExampleWallet("A", [("t", t)]);
    assert TokensOf(w.utr) == [t];
    ExampleSelected();
    var checked := w.(syncRequired := w.syncRequired + Unspendable(ExamplePolicy(), [t], 0));
    assert checked == w;
    assert [t][..0] == [];
    assert SpendAll(w, "B", [], ExampleDraws()) == (w, PaymentBundle([], map[]));
    assert Pop(w.utr, "t") == [] && Put([], "t", t) == [("t", t)];
    hide FromPool, SpendableTokens;
    assert SpendAll(w, "B", [t], ExampleDraws()).1 == ExampleBundle();
  }

  lemma ExampleSelected()
    ensures SpendableTokens(ExamplePolicy(), [ExampleToken()], 0) == [ExampleToken()]
    ensures FromPool([ExampleToken()], 5) == Some([ExampleToken()])
  {
    var t := ExampleToken();
    assert [t][..0] == [] && SpendableTokens(ExamplePolicy(), [], 0) == [];
    assert ValuesOf([t]) == [5];
    assert Selection.Order([5]) == [0];
    var sorted := At([t], Selection.Order([5]));
    assert sorted == [t] && sorted[..1] == [t];
    assert Selection.CoverLength([5], 5) == Some(1);
  }

  lemma ExampleReceived(clock: nat -> Reading)
    requires clock(0) == Reading(0, 0)
    ensures var w := ExampleWallet("B", []);
      var after := BundleReceived(ExamplePolicy(), w, ExampleBundle(), 1, clock).0;
      after.publicKey == "B" && after.utr == [("t", Kept("B", ExampleTransfer(), Outbound(ExampleToken(), "B")))]
  {
    var w := ExampleWallet("B", []);
    assert ValuesOf(TokensOf(w.utr)) == [];
    assert BundleReceived(ExamplePolicy(), w, ExampleBundle(), 0, clock) == (w, Ok([]));
  }

  lemma ExampleHeld(wallets: Wallets)
    requires |wallets| == 2 && |wallets[0].utr| == |wallets[1].utr| == 1
    requires forall i :: 0 <= i < 2 ==> wallets[i].utr[0].0 == "t" && wallets[i].utr[0].1.value == 5
    ensures HeldTotal(wallets) == 10 && "t" in Keys(wallets[0].utr) && "t" in Keys(wallets[1].utr)
  {
    MappingAt(wallets[0].utr);
    MappingAt(wallets[1].utr);
    assert wallets[0].utr[0].0 in Keys(wallets[0].utr) && wallets[1].utr[0].0 in Keys(wallets[1].utr);
    assert ValuesOf(TokensOf(wallets[0].utr)) == [5] && ValuesOf(TokensOf(wallets[1].utr)) == [5];
    assert Sum([5]) == 5 + Sum([]);
    assert wallets[..1][..0] == [];
    assert HeldTotal(wallets[..1]) == HeldTotal([]) + Balance(wallets[0].utr);
  }

  /** A run of five events that mints once, at the start */
  lemma FiveSteps(policy: PolicyConfig, s: Network, events: seq<Event>)
    requires |events| == 5 && events[0].Mint? && s.minted == [] && forall i :: 1 <= i < 5 ==> !events[i].Mint?
    ensures Run(policy, s, events) ==
      Step(policy, Step(policy, Step(policy, Step(policy, Step(policy, s, events[0]), events[1]), events[2]),
                        events[3]), events[4])
    ensures FreshRun(policy, s, events) && MintedTotal(events) == events[0].value
  {
    hide Step;
    NoMints(policy, Step(policy, s, events[0]), events[1..]);
    RunOne(policy, s, events);
    var s1 := Step(policy, s, events[0]);
    RunOne(policy, s1, events[1..]);
    var s2 := Step(policy, s1, events[1]);
    RunOne(policy, s2, events[2..]);
    var s3 := Step(policy, s2, events[2]);
    RunOne(policy, s3, events[3..]);
    RunOne(policy, Step(policy, s3, events[3]), events[4..]);
    assert events[4..][1..] == [];
  }

  lemma RunOne(policy: PolicyConfig, s: Network, events: seq<Event>)
    requires events != []
    ensures Run(policy, s, events) == Run(policy, Step(policy, s, events[0]), events[1..])
  {
  }

  lemma {:induction false} NoMints(policy: PolicyConfig, s: Network, events: seq<Event>)
    requires forall i :: 0 <= i < |events| ==> !events[i].Mint?
    ensures FreshRun(policy, s, events) && MintedTotal(events) == 0
    decreases |events|
  {
    hide Step;
    if events == [] {
    } else {
      NoMints(policy, Step(policy, s, events[0]), events[1..]);
    }
  }

  function ExampleNetwork(a: Dict<Token>, spent: Dict<Token>, b: Dict<Token>, bundles: seq<PaymentBundle>): Network {
    Network([ExampleWallet("A", a).(spent := spent), ExampleWallet("B", b)], bundles, [ExampleToken()])
  }

  lemma ExampleStart()
    ensures EmptyNetwork(["A", "B"]).minted == []
    ensures var s1 := Step(ExamplePolicy(), EmptyNetwork(["A", "B"]), ExampleRun()[0]);
      Step(ExamplePolicy(), s1, ExampleRun()[1]) == ExampleNetwork([("t", ExampleToken())], [], [], [])
  {
    hide Deposited;
    var s := EmptyNetwork(["A", "B"]);
    assert s.wallets == [ExampleWallet("A", []), ExampleWallet("B", [])];
    ExampleDeposited(s.wallets[0]);
  }

  lemma ExamplePay()
    ensures Step(ExamplePolicy(), ExampleNetwork([("t", ExampleToken())], [], [], []), ExampleRun()[2]) ==
      ExampleNetwork([], [("t", ExampleToken())], [], [ExampleBundle()])
  {
    hide Payment, ExampleToken, ExampleBundle, ExamplePolicy;
    ExamplePaid();
  }

  lemma ExampleDeliver(clock: nat -> Reading)
    requires clock(0) == Reading(0, 0)
    ensures var s := ExampleNetwork([], [("t", ExampleToken())], [], [ExampleBundle()]);
      var s' := Step(ExamplePolicy(), s, Deliver(1, 0, clock));
      s'.minted == s.minted && |s'.wallets| == 2 && s'.wallets[0] == s.wallets[0] && ExampleHolds(s'.wallets[1])
  {
    hide BundleReceived;
    ExampleReceived(clock);
  }

  ghost predicate ExampleHolds(w: WalletData) {
    |w.utr| == 1 && w.utr[0].0 == "t" && w.utr[0].1.value == 5
  }

  lemma ExampleAgain(s: Network)
    requires |s.wallets| == 2 && s.minted == [ExampleToken()] && ExampleHolds(s.wallets[1])
    requires s.wallets[0].publicKey == "A" && s.wallets[0].utr == []
    ensures var s' := Step(ExamplePolicy(), s, Deposit(0, 0));
      |s'.wallets| == 2 && "t" in Keys(s'.wallets[0].utr) && "t" in Keys(s'.wallets[1].utr) &&
      HeldTotal(s'.wallets) == 10
  {
    ExampleDeposited(s.wallets[0]);
    hide Deposited;
    ExampleHeld(Step(ExamplePolicy(), s, Deposit(0, 0)).wallets);
  }

  /**
   Without the condition on deposits: in a run of five events a token worth 5 is minted once, and
   then both wallets hold it, 10 in all.
   */
  lemma RedepositDoubles()
    ensures var s := Run(ExamplePolicy(), EmptyNetwork(["A", "B"]), ExampleRun());
      FreshRun(ExamplePolicy(), EmptyNetwork(["A", "B"]), ExampleRun()) && |s.wallets| == 2 &&
      "t" in Keys(s.wallets[0].utr) && "t" in Keys(s.wallets[1].utr) &&
      MintedTotal(ExampleRun()) == 5 && HeldTotal(s.wallets) == 10
  {
    var (policy, events) := (ExamplePolicy(), ExampleRun());
    ExampleStart();
    hide Step, ExampleToken, ExampleBundle, ExamplePolicy, EmptyNetwork;
    var s2 := ExampleNetwork([("t", ExampleToken())], [], [], []);
    ExamplePay();
    var s3 := ExampleNetwork([], [("t", ExampleToken())], [], [ExampleBundle()]);
    var s4 := Step(policy, s3, events[3]);
    ExampleDeliver(events[3].clock);
    ExampleAgain(s4);
    FiveSteps(policy, EmptyNetwork(["A", "B"]), events);
  }
}
