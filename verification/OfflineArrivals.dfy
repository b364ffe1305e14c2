/**
 What the offline wallet accepts from anyone (wallet/offline_wallet.py:114-190): the exact condition, and that no
 token gets into a wallet that was not deposited or signed over to it, whatever bundles are delivered.
 */
module OfflineArrivals {
  import opened Basics
  import opened Dicts
  import opened PocModels
  import opened OfflineWallet
  import opened OfflineRuns

  // ---------- one transfer ----------

  /** The sender's key signed exactly this transfer. */
  ghost predicate SignedOff(transfer: Transfer) {
    transfer.signature == Signed(transfer.body.senderPk, TransferMessage(transfer.body))
  }

  /** The transfer continues the token's last one. */
  ghost predicate Continues(b: TransferBody, t: Token) {
    b.parentTransferId == t.lastTransferId && b.parentTransferHash == t.lastTransferHash &&
    b.prevTransferHash == t.lastTransferHash
  }

  /** Created and issued no longer ago than the expiry period; the age of the issue counts whole seconds. */
  ghost predicate Young(policy: PolicyConfig, t: Token, now: Reading) {
    now.first - t.createdAt <= policy.tokenExpirySeconds * 1_000_000 &&
    now.second / 1_000_000 - t.issueTimestamp <= policy.tokenExpirySeconds
  }

  /**
   Any transfer of any token, whoever made them: it is accepted exactly when its id is new, it is for this
   wallet, both its counts are within the hop limit, it continues the token's last transfer, the token is
   young enough, the sender's key signed it and the value fits under the cap. The first of these that
   fails is the reason.
   */
  lemma AppliedIff(policy: PolicyConfig, w: WalletData, transfer: Transfer, t: Token, now: Reading)
    ensures var (reason, b) := (Applied(policy, w, transfer, t, now).1, transfer.body);
      var addressed := b.transferId !in w.processed && b.receiverPk == w.publicKey;
      var near := b.hopCount <= policy.maxHops && b.nonce <= policy.maxHops;
      var valid := addressed && near && Continues(b, t) && Young(policy, t, now) && SignedOff(transfer);
      var fits := Balance(w.utr) + t.value <= policy.maxBalance;
      (reason == Accepted <==> valid && fits) && (reason == MaxBalanceExceeded <==> valid && !fits) &&
      (reason == ReplayTransferId <==> b.transferId in w.processed) &&
      (reason == WrongReceiver <==> b.transferId !in w.processed && b.receiverPk != w.publicKey) &&
      (reason == Reason.MaxHopsExceeded <==> addressed && !near) &&
      (reason == Reason.TokenExpired <==> addressed && near && Continues(b, t) && !Young(policy, t, now)) &&
      (reason == Reason.BadTransferSig <==>
        addressed && near && Continues(b, t) && Young(policy, t, now) && !SignedOff(transfer))
    ensures var (reason, b) := (Applied(policy, w, transfer, t, now).1, transfer.body);
      var ahead := b.transferId !in w.processed && b.receiverPk == w.publicKey && b.hopCount <= policy.maxHops &&
        b.nonce <= policy.maxHops;
      (reason == Reason.BrokenParentLink <==> ahead && b.parentTransferId != t.lastTransferId) &&
      (reason == Reason.BrokenParentHashLink <==>
        ahead && b.parentTransferId == t.lastTransferId && b.parentTransferHash != t.lastTransferHash) &&
      (reason == Reason.BrokenHashLink <==>
        ahead && b.parentTransferId == t.lastTransferId && b.parentTransferHash == t.lastTransferHash &&
        b.prevTransferHash != t.lastTransferHash)
  {
    hide Balance, Put, Kept;
  }

  /** What an accepted transfer changes: the token is stored under its own id, with this transfer as its last. */
  lemma AppliedEffect(policy: PolicyConfig, w: WalletData, transfer: Transfer, t: Token, now: Reading)
    requires DistinctKeys(w.utr)
    ensures var ((after, reason), id) := (Applied(policy, w, transfer, t, now), transfer.body.transferId);
      var stored := t.(currentOwner := w.publicKey, lastTransferId := Some(id),
                       lastTransferHash := Some(HashOf(transfer)), hopCount := t.hopCount + 1);
      (reason != Accepted ==> after == w) &&
      (reason == Accepted ==>
        Mapping(after.utr) == Mapping(w.utr)[t.tokenId := stored] &&
        after == w.(utr := after.utr, history := w.history[t.tokenId := id],
                    hashes := w.hashes[id := HashOf(transfer)], processed := w.processed + {id}))
  {
    hide Put, Mapping, Balance, Verdict, DistinctKeys;
    PutEffect(w.utr, t.tokenId, Kept(w.publicKey, transfer, t));
  }

  // ---------- bundles are runs of single transfers ----------

  /** Transfers applied one after the other, the first one first */
  function AppliedAll(policy: PolicyConfig, w: WalletData, items: seq<(Transfer, Token, Reading)>)
    : (WalletData, seq<(string, Reason)>)
    decreases |items|
  {
    if items == [] then (w, []) else
      var (next, reason) := Applied(policy, w, items[0].0, items[0].1, items[0].2);
      var (last, rest) := AppliedAll(policy, next, items[1..]);
      (last, [(items[0].0.body.transferId, reason)] + rest)
  }

  lemma {:induction false} AppliedLast(policy: PolicyConfig, w: WalletData, items: seq<(Transfer, Token, Reading)>,
                                       item: (Transfer, Token, Reading))
    ensures var (before, reasons) := AppliedAll(policy, w, items);
      var (after, reason) := Applied(policy, before, item.0, item.1, item.2);
      AppliedAll(policy, w, items + [item]) == (after, reasons + [(item.0.body.transferId, reason)])
    decreases |items|
  {
    hide Applied;
    if items == [] {
      assert items + [item] == [item] && [item][1..] == [];
      var (after, reason) := Applied(policy, w, item.0, item.1, item.2);
      assert AppliedAll(policy, after, [item][1..]) == (after, []);
      assert [(item.0.body.transferId, reason)] + [] == [] + [(item.0.body.transferId, reason)];
    } else {
      assert (items + [item])[1..] == items[1..] + [item];
      var (next, reason) := Applied(policy, w, items[0].0, items[0].1, items[0].2);
      AppliedLast(policy, next, items[1..], item);
      var (before, reasons) := AppliedAll(policy, next, items[1..]);
      var last := (item.0.body.transferId, Applied(policy, before, item.0, item.1, item.2).1);
      var first := (items[0].0.body.transferId, reason);
      assert [first] + (reasons + [last]) == [first] + reasons + [last];
    }
  }

  /** The first n transfers of the bundle come with their tokens. */
  ghost predicate Complete(bundle: PaymentBundle, n: nat)
    requires n <= |bundle.transfers|
  {
    forall i :: 0 <= i < n ==> bundle.transfers[i].body.tokenId in bundle.tokens
  }

  /** The first n transfers with their tokens and clock readings */
  function ItemsOf(bundle: PaymentBundle, n: nat, clock: nat -> Reading): (items: seq<(Transfer, Token, Reading)>)
    requires n <= |bundle.transfers| && Complete(bundle, n)
    ensures |items| == n
  {
    seq(n, i requires 0 <= i < n =>
      (bundle.transfers[i], bundle.tokens[bundle.transfers[i].body.tokenId], clock(i)))
  }

  /** A bundle is received like its transfers one by one; the first one without its token ends it. */
  lemma {:induction false} ReceivedIsRun(policy: PolicyConfig, w: WalletData, bundle: PaymentBundle, n: nat,
                                         clock: nat -> Reading)
    requires n <= |bundle.transfers| && Complete(bundle, n)
    ensures var (after, reasons) := AppliedAll(policy, w, ItemsOf(bundle, n, clock));
      BundleReceived(policy, w, bundle, n, clock) == (after, Ok(reasons)) &&
      forall m: nat :: n < m <= |bundle.transfers| && bundle.transfers[n].body.tokenId !in bundle.tokens ==>
        BundleReceived(policy, w, bundle, m, clock) == (after, Err(MissingToken))
  {
    hide Applied;
    if n == 0 {
    } else {
      ReceivedIsRun(policy, w, bundle, n - 1, clock);
      var transfer := bundle.transfers[n - 1];
      var item := (transfer, bundle.tokens[transfer.body.tokenId], clock(n - 1));
      AppliedLast(policy, w, ItemsOf(bundle, n - 1, clock), item);
      assert ItemsOf(bundle, n, clock) == ItemsOf(bundle, n - 1, clock) + [item];
    }
    forall m: nat | n < m <= |bundle.transfers| && bundle.transfers[n].body.tokenId !in bundle.tokens
      ensures BundleReceived(policy, w, bundle, m, clock) ==
        (BundleReceived(policy, w, bundle, n, clock).0, Err(MissingToken))
    {
      hide AppliedAll;
      MissingEnds(policy, w, bundle, n + 1, m, clock);
    }
  }

  // ---------- runs with arbitrary bundles ----------

  datatype AnyEvent =
    | Ordinary(event: Event)
    | Arrive(wallet: nat, bundle: PaymentBundle, clock: nat -> Reading)

  function AnyStep(policy: PolicyConfig, s: Network, e: AnyEvent): Network {
    match e
    case Ordinary(event) => Step(policy, s, event)
    case Arrive(w, bundle, clock) =>
      if w >= |s.wallets| then s else
        s.(wallets := s.wallets[w := BundleReceived(policy, s.wallets[w], bundle, |bundle.transfers|, clock).0])
  }

  function AnyRun(policy: PolicyConfig, s: Network, events: seq<AnyEvent>): Network
    decreases |events|
  {
    if events == [] then s else AnyRun(policy, AnyStep(policy, s, events[0]), events[1..])
  }

  /** The transfer was handed out in a payment of the network. */
  ghost predicate HandedOut(s: Network, transfer: Transfer) {
    exists b: nat :: b < |s.bundles| && transfer in s.bundles[b].transfers
  }

  ghost predicate Member(s: Network, key: Key) {
    exists w: nat :: w < |s.wallets| && s.wallets[w].publicKey == key
  }

  /** A member's signature is only found on transfers that were handed out: nobody else can make it. */
  ghost predicate Unforged(s: Network, transfer: Transfer) {
    SignedOff(transfer) && Member(s, transfer.body.senderPk) ==> HandedOut(s, transfer)
  }

  ghost predicate UnforgedEvent(s: Network, e: AnyEvent) {
    e.Arrive? ==> forall i :: 0 <= i < |e.bundle.transfers| ==> Unforged(s, e.bundle.transfers[i])
  }

  ghost predicate UnforgedRun(policy: PolicyConfig, s: Network, events: seq<AnyEvent>)
    decreases |events|
  {
    events == [] ||
    (UnforgedEvent(s, events[0]) && UnforgedRun(policy, AnyStep(policy, s, events[0]), events[1..]))
  }

  /**
   The token's last transfer is for this key and signed by its sender; if the sender is a member, the
   member handed it out in a payment.
   */
  ghost predicate SignedOver(s: Network, key: Key, t: Token) {
    t.currentOwner == key && t.lastTransferHash.Some? && t.lastTransferHash.value.HashOf? &&
    var transfer := t.lastTransferHash.value.transfer;
    t.lastTransferId == Some(transfer.body.transferId) && transfer.body.receiverPk == key && SignedOff(transfer) &&
    (Member(s, transfer.body.senderPk) ==> HandedOut(s, transfer))
  }

  /** Every token of the register was minted, and deposited as it was, or is signed over to the key. */
  ghost predicate Accountable(s: Network, key: Key, d: Dict<Token>) {
    forall i :: 0 <= i < |d| ==> d[i].1 in s.minted || SignedOver(s, key, d[i].1)
  }

  ghost predicate AllAccountable(s: Network) {
    forall w :: 0 <= w < |s.wallets| ==> Accountable(s, s.wallets[w].publicKey, s.wallets[w].utr)
  }

  lemma PutAccountable(s: Network, key: Key, d: Dict<Token>, id: string, t: Token)
    requires Accountable(s, key, d) && (t in s.minted || SignedOver(s, key, t))
    ensures Accountable(s, key, Put(d, id, t))
  {
    hide SignedOver;
  }

  lemma PopAccountable(s: Network, key: Key, d: Dict<Token>, id: string)
    requires Accountable(s, key, d)
    ensures Accountable(s, key, Pop(d, id))
  {
    hide SignedOver;
  }

  lemma {:induction false} SpendAllAccountable(s: Network, w: WalletData, receiver: Key, selected: seq<Token>,
                                               draws: nat -> TransferDraw)
    requires Accountable(s, w.publicKey, w.utr)
    ensures var after := SpendAll(w, receiver, selected, draws).0;
      after.publicKey == w.publicKey && Accountable(s, w.publicKey, after.utr)
  {
    hide Accountable, Pop, Put;
    if selected == [] {
    } else {
      var n := |selected| - 1;
      SpendAllAccountable(s, w, receiver, selected[..n], draws);
      PopAccountable(s, w.publicKey, SpendAll(w, receiver, selected[..n], draws).0.utr, selected[n].tokenId);
    }
  }

  lemma ApplyingAccountable(policy: PolicyConfig, s: Network, w: WalletData, transfer: Transfer, t: Token,
                            now: Reading)
    requires Accountable(s, w.publicKey, w.utr) && Unforged(s, transfer)
    ensures var after := Applied(policy, w, transfer, t, now).0;
      after.publicKey == w.publicKey && Accountable(s, w.publicKey, after.utr)
  {
    AppliedIff(policy, w, transfer, t, now);
    hide Accountable, Verdict, Balance, Put, Young, HandedOut, Member, SignedOff;
    if Applied(policy, w, transfer, t, now).1 == Accepted {
      PutAccountable(s, w.publicKey, w.utr, t.tokenId, Kept(w.publicKey, transfer, t));
    }
  }

  lemma {:induction false} ReceivingAccountable(policy: PolicyConfig, s: Network, w: WalletData,
                                                bundle: PaymentBundle, n: nat, clock: nat -> Reading)
    requires n <= |bundle.transfers| && Accountable(s, w.publicKey, w.utr)
    requires forall i :: 0 <= i < |bundle.transfers| ==> Unforged(s, bundle.transfers[i])
    ensures var after := BundleReceived(policy, w, bundle, n, clock).0;
      after.publicKey == w.publicKey && Accountable(s, w.publicKey, after.utr)
  {
    hide Accountable, Applied, Unforged;
    if n == 0 {
    } else {
      ReceivingAccountable(policy, s, w, bundle, n - 1, clock);
      var before := BundleReceived(policy, w, bundle, n - 1, clock).0;
      var transfer := bundle.transfers[n - 1];
      if transfer.body.tokenId in bundle.tokens {
        ApplyingAccountable(policy, s, before, transfer, bundle.tokens[transfer.body.tokenId], clock(n - 1));
      }
    }
  }

  /** More is minted and handed out, and the members stay the same. */
  ghost predicate Extends(s: Network, s': Network) {
    s.minted <= s'.minted && s.bundles <= s'.bundles && |s'.wallets| == |s.wallets| &&
    forall w :: 0 <= w < |s.wallets| ==> s'.wallets[w].publicKey == s.wallets[w].publicKey
  }

  lemma StillAccountable(s: Network, s': Network, key: Key, d: Dict<Token>)
    requires Extends(s, s') && Accountable(s, key, d)
    ensures Accountable(s', key, d)
  {
    forall i | 0 <= i < |d|
      ensures d[i].1 in s'.minted || SignedOver(s', key, d[i].1)
    {
      if d[i].1 in s.minted {
        var k :| 0 <= k < |s.minted| && s.minted[k] == d[i].1;
        assert s'.minted[k] == d[i].1;
      } else {
        StillSignedOver(s, s', key, d[i].1);
      }
    }
  }

  lemma StillSignedOver(s: Network, s': Network, key: Key, t: Token)
    requires Extends(s, s') && SignedOver(s, key, t)
    ensures SignedOver(s', key, t)
  {
    var transfer := t.lastTransferHash.value.transfer;
    if Member(s', transfer.body.senderPk) {
      var w: nat :| w < |s'.wallets| && s'.wallets[w].publicKey == transfer.body.senderPk;
      assert s.wallets[w].publicKey == transfer.body.senderPk;
      var b: nat :| b < |s.bundles| && transfer in s.bundles[b].transfers;
      assert s'.bundles[b] == s.bundles[b];
    }
  }

  /** One wallet changed, to an accountable one with the same key. */
  lemma OneChanged(s: Network, s': Network, w: nat, after: WalletData)
    requires AllAccountable(s) && Extends(s, s') && w < |s.wallets| && s'.wallets == s.wallets[w := after]
    requires Accountable(s, s.wallets[w].publicKey, after.utr) && after.publicKey == s.wallets[w].publicKey
    ensures AllAccountable(s')
  {
    hide Accountable, Extends;
    forall v | 0 <= v < |s'.wallets|
      ensures Accountable(s', s'.wallets[v].publicKey, s'.wallets[v].utr)
    {
      StillAccountable(s, s', s'.wallets[v].publicKey, s'.wallets[v].utr);
    }
  }

  lemma PayingAccountable(policy: PolicyConfig, s: Network, payer: nat, receiver: Key, amount: int, now: int,
                          draws: nat -> TransferDraw)
    requires AllAccountable(s) && payer < |s.wallets|
    ensures AllAccountable(Step(policy, s, Pay(payer, receiver, amount, now, draws)))
  {
    var w := s.wallets[payer];
    var checked := w.(syncRequired := w.syncRequired + Unspendable(policy, TokensOf(w.utr), now));
    hide Accountable, SpendAll, FromPool, SpendableTokens, Unspendable;
    SpendAllAccountable(s, checked, receiver, Selected(policy, w, amount, now), draws);
    OneChanged(s, Step(policy, s, Pay(payer, receiver, amount, now, draws)), payer,
               Payment(policy, w, receiver, amount, now, draws).0);
  }

  lemma ArrivalAccountable(policy: PolicyConfig, s: Network, w: nat, bundle: PaymentBundle, clock: nat -> Reading)
    requires AllAccountable(s) && w < |s.wallets|
    requires forall i :: 0 <= i < |bundle.transfers| ==> Unforged(s, bundle.transfers[i])
    ensures AllAccountable(AnyStep(policy, s, Arrive(w, bundle, clock)))
  {
    hide Accountable, BundleReceived, Unforged;
    ReceivingAccountable(policy, s, s.wallets[w], bundle, |bundle.transfers|, clock);
    OneChanged(s, AnyStep(policy, s, Arrive(w, bundle, clock)), w,
               BundleReceived(policy, s.wallets[w], bundle, |bundle.transfers|, clock).0);
  }

  lemma HandedOutIsUnforged(s: Network, b: nat)
    requires b < |s.bundles|
    ensures forall i :: 0 <= i < |s.bundles[b].transfers| ==> Unforged(s, s.bundles[b].transfers[i])
  {
    hide SignedOff, Member;
  }

  lemma AnyStepAccountable(policy: PolicyConfig, s: Network, e: AnyEvent)
    requires AllAccountable(s) && UnforgedEvent(s, e)
    ensures AllAccountable(AnyStep(policy, s, e))
  {
    hide Accountable, BundleReceived, Payment, Unforged, Put, Balance;
    match e
    case Arrive(w, bundle, clock) =>
      if w < |s.wallets| {
        ArrivalAccountable(policy, s, w, bundle, clock);
      }
    case Ordinary(Mint(issuerPk, owner, value, draw)) =>
      var s' := AnyStep(policy, s, e);
      forall v | 0 <= v < |s'.wallets|
        ensures Accountable(s', s'.wallets[v].publicKey, s'.wallets[v].utr)
      {
        StillAccountable(s, s', s.wallets[v].publicKey, s.wallets[v].utr);
      }
    case Ordinary(Deposit(to, k)) =>
      if to < |s.wallets| && k < |s.minted| {
        PutAccountable(s, s.wallets[to].publicKey, s.wallets[to].utr, s.minted[k].tokenId, s.minted[k]);
        OneChanged(s, AnyStep(policy, s, e), to, Deposited(policy, s.wallets[to], s.minted[k]).0);
      }
    case Ordinary(Pay(payer, receiver, amount, now, draws)) =>
      if payer < |s.wallets| {
        PayingAccountable(policy, s, payer, receiver, amount, now, draws);
      }
    case Ordinary(Deliver(to, b, clock)) =>
      if to < |s.wallets| && b < |s.bundles| {
        HandedOutIsUnforged(s, b);
        ArrivalAccountable(policy, s, to, s.bundles[b], clock);
      }
  }

  lemma {:induction false} AnyRunAccountable(policy: PolicyConfig, s: Network, events: seq<AnyEvent>)
    requires AllAccountable(s) && UnforgedRun(policy, s, events)
    ensures AllAccountable(AnyRun(policy, s, events))
    decreases |events|
  {
    hide AllAccountable, AnyStep, UnforgedEvent;
    if events == [] {
    } else {
      AnyStepAccountable(policy, s, events[0]);
      AnyRunAccountable(policy, AnyStep(policy, s, events[0]), events[1..]);
    }
  }

  /**
   Whatever bundles anyone delivers in between, as long as nobody forges a member's signature: every
   token a wallet holds was minted, and deposited as it was, or its last transfer is for this wallet and
   signed by its sender, and if the sender is a member, the member made it in a payment.
   */
  lemma OnlySignedOver(policy: PolicyConfig, wallets: seq<WalletData>, events: seq<AnyEvent>)
    requires forall w :: 0 <= w < |wallets| ==> wallets[w].utr == []
    requires UnforgedRun(policy, Network(wallets, [], []), events)
    ensures AllAccountable(AnyRun(policy, Network(wallets, [], []), events))
  {
    hide AnyRun, UnforgedRun;
    AnyRunAccountable(policy, Network(wallets, [], []), events);
  }

  // ---------- what the signature does not cover ----------

  /**
   A transfer names a token by its id, but the wallet never compares that id with the token it stores, and
   no value is signed: in place of the token an honest sender handed over, any other is accepted exactly
   when it has the same last transfer, is young enough and fits under the cap.
   */
  lemma OtherTokenAcceptedIff(policy: PolicyConfig, sender: Key, w: WalletData, t: Token, draw: TransferDraw,
                              other: Token, now: Reading)
    requires HopsCounted(policy, t) && t.hopCount < policy.maxHops && draw.transferId !in w.processed
    ensures Applied(policy, w, TransferOf(sender, w.publicKey, t, draw), other, now).1 == Accepted <==>
      other.lastTransferId == t.lastTransferId && other.lastTransferHash == t.lastTransferHash &&
      Young(policy, other, now) && Balance(w.utr) + other.value <= policy.maxBalance
  {
    AppliedIff(policy, w, TransferOf(sender, w.publicKey, t, draw), other, now);
    hide Applied, Balance, Young;
  }
}
