/**
 The offline wallet (wallet/offline_wallet.py): payments out of whole tokens, and bundles
 received under a balance cap.
 */
module OfflineWallet {
  import opened Basics
  import opened Dicts
  import opened Subsets
  import opened Selection
  import opened PocModels

  datatype Reason =
    | ReplayTransferId | WrongReceiver | MaxHopsExceeded | BrokenParentLink | BrokenParentHashLink | BrokenHashLink
    | TokenExpired | BadTransferSig | MaxBalanceExceeded | Accepted

  datatype WalletError =
    | NotPositive | MaxTxValueExceeded | InsufficientSpendable | OwnerMismatch | BalanceCap | MissingToken

  datatype WalletData = WalletData(
    publicKey: Key, utr: Dict<Token>, spent: Dict<Token>, history: map<string, string>, hashes: map<string, Digest>,
    processed: set<string>, syncRequired: set<string>)

  // ---------- paying ----------

  predicate Spendable(policy: PolicyConfig, t: Token, now: int) {
    !t.IssueExpired(policy, now) && !(t.nonce >= policy.maxHops)
  }

  /** The spendable tokens, in register order */
  function SpendableTokens(policy: PolicyConfig, tokens: seq<Token>, now: int): seq<Token> {
    if tokens == [] then [] else
      var n := |tokens| - 1;
      SpendableTokens(policy, tokens[..n], now) + (if Spendable(policy, tokens[n], now) then [tokens[n]] else [])
  }

  /** Ids the spendability check flags for synchronisation */
  function Unspendable(policy: PolicyConfig, tokens: seq<Token>, now: int): set<string> {
    set i | 0 <= i < |tokens| && !Spendable(policy, tokens[i], now) :: tokens[i].tokenId
  }

  /** select_tokens_from_pool: the shortest ascending prefix worth the amount */
  function FromPool(pool: seq<Token>, amount: int): Option<seq<Token>> {
    var sorted := At(pool, Order(ValuesOf(pool)));
    match CoverLength(ValuesOf(sorted), amount)
    case None => None
    case Some(k) => Some(sorted[..k])
  }

  /** The random id and clock reading one transfer draws */
  datatype TransferDraw = TransferDraw(transferId: string, timestamp: int)

  /** The copy of a token that travels with its transfer */
  function Outbound(t: Token, receiver: Key): Token {
    t.(currentOwner := receiver, nonce := t.nonce + 1)
  }

  function TransferOf(sender: Key, receiver: Key, t: Token, draw: TransferDraw): Transfer {
    var body := TransferBody(draw.transferId, t.tokenId, sender, receiver, t.nonce + 1, t.lastTransferId,
                             t.lastTransferHash, t.lastTransferHash, t.hopCount + 1, draw.timestamp);
    Transfer(body, Signed(sender, TransferMessage(body)))
  }

  /** The loop of create_payment over the selected tokens */
  function SpendAll(w: WalletData, receiver: Key, selected: seq<Token>, draws: nat -> TransferDraw)
    : (WalletData, PaymentBundle)
  {
    if selected == [] then (w, PaymentBundle([], map[])) else
      var n := |selected| - 1;
      var t := selected[n];
      var (before, bundle) := SpendAll(w, receiver, selected[..n], draws);
      (before.(utr := Pop(before.utr, t.tokenId), spent := Put(before.spent, t.tokenId, t)),
       PaymentBundle(bundle.transfers + [TransferOf(w.publicKey, receiver, t, draws(n))],
                     bundle.tokens[t.tokenId := Outbound(t, receiver)]))
  }

  function Payment(policy: PolicyConfig, w: WalletData, receiver: Key, amount: int, now: int,
                   draws: nat -> TransferDraw)
    : (WalletData, Result<PaymentBundle, WalletError>)
  {
    if amount <= 0 then (w, Err(NotPositive))
    else if amount > policy.maxTxValue then (w, Err(MaxTxValueExceeded))
    else
      var tokens := TokensOf(w.utr);
      var checked := w.(syncRequired := w.syncRequired + Unspendable(policy, tokens, now));
      match FromPool(SpendableTokens(policy, tokens, now), amount)
      case None => (checked, Err(InsufficientSpendable))
      case Some(selected) =>
        var out := SpendAll(checked, receiver, selected, draws);
        (out.0, Ok(out.1))
  }

  // ---------- receiving ----------

  /** receive_token */
  function Deposited(policy: PolicyConfig, w: WalletData, t: Token): (WalletData, Option<WalletError>) {
    if t.currentOwner != w.publicKey then (w, Some(OwnerMismatch))
    else if Balance(w.utr) + t.value > policy.maxBalance then (w, Some(BalanceCap))
    else (w.(utr := Put(w.utr, t.tokenId, t)), None)
  }

  /** The two clock readings of one verification: for the creation time, and for the issue time */
  datatype Reading = Reading(first: int, second: int)

  /** verify_transfer_with_reason; Accepted stands for its OK. */
  function Verdict(policy: PolicyConfig, w: WalletData, transfer: Transfer, t: Token, now: Reading): Reason {
    var b := transfer.body;
    if b.transferId in w.processed then ReplayTransferId
    else if b.receiverPk != w.publicKey then WrongReceiver
    else if b.hopCount > policy.maxHops then MaxHopsExceeded
    else if b.nonce > policy.maxHops then MaxHopsExceeded
    else if b.parentTransferId != t.lastTransferId then BrokenParentLink
    else if b.parentTransferHash != t.lastTransferHash then BrokenParentHashLink
    else if b.prevTransferHash != t.lastTransferHash then BrokenHashLink
    else if t.CreationExpired(policy, now.first) then TokenExpired
    else if t.IssueExpired(policy, now.second) then TokenExpired
    else if !transfer.SignedBySender() then BadTransferSig
    else Accepted
  }

  /** The copy of the token the receiver keeps */
  function Kept(receiver: Key, transfer: Transfer, t: Token): Token {
    t.(currentOwner := receiver, lastTransferId := Some(transfer.body.transferId),
       lastTransferHash := Some(HashOf(transfer)), hopCount := t.hopCount + 1)
  }

  /** apply_transfer_with_reason */
  function Applied(policy: PolicyConfig, w: WalletData, transfer: Transfer, t: Token,
                   now: Reading): (WalletData, Reason) {
    var verdict := Verdict(policy, w, transfer, t, now);
    if !verdict.Accepted? then (w, verdict)
    else if Balance(w.utr) + t.value > policy.maxBalance then (w, MaxBalanceExceeded)
    else
      var id := transfer.body.transferId;
      (w.(utr := Put(w.utr, t.tokenId, Kept(w.publicKey, transfer, t)), history := w.history[t.tokenId := id],
          hashes := w.hashes[id := HashOf(transfer)], processed := w.processed + {id}), Accepted)
  }

  /** The first n rounds of receive_bundle_with_reasons; clock(i) is read for transfer i. */
  function BundleReceived(policy: PolicyConfig, w: WalletData, bundle: PaymentBundle, n: nat, clock: nat -> Reading)
    : (r: (WalletData, Result<seq<(string, Reason)>, WalletError>))
    requires n <= |bundle.transfers|
    ensures r.1.Ok? ==> |r.1.value| == n
  {
    if n == 0 then (w, Ok([])) else
      var (before, done) := BundleReceived(policy, w, bundle, n - 1, clock);
      var transfer := bundle.transfers[n - 1];
      if done.Err? then (before, done)
      else if transfer.body.tokenId !in bundle.tokens then (before, Err(MissingToken))
      else
        var (after, reason) := Applied(policy, before, transfer, bundle.tokens[transfer.body.tokenId], clock(n - 1));
        (after, Ok(done.value + [(transfer.body.transferId, reason)]))
  }

  lemma CoverNothing(need: int)
    ensures CoverLength([], need) == None
  {
  }

  lemma CoverStep(tokens: seq<Token>, i: nat, need: int)
    requires i < |tokens|
    ensures var vs := ValuesOf(tokens);
      vs[i] == tokens[i].value &&
      CoverLength(vs[i..], need) ==
        if vs[i] >= need then Some(1) else Shifted(1, CoverLength(vs[i + 1..], need - vs[i]))
  {
    var vs := ValuesOf(tokens);
    assert vs[i..][1..] == vs[i + 1..];
  }

  class Wallet {
    const publicKey: Key
    const policy: PolicyConfig
    var utr: Dict<Token>
    var spent: Dict<Token>
    var history: map<string, string>
    var hashes: map<string, Digest>
    var processed: set<string>
    var syncRequired: set<string>

    constructor (publicKey: Key, policy: PolicyConfig)
      ensures this.policy == policy && Data() == WalletData(publicKey, [], [], map[], map[], {}, {})
    {
      this.publicKey, this.policy := publicKey, policy;
      utr, spent, history, hashes, processed, syncRequired := [], [], map[], map[], {}, {};
    }

    function Data(): WalletData
      reads this
    {
      WalletData(publicKey, utr, spent, history, hashes, processed, syncRequired)
    }

    method ReceiveToken(token: Token) returns (error: Option<WalletError>)
      modifies this
      ensures (Data(), error) == Deposited(policy, old(Data()), token)
    {
      if token.currentOwner != publicKey {
        return Some(OwnerMismatch);
      }
      if Balance(utr) + token.value > policy.maxBalance {
        return Some(BalanceCap);
      }
      utr := Put(utr, token.tokenId, token);
      return None;
    }

    method CreatePayment(receiver: Key, amount: int, now: int,
                         draws: nat -> TransferDraw) returns (r: Result<PaymentBundle, WalletError>)
      modifies this
      ensures (Data(), r) == Payment(policy, old(Data()), receiver, amount, now, draws)
    {
      if amount <= 0 {
        return Err(NotPositive);
      }
      if amount > policy.maxTxValue {
        return Err(MaxTxValueExceeded);
      }
      hide FromPool, SpendableTokens, Unspendable, TokensOf, SpendAll;
      var spendable := CheckSpendable(now);
      var selected := SelectTokensFromPool(spendable, amount);
      if selected.None? {
        return Err(InsufficientSpendable);
      }
      var bundle := SpendSelected(receiver, selected.value, draws);
      return Ok(bundle);
    }

    /** The loop of create_payment over the selected tokens */
    method SpendSelected(receiver: Key, selected: seq<Token>,
                         draws: nat -> TransferDraw) returns (bundle: PaymentBundle)
      modifies this
      ensures (Data(), bundle) == SpendAll(old(Data()), receiver, selected, draws)
    {
      hide Put, Pop;
      var transfers: seq<Transfer> := [];
      var outbound: map<string, Token> := map[];
      for n := 0 to |selected|
        invariant SpendAll(old(Data()), receiver, selected[..n], draws) == (Data(), PaymentBundle(transfers, outbound))
      {
        var token := selected[n];
        assert selected[..n + 1][..n] == selected[..n];
        utr := Pop(utr, token.tokenId);
        spent := Put(spent, token.tokenId, token);
        var spendToken := token.(currentOwner := receiver, nonce := token.nonce + 1);
        var body := TransferBody(draws(n).transferId, spendToken.tokenId, publicKey, receiver, spendToken.nonce,
                                 token.lastTransferId, token.lastTransferHash, token.lastTransferHash,
                                 token.hopCount + 1, draws(n).timestamp);
        transfers := transfers + [Transfer(body, Signed(publicKey, TransferMessage(body)))];
        outbound := outbound[spendToken.tokenId := spendToken];
      }
      assert selected[..|selected|] == selected;
      return PaymentBundle(transfers, outbound);
    }

    /** The spendable tokens of the register; the others are flagged for synchronisation. */
    method CheckSpendable(now: int) returns (spendable: seq<Token>)
      modifies this`syncRequired
      ensures spendable == SpendableTokens(policy, TokensOf(utr), now)
      ensures syncRequired == old(syncRequired) + Unspendable(policy, TokensOf(utr), now)
    {
      spendable := [];
      var tokens := TokensOf(utr);
      for n := 0 to |tokens|
        invariant spendable == SpendableTokens(policy, tokens[..n], now)
        invariant syncRequired == old(syncRequired) + Unspendable(policy, tokens[..n], now)
      {
        assert tokens[..n + 1][..n] == tokens[..n];
        UnspendableStep(policy, tokens[..n], tokens[n], now);
        assert tokens[..n + 1] == tokens[..n] + [tokens[n]];
        var expired := Epoch(now) - tokens[n].issueTimestamp > policy.tokenExpirySeconds;
        var maxedHops := tokens[n].nonce >= policy.maxHops;
        if expired || maxedHops {
          syncRequired := syncRequired + {tokens[n].tokenId};
        } else {
          spendable := spendable + [tokens[n]];
        }
      }
      assert tokens[..|tokens|] == tokens;
    }

    method SelectTokensFromPool(pool: seq<Token>, amount: int) returns (r: Option<seq<Token>>)
      ensures r == FromPool(pool, amount)
    {
      var tokens := At(pool, Order(ValuesOf(pool)));
      r := CoverPrefix(tokens, amount);
    }

    /** The greedy loop over the sorted tokens */
    method CoverPrefix(tokens: seq<Token>, amount: int) returns (r: Option<seq<Token>>)
      ensures r.Some? <==> CoverLength(ValuesOf(tokens), amount).Some?
      ensures r.Some? ==> r.value == tokens[..CoverLength(ValuesOf(tokens), amount).value]
    {
      ghost var vs := ValuesOf(tokens);
      var selected: seq<Token> := [];
      var total := 0;
      hide CoverLength;
      for i := 0 to |tokens|
        invariant selected == tokens[..i]
        invariant CoverLength(vs, amount) == Shifted(i, CoverLength(vs[i..], amount - total))
      {
        CoverStep(tokens, i, amount - total);
        selected := selected + [tokens[i]];
        total := total + tokens[i].value;
        if total >= amount {
          return Some(selected);
        }
      }
      assert CoverLength(vs[|tokens|..], amount - total) == None by {
        CoverNothing(amount - total);
        assert vs[|tokens|..] == [];
      }
      return None;
    }

    method ApplyTransferWithReason(transfer: Transfer, token: Token, now: Reading) returns (reason: Reason)
      modifies this
      ensures (Data(), reason) == Applied(policy, old(Data()), transfer, token, now)
    {
      reason := Verdict(policy, Data(), transfer, token, now);
      if !reason.Accepted? {
        return;
      }
      if Balance(utr) + token.value > policy.maxBalance {
        return MaxBalanceExceeded;
      }
      var received := token;
      received := received.(currentOwner := publicKey);
      received := received.(lastTransferId := Some(transfer.body.transferId));
      received := received.(lastTransferHash := Some(HashOf(transfer)));
      received := received.(hopCount := received.hopCount + 1);
      utr := Put(utr, token.tokenId, received);
      history := history[token.tokenId := transfer.body.transferId];
      hashes := hashes[transfer.body.transferId := HashOf(transfer)];
      processed := processed + {transfer.body.transferId};
    }

    method ReceiveBundleWithReasons(bundle: PaymentBundle, clock: nat -> Reading)
      returns (r: Result<seq<(string, Reason)>, WalletError>)
      modifies this
      ensures (Data(), r) == BundleReceived(policy, old(Data()), bundle, |bundle.transfers|, clock)
    {
      var results: seq<(string, Reason)> := [];
      for n := 0 to |bundle.transfers|
        invariant BundleReceived(policy, old(Data()), bundle, n, clock) == (Data(), Ok(results))
      {
        var transfer := bundle.transfers[n];
        if transfer.body.tokenId !in bundle.tokens {
          MissingEnds(policy, old(Data()), bundle, n + 1, |bundle.transfers|, clock);
          return Err(MissingToken);
        }
        var reason := ApplyTransferWithReason(transfer, bundle.tokens[transfer.body.tokenId], clock(n));
        results := results + [(transfer.body.transferId, reason)];
      }
      return Ok(results);
    }
  }

  lemma UnspendableStep(policy: PolicyConfig, tokens: seq<Token>, t: Token, now: int)
    ensures Unspendable(policy, tokens + [t], now) ==
      Unspendable(policy, tokens, now) + (if Spendable(policy, t, now) then {} else {t.tokenId})
  {
    var longer := tokens + [t];
    assert forall i :: 0 <= i < |tokens| ==> longer[i] == tokens[i];
    assert longer[|tokens|] == t;
  }

  lemma {:induction false} MissingEnds(policy: PolicyConfig, w: WalletData, bundle: PaymentBundle, n: nat, m: nat,
                                       clock: nat -> Reading)
    requires n <= m <= |bundle.transfers| && BundleReceived(policy, w, bundle, n, clock).1.Err?
    ensures BundleReceived(policy, w, bundle, m, clock) == BundleReceived(policy, w, bundle, n, clock)
  {
    if n == m {
    } else {
      MissingEnds(policy, w, bundle, n, m - 1, clock);
    }
  }
}
