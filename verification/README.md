# Offline bearer-token cash: a verified model

The repository holds several independent implementations of an offline cash system in which a
token is a signed record handed from wallet to wallet without a server. This project models three
of them in Dafny, in the form the code has (objects with fields that methods update, loops, and
pure record functions), and proves what the protocols are for.

* **Canonical stack.** Tokens carry hash-linked, signed transfer chains. A wallet keeps an unspent
  register (UTR) and a spent register (STR). Coins are chosen by a pruned backtracking search for
  the smallest exact subset, with a greedy fallback. A payment session sends tokens, takes back
  change, and restores both wallets when anything fails. The issuer settles the first valid claim.
* **dpc stack.** A wallet register with a balance cap and replay nonces, chains whose hop index
  starts over when a token returns to a former sender, token splitting, and a first-claim ledger.
* **Offline wallet and recovery server.** Payments as bundles of whole tokens, a receiver with a
  balance cap, and a server that settles bundles and replaces the money of a lost wallet.

## Files

| file | contents |
|---|---|
| `Basics.dfy`, `Subsets.dfy` | sums, insertion-ordered dictionaries, sub-collections |
| `Selection.dfy`, `CoinSearch.dfy` | coin selection: what it should find, and the pruned search that finds it |
| `Tokens.dfy` | tokens, transfer chains, forks, payloads |
| `WalletModel.dfy`, `Wallets.dfy` | wallets and sessions as values, and the objects that compute them in place |
| `Custody.dfy` | settlement, exact success condition, custody over whole runs |
| `Reconciliation.dfy` | settlement by the canonical issuer |
| `DpcChain.dfy`, `DpcWallet.dfy`, `DpcRuns.dfy`, `DpcLedger.dfy` | the dpc stack |
| `DpcTransfers.dfy` | when the dpc wallet mints, sends, splits and takes in a token, and how tokens come home |
| `DpcCustody.dfy` | custody and conservation in a network of dpc wallets |
| `PocModels.dfy`, `OfflineWallet.dfy`, `OfflineRuns.dfy` | the offline wallet, bundles under a cap, hops over runs |
| `OfflinePayments.dfy` | when a payment is made, what it is worth and what it changes |
| `OfflineArrivals.dfy` | what the offline wallet accepts from anyone, forged bundles included |
| `OfflineCustody.dfy` | custody and conservation in a network of offline wallets |
| `RecoveryServer.dfy`, `RecoveryRuns.dfy`, `LostWallets.dfy` | the reconciliation server, its books over runs, recovery of lost wallets |
| `RecoveryWindow.dfy` | the waiting window: never both settled and reissued, and what reissues cost |

Where a class updates its fields, each method is proved to compute a function of the old contents
(`Wallet.SendTokens` against `WalletModel.SendTokens`, `PaymentSession.Execute` against `Session`,
`ReconciliationServer.ProcessBundle` against `Processed`, and so on), and the theorems are proved
about those functions.

## Assumptions

* Signatures are ideal (Ed25519 sign and verify are sections 5.1.6 and 5.1.7 of RFC 8032): a
  signature is the pair of signer and message, so only the key's holder can make one, and signing
  the same message twice gives the same signature. Hashes and canonical JSON are injective: a
  digest is its preimage.
* Random ids, nonces and clock readings are parameters. A lemma that needs them to be fresh says so.
* A JSON payload is a record with its optional fields and older field names, or text that does not
  parse. A raised exception is an `Err` result.
* Dictionaries that are iterated keep their insertion order, because the stable sort of coin
  selection depends on it; the dpc register, whose order never matters, is a `map`.
* Token values are integers of either sign, as in the code, which never checks them. Where a
  property needs them to be non-negative, that is a condition of the lemma.

## Where the code and its documentation disagree

* `select_tokens` is documented to return a minimal set worth at least the amount
  (wallet/wallet.py:54). Its greedy fallback does not (`GreedyNotMinimal`); `SelectIsMinimalIff`
  gives the exact condition.
* The bound of the search on the running total can hide an exact subset when a value is negative
  (`NegativeValueMissed`); a list is searched completely for every amount, negative ones included,
  exactly when it holds no negative value (`CompleteForEveryAmountIff`), and for the sorted lists
  that `select_tokens` passes the search is complete for every non-negative amount regardless
  (`SearchIsComplete`).
* `validate_integrity` is documented to check the hop count (dpc/token_model.py:285). It bounds the
  last hop only (`InnerHopsUnbounded`); every hop is bounded exactly when every shorter version of
  the chain validates too (`AllHopsBoundedIff`). It does not check that a sender was the previous
  receiver (`AnyoneCanExtend`, `AppendContinuousIff`). The chains the system itself builds respect
  the limit at every record (`HopLimitOverRuns`) and are continuous (`ContinuousOverRuns`).
* `swap_change` loses a receipt without a token payload, which the register admits
  (`FailedSplitInvisibleIff`, `TokenlessReceiptLost`).
* Nothing stops a dpc token from having a negative amount, and then the balance cap can be broken
  (`NegativeTokenBreaksCap`); `CapKeptIff` says exactly when.
* `settle_token` is documented to settle a minted token, but looks only the id up: a self-made token
  of any amount claims any minted id (`AnyoneCanClaim`; `ClaimIsForMintedIff` says when a claim is
  for the minted token). Likewise the recovery server settles a self-made token that names an issued
  one as its origin, once per new id (`SelfMadeSettles`, `OriginsOnceIff`).
* The recovery report is called deterministic (issuer/reconciliation_server.py:163). After the
  recovery window it is stable exactly when every claim keeps a settlement whose transfer id is not
  settled again (`ReportStableIff`, `ReusedTransferIdReleasesClaim`; before a submission,
  `SettlementChangesReportIff`), and reissue mints once per pair of keys, not once per lost key
  (`SecondKeyMintsAgain`): over quiet runs the safe balance times the number of new keys served
  (`ReissueTotal`).
* The waiting window is meant to keep money from being both settled and reissued. It does for tokens
  issued before the second of the revocation (`SettledOrReissued`). A token issued in that very second
  is still accepted when the wait is over, because the expiry counts whole seconds and the wait does
  not (`ExpiredAfterWindowIff`), and then its value is paid out twice (`LateTokenSettledAndReissued`).
* `receive_token` of the offline wallet takes in an issued token after looking at its owner and the cap
  only (wallet/offline_wallet.py:29-35), never at the spent register: a token deposited again after it
  was paid on is held twice (`RedepositDoubles`). Custody is kept exactly when no deposit takes in a
  token that is elsewhere (`DepositOnePlaceIff`, `OnePlaceIff`).
* `receive_bundle_with_reasons` looks a token up by the id in the transfer and never compares that id with the
  token's own, and no value is signed: in place of the token a sender handed over, any other with the same
  last transfer is accepted if it is young enough and fits (`OtherTokenAcceptedIff`). What is certain of a
  held token is that its last transfer is for the holder and signed by its sender (`OnlySignedOver`).
* In the canonical wallet `add_token` does not look at the spent register (wallet/wallet.py:45-51), and
  `sync` takes settled ids out of it, so that an old payload is received again (`SyncReopensReplay`).
  Custody is kept exactly when no wallet takes in a token that another can spend (`AlwaysCustodialIff`).

## Model

| member | source | states |
|---|---|---|
| CoinSearch.SubsetSearch.Search | wallet/wallet.py:169-182 | whatever was found before, the recorded best ends up as if every completion had been tried without either pruning, ties going to the subset met first; the shared `selected` list is left as it was found |
| CoinSearch.FindExactTokenSubset | wallet/wallet.py:165-185 | returns the tokens of the best exact subset, and none exactly when there is none that stays within the amount |
| CoinSearch.FoundSubsetIsOptimal | wallet/wallet.py:165-185 | when some sub-collection is worth the amount, the tokens returned are worth exactly the amount and are no more than those of any such sub-collection |
| Selection.SearchIsOptimal | wallet/wallet.py:165-185 | for every list and amount: fails iff no sub-collection reaches the amount without passing it on the way; otherwise the result is exact, of least size, and first in include-first order among those |
| Selection.SearchIsComplete | wallet/wallet.py:60-63 | for non-negative or ascending values, found iff any exact sub-collection exists, and then of least size among all exact ones |
| Selection.NegativeValueMissed | wallet/wallet.py:175-176 | a concrete list with a negative value on which an exact subset exists and is not found |
| Selection.CompleteForEveryAmountIff | wallet/wallet.py:175-176 | the search misses nothing on a list, for every amount of either sign, iff the list holds no negative value |
| Selection.OrderIsSorted | wallet/wallet.py:60 | the order is ascending by value, stable on equal values, and lists every position once |
| CoinSearch.CoverFromSmallest | wallet/wallet.py:65-72 | the loop returns the shortest covering prefix of its list, or none |
| Selection.CoverLengthEffect | wallet/wallet.py:65-72 | the prefix exists iff the whole list covers the amount; it covers it, and one token fewer would not |
| Selection.SelectContract | wallet/wallet.py:53-72 | for every positive amount: pays exactly with the fewest tokens iff some sub-collection pays exactly; otherwise fails iff the register is worth too little, and else takes the shortest ascending prefix, overpaying by less than its largest token |
| Selection.SelectFailsIff | wallet/wallet.py:72 | with no negative token, fails iff the register is worth less than the amount |
| Selection.SelectIsMinimalIff | wallet/wallet.py:54-72 | with k the fewest tokens that can cover the amount: the choice has the fewest tokens of all covering choices iff, when the amount can be paid exactly, k tokens can pay it exactly, and otherwise the k smallest tokens cover it |
| Selection.FewestCoverExists | wallet/wallet.py:54-72 | such a k exists whenever any number of tokens covers the amount |
| Selection.GreedyNotMinimal | wallet/wallet.py:65-72 | tokens worth 3 and 10, amount 4: both are returned although the second alone covers it |
| Tokens.CreateTransfer | digital_token/transfer_chain.py:29-58 | a new record is linked to its predecessor's id and digest and signed over all its other fields |
| Tokens.Token.AppendTransfer | digital_token/token_model.py:70-85 | extends the chain in place by one signed record with the next nonce and hands the token to the receiver; nothing else changes |
| Tokens.Token.ValidateChain | digital_token/token_model.py:105-158 | true iff the issuer is the expected one, it signed the issuance to the first holder, every record is signed, numbered and linked to the one before, and the last receiver is the owner |
| Tokens.AppendValidIff | digital_token/token_model.py:70-85 | appending to a valid token gives a valid token iff the owner's key signs; the issuance it claims stays the same |
| Tokens.HandoversKeepValid | digital_token/token_model.py:70-158 | any number of handovers, each signed by the holder at that point, keeps the chain valid, and record i has nonce i + 1 |
| Tokens.HandoversAreRecorded | digital_token/transfer_chain.py:38-57 | any number of handovers, whoever signs, leaves the chain there was, valid or not, and adds one record each, in order: under the drawn id and time, from the holder to the receiver, numbered after and linked to the record before it, signed by the given key over all of it |
| Tokens.LastRecordFixesChain | digital_token/token_model.py:146-151 | two validated chains with equal last records are equal throughout and belong to the same token and owner |
| Tokens.ForkAttribution | digital_token/token_model.py:105-158 | two validated tokens with one id under an issuer that signs one issuance per id: one history continues the other, or they have exactly one first divergence, where the one key both histories name as the holder signed two different transfers with the same nonce, parent and previous hash |
| Tokens.ComparableIffNoDoubleSpend | digital_token/token_model.py:105-158 | such histories are comparable iff they contain no double spend anywhere |
| Tokens.PayloadRoundTrip | wallet/wallet.py:137-162 | reading a token's payload back gives the token, chain included |
| Tokens.NoncelessRoundTripIff | wallet/wallet.py:146 | a payload without nonces is read back as the original iff the chain is numbered from 1 |
| Tokens.OlderPayloads | wallet/wallet.py:137-162 | older field names are read too, newer ones win, a missing chain or signature is empty, and text that does not parse or names no owner is no token |
| Selection.SelectReason | wallet/wallet.py:55-58 | a negative amount is refused as such, nothing is taken for 0, and funds are insufficient only for a positive amount the register does not reach |
| Wallets.Wallet.AddToken | wallet/wallet.py:45-51 | takes in a copy of the token iff the wallet owns it and its chain validates; otherwise nothing changes |
| Wallets.Wallet.SelectTokens | wallet/wallet.py:53-72 | returns the register's own token objects at the positions `Selection.Select` chooses for the stored values |
| Wallets.Wallet.SendOne | wallet/wallet.py:82-85 | one token leaves the UTR, is extended in place, and a separate copy of it is kept as spent; the payload is the extended token's |
| Wallets.Wallet.SendTokens | wallet/wallet.py:74-86 | sends the tokens in turn; the first unavailable id ends it and leaves the earlier ones sent |
| Wallets.Wallet.ProcessPayment | wallet/wallet.py:102-109 | rejects an underpayment, and otherwise chooses change from the wallet's own register |
| Wallets.Wallet.ReceiveToken | wallet/wallet.py:111-129 | true iff the payload parses to an owned, valid token that was not spent here, and then exactly that token is added; otherwise both registers are as before |
| Wallets.Wallet.Sync | wallet/wallet.py:131-134 | removes settled ids from the STR and nothing else |
| Custody.SyncKeeps | wallet/wallet.py:131-134 | after a sync the STR is the old one without the settled ids, known or not, and the UTR is untouched |
| WalletModel.SendEachEffect | wallet/wallet.py:74-86 | distinct available tokens all leave the UTR for the STR, each extended by one transfer; value sent and value kept add up to the old value |
| WalletModel.SendFailsAt | wallet/wallet.py:78-80 | the first id that is not held, or was sent already, is the error, and exactly the ids before it are sent |
| WalletModel.ReceivedIff | wallet/wallet.py:111-129 | a list of tokens is received iff each one is acceptable to the wallet as it was at the start |
| WalletModel.ReceiveEachEffect | wallet/wallet.py:111-129 | receiving new tokens adds exactly them, and their value |
| Wallets.PaymentSession.PayStage | protocol/payment_session.py:36-39 | the payment half computes the value-level move, and keeps the two wallets' token objects apart |
| Wallets.PaymentSession.ChangeStage | protocol/payment_session.py:41-47 | the change half computes the value-level change for what was actually paid |
| Wallets.PaymentSession.Execute | protocol/payment_session.py:20-55 | succeeds exactly as the value-level session; on any error both wallets have their old UTR and STR, every chain inside every token included, although tokens are extended in place |
| Custody.MoveEffect | protocol/payment_session.py:36-39 | one direction goes through iff tokens can be chosen, a key is there and the taker accepts every token; then exactly the chosen tokens move |
| Custody.MoveReason | protocol/payment_session.py:36-39 | a direction fails for the reason of the choice, for the missing key, or because the taker refuses a token |
| Custody.ProcessPaymentIff | wallet/wallet.py:102-109 | refused as underpaid iff the tokens are worth less than the price; otherwise change worth at least the excess, or insufficient funds iff the register is worth less than it |
| Custody.SessionMovesTokens | protocol/payment_session.py:36-49 | payment tokens leave the sender, each extended by one transfer; change comes from what the receiver held before the session, never from the payment; all else stays |
| Custody.SessionSettles | protocol/payment_session.py:36-49 | a completed session pays at most the price; the price exactly iff the receiver, payment included, has an exact subset for the change, and otherwise less by under the largest change token |
| Custody.SessionSucceedsIff | protocol/payment_session.py:35-55 | success iff payment tokens can be chosen and the receiver spent none, and change can be chosen and the sender spent none of it, this payment included |
| Custody.SessionSucceedsIffFunded | protocol/payment_session.py:35-55 | with no negative token: success iff price >= 0, the sender's total covers it, no payment token was spent by the receiver and no change token by the sender; choosing change never fails |
| Custody.SessionReason | protocol/payment_session.py:35-55 | between healthy wallets with their keys a session fails for the choice of payment, for a token the receiver spent, for the choice of change, or for a token the sender spent, in this order, and never as underpaid |
| Custody.SessionKeeps | protocol/payment_session.py:35-49 | a completed session keeps both wallets healthy, their tokens apart, their common set of tokens and their common value |
| Custody.RunKeepsCustody | protocol/payment_session.py:20-55 | over any run of sessions, completed or aborted, and syncs among any number of wallets: every unspent token is owned and validated, in one register only, and neither the set of unspent tokens nor their total value ever changes |
| Custody.ExactlyOneOwner | wallet/wallet.py:111-129 | at any point of a run each token of the start is in exactly one unspent register, whose wallet is its owner and where its chain validates |
| Custody.SeedingKeepsCustody | wallet/wallet.py:45-51 | adding any token, new, held or spent before, succeeds iff it is owned and validated; custody then stays single iff no other wallet can spend its id, the id joins the spendable ones, and its value replaces what this wallet held under the id |
| Custody.AddTokenReason | wallet/wallet.py:47-50 | refused as not owned iff somebody else's, as invalid iff owned with a chain that does not validate |
| Custody.ReceivedPayloadIff | wallet/wallet.py:111-130 | received iff the payload is a token of the wallet's own, validated and not in its spent register, and then it is stored under its id and nothing else changes |
| Custody.AnyStepIff | wallet/wallet.py:45-134 | one event, replayed payloads and added tokens included, keeps custody single iff it brings no wallet a token that another can spend; spendable ids never disappear |
| Custody.AlwaysCustodialIff | wallet/wallet.py:45-134 | over any such run custody is single at every moment iff no event brings a wallet a token that another can spend at that moment |
| Custody.OneOwnerOverRuns | wallet/wallet.py:45-134 | then each token of the start is at the end in exactly one unspent register, that of its owner |
| Custody.ReplayIff | wallet/wallet.py:111-134 | an old payload is taken again iff its id is not in the spent register, after a settlement iff it was not there or was settled |
| Custody.SyncReopensReplay | wallet/wallet.py:111-134 | a payload refused because the token was paid on is taken after its settlement, and then two wallets can spend it |
| Reconciliation.ReconciliationEngine.Submit | issuer/reconciliation.py:38-66 | the verdict and the new ledger, the checks in the order chain, expiry, hops (against the limit of a policy attached to the token, or 7), duplicate; every rejection leaves the ledger unchanged |
| Reconciliation.AnswerIff | issuer/reconciliation.py:38-58 | accepted iff the chain validates, the expiry is a date not past, there are at most 7 transfers or as many as an attached policy allows, and the id is new; the first of these that fails is the reason, and only an accepted token changes the ledger |
| Reconciliation.FirstValidClaimWins | issuer/reconciliation.py:38-58 | over any run exactly the first claim on a token id that passes the checks is accepted; its record is never changed, and no other record appears |
| Reconciliation.SettledAtMostIssued | issuer/reconciliation.py:38-58 | from any ledger, the value accepted for an issuer with one issuance per id is at most the positive values it signed and had not settled |
| Reconciliation.IssuerNeverOverpays | issuer/reconciliation.py:38-58 | from an empty ledger, the value accepted for such an issuer is at most the positive values it signed, which is everything it signed when it signed no negative value |
| Reconciliation.HeldTokenSettlesIff | issuer/reconciliation.py:42-58 | after any run of sessions a token some wallet can spend is settled iff its expiry is a date not past, it has at most 7 transfers, or as many as an attached policy allows, and its id is not settled yet |
| DpcChain.TransferChain.ValidateIntegrity | dpc/token_model.py:284-312 | the loop reports the error of the first failing check, in the order of the code |
| DpcChain.IntactIff | dpc/token_model.py:284-312 | a chain validates iff the issuer signed the token, the chain is not empty, its last hop is within the limit, and every record names the token and amount, is hashed onto the one before, signed by its sender, and starts, continues or resets the hop count |
| DpcChain.TransferChain.Append | dpc/token_model.py:325-337 | accepts iff hash and hop continue the tip, and then adds the record; otherwise the chain is unchanged |
| DpcChain.AppendKeepsIntactIff | dpc/token_model.py:325-337 | extending a valid chain keeps it valid iff append accepts the record and it also carries the token, amount, hop limit, hash and signature append does not check |
| DpcChain.AppendErrorIff | dpc/token_model.py:325-337 | append accepts a record iff it carries the tip's hash and, unless it is the first, hop index 1 or the next one |
| DpcChain.TipHashFixesPayloads | dpc/token_model.py:150-158 | equal tip hashes over hash-linked records mean equal length and equal payloads, whatever the starting digest, because hop index 0 occurs only at the first record |
| DpcChain.TipHashFixesHistory | dpc/token_model.py:284-312 | two validated chains with the same tip hash have the same length, the same payload at every position, and the same token id and amount |
| DpcChain.BuiltIsIntact | dpc/wallet.py:196-223 | every chain made by mint, split and send validates, and no record in it passes the hop limit |
| DpcChain.NoReturnIsShort | dpc/wallet.py:205-212 | a chain that never goes back to a former sender has at most eight records |
| DpcChain.EightTransfersReturn | dpc/wallet.py:205-212 | any eight transfers in a row after the first record include a return to a former sender |
| DpcChain.AnyoneCanExtend | dpc/token_model.py:299-312 | validation does not require the sender of a record to be the receiver of the one before |
| DpcChain.AppendContinuousIff | dpc/token_model.py:325-337 | extending a validated chain in which each sender is the last receiver by an accepted record keeps it so iff the record's sender is the last receiver |
| DpcChain.InnerHopsUnbounded | dpc/token_model.py:294-309 | for every n there is a chain that validates and contains hop index n |
| DpcChain.AllHopsBoundedIff | dpc/token_model.py:294-312 | in a validated chain every hop is within the limit iff every non-empty prefix of the chain validates |
| DpcWallet.UnspentTokenRegister.AddReceipt | dpc/wallet.py:37-62 | refuses a held id, a returning token whose tip was seen, a new token with any seen nonce, or a receipt over the cap, and then changes nothing; otherwise the id becomes unspent and all its nonces seen |
| DpcWallet.UnspentTokenRegister.Spend | dpc/wallet.py:64-75 | moves a held id to the spent ids and returns its receipt; an unknown id changes nothing |
| DpcWallet.UnspentTokenRegister.RestoreUnspent | dpc/wallet.py:77-85 | puts the receipt back and drops the spent mark |
| DpcWallet.UnspentTokenRegister.TotalBalance | dpc/wallet.py:87-94 | the loop adds up every entry once, in whatever order it visits them |
| DpcWallet.BalanceSplit | dpc/wallet.py:87-94 | the balance is any entry's amount plus the balance of the others |
| DpcWallet.DPCWallet.ReceiveToken | dpc/wallet.py:173-187 | accepts iff unexpired, validated, addressed to this key and admitted by the register; on any error the register is unchanged |
| DpcWallet.DPCWallet.SendToken | dpc/wallet.py:189-226 | spends the token and returns the chain with one record more, or restores it on every error |
| DpcWallet.DPCWallet.SwapChange | dpc/wallet.py:228-253 | spends the token for two new ones, or restores it on the two split-amount errors only |
| DpcRuns.FailedSendInvisibleIff | dpc/wallet.py:224-226 | a failed send leaves the register as it was iff the held id was not also marked spent |
| DpcRuns.FailedSplitInvisibleIff | dpc/wallet.py:235-253 | a failed split leaves the register as it was iff the held receipt carries its token |
| DpcRuns.TokenlessReceiptLost | dpc/wallet.py:37-62 | an empty register takes in a receipt without its token, and a split of it fails and leaves its id spent and its entry gone |
| DpcRuns.SplitEffect | dpc/wallet.py:238-250 | two positive amounts within the cap that add up to the original, under its expiry; the new chains validate iff the issuer label is the splitter's own key |
| DpcRuns.SentChainIntactIff | dpc/wallet.py:196-223 | a returned chain validates iff the receipt's final hop carries the token's amount |
| DpcRuns.SoundSends | dpc/wallet.py:189-226 | a wallet in its invariant only returns validated chains, one record longer, from its own key to the receiver |
| DpcRuns.RunKeepsRegister | dpc/wallet.py:37-85 | over any run: spent and unspent ids stay disjoint, every held nonce is seen, no accepted id is forgotten, and without negative amounts the balance never passes the cap |
| DpcRuns.TipsAcceptedOnce | dpc/wallet.py:44-62 | over any run no chain-tip nonce is accepted twice, nor one seen before, even as tokens leave and return |
| DpcRuns.CapKeptIff | dpc/wallet.py:57-85 | amounts of either sign: the balance stays under the cap throughout a run iff no event of it sends on an unexpired token of negative amount with a hop left, the other tokens being worth more than the cap |
| DpcRuns.SplitKeepsCap | dpc/wallet.py:228-253 | a split never raises the balance |
| DpcRuns.SentIff | dpc/wallet.py:196-226 | from a wallet in its invariant a held token of any amount is sent on iff the clock is between issuance and expiry, it is worth at most 100 000 and the next hop, 1 on a return and otherwise one more, is at most 7; the first of these that fails is the error, and the register stays as it is |
| DpcRuns.NegativeTokenBreaksCap | dpc/wallet.py:57-59 | three events with a token of amount -1 after which the balance is over the cap |
| DpcRuns.HopLimitOverRuns | dpc/wallet.py:189-290 | over any run of any network from empty wallets, in every chain ever minted, sent or split off: every hop index is at most 7, no returns means at most eight records, and any eight transfers include a return |
| DpcRuns.ContinuousOverRuns | dpc/wallet.py:173-290 | over any run of any network from empty wallets, in every chain ever minted, sent or split off each sender is the receiver of the record before |
| DpcTransfers.ExpiredIff | dpc/token_model.py:33-45 | expired iff the clock is past the expiry; an error iff it is before the issuance |
| DpcTransfers.MintedIff | dpc/reconciliation_engine.py:44-64 | a token is minted iff 0 < amount <= 100 000; it validates on one record from issuer to receiver and is in time for exactly 604 800 seconds |
| DpcTransfers.SentRecord | dpc/wallet.py:204-223 | a successful send adds exactly one signed record, linked to the last, with the token's amount and the hop of the rule, and moves the id to the spent ones |
| DpcTransfers.AnySentIff | dpc/wallet.py:198-214 | the same for a register that holds anything: in time, final hop at most 100 000, chain validated, next hop at most 7, in this order |
| DpcTransfers.NothingToSend | dpc/wallet.py:64-75 | an id that is not held, or a receipt without its token, is neither sent nor split |
| DpcTransfers.SplitIff | dpc/wallet.py:237-253 | split iff both parts are positive and at most 100 000; each part is issued now, under its drawn id and nonce, the given label and the original expiry, signed by the splitter |
| DpcTransfers.AddedIff | dpc/wallet.py:44-62 | a receipt is added iff its id is not held, its last nonce (returning) or all its nonces (new) are unseen, and it fits under 1 000 000; the first of these that fails is the error |
| DpcTransfers.ReceivedIff | dpc/wallet.py:180-187 | accepted iff in time, validated, addressed to this key, not held, new by the nonce rule, and within the cap; the first of these that fails is the error |
| DpcTransfers.ReceivedRecord | dpc/wallet.py:185-187 | an accepted token is held with its whole chain and the time read, no longer counts as spent, and all its nonces are seen |
| DpcTransfers.IntegrityReason | dpc/token_model.py:294-317 | a chain is refused for its last hop index, for a signature (the issuer's, or that of the first record that is not in order) or for anything else, each iff |
| DpcTransfers.SendingBackWorks | dpc/wallet.py:196-223 | over any run from empty wallets a held token can be sent to any of its former senders until it expires, starting over at hop 1 |
| DpcTransfers.GivenAwayIsTakenBack | dpc/wallet.py:44-62 | after any such run a token that changed hands and that the wallet gave away is taken in again when delivered in time, with a new last nonce and room under the cap |
| DpcTransfers.TokensComeHome | dpc/wallet.py:173-226 | the two together over runs: sent back, whatever happens in between, and delivered, the token is held again by the wallet that gave it away |
| DpcCustody.NetworkCustody | dpc/wallet.py:37-290 | over any run of wallets with different keys and new token ids, whatever is delivered late, twice or never: no token is held by two wallets, and all of them together never hold more than was minted, splits included |
| DpcLedger.IssuerLedger.MintToken | dpc/reconciliation_engine.py:37-64 | refuses amounts outside the cap and changes nothing; otherwise issues a signed token on a one-record chain and books it |
| DpcLedger.IssuerLedger.SettleToken | dpc/reconciliation_engine.py:66-93 | the settlement, its repetition to the same claimer, or the conflict that blacklists a later claimer |
| DpcLedger.IssuerLedger.ProxySync | dpc/reconciliation_engine.py:95-107 | settles the submissions in turn, keeps what was settled when one fails, and names the proxy on each result |
| DpcLedger.SettledEffect | dpc/reconciliation_engine.py:66-93 | an invalid claim changes nothing and fails; a valid one leaves the token settled to the first claimer and blacklists the claimer iff that is somebody else |
| DpcLedger.ClaimReason | dpc/reconciliation_engine.py:73-92 | why a claim fails: unknown id, a chain that does not validate, not the final receiver, or settled to somebody else, in this order; only the last is put on file, after the earlier conflicts |
| DpcLedger.MintIsBooked | dpc/reconciliation_engine.py:58-64 | the book entry of a minted token agrees with the token; a refused mint leaves no trace |
| DpcLedger.FirstClaimLedger | dpc/reconciliation_engine.py:66-93 | over any run: settled ids are minted ids, each settlement records a claim by the final receiver of a validated chain, and a key is blacklisted iff it made such a claim for a token settled to somebody else |
| DpcLedger.SettlementIsFinal | dpc/reconciliation_engine.py:78-93 | a settlement once recorded is never changed or removed |
| DpcLedger.ProxySyncIsPrefixRun | dpc/reconciliation_engine.py:95-107 | a proxy sync is a run of single settlements up to and including the first failure, and returns results iff none fails |
| DpcLedger.HeldTokenSettlesIff | dpc/reconciliation_engine.py:73-93 | after any run of a wallet, a token it holds is settled for it iff it was minted here and not settled to somebody else, and the claim blacklists the wallet only in that last case |
| DpcLedger.AnyoneCanClaim | dpc/reconciliation_engine.py:73-77 | for every minted id anyone can make a token of any amount that is a valid claim on it |
| DpcLedger.MintedIsBooked | dpc/reconciliation_engine.py:58-63 | over any run each minted id is booked with the issuer's signature over the token it was made for |
| DpcLedger.ClaimIsForMintedIff | dpc/reconciliation_engine.py:58-77 | a valid claim is for the minted token iff it carries the booked signature |
| OfflineWallet.Wallet.ReceiveToken | wallet/offline_wallet.py:29-35 | takes in a token iff it is owned and fits under the cap; otherwise nothing changes |
| OfflineWallet.Wallet.CheckSpendable | wallet/offline_wallet.py:60-64 | returns the spendable tokens in register order and flags exactly the ids of the others for synchronisation |
| OfflineWallet.Wallet.SelectTokensFromPool | wallet/offline_wallet.py:94-103 | the shortest ascending prefix of the pool that covers the amount, or none |
| OfflineWallet.Wallet.CreatePayment | wallet/offline_wallet.py:52-92 | the payment, or the error and what was flagged before it: selected tokens move to the STR, and each travels with one signed transfer linked to its last one |
| OfflineWallet.Wallet.ApplyTransferWithReason | wallet/offline_wallet.py:114-163 | the first failing check decides the reason and changes nothing; an accepted transfer stores the token with one hop more and remembers the transfer id |
| OfflineWallet.Wallet.ReceiveBundleWithReasons | wallet/offline_wallet.py:183-190 | applies the transfers in turn; a transfer without its token ends it and keeps what was applied |
| OfflinePayments.DepositedIff | wallet/offline_wallet.py:29-35 | taken in iff owned and within the cap, stored under its id and nothing else changed; otherwise the first of these that fails is the error |
| OfflinePayments.PaymentIff | wallet/offline_wallet.py:52-66 | paid iff the amount is positive, within the limit of one payment, and covered by the tokens that are at most the expiry period old and have a hop left, values of either sign included; the first of these that fails is the error |
| OfflinePayments.PaymentWorth | wallet/offline_wallet.py:94-103 | the bundled tokens are worth at least the amount, and less without the last one; they ascend, and no such token left behind is worth less than one that was paid |
| OfflinePayments.PaymentEffect | wallet/offline_wallet.py:58-92 | exactly the bundled tokens move to the STR, as they were; exactly the tokens too old or out of hops are flagged; a failed payment moves nothing |
| OfflinePayments.PaymentHandsOver | wallet/offline_wallet.py:69-92 | each transfer is signed by the payer over one held token, continues its last transfer and counts one more hop; no token is handed over twice |
| OfflineRuns.PaymentSelects | wallet/offline_wallet.py:59-92 | a payment takes distinct tokens of the register that all have a hop left, in ascending order of value, and bundles exactly those |
| OfflineRuns.CapLimitedBundle | wallet/offline_wallet.py:145-190 | of an honest, unexpired bundle of tokens the receiver does not hold, a prefix is accepted, the rest is refused for the cap only, and the prefix is what the receiver gains; it fits and is as long as any sub-collection of the bundle that fits, iff the receiver is not over its cap or its first token brings it there |
| OfflineRuns.HopsStayCounted | wallet/offline_wallet.py:29-90 | over any run of mints, deposits of minted tokens, payments and deliveries, late, repeated or to anyone: every token held or on its way has nonce and hop count in step and at most the hop limit |
| OfflineRuns.AcceptedOnce | wallet/offline_wallet.py:116-162 | a transfer a wallet accepted is refused by it as a replay ever after, whatever happened in between and whatever token or record comes under its id, and the refusal changes nothing |
| OfflineRuns.CapKeptOverRuns | wallet/offline_wallet.py:29-151 | over any run of mints of non-negative tokens, deposits of them, however often, payments and deliveries no wallet holds more than the cap, replayed and overwritten tokens included |
| OfflineArrivals.AppliedIff | wallet/offline_wallet.py:114-146 | any transfer of any token is accepted iff its id is new, it is for this wallet, both counts are within the limit, its three links match, the token is at most the expiry period old, the sender's key signed exactly this transfer and the value fits; the first of these that fails is the reason |
| OfflineArrivals.AppliedEffect | wallet/offline_wallet.py:148-163 | an accepted token is stored under its own id with this transfer as its last and one hop more, and the transfer is remembered; a refused one changes nothing |
| OfflineArrivals.ReceivedIsRun | wallet/offline_wallet.py:183-190 | a bundle is received like its transfers one by one, each judged on what the ones before it left; the first one without its token ends it |
| OfflineArrivals.OnlySignedOver | wallet/offline_wallet.py:114-190 | over any run, arbitrary bundles from anyone included, as long as nobody forges a member's signature: every held token was minted and deposited as it was, or its last transfer is for this wallet and signed by its sender, and a member as sender made it in a payment |
| OfflineArrivals.OtherTokenAcceptedIff | wallet/offline_wallet.py:183-190 | in place of the token an honest sender handed over, any other is accepted iff it has the same last transfer, is young enough and fits |
| OfflineCustody.DepositKeepsSingleIff | wallet/offline_wallet.py:29-35 | one accepted deposit of any token keeps every token in at most one unspent register iff no other wallet holds the deposited one |
| OfflineCustody.DepositOnePlaceIff | wallet/offline_wallet.py:29-35 | one accepted deposit keeps each token in one place, held or on its way, iff no other wallet holds the deposited one and no transfer of it may still be accepted |
| OfflineCustody.OnePlaceIff | wallet/offline_wallet.py:29-190 | over any run with new minted ids, whatever is delivered late, twice or never, each token is in one place at every moment iff no deposit takes in a minted token that another wallet holds or that is still on its way |
| OfflineCustody.NetworkCustody | wallet/offline_wallet.py:29-190 | over any such run from empty wallets with different keys in which no deposit does so: no token is in two unspent registers, and unless a negative token was minted the wallets never hold more than was minted |
| OfflineCustody.DepositedOnceIsCustody | wallet/offline_wallet.py:29-190 | the same for every run that deposits each minted token at most once |
| OfflineCustody.RedepositDoubles | wallet/offline_wallet.py:29-35 | a concrete run that deposits a token again after it was paid on: 5 minted, 10 held by two wallets |
| RecoveryServer.Issuer.MintToken | issuer/issuer.py:18-23 | a signed root token, filed under its id |
| RecoveryServer.RecoveryEngine.RevokeWallet | issuer/reconciliation_server.py:32-33 | the key is revoked as of now, whatever was recorded before |
| RecoveryServer.ReconciliationServer.ProcessBundle | issuer/reconciliation_server.py:79-120 | submits the transfers in turn; one without its token ends it and keeps what was settled |
| RecoveryServer.ReconciliationServer.SubmitTransfer | issuer/reconciliation_server.py:83-119 | the first failing check decides the record and changes nothing; an accepted transfer is entered in all five books |
| RecoveryServer.ReconciliationServer.ReissueRecoveredBalance | issuer/reconciliation_server.py:196-217 | an error before the wait is over, nothing for a pair already served, otherwise the safe tokens are minted in order and the pair is marked |
| RecoveryRuns.RootVerifiedIff | issuer/reconciliation_server.py:69-74 | with a genuine book of issued tokens the issuer check is membership of the origin id |
| RecoveryRuns.AssessIff | issuer/reconciliation_server.py:89-117 | for any transfer of any token, which of the eleven answers is given, each iff, with the checks and bounds written out; conflicts and repetitions are double spends, the other refusals violations of policy |
| RecoveryRuns.TamperedRootRefused | issuer/reconciliation_server.py:69-74 | an issued token whose fields are no longer those the issuer signed is the origin of nothing |
| RecoveryRuns.NewTokenIs | issuer/issuer.py:18-23 | a new token carries the issuer's signature over its own fields, no transfer, no hop, the drawn dates, and itself as origin |
| RecoveryRuns.ProcessedIsRun | issuer/reconciliation_server.py:79-120 | a bundle is settled like its transfers one by one, each judged on what the ones before it left |
| RecoveryRuns.MissingTokenEnds | issuer/reconciliation_server.py:83 | the first transfer without its token ends a bundle: nothing after it is looked at, nothing before it undone |
| RecoveryRuns.RunFilesHashes | issuer/reconciliation_server.py:115 | over any run the hash on file for a transfer id is that of the last transfer accepted under it |
| RecoveryRuns.VerdictIff | issuer/reconciliation_server.py:89-117 | called a double spend iff the transfer is well formed and its token was settled before, a conflict iff that settlement continued another chain; settled iff well formed, not settled before, not from a revoked sender and not expired |
| RecoveryRuns.RunKeepsBooks | issuer/reconciliation_server.py:79-120 | over any run no token id is settled twice, ledger, chain keys, times and accepted transfers agree, and a record once made is never changed or lost |
| RecoveryRuns.SelfMadeSettles | issuer/reconciliation_server.py:69-117 | a self-made token of any value under a new id that names an issued token as its origin is settled |
| RecoveryRuns.OriginsOnceIff | issuer/reconciliation_server.py:103-117 | a settlement keeps each issued token settled at most once iff its origin was not settled before |
| RecoveryRuns.IssuedTokensSettleOnce | issuer/reconciliation_server.py:79-120 | over any run of a new server, bundles of tokens that are their own origin settle each issued token at most once |
| RecoveryRuns.HonestIsOwnOrigin | digital_token/poc_models.py:43-54 | a minted token is its own origin, and a payment leaves it so |
| RecoveryRuns.HonestPaymentSettlesIff | issuer/reconciliation_server.py:89-117 | a transfer made by an honest wallet for a token of issued origin is settled iff the token id is new to the ledger, the sender was not revoked by then, and the token is not expired |
| LostWallets.ClaimedIdIff | issuer/reconciliation_server.py:167-187 | at any time, before the window closes or after, an issued id of the key counts as claimed iff some accepted transfer of that origin has another receiver and was settled by now and, for a revoked key, at most the expiry period after the revocation |
| LostWallets.ClaimsOnlyGrow | issuer/reconciliation_server.py:173-187 | a later report on the same books counts no fewer claims |
| LostWallets.RecoveryAccounting | issuer/reconciliation_server.py:162-194 | issued = claimed + safe, as totals and as collections of tokens; the safe ones are exactly the issued tokens with no such settlement |
| LostWallets.ReportStableIff | issuer/reconciliation_server.py:173-188 | after the window later settlements can only release claims; the report is unchanged iff every claim keeps a settlement whose transfer id was not settled again |
| LostWallets.SettlementChangesReportIff | issuer/reconciliation_server.py:103-117 | one more transfer after the window changes the report iff it passes the checks and some claimed token has all its claims under this transfer's id |
| LostWallets.RecoveryIsStable | issuer/reconciliation_server.py:162-194 | after the window, no run of later settlements, mints and reissues to others and revocations of others changes the report, at any later reading of the clock, if a transfer id names one token |
| LostWallets.ReusedTransferIdReleasesClaim | issuer/reconciliation_server.py:117 | a concrete server on which a reused transfer id turns a claimed token safe again |
| LostWallets.ReissueMintsSafeBalance | issuer/reconciliation_server.py:196-217 | past the wait, for a new pair, the new key is issued exactly the safe tokens' values in order: its total grows by the safe balance, and only the issuer's book and the served pairs change |
| LostWallets.RepeatMintsNothing | issuer/reconciliation_server.py:206-207 | a pair once served mints nothing and changes nothing ever again, whatever happens in between |
| LostWallets.SecondKeyMintsAgain | issuer/reconciliation_server.py:206-216 | the same lost key reissued to a second key mints the same values a second time |
| RecoveryWindow.ExpiredAfterWindowIff | issuer/reconciliation_server.py:42-43 | a token is expired at every moment past the window iff it was issued before the second of the revocation, one microsecond added |
| RecoveryWindow.NothingSettledAfterWindow | issuer/reconciliation_server.py:110-111 | past the window no transfer of a token that descends from such a token of the lost key is accepted |
| RecoveryWindow.RevokedInTime | issuer/reconciliation_server.py:32-33 | at a revocation not dated before the settlements so far, all of them are dated within the window |
| RecoveryWindow.CarefulRunInTime | issuer/reconciliation_server.py:79-120 | over any run with true issue dates, clocks read in order and no transfer id reused for another token, every settlement of the lost key's tokens is dated within the window |
| RecoveryWindow.NoneBothIff | issuer/reconciliation_server.py:173-188 | past the window the report pays out no token settled to somebody else iff each such token has such a settlement dated within the window |
| RecoveryWindow.SettledOrReissued | issuer/reconciliation_server.py:79-217 | a careful run, then the reissue, then any run with true issue dates and a clock past the wait: the values reissued are those of exactly the lost key's tokens never settled to somebody else, before or after, and with the ones settled away they make up all that was issued |
| RecoveryWindow.LateTokenSettledAndReissued | issuer/reconciliation_server.py:110-217 | a token issued in the second of the revocation is accepted when the wait is over and reissued as well |
| RecoveryWindow.ReissueMintsNothingIff | issuer/reconciliation_server.py:196-217 | past the wait, a reissue mints nothing iff the pair was served or no token is safe |
| RecoveryWindow.ReissueTotal | issuer/reconciliation_server.py:196-217 | after the window any quiet run reissues for a lost key, in all, the safe balance times the number of new keys it serves |

## Left out

- ReconciliationEngine.Submit: a limit in an attached policy is an integer; text that would have to be converted is not modelled.
- SearchIsOptimal: positions, not object identities, tell equal tokens apart.
- OfflineCustody.OnePlaceIff: runs deposit minted tokens only; a deposit of any other token is covered one at a time (`DepositKeepsSingleIff`, `DepositOnePlaceIff`).
- RecoveryWindow.SettledOrReissued: the lost key is revoked once and nothing more is minted to it.
- A session of a wallet with itself; the theorems are about two different wallets.
- Sending a single token without an amount, which takes the lexicographically smallest id (wallet/wallet.py:88-95).
- JSON text, `save` and `load`, file access, printing, demos and balance formatting.
- Key stores that change during a session, and encodings of private keys; a missing key is modelled.
- Parsing of expiry dates and time zones: an expiry is an instant or not a date. Hexadecimal text that does not parse is not modelled either.
- Proxy-sync heartbeats and `is_token_expired` of the recovery server (issuer/reconciliation_server.py:122-149): single-branch lookups.
- `select_tokens` and the boolean variants of receiving in the offline wallet (wallet/offline_wallet.py:41-50, 165-181): the same loops with less in the result.
- The cryptographic libraries themselves, replaced by the ideal model above.
- `dpc_poc/dpc/*`, another version of the same wallet over floating point with weaker chain checks; `protocol/transfer_protocol.py`, `protocol/cash_payment.py` and `protocol/proxy_sync.py`, dictionary lookups and single checks.
- Bluetooth, session encryption and network simulators.
