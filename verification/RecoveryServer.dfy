/**
 The issuer and the server that settles bundles and replaces the money of lost wallets
 (issuer/issuer.py, issuer/reconciliation_server.py).
 */
module RecoveryServer {
  import opened Basics
  import opened Dicts
  import opened PocModels

  datatype Status = Settled | DoubleSpend | PolicyViolation

  datatype Reason =
    | Fine | BadTransferSig | BadIssuerSig | MaxHopsExceeded | BrokenParentLink | BrokenParentHashLink | BrokenHashLink
    | ConflictingChain | TokenAlreadySettled | RevokedSender | TokenExpired

  datatype SettlementRecord = SettlementRecord(tokenId: string, transferId: string, status: Status, reason: Reason)

  datatype ChainKey = ChainKey(parentId: Option<string>, prevHash: Option<Digest>, hopCount: int)

  datatype ServerError = MissingToken | RecoveryWaitNotElapsed

  datatype Server = Server(
    issuerKey: Key, issued: Dict<Token>, ledger: map<string, SettlementRecord>, chains: map<string, ChainKey>,
    hashes: map<string, Digest>, accepted: seq<(Transfer, Token)>, times: map<string, int>,
    revoked: map<Key, int>, reissued: set<(Key, Key)>)

  // ---------- settling bundles ----------

  /** _verify_issuer_root: the token the bundled one descends from was issued, and carries the issuer's signature. */
  predicate RootVerified(issuerKey: Key, issued: Dict<Token>, t: Token) {
    Has(issued, t.Origin()) &&
    var root := Get(issued, t.Origin());
    root.issuerSignature == Signed(issuerKey, root.MintPayload())
  }

  function ChainKeyOf(transfer: Transfer): ChainKey {
    ChainKey(transfer.body.parentTransferId, transfer.body.prevTransferHash, transfer.body.hopCount)
  }

  /** The checks of one transfer, in the order in which they are made */
  function Assess(policy: PolicyConfig, s: Server, transfer: Transfer, t: Token, now: int): Reason {
    var b := transfer.body;
    if !transfer.SignedBySender() then BadTransferSig
    else if !RootVerified(s.issuerKey, s.issued, t) then BadIssuerSig
    else if b.hopCount > policy.maxHops then MaxHopsExceeded
    else if b.nonce > policy.maxHops then MaxHopsExceeded
    else if b.parentTransferId != t.lastTransferId then BrokenParentLink
    else if b.parentTransferHash != t.lastTransferHash then BrokenParentHashLink
    else if b.prevTransferHash != t.lastTransferHash then BrokenHashLink
    else if t.tokenId in s.chains && s.chains[t.tokenId] != ChainKeyOf(transfer) then ConflictingChain
    else if t.tokenId in s.ledger then TokenAlreadySettled
    else if b.senderPk in s.revoked && b.timestamp >= s.revoked[b.senderPk] then RevokedSender
    else if t.IssueExpired(policy, now) then TokenExpired
    else Fine
  }

  function StatusOf(reason: Reason): Status {
    match reason
    case Fine => Settled
    case ConflictingChain => DoubleSpend
    case TokenAlreadySettled => DoubleSpend
    case _ => PolicyViolation
  }

  /** The two clock readings made for one transfer */
  datatype Reading = Reading(settledAt: int, checkedAt: int)

  function Entered(s: Server, transfer: Transfer, t: Token, record: SettlementRecord, settledAt: int): Server {
    var id := transfer.body.transferId;
    s.(ledger := s.ledger[t.tokenId := record], chains := s.chains[t.tokenId := ChainKeyOf(transfer)],
       hashes := s.hashes[id := HashOf(transfer)], accepted := s.accepted + [(transfer, t)],
       times := s.times[id := settledAt])
  }

  function Submitted(policy: PolicyConfig, s: Server, transfer: Transfer, t: Token, reading: Reading)
    : (Server, SettlementRecord)
  {
    var reason := Assess(policy, s, transfer, t, reading.checkedAt);
    var record := SettlementRecord(t.tokenId, transfer.body.transferId, StatusOf(reason), reason);
    (if reason.Fine? then Entered(s, transfer, t, record, reading.settledAt) else s, record)
  }

  /** The first n rounds of process_bundle */
  function Processed(policy: PolicyConfig, s: Server, bundle: PaymentBundle, n: nat, clock: nat -> Reading)
    : (r: (Server, Result<seq<SettlementRecord>, ServerError>))
    requires n <= |bundle.transfers|
    ensures r.1.Ok? ==> |r.1.value| == n
  {
    if n == 0 then (s, Ok([])) else
      var (before, done) := Processed(policy, s, bundle, n - 1, clock);
      var transfer := bundle.transfers[n - 1];
      if done.Err? then (before, done)
      else if transfer.body.tokenId !in bundle.tokens then (before, Err(MissingToken))
      else
        var (after, record) := Submitted(policy, before, transfer, bundle.tokens[transfer.body.tokenId], clock(n - 1));
        (after, Ok(done.value + [record]))
  }

  // ---------- recovery ----------

  /** The issued tokens still in the name of a key, in the order they were issued */
  function IssuedTo(tokens: seq<Token>, key: Key): seq<Token> {
    if tokens == [] then [] else
      var n := |tokens| - 1;
      IssuedTo(tokens[..n], key) + (if tokens[n].currentOwner == key then [tokens[n]] else [])
  }

  function IdsOf(tokens: seq<Token>): (ids: seq<string>)
    ensures |ids| == |tokens|
  {
    seq(|tokens|, i requires 0 <= i < |tokens| => tokens[i].tokenId)
  }

  /** The tokens with an id in the set, or those with an id outside it */
  function WithIds(tokens: seq<Token>, ids: set<string>, inside: bool): seq<Token> {
    if tokens == [] then [] else
      var n := |tokens| - 1;
      WithIds(tokens[..n], ids, inside) + (if (tokens[n].tokenId in ids) == inside then [tokens[n]] else [])
  }

  /** No claim counts after the recovery window, nor after the moment of the report. */
  function Cutoff(policy: PolicyConfig, s: Server, key: Key, now: int): int {
    if key in s.revoked && s.revoked[key] + policy.tokenExpirySeconds * MICROS < now
    then s.revoked[key] + policy.tokenExpirySeconds * MICROS
    else now
  }

  /** Settled to another key, by the cutoff */
  predicate Claims(s: Server, key: Key, entry: (Transfer, Token), now: int, cutoff: int) {
    entry.0.body.receiverPk != key &&
    (if entry.0.body.transferId in s.times then s.times[entry.0.body.transferId] else now) <= cutoff
  }

  /** externally_deposited_token_ids */
  function ClaimedIds(policy: PolicyConfig, s: Server, key: Key, now: int): set<string> {
    var ids := IdsOf(IssuedTo(TokensOf(s.issued), key));
    var cutoff := Cutoff(policy, s, key, now);
    set i | 0 <= i < |s.accepted| && s.accepted[i].1.Origin() in ids && Claims(s, key, s.accepted[i], now, cutoff)
      :: s.accepted[i].1.Origin()
  }

  function SafeTokens(policy: PolicyConfig, s: Server, key: Key, now: int): seq<Token> {
    WithIds(IssuedTo(TokensOf(s.issued), key), ClaimedIds(policy, s, key, now), false)
  }

  datatype Report = Report(issuedTotal: int, claimedTotal: int, safeBalance: int, safeTokenIds: seq<string>)

  /** reconstruct_recovery */
  function Recovery(policy: PolicyConfig, s: Server, key: Key, now: int): Report {
    var issuedTotal := Sum(ValuesOf(IssuedTo(TokensOf(s.issued), key)));
    var safe := SafeTokens(policy, s, key, now);
    var safeBalance := Sum(ValuesOf(safe));
    Report(issuedTotal, issuedTotal - safeBalance, safeBalance, IdsOf(safe))
  }

  predicate WaitElapsed(policy: PolicyConfig, revoked: map<Key, int>, key: Key, now: int) {
    key in revoked && now - revoked[key] > policy.tokenExpirySeconds * MICROS
  }

  /** The minting loop of reissue_recovered_balance */
  function MintedFor(issuerKey: Key, issued: Dict<Token>, newKey: Key, safe: seq<Token>, draws: nat -> MintDraw)
    : (r: (Dict<Token>, seq<Token>))
    ensures |r.1| == |safe|
  {
    if safe == [] then (issued, []) else
      var n := |safe| - 1;
      var (before, minted) := MintedFor(issuerKey, issued, newKey, safe[..n], draws);
      var t := MintedToken(issuerKey, newKey, safe[n].value, draws(n));
      (Put(before, t.tokenId, t), minted + [t])
  }

  /** reissue_recovered_balance; without an explicit time the wait and the report read the clock separately. */
  function Reissued(policy: PolicyConfig, s: Server, oldKey: Key, newKey: Key, waitNow: int, reportNow: int,
                    draws: nat -> MintDraw)
    : (Server, Result<seq<Token>, ServerError>)
  {
    if !WaitElapsed(policy, s.revoked, oldKey, waitNow) then (s, Err(RecoveryWaitNotElapsed))
    else if (oldKey, newKey) in s.reissued then (s, Ok([]))
    else
      var safeIds := Recovery(policy, s, oldKey, reportNow).safeTokenIds;
      var safe := WithIds(IssuedTo(TokensOf(s.issued), oldKey), set id | id in safeIds, true);
      var (issued, minted) := MintedFor(s.issuerKey, s.issued, newKey, safe, draws);
      (s.(issued := issued, reissued := s.reissued + {(oldKey, newKey)}), Ok(minted))
  }

  // ---------- the objects ----------

  class Issuer {
    const publicKey: Key
    var issuedTokens: Dict<Token>

    constructor (publicKey: Key)
      ensures this.publicKey == publicKey && issuedTokens == []
    {
      this.publicKey, issuedTokens := publicKey, [];
    }

    method MintToken(ownerPk: Key, value: int, draw: MintDraw) returns (token: Token)
      modifies this
      ensures token == MintedToken(publicKey, ownerPk, value, draw)
      ensures issuedTokens == Put(old(issuedTokens), token.tokenId, token)
    {
      token := Token(draw.tokenId, value, publicKey, ownerPk, 0, OtherSignature(""), None, None, 0,
                     draw.issueTimestamp, draw.createdAt, Some(draw.tokenId));
      token := token.(issuerSignature := Signed(publicKey, token.MintPayload()));
      issuedTokens := Put(issuedTokens, token.tokenId, token);
    }
  }

  class RecoveryEngine {
    const policy: PolicyConfig
    var revokedWallets: map<Key, int>
    var recoveryReissued: set<(Key, Key)>

    constructor (policy: PolicyConfig)
      ensures this.policy == policy && revokedWallets == map[] && recoveryReissued == {}
    {
      this.policy, revokedWallets, recoveryReissued := policy, map[], {};
    }

    method RevokeWallet(publicKey: Key, now: int)
      modifies this`revokedWallets
      ensures revokedWallets == old(revokedWallets)[publicKey := now]
    {
      revokedWallets := revokedWallets[publicKey := now];
    }
  }

  class ReconciliationServer {
    const issuer: Issuer
    const engine: RecoveryEngine
    const policy: PolicyConfig
    var ledger: map<string, SettlementRecord>
    var acceptedChains: map<string, ChainKey>
    var transferHashes: map<string, Digest>
    var acceptedTransfers: seq<(Transfer, Token)>
    var acceptedTransferTimes: map<string, int>

    constructor (issuer: Issuer, policy: PolicyConfig)
      ensures this.issuer == issuer && this.policy == policy && fresh(engine) && engine.policy == policy
      ensures Data() == Server(issuer.publicKey, issuer.issuedTokens, map[], map[], map[], [], map[], map[], {})
    {
      this.issuer, this.policy := issuer, policy;
      ledger, acceptedChains, transferHashes := map[], map[], map[];
      acceptedTransfers, acceptedTransferTimes := [], map[];
      engine := new RecoveryEngine(policy);
    }

    function Data(): Server
      reads this, issuer, engine
    {
      Server(issuer.publicKey, issuer.issuedTokens, ledger, acceptedChains, transferHashes, acceptedTransfers,
             acceptedTransferTimes, engine.revokedWallets, engine.recoveryReissued)
    }

    method ProcessBundle(bundle: PaymentBundle, clock: nat -> Reading)
      returns (r: Result<seq<SettlementRecord>, ServerError>)
      modifies this
      ensures (Data(), r) == Processed(policy, old(Data()), bundle, |bundle.transfers|, clock)
    {
      var results: seq<SettlementRecord> := [];
      for n := 0 to |bundle.transfers|
        invariant Processed(policy, old(Data()), bundle, n, clock) == (Data(), Ok(results))
      {
        var transfer := bundle.transfers[n];
        if transfer.body.tokenId !in bundle.tokens {
          MissingEnds(policy, old(Data()), bundle, n + 1, |bundle.transfers|, clock);
          return Err(MissingToken);
        }
        var record := SubmitTransfer(transfer, bundle.tokens[transfer.body.tokenId], clock(n));
        results := results + [record];
      }
      return Ok(results);
    }

    /** One round of ProcessBundle */
    method SubmitTransfer(transfer: Transfer, token: Token, reading: Reading) returns (record: SettlementRecord)
      modifies this
      ensures (Data(), record) == Submitted(policy, old(Data()), transfer, token, reading)
    {
      var reason := Assess(policy, Data(), transfer, token, reading.checkedAt);
      record := SettlementRecord(token.tokenId, transfer.body.transferId, StatusOf(reason), reason);
      if reason.Fine? {
        ledger := ledger[token.tokenId := record];
        acceptedChains := acceptedChains[token.tokenId := ChainKeyOf(transfer)];
        transferHashes := transferHashes[transfer.body.transferId := HashOf(transfer)];
        acceptedTransfers := acceptedTransfers + [(transfer, token)];
        acceptedTransferTimes := acceptedTransferTimes[transfer.body.transferId := reading.settledAt];
      }
    }

    method RevokeWallet(publicKey: Key, now: int)
      modifies engine`revokedWallets
      ensures Data() == old(Data()).(revoked := old(Data()).revoked[publicKey := now])
    {
      engine.RevokeWallet(publicKey, now);
    }

    function ReconstructRecovery(publicKey: Key, now: int): Report
      reads this, issuer, engine
    {
      Recovery(policy, Data(), publicKey, now)
    }

    method ReissueRecoveredBalance(oldKey: Key, newKey: Key, waitNow: int, reportNow: int, draws: nat -> MintDraw)
      returns (r: Result<seq<Token>, ServerError>)
      requires engine.policy == policy
      modifies issuer, engine
      ensures (Data(), r) == Reissued(policy, old(Data()), oldKey, newKey, waitNow, reportNow, draws)
    {
      hide IssuedTo, WithIds, Recovery, TokensOf, MintedToken, Put;
      if !WaitElapsed(engine.policy, engine.revokedWallets, oldKey, waitNow) {
        return Err(RecoveryWaitNotElapsed);
      }
      if (oldKey, newKey) in engine.recoveryReissued {
        return Ok([]);
      }
      var issuedForWallet := IssuedTo(TokensOf(issuer.issuedTokens), oldKey);
      var safeIds := ReconstructRecovery(oldKey, reportNow).safeTokenIds;
      var safe := WithIds(issuedForWallet, set id | id in safeIds, true);
      var reissued: seq<Token> := [];
      for n := 0 to |safe|
        invariant MintedFor(issuer.publicKey, old(issuer.issuedTokens), newKey, safe[..n], draws) ==
          (issuer.issuedTokens, reissued)
        invariant Data() == old(Data()).(issued := issuer.issuedTokens)
      {
        assert safe[..n + 1][..n] == safe[..n];
        var token := issuer.MintToken(newKey, safe[n].value, draws(n));
        reissued := reissued + [token];
      }
      assert safe[..|safe|] == safe;
      engine.recoveryReissued := engine.recoveryReissued + {(oldKey, newKey)};
      return Ok(reissued);
    }
  }

  lemma {:induction false} MissingEnds(policy: PolicyConfig, s: Server, bundle: PaymentBundle, n: nat, m: nat,
                                       clock: nat -> Reading)
    requires n <= m <= |bundle.transfers| && Processed(policy, s, bundle, n, clock).1.Err?
    ensures Processed(policy, s, bundle, m, clock) == Processed(policy, s, bundle, n, clock)
  {
    if n == m {
    } else {
      MissingEnds(policy, s, bundle, n, m - 1, clock);
    }
  }
}
