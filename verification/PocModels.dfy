/**
 Tokens, transfers and bundles of the offline wallet and the recovery server
 (digital_token/poc_models.py, protocol/policy.py, issuer/issuer.py). Instants are counted in
 microseconds; signatures and hashes are ideal.
 */
module PocModels {
  import opened Basics
  import opened Dicts

  type Key = string

  const MICROS := 1_000_000

  /** int(instant.timestamp()) */
  function Epoch(instant: int): int {
    instant / MICROS
  }

  datatype PolicyConfig = PolicyConfig(maxTxValue: int, maxHops: int, maxBalance: int, tokenExpirySeconds: int)

  datatype Digest = HashOf(transfer: Transfer) | OtherDigest(text: string)

  datatype Message =
    | MintMessage(
        tokenId: string, value: int, issuerPk: Key, ownerPk: Key, nonce: int, issueTimestamp: int,
        origin: Option<string>)
    | TransferMessage(body: TransferBody)

  datatype Signature = Signed(signer: Key, message: Message) | OtherSignature(text: string)

  datatype TransferBody = TransferBody(
    transferId: string, tokenId: string, senderPk: Key, receiverPk: Key, nonce: int, parentTransferId: Option<string>,
    parentTransferHash: Option<Digest>, prevTransferHash: Option<Digest>, hopCount: int, timestamp: int)

  datatype Transfer = Transfer(body: TransferBody, signature: Signature) {
    predicate SignedBySender() {
      signature == Signed(body.senderPk, TransferMessage(body))
    }
  }

  datatype Token = Token(
    tokenId: string, value: int, issuerPk: Key, currentOwner: Key, nonce: int, issuerSignature: Signature,
    lastTransferId: Option<string>, lastTransferHash: Option<Digest>, hopCount: int, issueTimestamp: int,
    createdAt: int, originTokenId: Option<string>)
  {
    function MintPayload(): Message {
      MintMessage(tokenId, value, issuerPk, currentOwner, nonce, issueTimestamp, originTokenId)
    }

    /** origin_token_id or token_id: an empty text counts as no origin. */
    function Origin(): string {
      if originTokenId.Some? && originTokenId.value != "" then originTokenId.value else tokenId
    }

    /** Older than the expiry period, by the whole seconds since it was issued */
    predicate IssueExpired(policy: PolicyConfig, now: int) {
      Epoch(now) - issueTimestamp > policy.tokenExpirySeconds
    }

    /** protocol.policy.is_not_expired negated */
    predicate CreationExpired(policy: PolicyConfig, now: int) {
      now - createdAt > policy.tokenExpirySeconds * MICROS
    }
  }

  datatype PaymentBundle = PaymentBundle(transfers: seq<Transfer>, tokens: map<string, Token>)

  /** The random id and the clock readings one mint draws */
  datatype MintDraw = MintDraw(tokenId: string, issueTimestamp: int, createdAt: int)

  /** Issuer.mint_token */
  function MintedToken(issuerPk: Key, ownerPk: Key, value: int, draw: MintDraw): Token {
    var unsigned := Token(draw.tokenId, value, issuerPk, ownerPk, 0, OtherSignature(""), None, None, 0,
                          draw.issueTimestamp, draw.createdAt, Some(draw.tokenId));
    unsigned.(issuerSignature := Signed(issuerPk, unsigned.MintPayload()))
  }

  function ValuesOf(tokens: seq<Token>): (vs: seq<int>)
    ensures |vs| == |tokens|
  {
    seq(|tokens|, i requires 0 <= i < |tokens| => tokens[i].value)
  }

  /** d.values() */
  function TokensOf(d: Dict<Token>): (ts: seq<Token>)
    ensures |ts| == |d|
  {
    seq(|d|, i requires 0 <= i < |d| => d[i].1)
  }

  ghost predicate KeyedById(d: Dict<Token>) {
    DistinctKeys(d) && forall i :: 0 <= i < |d| ==> d[i].0 == d[i].1.tokenId
  }

  /** Wallet.balance */
  function Balance(d: Dict<Token>): int {
    Sum(ValuesOf(TokensOf(d)))
  }

  lemma BalancePut(d: Dict<Token>, id: string, t: Token)
    requires !Has(d, id)
    ensures Balance(Put(d, id, t)) == Balance(d) + t.value
  {
    assert ValuesOf(TokensOf(Put(d, id, t))) == ValuesOf(TokensOf(d)) + [t.value];
    SumConcat(ValuesOf(TokensOf(d)), [t.value]);
    assert Sum([t.value]) == t.value;
  }
}
