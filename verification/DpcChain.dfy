/**
 Tokens and transfer chains of the dpc stack (dpc/token_model.py). Signatures and the chain
 hash are ideal: a signature names its signer and message, a digest its preimage.
 */
module DpcChain {
  import opened Basics

  const MAX_OFFLINE_HOPS := 7
  const MAX_WALLET_BALANCE := 1_000_000
  const MAX_SINGLE_TX := 100_000
  const TOKEN_TTL_SECONDS := 604_800

  type Key = string

  datatype Failure =
    | SignatureVerification | ChainIntegrity | HopLimitExceeded | TokenExpired | TransactionValueCap
    | WalletBalanceCap | DoubleSpend | WalletState | InsufficientFunds | ReconciliationFailed | FirstClaimConflict
    | IndexError

  datatype Payload = Payload(tokenId: string, hopIndex: int, sender: Key, receiver: Key, amount: int, nonce: string)

  /** A chain hash: 64 zeros, the digest of a payload and the hash before it, or any other hex string. */
  datatype Digest = Genesis | Sha256(payload: Payload, prev: Digest) | OtherDigest(text: string)

  datatype Message = TokenMessage(fields: TokenFields) | LinkMessage(hash: Digest)

  datatype Signature = Signed(signer: Key, message: Message) | OtherSignature(text: string)

  datatype TokenFields = TokenFields(tokenId: string, issuer: Key, amount: int, issuedAt: int, ttlExpiry: int)

  datatype Token = Token(fields: TokenFields, issuerSignature: Signature) {
    predicate IssuerSigned() {
      issuerSignature == Signed(fields.issuer, TokenMessage(fields))
    }

    /** is_expired; a clock before the issuance raises. */
    function Expired(now: int): Result<bool, Failure> {
      if now < fields.issuedAt then Err(TokenExpired) else Ok(now > fields.ttlExpiry)
    }
  }

  datatype Record = Record(payload: Payload, prevHash: Digest, chainHash: Digest, signature: Signature) {
    function Hash(): Digest {
      Sha256(payload, prevHash)
    }

    predicate SignedBySender() {
      signature == Signed(payload.sender, LinkMessage(chainHash))
    }
  }

  /** A record built and signed with the sender's key. */
  function SignedRecord(payload: Payload, prevHash: Digest): Record {
    Record(payload, prevHash, Sha256(payload, prevHash), Signed(payload.sender, LinkMessage(Sha256(payload, prevHash))))
  }

  // ---------- validate_integrity ----------

  /** The first complaint about record i, given the ones before it passed. */
  function RecordError(token: Token, records: seq<Record>, i: nat): Option<Failure>
    requires i < |records|
  {
    var r := records[i];
    if r.payload.tokenId != token.fields.tokenId then Some(ChainIntegrity)
    else if r.payload.amount != token.fields.amount then Some(ChainIntegrity)
    else if r.prevHash != (if i == 0 then Genesis else records[i - 1].chainHash) then Some(ChainIntegrity)
    else if i == 0 && r.payload.hopIndex != 0 then Some(ChainIntegrity)
    else if i > 0 && r.payload.hopIndex != records[i - 1].payload.hopIndex + 1 &&
    r.payload.hopIndex != 1 then Some(ChainIntegrity)
    else if r.chainHash != r.Hash() then Some(ChainIntegrity)
    else if !r.SignedBySender() then Some(SignatureVerification)
    else None
  }

  function FirstError(token: Token, records: seq<Record>, n: nat): Option<Failure>
    requires n <= |records|
  {
    if n == 0 then None
    else if FirstError(token, records, n - 1).Some? then FirstError(token, records, n - 1)
    else RecordError(token, records, n - 1)
  }

  function IntegrityError(token: Token, records: seq<Record>): Option<Failure> {
    if !token.IssuerSigned() then Some(SignatureVerification)
    else if records == [] then Some(ChainIntegrity)
    else if records[|records| - 1].payload.hopIndex > MAX_OFFLINE_HOPS then Some(HopLimitExceeded)
    else FirstError(token, records, |records|)
  }

  ghost predicate Intact(token: Token, records: seq<Record>) {
    IntegrityError(token, records).None?
  }

  /** Each record names the token and its amount, is hashed onto the one before it and signed by its sender. */
  ghost predicate LinkedAt(token: Token, records: seq<Record>, i: nat)
    requires i < |records|
  {
    var r := records[i];
    r.payload.tokenId == token.fields.tokenId && r.payload.amount == token.fields.amount &&
    r.prevHash == (if i == 0 then Genesis else records[i - 1].chainHash) &&
    r.chainHash == r.Hash() && r.SignedBySender() &&
    if i == 0 then r.payload.hopIndex == 0
    else r.payload.hopIndex == records[i - 1].payload.hopIndex + 1 || r.payload.hopIndex == 1
  }

  lemma {:induction false} FirstErrorNoneIff(token: Token, records: seq<Record>, n: nat)
    requires n <= |records|
    ensures FirstError(token, records, n).None? <==> forall i :: 0 <= i < n ==> LinkedAt(token, records, i)
  {
    if n == 0 {
    } else {
      FirstErrorNoneIff(token, records, n - 1);
      assert RecordError(token, records, n - 1).None? <==> LinkedAt(token, records, n - 1);
    }
  }

  /** What validate_integrity accepts. */
  lemma IntactIff(token: Token, records: seq<Record>)
    ensures Intact(token, records) <==>
      token.IssuerSigned() && records != [] && records[|records| - 1].payload.hopIndex <= MAX_OFFLINE_HOPS &&
      forall i :: 0 <= i < |records| ==> LinkedAt(token, records, i)
  {
    FirstErrorNoneIff(token, records, |records|);
  }

  /** TransferChain: an ordered list of records that is validated or extended. */
  class TransferChain {
    var records: seq<Record>

    constructor (records: seq<Record>)
      ensures this.records == records
    {
      this.records := records;
    }

    method ValidateIntegrity(token: Token) returns (error: Option<Failure>)
      ensures error == IntegrityError(token, records)
    {
      if !token.IssuerSigned() {
        return Some(SignatureVerification);
      }
      if records == [] {
        return Some(ChainIntegrity);
      }
      if records[|records| - 1].payload.hopIndex > MAX_OFFLINE_HOPS {
        return Some(HopLimitExceeded);
      }
      var previousHash: Digest := Genesis;
      var previousHop := -1;
      for position := 0 to |records|
        invariant FirstError(token, records, position).None?
        invariant previousHash == if position == 0 then Genesis else records[position - 1].chainHash
        invariant previousHop == if position == 0 then -1 else records[position - 1].payload.hopIndex
      {
        var record := records[position];
        error := RecordCheck(token, record, position, previousHash, previousHop);
        if error.Some? {
          ErrorStands(token, records, position + 1, |records|);
          return;
        }
        previousHash := record.chainHash;
        previousHop := record.payload.hopIndex;
      }
      return None;
    }

    method Tip() returns (r: Result<Record, Failure>)
      ensures r == if records == [] then Err(ChainIntegrity) else Ok(records[|records| - 1])
    {
      if records == [] {
        return Err(ChainIntegrity);
      }
      return Ok(records[|records| - 1]);
    }

    method Append(record: Record) returns (error: Option<Failure>)
      modifies this
      ensures error == AppendError(old(records), record)
      ensures records == if error.None? then old(records) + [record] else old(records)
    {
      var expectedPrev: Digest := Genesis;
      if records != [] {
        var tip := Tip();
        expectedPrev := tip.value.chainHash;
      }
      if record.prevHash != expectedPrev {
        return Some(ChainIntegrity);
      }
      if records != [] {
        var tip := Tip();
        if record.payload.hopIndex != tip.value.payload.hopIndex + 1 && record.payload.hopIndex != 1 {
          return Some(ChainIntegrity);
        }
      }
      records := records + [record];
      return None;
    }
  }

  /** One round of the loop of validate_integrity. */
  method RecordCheck(token: Token, record: Record, position: nat, previousHash: Digest, previousHop: int)
    returns (error: Option<Failure>)
    ensures forall records: seq<Record> ::
      position < |records| && records[position] == record &&
      previousHash == (if position == 0 then Genesis else records[position - 1].chainHash) &&
      previousHop == (if position == 0 then -1 else records[position - 1].payload.hopIndex) ==>
        error == RecordError(token, records, position)
  {
    if record.payload.tokenId != token.fields.tokenId {
      return Some(ChainIntegrity);
    }
    if record.payload.amount != token.fields.amount {
      return Some(ChainIntegrity);
    }
    if record.prevHash != previousHash {
      return Some(ChainIntegrity);
    }
    if position == 0 && record.payload.hopIndex != 0 {
      return Some(ChainIntegrity);
    }
    if position > 0 && record.payload.hopIndex != previousHop + 1 && record.payload.hopIndex != 1 {
      return Some(ChainIntegrity);
    }
    if record.chainHash != record.Hash() {
      return Some(ChainIntegrity);
    }
    if !record.SignedBySender() {
      return Some(SignatureVerification);
    }
    return None;
  }

  lemma {:induction false} ErrorStands(token: Token, records: seq<Record>, n: nat, m: nat)
    requires n <= m <= |records| && FirstError(token, records, n).Some?
    ensures FirstError(token, records, m) == FirstError(token, records, n)
  {
    if n == m {
    } else {
      ErrorStands(token, records, n, m - 1);
    }
  }

  function AppendError(records: seq<Record>, record: Record): Option<Failure> {
    if record.prevHash != (if records == [] then Genesis else records[|records| - 1].chainHash)
    then Some(ChainIntegrity)
    else if records != [] && record.payload.hopIndex != records[|records| - 1].payload.hopIndex + 1
            && record.payload.hopIndex != 1 then Some(ChainIntegrity)
    else None
  }

  /** What append accepts, and that it has one word for everything else. */
  lemma AppendErrorIff(records: seq<Record>, record: Record)
    ensures AppendError(records, record).None? <==>
      record.prevHash == (if records == [] then Genesis else records[|records| - 1].chainHash) &&
      (records == [] || record.payload.hopIndex == 1 ||
       record.payload.hopIndex == records[|records| - 1].payload.hopIndex + 1)
    ensures AppendError(records, record).Some? ==> AppendError(records, record) == Some(ChainIntegrity)
  {
  }

  lemma LinkedPrefix(token: Token, a: seq<Record>, b: seq<Record>)
    requires a <= b
    ensures forall i :: 0 <= i < |a| ==> (LinkedAt(token, a, i) <==> LinkedAt(token, b, i))
  {
    forall i | 0 <= i < |a|
      ensures LinkedAt(token, a, i) <==> LinkedAt(token, b, i)
    {
      assert a[i] == b[i] && (i > 0 ==> a[i - 1] == b[i - 1]);
    }
  }

  /**
   append checks less than validate_integrity does: extending an intact chain keeps it intact
   exactly when append accepts the record and it also names the token and its amount, stays
   within the hop limit and is hashed and signed by its sender.
   */
  lemma AppendKeepsIntactIff(token: Token, records: seq<Record>, record: Record)
    requires Intact(token, records)
    ensures Intact(token, records + [record]) <==>
      AppendError(records, record).None? &&
      record.payload.tokenId == token.fields.tokenId && record.payload.amount == token.fields.amount &&
      record.payload.hopIndex <= MAX_OFFLINE_HOPS && record.chainHash == record.Hash() && record.SignedBySender()
  {
    var longer := records + [record];
    IntactIff(token, records);
    IntactIff(token, longer);
    LinkedPrefix(token, records, longer);
    assert (AppendError(records, record).None? &&
      record.payload.tokenId == token.fields.tokenId && record.payload.amount == token.fields.amount &&
      record.chainHash == record.Hash() && record.SignedBySender()) <==> LinkedAt(token, longer, |records|);
    if LinkedAt(token, longer, |records|) {
      forall i | 0 <= i < |longer|
        ensures LinkedAt(token, longer, i)
      {
        assert i < |records| ==> LinkedAt(token, records, i);
      }
    }
  }

  // ---------- the tip hash fixes the history ----------

  ghost predicate HashedAt(start: Digest, records: seq<Record>, i: nat)
    requires i < |records|
  {
    records[i].chainHash == records[i].Hash() &&
    records[i].prevHash == (if i == 0 then start else records[i - 1].chainHash)
  }

  /** Hashes linked from a starting digest, whatever that digest is. */
  ghost predicate HashLinked(start: Digest, records: seq<Record>) {
    forall i :: 0 <= i < |records| ==> HashedAt(start, records, i)
  }

  ghost predicate ZeroHopOnlyFirst(records: seq<Record>) {
    forall i :: 0 <= i < |records| ==> (records[i].payload.hopIndex == 0 <==> i == 0)
  }

  /**
   The chain hash of the last record fixes every payload. Nothing is assumed about the starting
   digest, which may itself be the hash of something: the hop index 0 marks the first record.
   */
  lemma {:induction false} TipHashFixesPayloads(start: Digest, a: seq<Record>, b: seq<Record>)
    requires HashLinked(start, a) && HashLinked(start, b) && ZeroHopOnlyFirst(a) && ZeroHopOnlyFirst(b)
    requires a != [] && b != [] && a[|a| - 1].chainHash == b[|b| - 1].chainHash
    ensures |a| == |b|
    ensures forall i :: 0 <= i < |a| ==> a[i].payload == b[i].payload && a[i].chainHash == b[i].chainHash
  {
    var n, m := |a| - 1, |b| - 1;
    assert HashedAt(start, a, n) && HashedAt(start, b, m);
    assert a[n].Hash() == b[m].Hash();
    if n == 0 || m == 0 {
    } else {
      forall i | 0 <= i < n
        ensures HashedAt(start, a[..n], i)
      {
        assert HashedAt(start, a, i);
      }
      forall i | 0 <= i < m
        ensures HashedAt(start, b[..m], i)
      {
        assert HashedAt(start, b, i);
      }
      TipHashFixesPayloads(start, a[..n], b[..m]);
    }
  }

  lemma {:induction false} IntactHops(token: Token, records: seq<Record>, n: nat)
    requires n <= |records| && forall i :: 0 <= i < n ==> LinkedAt(token, records, i)
    ensures forall i :: 0 <= i < n ==>
      (if i == 0 then records[i].payload.hopIndex == 0 else records[i].payload.hopIndex >= 1)
  {
    if n == 0 {
    } else {
      IntactHops(token, records, n - 1);
      assert LinkedAt(token, records, n - 1);
    }
  }

  /** Two validated chains with the same tip hash have the same length and identical transfers throughout. */
  lemma TipHashFixesHistory(t1: Token, c1: seq<Record>, t2: Token, c2: seq<Record>)
    requires Intact(t1, c1) && Intact(t2, c2)
    requires c1[|c1| - 1].chainHash == c2[|c2| - 1].chainHash
    ensures |c1| == |c2|
    ensures forall i :: 0 <= i < |c1| ==> c1[i].payload == c2[i].payload
    ensures t1.fields.tokenId == t2.fields.tokenId && t1.fields.amount == t2.fields.amount
  {
    IntactIff(t1, c1);
    IntactIff(t2, c2);
    IntactHops(t1, c1, |c1|);
    IntactHops(t2, c2, |c2|);
    forall i | 0 <= i < |c1|
      ensures HashedAt(Genesis, c1, i)
    {
      assert LinkedAt(t1, c1, i);
    }
    forall i | 0 <= i < |c2|
      ensures HashedAt(Genesis, c2, i)
    {
      assert LinkedAt(t2, c2, i);
    }
    TipHashFixesPayloads(Genesis, c1, c2);
    assert LinkedAt(t1, c1, 0) && LinkedAt(t2, c2, 0);
  }

  // ---------- chains as the system builds them ----------

  function Senders(records: seq<Record>): set<Key> {
    set i | 0 <= i < |records| :: records[i].payload.sender
  }

  /** The hop index send_token gives the next record: a former sender as receiver starts over. */
  function NextHop(records: seq<Record>, receiver: Key): int
    requires records != []
  {
    if receiver in Senders(records) then 1 else records[|records| - 1].payload.hopIndex + 1
  }

  /** The record send_token adds. */
  function NextRecord(tokenId: string, records: seq<Record>, sender: Key, receiver: Key, amount: int,
                      nonce: string): Record
    requires records != []
  {
    var payload := Payload(tokenId, NextHop(records, receiver), sender, receiver, amount, nonce);
    SignedRecord(payload, records[|records| - 1].chainHash)
  }

  /** A first record, as mint_token and swap_change make it. */
  function FirstRecord(token: Token, sender: Key, receiver: Key, nonce: string): Record {
    SignedRecord(Payload(token.fields.tokenId, 0, sender, receiver, token.fields.amount, nonce), Genesis)
  }

  /** What mint_token hands out, with the random id and nonce it draws */
  function NewlyMinted(issuer: Key, receiver: Key, amount: int, id: string, nonce: string, now: int)
    : Result<(Token, seq<Record>), Failure>
  {
    if amount <= 0 || amount > MAX_SINGLE_TX then Err(TransactionValueCap) else
      var fields := TokenFields(id, issuer, amount, now, now + TOKEN_TTL_SECONDS);
      var token := Token(fields, Signed(issuer, TokenMessage(fields)));
      Ok((token, [FirstRecord(token, issuer, receiver, nonce)]))
  }

  /** Chains that start with a mint or a split and grow by successful sends. */
  ghost predicate Built(token: Token, records: seq<Record>) {
    records != [] &&
    var n := |records| - 1;
    var p := records[n].payload;
    if n == 0 then records[0] == FirstRecord(token, p.sender, p.receiver, p.nonce)
    else
      Built(token, records[..n]) && p.hopIndex <= MAX_OFFLINE_HOPS &&
      records[n] == NextRecord(token.fields.tokenId, records[..n], p.sender, p.receiver, token.fields.amount, p.nonce)
  }

  /** Transfer i goes to someone who sent the token before. */
  ghost predicate Returns(records: seq<Record>, i: nat)
    requires i < |records|
  {
    records[i].payload.receiver in Senders(records[..i])
  }

  lemma {:induction false} BuiltAt(token: Token, records: seq<Record>, i: nat)
    requires Built(token, records) && i < |records|
    ensures LinkedAt(token, records, i) && 0 <= records[i].payload.hopIndex <= MAX_OFFLINE_HOPS
    ensures i > 0 ==>
      records[i].payload.hopIndex == if Returns(records, i) then 1 else records[i - 1].payload.hopIndex + 1
    decreases |records|
  {
    var n := |records| - 1;
    if i < n {
      BuiltAt(token, records[..n], i);
      assert records[..n][..i] == records[..i];
    } else if n > 0 {
      BuiltAt(token, records[..n], n - 1);
    }
  }

  /** Every chain the system builds validates, and no record in it, not only the last, passes the hop limit. */
  lemma BuiltIsIntact(token: Token, records: seq<Record>)
    requires Built(token, records) && token.IssuerSigned()
    ensures Intact(token, records)
    ensures forall i :: 0 <= i < |records| ==> records[i].payload.hopIndex <= MAX_OFFLINE_HOPS
  {
    forall i | 0 <= i < |records|
      ensures LinkedAt(token, records, i) && records[i].payload.hopIndex <= MAX_OFFLINE_HOPS
    {
      BuiltAt(token, records, i);
    }
    IntactIff(token, records);
  }

  /** Without a return, each transfer from position a on adds one hop. */
  lemma {:induction false} HopsClimb(token: Token, records: seq<Record>, a: nat, i: nat)
    requires Built(token, records) && a <= i < |records|
    requires forall j :: a < j <= i ==> !Returns(records, j)
    ensures records[i].payload.hopIndex == records[a].payload.hopIndex + (i - a)
  {
    if i <= a {
    } else {
      HopsClimb(token, records, a, i - 1);
      BuiltAt(token, records, i);
    }
  }

  /** A token that never goes back to a former sender changes hands at most seven times after its first record. */
  lemma NoReturnIsShort(token: Token, records: seq<Record>)
    requires Built(token, records) && forall i :: 0 < i < |records| ==> !Returns(records, i)
    ensures |records| <= MAX_OFFLINE_HOPS + 1
  {
    HopsClimb(token, records, 0, |records| - 1);
    BuiltAt(token, records, |records| - 1);
    BuiltAt(token, records, 0);
  }

  /** Any eight transfers in a row after the first record include a return to a former sender. */
  lemma EightTransfersReturn(token: Token, records: seq<Record>, a: nat)
    requires Built(token, records) && 1 <= a && a + MAX_OFFLINE_HOPS < |records|
    ensures exists i :: a <= i <= a + MAX_OFFLINE_HOPS && Returns(records, i)
  {
    var b := a + MAX_OFFLINE_HOPS;
    if forall i :: a <= i <= b ==> !Returns(records, i) {
      HopsClimb(token, records, a - 1, b);
      BuiltAt(token, records, a - 1);
      BuiltAt(token, records, b);
    }
  }

  // ---------- what validate_integrity does not promise ----------

  /** Each sender received the token from the record before. */
  ghost predicate Continuous(records: seq<Record>) {
    forall i :: 0 < i < |records| ==> records[i].payload.sender == records[i - 1].payload.receiver
  }

  /**
   append does not look at senders: an accepted record keeps the chain continuous exactly when
   its sender is the last receiver. This reads off the definition: that the record was accepted only
   says that there is a record before it. That the system's own chains are continuous is proved over
   runs, in DpcRuns.ContinuousOverRuns.
   */
  lemma AppendContinuousIff(token: Token, records: seq<Record>, record: Record)
    requires Intact(token, records) && Continuous(records) && AppendError(records, record).None?
    ensures Continuous(records + [record]) <==> record.payload.sender == records[|records| - 1].payload.receiver
  {
    var longer := records + [record];
    assert longer[|records|] == record && longer[|records| - 1] == records[|records| - 1];
    assert forall i :: 0 <= i < |records| ==> longer[i] == records[i];
  }

  /** Anyone can extend a validated chain: the sender of a record need not be the receiver of the one before. */
  lemma AnyoneCanExtend(token: Token, records: seq<Record>, sender: Key, receiver: Key, nonce: string)
    requires Intact(token, records) && NextHop(records, receiver) <= MAX_OFFLINE_HOPS
    ensures var record := NextRecord(token.fields.tokenId, records, sender, receiver, token.fields.amount, nonce);
      Intact(token, records + [record])
  {
    var record := NextRecord(token.fields.tokenId, records, sender, receiver, token.fields.amount, nonce);
    AppendKeepsIntactIff(token, records, record);
  }

  /** A chain whose hop index climbs by one at every record, without a limit. */
  function Climb(token: Token, sender: Key, n: nat): (records: seq<Record>)
    ensures |records| == n + 1 && records[n].payload.hopIndex == n
  {
    if n == 0 then [FirstRecord(token, sender, sender, "")]
    else
      var before := Climb(token, sender, n - 1);
      var payload := Payload(token.fields.tokenId, n, sender, sender, token.fields.amount, "");
      before + [SignedRecord(payload, before[n - 1].chainHash)]
  }

  lemma {:induction false} ClimbLinked(token: Token, sender: Key, n: nat)
    ensures forall i :: 0 <= i <= n ==> LinkedAt(token, Climb(token, sender, n), i)
  {
    var records := Climb(token, sender, n);
    if n == 0 {
    } else {
      ClimbLinked(token, sender, n - 1);
      LinkedPrefix(token, Climb(token, sender, n - 1), records);
      forall i | 0 <= i <= n
        ensures LinkedAt(token, records, i)
      {
        assert i < n ==> LinkedAt(token, Climb(token, sender, n - 1), i);
      }
    }
  }

  /** Only the last hop is bounded: for any n there is a validated chain that contains hop index n. */
  lemma InnerHopsUnbounded(token: Token, sender: Key, n: nat) returns (records: seq<Record>)
    requires token.IssuerSigned()
    ensures Intact(token, records) && n < |records| && records[n].payload.hopIndex == n
  {
    var climb := Climb(token, sender, n);
    var payload := Payload(token.fields.tokenId, 1, sender, sender, token.fields.amount, "");
    records := climb + [SignedRecord(payload, climb[n].chainHash)];
    ClimbLinked(token, sender, n);
    LinkedPrefix(token, climb, records);
    forall i | 0 <= i < |records|
      ensures LinkedAt(token, records, i)
    {
      assert i <= n ==> LinkedAt(token, climb, i);
    }
    IntactIff(token, records);
  }

  /**
   Every hop of a validated chain is within the limit exactly when every shorter version of the
   chain validates too, that is, when it was validated at each step of its way.
   */
  lemma AllHopsBoundedIff(token: Token, records: seq<Record>)
    requires Intact(token, records)
    ensures (forall i :: 0 <= i < |records| ==> records[i].payload.hopIndex <= MAX_OFFLINE_HOPS) <==>
      forall n :: 1 <= n <= |records| ==> Intact(token, records[..n])
  {
    forall n | 1 <= n <= |records|
      ensures Intact(token, records[..n]) <==> records[n - 1].payload.hopIndex <= MAX_OFFLINE_HOPS
    {
      PrefixIntactIff(token, records, n);
    }
    if forall n :: 1 <= n <= |records| ==> Intact(token, records[..n]) {
      forall i | 0 <= i < |records|
        ensures records[i].payload.hopIndex <= MAX_OFFLINE_HOPS
      {
        assert Intact(token, records[..i + 1]);
      }
    }
  }

  lemma PrefixIntactIff(token: Token, records: seq<Record>, n: nat)
    requires Intact(token, records) && 1 <= n <= |records|
    ensures Intact(token, records[..n]) <==> records[n - 1].payload.hopIndex <= MAX_OFFLINE_HOPS
  {
    IntactIff(token, records);
    IntactIff(token, records[..n]);
    LinkedPrefix(token, records[..n], records);
  }
}
