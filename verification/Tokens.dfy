/**
 Tokens and their transfer chains (digital_token/transfer_chain.py, digital_token/token_model.py).

 Cryptography is ideal: a signature is the pair of the key that made it and the message it
 covers, and a SHA-256 digest is its preimage, so both are injective and cannot be forged
 from other values. Serialised payloads are the records themselves.
 */
module Tokens {
  import opened Basics

  type Key = string

  /** A private key, identified by the public key it belongs to. */
  datatype SecretKey = SecretKey(publicKey: Key)

  datatype Digest = Sha256(of: TransferRecord) | OtherDigest(text: string)

  datatype Signature = Signed(signer: Key, message: Message) | OtherSignature(text: string)

  datatype Message = TransferMessage(transfer: Transfer) | IssuanceMessage(issuance: Issuance)

  /** An expiry text, read as the instant it denotes when it is a valid date. */
  datatype Expiry = Instant(at: int) | NotADate(text: string)

  /** The fields the issuer signs. */
  datatype Issuance = Issuance(tokenId: string, value: int, issuerPk: Key, ownerPk: Key, expiry: Expiry)

  /** The fields a sender signs. */
  datatype Transfer = Transfer(
    transferId: string, tokenId: string, senderPk: Key, receiverPk: Key, nonce: int,
    parentTransferId: Option<string>, prevTransferHash: Option<Digest>, timestamp: string)

  datatype TransferRecord = TransferRecord(transfer: Transfer, signature: Signature) {
    predicate Verify() {
      signature == Signed(transfer.senderPk, TransferMessage(transfer))
    }
  }

  /** The UUID and the clock reading one new transfer draws. */
  datatype Stamp = Stamp(transferId: string, timestamp: string)

  function Sign(sk: SecretKey, m: Message): Signature {
    Signed(sk.publicKey, m)
  }

  /** TransferRecord.create */
  method CreateTransfer(tokenId: string, senderSk: SecretKey, senderPk: Key, receiverPk: Key, nonce: int,
                        previous: Option<TransferRecord>, stamp: Stamp)
    returns (record: TransferRecord)
    ensures record == NewRecord(tokenId, senderSk, senderPk, receiverPk, nonce, previous, stamp)
  {
    var prevHash: Option<Digest>, parent: Option<string> := None, None;
    if previous.Some? {
      parent := Some(previous.value.transfer.transferId);
      prevHash := Some(Sha256(previous.value));
    }
    var transfer := Transfer(stamp.transferId, tokenId, senderPk, receiverPk, nonce, parent, prevHash, stamp.timestamp);
    record := TransferRecord(transfer, OtherSignature(""));
    record := record.(signature := Sign(senderSk, TransferMessage(record.transfer)));
  }

  function NewRecord(tokenId: string, senderSk: SecretKey, senderPk: Key, receiverPk: Key, nonce: int,
                     previous: Option<TransferRecord>, stamp: Stamp): TransferRecord {
    var parent := if previous.Some? then Some(previous.value.transfer.transferId) else None;
    var prevHash := if previous.Some? then Some(Sha256(previous.value)) else None;
    var transfer := Transfer(stamp.transferId, tokenId, senderPk, receiverPk, nonce, parent, prevHash, stamp.timestamp);
    TransferRecord(transfer, Sign(senderSk, TransferMessage(transfer)))
  }

  /** The contents of a token. */
  datatype TokenData = TokenData(
    tokenId: string, value: int, issuerPk: Key, ownerPk: Key, expiry: Expiry,
    issuerSignature: Signature, chain: seq<TransferRecord>)
  {
    /** The issuance this token claims: its first sender is the owner it was issued to. */
    function Issued(): Issuance {
      Issuance(tokenId, value, issuerPk, if chain == [] then ownerPk else chain[0].transfer.senderPk, expiry)
    }

    function Last(): Option<TransferRecord> {
      if chain == [] then None else Some(chain[|chain| - 1])
    }

    /** append_transfer */
    function Appended(senderSk: SecretKey, receiverPk: Key, stamp: Stamp): TokenData {
      var nonce := if chain == [] then 1 else chain[|chain| - 1].transfer.nonce + 1;
      var record := NewRecord(tokenId, senderSk, ownerPk, receiverPk, nonce, Last(), stamp);
      this.(chain := chain + [record], ownerPk := receiverPk)
    }
  }

  /** Record i of a chain: signed, for this token, from the holder so far, and linked to record i - 1. */
  predicate Linked(tokenId: string, chain: seq<TransferRecord>, i: nat)
    requires i < |chain|
  {
    var t := chain[i].transfer;
    chain[i].Verify() && t.tokenId == tokenId && t.nonce == i + 1 &&
    if i == 0 then t.parentTransferId == None && t.prevTransferHash == None
    else
      var p := chain[i - 1];
      t.senderPk == p.transfer.receiverPk &&
      t.parentTransferId == Some(p.transfer.transferId) && t.prevTransferHash == Some(Sha256(p))
  }

  /** Whether a record is linked depends only on itself and the record before it. */
  lemma LinkedPrefix(tokenId: string, c: seq<TransferRecord>, d: seq<TransferRecord>)
    requires c <= d
    ensures forall i :: 0 <= i < |c| ==> (Linked(tokenId, c, i) <==> Linked(tokenId, d, i))
  {
    forall i | 0 <= i < |c|
      ensures Linked(tokenId, c, i) <==> Linked(tokenId, d, i)
    {
      assert c[i] == d[i] && (i > 0 ==> c[i - 1] == d[i - 1]);
    }
  }

  /** A token the issuer signed, handed on by an unbroken chain of signed transfers to its owner. */
  predicate ValidChain(t: TokenData) {
    t.issuerSignature == Signed(t.issuerPk, IssuanceMessage(t.Issued())) &&
    (forall i :: 0 <= i < |t.chain| ==> Linked(t.tokenId, t.chain, i)) &&
    (t.chain != [] ==> t.chain[|t.chain| - 1].transfer.receiverPk == t.ownerPk)
  }

  // ---------- append ----------

  /** Appending to a valid token gives a valid token exactly when the owner's key signs. */
  lemma AppendValidIff(t: TokenData, sk: SecretKey, receiverPk: Key, stamp: Stamp)
    requires ValidChain(t)
    ensures ValidChain(t.Appended(sk, receiverPk, stamp)) <==> sk.publicKey == t.ownerPk
    ensures t.Appended(sk, receiverPk, stamp).Issued() == t.Issued()
  {
    var a := t.Appended(sk, receiverPk, stamp);
    var n := |t.chain|;
    LinkedPrefix(t.tokenId, t.chain, a.chain);
    if n > 0 {
      assert Linked(t.tokenId, t.chain, n - 1);
    }
    assert Linked(a.tokenId, a.chain, n) <==> sk.publicKey == t.ownerPk;
    if sk.publicKey == t.ownerPk {
      forall i | 0 <= i < |a.chain|
        ensures Linked(a.tokenId, a.chain, i)
      {
        assert i < n ==> Linked(t.tokenId, t.chain, i);
      }
    }
  }

  datatype Handover = Handover(senderSk: SecretKey, receiverPk: Key, stamp: Stamp)

  function AppendAll(t: TokenData, steps: seq<Handover>): TokenData
    decreases |steps|
  {
    if steps == [] then t
    else AppendAll(t.Appended(steps[0].senderSk, steps[0].receiverPk, steps[0].stamp), steps[1..])
  }

  /** Every step is signed by whoever holds the token at that point. */
  ghost predicate SignedByHolders(holder: Key, steps: seq<Handover>)
    decreases |steps|
  {
    steps == [] || (steps[0].senderSk.publicKey == holder && SignedByHolders(steps[0].receiverPk, steps[1..]))
  }

  /** Any number of handovers signed by the holders keeps the chain valid and numbered from 1. */
  lemma {:induction false} HandoversKeepValid(t: TokenData, steps: seq<Handover>)
    requires ValidChain(t) && SignedByHolders(t.ownerPk, steps)
    ensures ValidChain(AppendAll(t, steps))
    ensures |AppendAll(t, steps).chain| == |t.chain| + |steps|
    ensures forall i :: 0 <= i < |t.chain| + |steps| ==> AppendAll(t, steps).chain[i].transfer.nonce == i + 1
    ensures AppendAll(t, steps).Issued() == t.Issued()
    decreases |steps|
  {
    if steps == [] {
      forall i | 0 <= i < |t.chain|
        ensures t.chain[i].transfer.nonce == i + 1
      {
        assert Linked(t.tokenId, t.chain, i);
      }
    } else {
      AppendValidIff(t, steps[0].senderSk, steps[0].receiverPk, steps[0].stamp);
      HandoversKeepValid(t.Appended(steps[0].senderSk, steps[0].receiverPk, steps[0].stamp), steps[1..]);
    }
  }

  /** The record of one handover: the stamp it drew, and the names of giver and receiver, under the giver's signature */
  ghost predicate RecordsHandover(r: TransferRecord, id: string, holder: Key, step: Handover) {
    r.transfer.transferId == step.stamp.transferId && r.transfer.timestamp == step.stamp.timestamp &&
    r.transfer.tokenId == id && r.transfer.senderPk == holder && r.transfer.receiverPk == step.receiverPk &&
    r.signature == Signed(step.senderSk.publicKey, TransferMessage(r.transfer))
  }

  function HolderBeforeStep(ownerPk: Key, steps: seq<Handover>, i: nat): Key
    requires i <= |steps|
  {
    if i == 0 then ownerPk else steps[i - 1].receiverPk
  }

  /** Record k is numbered after, and linked to, the record before it; a first record has the number 1. */
  ghost predicate Continues(chain: seq<TransferRecord>, k: nat)
    requires k < |chain|
  {
    var t := chain[k].transfer;
    if k == 0 then t.nonce == 1 && t.parentTransferId == None && t.prevTransferHash == None
    else
      var p := chain[k - 1];
      t.nonce == p.transfer.nonce + 1 && t.parentTransferId == Some(p.transfer.transferId) &&
      t.prevTransferHash == Some(Sha256(p))
  }

  /** From record n on, the chain records the steps in order. */
  ghost predicate RecordsAll(chain: seq<TransferRecord>, n: nat, id: string, ownerPk: Key, steps: seq<Handover>)
    requires |chain| == n + |steps|
  {
    forall k :: n <= k < |chain| ==>
      RecordsHandover(chain[k], id, HolderBeforeStep(ownerPk, steps, k - n), steps[k - n]) && Continues(chain, k)
  }

  lemma OneHandoverRecorded(t: TokenData, step: Handover)
    ensures var after := t.Appended(step.senderSk, step.receiverPk, step.stamp);
      RecordsHandover(after.chain[|t.chain|], t.tokenId, t.ownerPk, step) && Continues(after.chain, |t.chain|)
  {
  }

  lemma SameContinues(c: seq<TransferRecord>, d: seq<TransferRecord>, k: nat)
    requires k < |c| <= |d| && d[..|c|] == c
    ensures Continues(c, k) <==> Continues(d, k)
  {
    assert c[k] == d[..|c|][k] == d[k] && (k > 0 ==> c[k - 1] == d[..|c|][k - 1] == d[k - 1]);
  }

  lemma RecordedFirst(chain: seq<TransferRecord>, n: nat, id: string, ownerPk: Key, steps: seq<Handover>)
    requires steps != [] && |chain| == n + |steps| && RecordsHandover(chain[n], id, ownerPk, steps[0])
    requires Continues(chain, n) && RecordsAll(chain, n + 1, id, steps[0].receiverPk, steps[1..])
    ensures RecordsAll(chain, n, id, ownerPk, steps)
  {
    hide RecordsHandover, Continues;
  }

  /** Whoever signs and whatever the chain, it keeps what it was and adds the record of each handover, in order. */
  lemma {:induction false} HandoversAreRecorded(t: TokenData, steps: seq<Handover>)
    ensures var after := AppendAll(t, steps);
      |after.chain| == |t.chain| + |steps| && after.chain[..|t.chain|] == t.chain &&
      after.ownerPk == HolderBeforeStep(t.ownerPk, steps, |steps|) && after.tokenId == t.tokenId &&
      RecordsAll(after.chain, |t.chain|, t.tokenId, t.ownerPk, steps)
    decreases |steps|
  {
    if steps == [] {
    } else {
      hide RecordsHandover, Continues, NewRecord, RecordsAll;
      var next := t.Appended(steps[0].senderSk, steps[0].receiverPk, steps[0].stamp);
      HandoversAreRecorded(next, steps[1..]);
      var chain := AppendAll(t, steps).chain;
      var n := |t.chain|;
      assert chain[..n] == chain[..n + 1][..n];
      assert chain[n] == chain[..n + 1][n] == next.chain[n];
      OneHandoverRecorded(t, steps[0]);
      SameContinues(next.chain, chain, n);
      RecordedFirst(chain, n, t.tokenId, t.ownerPk, steps);
    }
  }

  // ---------- the last record fixes the chain ----------

  lemma {:induction false} LinksFixChain(id1: string, c1: seq<TransferRecord>, id2: string, c2: seq<TransferRecord>)
    requires forall i :: 0 <= i < |c1| ==> Linked(id1, c1, i)
    requires forall i :: 0 <= i < |c2| ==> Linked(id2, c2, i)
    requires c1 != [] && c2 != [] && c1[|c1| - 1] == c2[|c2| - 1]
    ensures c1 == c2
  {
    var n := |c1|;
    assert Linked(id1, c1, n - 1) && Linked(id2, c2, |c2| - 1);
    assert |c2| == n;
    if n <= 1 {
    } else {
      var p1, p2 := c1[..n - 1], c2[..n - 1];
      LinkedPrefix(id1, p1, c1);
      LinkedPrefix(id2, p2, c2);
      LinksFixChain(id1, p1, id2, p2);
      assert c1 == p1 + [c1[n - 1]] && c2 == p2 + [c2[n - 1]];
    }
  }

  /** Two validated chains that end in the same record are the same chain, of the same token. */
  lemma LastRecordFixesChain(t1: TokenData, t2: TokenData)
    requires ValidChain(t1) && ValidChain(t2)
    requires t1.chain != [] && t1.Last() == t2.Last()
    ensures t1.chain == t2.chain && t1.tokenId == t2.tokenId && t1.ownerPk == t2.ownerPk
  {
    LinksFixChain(t1.tokenId, t1.chain, t2.tokenId, t2.chain);
    assert Linked(t1.tokenId, t1.chain, 0) && Linked(t2.tokenId, t2.chain, 0);
  }

  // ---------- forks ----------

  /** What the issuer signed: one issuance for each token id. */
  ghost predicate OneIssuancePerId(issued: set<Issuance>) {
    forall a, b :: a in issued && b in issued && a.tokenId == b.tokenId ==> a == b
  }

  /** Two different transfers of one token signed by one key for the same step of the same history. */
  ghost predicate DoubleSpend(spender: Key, a: TransferRecord, b: TransferRecord) {
    a.transfer != b.transfer &&
    a.signature == Signed(spender, TransferMessage(a.transfer)) &&
    b.signature == Signed(spender, TransferMessage(b.transfer)) &&
    a.transfer.tokenId == b.transfer.tokenId && a.transfer.nonce == b.transfer.nonce &&
    a.transfer.parentTransferId == b.transfer.parentTransferId &&
    a.transfer.prevTransferHash == b.transfer.prevTransferHash
  }

  /** Position k is where two chains first differ. */
  ghost predicate ForkAt(c1: seq<TransferRecord>, c2: seq<TransferRecord>, k: nat) {
    k < |c1| && k < |c2| && c1[..k] == c2[..k] && c1[k] != c2[k]
  }

  lemma {:induction false} PrefixOrFork(c1: seq<TransferRecord>, c2: seq<TransferRecord>) returns (k: nat)
    ensures c1 <= c2 || c2 <= c1 || ForkAt(c1, c2, k)
  {
    if c1 == [] || c2 == [] || c1[0] != c2[0] {
      k := 0;
    } else {
      var j := PrefixOrFork(c1[1..], c2[1..]);
      k := j + 1;
      if ForkAt(c1[1..], c2[1..], j) {
        assert c1[..k] == [c1[0]] + c1[1..][..j] && c2[..k] == [c2[0]] + c2[1..][..j];
      } else {
        assert c1 == [c1[0]] + c1[1..] && c2 == [c2[0]] + c2[1..];
      }
    }
  }

  /**
   Two validated tokens with one id under an issuer that signs one issuance per id: either one
   history continues the other, or there is exactly one first divergence and it convicts a
   single key, the one both histories agree held the token at that point.
   */
  lemma ForkAttribution(issued: set<Issuance>, t1: TokenData, t2: TokenData)
    requires OneIssuancePerId(issued) && t1.Issued() in issued && t2.Issued() in issued
    requires ValidChain(t1) && ValidChain(t2) && t1.tokenId == t2.tokenId
    ensures t1.value == t2.value && t1.expiry == t2.expiry && t1.issuerPk == t2.issuerPk
    ensures (t1.chain <= t2.chain || t2.chain <= t1.chain) <==> !exists k: nat :: ForkAt(t1.chain, t2.chain, k)
    ensures forall k: nat, k': nat :: ForkAt(t1.chain, t2.chain, k) && ForkAt(t1.chain, t2.chain, k') ==> k == k'
    ensures forall k: nat :: ForkAt(t1.chain, t2.chain, k) ==>
      DoubleSpend(HolderBefore(t1, k), t1.chain[k], t2.chain[k]) && HolderBefore(t1, k) == HolderBefore(t2, k)
  {
    var w := PrefixOrFork(t1.chain, t2.chain);
    assert t1.Issued() == t2.Issued();
    forall k: nat, k': nat | ForkAt(t1.chain, t2.chain, k) && k < k' < |t1.chain| && k' < |t2.chain|
      ensures t1.chain[..k'] != t2.chain[..k']
    {
      assert t1.chain[..k'][k] != t2.chain[..k'][k];
    }
    forall k: nat | ForkAt(t1.chain, t2.chain, k)
      ensures DoubleSpend(HolderBefore(t1, k), t1.chain[k], t2.chain[k]) && HolderBefore(t1, k) == HolderBefore(t2, k)
    {
      assert Linked(t1.tokenId, t1.chain, k) && Linked(t2.tokenId, t2.chain, k);
      if k > 0 {
        assert t1.chain[k - 1] == t1.chain[..k][k - 1] == t2.chain[..k][k - 1] == t2.chain[k - 1];
      }
    }
  }

  /** Who holds the token after its first k transfers. */
  ghost function HolderBefore(t: TokenData, k: nat): Key
    requires k <= |t.chain|
  {
    if k == 0 then t.Issued().ownerPk else t.chain[k - 1].transfer.receiverPk
  }

  ghost predicate ContainsDoubleSpend(t1: TokenData, t2: TokenData) {
    exists i, j :: 0 <= i < |t1.chain| && 0 <= j < |t2.chain| &&
      DoubleSpend(t1.chain[i].transfer.senderPk, t1.chain[i], t2.chain[j])
  }

  lemma AllLinked(t: TokenData)
    requires ValidChain(t)
    ensures forall i :: 0 <= i < |t.chain| ==> Linked(t.tokenId, t.chain, i)
  {
  }

  /** Validated histories of one token are comparable exactly when no sender signed two continuations. */
  lemma ComparableIffNoDoubleSpend(issued: set<Issuance>, t1: TokenData, t2: TokenData)
    requires OneIssuancePerId(issued) && t1.Issued() in issued && t2.Issued() in issued
    requires ValidChain(t1) && ValidChain(t2) && t1.tokenId == t2.tokenId
    ensures (t1.chain <= t2.chain || t2.chain <= t1.chain) <==> !ContainsDoubleSpend(t1, t2)
  {
    AllLinked(t1);
    AllLinked(t2);
    hide ValidChain, OneIssuancePerId;
    ForkAttribution(issued, t1, t2);
    if t1.chain <= t2.chain || t2.chain <= t1.chain {
      forall i, j | 0 <= i < |t1.chain| && 0 <= j < |t2.chain|
        ensures !DoubleSpend(t1.chain[i].transfer.senderPk, t1.chain[i], t2.chain[j])
      {
        assert Linked(t1.tokenId, t1.chain, i) && Linked(t2.tokenId, t2.chain, j);
      }
    } else {
      var k: nat :| ForkAt(t1.chain, t2.chain, k);
      assert Linked(t1.tokenId, t1.chain, k);
      assert DoubleSpend(t1.chain[k].transfer.senderPk, t1.chain[k], t2.chain[k]);
    }
  }

  // ---------- payloads ----------

  /** One transfer of a token payload; a payload may leave the nonce out. */
  datatype RecordDoc = RecordDoc(
    transferId: string, tokenId: string, senderPk: Key, receiverPk: Key, nonce: Option<int>,
    parentTransferId: Option<string>, prevTransferHash: Option<Digest>, timestamp: string, signature: Signature)

  /** A token payload with its optional fields and their older names, or text that does not parse. */
  datatype Payload =
    | Malformed(text: string)
    | Payload(
        tokenId: string, value: int, issuerPk: Key, ownerPk: Option<Key>, currentOwnerPk: Option<Key>, expiry: Expiry,
        issuerSignature: Option<Signature>, issuerSig: Option<Signature>, chain: Option<seq<RecordDoc>>)

  function RecordToDoc(r: TransferRecord): RecordDoc {
    var t := r.transfer;
    RecordDoc(t.transferId, t.tokenId, t.senderPk, t.receiverPk, Some(t.nonce), t.parentTransferId,
              t.prevTransferHash, t.timestamp, r.signature)
  }

  function RecordFromDoc(d: RecordDoc, index: nat): TransferRecord {
    TransferRecord(
      Transfer(d.transferId, d.tokenId, d.senderPk, d.receiverPk, if d.nonce.Some? then d.nonce.value else index + 1,
               d.parentTransferId, d.prevTransferHash, d.timestamp),
      d.signature)
  }

  /** Token.to_json */
  function ToPayload(t: TokenData): Payload {
    Payload(t.tokenId, t.value, t.issuerPk, Some(t.ownerPk), None, t.expiry, Some(t.issuerSignature), None,
            Some(seq(|t.chain|, i requires 0 <= i < |t.chain| => RecordToDoc(t.chain[i]))))
  }

  /** The first field present */
  function Either<T>(a: Option<T>, b: Option<T>): Option<T> {
    if a.Some? then a else b
  }

  /** _token_from_payload; a payload that names no owner yields no token any wallet could own. */
  function FromPayload(p: Payload): Option<TokenData> {
    if p.Malformed? || Either(p.ownerPk, p.currentOwnerPk).None? then None
    else
      var docs := if p.chain.Some? then p.chain.value else [];
      var sig := Either(p.issuerSignature, p.issuerSig);
      Some(TokenData(p.tokenId, p.value, p.issuerPk, Either(p.ownerPk, p.currentOwnerPk).value, p.expiry,
                     if sig.Some? then sig.value else OtherSignature(""),
                     seq(|docs|, i requires 0 <= i < |docs| => RecordFromDoc(docs[i], i))))
  }

  /** A token survives its own payload, whole chain included. */
  lemma PayloadRoundTrip(t: TokenData)
    ensures FromPayload(ToPayload(t)) == Some(t)
  {
    var docs := ToPayload(t).chain.value;
    forall i | 0 <= i < |t.chain|
      ensures RecordFromDoc(docs[i], i) == t.chain[i]
    {
    }
    assert FromPayload(ToPayload(t)).value.chain == t.chain;
  }

  /** A chain whose payload leaves every nonce out is read back as it was exactly when it is numbered from 1. */
  lemma NoncelessRoundTripIff(t: TokenData)
    ensures var docs := ToPayload(t).chain.value;
      var nonceless := seq(|docs|, i requires 0 <= i < |docs| => docs[i].(nonce := None));
      (FromPayload(ToPayload(t).(chain := Some(nonceless))) == Some(t))
        <==> (forall i :: 0 <= i < |t.chain| ==> t.chain[i].transfer.nonce == i + 1)
  {
    var docs := ToPayload(t).chain.value;
    var nonceless := seq(|docs|, i requires 0 <= i < |docs| => docs[i].(nonce := None));
    var back := FromPayload(ToPayload(t).(chain := Some(nonceless))).value;
    forall i | 0 <= i < |t.chain|
      ensures back.chain[i] == t.chain[i] <==> t.chain[i].transfer.nonce == i + 1
    {
      assert docs[i] == RecordToDoc(t.chain[i]);
      assert back.chain[i] == RecordFromDoc(nonceless[i], i);
    }
    assert back == t <==> back.chain == t.chain;
  }

  /**
   The older field names do as well, a newer one wins over them, a payload without a chain or a signature
   has an empty one, and text that does not parse or names no owner is no token.
   */
  lemma OlderPayloads(t: TokenData, owner: Option<Key>, sig: Option<Signature>, text: string)
    ensures ToPayload(t).Payload?
    ensures FromPayload(ToPayload(t).(ownerPk := None, currentOwnerPk := Some(t.ownerPk), issuerSignature := None,
                                      issuerSig := Some(t.issuerSignature))) == Some(t)
    ensures FromPayload(ToPayload(t).(currentOwnerPk := owner, issuerSig := sig)) == Some(t)
    ensures FromPayload(ToPayload(t).(chain := None)) == Some(t.(chain := []))
    ensures FromPayload(ToPayload(t).(issuerSignature := None)) == Some(t.(issuerSignature := OtherSignature("")))
    ensures FromPayload(Malformed(text)).None? && FromPayload(ToPayload(t).(ownerPk := None)).None?
  {
    PayloadRoundTrip(t);
    var p := ToPayload(t).(ownerPk := None, currentOwnerPk := Some(t.ownerPk), issuerSignature := None,
                           issuerSig := Some(t.issuerSignature));
    assert FromPayload(p).value.chain == FromPayload(ToPayload(t)).value.chain;
    assert FromPayload(ToPayload(t).(chain := None)).value.chain == [];
    assert FromPayload(ToPayload(t).(issuerSignature := None)).value.chain == t.chain;
  }

  // ---------- the token object ----------

  /** A token: append_transfer extends its chain and changes its owner in place. */
  class Token {
    const tokenId: string
    const value: int
    const issuerPk: Key
    const expiry: Expiry
    const issuerSignature: Signature
    var ownerPk: Key
    var chain: seq<TransferRecord>

    constructor (d: TokenData)
      ensures Data() == d
    {
      tokenId, value, issuerPk, expiry, issuerSignature := d.tokenId, d.value, d.issuerPk, d.expiry, d.issuerSignature;
      ownerPk, chain := d.ownerPk, d.chain;
    }

    function Data(): (d: TokenData)
      reads this
      ensures d.tokenId == tokenId && d.value == value
    {
      TokenData(tokenId, value, issuerPk, ownerPk, expiry, issuerSignature, chain)
    }

    method AppendTransfer(senderSk: SecretKey, receiverPk: Key, stamp: Stamp) returns (record: TransferRecord)
      modifies this
      ensures Data() == old(Data()).Appended(senderSk, receiverPk, stamp)
      ensures Some(record) == Data().Last()
    {
      var senderPk := ownerPk;
      var previous := if chain == [] then None else Some(chain[|chain| - 1]);
      var nonce := if previous.None? then 1 else previous.value.transfer.nonce + 1;
      record := CreateTransfer(tokenId, senderSk, senderPk, receiverPk, nonce, previous, stamp);
      chain := chain + [record];
      ownerPk := receiverPk;
    }

    method ValidateChain(expectedIssuer: Key) returns (ok: bool)
      ensures ok <==> expectedIssuer == issuerPk && ValidChain(Data())
    {
      if expectedIssuer != issuerPk {
        return false;
      }
      var issuedOwner := if chain == [] then ownerPk else chain[0].transfer.senderPk;
      var issuance := Issuance(tokenId, value, issuerPk, issuedOwner, expiry);
      if issuerSignature != Signed(issuerPk, IssuanceMessage(issuance)) {
        return false;
      }
      if chain != [] {
        var holder := chain[0].transfer.senderPk;
        var previous: Option<TransferRecord> := None;
        var expectedNonce := 1;
        for i := 0 to |chain|
          invariant expectedNonce == i + 1
          invariant previous == if i == 0 then None else Some(chain[i - 1])
          invariant holder == if i == 0 then chain[0].transfer.senderPk else chain[i - 1].transfer.receiverPk
          invariant forall j :: 0 <= j < i ==> Linked(tokenId, chain, j)
        {
          var record := chain[i];
          var t := record.transfer;
          assert Linked(tokenId, chain, i) <==>
            t.tokenId == tokenId && record.Verify() && t.senderPk == holder && t.nonce == expectedNonce &&
            if previous.None? then t.parentTransferId == None && t.prevTransferHash == None
            else t.parentTransferId == Some(previous.value.transfer.transferId) &&
                 t.prevTransferHash == Some(Sha256(previous.value));
          if t.tokenId != tokenId {
            return false;
          }
          if !record.Verify() {
            return false;
          }
          if t.senderPk != holder {
            return false;
          }
          if t.nonce != expectedNonce {
            return false;
          }
          if previous.None? {
            if t.parentTransferId.Some? {
              return false;
            }
            if t.prevTransferHash.Some? {
              return false;
            }
          } else {
            if t.parentTransferId != Some(previous.value.transfer.transferId) {
              return false;
            }
            if t.prevTransferHash != Some(Sha256(previous.value)) {
              return false;
            }
          }
          holder := t.receiverPk;
          previous := Some(record);
          expectedNonce := expectedNonce + 1;
        }
        if holder != ownerPk {
          return false;
        }
      }
      return true;
    }

    /** copy.deepcopy: a new object with the same contents. */
    method DeepCopy() returns (copy: Token)
      ensures fresh(copy) && copy.Data() == Data()
    {
      copy := new Token(Data());
    }
  }
}
