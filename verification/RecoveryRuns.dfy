/** What the reconciliation server guarantees over whole runs: one settlement per token, and a stable recovery. */
module RecoveryRuns {
  import opened Basics
  import opened Dicts
  import opened PocModels
  import opened RecoveryServer

  import OfflineRuns
  import OfflineWallet

  // ---------- runs ----------

  datatype Event =
    | Settle(bundle: PaymentBundle, clock: nat -> Reading)
    | Mint(owner: Key, value: int, draw: MintDraw)
    | Revoke(lost: Key, now: int)
    | Reissue(oldKey: Key, newKey: Key, waitNow: int, reportNow: int, draws: nat -> MintDraw)

  function Step(policy: PolicyConfig, s: Server, e: Event): Server {
    match e
    case Settle(bundle, clock) => Processed(policy, s, bundle, |bundle.transfers|, clock).0
    case Mint(owner, value, draw) =>
      var t := MintedToken(s.issuerKey, owner, value, draw);
      s.(issued := Put(s.issued, t.tokenId, t))
    case Revoke(lost, now) => s.(revoked := s.revoked[lost := now])
    case Reissue(oldKey, newKey, waitNow, reportNow, draws) =>
      Reissued(policy, s, oldKey, newKey, waitNow, reportNow, draws).0
  }

  function Run(policy: PolicyConfig, s: Server, events: seq<Event>): Server
    decreases |events|
  {
    if events == [] then s else Run(policy, Step(policy, s, events[0]), events[1..])
  }

  // ---------- one settlement per token ----------

  ghost predicate Genuine(issuerKey: Key, issued: Dict<Token>) {
    KeyedById(issued) && forall i :: 0 <= i < |issued| ==>
      issued[i].1.issuerSignature == Signed(issuerKey, issued[i].1.MintPayload())
  }

  /**
   The books agree: each accepted transfer has its own token, whose ledger entry and chain key
   are that transfer's.
   */
  ghost predicate Booked(s: Server) {
    s.ledger.Keys == s.chains.Keys == SettledIds(s.accepted) && SettledOnce(s.accepted) &&
    forall i :: 0 <= i < |s.accepted| ==> EntryBooked(s, s.accepted[i])
  }

  ghost function SettledIds(accepted: seq<(Transfer, Token)>): set<string> {
    set i | 0 <= i < |accepted| :: accepted[i].1.tokenId
  }

  ghost predicate SettledOnce(accepted: seq<(Transfer, Token)>) {
    forall i, j :: 0 <= i < j < |accepted| ==> accepted[i].1.tokenId != accepted[j].1.tokenId
  }

  ghost predicate EntryBooked(s: Server, entry: (Transfer, Token)) {
    var (transfer, t) := entry;
    t.tokenId in s.ledger && t.tokenId in s.chains && transfer.body.transferId in s.times &&
    s.ledger[t.tokenId] == SettlementRecord(t.tokenId, transfer.body.transferId, Settled, Fine) &&
    s.chains[t.tokenId] == ChainKeyOf(transfer) && transfer.SignedBySender() && Has(s.issued, t.Origin())
  }

  ghost predicate Kept(s: Server) {
    Genuine(s.issuerKey, s.issued) && Booked(s)
  }

  lemma NewServerKept(issuerKey: Key)
    ensures Kept(Server(issuerKey, [], map[], map[], map[], [], map[], map[], {}))
  {
  }

  /** With a genuine book of issued tokens, the issuer check is membership of the origin id. */
  lemma RootVerifiedIff(s: Server, t: Token)
    requires Genuine(s.issuerKey, s.issued)
    ensures RootVerified(s.issuerKey, s.issued, t) <==> Has(s.issued, t.Origin())
  {
  }

  /** An issued token whose fields are no longer those the issuer signed is the origin of nothing. */
  lemma TamperedRootRefused(policy: PolicyConfig, s: Server, transfer: Transfer, t: Token, now: int, i: nat)
    requires DistinctKeys(s.issued) && i < |s.issued| && s.issued[i].0 == t.Origin() && transfer.SignedBySender()
    requires var root := s.issued[i].1;
      root.issuerSignature !=
        Signed(s.issuerKey, MintMessage(root.tokenId, root.value, root.issuerPk, root.currentOwner, root.nonce,
                                        root.issueTimestamp, root.originTokenId))
    ensures Assess(policy, s, transfer, t, now) == BadIssuerSig
  {
    HasAt(s.issued, i);
    assert IndexOf(s.issued, t.Origin()) == i;
  }

  lemma PuttingKeepsHas<V>(d: Dict<V>, k: string, v: V, q: string)
    requires DistinctKeys(d) && Has(d, q)
    ensures Has(Put(d, k, v), q)
  {
    PutEffect(d, k, v);
    HasKey(d, q);
    HasKey(Put(d, k, v), q);
  }

  lemma MintingKeepsGenuine(issuerKey: Key, issued: Dict<Token>, owner: Key, value: int, draw: MintDraw)
    requires Genuine(issuerKey, issued)
    ensures var t := MintedToken(issuerKey, owner, value, draw);
      Genuine(issuerKey, Put(issued, t.tokenId, t)) && forall id :: Has(issued, id) ==>
        Has(Put(issued, t.tokenId, t), id)
  {
    hide Mapping;
    var t := MintedToken(issuerKey, owner, value, draw);
    PutEffect(issued, t.tokenId, t);
    forall id | Has(issued, id)
      ensures Has(Put(issued, t.tokenId, t), id)
    {
      PuttingKeepsHas(issued, t.tokenId, t, id);
    }
  }

  lemma {:induction false} MintedForKeepsGenuine(issuerKey: Key, issued: Dict<Token>, newKey: Key, safe: seq<Token>,
                                                 draws: nat -> MintDraw)
    requires Genuine(issuerKey, issued)
    ensures var after := MintedFor(issuerKey, issued, newKey, safe, draws).0;
      Genuine(issuerKey, after) && forall id :: Has(issued, id) ==> Has(after, id)
  {
    hide Genuine, Has, Put, MintedToken;
    if safe == [] {
    } else {
      var n := |safe| - 1;
      MintedForKeepsGenuine(issuerKey, issued, newKey, safe[..n], draws);
      var before := MintedFor(issuerKey, issued, newKey, safe[..n], draws).0;
      MintingKeepsGenuine(issuerKey, before, newKey, safe[n].value, draws(n));
    }
  }

  lemma SubmittingKeeps(policy: PolicyConfig, s: Server, transfer: Transfer, t: Token, reading: Reading)
    requires Kept(s)
    ensures Kept(Submitted(policy, s, transfer, t, reading).0)
  {
    if Assess(policy, s, transfer, t, reading.checkedAt).Fine? {
      RootVerifiedIff(s, t);
      hide Genuine, Has, Booked;
      var record := SettlementRecord(t.tokenId, transfer.body.transferId, Settled, Fine);
      EnteringKeepsBooks(s, transfer, t, record, reading.settledAt);
    }
  }

  lemma EnteringKeepsBooks(s: Server, transfer: Transfer, t: Token, record: SettlementRecord, settledAt: int)
    requires Booked(s) && t.tokenId !in s.ledger && transfer.SignedBySender() && Has(s.issued, t.Origin())
    requires record == SettlementRecord(t.tokenId, transfer.body.transferId, Settled, Fine)
    ensures Booked(Entered(s, transfer, t, record, settledAt))
  {
    hide EntryBooked, Has, SettledOnce, SettledIds;
    var s' := Entered(s, transfer, t, record, settledAt);
    OneMoreSettled(s.accepted, (transfer, t));
    forall i | 0 <= i < |s'.accepted|
      ensures EntryBooked(s', s'.accepted[i])
    {
      NewEntry(s, transfer, t, record, settledAt, if i < |s.accepted| then s.accepted[i] else (transfer, t));
    }
  }

  lemma OneMoreSettled(accepted: seq<(Transfer, Token)>, entry: (Transfer, Token))
    requires SettledOnce(accepted) && entry.1.tokenId !in SettledIds(accepted)
    ensures SettledOnce(accepted + [entry]) &&
      SettledIds(accepted + [entry]) == SettledIds(accepted) + {entry.1.tokenId}
  {
    var longer := accepted + [entry];
    assert forall i :: 0 <= i < |accepted| ==> longer[i] == accepted[i];
    assert longer[|accepted|] == entry;
  }

  lemma NewEntry(s: Server, transfer: Transfer, t: Token, record: SettlementRecord, settledAt: int,
                 entry: (Transfer, Token))
    requires t.tokenId !in s.ledger && transfer.SignedBySender() && Has(s.issued, t.Origin())
    requires record == SettlementRecord(t.tokenId, transfer.body.transferId, Settled, Fine)
    requires entry == (transfer, t) || EntryBooked(s, entry)
    ensures EntryBooked(Entered(s, transfer, t, record, settledAt), entry)
  {
  }

  lemma {:induction false} ProcessingKeeps(policy: PolicyConfig, s: Server, bundle: PaymentBundle, n: nat,
                                           clock: nat -> Reading)
    requires n <= |bundle.transfers| && Kept(s)
    ensures Kept(Processed(policy, s, bundle, n, clock).0)
  {
    hide Kept, Submitted;
    if n == 0 {
    } else {
      ProcessingKeeps(policy, s, bundle, n - 1, clock);
      var before := Processed(policy, s, bundle, n - 1, clock).0;
      var transfer := bundle.transfers[n - 1];
      if transfer.body.tokenId in bundle.tokens {
        SubmittingKeeps(policy, before, transfer, bundle.tokens[transfer.body.tokenId], clock(n - 1));
      }
    }
  }

  /** What minting and revoking leave of the books */
  lemma BooksStand(s: Server, s': Server)
    requires Booked(s) && s'.ledger == s.ledger && s'.chains == s.chains && s'.accepted == s.accepted &&
      s'.times == s.times
    requires forall id :: Has(s.issued, id) ==> Has(s'.issued, id)
    ensures Booked(s')
  {
    hide Has, SettledOnce, SettledIds;
    assert forall i :: 0 <= i < |s.accepted| ==> EntryBooked(s, s.accepted[i]);
  }

  lemma StepKeeps(policy: PolicyConfig, s: Server, e: Event)
    requires Kept(s)
    ensures Kept(Step(policy, s, e))
  {
    hide Genuine, Booked, Has, Put, MintedFor, MintedToken, IssuedTo, Processed, Recovery, WithIds;
    match e
    case Settle(bundle, clock) =>
      ProcessingKeeps(policy, s, bundle, |bundle.transfers|, clock);
    case Mint(owner, value, draw) =>
      MintingKeepsGenuine(s.issuerKey, s.issued, owner, value, draw);
      BooksStand(s, Step(policy, s, e));
    case Revoke(lost, now) =>
      BooksStand(s, Step(policy, s, e));
    case Reissue(oldKey, newKey, waitNow, reportNow, draws) =>
      var safeIds := Recovery(policy, s, oldKey, reportNow).safeTokenIds;
      var safe := WithIds(IssuedTo(TokensOf(s.issued), oldKey), set id | id in safeIds, true);
      MintedForKeepsGenuine(s.issuerKey, s.issued, newKey, safe, draws);
      BooksStand(s, Step(policy, s, e));
  }

  /** What was settled stays settled, with the same record; accepted transfers are only added; reissued pairs stay. */
  ghost predicate Grown(s: Server, s': Server) {
    (forall id :: id in s.ledger ==> id in s'.ledger && s'.ledger[id] == s.ledger[id]) &&
    |s.accepted| <= |s'.accepted| && s'.accepted[..|s.accepted|] == s.accepted && s.reissued <= s'.reissued
  }

  lemma {:induction false} ProcessingGrows(policy: PolicyConfig, s: Server, bundle: PaymentBundle, n: nat,
                                           clock: nat -> Reading)
    requires n <= |bundle.transfers|
    ensures Grown(s, Processed(policy, s, bundle, n, clock).0)
  {
    hide RootVerified;
    if n == 0 {
    } else {
      ProcessingGrows(policy, s, bundle, n - 1, clock);
    }
  }

  /**
   Over any run the books stay in agreement, so no token id is settled twice; and a settlement
   once recorded is never changed or forgotten.
   */
  lemma {:induction false} RunKeepsBooks(policy: PolicyConfig, s: Server, events: seq<Event>)
    requires Kept(s)
    ensures Kept(Run(policy, s, events)) && Grown(s, Run(policy, s, events))
    decreases |events|
  {
    hide Kept;
    if events == [] {
    } else {
      var s1 := Step(policy, s, events[0]);
      StepKeeps(policy, s, events[0]);
      StepGrows(policy, s, events[0]);
      RunKeepsBooks(policy, s1, events[1..]);
      var s2 := Run(policy, s, events);
      assert s2.accepted[..|s.accepted|] == s2.accepted[..|s1.accepted|][..|s.accepted|];
    }
  }

  lemma StepGrows(policy: PolicyConfig, s: Server, e: Event)
    ensures Grown(s, Step(policy, s, e))
  {
    hide Processed, MintedFor, Recovery, WithIds, Put;
    if e.Settle? {
      ProcessingGrows(policy, s, e.bundle, |e.bundle.transfers|, e.clock);
    }
  }

  // ---------- bundles are runs of single submissions ----------

  /** Submissions one after the other, the first one first */
  function SubmittedAll(policy: PolicyConfig, s: Server, items: seq<(Transfer, Token, Reading)>)
    : (Server, seq<SettlementRecord>)
    decreases |items|
  {
    if items == [] then (s, []) else
      var (next, record) := Submitted(policy, s, items[0].0, items[0].1, items[0].2);
      var (last, rest) := SubmittedAll(policy, next, items[1..]);
      (last, [record] + rest)
  }

  lemma {:induction false} SubmittedLast(policy: PolicyConfig, s: Server, items: seq<(Transfer, Token, Reading)>,
                                         item: (Transfer, Token, Reading))
    ensures var (before, records) := SubmittedAll(policy, s, items);
      var (after, record) := Submitted(policy, before, item.0, item.1, item.2);
      SubmittedAll(policy, s, items + [item]) == (after, records + [record])
    decreases |items|
  {
    hide Submitted;
    if items == [] {
      assert items + [item] == [item] && [item][1..] == [];
      var (after, record) := Submitted(policy, s, item.0, item.1, item.2);
      assert SubmittedAll(policy, after, [item][1..]) == (after, []);
      assert [record] + [] == [] + [record];
    } else {
      assert (items + [item])[1..] == items[1..] + [item];
      var (next, record) := Submitted(policy, s, items[0].0, items[0].1, items[0].2);
      SubmittedLast(policy, next, items[1..], item);
      var (before, records) := SubmittedAll(policy, next, items[1..]);
      var last := Submitted(policy, before, item.0, item.1, item.2).1;
      assert [record] + (records + [last]) == [record] + records + [last];
    }
  }

  /** The first n transfers of the bundle come with their tokens. */
  ghost predicate Complete(bundle: PaymentBundle, n: nat)
    requires n <= |bundle.transfers|
  {
    forall i :: 0 <= i < n ==> bundle.transfers[i].body.tokenId in bundle.tokens
  }

  /** The first n transfers with their tokens and clock readings */
  function ItemsOf(bundle: PaymentBundle, n: nat, clock: nat -> Reading): (items: seq<(Transfer, Token, Reading)>)
    requires n <= |bundle.transfers| && Complete(bundle, n)
    ensures |items| == n
  {
    seq(n, i requires 0 <= i < n =>
      (bundle.transfers[i], bundle.tokens[bundle.transfers[i].body.tokenId], clock(i)))
  }

  /** A bundle is settled like its transfers one by one, each judged on what the ones before it left. */
  lemma {:induction false} ProcessedIsRun(policy: PolicyConfig, s: Server, bundle: PaymentBundle, n: nat,
                                          clock: nat -> Reading)
    requires n <= |bundle.transfers| && Complete(bundle, n)
    ensures var (after, records) := SubmittedAll(policy, s, ItemsOf(bundle, n, clock));
      Processed(policy, s, bundle, n, clock) == (after, Ok(records))
  {
    hide Submitted;
    if n == 0 {
    } else {
      ProcessedIsRun(policy, s, bundle, n - 1, clock);
      var transfer := bundle.transfers[n - 1];
      var item := (transfer, bundle.tokens[transfer.body.tokenId], clock(n - 1));
      SubmittedLast(policy, s, ItemsOf(bundle, n - 1, clock), item);
      assert ItemsOf(bundle, n, clock) == ItemsOf(bundle, n - 1, clock) + [item];
    }
  }

  /** The first transfer without its token ends a bundle: nothing after it is looked at, nothing before it undone. */
  lemma {:induction false} MissingTokenEnds(policy: PolicyConfig, s: Server, bundle: PaymentBundle, m: nat, n: nat,
                                            clock: nat -> Reading)
    requires m < n <= |bundle.transfers| && Complete(bundle, m)
    requires bundle.transfers[m].body.tokenId !in bundle.tokens
    ensures Processed(policy, s, bundle, n, clock) ==
      (SubmittedAll(policy, s, ItemsOf(bundle, m, clock)).0, Err(MissingToken))
  {
    ProcessedIsRun(policy, s, bundle, m, clock);
    hide Submitted, SubmittedAll;
    assert Processed(policy, s, bundle, m + 1, clock).1 == Err(MissingToken);
    MissingEnds(policy, s, bundle, m + 1, n, clock);
  }

  // ---------- the hash book ----------

  /** The hash on file for a transfer id is that of the last accepted transfer under the id. */
  ghost predicate HashesOnFile(accepted: seq<(Transfer, Token)>, hashes: map<string, Digest>) {
    (forall id :: id in hashes ==> exists i :: 0 <= i < |accepted| && accepted[i].0.body.transferId == id) &&
    forall i :: 0 <= i < |accepted| ==>
      var id := accepted[i].0.body.transferId;
      id in hashes &&
      (SettledAfter(accepted, i, id) || hashes[id] == HashOf(accepted[i].0))
  }

  ghost predicate SettledAfter(accepted: seq<(Transfer, Token)>, i: nat, id: string) {
    exists j :: i < j < |accepted| && accepted[j].0.body.transferId == id
  }

  lemma EnteringFiles(accepted: seq<(Transfer, Token)>, hashes: map<string, Digest>, entry: (Transfer, Token))
    requires HashesOnFile(accepted, hashes)
    ensures HashesOnFile(accepted + [entry], hashes[entry.0.body.transferId := HashOf(entry.0)])
  {
    var longer := accepted + [entry];
    var hashes' := hashes[entry.0.body.transferId := HashOf(entry.0)];
    assert longer[|accepted|] == entry && forall i :: 0 <= i < |accepted| ==> longer[i] == accepted[i];
    forall i | 0 <= i < |longer|
      ensures longer[i].0.body.transferId in hashes'
      ensures SettledAfter(longer, i, longer[i].0.body.transferId) ||
        hashes'[longer[i].0.body.transferId] == HashOf(longer[i].0)
    {
      if i < |accepted| {
        var id := accepted[i].0.body.transferId;
        if j :| i < j < |accepted| && accepted[j].0.body.transferId == id {
          assert longer[j].0.body.transferId == id;
        } else {
          assert !SettledAfter(accepted, i, id);
        }
      }
    }
    forall id | id in hashes'
      ensures exists i :: 0 <= i < |longer| && longer[i].0.body.transferId == id
    {
      if id in hashes {
        var i :| 0 <= i < |accepted| && accepted[i].0.body.transferId == id;
        assert longer[i].0.body.transferId == id;
      }
    }
  }

  lemma {:induction false} ProcessingFiles(policy: PolicyConfig, s: Server, bundle: PaymentBundle, n: nat,
                                           clock: nat -> Reading)
    requires n <= |bundle.transfers| && HashesOnFile(s.accepted, s.hashes)
    ensures var after := Processed(policy, s, bundle, n, clock).0; HashesOnFile(after.accepted, after.hashes)
  {
    hide HashesOnFile, Assess;
    if n == 0 {
    } else {
      ProcessingFiles(policy, s, bundle, n - 1, clock);
      var before := Processed(policy, s, bundle, n - 1, clock).0;
      var transfer := bundle.transfers[n - 1];
      if transfer.body.tokenId in bundle.tokens {
        EnteringFiles(before.accepted, before.hashes, (transfer, bundle.tokens[transfer.body.tokenId]));
      }
    }
  }

  /** Over any run the hash on file for a transfer id is that of the last transfer accepted under it. */
  lemma {:induction false} RunFilesHashes(policy: PolicyConfig, s: Server, events: seq<Event>)
    requires HashesOnFile(s.accepted, s.hashes)
    ensures var after := Run(policy, s, events); HashesOnFile(after.accepted, after.hashes)
    decreases |events|
  {
    hide HashesOnFile, Processed, Recovery, WithIds, MintedFor, Put;
    if events == [] {
    } else {
      if events[0].Settle? {
        ProcessingFiles(policy, s, events[0].bundle, |events[0].bundle.transfers|, events[0].clock);
      }
      RunFilesHashes(policy, Step(policy, s, events[0]), events[1..]);
    }
  }

  // ---------- verdicts ----------

  /** Signed, descended from an issued token, within the hop limit, and linked to the token's last transfer */
  ghost predicate WellFormed(policy: PolicyConfig, s: Server, transfer: Transfer, t: Token) {
    var b := transfer.body;
    transfer.SignedBySender() && RootVerified(s.issuerKey, s.issued, t) && b.hopCount <= policy.maxHops &&
    b.nonce <= policy.maxHops &&
    b.parentTransferId == t.lastTransferId && b.parentTransferHash == t.lastTransferHash &&
    b.prevTransferHash == t.lastTransferHash
  }

  /** What a second settlement of a token is called */
  function Repetition(earlier: Transfer, later: Transfer): Reason {
    if ChainKeyOf(earlier) == ChainKeyOf(later) then TokenAlreadySettled else ConflictingChain
  }

  /**
   A transfer is called a double spend exactly when it is well formed and its token was settled
   before: as a conflict when that settlement continued another chain, as a repetition when it
   continued the same one. It is settled exactly when it is well formed, its token was not settled
   before, and neither a revocation nor the expiry of the token came first.
   */
  lemma VerdictIff(policy: PolicyConfig, s: Server, transfer: Transfer, t: Token, now: int)
    requires Booked(s)
    ensures var reason := Assess(policy, s, transfer, t, now);
      (StatusOf(reason).DoubleSpend? <==> WellFormed(policy, s, transfer, t) && t.tokenId in SettledIds(s.accepted)) &&
      (WellFormed(policy, s, transfer, t) ==>
        forall i :: 0 <= i < |s.accepted| && s.accepted[i].1.tokenId == t.tokenId ==>
          reason == Repetition(s.accepted[i].0, transfer)) &&
      (reason.Fine? <==>
        WellFormed(policy, s, transfer, t) && t.tokenId !in SettledIds(s.accepted) && !t.IssueExpired(policy, now) &&
        !(transfer.body.senderPk in s.revoked && transfer.body.timestamp >= s.revoked[transfer.body.senderPk]))
  {
    hide RootVerified, SettledOnce, ChainKeyOf;
    forall i | 0 <= i < |s.accepted| && s.accepted[i].1.tokenId == t.tokenId
      ensures t.tokenId in s.ledger && t.tokenId in s.chains && s.chains[t.tokenId] == ChainKeyOf(s.accepted[i].0)
    {
      assert EntryBooked(s, s.accepted[i]);
    }
  }

  /** The id a token descends from: its own, unless it names another, and an empty name counts as none. */
  ghost function OriginId(t: Token): string {
    match t.originTokenId
    case None => t.tokenId
    case Some(origin) => if origin == "" then t.tokenId else origin
  }

  lemma IssuedUnderIff(s: Server, t: Token)
    requires Genuine(s.issuerKey, s.issued)
    ensures Has(s.issued, t.Origin()) <==> exists i :: 0 <= i < |s.issued| && s.issued[i].1.tokenId == OriginId(t)
  {
    if Has(s.issued, t.Origin()) {
      assert s.issued[IndexOf(s.issued, t.Origin())].1.tokenId == OriginId(t);
    }
    if i :| 0 <= i < |s.issued| && s.issued[i].1.tokenId == OriginId(t) {
      HasAt(s.issued, i);
    }
  }

  /** The checks of a transfer in the order they are made, each true when it passes */
  datatype Checks = Checks(signed: bool, rooted: bool, near: bool, child: bool, heir: bool, linked: bool, agreed: bool,
                           unsettled: bool, allowed: bool, young: bool)

  ghost function ChecksOf(policy: PolicyConfig, s: Server, transfer: Transfer, t: Token, now: int): Checks {
    var b := transfer.body;
    Checks(transfer.signature == Signed(b.senderPk, TransferMessage(b)),
           exists i :: 0 <= i < |s.issued| && s.issued[i].1.tokenId == OriginId(t),
           b.hopCount <= policy.maxHops && b.nonce <= policy.maxHops,
           b.parentTransferId == t.lastTransferId, b.parentTransferHash == t.lastTransferHash,
           b.prevTransferHash == t.lastTransferHash,
           t.tokenId in s.chains ==>
             s.chains[t.tokenId] == ChainKey(b.parentTransferId, b.prevTransferHash, b.hopCount),
           t.tokenId !in s.ledger, b.senderPk in s.revoked ==> b.timestamp < s.revoked[b.senderPk],
           now / 1_000_000 - t.issueTimestamp <= policy.tokenExpirySeconds)
  }

  /** The reason for the first check that fails */
  ghost function ReasonOf(c: Checks): Reason {
    if !c.signed then BadTransferSig
    else if !c.rooted then BadIssuerSig
    else if !c.near then MaxHopsExceeded
    else if !c.child then BrokenParentLink
    else if !c.heir then BrokenParentHashLink
    else if !c.linked then BrokenHashLink
    else if !c.agreed then ConflictingChain
    else if !c.unsettled then TokenAlreadySettled
    else if !c.allowed then RevokedSender
    else if !c.young then TokenExpired
    else Fine
  }

  lemma FirstFailing(policy: PolicyConfig, s: Server, transfer: Transfer, t: Token, now: int)
    requires Genuine(s.issuerKey, s.issued)
    ensures Assess(policy, s, transfer, t, now) == ReasonOf(ChecksOf(policy, s, transfer, t, now))
  {
    RootVerifiedIff(s, t);
    IssuedUnderIff(s, t);
    hide Genuine, RootVerified, Has, OriginId;
  }

  /** The checks up to and including the one for the links pass. */
  ghost predicate Follows(c: Checks) {
    c.signed && c.rooted && c.near && c.child && c.heir && c.linked
  }

  /**
   The answer to any transfer of any token, whoever made them: the first of the ten checks that fails is
   the reason. Two of the reasons are double spends, the others violations of policy.
   */
  lemma AssessIff(policy: PolicyConfig, s: Server, transfer: Transfer, t: Token, now: int)
    requires Genuine(s.issuerKey, s.issued)
    ensures var (reason, c) := (Assess(policy, s, transfer, t, now), ChecksOf(policy, s, transfer, t, now));
      (reason == BadTransferSig <==> !c.signed) && (reason == BadIssuerSig <==> c.signed && !c.rooted) &&
      (reason == MaxHopsExceeded <==> c.signed && c.rooted && !c.near) &&
      (reason == BrokenParentLink <==> c.signed && c.rooted && c.near && !c.child) &&
      (reason == BrokenParentHashLink <==> c.signed && c.rooted && c.near && c.child && !c.heir) &&
      (reason == BrokenHashLink <==> c.signed && c.rooted && c.near && c.child && c.heir && !c.linked) &&
      (reason == ConflictingChain <==> Follows(c) && !c.agreed) &&
      (reason == TokenAlreadySettled <==> Follows(c) && c.agreed && !c.unsettled) &&
      (reason == RevokedSender <==> Follows(c) && c.agreed && c.unsettled && !c.allowed) &&
      (reason == TokenExpired <==> Follows(c) && c.agreed && c.unsettled && c.allowed && !c.young) &&
      (reason == Fine <==> Follows(c) && c.agreed && c.unsettled && c.allowed && c.young)
    ensures var reason := Assess(policy, s, transfer, t, now);
      (StatusOf(reason) == Settled <==> reason == Fine) &&
      (StatusOf(reason) == DoubleSpend <==> reason == ConflictingChain || reason == TokenAlreadySettled)
  {
    FirstFailing(policy, s, transfer, t, now);
    hide Assess, ChecksOf, Genuine;
  }

  /**
   From wallet to server: a transfer that an honest wallet makes of a token with a hop left, whose
   origin was issued, is settled exactly when the token id is new to the ledger, the sender was not
   revoked by then, and the token is not expired.
   */
  lemma HonestPaymentSettlesIff(policy: PolicyConfig, s: Server, sender: Key, receiver: Key, t: Token,
                                draw: OfflineWallet.TransferDraw, now: int)
    requires Kept(s) && OfflineRuns.HopsCounted(policy, t) && t.hopCount < policy.maxHops && Has(s.issued, t.Origin())
    ensures var transfer := OfflineWallet.TransferOf(sender, receiver, t, draw);
      Assess(policy, s, transfer, OfflineWallet.Outbound(t, receiver), now) == Fine <==>
        t.tokenId !in s.ledger && !(sender in s.revoked && draw.timestamp >= s.revoked[sender]) &&
        !t.IssueExpired(policy, now)
  {
    RootVerifiedIff(s, OfflineWallet.Outbound(t, receiver));
    hide Genuine, RootVerified, Has, EntryBooked, SettledOnce;
  }

  // ---------- settlements of one issued token ----------

  ghost predicate SettledOrigin(accepted: seq<(Transfer, Token)>, origin: string) {
    exists i :: 0 <= i < |accepted| && accepted[i].1.Origin() == origin
  }

  /** No two accepted transfers descend from the same issued token. */
  ghost predicate OriginsOnce(accepted: seq<(Transfer, Token)>) {
    forall i, j :: 0 <= i < j < |accepted| ==> accepted[i].1.Origin() != accepted[j].1.Origin()
  }

  /** A token made by anyone that names an issued token as its origin, and the transfer that goes with it */
  function SelfMade(owner: Key, receiver: Key, id: string, value: int, origin: string, transferId: string,
                    now: int): (Transfer, Token) {
    var t := Token(id, value, owner, owner, 0, OtherSignature(""), None, None, 0, Epoch(now), now, Some(origin));
    var body := TransferBody(transferId, id, owner, receiver, 1, None, None, None, 1, now);
    (Transfer(body, Signed(owner, TransferMessage(body))), t)
  }

  /**
   The ledger is keyed by the bundled token's own id, and only its origin is looked up: a self-made
   token under a new id, of any value, settles against any issued token, settled before or not.
   */
  lemma SelfMadeSettles(policy: PolicyConfig, s: Server, owner: Key, receiver: Key, id: string, value: int,
                        origin: string, transferId: string, now: int)
    requires Kept(s) && Has(s.issued, origin) && origin != "" && id !in s.ledger && owner !in s.revoked
    requires policy.maxHops >= 1 && policy.tokenExpirySeconds >= 0
    ensures var (transfer, t) := SelfMade(owner, receiver, id, value, origin, transferId, now);
      Assess(policy, s, transfer, t, now) == Fine && t.value == value && t.Origin() == origin
  {
    RootVerifiedIff(s, SelfMade(owner, receiver, id, value, origin, transferId, now).1);
    hide Genuine, RootVerified, Has, EntryBooked, SettledOnce;
  }

  /** A settlement keeps each issued token settled at most once exactly when its origin was not settled before. */
  lemma OriginsOnceIff(policy: PolicyConfig, s: Server, transfer: Transfer, t: Token, reading: Reading)
    requires OriginsOnce(s.accepted) && Assess(policy, s, transfer, t, reading.checkedAt).Fine?
    ensures OriginsOnce(Submitted(policy, s, transfer, t, reading).0.accepted) <==>
      !SettledOrigin(s.accepted, t.Origin())
  {
    hide Assess;
    var accepted := Submitted(policy, s, transfer, t, reading).0.accepted;
    assert accepted[|s.accepted|] == (transfer, t);
    assert forall i :: 0 <= i < |s.accepted| ==> accepted[i] == s.accepted[i];
  }

  /** Every settled token is its own origin. */
  ghost predicate OwnOrigins(s: Server) {
    forall i :: 0 <= i < |s.accepted| ==> s.accepted[i].1.Origin() == s.accepted[i].1.tokenId
  }

  /** Once per token id is once per issued token as long as every settled token is its own origin. */
  lemma OwnOriginsSettleOnce(s: Server)
    requires Kept(s) && OwnOrigins(s)
    ensures OriginsOnce(s.accepted)
  {
    hide Genuine, EntryBooked;
  }

  ghost predicate OwnOrigin(t: Token) {
    t.Origin() == t.tokenId
  }

  /** Minted tokens are their own origin, and an honest payment leaves them so. */
  lemma HonestIsOwnOrigin(issuerKey: Key, owner: Key, value: int, draw: MintDraw, t: Token, receiver: Key)
    ensures OwnOrigin(MintedToken(issuerKey, owner, value, draw))
    ensures OwnOrigin(OfflineWallet.Outbound(t, receiver)) <==> OwnOrigin(t)
  {
  }

  /**
   A newly minted token: the issuer's signature over its own fields, no transfer made, no hop counted, dated
   as drawn, its own origin.
   */
  lemma NewTokenIs(issuerKey: Key, owner: Key, value: int, draw: MintDraw)
    ensures var t := MintedToken(issuerKey, owner, value, draw);
      t.issuerSignature ==
        Signed(issuerKey, MintMessage(draw.tokenId, value, issuerKey, owner, 0, draw.issueTimestamp,
                                      Some(draw.tokenId))) &&
      t.tokenId == draw.tokenId && t.value == value && t.issuerPk == issuerKey && t.currentOwner == owner &&
      t.nonce == 0 == t.hopCount && t.lastTransferId == None && t.lastTransferHash == None &&
      t.issueTimestamp == draw.issueTimestamp && t.createdAt == draw.createdAt &&
      t.originTokenId == Some(draw.tokenId)
  {
  }

  ghost predicate OwnOriginBundle(bundle: PaymentBundle) {
    forall id :: id in bundle.tokens ==> OwnOrigin(bundle.tokens[id])
  }

  lemma {:induction false} ProcessingKeepsOrigins(policy: PolicyConfig, s: Server, bundle: PaymentBundle,
                                                  n: nat, clock: nat -> Reading)
    requires n <= |bundle.transfers| && OwnOrigins(s) && OwnOriginBundle(bundle)
    ensures OwnOrigins(Processed(policy, s, bundle, n, clock).0)
  {
    hide Assess;
    if n == 0 {
    } else {
      ProcessingKeepsOrigins(policy, s, bundle, n - 1, clock);
      var transfer := bundle.transfers[n - 1];
      assert transfer.body.tokenId in bundle.tokens ==> OwnOrigin(bundle.tokens[transfer.body.tokenId]);
    }
  }

  lemma {:induction false} RunKeepsOrigins(policy: PolicyConfig, s: Server, events: seq<Event>)
    requires OwnOrigins(s) && forall i :: 0 <= i < |events| && events[i].Settle? ==> OwnOriginBundle(events[i].bundle)
    ensures OwnOrigins(Run(policy, s, events))
    decreases |events|
  {
    if events == [] {
    } else {
      hide Processed, OwnOriginBundle, Recovery, WithIds, MintedFor, Put;
      if events[0].Settle? {
        ProcessingKeepsOrigins(policy, s, events[0].bundle, |events[0].bundle.transfers|, events[0].clock);
      }
      RunKeepsOrigins(policy, Step(policy, s, events[0]), events[1..]);
    }
  }

  /** From a new server on, bundles of tokens that are their own origin settle each issued token at most once. */
  lemma IssuedTokensSettleOnce(policy: PolicyConfig, issuerKey: Key, events: seq<Event>)
    requires forall i :: 0 <= i < |events| && events[i].Settle? ==> OwnOriginBundle(events[i].bundle)
    ensures OriginsOnce(Run(policy, Server(issuerKey, [], map[], map[], map[], [], map[], map[], {}), events).accepted)
  {
    var first := Server(issuerKey, [], map[], map[], map[], [], map[], map[], {});
    NewServerKept(issuerKey);
    RunKeepsBooks(policy, first, events);
    RunKeepsOrigins(policy, first, events);
    hide Run, Kept, OwnOrigins;
    OwnOriginsSettleOnce(Run(policy, first, events));
  }
}
