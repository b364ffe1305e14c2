/** The issuer ledger of the dpc stack (dpc/reconciliation_engine.py). */
module DpcLedger {
  import opened Basics
  import opened DpcChain

  import DpcRuns
  import DpcTransfers
  import DpcWallet

  datatype MintInfo = MintInfo(amount: int, issuerSignature: Signature, issuedAt: int, ttl: int)

  datatype Settlement = Settlement(tokenId: string, claimer: Key, chainDepth: nat, settledAt: int)

  datatype Conflict = Conflict(claimer: Key, chainDepth: nat, submittedAt: int)

  datatype Ledger = Ledger(
    minted: map<string, MintInfo>, settled: map<string, Settlement>, blacklist: set<Key>,
    pending: map<string, seq<Conflict>>)

  datatype Submission = Submission(claimer: Key, token: Token, chain: seq<Record>)

  /** mint_token */
  function Minted(ledger: Ledger, issuer: Key, receiver: Key, amount: int, id: string, nonce: string, now: int)
    : (Ledger, Result<(Token, seq<Record>), Failure>)
  {
    match NewlyMinted(issuer, receiver, amount, id, nonce, now)
    case Err(e) => (ledger, Err(e))
    case Ok(item) =>
      var info := MintInfo(amount, item.0.issuerSignature, now, now + TOKEN_TTL_SECONDS);
      (ledger.(minted := ledger.minted[id := info]), Ok(item))
  }

  /** A claim by the final receiver of a validated chain of a token whose id is in the book. */
  ghost predicate Valid(ledger: Ledger, s: Submission) {
    s.token.fields.tokenId in ledger.minted && Intact(s.token, s.chain) && s.chain != [] &&
    s.chain[|s.chain| - 1].payload.receiver == s.claimer
  }

  /** settle_token */
  function Settled(ledger: Ledger, s: Submission, now: int): (Ledger, Result<Settlement, Failure>) {
    var id := s.token.fields.tokenId;
    if id !in ledger.minted then (ledger, Err(ReconciliationFailed)) else
      match IntegrityError(s.token, s.chain)
      case Some(e) => (ledger, Err(e))
      case None =>
        if s.chain[|s.chain| - 1].payload.receiver != s.claimer then (ledger, Err(WalletState))
        else if id in ledger.settled && ledger.settled[id].claimer == s.claimer then (ledger, Ok(ledger.settled[id]))
        else if id in ledger.settled then
          var earlier := if id in ledger.pending then ledger.pending[id] else [];
          (ledger.(blacklist := ledger.blacklist + {s.claimer},
                   pending := ledger.pending[id := earlier + [Conflict(s.claimer, |s.chain|, now)]]),
           Err(FirstClaimConflict))
        else
          var settlement := Settlement(id, s.claimer, |s.chain|, now);
          (ledger.(settled := ledger.settled[id := settlement]), Ok(settlement))
  }

  /** settle_token on each submission until one fails; clock(i) is the time of the i-th. */
  function SettledAll(ledger: Ledger, submissions: seq<Submission>, clock: nat -> int)
    : (r: (Ledger, Result<seq<Settlement>, Failure>))
    ensures r.1.Ok? ==> |r.1.value| == |submissions|
  {
    if submissions == [] then (ledger, Ok([])) else
      var n := |submissions| - 1;
      var (before, done) := SettledAll(ledger, submissions[..n], clock);
      if done.Err? then (before, done) else
        match Settled(before, submissions[n], clock(n))
        case (after, Err(e)) => (after, Err(e))
        case (after, Ok(settlement)) => (after, Ok(done.value + [settlement]))
  }

  /** A settlement annotated with the proxy that relayed it. */
  datatype Relayed = Relayed(settlement: Settlement, proxy: Key)

  function RelayedBy(proxy: Key, settlements: seq<Settlement>): (r: seq<Relayed>)
    ensures |r| == |settlements|
    ensures forall i :: 0 <= i < |r| ==> r[i].settlement == settlements[i] && r[i].proxy == proxy
  {
    seq(|settlements|, i requires 0 <= i < |settlements| => Relayed(settlements[i], proxy))
  }

  class IssuerLedger {
    var minted: map<string, MintInfo>
    var settled: map<string, Settlement>
    var blacklist: set<Key>
    var pending: map<string, seq<Conflict>>

    constructor ()
      ensures Data() == Ledger(map[], map[], {}, map[])
    {
      minted, settled, blacklist, pending := map[], map[], {}, map[];
    }

    function Data(): Ledger
      reads this
    {
      Ledger(minted, settled, blacklist, pending)
    }

    method MintToken(issuer: Key, receiver: Key, amount: int, id: string, nonce: string, now: int)
      returns (r: Result<(Token, seq<Record>), Failure>)
      modifies this
      ensures (Data(), r) == Minted(old(Data()), issuer, receiver, amount, id, nonce, now)
    {
      if amount <= 0 || amount > MAX_SINGLE_TX {
        return Err(TransactionValueCap);
      }
      var fields := TokenFields(id, issuer, amount, now, now + TOKEN_TTL_SECONDS);
      var token := Token(fields, OtherSignature(""));
      token := token.(issuerSignature := Signed(issuer, TokenMessage(token.fields)));
      var genesis := FirstRecord(token, issuer, receiver, nonce);
      minted := minted[id := MintInfo(amount, token.issuerSignature, token.fields.issuedAt, token.fields.ttlExpiry)];
      return Ok((token, [genesis]));
    }

    method SettleToken(s: Submission, now: int) returns (r: Result<Settlement, Failure>)
      modifies this
      ensures (Data(), r) == Settled(old(Data()), s, now)
    {
      var id := s.token.fields.tokenId;
      if id !in minted {
        return Err(ReconciliationFailed);
      }
      var chain := new TransferChain(s.chain);
      var error := chain.ValidateIntegrity(s.token);
      if error.Some? {
        return Err(error.value);
      }
      if s.chain[|s.chain| - 1].payload.receiver != s.claimer {
        return Err(WalletState);
      }
      if id in settled {
        var existing := settled[id];
        if existing.claimer == s.claimer {
          return Ok(existing);
        }
        blacklist := blacklist + {s.claimer};
        if id !in pending {
          pending := pending[id := []];
        }
        pending := pending[id := pending[id] + [Conflict(s.claimer, |s.chain|, now)]];
        assert pending == old(pending)[id := pending[id]];
        return Err(FirstClaimConflict);
      }
      var settlement := Settlement(id, s.claimer, |s.chain|, now);
      settled := settled[id := settlement];
      return Ok(settlement);
    }

    /** Settles the submissions one by one; the first failure ends it and what was settled stays. */
    method ProxySync(proxy: Key, submissions: seq<Submission>,
                     clock: nat -> int) returns (r: Result<seq<Relayed>, Failure>)
      modifies this
      ensures Data() == SettledAll(old(Data()), submissions, clock).0
      ensures match SettledAll(old(Data()), submissions, clock).1
        case Ok(settlements) => r == Ok(RelayedBy(proxy, settlements))
        case Err(e) => r == Err(e)
    {
      var results: seq<Relayed> := [];
      ghost var start := Data();
      ghost var done: seq<Settlement> := [];
      for i := 0 to |submissions|
        invariant SettledAll(start, submissions[..i], clock) == (Data(), Ok(done))
        invariant results == RelayedBy(proxy, done)
      {
        assert submissions[..i + 1][..i] == submissions[..i];
        var one := SettleToken(submissions[i], clock(i));
        if one.Err? {
          FailureEnds(start, submissions, clock, i + 1);
          return Err(one.error);
        }
        results := results + [Relayed(one.value, proxy)];
        done := done + [one.value];
      }
      assert submissions[..|submissions|] == submissions;
      return Ok(results);
    }
  }

  lemma {:induction false} FailureEnds(ledger: Ledger, submissions: seq<Submission>, clock: nat -> int, n: nat)
    requires n <= |submissions| && SettledAll(ledger, submissions[..n], clock).1.Err?
    ensures SettledAll(ledger, submissions, clock) == SettledAll(ledger, submissions[..n], clock)
    decreases |submissions|
  {
    if n == |submissions| {
      assert submissions[..n] == submissions;
    } else {
      var front := submissions[..|submissions| - 1];
      assert front[..n] == submissions[..n];
      FailureEnds(ledger, front, clock, n);
    }
  }

  // ---------- runs ----------

  datatype Event =
    | Mint(issuer: Key, receiver: Key, amount: int, id: string, nonce: string, mintedAt: int)
    | Settle(submission: Submission, at: int)

  function Step(ledger: Ledger, e: Event): Ledger {
    match e
    case Mint(issuer, receiver, amount, id, nonce, now) => Minted(ledger, issuer, receiver, amount, id, nonce, now).0
    case Settle(s, now) => Settled(ledger, s, now).0
  }

  /** The ledger after the events, the last one last. */
  function Run(ledger: Ledger, events: seq<Event>): Ledger {
    if events == [] then ledger else
      var n := |events| - 1;
      Step(Run(ledger, events[..n]), events[n])
  }

  /** What one claim does, read off the claim's validity. */
  lemma SettledEffect(ledger: Ledger, s: Submission, now: int)
    ensures var (after, r) := Settled(ledger, s, now);
      var id := s.token.fields.tokenId;
      after.minted == ledger.minted &&
      (!Valid(ledger, s) ==> after == ledger && r.Err?) &&
      (Valid(ledger, s) ==>
        id in after.settled &&
        (id in ledger.settled ==> after.settled == ledger.settled) &&
        (id !in ledger.settled ==> after.settled == ledger.settled[id := Settlement(id, s.claimer, |s.chain|, now)]) &&
        after.blacklist == ledger.blacklist + (if after.settled[id].claimer == s.claimer then {} else {s.claimer}) &&
        (r.Ok? <==> after.settled[id].claimer == s.claimer) && (r.Ok? ==> r.value == after.settled[id]))
  {
  }

  /** What the book says of a newly minted token agrees with the token; a refused mint leaves no trace. */
  lemma MintIsBooked(ledger: Ledger, issuer: Key, receiver: Key, amount: int, id: string, nonce: string, now: int)
    ensures var (after, r) := Minted(ledger, issuer, receiver, amount, id, nonce, now);
      (r.Err? ==> after == ledger) &&
      (r.Ok? ==>
        var token := r.value.0;
        id in after.minted && token.fields.tokenId == id && token.IssuerSigned() &&
        after.minted[id] ==
          MintInfo(token.fields.amount, token.issuerSignature, token.fields.issuedAt, token.fields.ttlExpiry) &&
        after == ledger.(minted := ledger.minted[id := after.minted[id]]))
  {
  }

  /**
   Why a claim fails: the id is not in the book; the chain does not validate; the claimer is not its final
   receiver; or the token is settled to somebody else. Only the last is put on file, after the earlier
   conflicts about the token.
   */
  lemma ClaimReason(ledger: Ledger, s: Submission, now: int)
    ensures var ((after, r), id) := (Settled(ledger, s, now), s.token.fields.tokenId);
      var (known, intact) := (id in ledger.minted, Intact(s.token, s.chain));
      var mine := s.chain != [] && s.chain[|s.chain| - 1].payload.receiver == s.claimer;
      var conflict := known && intact && mine && id in ledger.settled && ledger.settled[id].claimer != s.claimer;
      (r == Err(ReconciliationFailed) <==> !known) && (r == Err(WalletState) <==> known && intact && !mine) &&
      (r == Err(FirstClaimConflict) <==> conflict) && (r.Ok? <==> known && intact && mine && !conflict) &&
      (known && !intact ==> Some(r.error) == IntegrityError(s.token, s.chain)) &&
      after.pending ==
        if conflict then
          ledger.pending[id := (if id in ledger.pending then ledger.pending[id] else []) +
                               [Conflict(s.claimer, |s.chain|, now)]]
        else ledger.pending
  {
    IntactIff(s.token, s.chain);
    IntegrityReasons(s.token, s.chain);
    hide IntegrityError, LinkedAt;
  }

  lemma IntegrityReasons(token: Token, chain: seq<Record>)
    ensures IntegrityError(token, chain).Some? ==>
      IntegrityError(token, chain).value in {SignatureVerification, ChainIntegrity, HopLimitExceeded}
  {
    DpcTransfers.IntegrityReason(token, chain);
  }

  /** Claim i of a run was made by the final receiver of a validated chain of a token minted by then. */
  ghost predicate ValidAt(ledger: Ledger, events: seq<Event>, i: nat)
    requires i < |events|
  {
    events[i].Settle? && Valid(Run(ledger, events[..i]), events[i].submission)
  }

  lemma {:induction false} PrefixKeeps(ledger: Ledger, events: seq<Event>, i: nat)
    requires i <= |events|
    ensures var early, late := Run(ledger, events[..i]), Run(ledger, events);
      (forall id :: id in early.settled ==> id in late.settled && late.settled[id] == early.settled[id]) &&
      early.minted.Keys <= late.minted.Keys && early.blacklist <= late.blacklist
    decreases |events|
  {
    hide Settled;
    var n := |events| - 1;
    if i == |events| {
      assert events[..i] == events;
    } else {
      PrefixKeeps(ledger, events[..n], i);
      assert events[..n][..i] == events[..i];
      if events[n].Settle? {
        SettledEffect(Run(ledger, events[..n]), events[n].submission, events[n].at);
      }
    }
  }

  /** A claim that ends up with the settlement of its token. */
  ghost predicate WinsAt(ledger: Ledger, events: seq<Event>, i: nat)
    requires i < |events|
  {
    ValidAt(ledger, events, i) &&
    var s := events[i].submission;
    var late := Run(ledger, events);
    s.token.fields.tokenId in late.settled &&
    late.settled[s.token.fields.tokenId] == Settlement(s.token.fields.tokenId, s.claimer, |s.chain|, events[i].at)
  }

  /** A valid claim on a token that is settled to somebody else. */
  ghost predicate LosesAt(ledger: Ledger, events: seq<Event>, i: nat)
    requires i < |events|
  {
    ValidAt(ledger, events, i) &&
    var s := events[i].submission;
    var late := Run(ledger, events);
    s.token.fields.tokenId in late.settled && late.settled[s.token.fields.tokenId].claimer != s.claimer
  }

  /** Validity, victory and defeat of earlier claims do not change when the run goes on. */
  lemma PrefixClaims(ledger: Ledger, events: seq<Event>, i: nat)
    requires 0 < |events| && i < |events| - 1
    ensures var front := events[..|events| - 1];
      (ValidAt(ledger, front, i) <==> ValidAt(ledger, events, i)) &&
      (ValidAt(ledger, events, i) ==> events[i].submission.token.fields.tokenId in Run(ledger, front).settled) &&
      (WinsAt(ledger, front, i) <==> WinsAt(ledger, events, i)) &&
      (LosesAt(ledger, front, i) <==> LosesAt(ledger, events, i))
  {
    hide Settled, Valid;
    var n := |events| - 1;
    var front := events[..n];
    assert front[..i] == events[..i];
    PrefixKeeps(ledger, events, n);
    if ValidAt(ledger, events, i) {
      assert front[..i + 1][..i] == events[..i];
      SettledEffect(Run(ledger, events[..i]), events[i].submission, events[i].at);
      PrefixKeeps(ledger, front, i + 1);
    }
  }

  ghost predicate Lost(ledger: Ledger, events: seq<Event>, key: Key) {
    exists i :: 0 <= i < |events| && events[i].Settle? && LosesAt(ledger, events, i) &&
      events[i].submission.claimer == key
  }

  ghost predicate Won(ledger: Ledger, events: seq<Event>, id: string) {
    exists i :: 0 <= i < |events| && events[i].Settle? && WinsAt(ledger, events, i) &&
      events[i].submission.token.fields.tokenId == id
  }

  /**
   Runs from an empty ledger: settled tokens are minted tokens, every settlement records a claim
   by the final receiver of a validated chain, and a key is blacklisted exactly when it made
   such a claim for a token settled to somebody else.
   */
  lemma {:induction false} FirstClaimLedger(events: seq<Event>)
    ensures var empty := Ledger(map[], map[], {}, map[]);
      var late := Run(empty, events);
      late.settled.Keys <= late.minted.Keys &&
      (forall id :: id in late.settled ==> Won(empty, events, id)) &&
      (forall key :: key in late.blacklist <==> Lost(empty, events, key))
    decreases |events|
  {
    hide Settled, Valid, WinsAt, LosesAt;
    var empty := Ledger(map[], map[], {}, map[]);
    if events == [] {
    } else {
      var n := |events| - 1;
      var front := events[..n];
      FirstClaimLedger(front);
      forall i | 0 <= i < n
        ensures (WinsAt(empty, front, i) <==> WinsAt(empty, events, i)) &&
          (LosesAt(empty, front, i) <==> LosesAt(empty, events, i))
      {
        PrefixClaims(empty, events, i);
      }
      var before, late := Run(empty, front), Run(empty, events);
      LastClaim(empty, events);
      forall id | id in late.settled
        ensures Won(empty, events, id)
      {
        if id in before.settled {
          var i :| 0 <= i < n && front[i].Settle? && WinsAt(empty, front, i) &&
            front[i].submission.token.fields.tokenId == id;
          assert WinsAt(empty, events, i) && events[i] == front[i];
        } else {
          assert WinsAt(empty, events, n);
        }
      }
      forall key
        ensures key in late.blacklist <==> Lost(empty, events, key)
      {
        if Lost(empty, front, key) {
          var i :| 0 <= i < n && front[i].Settle? && LosesAt(empty, front, i) && front[i].submission.claimer == key;
          assert LosesAt(empty, events, i) && events[i] == front[i];
        }
        if Lost(empty, events, key) {
          var i :| 0 <= i < |events| && events[i].Settle? && LosesAt(empty, events, i) &&
            events[i].submission.claimer == key;
          assert i < n ==> LosesAt(empty, front, i) && events[i] == front[i];
        }
      }
    }
  }

  /** The last event of a run: at most one new settlement, its own, and at most one new blacklisted key, its loser. */
  lemma LastClaim(ledger: Ledger, events: seq<Event>)
    requires events != []
    ensures var n := |events| - 1;
      var before, late := Run(ledger, events[..n]), Run(ledger, events);
      (before.settled.Keys <= before.minted.Keys ==> late.settled.Keys <= late.minted.Keys) &&
      (forall id :: id in late.settled && id !in before.settled ==>
        events[n].Settle? && WinsAt(ledger, events, n) && events[n].submission.token.fields.tokenId == id) &&
      (forall key :: key in late.blacklist <==>
        key in before.blacklist ||
        (events[n].Settle? && LosesAt(ledger, events, n) && events[n].submission.claimer == key))
  {
    hide Settled;
    var n := |events| - 1;
    if events[n].Settle? {
      SettledEffect(Run(ledger, events[..n]), events[n].submission, events[n].at);
    }
  }

  /** Once settled, a token stays settled to the same claimer, at the same time, whatever follows. */
  lemma SettlementIsFinal(ledger: Ledger, events: seq<Event>, i: nat, id: string)
    requires i <= |events| && id in Run(ledger, events[..i]).settled
    ensures id in Run(ledger, events).settled && Run(ledger, events).settled[id] == Run(ledger, events[..i]).settled[id]
  {
    PrefixKeeps(ledger, events, i);
  }

  // ---------- proxy_sync as a run ----------

  function AsEvents(submissions: seq<Submission>, clock: nat -> int): (events: seq<Event>)
    ensures |events| == |submissions|
  {
    seq(|submissions|, i requires 0 <= i < |submissions| => Settle(submissions[i], clock(i)))
  }

  /** Submission i fails after the ones before it were settled. */
  ghost predicate FailsAt(ledger: Ledger, submissions: seq<Submission>, clock: nat -> int, i: nat)
    requires i < |submissions|
  {
    Settled(Run(ledger, AsEvents(submissions, clock)[..i]), submissions[i], clock(i)).1.Err?
  }

  ghost predicate FirstFailure(ledger: Ledger, submissions: seq<Submission>, clock: nat -> int, k: int) {
    0 <= k < |submissions| && FailsAt(ledger, submissions, clock, k) &&
    forall i :: 0 <= i < k ==> !FailsAt(ledger, submissions, clock, i)
  }

  /**
   proxy_sync is settle_token on each submission in turn up to and including the first one that
   fails: it returns every settlement exactly when none fails, and otherwise keeps the effects
   of the ones before the failure, and of the failure itself.
   */
  lemma {:induction false} ProxySyncIsPrefixRun(ledger: Ledger, submissions: seq<Submission>, clock: nat -> int)
    ensures var (after, r) := SettledAll(ledger, submissions, clock);
      var events := AsEvents(submissions, clock);
      (r.Ok? <==> forall i :: 0 <= i < |submissions| ==> !FailsAt(ledger, submissions, clock, i)) &&
      (r.Ok? ==> after == Run(ledger, events)) &&
      (r.Err? ==> exists k :: FirstFailure(ledger, submissions, clock, k) && after == Run(ledger, events[..k + 1]))
  {
    hide Settled, Minted;
    var events := AsEvents(submissions, clock);
    if submissions == [] {
    } else {
      var n := |submissions| - 1;
      var front := submissions[..n];
      ProxySyncIsPrefixRun(ledger, front, clock);
      assert AsEvents(front, clock) == events[..n];
      forall i | 0 <= i < n
        ensures FailsAt(ledger, front, clock, i) <==> FailsAt(ledger, submissions, clock, i)
      {
        assert events[..n][..i] == events[..i] && front[i] == submissions[i];
      }
      var (before, done) := SettledAll(ledger, front, clock);
      if done.Err? {
        var k :| FirstFailure(ledger, front, clock, k) && before == Run(ledger, events[..n][..k + 1]);
        assert events[..n][..k + 1] == events[..k + 1];
        assert FirstFailure(ledger, submissions, clock, k);
      } else {
        assert events[..n + 1] == events;
        assert Run(ledger, events) == Settled(before, submissions[n], clock(n)).0;
        assert FailsAt(ledger, submissions, clock, n) <==> Settled(before, submissions[n], clock(n)).1.Err?;
        if FailsAt(ledger, submissions, clock, n) {
          assert FirstFailure(ledger, submissions, clock, n);
        }
      }
    }
  }

  // ---------- wallets and the ledger ----------

  /**
   After any run of a wallet, a token it holds is settled for it exactly when the token was minted
   here and was not settled to somebody else before, and the claim blacklists the wallet exactly
   when it was.
   */
  lemma HeldTokenSettlesIff(key: Key, start: DpcWallet.Register, events: seq<DpcRuns.Event>, id: string,
                            ledger: Ledger, now: int)
    requires DpcRuns.Sound(key, start) && id in DpcRuns.Run(key, start, events).entries
    ensures var held := DpcRuns.Run(key, start, events).entries[id];
      held.token.Some? &&
      var claim := Submission(key, held.token.value, held.fullChain);
      (Settled(ledger, claim, now).1.Ok? <==>
        id in ledger.minted && (id in ledger.settled ==> ledger.settled[id].claimer == key)) &&
      (key in Settled(ledger, claim, now).0.blacklist <==>
        key in ledger.blacklist || (id in ledger.minted && id in ledger.settled && ledger.settled[id].claimer != key))
  {
    hide IntegrityError, DpcRuns.Run, Settled;
    DpcRuns.RunKeepsRegister(key, start, events);
    var held := DpcRuns.Run(key, start, events).entries[id];
    assert DpcRuns.Genuine(key, id, held);
    SettledEffect(ledger, Submission(key, held.token.value, held.fullChain), now);
  }

  // ---------- what a claim does not show ----------

  /** A token that anyone signs for any id and amount, on a chain that hands it to the claimer */
  function SelfMadeClaim(issuer: Key, claimer: Key, id: string, amount: int, nonce: string): Submission {
    var fields := TokenFields(id, issuer, amount, 0, 0);
    var token := Token(fields, Signed(issuer, TokenMessage(fields)));
    Submission(claimer, token, [FirstRecord(token, issuer, claimer, nonce)])
  }

  /** The book is consulted by id only: a self-made token of any amount claims any minted id. */
  lemma AnyoneCanClaim(ledger: Ledger, issuer: Key, claimer: Key, id: string, amount: int, nonce: string)
    requires id in ledger.minted
    ensures Valid(ledger, SelfMadeClaim(issuer, claimer, id, amount, nonce))
  {
    var claim := SelfMadeClaim(issuer, claimer, id, amount, nonce);
    BuiltIsIntact(claim.token, claim.chain);
  }

  /** The book entry of each minted id carries the issuer's signature over the token it was made for. */
  ghost predicate Booked(ledger: Ledger, token: Token) {
    token.fields.tokenId in ledger.minted && token.IssuerSigned() &&
    ledger.minted[token.fields.tokenId].issuerSignature == token.issuerSignature
  }

  /** In a ledger built by mints and settlements every minted id has such a token. */
  lemma {:induction false} MintedIsBooked(events: seq<Event>, id: string)
    requires id in Run(Ledger(map[], map[], {}, map[]), events).minted
    ensures exists token: Token ::
      token.fields.tokenId == id && Booked(Run(Ledger(map[], map[], {}, map[]), events), token)
    decreases |events|
  {
    hide Settled;
    var empty := Ledger(map[], map[], {}, map[]);
    var n := |events| - 1;
    var before := Run(empty, events[..n]);
    var e := events[n];
    if e.Mint? && e.id == id && Minted(before, e.issuer, e.receiver, e.amount, id, e.nonce, e.mintedAt).1.Ok? {
      var token := Minted(before, e.issuer, e.receiver, e.amount, id, e.nonce, e.mintedAt).1.value.0;
      assert Booked(Run(empty, events), token);
    } else {
      if e.Settle? {
        SettledEffect(before, e.submission, e.at);
      }
      MintedIsBooked(events[..n], id);
      var token: Token :| token.fields.tokenId == id && Booked(before, token);
      assert Booked(Run(empty, events), token);
    }
  }

  /** A valid claim is for the minted token, amount and all, exactly when it carries the signature in the book. */
  lemma ClaimIsForMintedIff(ledger: Ledger, claim: Submission, token: Token)
    requires Valid(ledger, claim) && Booked(ledger, token) && claim.token.fields.tokenId == token.fields.tokenId
    ensures claim.token == token <==>
      claim.token.issuerSignature == ledger.minted[claim.token.fields.tokenId].issuerSignature
  {
    IntactIff(claim.token, claim.chain);
  }
}
