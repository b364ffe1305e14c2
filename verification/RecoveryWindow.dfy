/**
 What the waiting window of a lost wallet is for (issuer/reconciliation_server.py:162-217): no value is both
 settled and reissued, none is lost, and every new key served costs the safe balance once more.
 */
module RecoveryWindow {
  import opened Basics
  import opened Dicts
  import opened PocModels
  import opened RecoveryServer
  import opened RecoveryRuns
  import opened LostWallets

  // ---------- the window closes ----------

  /**
   A token is expired at every moment past the window exactly when it was issued before the second
   in which the key was revoked; a revocation in the last microsecond of its second counts as the
   next one. Seconds since the issue are whole, the window is not.
   */
  lemma ExpiredAfterWindowIff(policy: PolicyConfig, revokedAt: int, t: Token)
    ensures (forall now :: now > revokedAt + policy.tokenExpirySeconds * MICROS ==> t.IssueExpired(policy, now)) <==>
      t.issueTimestamp < Epoch(revokedAt + 1)
  {
    var first := revokedAt + policy.tokenExpirySeconds * MICROS + 1;
    assert Epoch(first) == Epoch(revokedAt + 1) + policy.tokenExpirySeconds;
    if t.issueTimestamp < Epoch(revokedAt + 1) {
      forall now | now >= first
        ensures t.IssueExpired(policy, now)
      {
        assert Epoch(now) >= Epoch(first);
      }
    } else {
      assert !t.IssueExpired(policy, first);
    }
  }

  ghost function Own(s: Server, key: Key): seq<Token> {
    IssuedTo(TokensOf(s.issued), key)
  }

  /** Every token of the lost key was issued before the second of the revocation. */
  ghost predicate IssuedEarly(s: Server, key: Key)
    requires key in s.revoked
  {
    forall i :: 0 <= i < |Own(s, key)| ==> Own(s, key)[i].issueTimestamp < Epoch(s.revoked[key] + 1)
  }

  /** A bundled token that descends from one of the given tokens carries its issue date. */
  ghost predicate DatedAs(own: seq<Token>, t: Token) {
    forall i :: 0 <= i < |own| && own[i].tokenId == t.Origin() ==> t.issueTimestamp == own[i].issueTimestamp
  }

  ghost predicate TrueDates(own: seq<Token>, bundle: PaymentBundle) {
    forall id :: id in bundle.tokens ==> DatedAs(own, bundle.tokens[id])
  }

  /** Past the window nothing that descends from the lost key's tokens is settled. */
  lemma NothingSettledAfterWindow(policy: PolicyConfig, s: Server, key: Key, transfer: Transfer, t: Token, now: int)
    requires key in s.revoked && IssuedEarly(s, key) && DatedAs(Own(s, key), t) && t.Origin() in IdsOf(Own(s, key))
    requires now > WindowEnd(policy, s, key)
    ensures !Assess(policy, s, transfer, t, now).Fine?
  {
    var own := Own(s, key);
    var i :| 0 <= i < |own| && IdsOf(own)[i] == t.Origin();
    ExpiredAfterWindowIff(policy, s.revoked[key], t);
    hide RootVerified;
  }

  // ---------- settlements in time ----------

  ghost predicate DatedBy(s: Server, entry: (Transfer, Token), cutoff: int) {
    entry.0.body.transferId in s.times && s.times[entry.0.body.transferId] <= cutoff
  }

  /** Whatever was settled of the lost key's tokens is dated within the window. */
  ghost predicate InTime(policy: PolicyConfig, s: Server, key: Key)
    requires key in s.revoked
  {
    forall i :: 0 <= i < |s.accepted| && s.accepted[i].1.Origin() in IdsOf(Own(s, key)) ==>
      DatedBy(s, s.accepted[i], WindowEnd(policy, s, key))
  }

  /** A revocation that is not dated before the settlements starts in time. */
  lemma RevokedInTime(policy: PolicyConfig, s: Server, key: Key, now: int)
    requires Booked(s) && policy.tokenExpirySeconds >= 0 && forall id :: id in s.times ==> s.times[id] <= now
    ensures InTime(policy, Step(policy, s, Revoke(key, now)), key)
  {
    forall i | 0 <= i < |s.accepted|
      ensures DatedBy(s, s.accepted[i], now)
    {
      BookedTime(s, i);
    }
    hide IssuedTo, EntryBooked;
  }

  /** A token not settled before comes under a transfer id not settled before. */
  lemma NewTransferId(s: Server, transfer: Transfer, t: Token, i: nat)
    requires Booked(s) && i < |s.accepted| && t.tokenId !in s.ledger && SameTokenAgain(s, transfer, t)
    ensures s.accepted[i].0.body.transferId != transfer.body.transferId
  {
    assert EntryBooked(s, s.accepted[i]);
  }

  lemma EnteringInTime(policy: PolicyConfig, s: Server, key: Key, transfer: Transfer, t: Token,
                       record: SettlementRecord, settledAt: int)
    requires Booked(s) && key in s.revoked && InTime(policy, s, key)
    requires t.tokenId !in s.ledger && SameTokenAgain(s, transfer, t)
    requires t.Origin() in IdsOf(Own(s, key)) ==> settledAt <= WindowEnd(policy, s, key)
    ensures InTime(policy, Entered(s, transfer, t, record, settledAt), key)
  {
    hide Own, Booked, SameTokenAgain;
    var s' := Entered(s, transfer, t, record, settledAt);
    assert Own(s', key) == Own(s, key) by {
      SameOwn(s, s', key);
    }
    forall i | 0 <= i < |s'.accepted| && s'.accepted[i].1.Origin() in IdsOf(Own(s', key))
      ensures DatedBy(s', s'.accepted[i], WindowEnd(policy, s, key))
    {
      if i < |s.accepted| {
        NewTransferId(s, transfer, t, i);
        assert DatedBy(s, s.accepted[i], WindowEnd(policy, s, key));
      }
    }
  }

  lemma SameOwn(s: Server, s': Server, key: Key)
    requires s'.issued == s.issued
    ensures Own(s', key) == Own(s, key)
  {
  }

  lemma SubmittedInTime(policy: PolicyConfig, s: Server, key: Key, transfer: Transfer, t: Token, reading: Reading)
    requires Booked(s) && key in s.revoked && IssuedEarly(s, key) && InTime(policy, s, key)
    requires DatedAs(Own(s, key), t) && SameTokenAgain(s, transfer, t) && reading.settledAt <= reading.checkedAt
    ensures InTime(policy, Submitted(policy, s, transfer, t, reading).0, key)
  {
    hide Booked, InTime, IssuedEarly, DatedAs, SameTokenAgain, RootVerified;
    if Assess(policy, s, transfer, t, reading.checkedAt).Fine? {
      if t.Origin() in IdsOf(Own(s, key)) && reading.checkedAt > WindowEnd(policy, s, key) {
        NothingSettledAfterWindow(policy, s, key, transfer, t, reading.checkedAt);
      }
      var record := SettlementRecord(t.tokenId, transfer.body.transferId, Settled, Fine);
      EnteringInTime(policy, s, key, transfer, t, record, reading.settledAt);
    }
  }

  /** Each transfer of the bundle, when its turn comes, reuses no transfer id of another token. */
  ghost predicate FreshTransferIds(policy: PolicyConfig, s: Server, bundle: PaymentBundle, clock: nat -> Reading) {
    forall n :: 0 <= n < |bundle.transfers| ==>
      UniqueTransferId(Processed(policy, s, bundle, n, clock).0, bundle, bundle.transfers[n])
  }

  lemma {:induction false} ProcessedKeepsIssued(policy: PolicyConfig, s: Server, bundle: PaymentBundle, n: nat,
                                                clock: nat -> Reading)
    requires n <= |bundle.transfers|
    ensures var s' := Processed(policy, s, bundle, n, clock).0;
      s'.issued == s.issued && s'.revoked == s.revoked && s'.reissued == s.reissued
  {
    hide Assess;
    if n == 0 {
    } else {
      ProcessedKeepsIssued(policy, s, bundle, n - 1, clock);
    }
  }

  lemma {:induction false} ProcessedInTime(policy: PolicyConfig, s: Server, key: Key, bundle: PaymentBundle, n: nat,
                                           clock: nat -> Reading)
    requires n <= |bundle.transfers| && Kept(s) && key in s.revoked && IssuedEarly(s, key) && InTime(policy, s, key)
    requires TrueDates(Own(s, key), bundle) && FreshTransferIds(policy, s, bundle, clock)
    requires forall i: nat :: clock(i).settledAt <= clock(i).checkedAt
    ensures var s' := Processed(policy, s, bundle, n, clock).0;
      key in s'.revoked && InTime(policy, s', key)
  {
    ProcessedKeepsIssued(policy, s, bundle, n, clock);
    if n == 0 {
    } else {
      ProcessedInTime(policy, s, key, bundle, n - 1, clock);
      ProcessedKeepsIssued(policy, s, bundle, n - 1, clock);
      ProcessingKeeps(policy, s, bundle, n - 1, clock);
      var before := Processed(policy, s, bundle, n - 1, clock).0;
      var transfer := bundle.transfers[n - 1];
      assert UniqueTransferId(before, bundle, transfer);
      hide Submitted, InTime, DatedAs, SameTokenAgain, Booked, Genuine;
      if transfer.body.tokenId in bundle.tokens {
        SubmittedInTime(policy, before, key, transfer, bundle.tokens[transfer.body.tokenId], clock(n - 1));
      }
    }
  }

  /**
   Before the reissue: settlements read the clock in order, keep true dates and reuse no transfer
   id of another token; the key is not revoked again and nothing is minted to it.
   */
  ghost predicate Careful(policy: PolicyConfig, s: Server, key: Key, e: Event) {
    match e
    case Settle(bundle, clock) =>
      TrueDates(Own(s, key), bundle) && FreshTransferIds(policy, s, bundle, clock) &&
      forall n: nat :: clock(n).settledAt <= clock(n).checkedAt
    case _ => Quiet(s, key, 0, e)
  }

  ghost predicate CarefulRun(policy: PolicyConfig, s: Server, key: Key, events: seq<Event>)
    decreases |events|
  {
    events == [] ||
    (Careful(policy, s, key, events[0]) && CarefulRun(policy, Step(policy, s, events[0]), key, events[1..]))
  }

  /** What stands of a lost key: its issued tokens and its revocation */
  ghost predicate SameLoss(s: Server, s': Server, key: Key) {
    key in s.revoked && key in s'.revoked && s'.revoked[key] == s.revoked[key] && Own(s', key) == Own(s, key)
  }

  /** An event other than a settlement leaves the settlements and the loss as they are. */
  lemma OtherEvents(policy: PolicyConfig, s: Server, key: Key, e: Event)
    requires Kept(s) && key in s.revoked && !e.Settle? && Quiet(s, key, 0, e)
    ensures var s' := Step(policy, s, e);
      SameLoss(s, s', key) && s'.accepted == s.accepted && s'.times == s.times
  {
    hide IssuedTo, Put, MintedFor, Recovery, WithIds, Kept, Quiet, Processed;
    StepIsLater(policy, s, e, key, 0);
  }

  lemma CarefulInTime(policy: PolicyConfig, s: Server, key: Key, e: Event)
    requires Kept(s) && key in s.revoked && IssuedEarly(s, key) && InTime(policy, s, key)
    requires Careful(policy, s, key, e)
    ensures var s' := Step(policy, s, e);
      SameLoss(s, s', key) && IssuedEarly(s', key) && InTime(policy, s', key)
  {
    hide Processed, Kept, TrueDates, FreshTransferIds, IssuedTo, Quiet;
    if e.Settle? {
      ProcessedKeepsIssued(policy, s, e.bundle, |e.bundle.transfers|, e.clock);
      ProcessedInTime(policy, s, key, e.bundle, |e.bundle.transfers|, e.clock);
    } else {
      OtherEvents(policy, s, key, e);
      hide Step;
    }
  }

  lemma {:induction false} CarefulRunInTime(policy: PolicyConfig, s: Server, key: Key, events: seq<Event>)
    requires Kept(s) && key in s.revoked && IssuedEarly(s, key) && InTime(policy, s, key)
    requires CarefulRun(policy, s, key, events)
    ensures var s' := Run(policy, s, events);
      Kept(s') && SameLoss(s, s', key) && IssuedEarly(s', key) && InTime(policy, s', key)
    decreases |events|
  {
    hide Kept, IssuedEarly, InTime, Step, Careful;
    if events == [] {
    } else {
      CarefulInTime(policy, s, key, events[0]);
      StepKeeps(policy, s, events[0]);
      CarefulRunInTime(policy, Step(policy, s, events[0]), key, events[1..]);
    }
  }

  // ---------- after the reissue ----------

  /** After the reissue: settlements keep true dates, and their clock reads no less than it did. */
  ghost predicate Afterwards(s: Server, key: Key, now: int, e: Event) {
    match e
    case Settle(bundle, clock) => TrueDates(Own(s, key), bundle) && forall n: nat :: clock(n).checkedAt >= now
    case _ => Quiet(s, key, 0, e)
  }

  /** Everything settled since then descends from none of the lost key's tokens. */
  ghost predicate OnlyOthers(s: Server, s': Server, key: Key) {
    |s.accepted| <= |s'.accepted| && s'.accepted[..|s.accepted|] == s.accepted &&
    forall j :: |s.accepted| <= j < |s'.accepted| ==> s'.accepted[j].1.Origin() !in IdsOf(Own(s, key))
  }

  lemma {:induction false} ProcessedOnlyOthers(policy: PolicyConfig, s: Server, key: Key, bundle: PaymentBundle,
                                               n: nat, clock: nat -> Reading)
    requires n <= |bundle.transfers| && key in s.revoked && IssuedEarly(s, key) && TrueDates(Own(s, key), bundle)
    requires forall i: nat :: clock(i).checkedAt > WindowEnd(policy, s, key)
    ensures OnlyOthers(s, Processed(policy, s, bundle, n, clock).0, key)
  {
    hide Assess;
    if n == 0 {
    } else {
      ProcessedOnlyOthers(policy, s, key, bundle, n - 1, clock);
      ProcessedKeepsIssued(policy, s, bundle, n - 1, clock);
      var before := Processed(policy, s, bundle, n - 1, clock).0;
      var transfer := bundle.transfers[n - 1];
      if transfer.body.tokenId in bundle.tokens {
        var t := bundle.tokens[transfer.body.tokenId];
        if t.Origin() in IdsOf(Own(s, key)) {
          NothingSettledAfterWindow(policy, before, key, transfer, t, clock(n - 1).checkedAt);
        }
      }
    }
  }

  lemma OthersTransitive(s: Server, s1: Server, s2: Server, key: Key)
    requires OnlyOthers(s, s1, key) && OnlyOthers(s1, s2, key) && Own(s1, key) == Own(s, key)
    ensures OnlyOthers(s, s2, key)
  {
    hide Own;
    assert s2.accepted[..|s.accepted|] == s2.accepted[..|s1.accepted|][..|s.accepted|];
    assert forall j :: 0 <= j < |s1.accepted| ==> s2.accepted[j] == s1.accepted[j];
  }

  lemma AfterwardsStep(policy: PolicyConfig, s: Server, key: Key, now: int, e: Event)
    requires Kept(s) && key in s.revoked && IssuedEarly(s, key) && now > WindowEnd(policy, s, key)
    requires Afterwards(s, key, now, e)
    ensures SameLoss(s, Step(policy, s, e), key) && OnlyOthers(s, Step(policy, s, e), key)
  {
    hide Processed, Kept, TrueDates, IssuedTo, Quiet;
    if e.Settle? {
      ProcessedKeepsIssued(policy, s, e.bundle, |e.bundle.transfers|, e.clock);
      ProcessedOnlyOthers(policy, s, key, e.bundle, |e.bundle.transfers|, e.clock);
    } else {
      OtherEvents(policy, s, key, e);
      hide Step;
    }
  }

  lemma {:induction false} AfterwardsRun(policy: PolicyConfig, s: Server, key: Key, now: int, events: seq<Event>)
    requires Kept(s) && key in s.revoked && IssuedEarly(s, key) && now > WindowEnd(policy, s, key)
    requires forall i :: 0 <= i < |events| ==> Afterwards(s, key, now, events[i])
    ensures SameLoss(s, Run(policy, s, events), key) && OnlyOthers(s, Run(policy, s, events), key)
    decreases |events|
  {
    hide Kept, Step, IssuedTo, TrueDates;
    if events == [] {
    } else {
      var s1 := Step(policy, s, events[0]);
      AfterwardsStep(policy, s, key, now, events[0]);
      StepKeeps(policy, s, events[0]);
      AfterwardsRun(policy, s1, key, now, events[1..]);
      OthersTransitive(s, s1, Run(policy, s, events), key);
    }
  }

  // ---------- never both, and none lost ----------

  /** The origins of what was settled to somebody other than the key, at whatever time */
  ghost function SettledAway(s: Server, key: Key): set<string> {
    set i | 0 <= i < |s.accepted| && s.accepted[i].0.body.receiverPk != key :: s.accepted[i].1.Origin()
  }

  /** Some settlement of the token to somebody else is dated by the cutoff. */
  ghost predicate SettledBy(s: Server, key: Key, id: string, cutoff: int) {
    exists i :: 0 <= i < |s.accepted| && s.accepted[i].0.body.receiverPk != key && s.accepted[i].1.Origin() == id &&
      DatedBy(s, s.accepted[i], cutoff)
  }

  lemma ClaimedMeansSettledBy(policy: PolicyConfig, s: Server, key: Key, now: int, id: string)
    requires Booked(s) && key in s.revoked && now > WindowEnd(policy, s, key)
    ensures id in ClaimedIds(policy, s, key, now) <==>
      id in IdsOf(Own(s, key)) && SettledBy(s, key, id, WindowEnd(policy, s, key))
  {
    ClaimedIdsExactly(policy, s, key, now, id);
    hide IssuedTo, ClaimedIds, EntryBooked;
    forall i: nat
      ensures ClaimedBy(policy, s, key, now, id, i) <==>
        i < |s.accepted| && s.accepted[i].0.body.receiverPk != key && s.accepted[i].1.Origin() == id &&
        DatedBy(s, s.accepted[i], WindowEnd(policy, s, key))
    {
      if i < |s.accepted| {
        BookedTime(s, i);
      }
    }
    hide ClaimedBy, DatedBy;
  }

  /**
   Past the window the report pays out no token that was settled to somebody else exactly when each
   such token has such a settlement dated within the window.
   */
  lemma NoneBothIff(policy: PolicyConfig, s: Server, key: Key, now: int)
    requires Booked(s) && key in s.revoked && now > WindowEnd(policy, s, key)
    ensures (forall t :: t in SafeTokens(policy, s, key, now) ==> t.tokenId !in SettledAway(s, key)) <==>
      (forall t :: t in Own(s, key) && t.tokenId in SettledAway(s, key) ==>
        SettledBy(s, key, t.tokenId, WindowEnd(policy, s, key)))
  {
    var own := Own(s, key);
    var claimed := ClaimedIds(policy, s, key, now);
    forall t
      ensures t in SafeTokens(policy, s, key, now) <==>
        t in own && !SettledBy(s, key, t.tokenId, WindowEnd(policy, s, key))
    {
      WithIdsExactly(own, claimed, false, t);
      IdAmong(own, t);
      ClaimedMeansSettledBy(policy, s, key, now, t.tokenId);
    }
    hide SafeTokens, SettledAway, SettledBy, Own, Booked;
  }

  /** Past the window, with every settlement in time, the safe tokens are those not settled away. */
  lemma SafeIsNotSettled(policy: PolicyConfig, s: Server, key: Key, now: int)
    requires key in s.revoked && InTime(policy, s, key) && now > WindowEnd(policy, s, key)
    ensures SafeTokens(policy, s, key, now) == WithIds(Own(s, key), SettledAway(s, key), false)
  {
    var own := Own(s, key);
    var claimed := ClaimedIds(policy, s, key, now);
    forall t | t in own
      ensures t.tokenId in claimed <==> t.tokenId in SettledAway(s, key)
    {
      IdAmong(own, t);
      if i :| 0 <= i < |s.accepted| && s.accepted[i].0.body.receiverPk != key && s.accepted[i].1.Origin() == t.tokenId {
        assert DatedBy(s, s.accepted[i], WindowEnd(policy, s, key));
      }
    }
    SameSelection(own, claimed, false, SettledAway(s, key), false);
  }

  /** Later settlements of other tokens do not change what of the key's was settled away. */
  lemma SameSettled(s: Server, s': Server, key: Key)
    requires SameLoss(s, s', key) && OnlyOthers(s, s', key)
    ensures WithIds(Own(s', key), SettledAway(s', key), false) == WithIds(Own(s, key), SettledAway(s, key), false)
  {
    var own := Own(s, key);
    hide Own;
    assert forall j :: 0 <= j < |s.accepted| ==> s'.accepted[j] == s.accepted[j];
    forall t | t in own
      ensures t.tokenId in SettledAway(s', key) <==> t.tokenId in SettledAway(s, key)
    {
      IdAmong(own, t);
    }
    SameSelection(own, SettledAway(s', key), false, SettledAway(s, key), false);
  }

  /**
   Never both, and none lost. A key is lost whose tokens were all issued before the second of the
   revocation; after any careful run the wait is over and its money is reissued to a new key; then
   any further run follows. At the end the values reissued are, in order, those of exactly the
   tokens of the lost key that were never settled to somebody else, before or after, and what the
   key was issued is worth the reissued and the settled away together.
   */
  lemma SettledOrReissued(policy: PolicyConfig, s: Server, key: Key, newKey: Key, before: seq<Event>,
                          waitNow: int, reportNow: int, draws: nat -> MintDraw, after: seq<Event>)
    requires Kept(s) && key in s.revoked && IssuedEarly(s, key) && InTime(policy, s, key)
    requires CarefulRun(policy, s, key, before)
    requires var s1 := Run(policy, s, before);
      WaitElapsed(policy, s1.revoked, key, waitNow) && reportNow >= waitNow && (key, newKey) !in s1.reissued &&
      newKey != key && NewIds(s1, key, draws)
    requires var s2 := Reissued(policy, Run(policy, s, before), key, newKey, waitNow, reportNow, draws).0;
      forall i :: 0 <= i < |after| ==> Afterwards(s2, key, waitNow, after[i])
    ensures var (s2, r) := Reissued(policy, Run(policy, s, before), key, newKey, waitNow, reportNow, draws);
      var s3 := Run(policy, s2, after);
      var own := IssuedTo(TokensOf(s3.issued), key);
      own == IssuedTo(TokensOf(s.issued), key) && r.Ok? &&
      ValuesOf(r.value) == ValuesOf(WithIds(own, SettledAway(s3, key), false)) &&
      Sum(ValuesOf(own)) == Sum(ValuesOf(r.value)) + Sum(ValuesOf(WithIds(own, SettledAway(s3, key), true)))
  {
    hide Kept, Run, Reissued, IssuedTo, CarefulRun, NewIds, SettledAway, InTime, IssuedEarly, Afterwards, ClaimedIds;
    CarefulRunInTime(policy, s, key, before);
    var s1 := Run(policy, s, before);
    ReissueStep(policy, s1, key, newKey, waitNow, reportNow, draws);
    var (s2, r) := Reissued(policy, s1, key, newKey, waitNow, reportNow, draws);
    AfterwardsRun(policy, s2, key, waitNow, after);
    var s3 := Run(policy, s2, after);
    SafeIsNotSettled(policy, s1, key, reportNow);
    SameSettled(s1, s2, key);
    SameSettled(s2, s3, key);
    SplitById(Own(s3, key), SettledAway(s3, key));
  }

  lemma {:induction false} MintedValues(issuerKey: Key, issued: Dict<Token>, newKey: Key, safe: seq<Token>,
                                        draws: nat -> MintDraw)
    ensures ValuesOf(MintedFor(issuerKey, issued, newKey, safe, draws).1) == ValuesOf(safe)
  {
    hide MintedToken, Put;
    if safe == [] {
    } else {
      var n := |safe| - 1;
      MintedValues(issuerKey, issued, newKey, safe[..n], draws);
      MintedFields(issuerKey, newKey, safe[n].value, draws(n));
      var t := MintedToken(issuerKey, newKey, safe[n].value, draws(n));
      OneMoreMinted(safe, MintedFor(issuerKey, issued, newKey, safe[..n], draws).1, t);
    }
  }

  /** What a reissue of a pair not served before hands out, whatever ids are drawn */
  lemma ReissueValues(policy: PolicyConfig, s: Server, key: Key, newKey: Key, waitNow: int, reportNow: int,
                      draws: nat -> MintDraw)
    requires WaitElapsed(policy, s.revoked, key, waitNow) && (key, newKey) !in s.reissued
    ensures var (s', r) := Reissued(policy, s, key, newKey, waitNow, reportNow, draws);
      r.Ok? && ValuesOf(r.value) == ValuesOf(SafeTokens(policy, s, key, reportNow)) &&
      s'.reissued == s.reissued + {(key, newKey)} && s'.accepted == s.accepted
  {
    hide SafeTokens, WithIds, IssuedTo, MintedFor, Recovery;
    SafeFromIds(policy, s, key, reportNow);
    MintedValues(s.issuerKey, s.issued, newKey, SafeTokens(policy, s, key, reportNow), draws);
  }

  lemma ReissueStep(policy: PolicyConfig, s: Server, key: Key, newKey: Key, waitNow: int, reportNow: int,
                    draws: nat -> MintDraw)
    requires Kept(s) && key in s.revoked && WaitElapsed(policy, s.revoked, key, waitNow)
    requires (key, newKey) !in s.reissued && newKey != key && NewIds(s, key, draws) && IssuedEarly(s, key)
    ensures var (s', r) := Reissued(policy, s, key, newKey, waitNow, reportNow, draws);
      Kept(s') && SameLoss(s, s', key) && OnlyOthers(s, s', key) && IssuedEarly(s', key) && r.Ok? &&
      ValuesOf(r.value) == ValuesOf(SafeTokens(policy, s, key, reportNow))
  {
    hide Kept, IssuedTo, NewIds, SafeTokens, Reissued;
    var e := Reissue(key, newKey, waitNow, reportNow, draws);
    StepKeeps(policy, s, e);
    OtherEvents(policy, s, key, e);
    ReissueValues(policy, s, key, newKey, waitNow, reportNow, draws);
  }

  // ---------- a token issued in the second of the revocation ----------

  /** Issued at second 10; the key is revoked at 10.2 seconds. */
  function LateToken(): Token {
    MintedToken("issuer", "alice", 5, MintDraw("a", 10, 10 * MICROS))
  }

  function LateServer(): Server {
    Server("issuer", [("a", LateToken())], map[], map[], map[], [], map[], map["alice" := 10_200_000], {})
  }

  /**
   The date of issue matters: at 110.5 seconds the wait of 100 seconds is over, but the token is
   not expired. Bob settles it, and it is reissued all the same: its settlement is dated past the
   window, so it does not count as a claim.
   */
  lemma LateTokenSettledAndReissued(draws: nat -> MintDraw)
    ensures var policy := PolicyConfig(1000, 7, 10000, 100);
      var (s, now) := (LateServer(), 110_500_000);
      var (s', record) := Submitted(policy, s, ToBob(LateToken()), LateToken(), Reading(now, now));
      var r := Reissued(policy, s', "alice", "dave", now, now, draws).1;
      Kept(s) && !IssuedEarly(s, "alice") && WaitElapsed(policy, s.revoked, "alice", now) &&
      record.status == Settled && SettledAway(s', "alice") == {"a"} && r.Ok? && ValuesOf(r.value) == [5]
  {
    var policy := PolicyConfig(1000, 7, 10000, 100);
    var (s, now) := (LateServer(), 110_500_000);
    LateServerKept();
    LateSettles(policy);
    hide LateServer, LateToken, Reissued, ToBob, Kept, SafeTokens, IssuedTo, SettledAway;
    var s' := Submitted(policy, s, ToBob(LateToken()), LateToken(), Reading(now, now)).0;
    LateIsSafe(policy, s');
    ReissueValues(policy, s', "alice", "dave", now, now, draws);
  }

  lemma LateServerKept()
    ensures Kept(LateServer()) && !IssuedEarly(LateServer(), "alice")
  {
    LateServerBooks();
    LateServerOwn();
    hide Kept, Own;
    assert Own(LateServer(), "alice")[0] == LateToken();
  }

  lemma LateServerBooks()
    ensures Kept(LateServer())
  {
  }

  lemma LateServerOwn()
    ensures Own(LateServer(), "alice") == [LateToken()]
  {
    OwnTokenLast([], LateToken(), "alice");
    hide MintedToken;
    assert TokensOf(LateServer().issued) == [] + [LateToken()];
    assert IssuedTo([], "alice") == [];
  }

  lemma LateSettles(policy: PolicyConfig)
    requires policy == PolicyConfig(1000, 7, 10000, 100)
    ensures var (s, now) := (LateServer(), 110_500_000);
      var (s', record) := Submitted(policy, s, ToBob(LateToken()), LateToken(), Reading(now, now));
      record.status == Settled && s'.issued == s.issued && s'.revoked == s.revoked && s'.reissued == {} &&
      s'.times == map["x" := now] && s'.accepted == [(ToBob(LateToken()), LateToken())] &&
      s.revoked == map["alice" := 10_200_000] && SettledAway(s', "alice") == {"a"}
  {
    LateServerKept();
    HasAt(LateServer().issued, 0);
    RootVerifiedIff(LateServer(), LateToken());
    assert !LateToken().IssueExpired(policy, 110_500_000);
    hide RootVerified, Kept, IssuedEarly;
    assert Assess(policy, LateServer(), ToBob(LateToken()), LateToken(), 110_500_000) == Fine;
    var s' := Submitted(policy, LateServer(), ToBob(LateToken()), LateToken(), Reading(110_500_000, 110_500_000)).0;
    assert s'.accepted[0].1.Origin() == "a" && s'.accepted[0].0.body.receiverPk == "bob";
  }

  lemma LateIsSafe(policy: PolicyConfig, s: Server)
    requires policy == PolicyConfig(1000, 7, 10000, 100) && s.issued == LateServer().issued
    requires s.accepted == [(ToBob(LateToken()), LateToken())] && s.times == map["x" := 110_500_000]
    requires s.revoked == map["alice" := 10_200_000]
    ensures ValuesOf(SafeTokens(policy, s, "alice", 110_500_000)) == [5]
  {
    OwnTokenLast([], LateToken(), "alice");
    assert TokensOf(s.issued) == [] + [LateToken()];
    hide IssuedTo;
    var claimed := ClaimedIds(policy, s, "alice", 110_500_000);
    assert "a" !in claimed;
    assert WithIds([LateToken()], claimed, false) == WithIds([], claimed, false) + [LateToken()];
  }

  // ---------- what reissues cost ----------

  /** Past the wait, a reissue mints nothing exactly when the pair was served or nothing is safe. */
  lemma ReissueMintsNothingIff(policy: PolicyConfig, s: Server, key: Key, newKey: Key, waitNow: int, reportNow: int,
                               draws: nat -> MintDraw)
    requires WaitElapsed(policy, s.revoked, key, waitNow)
    ensures Reissued(policy, s, key, newKey, waitNow, reportNow, draws).1 == Ok([]) <==>
      (key, newKey) in s.reissued || SafeTokens(policy, s, key, reportNow) == []
  {
    if (key, newKey) !in s.reissued {
      ReissueValues(policy, s, key, newKey, waitNow, reportNow, draws);
      hide SafeTokens, Reissued;
      var minted := Reissued(policy, s, key, newKey, waitNow, reportNow, draws).1.value;
      assert |minted| == |ValuesOf(minted)| == |SafeTokens(policy, s, key, reportNow)|;
    }
  }

  /** The new keys the lost key's money was reissued to */
  ghost function Served(s: Server, key: Key): set<Key> {
    set pair | pair in s.reissued && pair.0 == key :: pair.1
  }

  /** What one event reissues for the lost key */
  ghost function ReissuedBy(policy: PolicyConfig, s: Server, key: Key, e: Event): int {
    match e
    case Reissue(oldKey, newKey, waitNow, reportNow, draws) =>
      var r := Reissued(policy, s, oldKey, newKey, waitNow, reportNow, draws).1;
      if oldKey == key && r.Ok? then Sum(ValuesOf(r.value)) else 0
    case _ => 0
  }

  /** What a run reissues for the lost key, whoever asks */
  ghost function ReissuedTotal(policy: PolicyConfig, s: Server, key: Key, events: seq<Event>): int
    decreases |events|
  {
    if events == [] then 0 else
      var n := |events| - 1;
      ReissuedTotal(policy, s, key, events[..n]) + ReissuedBy(policy, Run(policy, s, events[..n]), key, events[n])
  }

  lemma {:induction false} RunLast(policy: PolicyConfig, s: Server, events: seq<Event>)
    requires events != []
    ensures var n := |events| - 1;
      Run(policy, s, events) == Step(policy, Run(policy, s, events[..n]), events[n])
    decreases |events|
  {
    hide Step;
    var n := |events| - 1;
    if n == 0 {
    } else {
      RunLast(policy, Step(policy, s, events[0]), events[1..]);
      assert events[1..][..n - 1] == events[..n][1..];
    }
  }

  lemma OthersServeNobody(policy: PolicyConfig, s: Server, key: Key, e: Event)
    requires !e.Reissue? || e.oldKey != key
    ensures Served(Step(policy, s, e), key) == Served(s, key)
  {
    hide Processed, Recovery, WithIds, MintedFor, Put;
    if e.Settle? {
      ProcessedKeepsIssued(policy, s, e.bundle, |e.bundle.transfers|, e.clock);
    }
  }

  /** One event costs the safe balance if it serves the lost key's money to a new key, else nothing. */
  lemma ReissuedByEffect(policy: PolicyConfig, s: Server, key: Key, balance: int, e: Event)
    requires key in s.revoked && forall later :: later >= WindowEnd(policy, s, key) ==>
      Recovery(policy, s, key, later).safeBalance == balance
    requires e.Reissue? && e.oldKey == key ==> e.reportNow >= e.waitNow
    ensures var served := Served(Step(policy, s, e), key);
      Served(s, key) <= served && ReissuedBy(policy, s, key, e) == balance * |served - Served(s, key)|
  {
    hide SafeTokens, IssuedTo, MintedFor, WithIds, Processed, Put;
    var served := Served(Step(policy, s, e), key);
    if e.Reissue? && e.oldKey == key {
      if WaitElapsed(policy, s.revoked, key, e.waitNow) && (key, e.newKey) !in s.reissued {
        ReissueValues(policy, s, key, e.newKey, e.waitNow, e.reportNow, e.draws);
        assert served == Served(s, key) + {e.newKey};
        assert e.newKey !in Served(s, key);
        assert served - Served(s, key) == {e.newKey};
        assert Recovery(policy, s, key, e.reportNow).safeBalance == balance;
      } else {
        assert served - Served(s, key) == {};
      }
    } else {
      OthersServeNobody(policy, s, key, e);
      assert served - Served(s, key) == {};
    }
  }

  /**
   After the window, any quiet run reissues the safe balance of a lost key once for every new key
   it serves: in all, the safe balance times the number of new keys.
   */
  lemma {:induction false} ReissueTotal(policy: PolicyConfig, s: Server, events: seq<Event>, key: Key, now: int)
    requires Kept(s) && key in s.revoked && now >= WindowEnd(policy, s, key)
    requires forall i :: 0 <= i < |events| ==>
      Quiet(s, key, WindowEnd(policy, s, key), events[i]) && UniqueTransferIds(s, events[i])
    requires forall i :: 0 <= i < |events| && events[i].Reissue? && events[i].oldKey == key ==>
      events[i].reportNow >= events[i].waitNow
    ensures var served := Served(Run(policy, s, events), key);
      Served(s, key) <= served &&
      ReissuedTotal(policy, s, key, events) == Recovery(policy, s, key, now).safeBalance * |served - Served(s, key)|
    decreases |events|
  {
    hide Kept, Step, Quiet, UniqueTransferIds, Recovery, ReissuedBy, Served, Run;
    if events == [] {
      NothingServed(policy, s, key);
    } else {
      var n := |events| - 1;
      ReissueTotal(policy, s, events[..n], key, now);
      var s1 := Run(policy, s, events[..n]);
      RunLast(policy, s, events);
      StillLost(policy, s, events[..n], key, now);
      var balance := Recovery(policy, s, key, now).safeBalance;
      ReissuedByEffect(policy, s1, key, balance, events[n]);
      CountServed(Served(s, key), Served(s1, key), Served(Run(policy, s, events), key), balance);
    }
  }

  lemma NothingServed(policy: PolicyConfig, s: Server, key: Key)
    ensures Run(policy, s, []) == s && |Served(s, key) - Served(s, key)| == 0
  {
  }

  /** After any quiet run the key is still revoked as it was, and the report still the same. */
  lemma StillLost(policy: PolicyConfig, s: Server, events: seq<Event>, key: Key, now: int)
    requires Kept(s) && key in s.revoked && now >= WindowEnd(policy, s, key)
    requires forall i :: 0 <= i < |events| ==>
      Quiet(s, key, WindowEnd(policy, s, key), events[i]) && UniqueTransferIds(s, events[i])
    ensures var s1 := Run(policy, s, events);
      key in s1.revoked && forall later :: later >= WindowEnd(policy, s1, key) ==>
        Recovery(policy, s1, key, later).safeBalance == Recovery(policy, s, key, now).safeBalance
  {
    hide Kept, Run, Quiet, UniqueTransferIds, Recovery;
    RunIsLater(policy, s, events, key, WindowEnd(policy, s, key));
    var s1 := Run(policy, s, events);
    forall later | later >= WindowEnd(policy, s1, key)
      ensures Recovery(policy, s1, key, later).safeBalance == Recovery(policy, s, key, now).safeBalance
    {
      RecoveryIsStable(policy, s, events, key, now, later);
    }
  }

  lemma CountServed(a: set<Key>, b: set<Key>, c: set<Key>, balance: int)
    requires a <= b <= c
    ensures balance * |b - a| + balance * |c - b| == balance * |c - a|
  {
    assert c - a == (b - a) + (c - b);
    assert |c - a| == |b - a| + |c - b|;
  }
}
