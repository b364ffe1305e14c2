/** Replacing the money of a lost wallet: the accounts add up, the report is stable, and reissue mints it once. */
module LostWallets {
  import opened Basics
  import opened Dicts
  import opened PocModels
  import opened RecoveryServer
  import opened RecoveryRuns

  // ---------- accounting ----------

  /** The tokens inside a set of ids and those outside it make up all of them. */
  ghost predicate Splits(tokens: seq<Token>, ids: set<string>) {
    var (inside, outside) := (WithIds(tokens, ids, true), WithIds(tokens, ids, false));
    Sum(ValuesOf(tokens)) == Sum(ValuesOf(inside)) + Sum(ValuesOf(outside)) &&
    multiset(tokens) == multiset(inside) + multiset(outside)
  }

  lemma {:induction false} SplitById(tokens: seq<Token>, ids: set<string>)
    ensures Splits(tokens, ids)
  {
    if tokens == [] {
    } else {
      hide Splits;
      var n := |tokens| - 1;
      SplitById(tokens[..n], ids);
      assert tokens == tokens[..n] + [tokens[n]];
      SplitLast(tokens[..n], tokens[n], ids);
    }
  }

  lemma SplitLast(tokens: seq<Token>, t: Token, ids: set<string>)
    requires Splits(tokens, ids)
    ensures Splits(tokens + [t], ids)
  {
    hide WithIds, ValuesOf, Sum;
    TotalWith(tokens, t);
    WithIdsLast(tokens, t, ids);
    TotalWith(WithIds(tokens, ids, t.tokenId in ids), t);
  }

  /** One more token goes to its own side only. */
  lemma WithIdsLast(tokens: seq<Token>, t: Token, ids: set<string>)
    ensures var here := t.tokenId in ids;
      WithIds(tokens + [t], ids, here) == WithIds(tokens, ids, here) + [t] &&
      WithIds(tokens + [t], ids, !here) == WithIds(tokens, ids, !here)
  {
    assert (tokens + [t])[..|tokens|] == tokens;
  }

  lemma TotalWith(tokens: seq<Token>, t: Token)
    ensures Sum(ValuesOf(tokens + [t])) == Sum(ValuesOf(tokens)) + t.value
  {
    assert ValuesOf(tokens + [t]) == ValuesOf(tokens) + [t.value];
    SumConcat(ValuesOf(tokens), [t.value]);
  }

  /** Keeping ids inside or outside a set: exactly those tokens remain. */
  lemma {:induction false} WithIdsExactly(tokens: seq<Token>, ids: set<string>, inside: bool, t: Token)
    ensures t in WithIds(tokens, ids, inside) <==> t in tokens && (t.tokenId in ids) == inside
  {
    if tokens == [] {
    } else {
      var n := |tokens| - 1;
      WithIdsExactly(tokens[..n], ids, inside, t);
      assert tokens == tokens[..n] + [tokens[n]];
    }
  }

  lemma {:induction false} IssuedToExactly(tokens: seq<Token>, key: Key, t: Token)
    ensures t in IssuedTo(tokens, key) <==> t in tokens && t.currentOwner == key
  {
    if tokens == [] {
    } else {
      var n := |tokens| - 1;
      IssuedToExactly(tokens[..n], key, t);
      assert tokens == tokens[..n] + [tokens[n]];
    }
  }

  /** An accepted settlement of the token to somebody else, by the cutoff */
  ghost predicate ClaimedBy(policy: PolicyConfig, s: Server, key: Key, now: int, id: string, i: nat) {
    i < |s.accepted| && s.accepted[i].1.Origin() == id &&
    Claims(s, key, s.accepted[i], now, Cutoff(policy, s, key, now))
  }

  /**
   Accepted transfer i settled a token of the given origin to another key, no later than the report
   and, for a revoked key, than the expiry period after the revocation. A transfer without a recorded
   time counts as settled now.
   */
  ghost predicate SettledByThen(policy: PolicyConfig, s: Server, key: Key, now: int, id: string, i: nat) {
    i < |s.accepted| &&
    var (transfer, t) := s.accepted[i];
    var at := if transfer.body.transferId in s.times then s.times[transfer.body.transferId] else now;
    t.Origin() == id && transfer.body.receiverPk != key && at <= now &&
    (key in s.revoked ==> at <= s.revoked[key] + policy.tokenExpirySeconds * 1_000_000)
  }

  lemma ClaimedIdsExactly(policy: PolicyConfig, s: Server, key: Key, now: int, id: string)
    ensures id in ClaimedIds(policy, s, key, now) <==>
      id in IdsOf(IssuedTo(TokensOf(s.issued), key)) && exists i: nat :: ClaimedBy(policy, s, key, now, id, i)
  {
    hide IssuedTo, Claims, Cutoff;
    if id in ClaimedIds(policy, s, key, now) {
      var i: nat :| i < |s.accepted| && s.accepted[i].1.Origin() == id &&
        Claims(s, key, s.accepted[i], now, Cutoff(policy, s, key, now));
      assert ClaimedBy(policy, s, key, now, id, i);
    }
  }

  lemma BookedTime(s: Server, i: nat)
    requires Booked(s) && i < |s.accepted|
    ensures s.accepted[i].0.body.transferId in s.times
  {
    assert EntryBooked(s, s.accepted[i]);
  }

  lemma IdAmong(tokens: seq<Token>, t: Token)
    ensures t in tokens ==> t.tokenId in IdsOf(tokens)
  {
    if t in tokens {
      var k :| 0 <= k < |tokens| && tokens[k] == t;
      assert IdsOf(tokens)[k] == t.tokenId;
    }
  }

  /** At any time, before the window closes or after: which issued ids of a key the report counts as claimed */
  lemma ClaimedIdIff(policy: PolicyConfig, s: Server, key: Key, now: int, id: string)
    ensures id in ClaimedIds(policy, s, key, now) <==>
      (exists k :: 0 <= k < |s.issued| && s.issued[k].1.tokenId == id && s.issued[k].1.currentOwner == key) &&
      exists i: nat :: SettledByThen(policy, s, key, now, id, i)
  {
    ClaimedIdsExactly(policy, s, key, now, id);
    forall i: nat
      ensures ClaimedBy(policy, s, key, now, id, i) <==> SettledByThen(policy, s, key, now, id, i)
    {
      SettledByThenIff(policy, s, key, now, id, i);
    }
    hide ClaimedBy, SettledByThen, IssuedTo, ClaimedIds;
    var issued := IssuedTo(TokensOf(s.issued), key);
    if k :| 0 <= k < |issued| && IdsOf(issued)[k] == id {
      IssuedToExactly(TokensOf(s.issued), key, issued[k]);
      var j :| 0 <= j < |s.issued| && TokensOf(s.issued)[j] == issued[k];
      assert s.issued[j].1.tokenId == id && s.issued[j].1.currentOwner == key;
    }
    if j :| 0 <= j < |s.issued| && s.issued[j].1.tokenId == id && s.issued[j].1.currentOwner == key {
      assert TokensOf(s.issued)[j] == s.issued[j].1;
      IssuedToExactly(TokensOf(s.issued), key, s.issued[j].1);
      IdAmong(issued, s.issued[j].1);
    }
  }

  lemma SettledByThenIff(policy: PolicyConfig, s: Server, key: Key, now: int, id: string, i: nat)
    ensures ClaimedBy(policy, s, key, now, id, i) <==> SettledByThen(policy, s, key, now, id, i)
  {
  }

  /** A later report on the same books counts no fewer claims. */
  lemma ClaimsOnlyGrow(policy: PolicyConfig, s: Server, key: Key, now: int, later: int)
    requires Booked(s) && now <= later
    ensures ClaimedIds(policy, s, key, now) <= ClaimedIds(policy, s, key, later)
  {
    forall id | id in ClaimedIds(policy, s, key, now)
      ensures id in ClaimedIds(policy, s, key, later)
    {
      ClaimedIdIff(policy, s, key, now, id);
      ClaimedIdIff(policy, s, key, later, id);
      var i: nat :| SettledByThen(policy, s, key, now, id, i);
      BookedTime(s, i);
      assert SettledByThen(policy, s, key, later, id, i);
    }
  }

  /**
   The report accounts for every issued token: the total splits into claimed and safe, the claimed
   part is worth exactly the issued tokens that were settled to another key in time, and the safe ids
   are the others.
   */
  lemma RecoveryAccounting(policy: PolicyConfig, s: Server, key: Key, now: int)
    ensures var issued := IssuedTo(TokensOf(s.issued), key);
      var claimed := WithIds(issued, ClaimedIds(policy, s, key, now), true);
      var safe := SafeTokens(policy, s, key, now);
      var report := Recovery(policy, s, key, now);
      report.issuedTotal == report.claimedTotal + report.safeBalance &&
      report.claimedTotal == Sum(ValuesOf(claimed)) && report.safeBalance == Sum(ValuesOf(safe)) &&
      report.safeTokenIds == IdsOf(safe) && multiset(issued) == multiset(claimed) + multiset(safe)
    ensures forall t :: t in SafeTokens(policy, s, key, now) <==>
      t in TokensOf(s.issued) && t.currentOwner == key &&
      !exists i: nat :: SettledByThen(policy, s, key, now, t.tokenId, i)
  {
    var issued := IssuedTo(TokensOf(s.issued), key);
    var ids := ClaimedIds(policy, s, key, now);
    SplitById(issued, ids);
    forall t
      ensures t in SafeTokens(policy, s, key, now) <==>
        t in TokensOf(s.issued) && t.currentOwner == key &&
        !exists i: nat :: SettledByThen(policy, s, key, now, t.tokenId, i)
    {
      hide ClaimedBy, SettledByThen, IssuedTo, WithIds, ClaimedIds;
      IssuedToExactly(TokensOf(s.issued), key, t);
      WithIdsExactly(issued, ids, false, t);
      if t in issued {
        IdAmong(issued, t);
        ClaimedIdsExactly(policy, s, key, now, t.tokenId);
        forall i: nat
          ensures ClaimedBy(policy, s, key, now, t.tokenId, i) <==> SettledByThen(policy, s, key, now, t.tokenId, i)
        {
          SettledByThenIff(policy, s, key, now, t.tokenId, i);
        }
      }
    }
  }

  // ---------- stability ----------

  /** The end of the recovery window of a revoked key */
  function WindowEnd(policy: PolicyConfig, s: Server, key: Key): int
    requires key in s.revoked
  {
    s.revoked[key] + policy.tokenExpirySeconds * MICROS
  }

  ghost predicate SettledAgain(s: Server, s': Server, transferId: string) {
    exists j :: |s.accepted| <= j < |s'.accepted| && s'.accepted[j].0.body.transferId == transferId
  }

  ghost predicate EnteredAfter(s: Server, entry: (Transfer, Token), cutoff: int) {
    entry.0.body.transferId in s.times && s.times[entry.0.body.transferId] > cutoff
  }

  /**
   s' comes after s: the key's issued tokens and revocation stand, and every new settlement is
   dated after the cutoff.
   */
  ghost predicate Later(s: Server, s': Server, key: Key, cutoff: int) {
    IssuedTo(TokensOf(s'.issued), key) == IssuedTo(TokensOf(s.issued), key) &&
    key in s.revoked && key in s'.revoked && s'.revoked[key] == s.revoked[key] &&
    |s.accepted| <= |s'.accepted| && s'.accepted[..|s.accepted|] == s.accepted &&
    (forall j :: |s.accepted| <= j < |s'.accepted| ==> EnteredAfter(s', s'.accepted[j], cutoff)) &&
    (forall id :: id in s.times ==> SettledAgain(s, s', id) || (id in s'.times && s'.times[id] == s.times[id]))
  }

  /** A claim on the issued token that counted at the end of the window and whose transfer id was not settled again. */
  ghost predicate Standing(policy: PolicyConfig, s: Server, s': Server, key: Key, id: string)
    requires key in s.revoked
  {
    exists i: nat ::
      ClaimedBy(policy, s, key, WindowEnd(policy, s, key), id, i) &&
      !SettledAgain(s, s', s.accepted[i].0.body.transferId)
  }

  lemma ClaimedLater(policy: PolicyConfig, s: Server, s': Server, key: Key, now: int, id: string)
    requires key in s.revoked && Booked(s) && Later(s, s', key, WindowEnd(policy, s, key)) &&
      now >= WindowEnd(policy, s, key)
    ensures (exists i: nat :: ClaimedBy(policy, s', key, now, id, i)) <==> Standing(policy, s, s', key, id)
  {
    hide IssuedTo, EntryBooked;
    var cutoff := WindowEnd(policy, s, key);
    if i: nat :| ClaimedBy(policy, s', key, now, id, i) {
      assert i < |s.accepted| by {
        assert EnteredAfter(s', s'.accepted[i], cutoff) || i < |s.accepted|;
      }
      assert s'.accepted[i] == s.accepted[i];
      BookedTime(s, i);
      forall j | |s.accepted| <= j < |s'.accepted|
        ensures s'.accepted[j].0.body.transferId != s.accepted[i].0.body.transferId
      {
        assert EnteredAfter(s', s'.accepted[j], cutoff);
      }
      assert ClaimedBy(policy, s, key, cutoff, id, i);
    }
    if Standing(policy, s, s', key, id) {
      var i: nat :| ClaimedBy(policy, s, key, cutoff, id, i) && !SettledAgain(s, s', s.accepted[i].0.body.transferId);
      BookedTime(s, i);
      assert s'.accepted[i] == s.accepted[i];
      assert ClaimedBy(policy, s', key, now, id, i);
    }
  }

  /**
   After the window of a lost key has closed, later settlements can only release claims, never add
   one; the report stays the same exactly when every claim has a settlement whose transfer id was
   not settled again.
   */
  lemma ReportStableIff(policy: PolicyConfig, s: Server, s': Server, key: Key, now: int, now': int)
    requires key in s.revoked && Booked(s) && Later(s, s', key, WindowEnd(policy, s, key))
    requires now >= WindowEnd(policy, s, key) && now' >= WindowEnd(policy, s, key)
    ensures ClaimedIds(policy, s', key, now') <= ClaimedIds(policy, s, key, now)
    ensures Recovery(policy, s', key, now') == Recovery(policy, s, key, now) <==>
      forall id :: id in ClaimedIds(policy, s, key, now) ==> Standing(policy, s, s', key, id)
  {
    var issued := IssuedTo(TokensOf(s.issued), key);
    var before := ClaimedIds(policy, s, key, now);
    var after := ClaimedIds(policy, s', key, now');
    var cutoff := WindowEnd(policy, s, key);
    forall id
      ensures id in after <==> id in IdsOf(issued) && Standing(policy, s, s', key, id)
      ensures id in before <==> id in IdsOf(issued) && exists i: nat :: ClaimedBy(policy, s, key, cutoff, id, i)
    {
      ClaimedIdsExactly(policy, s, key, now, id);
      ClaimedIdsExactly(policy, s', key, now', id);
      ClaimedLater(policy, s, s', key, now', id);
      SameClaims(policy, s, key, now, id);
    }
    hide ClaimedIds, IssuedTo, ClaimedBy, Booked, Standing;
    assert after <= before by {
      StandingIsClaimed(policy, s, s', key);
    }
    if Recovery(policy, s', key, now') == Recovery(policy, s, key, now) {
      assert IdsOf(WithIds(issued, after, false)) == IdsOf(WithIds(issued, before, false));
      SafeIdsFixClaims(issued, before, after);
    } else {
      assert before != after;
    }
  }

  /** All counted claims on the id were settled under the given transfer id. */
  ghost predicate OnlyUnder(policy: PolicyConfig, s: Server, key: Key, now: int, id: string, transferId: string) {
    forall i: nat :: ClaimedBy(policy, s, key, now, id, i) ==> s.accepted[i].0.body.transferId == transferId
  }

  /**
   One more transfer after the window, judged before it is submitted: it changes the report exactly
   when it would be settled and some claimed token has all its claims under this transfer's id.
   */
  lemma SettlementChangesReportIff(policy: PolicyConfig, s: Server, key: Key, transfer: Transfer, t: Token,
                                   reading: Reading, now: int, now': int)
    requires key in s.revoked && Booked(s) && reading.settledAt > WindowEnd(policy, s, key)
    requires now >= WindowEnd(policy, s, key) && now' >= WindowEnd(policy, s, key)
    ensures var s' := Submitted(policy, s, transfer, t, reading).0;
      Recovery(policy, s', key, now') != Recovery(policy, s, key, now) <==>
        Assess(policy, s, transfer, t, reading.checkedAt).Fine? &&
        exists id :: id in ClaimedIds(policy, s, key, now) &&
          OnlyUnder(policy, s, key, now, id, transfer.body.transferId)
  {
    var s' := Submitted(policy, s, transfer, t, reading).0;
    SubmittedIsLater(policy, s, transfer, t, reading, key, WindowEnd(policy, s, key));
    ReportStableIff(policy, s, s', key, now, now');
    SettledAgainIff(policy, s, transfer, t, reading);
    hide Recovery, ClaimedIds, Booked, Later, Submitted, Assess, SettledAgain;
    forall id | id in ClaimedIds(policy, s, key, now)
      ensures Standing(policy, s, s', key, id) <==>
        !(Assess(policy, s, transfer, t, reading.checkedAt).Fine? &&
          OnlyUnder(policy, s, key, now, id, transfer.body.transferId))
    {
      ClaimedIdsExactly(policy, s, key, now, id);
      var settled := Assess(policy, s, transfer, t, reading.checkedAt).Fine?;
      StandingIff(policy, s, s', key, now, id, transfer.body.transferId, settled);
    }
  }

  /** What a submission settles again: its own transfer id, if it is settled. */
  lemma SettledAgainIff(policy: PolicyConfig, s: Server, transfer: Transfer, t: Token, reading: Reading)
    ensures forall id: string :: SettledAgain(s, Submitted(policy, s, transfer, t, reading).0, id) <==>
      Assess(policy, s, transfer, t, reading.checkedAt).Fine? && id == transfer.body.transferId
  {
    hide Assess;
    var s' := Submitted(policy, s, transfer, t, reading).0;
    if Assess(policy, s, transfer, t, reading.checkedAt).Fine? {
      assert s'.accepted[|s.accepted|] == (transfer, t);
    }
  }

  lemma StandingIff(policy: PolicyConfig, s: Server, s': Server, key: Key, now: int, id: string,
                    transferId: string, settled: bool)
    requires key in s.revoked && Booked(s) && now >= WindowEnd(policy, s, key)
    requires forall other: string :: SettledAgain(s, s', other) <==> settled && other == transferId
    requires exists i: nat :: ClaimedBy(policy, s, key, now, id, i)
    ensures Standing(policy, s, s', key, id) <==> !(settled && OnlyUnder(policy, s, key, now, id, transferId))
  {
    hide SettledAgain, Booked, ClaimedBy;
    forall i: nat
      ensures ClaimedBy(policy, s, key, now, id, i) <==> ClaimedBy(policy, s, key, WindowEnd(policy, s, key), id, i)
      ensures ClaimedBy(policy, s, key, now, id, i) ==> i < |s.accepted|
    {
      SameClaim(policy, s, key, now, id, i);
    }
    if !(settled && OnlyUnder(policy, s, key, now, id, transferId)) {
      var i: nat :| ClaimedBy(policy, s, key, now, id, i) &&
        !(settled && s.accepted[i].0.body.transferId == transferId);
      assert ClaimedBy(policy, s, key, WindowEnd(policy, s, key), id, i);
      assert !SettledAgain(s, s', s.accepted[i].0.body.transferId);
    }
  }

  lemma SameClaim(policy: PolicyConfig, s: Server, key: Key, now: int, id: string, i: nat)
    requires key in s.revoked && Booked(s) && now >= WindowEnd(policy, s, key)
    ensures ClaimedBy(policy, s, key, now, id, i) <==> ClaimedBy(policy, s, key, WindowEnd(policy, s, key), id, i)
    ensures ClaimedBy(policy, s, key, now, id, i) ==> i < |s.accepted|
  {
    hide Booked;
    if i < |s.accepted| {
      BookedTime(s, i);
    }
  }

  lemma StandingIsClaimed(policy: PolicyConfig, s: Server, s': Server, key: Key)
    requires key in s.revoked
    ensures forall id :: Standing(policy, s, s', key, id) ==>
      exists i: nat :: ClaimedBy(policy, s, key, WindowEnd(policy, s, key), id, i)
  {
  }

  /** Every report made after the window counts the same claims. */
  lemma SameClaims(policy: PolicyConfig, s: Server, key: Key, now: int, id: string)
    requires key in s.revoked && Booked(s) && now >= WindowEnd(policy, s, key)
    ensures (exists i: nat :: ClaimedBy(policy, s, key, now, id, i)) <==>
      exists i: nat :: ClaimedBy(policy, s, key, WindowEnd(policy, s, key), id, i)
  {
    forall i: nat
      ensures ClaimedBy(policy, s, key, now, id, i) <==> ClaimedBy(policy, s, key, WindowEnd(policy, s, key), id, i)
    {
      SameClaim(policy, s, key, now, id, i);
    }
    hide ClaimedBy;
  }

  /** The safe ids determine which issued ids are claimed. */
  lemma SafeIdsFixClaims(issued: seq<Token>, before: set<string>, after: set<string>)
    requires after <= before && forall id :: id in before ==> id in IdsOf(issued)
    requires IdsOf(WithIds(issued, after, false)) == IdsOf(WithIds(issued, before, false))
    ensures before == after
  {
    forall id | id in before
      ensures id in after
    {
      var k :| 0 <= k < |issued| && IdsOf(issued)[k] == id;
      if id !in after {
        WithIdsExactly(issued, after, false, issued[k]);
        var safe' := WithIds(issued, after, false);
        var m :| 0 <= m < |safe'| && safe'[m] == issued[k];
        var safe := WithIds(issued, before, false);
        assert IdsOf(safe)[m] == IdsOf(safe')[m] == id;
        WithIdsExactly(issued, before, false, safe[m]);
        assert false;
      }
    }
  }

  // ---------- quiet runs ----------

  /** New ids are none of the key's issued tokens. */
  ghost predicate NewIds(s: Server, key: Key, draws: nat -> MintDraw) {
    forall n: nat :: draws(n).tokenId !in IdsOf(IssuedTo(TokensOf(s.issued), key))
  }

  /** The event settles after the cutoff, does not revoke the key again, and mints nothing to it. */
  ghost predicate Quiet(s: Server, key: Key, cutoff: int, e: Event) {
    match e
    case Settle(bundle, clock) => forall n: nat :: clock(n).settledAt > cutoff
    case Mint(owner, value, draw) => owner != key && draw.tokenId !in IdsOf(IssuedTo(TokensOf(s.issued), key))
    case Revoke(lost, now) => lost != key
    case Reissue(oldKey, newKey, waitNow, reportNow, draws) => newKey != key && NewIds(s, key, draws)
  }

  lemma LaterItself(s: Server, key: Key, cutoff: int)
    requires key in s.revoked
    ensures Later(s, s, key, cutoff)
  {
  }

  lemma LaterTransitive(s: Server, s1: Server, s2: Server, key: Key, cutoff: int)
    requires Later(s, s1, key, cutoff) && Later(s1, s2, key, cutoff)
    ensures Later(s, s2, key, cutoff)
  {
    hide IssuedTo;
    assert s2.accepted[..|s.accepted|] == s2.accepted[..|s1.accepted|][..|s.accepted|];
    assert forall j :: 0 <= j < |s1.accepted| ==> s2.accepted[j] == s1.accepted[j];
    forall j | |s.accepted| <= j < |s2.accepted|
      ensures EnteredAfter(s2, s2.accepted[j], cutoff)
    {
      if j < |s1.accepted| {
        assert EnteredAfter(s1, s1.accepted[j], cutoff);
        StillAfter(s1, s2, key, cutoff, s1.accepted[j]);
      }
    }
    forall id | id in s.times
      ensures SettledAgain(s, s2, id) || (id in s2.times && s2.times[id] == s.times[id])
    {
      if j :| |s.accepted| <= j < |s1.accepted| && s1.accepted[j].0.body.transferId == id {
        assert s2.accepted[j].0.body.transferId == id;
      } else if j :| |s1.accepted| <= j < |s2.accepted| && s2.accepted[j].0.body.transferId == id {
        assert s2.accepted[j].0.body.transferId == id;
      } else {
        assert !SettledAgain(s, s1, id) && !SettledAgain(s1, s2, id);
      }
    }
  }

  lemma StillAfter(s1: Server, s2: Server, key: Key, cutoff: int, entry: (Transfer, Token))
    requires Later(s1, s2, key, cutoff) && EnteredAfter(s1, entry, cutoff)
    ensures EnteredAfter(s2, entry, cutoff)
  {
    hide IssuedTo;
    var id := entry.0.body.transferId;
    if j :| |s1.accepted| <= j < |s2.accepted| && s2.accepted[j].0.body.transferId == id {
      assert EnteredAfter(s2, s2.accepted[j], cutoff);
    }
  }

  lemma SubmittedIsLater(policy: PolicyConfig, s: Server, transfer: Transfer, t: Token, reading: Reading, key: Key,
                         cutoff: int)
    requires key in s.revoked && reading.settledAt > cutoff
    ensures Later(s, Submitted(policy, s, transfer, t, reading).0, key, cutoff)
  {
    hide IssuedTo, Assess;
    var s' := Submitted(policy, s, transfer, t, reading).0;
    if s' != s {
      assert s'.accepted[|s.accepted|] == (transfer, t);
    }
  }

  lemma {:induction false} ProcessedIsLater(policy: PolicyConfig, s: Server, bundle: PaymentBundle, n: nat,
                                            clock: nat -> Reading, key: Key, cutoff: int)
    requires n <= |bundle.transfers| && key in s.revoked && forall i: nat :: clock(i).settledAt > cutoff
    ensures Later(s, Processed(policy, s, bundle, n, clock).0, key, cutoff)
  {
    LaterItself(s, key, cutoff);
    if n == 0 {
    } else {
      ProcessedIsLater(policy, s, bundle, n - 1, clock, key, cutoff);
      var before := Processed(policy, s, bundle, n - 1, clock).0;
      assert key in before.revoked;
      hide Later, Submitted;
      var transfer := bundle.transfers[n - 1];
      if transfer.body.tokenId in bundle.tokens {
        var t := bundle.tokens[transfer.body.tokenId];
        SubmittedIsLater(policy, before, transfer, t, clock(n - 1), key, cutoff);
        LaterTransitive(s, before, Submitted(policy, before, transfer, t, clock(n - 1)).0, key, cutoff);
      }
    }
  }

  // ---------- minting to others ----------

  lemma {:induction false} IssuedToReplaced(tokens: seq<Token>, i: nat, t: Token, key: Key)
    requires i < |tokens| && tokens[i].currentOwner != key && t.currentOwner != key
    ensures IssuedTo(tokens[i := t], key) == IssuedTo(tokens, key)
  {
    var n := |tokens| - 1;
    if i < n {
      IssuedToReplaced(tokens[..n], i, t, key);
      assert tokens[i := t][..n] == tokens[..n][i := t];
    } else {
      assert tokens[i := t][..n] == tokens[..n];
    }
  }

  /** A token for somebody else, with an id that is none of the key's, does not touch the key's issued tokens. */
  lemma MintingToOthers(issued: Dict<Token>, t: Token, key: Key)
    requires KeyedById(issued) && t.currentOwner != key && t.tokenId !in IdsOf(IssuedTo(TokensOf(issued), key))
    ensures IssuedTo(TokensOf(Put(issued, t.tokenId, t)), key) == IssuedTo(TokensOf(issued), key)
  {
    var tokens := TokensOf(issued);
    var i := IndexOf(issued, t.tokenId);
    if i < |issued| {
      assert issued[i].1 == tokens[i];
      IssuedToExactly(tokens, key, tokens[i]);
      IdAmong(IssuedTo(tokens, key), tokens[i]);
      assert TokensOf(Put(issued, t.tokenId, t)) == tokens[i := t];
      IssuedToReplaced(tokens, i, t, key);
    } else {
      assert TokensOf(Put(issued, t.tokenId, t)) == tokens + [t];
      assert (tokens + [t])[..|tokens|] == tokens;
    }
  }

  lemma {:induction false} MintedForOthers(issuerKey: Key, issued: Dict<Token>, newKey: Key, safe: seq<Token>,
                                           draws: nat -> MintDraw, key: Key)
    requires Genuine(issuerKey, issued) && newKey != key
    requires forall n: nat :: draws(n).tokenId !in IdsOf(IssuedTo(TokensOf(issued), key))
    ensures var after := MintedFor(issuerKey, issued, newKey, safe, draws).0;
      IssuedTo(TokensOf(after), key) == IssuedTo(TokensOf(issued), key)
  {
    hide IssuedTo, Put;
    if safe == [] {
    } else {
      var n := |safe| - 1;
      MintedForOthers(issuerKey, issued, newKey, safe[..n], draws, key);
      MintedForKeepsGenuine(issuerKey, issued, newKey, safe[..n], draws);
      var before := MintedFor(issuerKey, issued, newKey, safe[..n], draws).0;
      MintingToOthers(before, MintedToken(issuerKey, newKey, safe[n].value, draws(n)), key);
    }
  }

  lemma StepIsLater(policy: PolicyConfig, s: Server, e: Event, key: Key, cutoff: int)
    requires Kept(s) && key in s.revoked && Quiet(s, key, cutoff, e)
    ensures Later(s, Step(policy, s, e), key, cutoff)
  {
    hide IssuedTo, Put, Processed, MintedFor, Recovery, WithIds, Booked, Genuine, Later;
    match e
    case Settle(bundle, clock) =>
      ProcessedIsLater(policy, s, bundle, |bundle.transfers|, clock, key, cutoff);
    case Mint(owner, value, draw) =>
      GenuineIsKeyed(s.issuerKey, s.issued);
      MintingToOthers(s.issued, MintedToken(s.issuerKey, owner, value, draw), key);
      NothingSettledIsLater(s, Step(policy, s, e), key, cutoff);
    case Revoke(lost, now) =>
      NothingSettledIsLater(s, Step(policy, s, e), key, cutoff);
    case Reissue(oldKey, newKey, waitNow, reportNow, draws) =>
      var safeIds := Recovery(policy, s, oldKey, reportNow).safeTokenIds;
      var safe := WithIds(IssuedTo(TokensOf(s.issued), oldKey), set id | id in safeIds, true);
      MintedForOthers(s.issuerKey, s.issued, newKey, safe, draws, key);
      NothingSettledIsLater(s, Step(policy, s, e), key, cutoff);
  }

  lemma NothingSettledIsLater(s: Server, s': Server, key: Key, cutoff: int)
    requires IssuedTo(TokensOf(s'.issued), key) == IssuedTo(TokensOf(s.issued), key)
    requires key in s.revoked && key in s'.revoked && s'.revoked[key] == s.revoked[key]
    requires s'.accepted == s.accepted && s'.times == s.times
    ensures Later(s, s', key, cutoff)
  {
  }

  lemma GenuineIsKeyed(issuerKey: Key, issued: Dict<Token>)
    requires Genuine(issuerKey, issued)
    ensures KeyedById(issued)
  {
  }

  lemma {:induction false} RunIsLater(policy: PolicyConfig, s: Server, events: seq<Event>, key: Key, cutoff: int)
    requires Kept(s) && key in s.revoked
    requires forall i :: 0 <= i < |events| ==> Quiet(s, key, cutoff, events[i])
    ensures Later(s, Run(policy, s, events), key, cutoff)
    decreases |events|
  {
    hide Kept, Step;
    LaterItself(s, key, cutoff);
    if events == [] {
    } else {
      var s1 := Step(policy, s, events[0]);
      StepIsLater(policy, s, events[0], key, cutoff);
      StepKeeps(policy, s, events[0]);
      forall i | 0 <= i < |events[1..]|
        ensures Quiet(s1, key, cutoff, events[1..][i])
      {
        QuietLater(s, s1, key, cutoff, events[1..][i]);
      }
      RunIsLater(policy, s1, events[1..], key, cutoff);
      LaterTransitive(s, s1, Run(policy, s, events), key, cutoff);
    }
  }

  lemma QuietLater(s: Server, s1: Server, key: Key, cutoff: int, e: Event)
    requires Later(s, s1, key, cutoff) && Quiet(s, key, cutoff, e)
    ensures Quiet(s1, key, cutoff, e)
  {
  }

  // ---------- unique transfer ids ----------

  /** A transfer id seen before names the token it was settled for. */
  ghost predicate SameTokenAgain(s: Server, transfer: Transfer, t: Token) {
    forall i :: 0 <= i < |s.accepted| && s.accepted[i].0.body.transferId == transfer.body.transferId ==>
      s.accepted[i].1.tokenId == t.tokenId
  }

  ghost predicate UniqueTransferIds(s: Server, e: Event) {
    e.Settle? ==> forall n :: 0 <= n < |e.bundle.transfers| ==> UniqueTransferId(s, e.bundle, e.bundle.transfers[n])
  }

  ghost predicate UniqueTransferId(s: Server, bundle: PaymentBundle, transfer: Transfer) {
    transfer.body.tokenId in bundle.tokens ==> SameTokenAgain(s, transfer, bundle.tokens[transfer.body.tokenId])
  }

  ghost predicate NoneAgain(s: Server, s': Server) {
    forall i :: 0 <= i < |s.accepted| ==> !SettledAgain(s, s', s.accepted[i].0.body.transferId)
  }

  lemma SettledInLedger(s: Server, s1: Server, i: nat)
    requires Kept(s) && Grown(s, s1) && i < |s.accepted|
    ensures s.accepted[i].1.tokenId in s1.ledger
  {
    assert EntryBooked(s, s.accepted[i]);
  }

  lemma SubmittedNoneAgain(policy: PolicyConfig, s: Server, s1: Server, transfer: Transfer, t: Token, reading: Reading)
    requires Kept(s) && Grown(s, s1) && NoneAgain(s, s1) && SameTokenAgain(s, transfer, t)
    ensures NoneAgain(s, Submitted(policy, s1, transfer, t, reading).0)
  {
    hide Kept, RootVerified, Grown;
    var s2 := Submitted(policy, s1, transfer, t, reading).0;
    forall i | 0 <= i < |s.accepted|
      ensures !SettledAgain(s, s2, s.accepted[i].0.body.transferId)
    {
      SettledInLedger(s, s1, i);
      assert !SettledAgain(s, s1, s.accepted[i].0.body.transferId);
    }
  }

  lemma GrownTransitive(s: Server, s1: Server, s2: Server)
    requires Grown(s, s1) && Grown(s1, s2)
    ensures Grown(s, s2)
  {
    assert s2.accepted[..|s.accepted|] == s2.accepted[..|s1.accepted|][..|s.accepted|];
  }

  lemma {:induction false} ProcessedNoneAgain(policy: PolicyConfig, s: Server, s1: Server, bundle: PaymentBundle,
                                              n: nat, clock: nat -> Reading)
    requires n <= |bundle.transfers| && Kept(s) && Grown(s, s1) && NoneAgain(s, s1)
    requires UniqueTransferIds(s, Settle(bundle, clock))
    ensures NoneAgain(s, Processed(policy, s1, bundle, n, clock).0)
  {
    hide Kept, Grown, NoneAgain, Submitted, SameTokenAgain;
    if n == 0 {
    } else {
      ProcessedNoneAgain(policy, s, s1, bundle, n - 1, clock);
      ProcessingGrows(policy, s1, bundle, n - 1, clock);
      var before := Processed(policy, s1, bundle, n - 1, clock).0;
      GrownTransitive(s, s1, before);
      var transfer := bundle.transfers[n - 1];
      assert UniqueTransferId(s, bundle, transfer);
      if transfer.body.tokenId in bundle.tokens {
        SubmittedNoneAgain(policy, s, before, transfer, bundle.tokens[transfer.body.tokenId], clock(n - 1));
      }
    }
  }

  lemma {:induction false} RunNoneAgain(policy: PolicyConfig, s: Server, s1: Server, events: seq<Event>)
    requires Kept(s) && Grown(s, s1) && NoneAgain(s, s1)
    requires forall i :: 0 <= i < |events| ==> UniqueTransferIds(s, events[i])
    ensures NoneAgain(s, Run(policy, s1, events))
    decreases |events|
  {
    hide Kept, Grown, UniqueTransferIds, Processed, MintedFor, Recovery, WithIds, Put;
    if events == [] {
    } else {
      var e := events[0];
      var s2 := Step(policy, s1, e);
      if e.Settle? {
        ProcessedNoneAgain(policy, s, s1, e.bundle, |e.bundle.transfers|, e.clock);
      }
      StepGrows(policy, s1, e);
      GrownTransitive(s, s1, s2);
      RunNoneAgain(policy, s, s2, events[1..]);
    }
  }

  /**
   Stability: after the window of a lost key has closed, no run of later settlements, mints to
   others, reissues to others and revocations of others changes the report, provided that a
   transfer id always names one token.
   */
  lemma RecoveryIsStable(policy: PolicyConfig, s: Server, events: seq<Event>, key: Key, now: int, now': int)
    requires Kept(s) && key in s.revoked
    requires forall i :: 0 <= i < |events| ==>
      Quiet(s, key, WindowEnd(policy, s, key), events[i]) && UniqueTransferIds(s, events[i])
    requires now >= WindowEnd(policy, s, key) && now' >= WindowEnd(policy, s, key)
    ensures Recovery(policy, Run(policy, s, events), key, now') == Recovery(policy, s, key, now)
  {
    var s' := Run(policy, s, events);
    RunIsLater(policy, s, events, key, WindowEnd(policy, s, key));
    assert NoneAgain(s, s);
    RunNoneAgain(policy, s, s, events);
    ReportStableIff(policy, s, s', key, now, now');
    hide Recovery, Kept, Later, Claims, Quiet, UniqueTransferIds, ClaimedIds, Run;
    forall id | id in ClaimedIds(policy, s, key, now)
      ensures Standing(policy, s, s', key, id)
    {
      ClaimedIdsExactly(policy, s, key, now, id);
      ClaimStands(policy, s, s', key, now, id);
    }
  }

  lemma ClaimStands(policy: PolicyConfig, s: Server, s': Server, key: Key, now: int, id: string)
    requires Kept(s) && key in s.revoked && NoneAgain(s, s') && now >= WindowEnd(policy, s, key)
    requires exists i: nat :: ClaimedBy(policy, s, key, now, id, i)
    ensures Standing(policy, s, s', key, id)
  {
    SameClaims(policy, s, key, now, id);
    hide Kept, SettledAgain;
    var i: nat :| ClaimedBy(policy, s, key, WindowEnd(policy, s, key), id, i);
    assert !SettledAgain(s, s', s.accepted[i].0.body.transferId);
  }

  function AlicesToken(): Token {
    MintedToken("issuer", "alice", 5, MintDraw("a", 0, 0))
  }

  function CarolsToken(): Token {
    MintedToken("issuer", "carol", 7, MintDraw("c", 150, 0))
  }

  /** A first transfer of a minted token to Bob, under the transfer id x */
  function ToBob(t: Token): Transfer {
    var body := TransferBody("x", t.tokenId, t.currentOwner, "bob", 1, None, None, None, 1, 0);
    Transfer(body, Signed(t.currentOwner, TransferMessage(body)))
  }

  /** Bob has settled Alice's only token; Alice's key is revoked. */
  function LostServer(): Server {
    Server("issuer", [("a", AlicesToken()), ("c", CarolsToken())],
           map["a" := SettlementRecord("a", "x", Settled, Fine)], map["a" := ChainKeyOf(ToBob(AlicesToken()))],
           map["x" := HashOf(ToBob(AlicesToken()))], [(ToBob(AlicesToken()), AlicesToken())], map["x" := 1],
           map["alice" := 10], {})
  }

  /**
   Without unique transfer ids the report is not stable: Alice's only token is claimed by Bob, and
   after her window has closed Carol settles a token of her own under the same transfer id. Alice's
   claim is redated past the cutoff, and her token counts as safe again.
   */
  lemma ReusedTransferIdReleasesClaim()
    ensures var policy := PolicyConfig(1000, 7, 10000, 100);
      var s := LostServer();
      var late := Reading(200 * MICROS, 200 * MICROS);
      var (s', record) := Submitted(policy, s, ToBob(CarolsToken()), CarolsToken(), late);
      Kept(s) && 150 * MICROS >= WindowEnd(policy, s, "alice") && record.status == Settled &&
      Recovery(policy, s, "alice", 150 * MICROS).safeBalance == 0 &&
      Recovery(policy, s', "alice", 150 * MICROS).safeBalance == 5
  {
    var policy := PolicyConfig(1000, 7, 10000, 100);
    var s := LostServer();
    var carols := ToBob(CarolsToken());
    LostServerKept();
    CarolSettles(policy);
    hide Kept, LostServer, ToBob, AlicesToken, CarolsToken, Recovery;
    var s' := Submitted(policy, s, carols, CarolsToken(), Reading(200 * MICROS, 200 * MICROS)).0;
    OnlyAlices(s);
    OnlyAlices(s');
    ClaimCounted(policy, s);
    ClaimLost(policy, s', carols);
  }

  lemma LostServerKept()
    ensures Kept(LostServer()) && Has(LostServer().issued, "c")
  {
    var s := LostServer();
    HasAt(s.issued, 0);
    HasAt(s.issued, 1);
    assert Genuine(s.issuerKey, s.issued);
    hide Genuine, Has, MintedToken, IndexOf;
    LostServerBooked();
  }

  lemma LostServerBooked()
    requires Has(LostServer().issued, "a")
    ensures Booked(LostServer())
  {
    var s := LostServer();
    assert s.accepted[0].1.tokenId == "a";
    assert EntryBooked(s, s.accepted[0]);
  }

  lemma CarolSettles(policy: PolicyConfig)
    requires policy == PolicyConfig(1000, 7, 10000, 100)
    ensures var s := LostServer();
      var late := Reading(200 * MICROS, 200 * MICROS);
      var (s', record) := Submitted(policy, s, ToBob(CarolsToken()), CarolsToken(), late);
      record.status == Settled && s'.issued == s.issued && s'.revoked == s.revoked &&
      s'.times == map["x" := 200 * MICROS] &&
      s'.accepted == [(ToBob(AlicesToken()), AlicesToken()), (ToBob(CarolsToken()), CarolsToken())] &&
      WindowEnd(policy, s, "alice") <= 150 * MICROS && s.revoked == map["alice" := 10]
  {
    CarolAssessed(policy);
    hide Assess, AlicesToken, CarolsToken;
  }

  lemma CarolAssessed(policy: PolicyConfig)
    requires policy == PolicyConfig(1000, 7, 10000, 100)
    ensures Assess(policy, LostServer(), ToBob(CarolsToken()), CarolsToken(), 200 * MICROS) == Fine
  {
    LostServerKept();
    RootVerifiedIff(LostServer(), CarolsToken());
    assert !CarolsToken().IssueExpired(policy, 200 * MICROS);
    hide RootVerified, Kept;
  }

  lemma OnlyAlices(s: Server)
    requires s.issued == LostServer().issued
    ensures IssuedTo(TokensOf(s.issued), "alice") == [AlicesToken()]
  {
    assert TokensOf(s.issued) == [AlicesToken()] + [CarolsToken()];
    OthersTokenLast([AlicesToken()], CarolsToken(), "alice");
    assert IssuedTo([AlicesToken()], "alice") == IssuedTo([], "alice") + [AlicesToken()];
  }

  lemma OthersTokenLast(tokens: seq<Token>, t: Token, key: Key)
    requires t.currentOwner != key
    ensures IssuedTo(tokens + [t], key) == IssuedTo(tokens, key)
  {
    assert (tokens + [t])[..|tokens|] == tokens;
  }

  lemma ClaimCounted(policy: PolicyConfig, s: Server)
    requires s == LostServer() && policy == PolicyConfig(1000, 7, 10000, 100)
    requires IssuedTo(TokensOf(s.issued), "alice") == [AlicesToken()]
    ensures Recovery(policy, s, "alice", 150 * MICROS).safeBalance == 0
  {
    hide IssuedTo;
    var claimed := ClaimedIds(policy, s, "alice", 150 * MICROS);
    assert s.accepted[0].1.Origin() == "a" == IdsOf([AlicesToken()])[0];
    assert "a" in claimed;
    assert WithIds([AlicesToken()], claimed, false) == WithIds([], claimed, false) == [];
  }

  lemma ClaimLost(policy: PolicyConfig, s: Server, carols: Transfer)
    requires policy == PolicyConfig(1000, 7, 10000, 100) && carols == ToBob(CarolsToken())
    requires s.accepted == [(ToBob(AlicesToken()), AlicesToken()), (carols, CarolsToken())]
    requires s.times == map["x" := 200 * MICROS] && s.revoked == map["alice" := 10]
    requires IssuedTo(TokensOf(s.issued), "alice") == [AlicesToken()]
    ensures Recovery(policy, s, "alice", 150 * MICROS).safeBalance == 5
  {
    hide IssuedTo;
    var claimed := ClaimedIds(policy, s, "alice", 150 * MICROS);
    assert "a" !in claimed;
    assert WithIds([AlicesToken()], claimed, false) == WithIds([], claimed, false) + [AlicesToken()];
    assert SafeTokens(policy, s, "alice", 150 * MICROS) == [AlicesToken()];
    assert ValuesOf([AlicesToken()]) == [5];
    assert Sum([5]) == 5 + Sum([]);
  }

  // ---------- reissue ----------

  lemma {:induction false} SameSelection(tokens: seq<Token>, a: set<string>, insideA: bool, b: set<string>,
                                         insideB: bool)
    requires forall t :: t in tokens ==> ((t.tokenId in a) == insideA <==> (t.tokenId in b) == insideB)
    ensures WithIds(tokens, a, insideA) == WithIds(tokens, b, insideB)
  {
    if tokens == [] {
    } else {
      SameSelection(tokens[..|tokens| - 1], a, insideA, b, insideB);
    }
  }

  /** Reading the safe tokens back from their ids gives the safe tokens. */
  lemma SafeFromIds(policy: PolicyConfig, s: Server, key: Key, now: int)
    ensures var safeIds := Recovery(policy, s, key, now).safeTokenIds;
      WithIds(IssuedTo(TokensOf(s.issued), key), set id | id in safeIds, true) == SafeTokens(policy, s, key, now)
  {
    hide ClaimedIds, IssuedTo;
    var issued := IssuedTo(TokensOf(s.issued), key);
    var claimed := ClaimedIds(policy, s, key, now);
    var safe := SafeTokens(policy, s, key, now);
    var ids := set id | id in IdsOf(safe);
    forall t | t in issued
      ensures t.tokenId in ids <==> t.tokenId !in claimed
    {
      WithIdsExactly(issued, claimed, false, t);
      IdAmong(safe, t);
      if t.tokenId in ids {
        var k :| 0 <= k < |safe| && IdsOf(safe)[k] == t.tokenId;
        WithIdsExactly(issued, claimed, false, safe[k]);
      }
    }
    SameSelection(issued, ids, true, claimed, false);
  }

  /** Drawn ids are new to the issuer and distinct. */
  ghost predicate FreshDraws(issued: Dict<Token>, draws: nat -> MintDraw) {
    (forall n: nat :: !Has(issued, draws(n).tokenId)) && forall m: nat, n: nat :: m < n ==>
      draws(m).tokenId != draws(n).tokenId
  }

  lemma {:induction false} MintedForEffect(issuerKey: Key, issued: Dict<Token>, newKey: Key, safe: seq<Token>,
                                           draws: nat -> MintDraw)
    requires FreshDraws(issued, draws)
    ensures var (after, minted) := MintedFor(issuerKey, issued, newKey, safe, draws);
      TokensOf(after) == TokensOf(issued) + minted && ValuesOf(minted) == ValuesOf(safe) &&
      (forall i :: 0 <= i < |safe| ==> minted[i] == MintedToken(issuerKey, newKey, safe[i].value, draws(i))) &&
      forall k: nat :: |safe| <= k ==> !Has(after, draws(k).tokenId)
  {
    hide MintedToken, Put, TokensOf;
    if safe == [] {
    } else {
      var n := |safe| - 1;
      MintedForEffect(issuerKey, issued, newKey, safe[..n], draws);
      var before := MintedFor(issuerKey, issued, newKey, safe[..n], draws).0;
      var t := MintedToken(issuerKey, newKey, safe[n].value, draws(n));
      MintedFields(issuerKey, newKey, safe[n].value, draws(n));
      PutNew(before, t);
      OneMoreMinted(safe, MintedFor(issuerKey, issued, newKey, safe[..n], draws).1, t);
      forall k: nat | |safe| <= k
        ensures !Has(Put(before, t.tokenId, t), draws(k).tokenId)
      {
        PutOther(before, t, draws(k).tokenId);
      }
    }
  }

  lemma OneMoreMinted(safe: seq<Token>, minted: seq<Token>, t: Token)
    requires safe != [] && ValuesOf(minted) == ValuesOf(safe[..|safe| - 1]) && t.value == safe[|safe| - 1].value
    ensures ValuesOf(minted + [t]) == ValuesOf(safe)
  {
    assert ValuesOf(safe) == ValuesOf(safe[..|safe| - 1]) + [t.value];
  }

  lemma MintedFields(issuerKey: Key, newKey: Key, value: int, draw: MintDraw)
    ensures var t := MintedToken(issuerKey, newKey, value, draw);
      t.tokenId == draw.tokenId && t.value == value && t.currentOwner == newKey
  {
  }

  lemma PutNew(issued: Dict<Token>, t: Token)
    requires !Has(issued, t.tokenId)
    ensures TokensOf(Put(issued, t.tokenId, t)) == TokensOf(issued) + [t]
  {
  }

  lemma PutOther(issued: Dict<Token>, t: Token, id: string)
    requires !Has(issued, id) && !Has(issued, t.tokenId) && t.tokenId != id
    ensures !Has(Put(issued, t.tokenId, t), id)
  {
    var after := Put(issued, t.tokenId, t);
    forall j | 0 <= j < |after|
      ensures after[j].0 != id
    {
      if j < |issued| {
        HasAt(issued, j);
      }
    }
  }

  lemma OwnTokenLast(tokens: seq<Token>, t: Token, key: Key)
    requires t.currentOwner == key
    ensures IssuedTo(tokens + [t], key) == IssuedTo(tokens, key) + [t]
  {
    assert (tokens + [t])[..|tokens|] == tokens;
  }

  lemma {:induction false} IssuedToAppended(tokens: seq<Token>, minted: seq<Token>, key: Key)
    requires forall i :: 0 <= i < |minted| ==> minted[i].currentOwner == key
    ensures IssuedTo(tokens + minted, key) == IssuedTo(tokens, key) + minted
  {
    hide IssuedTo;
    if minted == [] {
      assert tokens + minted == tokens;
    } else {
      var n := |minted| - 1;
      var t := minted[n];
      IssuedToAppended(tokens, minted[..n], key);
      assert tokens + minted == tokens + minted[..n] + [t];
      OwnTokenLast(tokens + minted[..n], t, key);
      assert minted == minted[..n] + [t];
    }
  }

  /**
   A reissue past its wait, for a pair not served before, mints the safe tokens' values in order to
   the new key: what the new key is issued grows by exactly the safe balance, and nothing but the
   issuer's book and the set of served pairs changes.
   */
  lemma ReissueMintsSafeBalance(policy: PolicyConfig, s: Server, oldKey: Key, newKey: Key, waitNow: int,
                                reportNow: int, draws: nat -> MintDraw, now: int)
    requires WaitElapsed(policy, s.revoked, oldKey, waitNow) && (oldKey, newKey) !in s.reissued
    requires FreshDraws(s.issued, draws)
    ensures var (s', r) := Reissued(policy, s, oldKey, newKey, waitNow, reportNow, draws);
      var safe := SafeTokens(policy, s, oldKey, reportNow);
      r.Ok? && ValuesOf(r.value) == ValuesOf(safe) &&
      (forall i :: 0 <= i < |safe| ==> r.value[i] == MintedToken(s.issuerKey, newKey, safe[i].value, draws(i))) &&
      IssuedTo(TokensOf(s'.issued), newKey) == IssuedTo(TokensOf(s.issued), newKey) + r.value &&
      s' == s.(issued := s'.issued, reissued := s.reissued + {(oldKey, newKey)}) &&
      Recovery(policy, s', newKey, now).issuedTotal ==
        Recovery(policy, s, newKey, now).issuedTotal + Recovery(policy, s, oldKey, reportNow).safeBalance
  {
    hide SafeTokens, WithIds, IssuedTo, MintedFor, FreshDraws, MintedToken, TokensOf;
    var safe := SafeTokens(policy, s, oldKey, reportNow);
    SafeFromIds(policy, s, oldKey, reportNow);
    MintedForEffect(s.issuerKey, s.issued, newKey, safe, draws);
    var (issued, minted) := MintedFor(s.issuerKey, s.issued, newKey, safe, draws);
    forall i | 0 <= i < |minted|
      ensures minted[i].currentOwner == newKey
    {
      MintedFields(s.issuerKey, newKey, safe[i].value, draws(i));
    }
    IssuedToAppended(TokensOf(s.issued), minted, newKey);
    var before := IssuedTo(TokensOf(s.issued), newKey);
    assert ValuesOf(before + minted) == ValuesOf(before) + ValuesOf(minted);
    SumConcat(ValuesOf(before), ValuesOf(minted));
  }

  /**
   A pair once served is served for good: whatever happens next, a repeated reissue mints
   nothing and changes nothing.
   */
  lemma RepeatMintsNothing(policy: PolicyConfig, s: Server, events: seq<Event>, oldKey: Key, newKey: Key,
                           waitNow: int, reportNow: int, draws: nat -> MintDraw)
    requires Kept(s) && (oldKey, newKey) in s.reissued
    ensures var s' := Run(policy, s, events);
      Reissued(policy, s', oldKey, newKey, waitNow, reportNow, draws) ==
      (s', if WaitElapsed(policy, s'.revoked, oldKey, waitNow) then Ok([]) else Err(RecoveryWaitNotElapsed))
  {
    hide Kept, Run, Recovery, WithIds, MintedFor;
    RunKeepsBooks(policy, s, events);
  }

  /**
   Idempotence holds per pair only: the same lost key reissued to a second new key mints the same
   values a second time.
   */
  lemma SecondKeyMintsAgain(policy: PolicyConfig, s: Server, key: Key, first: Key, second: Key, waits: (int, int),
                            reports: (int, int), draws: nat -> MintDraw, more: nat -> MintDraw)
    requires Kept(s) && first != key && first != second
    requires (key, first) !in s.reissued && (key, second) !in s.reissued
    requires WaitElapsed(policy, s.revoked, key, waits.0) && WaitElapsed(policy, s.revoked, key, waits.1)
    requires reports.0 >= waits.0 && reports.1 >= waits.1
    requires FreshDraws(s.issued, draws)
    requires FreshDraws(Reissued(policy, s, key, first, waits.0, reports.0, draws).0.issued, more)
    ensures var (s1, r1) := Reissued(policy, s, key, first, waits.0, reports.0, draws);
      var r2 := Reissued(policy, s1, key, second, waits.1, reports.1, more).1;
      r1.Ok? && r2.Ok? && ValuesOf(r2.value) == ValuesOf(r1.value)
  {
    hide SafeTokens, IssuedTo, Kept, Recovery, Reissued;
    ReissueMintsSafeBalance(policy, s, key, first, waits.0, reports.0, draws, 0);
    var s1 := Reissued(policy, s, key, first, waits.0, reports.0, draws).0;
    ReissueMintsSafeBalance(policy, s1, key, second, waits.1, reports.1, more, 0);
    var e := Reissue(key, first, waits.0, reports.0, draws);
    DrawsAreNew(s, key, draws);
    assert Run(policy, s, [e]) == Run(policy, s1, []) == s1;
    RecoveryIsStable(policy, s, [e], key, reports.0, reports.1);
    StepIsLater(policy, s, e, key, WindowEnd(policy, s, key));
    SafeValues(policy, s, s1, key, reports.0, reports.1);
  }

  lemma DrawsAreNew(s: Server, key: Key, draws: nat -> MintDraw)
    requires Kept(s) && FreshDraws(s.issued, draws)
    ensures NewIds(s, key, draws)
  {
    var own := IssuedTo(TokensOf(s.issued), key);
    forall n: nat
      ensures draws(n).tokenId !in IdsOf(own)
    {
      forall k | 0 <= k < |own|
        ensures own[k].tokenId != draws(n).tokenId
      {
        IssuedToExactly(TokensOf(s.issued), key, own[k]);
        var i :| 0 <= i < |s.issued| && TokensOf(s.issued)[i] == own[k];
        HasAt(s.issued, i);
      }
    }
  }

  /** Equal reports over the same book of the key's tokens stand for the same safe values. */
  lemma SafeValues(policy: PolicyConfig, s: Server, s1: Server, key: Key, now: int, now': int)
    requires Recovery(policy, s, key, now).safeTokenIds == Recovery(policy, s1, key, now').safeTokenIds
    requires IssuedTo(TokensOf(s1.issued), key) == IssuedTo(TokensOf(s.issued), key)
    ensures SafeTokens(policy, s1, key, now') == SafeTokens(policy, s, key, now)
  {
    SafeFromIds(policy, s, key, now);
    SafeFromIds(policy, s1, key, now');
  }
}
