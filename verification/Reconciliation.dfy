/** Settlement by the canonical issuer (issuer/reconciliation.py). */
module Reconciliation {
  import opened Basics
  import opened Tokens

  import Custody
  import Dicts

  const DEFAULT_MAX_HOPS := 7

  /** The hop limit of a token: what a policy attached to the token object says, if there is one */
  function HopLimit(attached: Option<int>): int {
    if attached.Some? then attached.value else DEFAULT_MAX_HOPS
  }

  datatype Reason = InvalidChain | Expired | MaxHopsExceeded | DuplicateTokenId

  /** A submission is accepted or rejected; an expiry that is no date makes it raise instead. */
  datatype Verdict = Accepted | Rejected(reason: Reason) | Raised

  /** When each accepted token id was settled */
  type Ledger = map<string, int>

  /** The checks that do not look at earlier submissions */
  function Check(t: TokenData, policy: Option<int>, at: int): (r: Option<Verdict>)
    ensures r.Some? ==> !r.value.Accepted?
  {
    if !ValidChain(t) then Some(Rejected(InvalidChain))
    else if t.expiry.NotADate? then Some(Raised)
    else if t.expiry.at < at then Some(Rejected(Expired))
    else if |t.chain| > HopLimit(policy) then Some(Rejected(MaxHopsExceeded))
    else None
  }

  function Submitted(ledger: Ledger, t: TokenData, policy: Option<int>, at: int): (Ledger, Verdict) {
    var failed := Check(t, policy, at);
    if failed.Some? then (ledger, failed.value)
    else if t.tokenId in ledger then (ledger, Rejected(DuplicateTokenId))
    else (ledger[t.tokenId := at], Accepted)
  }

  class ReconciliationEngine {
    var acceptedByTokenId: map<string, int>

    constructor ()
      ensures acceptedByTokenId == map[]
    {
      acceptedByTokenId := map[];
    }

    method Submit(token: Token, policy: Option<int>, submittedAt: Option<int>, now: int) returns (verdict: Verdict)
      modifies this
      ensures var at := if submittedAt.Some? then submittedAt.value else now;
        (acceptedByTokenId, verdict) == Submitted(old(acceptedByTokenId), token.Data(), policy, at)
    {
      var at := if submittedAt.Some? then submittedAt.value else now;
      var valid := token.ValidateChain(token.issuerPk);
      if !valid {
        return Rejected(InvalidChain);
      }
      if token.expiry.NotADate? {
        return Raised;
      }
      if !(token.expiry.at >= at) {
        return Rejected(Expired);
      }
      var maxHops := HopLimit(policy);
      var hopCount := |token.chain|;
      if hopCount > maxHops {
        return Rejected(MaxHopsExceeded);
      }
      if token.tokenId in acceptedByTokenId {
        return Rejected(DuplicateTokenId);
      }
      acceptedByTokenId := acceptedByTokenId[token.tokenId := at];
      return Accepted;
    }
  }

  /** No more transfers than a policy attached to the token allows, or than seven without one */
  ghost predicate WithinHops(t: TokenData, policy: Option<int>) {
    match policy
    case None => |t.chain| <= 7
    case Some(limit) => |t.chain| <= limit
  }

  /**
   What each answer means: the chain is looked at first, then the expiry, the hops, and only then
   whether the token id was settled before. Only an accepted token changes the ledger.
   */
  lemma AnswerIff(ledger: Ledger, t: TokenData, policy: Option<int>, at: int)
    ensures var (after, verdict) := Submitted(ledger, t, policy, at);
      var timely := t.expiry.Instant? && at <= t.expiry.at;
      (verdict == Accepted <==> ValidChain(t) && timely && WithinHops(t, policy) && t.tokenId !in ledger) &&
      (verdict == Rejected(InvalidChain) <==> !ValidChain(t)) &&
      (verdict == Raised <==> ValidChain(t) && t.expiry.NotADate?) &&
      (verdict == Rejected(Expired) <==> ValidChain(t) && t.expiry.Instant? && t.expiry.at < at) &&
      (verdict == Rejected(MaxHopsExceeded) <==> ValidChain(t) && timely && !WithinHops(t, policy)) &&
      (verdict == Rejected(DuplicateTokenId) <==>
        ValidChain(t) && timely && WithinHops(t, policy) && t.tokenId in ledger) &&
      after == if verdict == Accepted then ledger[t.tokenId := at] else ledger
  {
    hide ValidChain;
  }

  // ---------- whole runs ----------

  datatype Claim = Claim(token: TokenData, policy: Option<int>, at: int) {
    predicate Passes() {
      Check(token, policy, at).None?
    }
  }

  function Run(ledger: Ledger, claims: seq<Claim>): (r: (Ledger, seq<Verdict>))
    ensures |r.1| == |claims|
    decreases |claims|
  {
    if claims == [] then (ledger, []) else
      var (next, verdict) := Submitted(ledger, claims[0].token, claims[0].policy, claims[0].at);
      var (last, rest) := Run(next, claims[1..]);
      (last, [verdict] + rest)
  }

  /** No claim before position i, nor the ledger, holds a settlement of the token. */
  ghost predicate FirstToPass(ledger: Ledger, claims: seq<Claim>, i: nat)
    requires i < |claims|
  {
    claims[i].Passes() && claims[i].token.tokenId !in ledger &&
    forall j :: 0 <= j < i && claims[j].Passes() ==> claims[j].token.tokenId != claims[i].token.tokenId
  }

  /**
   Over any run: exactly the first claim on each token id that passes the chain, expiry and hop
   checks is accepted, recorded with its time, and never changed again.
   */
  lemma {:induction false} FirstValidClaimWins(ledger: Ledger, claims: seq<Claim>)
    ensures var (last, verdicts) := Run(ledger, claims);
      (forall i :: 0 <= i < |claims| ==> (verdicts[i].Accepted? <==> FirstToPass(ledger, claims, i))) &&
      (forall i :: 0 <= i < |claims| && verdicts[i].Accepted? ==>
        claims[i].token.tokenId in last && last[claims[i].token.tokenId] == claims[i].at) &&
      (forall id :: id in ledger ==> id in last && last[id] == ledger[id]) &&
      (forall id :: id in last && id !in ledger ==>
        exists i :: 0 <= i < |claims| && verdicts[i].Accepted? && claims[i].token.tokenId == id)
    decreases |claims|
  {
    hide Check;
    if claims == [] {
    } else {
      var (next, verdict) := Submitted(ledger, claims[0].token, claims[0].policy, claims[0].at);
      var (last, rest) := Run(next, claims[1..]);
      FirstValidClaimWins(next, claims[1..]);
      forall i | 0 <= i < |claims|
        ensures ([verdict] + rest)[i].Accepted? <==> FirstToPass(ledger, claims, i)
      {
        if i > 0 {
          FirstAfterStep(ledger, claims, i);
          assert rest[i - 1].Accepted? <==> FirstToPass(next, claims[1..], i - 1);
        }
      }
      forall id | id in last && id !in ledger
        ensures exists i :: 0 <= i < |claims| && ([verdict] + rest)[i].Accepted? && claims[i].token.tokenId == id
      {
        if id in next {
          assert ([verdict] + rest)[0].Accepted?;
        } else {
          var i :| 0 <= i < |rest| && rest[i].Accepted? && claims[1..][i].token.tokenId == id;
          assert ([verdict] + rest)[i + 1].Accepted? && claims[i + 1].token.tokenId == id;
        }
      }
    }
  }

  lemma FirstAfterStep(ledger: Ledger, claims: seq<Claim>, i: nat)
    requires 0 < i < |claims|
    ensures var next := Submitted(ledger, claims[0].token, claims[0].policy, claims[0].at).0;
      FirstToPass(next, claims[1..], i - 1) <==> FirstToPass(ledger, claims, i)
  {
    hide Check;
    var tail := claims[1..];
    assert tail[i - 1] == claims[i];
    if FirstToPass(ledger, claims, i) {
      forall j | 0 <= j < i - 1 && tail[j].Passes()
        ensures tail[j].token.tokenId != claims[i].token.tokenId
      {
        assert tail[j] == claims[j + 1];
      }
    }
    if FirstToPass(Submitted(ledger, claims[0].token, claims[0].policy, claims[0].at).0, tail, i - 1) {
      forall j | 0 <= j < i && claims[j].Passes()
        ensures claims[j].token.tokenId != claims[i].token.tokenId
      {
        assert j > 0 ==> tail[j - 1] == claims[j];
      }
    }
  }

  // ---------- conservation ----------

  /** What one issuer's accepted claims are worth together. */
  function AcceptedValue(issuerPk: Key, claims: seq<Claim>, verdicts: seq<Verdict>): int
    requires |claims| == |verdicts|
  {
    if claims == [] then 0 else
      var first := if verdicts[0].Accepted? && claims[0].token.issuerPk == issuerPk then claims[0].token.value else 0;
      first + AcceptedValue(issuerPk, claims[1..], verdicts[1..])
  }

  /** A negative value adds nothing to what an issuer may have to settle. */
  function Due(value: int): nat {
    if value < 0 then 0 else value
  }

  /** What the issuances not settled yet may be worth. */
  function Unsettled(issued: seq<Issuance>, settled: set<string>): int {
    if issued == [] then 0 else
      var first := if issued[0].tokenId in settled then 0 else Due(issued[0].value);
      first + Unsettled(issued[1..], settled)
  }

  /** One issuance per token id, of values of either sign */
  ghost predicate HonestIssuer(issued: seq<Issuance>) {
    forall i, j :: 0 <= i < j < |issued| ==> issued[i].tokenId != issued[j].tokenId
  }

  lemma {:induction false} SettleOne(issued: seq<Issuance>, settled: set<string>, k: nat)
    requires HonestIssuer(issued) && k < |issued| && issued[k].tokenId !in settled
    ensures Unsettled(issued, settled + {issued[k].tokenId}) == Unsettled(issued, settled) - Due(issued[k].value)
  {
    if k == 0 {
      UnsettledOther(issued[1..], settled, issued[0].tokenId);
    } else {
      assert issued[0].tokenId != issued[k].tokenId;
      SettleOne(issued[1..], settled, k - 1);
    }
  }

  lemma {:induction false} UnsettledOther(issued: seq<Issuance>, settled: set<string>, id: string)
    requires forall i :: 0 <= i < |issued| ==> issued[i].tokenId != id
    ensures Unsettled(issued, settled + {id}) == Unsettled(issued, settled)
  {
    if issued == [] {
    } else {
      UnsettledOther(issued[1..], settled, id);
    }
  }

  lemma {:induction false} UnsettledMonotone(issued: seq<Issuance>, settled: set<string>, more: set<string>)
    requires HonestIssuer(issued)
    ensures 0 <= Unsettled(issued, settled + more) <= Unsettled(issued, settled)
  {
    if issued == [] {
    } else {
      UnsettledMonotone(issued[1..], settled, more);
    }
  }

  /** Whatever is submitted, in whatever order and however often, an issuer settles at most what it signed. */
  lemma {:induction false} SettledAtMostIssued(issuerPk: Key, issued: seq<Issuance>, ledger: Ledger,
                                               claims: seq<Claim>)
    requires HonestIssuer(issued)
    requires forall i :: 0 <= i < |claims| && claims[i].token.issuerPk == issuerPk && ValidChain(claims[i].token) ==>
      claims[i].token.Issued() in issued
    ensures AcceptedValue(issuerPk, claims, Run(ledger, claims).1) <= Unsettled(issued, ledger.Keys)
    decreases |claims|
  {
    UnsettledMonotone(issued, ledger.Keys, {});
    assert ledger.Keys + {} == ledger.Keys;
    if claims == [] {
    } else {
      var t := claims[0].token;
      var (next, verdict) := Submitted(ledger, t, claims[0].policy, claims[0].at);
      SettledAtMostIssued(issuerPk, issued, next, claims[1..]);
      assert Run(ledger, claims).1[1..] == Run(next, claims[1..]).1;
      if verdict.Accepted? {
        assert next.Keys == ledger.Keys + {t.tokenId};
        UnsettledMonotone(issued, ledger.Keys, {t.tokenId});
        if t.issuerPk == issuerPk {
          var k :| 0 <= k < |issued| && issued[k] == t.Issued();
          SettleOne(issued, ledger.Keys, k);
        }
      }
    }
  }

  function DueValues(issued: seq<Issuance>): (vs: seq<int>)
    ensures |vs| == |issued|
  {
    seq(|issued|, i requires 0 <= i < |issued| => Due(issued[i].value))
  }

  lemma {:induction false} NothingSettled(issued: seq<Issuance>)
    ensures Unsettled(issued, {}) == Sum(DueValues(issued))
  {
    if issued == [] {
    } else {
      NothingSettled(issued[1..]);
      assert DueValues(issued)[1..] == DueValues(issued[1..]);
    }
  }

  /**
   An issuer starting with no settlement never settles more than the positive values it signed,
   which is everything it signed when it signed no negative value.
   */
  lemma IssuerNeverOverpays(issuerPk: Key, issued: seq<Issuance>, claims: seq<Claim>)
    requires HonestIssuer(issued)
    requires forall i :: 0 <= i < |claims| && claims[i].token.issuerPk == issuerPk && ValidChain(claims[i].token) ==>
      claims[i].token.Issued() in issued
    ensures AcceptedValue(issuerPk, claims, Run(map[], claims).1) <= Sum(DueValues(issued))
    ensures (forall i :: 0 <= i < |issued| ==> issued[i].value >= 0) ==>
      DueValues(issued) == seq(|issued|, i requires 0 <= i < |issued| => issued[i].value)
  {
    SettledAtMostIssued(issuerPk, issued, map[], claims);
    NothingSettled(issued);
    var none: Ledger := map[];
    assert none.Keys == {};
  }

  // ---------- wallets and the issuer ----------

  /**
   After any run of payment sessions, a token that some wallet can spend is settled for it exactly
   when the token has a date that is not past, has changed hands no more often than its policy says, or
   seven times without one, and was not settled before: the wallets never hold a token whose chain
   the issuer would refuse.
   */
  lemma HeldTokenSettlesIff(world: Custody.World, events: seq<Custody.Event>, i: nat, id: string, ledger: Ledger,
                            policy: Option<int>, at: int)
    requires Custody.Custodial(world) && i < |world| && id in Dicts.Keys(Custody.Run(world, events)[i].utr)
    ensures var t := Dicts.Mapping(Custody.Run(world, events)[i].utr)[id];
      Submitted(ledger, t, policy, at).1.Accepted? <==>
        t.expiry.Instant? && at <= t.expiry.at && WithinHops(t, policy) && id !in ledger
  {
    Custody.RunKeepsCustody(world, events);
    hide Custody.Run, ValidChain;
    var w := Custody.Run(world, events)[i];
    assert Custody.Healthy(w);
    assert Custody.Owned(w.ownerPk, Dicts.Mapping(w.utr)[id]);
  }
}
