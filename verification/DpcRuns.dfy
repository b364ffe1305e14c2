/** What the dpc register and its chains keep over whole runs. */
module DpcRuns {
  import opened Basics
  import opened DpcChain
  import opened DpcWallet

  // ---------- single operations ----------

  /**
   With its entries keyed by token id, a failed send leaves the register as it was exactly when
   the id was not also marked spent.
   */
  lemma FailedSendInvisibleIff(key: Key, reg: Register, id: string, receiver: Key, nonce: string, now: int)
    requires id in reg.entries ==> reg.entries[id].tokenId == id
    requires Sent(key, reg, id, receiver, nonce, now).1.Err?
    ensures Sent(key, reg, id, receiver, nonce, now).0 == reg <==> (id in reg.entries ==> id !in reg.spentIds)
  {
    if id in reg.entries {
      var after := Sent(key, reg, id, receiver, nonce, now).0;
      assert after.entries == reg.entries;
      assert id !in after.spentIds;
      if id !in reg.spentIds {
        assert after.spentIds == reg.spentIds;
      }
    }
  }

  /** The same for a failed split, except that a receipt without its token is lost to the spent ids. */
  lemma FailedSplitInvisibleIff(key: Key, reg: Register, id: string, amount: int, receiver: Key, issuerLabel: Key,
                                draw: SplitDraw, now: int)
    requires reg.entries.Keys !! reg.spentIds && (id in reg.entries ==> reg.entries[id].tokenId == id)
    requires Swapped(key, reg, id, amount, receiver, issuerLabel, draw, now).1.Err?
    ensures Swapped(key, reg, id, amount, receiver, issuerLabel, draw, now).0 == reg
      <==> (id in reg.entries ==> reg.entries[id].token.Some?)
  {
    if id in reg.entries {
      var after := Swapped(key, reg, id, amount, receiver, issuerLabel, draw, now).0;
      if reg.entries[id].token.Some? {
        assert after.entries == reg.entries && after.spentIds == reg.spentIds;
      } else {
        assert id !in after.entries;
      }
    }
  }

  /** Such a receipt can be held: the register takes it in, and a split of it fails and loses it. */
  lemma TokenlessReceiptLost(key: Key, r: Receipt, amount: int, receiver: Key, issuerLabel: Key,
                             draw: SplitDraw, now: int)
    requires r.token.None? && AmountOf(r) <= MAX_WALLET_BALANCE
    ensures var empty := Register(map[], {}, {});
      Added(empty, r).Ok? &&
      var held := Added(empty, r).value;
      r.tokenId in held.entries &&
      var (after, result) := Swapped(key, held, r.tokenId, amount, receiver, issuerLabel, draw, now);
      result == Err(WalletState) && r.tokenId !in after.entries && r.tokenId in after.spentIds
  {
  }

  /** A chain that send_token returns validates exactly when the receipt's final hop carries the token's amount. */
  lemma SentChainIntactIff(key: Key, receipt: Receipt, receiver: Key, nonce: string, now: int)
    requires Outgoing(key, receipt, receiver, nonce, now).Ok?
    ensures var (token, chain) := Outgoing(key, receipt, receiver, nonce, now).value;
      Intact(token, chain) <==> receipt.finalHop.payload.amount == token.fields.amount
  {
    var (token, chain) := Outgoing(key, receipt, receiver, nonce, now).value;
    assert Intact(token, receipt.fullChain);
    AppendKeepsIntactIff(token, receipt.fullChain, chain[|chain| - 1]);
  }

  /**
   A successful split: two positive amounts that add up to the original, each on a one-record
   chain, under the original expiry. The new tokens validate exactly when the issuer label is
   the splitter's own key.
   */
  lemma SplitEffect(key: Key, reg: Register, id: string, amount: int, receiver: Key, issuerLabel: Key,
                    draw: SplitDraw, now: int)
    requires Swapped(key, reg, id, amount, receiver, issuerLabel, draw, now).1.Ok?
    ensures id in reg.entries && reg.entries[id].token.Some?
    ensures var (after, r) := Swapped(key, reg, id, amount, receiver, issuerLabel, draw, now);
      var s, original := r.value, reg.entries[id].token.value;
      after == TakenOut(reg, id) &&
      0 < s.payment.fields.amount == amount <= MAX_SINGLE_TX && 0 < s.change.fields.amount <= MAX_SINGLE_TX &&
      s.payment.fields.amount + s.change.fields.amount == original.fields.amount &&
      s.payment.fields.ttlExpiry == s.change.fields.ttlExpiry == original.fields.ttlExpiry &&
      s.paymentChain[|s.paymentChain| - 1].payload.receiver == receiver &&
      s.changeChain[|s.changeChain| - 1].payload.receiver == key &&
      Built(s.payment, s.paymentChain) && Built(s.change, s.changeChain) &&
      (Intact(s.payment, s.paymentChain) <==> issuerLabel == key) &&
      (Intact(s.change, s.changeChain) <==> issuerLabel == key)
  {
    var s := Swapped(key, reg, id, amount, receiver, issuerLabel, draw, now).1.value;
    SplitIntactIff(s.payment, key, s.paymentChain);
    SplitIntactIff(s.change, key, s.changeChain);
  }

  lemma SplitIntactIff(token: Token, key: Key, chain: seq<Record>)
    requires |chain| == 1 && Built(token, chain)
    requires token.issuerSignature == Signed(key, TokenMessage(token.fields))
    ensures Intact(token, chain) <==> token.fields.issuer == key
  {
    BuiltAt(token, chain, 0);
    IntactIff(token, chain);
  }

  // ---------- runs of one wallet ----------

  datatype Event =
    | Receive(token: Token, chain: seq<Record>, at: Reading)
    | Send(id: string, receiver: Key, nonce: string, now: int)
    | Swap(id: string, amount: int, receiver: Key, issuerLabel: Key, draw: SplitDraw, now: int)

  ghost function Step(key: Key, reg: Register, e: Event): Register {
    match e
    case Receive(token, chain, now) =>
      (match Received(key, reg, token, chain, now)
       case Ok(out) => out.0
       case Err(_) => reg)
    case Send(id, receiver, nonce, now) => Sent(key, reg, id, receiver, nonce, now).0
    case Swap(id, amount, receiver, issuerLabel, draw, now) =>
      Swapped(key, reg, id, amount, receiver, issuerLabel, draw, now).0
  }

  ghost function Run(key: Key, reg: Register, events: seq<Event>): Register
    decreases |events|
  {
    if events == [] then reg else Run(key, Step(key, reg, events[0]), events[1..])
  }

  /** A receipt as receive_token makes it. */
  ghost predicate Genuine(key: Key, id: string, r: Receipt) {
    r.tokenId == id && r.token.Some? && r.token.value.fields.tokenId == id && Intact(r.token.value, r.fullChain) &&
    r.fullChain != [] && r.finalHop == r.fullChain[|r.fullChain| - 1] && r.finalHop.payload.receiver == key
  }

  /** The register invariant: spent and unspent apart, receipts genuine, their nonces seen. */
  ghost predicate Sound(key: Key, reg: Register) {
    reg.entries.Keys !! reg.spentIds &&
    forall id :: id in reg.entries ==>
      Genuine(key, id, reg.entries[id]) && Nonces(reg.entries[id].fullChain) <= reg.seenNonces
  }

  /** Every held amount is non-negative and together they respect the cap. */
  ghost predicate WithinCap(reg: Register) {
    (forall id :: id in reg.entries ==> AmountOf(reg.entries[id]) >= 0) && Balance(reg.entries) <= MAX_WALLET_BALANCE
  }

  lemma ReceivedEffect(key: Key, reg: Register, token: Token, chain: seq<Record>, now: Reading)
    requires Received(key, reg, token, chain, now).Ok?
    ensures var (after, r) := Received(key, reg, token, chain, now).value;
      Genuine(key, r.tokenId, r) && r.fullChain == chain && r.token == Some(token) &&
      r.tokenId !in reg.entries && Balance(reg.entries) + AmountOf(r) <= MAX_WALLET_BALANCE &&
      chain[|chain| - 1].payload.nonce !in reg.seenNonces &&
      after == Register(reg.entries[r.tokenId := r], reg.spentIds - {r.tokenId}, reg.seenNonces + Nonces(chain))
  {
    var (after, r) := Received(key, reg, token, chain, now).value;
    IntactIff(token, chain);
    assert LinkedAt(token, chain, |chain| - 1);
    var tip := chain[|chain| - 1].payload.nonce;
    assert tip in Nonces(chain);
    assert r.tokenId !in reg.spentIds ==> tip !in Nonces(chain) * reg.seenNonces;
  }

  lemma StepSound(key: Key, reg: Register, e: Event)
    requires Sound(key, reg)
    ensures Sound(key, Step(key, reg, e))
  {
    hide Intact, IntegrityError, Balance;
    match e
    case Receive(token, chain, now) =>
      if Received(key, reg, token, chain, now).Ok? {
        hide Received;
        ReceivedEffect(key, reg, token, chain, now);
      }
    case Send(id, receiver, nonce, now) =>
    case Swap(id, amount, receiver, issuerLabel, draw, now) =>
  }

  /** The balance stays under the cap as long as no accepted token has a negative amount. */
  lemma StepWithinCap(key: Key, reg: Register, e: Event)
    requires Sound(key, reg) && WithinCap(reg)
    requires e.Receive? ==> e.token.fields.amount >= 0
    ensures WithinCap(Step(key, reg, e))
  {
    hide Intact, IntegrityError, Outgoing, SplitUp, Balance;
    match e
    case Receive(token, chain, now) =>
      if Received(key, reg, token, chain, now).Ok? {
        ReceivedEffect(key, reg, token, chain, now);
        var r := Received(key, reg, token, chain, now).value.1;
        BalancePut(reg.entries, r.tokenId, r);
      }
    case Send(id, receiver, nonce, now) =>
      if id in reg.entries {
        BalanceSplit(reg.entries, id);
        assert Restored(TakenOut(reg, id), reg.entries[id]).entries == reg.entries;
      }
    case Swap(id, amount, receiver, issuerLabel, draw, now) =>
      if id in reg.entries {
        BalanceSplit(reg.entries, id);
        assert Restored(TakenOut(reg, id), reg.entries[id]).entries == reg.entries;
      }
  }

  lemma StepRemembers(key: Key, reg: Register, e: Event)
    requires Sound(key, reg)
    ensures var after := Step(key, reg, e);
      reg.entries.Keys + reg.spentIds <= after.entries.Keys + after.spentIds && reg.seenNonces <= after.seenNonces
  {
    hide Intact, IntegrityError, Outgoing, SplitUp, Balance;
    match e
    case Receive(token, chain, now) =>
      if Received(key, reg, token, chain, now).Ok? {
        ReceivedEffect(key, reg, token, chain, now);
      }
    case Send(id, receiver, nonce, now) =>
    case Swap(id, amount, receiver, issuerLabel, draw, now) =>
  }

  /**
   Any run of receipts, sends and splits: the register stays sound, so spent and unspent never
   overlap and every held nonce is remembered; no id ever accepted is forgotten; and if no
   received token has a negative amount the balance never passes the cap.
   */
  lemma {:induction false} RunKeepsRegister(key: Key, reg: Register, events: seq<Event>)
    requires Sound(key, reg)
    ensures Sound(key, Run(key, reg, events))
    ensures var after := Run(key, reg, events);
      reg.entries.Keys + reg.spentIds <= after.entries.Keys + after.spentIds && reg.seenNonces <= after.seenNonces
    ensures WithinCap(reg) &&
      (forall i :: 0 <= i < |events| && events[i].Receive? ==> events[i].token.fields.amount >= 0)
      ==> WithinCap(Run(key, reg, events))
    decreases |events|
  {
    hide Sound, WithinCap, Step;
    if events == [] {
    } else {
      var next := Step(key, reg, events[0]);
      StepSound(key, reg, events[0]);
      StepRemembers(key, reg, events[0]);
      RunKeepsRegister(key, next, events[1..]);
      if WithinCap(reg) && forall i :: 0 <= i < |events| && events[i].Receive? ==> events[i].token.fields.amount >= 0 {
        StepWithinCap(key, reg, events[0]);
      }
    }
  }

  /** The tip nonces of the receipts a run accepts, in order. */
  ghost function AcceptedTips(key: Key, reg: Register, events: seq<Event>): seq<string>
    decreases |events|
  {
    if events == [] then [] else
      var e := events[0];
      var rest := AcceptedTips(key, Step(key, reg, e), events[1..]);
      if e.Receive? && Received(key, reg, e.token, e.chain, e.at).Ok? && e.chain != []
      then [e.chain[|e.chain| - 1].payload.nonce] + rest
      else rest
  }

  /** No tip nonce is accepted twice, even as tokens leave and come back, nor one seen before the run. */
  lemma {:induction false} TipsAcceptedOnce(key: Key, reg: Register, events: seq<Event>)
    requires Sound(key, reg)
    ensures NoDuplicates(AcceptedTips(key, reg, events))
    ensures forall i :: 0 <= i < |AcceptedTips(key, reg, events)| ==>
      AcceptedTips(key, reg, events)[i] !in reg.seenNonces
    decreases |events|
  {
    hide Sound, Received, Step;
    if events == [] {
    } else {
      var e := events[0];
      var next := Step(key, reg, e);
      var rest := AcceptedTips(key, next, events[1..]);
      StepSound(key, reg, e);
      StepRemembers(key, reg, e);
      TipsAcceptedOnce(key, next, events[1..]);
      if e.Receive? && Received(key, reg, e.token, e.chain, e.at).Ok? && e.chain != [] {
        AcceptedTipSeen(key, reg, e);
        assert forall i :: 0 <= i < |rest| ==> rest[i] !in next.seenNonces;
      }
    }
  }

  lemma AcceptedTipSeen(key: Key, reg: Register, e: Event)
    requires e.Receive? && Received(key, reg, e.token, e.chain, e.at).Ok? && e.chain != []
    ensures e.chain[|e.chain| - 1].payload.nonce !in reg.seenNonces
    ensures e.chain[|e.chain| - 1].payload.nonce in Step(key, reg, e).seenNonces
  {
    ReceivedEffect(key, reg, e.token, e.chain, e.at);
    assert e.chain[|e.chain| - 1].payload.nonce in Nonces(e.chain);
  }

  // ---------- when a send succeeds ----------

  /** Neither before the issuance nor after the expiry */
  ghost predicate InTime(token: Token, now: int) {
    token.fields.issuedAt <= now <= token.fields.ttlExpiry
  }

  /** A token that goes back to a former sender starts over at hop 1. */
  ghost function HopAfter(chain: seq<Record>, receiver: Key): int
    requires chain != []
  {
    if exists i :: 0 <= i < |chain| && chain[i].payload.sender == receiver then 1
    else chain[|chain| - 1].payload.hopIndex + 1
  }

  lemma SoundReceipt(key: Key, reg: Register, id: string)
    requires Sound(key, reg) && id in reg.entries
    ensures var r := reg.entries[id];
      Genuine(key, id, r) && r.finalHop.payload.amount == r.token.value.fields.amount && id !in reg.spentIds
  {
    var r := reg.entries[id];
    assert Genuine(key, id, r);
    IntactIff(r.token.value, r.fullChain);
    assert LinkedAt(r.token.value, r.fullChain, |r.fullChain| - 1);
  }

  /**
   From a sound register a held token is sent on exactly when the clock is between its issuance and its
   expiry, it is worth at most 100 000, and its next hop is at most the seventh. Otherwise the first of
   these that fails is the error, and the register stays as it is.
   */
  lemma SentIff(key: Key, reg: Register, id: string, receiver: Key, nonce: string, now: int)
    requires Sound(key, reg) && id in reg.entries
    ensures var r := reg.entries[id];
      var (after, out) := Sent(key, reg, id, receiver, nonce, now);
      var (timely, small) := (InTime(r.token.value, now), r.token.value.fields.amount <= 100_000);
      var near := HopAfter(r.fullChain, receiver) <= 7;
      (out.Ok? <==> timely && small && near) && (out == Err(TokenExpired) <==> !timely) &&
      (out == Err(TransactionValueCap) <==> timely && !small) &&
      (out == Err(HopLimitExceeded) <==> timely && small && !near) && (out.Err? ==> after == reg)
  {
    var r := reg.entries[id];
    SoundReceipt(key, reg, id);
    if Sent(key, reg, id, receiver, nonce, now).1.Err? {
      FailedSendInvisibleIff(key, reg, id, receiver, nonce, now);
    }
  }

  /**
   A send of a negative token without which the others are worth more than the cap, and that
   nothing stops: the token is not expired and its next hop is within the limit.
   */
  ghost predicate Uncovers(reg: Register, e: Event) {
    e.Send? && e.id in reg.entries &&
    var r := reg.entries[e.id];
    AmountOf(r) < 0 && Balance(reg.entries - {e.id}) > MAX_WALLET_BALANCE &&
    r.token.Some? && InTime(r.token.value, e.now) && r.fullChain != [] && HopAfter(r.fullChain, e.receiver) <= 7
  }

  lemma SendCapIff(key: Key, reg: Register, id: string, receiver: Key, nonce: string, now: int)
    requires Sound(key, reg) && Balance(reg.entries) <= MAX_WALLET_BALANCE
    ensures Balance(Sent(key, reg, id, receiver, nonce, now).0.entries) <= MAX_WALLET_BALANCE <==>
      !Uncovers(reg, Send(id, receiver, nonce, now))
  {
    if id in reg.entries {
      assert Genuine(key, id, reg.entries[id]);
      hide Intact, IntegrityError, Balance, Sound;
      BalanceSplit(reg.entries, id);
      assert Restored(TakenOut(reg, id), reg.entries[id]).entries == reg.entries;
      if AmountOf(reg.entries[id]) < 0 {
        SentIff(key, reg, id, receiver, nonce, now);
      }
    }
  }

  /** A split never breaks the cap: it takes out a token of positive amount, or puts it back. */
  lemma SplitKeepsCap(key: Key, reg: Register, id: string, amount: int, receiver: Key, issuerLabel: Key,
                      draw: SplitDraw, now: int)
    requires Sound(key, reg) && Balance(reg.entries) <= MAX_WALLET_BALANCE
    ensures Balance(Swapped(key, reg, id, amount, receiver, issuerLabel, draw, now).0.entries) <= Balance(reg.entries)
  {
    hide Intact, IntegrityError, Balance;
    if id in reg.entries {
      assert Genuine(key, id, reg.entries[id]);
      BalanceSplit(reg.entries, id);
      assert Restored(TakenOut(reg, id), reg.entries[id]).entries == reg.entries;
    }
  }

  lemma StepCapIff(key: Key, reg: Register, e: Event)
    requires Sound(key, reg) && Balance(reg.entries) <= MAX_WALLET_BALANCE
    ensures Balance(Step(key, reg, e).entries) <= MAX_WALLET_BALANCE <==> !Uncovers(reg, e)
  {
    hide Sound, Sent, Swapped, Balance;
    match e
    case Receive(token, chain, now) =>
      if Received(key, reg, token, chain, now).Ok? {
        ReceivedEffect(key, reg, token, chain, now);
        hide Received;
        var r := Received(key, reg, token, chain, now).value.1;
        BalancePut(reg.entries, r.tokenId, r);
      }
    case Send(id, receiver, nonce, now) =>
      SendCapIff(key, reg, id, receiver, nonce, now);
    case Swap(id, amount, receiver, issuerLabel, draw, now) =>
      SplitKeepsCap(key, reg, id, amount, receiver, issuerLabel, draw, now);
  }

  ghost predicate AlwaysWithinCap(key: Key, reg: Register, events: seq<Event>)
    decreases |events|
  {
    Balance(reg.entries) <= MAX_WALLET_BALANCE &&
    (events == [] || AlwaysWithinCap(key, Step(key, reg, events[0]), events[1..]))
  }

  ghost predicate NeverUncovers(key: Key, reg: Register, events: seq<Event>)
    decreases |events|
  {
    events == [] || (!Uncovers(reg, events[0]) && NeverUncovers(key, Step(key, reg, events[0]), events[1..]))
  }

  /**
   Amounts of either sign: the balance stays under the cap throughout a run exactly when no
   event of it is such a send.
   */
  lemma {:induction false} CapKeptIff(key: Key, reg: Register, events: seq<Event>)
    requires Sound(key, reg) && Balance(reg.entries) <= MAX_WALLET_BALANCE
    ensures AlwaysWithinCap(key, reg, events) <==> NeverUncovers(key, reg, events)
    decreases |events|
  {
    hide Sound, Step, Balance, Uncovers;
    if events == [] {
    } else {
      StepSound(key, reg, events[0]);
      StepCapIff(key, reg, events[0]);
      if !Uncovers(reg, events[0]) {
        CapKeptIff(key, Step(key, reg, events[0]), events[1..]);
      }
    }
  }

  /** A self-issued token of any amount, on the one-record chain that hands it to its receiver. */
  function SelfIssued(issuer: Key, receiver: Key, id: string, amount: int): (Token, seq<Record>) {
    var fields := TokenFields(id, issuer, amount, 0, 0);
    var token := Token(fields, Signed(issuer, TokenMessage(fields)));
    (token, [FirstRecord(token, issuer, receiver, id)])
  }

  lemma SelfIssuedReceived(key: Key, reg: Register, issuer: Key, id: string, amount: int)
    requires id !in reg.entries && id !in reg.spentIds && id !in reg.seenNonces
    requires Balance(reg.entries) + amount <= MAX_WALLET_BALANCE
    ensures var (token, chain) := SelfIssued(issuer, key, id, amount);
      Intact(token, chain) && Received(key, reg, token, chain, Reading(0, 0)).Ok? &&
      var (after, r) := Received(key, reg, token, chain, Reading(0, 0)).value;
      r.token == Some(token) && r.fullChain == chain && r.finalHop == chain[0] &&
      after == Register(reg.entries[id := r], reg.spentIds, reg.seenNonces + {id}) &&
      Balance(after.entries) == Balance(reg.entries) + amount
  {
    var (token, chain) := SelfIssued(issuer, key, id, amount);
    BuiltIsIntact(token, chain);
    assert Nonces(chain) == {id};
    assert reg.spentIds - {id} == reg.spentIds;
    var r := Receipt(id, 0, chain[0], chain, false, Some(token));
    BalancePut(reg.entries, id, r);
  }

  /**
   The cap does need non-negative amounts, which nothing checks: take in a token of -1, then one
   of 1 000 001, then send the first on, and the balance is over the cap.
   */
  lemma NegativeTokenBreaksCap(key: Key, issuer: Key, other: Key)
    ensures var (debt, debtChain) := SelfIssued(issuer, key, "a", -1);
      var (cash, cashChain) := SelfIssued(issuer, key, "b", MAX_WALLET_BALANCE + 1);
      var at := Reading(0, 0);
      var events := [Receive(debt, debtChain, at), Receive(cash, cashChain, at), Send("a", other, "c", 0)];
      Balance(Run(key, Register(map[], {}, {}), events).entries) > MAX_WALLET_BALANCE
  {
    var (debt, debtChain) := SelfIssued(issuer, key, "a", -1);
    var (cash, cashChain) := SelfIssued(issuer, key, "b", MAX_WALLET_BALANCE + 1);
    var at := Reading(0, 0);
    var e1, e2, e3 := Receive(debt, debtChain, at), Receive(cash, cashChain, at), Send("a", other, "c", 0);
    var reg0 := Register(map[], {}, {});
    SelfIssuedReceived(key, reg0, issuer, "a", -1);
    var reg1 := Step(key, reg0, e1);
    SelfIssuedReceived(key, reg1, issuer, "b", MAX_WALLET_BALANCE + 1);
    var reg2 := Step(key, reg1, e2);
    assert reg2.entries["a"].token == Some(debt) && Outgoing(key, reg2.entries["a"], other, "c", 0).Ok?;
    BalanceSplit(reg2.entries, "a");
    var reg3 := Step(key, reg2, e3);
    RunThree(key, reg0, e1, e2, e3);
  }

  lemma RunThree(key: Key, reg: Register, e1: Event, e2: Event, e3: Event)
    ensures Run(key, reg, [e1, e2, e3]) == Step(key, Step(key, Step(key, reg, e1), e2), e3)
  {
    hide Step;
    assert [e1, e2, e3][1..] == [e2, e3] && [e2, e3][1..] == [e3] && [e3][1..] == [];
    var reg1 := Step(key, reg, e1);
    var reg2 := Step(key, reg1, e2);
    assert Run(key, reg2, [e3]) == Run(key, Step(key, reg2, e3), []);
    assert Run(key, reg1, [e2, e3]) == Run(key, reg2, [e3]);
  }

  /** A sound wallet only hands out validated chains, addressed to the receiver it was given. */
  lemma SoundSends(key: Key, reg: Register, id: string, receiver: Key, nonce: string, now: int)
    requires Sound(key, reg) && Sent(key, reg, id, receiver, nonce, now).1.Ok?
    ensures var (token, chain) := Sent(key, reg, id, receiver, nonce, now).1.value;
      Intact(token, chain) && token.fields.tokenId == id && reg.entries[id].fullChain < chain &&
      |chain| == |reg.entries[id].fullChain| + 1 &&
      chain[|chain| - 1].payload.sender == key && chain[|chain| - 1].payload.receiver == receiver
  {
    var (token, chain) := Sent(key, reg, id, receiver, nonce, now).1.value;
    var receipt := reg.entries[id];
    assert Genuine(key, id, receipt);
    SentChainIntactIff(key, receipt, receiver, nonce, now);
    IntactIff(token, receipt.fullChain);
    assert LinkedAt(token, receipt.fullChain, |receipt.fullChain| - 1);
  }

  // ---------- runs of a network: every chain respects the hop limit ----------

  /** Wallets with their keys, and every token and chain that was ever minted, sent or split off. */
  datatype Network = Network(wallets: seq<(Key, Register)>, pool: set<(Token, seq<Record>)>)

  /** New wallets with the given keys, and nothing minted yet */
  function EmptyNetwork(keys: seq<Key>): Network {
    Network(seq(|keys|, i requires 0 <= i < |keys| => (keys[i], Register(map[], {}, {}))), {})
  }

  /** The two tokens of a split, each with its chain */
  function SplitItems(s: Split): set<(Token, seq<Record>)> {
    {(s.payment, s.paymentChain), (s.change, s.changeChain)}
  }

  datatype NetEvent =
    | Mint(issuer: Key, receiver: Key, amount: int, id: string, nonce: string, now: int)
    | Deliver(wallet: nat, item: (Token, seq<Record>), at: Reading)
    | SendFrom(wallet: nat, id: string, receiver: Key, nonce: string, now: int)
    | SwapAt(wallet: nat, id: string, amount: int, receiver: Key, issuerLabel: Key, draw: SplitDraw, now: int)

  ghost function NetStep(net: Network, e: NetEvent): Network {
    match e
    case Mint(issuer, receiver, amount, id, nonce, now) =>
      (match NewlyMinted(issuer, receiver, amount, id, nonce, now)
       case Ok(item) => net.(pool := net.pool + {item})
       case Err(_) => net)
    case Deliver(w, item, now) =>
      if w < |net.wallets| && item in net.pool then
        var (key, reg) := net.wallets[w];
        net.(wallets := net.wallets[w := (key, Step(key, reg, Receive(item.0, item.1, now)))])
      else net
    case SendFrom(w, id, receiver, nonce, now) =>
      if w < |net.wallets| then
        var (key, reg) := net.wallets[w];
        var (reg', out) := Sent(key, reg, id, receiver, nonce, now);
        Network(net.wallets[w := (key, reg')], if out.Ok? then net.pool + {out.value} else net.pool)
      else net
    case SwapAt(w, id, amount, receiver, issuerLabel, draw, now) =>
      if w < |net.wallets| then
        var (key, reg) := net.wallets[w];
        var (reg', out) := Swapped(key, reg, id, amount, receiver, issuerLabel, draw, now);
        Network(net.wallets[w := (key, reg')],
                if out.Ok? then net.pool + SplitItems(out.value) else net.pool)
      else net
  }

  ghost function NetRun(net: Network, events: seq<NetEvent>): Network
    decreases |events|
  {
    if events == [] then net else NetRun(NetStep(net, events[0]), events[1..])
  }

  ghost predicate HoldsBuilt(reg: Register) {
    forall id :: id in reg.entries ==>
      reg.entries[id].token.Some? && Built(reg.entries[id].token.value, reg.entries[id].fullChain)
  }

  ghost predicate NetBuilt(net: Network) {
    (forall item :: item in net.pool ==> Built(item.0, item.1)) &&
    (forall w :: 0 <= w < |net.wallets| ==> Sound(net.wallets[w].0, net.wallets[w].1) && HoldsBuilt(net.wallets[w].1))
  }

  lemma SendBuilds(key: Key, reg: Register, id: string, receiver: Key, nonce: string, now: int)
    requires Sound(key, reg) && HoldsBuilt(reg)
    ensures HoldsBuilt(Sent(key, reg, id, receiver, nonce, now).0)
    ensures Sent(key, reg, id, receiver, nonce, now).1.Ok? ==>
      var (token, chain) := Sent(key, reg, id, receiver, nonce, now).1.value; Built(token, chain)
  {
    hide Built, IntegrityError, Balance;
    if Sent(key, reg, id, receiver, nonce, now).1.Ok? {
      assert Genuine(key, id, reg.entries[id]);
      OutgoingBuilds(key, reg.entries[id], receiver, nonce, now);
    }
  }

  lemma OutgoingBuilds(key: Key, receipt: Receipt, receiver: Key, nonce: string, now: int)
    requires Outgoing(key, receipt, receiver, nonce, now).Ok? && Built(receipt.token.value, receipt.fullChain)
    requires receipt.finalHop == receipt.fullChain[|receipt.fullChain| - 1]
    ensures var (token, chain) := Outgoing(key, receipt, receiver, nonce, now).value; Built(token, chain)
  {
    hide IntegrityError, LinkedAt;
    var (token, chain) := Outgoing(key, receipt, receiver, nonce, now).value;
    var n := |receipt.fullChain|;
    BuiltAt(token, receipt.fullChain, n - 1);
    AmountStays(token, receipt.fullChain, n - 1);
    assert chain[..n] == receipt.fullChain;
  }

  lemma AmountStays(token: Token, records: seq<Record>, i: nat)
    requires i < |records| && LinkedAt(token, records, i)
    ensures records[i].payload.amount == token.fields.amount
  {
  }

  lemma NetStepBuilt(net: Network, e: NetEvent)
    requires NetBuilt(net)
    ensures NetBuilt(NetStep(net, e))
  {
    hide Intact, IntegrityError, Built, Sound, Balance, Added, Outgoing, SplitUp, FirstRecord;
    match e
    case Mint(issuer, receiver, amount, id, nonce, now) =>
      if NewlyMinted(issuer, receiver, amount, id, nonce, now).Ok? {
        MintBuilds(issuer, receiver, amount, id, nonce, now);
      }
    case Deliver(w, item, now) =>
      if w < |net.wallets| && item in net.pool {
        var (key, reg) := net.wallets[w];
        StepSound(key, reg, Receive(item.0, item.1, now));
        if Received(key, reg, item.0, item.1, now).Ok? {
          ReceivedEffect(key, reg, item.0, item.1, now);
        }
      }
    case SendFrom(w, id, receiver, nonce, now) =>
      if w < |net.wallets| {
        var (key, reg) := net.wallets[w];
        StepSound(key, reg, Send(id, receiver, nonce, now));
        SendBuilds(key, reg, id, receiver, nonce, now);
      }
    case SwapAt(w, id, amount, receiver, issuerLabel, draw, now) =>
      if w < |net.wallets| {
        var (key, reg) := net.wallets[w];
        StepSound(key, reg, Swap(id, amount, receiver, issuerLabel, draw, now));
        SwapBuilds(key, reg, id, amount, receiver, issuerLabel, draw, now);
      }
  }

  lemma MintBuilds(issuer: Key, receiver: Key, amount: int, id: string, nonce: string, now: int)
    requires NewlyMinted(issuer, receiver, amount, id, nonce, now).Ok?
    ensures var (token, chain) := NewlyMinted(issuer, receiver, amount, id, nonce, now).value;
      Built(token, chain) && token.IssuerSigned()
  {
  }

  lemma SwapBuilds(key: Key, reg: Register, id: string, amount: int, receiver: Key, issuerLabel: Key,
                   draw: SplitDraw, now: int)
    requires Sound(key, reg) && HoldsBuilt(reg)
    ensures HoldsBuilt(Swapped(key, reg, id, amount, receiver, issuerLabel, draw, now).0)
    ensures Swapped(key, reg, id, amount, receiver, issuerLabel, draw, now).1.Ok? ==>
      var s := Swapped(key, reg, id, amount, receiver, issuerLabel, draw, now).1.value;
      Built(s.payment, s.paymentChain) && Built(s.change, s.changeChain)
  {
    if Swapped(key, reg, id, amount, receiver, issuerLabel, draw, now).1.Ok? {
      SplitEffect(key, reg, id, amount, receiver, issuerLabel, draw, now);
    }
    if id in reg.entries {
      assert reg.entries[id].tokenId == id;
    }
  }

  lemma {:induction false} NetRunBuilt(net: Network, events: seq<NetEvent>)
    requires NetBuilt(net)
    ensures NetBuilt(NetRun(net, events))
    decreases |events|
  {
    hide NetBuilt, NetStep;
    if events == [] {
    } else {
      NetStepBuilt(net, events[0]);
      NetRunBuilt(NetStep(net, events[0]), events[1..]);
    }
  }

  /**
   The hop limit over whole runs of a network that starts empty: in every chain ever minted,
   sent or split off, no record passes the limit; a chain without a return has at most eight
   records; and any eight transfers in a row after the first record include a return.
   */
  lemma HopLimitOverRuns(keys: seq<Key>, events: seq<NetEvent>, item: (Token, seq<Record>))
    requires item in NetRun(EmptyNetwork(keys), events).pool
    ensures forall i :: 0 <= i < |item.1| ==> item.1[i].payload.hopIndex <= MAX_OFFLINE_HOPS
    ensures (forall i :: 0 < i < |item.1| ==> !Returns(item.1, i)) ==> |item.1| <= MAX_OFFLINE_HOPS + 1
    ensures forall a: nat :: ReturnWithinEight(item.1, a)
  {
    NetRunBuilt(EmptyNetwork(keys), events);
    var (token, chain) := item;
    assert Built(token, chain);
    forall i | 0 <= i < |chain|
      ensures chain[i].payload.hopIndex <= MAX_OFFLINE_HOPS
    {
      BuiltAt(token, chain, i);
    }
    if forall i :: 0 < i < |chain| ==> !Returns(chain, i) {
      NoReturnIsShort(token, chain);
    }
    forall a: nat
      ensures ReturnWithinEight(chain, a)
    {
      if 1 <= a && a + MAX_OFFLINE_HOPS < |chain| {
        EightTransfersReturn(token, chain, a);
      }
    }
  }

  /** Eight transfers from position a on, if there are that many after the first record, include a return. */
  ghost predicate ReturnWithinEight(records: seq<Record>, a: nat) {
    1 <= a && a + MAX_OFFLINE_HOPS < |records| ==> exists i :: a <= i <= a + MAX_OFFLINE_HOPS && Returns(records, i)
  }

  // ---------- sender continuity over runs ----------

  ghost predicate HoldsContinuous(reg: Register) {
    forall id :: id in reg.entries ==> Continuous(reg.entries[id].fullChain)
  }

  ghost predicate NetContinuous(net: Network) {
    (forall item :: item in net.pool ==> Continuous(item.1)) &&
    (forall w :: 0 <= w < |net.wallets| ==>
      Sound(net.wallets[w].0, net.wallets[w].1) && HoldsContinuous(net.wallets[w].1))
  }

  lemma SendContinues(key: Key, reg: Register, id: string, receiver: Key, nonce: string, now: int)
    requires Sound(key, reg) && HoldsContinuous(reg)
    ensures HoldsContinuous(Sent(key, reg, id, receiver, nonce, now).0)
    ensures Sent(key, reg, id, receiver, nonce, now).1.Ok? ==>
      Continuous(Sent(key, reg, id, receiver, nonce, now).1.value.1)
  {
    hide IntegrityError, Balance;
    if id in reg.entries {
      assert Genuine(key, id, reg.entries[id]);
    }
  }

  lemma NetStepContinuous(net: Network, e: NetEvent)
    requires NetContinuous(net)
    ensures NetContinuous(NetStep(net, e))
  {
    hide Intact, IntegrityError, Sound, Balance, Added, Outgoing, Sent, NextHop;
    match e
    case Mint(issuer, receiver, amount, id, nonce, now) =>
    case Deliver(w, item, now) =>
      if w < |net.wallets| && item in net.pool {
        var (key, reg) := net.wallets[w];
        StepSound(key, reg, Receive(item.0, item.1, now));
        if Received(key, reg, item.0, item.1, now).Ok? {
          ReceivedEffect(key, reg, item.0, item.1, now);
        }
      }
    case SendFrom(w, id, receiver, nonce, now) =>
      if w < |net.wallets| {
        var (key, reg) := net.wallets[w];
        StepSound(key, reg, Send(id, receiver, nonce, now));
        SendContinues(key, reg, id, receiver, nonce, now);
      }
    case SwapAt(w, id, amount, receiver, issuerLabel, draw, now) =>
      if w < |net.wallets| {
        var (key, reg) := net.wallets[w];
        StepSound(key, reg, Swap(id, amount, receiver, issuerLabel, draw, now));
        SwapContinues(key, reg, id, amount, receiver, issuerLabel, draw, now);
      }
  }

  lemma SwapContinues(key: Key, reg: Register, id: string, amount: int, receiver: Key, issuerLabel: Key,
                      draw: SplitDraw, now: int)
    requires Sound(key, reg) && HoldsContinuous(reg)
    ensures HoldsContinuous(Swapped(key, reg, id, amount, receiver, issuerLabel, draw, now).0)
    ensures Swapped(key, reg, id, amount, receiver, issuerLabel, draw, now).1.Ok? ==>
      var s := Swapped(key, reg, id, amount, receiver, issuerLabel, draw, now).1.value;
      Continuous(s.paymentChain) && Continuous(s.changeChain)
  {
    hide IntegrityError, Balance;
    if id in reg.entries {
      assert Genuine(key, id, reg.entries[id]);
    }
  }

  lemma {:induction false} NetRunContinuous(net: Network, events: seq<NetEvent>)
    requires NetContinuous(net)
    ensures NetContinuous(NetRun(net, events))
    decreases |events|
  {
    hide NetContinuous, NetStep;
    if events == [] {
    } else {
      NetStepContinuous(net, events[0]);
      NetRunContinuous(NetStep(net, events[0]), events[1..]);
    }
  }

  /**
   What validate_integrity does not check, the wallets keep: over whole runs of a network that
   starts empty, in every chain ever minted, sent or split off each sender is the last receiver.
   */
  lemma ContinuousOverRuns(keys: seq<Key>, events: seq<NetEvent>, item: (Token, seq<Record>))
    requires item in NetRun(EmptyNetwork(keys), events).pool
    ensures Continuous(item.1)
  {
    NetRunContinuous(EmptyNetwork(keys), events);
  }
}
