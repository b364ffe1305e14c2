/**
 When the dpc wallet sends, splits and takes in a token (dpc/wallet.py:37-253), in numbers, and what brings a
 token home to a wallet that sent it on.
 */
module DpcTransfers {
  import opened Basics
  import opened DpcChain
  import opened DpcWallet
  import opened DpcRuns

  // ---------- expiry and first records ----------

  /** A clock that was set back is an error, not an expiry. */
  lemma ExpiredIff(token: Token, now: int)
    ensures token.Expired(now) == Ok(false) <==> InTime(token, now)
    ensures token.Expired(now) == Ok(true) <==> now >= token.fields.issuedAt && now > token.fields.ttlExpiry
    ensures token.Expired(now) == Err(TokenExpired) <==> now < token.fields.issuedAt
  {
  }

  /**
   A mint issues positive amounts up to 100 000, for a week: a signed token on one record from the
   issuer to the receiver, which validates and which the receiver can hand on for as long.
   */
  lemma MintedIff(issuer: Key, receiver: Key, amount: int, id: string, nonce: string, now: int)
    ensures var r := NewlyMinted(issuer, receiver, amount, id, nonce, now);
      (r.Ok? <==> 0 < amount <= 100_000) && (r.Err? ==> r.error == TransactionValueCap) &&
      (r.Ok? ==>
        var (token, chain) := r.value;
        token.fields.tokenId == id && token.fields.issuer == issuer && token.fields.amount == amount &&
        |chain| == 1 && chain[0].payload == Payload(id, 0, issuer, receiver, amount, nonce) && Intact(token, chain) &&
        forall later :: InTime(token, later) <==> now <= later <= now + 604_800)
  {
    if 0 < amount <= MAX_SINGLE_TX {
      var (token, chain) := NewlyMinted(issuer, receiver, amount, id, nonce, now).value;
      BuiltIsIntact(token, chain);
    }
  }

  // ---------- sending ----------

  /** A send that works adds one signed record, linked to the last, and moves the id to the spent ones. */
  lemma SentRecord(key: Key, reg: Register, id: string, receiver: Key, nonce: string, now: int)
    requires Sound(key, reg) && Sent(key, reg, id, receiver, nonce, now).1.Ok?
    ensures id in reg.entries
    ensures var r := reg.entries[id];
      var (after, out) := Sent(key, reg, id, receiver, nonce, now);
      var payload := Payload(id, HopAfter(r.fullChain, receiver), key, receiver, r.token.value.fields.amount, nonce);
      out.value.0 == r.token.value &&
      out.value.1 == r.fullChain + [SignedRecord(payload, r.fullChain[|r.fullChain| - 1].chainHash)] &&
      after == Register(reg.entries - {id}, reg.spentIds + {id}, reg.seenNonces)
  {
    SoundReceipt(key, reg, id);
  }

  /**
   The same for any register, whatever it holds: the token must be there, in time, its final hop worth at
   most 100 000, its chain validated, and the next hop at most the seventh, and in this order.
   */
  lemma AnySentIff(key: Key, reg: Register, id: string, receiver: Key, nonce: string, now: int)
    requires id in reg.entries && reg.entries[id].token.Some?
    ensures var (r, out) := (reg.entries[id], Sent(key, reg, id, receiver, nonce, now).1);
      var (timely, small) := (InTime(r.token.value, now), r.finalHop.payload.amount <= 100_000);
      var intact := Intact(r.token.value, r.fullChain);
      var near := r.fullChain != [] && HopAfter(r.fullChain, receiver) <= 7;
      (out.Ok? <==> timely && small && intact && near) && (out == Err(TokenExpired) <==> !timely) &&
      (out == Err(TransactionValueCap) <==> timely && !small) &&
      (timely && small && !intact ==> Some(out.error) == IntegrityError(r.token.value, r.fullChain)) &&
      (timely && small && intact && !near ==> out == Err(HopLimitExceeded))
  {
    var r := reg.entries[id];
    IntactIff(r.token.value, r.fullChain);
    IntegrityReason(r.token.value, r.fullChain);
    ExpiredIff(r.token.value, now);
    hide IntegrityError, LinkedAt, BadSignatureAt;
  }

  /** An id that is not held, and a receipt without its token, can be neither sent nor split. */
  lemma NothingToSend(key: Key, reg: Register, id: string, receiver: Key, nonce: string, now: int, amount: int,
                      issuerLabel: Key, draw: SplitDraw)
    requires id in reg.entries ==> reg.entries[id].token.None? && reg.entries[id].tokenId == id && id !in reg.spentIds
    ensures Sent(key, reg, id, receiver, nonce, now) == (reg, Err(WalletState))
    ensures var (after, out) := Swapped(key, reg, id, amount, receiver, issuerLabel, draw, now);
      out == Err(WalletState) && after == if id in reg.entries then TakenOut(reg, id) else reg
  {
    if id in reg.entries {
      FailedSendInvisibleIff(key, reg, id, receiver, nonce, now);
    }
  }

  // ---------- splitting ----------

  /**
   A held receipt with its token is split exactly when both parts are positive and at most 100 000.
   Each part is a new token issued now, under the drawn id and the given label, signed with the
   splitter's key, on one record under the drawn nonce.
   */
  lemma SplitIff(key: Key, reg: Register, id: string, amount: int, receiver: Key, issuerLabel: Key, draw: SplitDraw,
                 now: int)
    requires id in reg.entries && reg.entries[id].token.Some?
    ensures var (original, out) := (reg.entries[id].token.value.fields,
                                    Swapped(key, reg, id, amount, receiver, issuerLabel, draw, now).1);
      var proper := 0 < amount < original.amount;
      var small := amount <= 100_000 && original.amount - amount <= 100_000;
      (out.Ok? <==> proper && small) && (out == Err(InsufficientFunds) <==> !proper) &&
      (out == Err(TransactionValueCap) <==> proper && !small) &&
      (out.Ok? ==>
        SplitPart(key, issuerLabel, draw.paymentId, amount, now, original.ttlExpiry, receiver, draw.paymentNonce,
                  out.value.payment, out.value.paymentChain) &&
        SplitPart(key, issuerLabel, draw.changeId, original.amount - amount, now, original.ttlExpiry, key,
                  draw.changeNonce, out.value.change, out.value.changeChain))
  {
  }

  /** One part of a split: a token issued now, signed with the splitter's key, on its way to the receiver */
  ghost predicate SplitPart(key: Key, issuerLabel: Key, id: string, amount: int, now: int, ttlExpiry: int,
                            receiver: Key, nonce: string, token: Token, chain: seq<Record>) {
    token.fields == TokenFields(id, issuerLabel, amount, now, ttlExpiry) &&
    token.issuerSignature == Signed(key, TokenMessage(token.fields)) &&
    |chain| == 1 && chain[0].payload == Payload(id, 0, key, receiver, amount, nonce) &&
    chain[0].prevHash == Genesis && chain[0].SignedBySender()
  }

  // ---------- taking in ----------

  /** A returning token is new by its last nonce, any other token by all of them. */
  ghost predicate NewTo(reg: Register, id: string, chain: seq<Record>)
    requires chain != []
  {
    if id in reg.spentIds then chain[|chain| - 1].payload.nonce !in reg.seenNonces
    else forall i :: 0 <= i < |chain| ==> chain[i].payload.nonce !in reg.seenNonces
  }

  ghost function WorthOf(r: Receipt): int {
    match r.token
    case Some(token) => token.fields.amount
    case None => r.finalHop.payload.amount
  }

  /**
   A receipt is added exactly when its id is not held, its chain is new and it fits under the cap of
   1 000 000; a returning receipt needs a chain at all. The first of these that fails is the error.
   */
  lemma AddedIff(reg: Register, r: Receipt)
    ensures var out := Added(reg, r);
      var (held, returning) := (r.tokenId in reg.entries, r.tokenId in reg.spentIds);
      var chained := r.fullChain != [] || !returning;
      var unseen := r.fullChain != [] ==> NewTo(reg, r.tokenId, r.fullChain);
      var fits := Balance(reg.entries) + WorthOf(r) <= 1_000_000;
      (out.Ok? <==> !held && chained && unseen && fits) && (out == Err(IndexError) <==> !held && !chained) &&
      (out == Err(DoubleSpend) <==> held || !unseen) &&
      (out == Err(WalletBalanceCap) <==> !held && chained && unseen && !fits)
  {
    var chain := r.fullChain;
    if i :| 0 <= i < |chain| && chain[i].payload.nonce in reg.seenNonces {
      assert chain[i].payload.nonce in Nonces(chain) * reg.seenNonces;
    }
    if nonce :| nonce in Nonces(chain) * reg.seenNonces {
      var i :| 0 <= i < |chain| && chain[i].payload.nonce == nonce;
    }
    hide Balance;
  }

  /**
   A token is accepted exactly when the clock is between its issuance and its expiry, its chain
   validates and ends with this key, its id is not held, its chain is new to the wallet and it fits
   under the cap. The first of these that fails is the error. A copied chain under a new id is not new.
   */
  lemma ReceivedIff(key: Key, reg: Register, token: Token, chain: seq<Record>, now: Reading)
    ensures var (out, id) := (Received(key, reg, token, chain, now), token.fields.tokenId);
      var (timely, intact) := (InTime(token, now.checkedAt), Intact(token, chain));
      var mine := chain != [] && chain[|chain| - 1].payload.receiver == key;
      var unseen := id !in reg.entries && chain != [] && NewTo(reg, id, chain);
      var fits := Balance(reg.entries) + token.fields.amount <= 1_000_000;
      (out.Ok? <==> timely && intact && mine && unseen && fits) && (out == Err(TokenExpired) <==> !timely) &&
      (out == Err(WalletState) <==> timely && intact && !mine) &&
      (out == Err(DoubleSpend) <==> timely && intact && mine && !unseen) &&
      (out == Err(WalletBalanceCap) <==> timely && intact && mine && unseen && !fits)
  {
    ExpiredIff(token, now.checkedAt);
    IntegrityReason(token, chain);
    hide IntegrityError, Added, Balance, NewTo, Nonces;
    IntactIff(token, chain);
    if InTime(token, now.checkedAt) && Intact(token, chain) && chain[|chain| - 1].payload.receiver == key {
      AddedIff(reg, Receipt(token.fields.tokenId, now.receivedAt, chain[|chain| - 1], chain, false, Some(token)));
    }
  }

  /** What the wallet keeps of an accepted token */
  lemma ReceivedRecord(key: Key, reg: Register, token: Token, chain: seq<Record>, now: Reading)
    requires Received(key, reg, token, chain, now).Ok?
    ensures var (id, (after, r)) := (token.fields.tokenId, Received(key, reg, token, chain, now).value);
      chain != [] && r == Receipt(id, now.receivedAt, chain[|chain| - 1], chain, false, Some(token)) &&
      after == Register(reg.entries[id := r], reg.spentIds - {id}, reg.seenNonces + Nonces(chain))
  {
  }

  // ---------- why a chain is refused ----------

  /** Record i is as it should be, but for its signature. */
  ghost predicate LinkedUnsigned(token: Token, records: seq<Record>, i: nat)
    requires i < |records|
  {
    var r := records[i];
    r.payload.tokenId == token.fields.tokenId && r.payload.amount == token.fields.amount &&
    r.prevHash == (if i == 0 then Genesis else records[i - 1].chainHash) &&
    r.chainHash == Sha256(r.payload, r.prevHash) &&
    (if i == 0 then r.payload.hopIndex == 0
     else r.payload.hopIndex == records[i - 1].payload.hopIndex + 1 || r.payload.hopIndex == 1)
  }

  /** Record i is the first that is not as it should be, and only its signature is wrong. */
  ghost predicate BadSignatureAt(token: Token, records: seq<Record>, n: nat, i: nat)
    requires n <= |records|
  {
    i < n && LinkedUnsigned(token, records, i) &&
    records[i].signature != Signed(records[i].payload.sender, LinkMessage(records[i].chainHash)) &&
    forall j :: 0 <= j < i ==> LinkedAt(token, records, j)
  }

  /** A record after one that is not as it should be is not the first. */
  lemma NotTheFirst(token: Token, records: seq<Record>, n: nat, m: nat, k: nat)
    requires k < m <= n <= |records| && !LinkedAt(token, records, k)
    ensures (exists i: nat :: BadSignatureAt(token, records, n, i)) <==>
      exists i: nat :: BadSignatureAt(token, records, m, i)
  {
    forall i: nat
      ensures BadSignatureAt(token, records, n, i) <==> BadSignatureAt(token, records, m, i)
    {
      hide LinkedAt, LinkedUnsigned;
    }
    hide BadSignatureAt;
  }

  lemma {:induction false} FirstErrorReason(token: Token, records: seq<Record>, n: nat)
    requires n <= |records|
    ensures FirstError(token, records, n) == Some(SignatureVerification) <==>
      exists i: nat :: BadSignatureAt(token, records, n, i)
    ensures FirstError(token, records, n).Some? ==>
      FirstError(token, records, n).value in {SignatureVerification, ChainIntegrity}
  {
    if n == 0 {
    } else {
      FirstErrorReason(token, records, n - 1);
      FirstErrorNoneIff(token, records, n - 1);
      if FirstError(token, records, n - 1).None? {
        forall i: nat | i < n - 1
          ensures !BadSignatureAt(token, records, n, i)
        {
          assert LinkedAt(token, records, i);
        }
        assert RecordError(token, records, n - 1) == Some(SignatureVerification) <==>
          BadSignatureAt(token, records, n, n - 1);
      } else {
        var k: nat :| k < n - 1 && !LinkedAt(token, records, k);
        NotTheFirst(token, records, n, n - 1, k);
        hide RecordError, LinkedAt, LinkedUnsigned, BadSignatureAt;
        assert FirstError(token, records, n) == FirstError(token, records, n - 1);
      }
    }
  }

  /**
   The reason a chain is refused: a signature, the issuer's or that of the first record that is not as
   it should be; the hop index of the last record; anything else about the chain.
   */
  lemma IntegrityReason(token: Token, records: seq<Record>)
    ensures var e := IntegrityError(token, records);
      var signed := token.issuerSignature == Signed(token.fields.issuer, TokenMessage(token.fields));
      var far := records != [] && records[|records| - 1].payload.hopIndex > 7;
      (e == Some(HopLimitExceeded) <==> signed && far) &&
      (e == Some(SignatureVerification) <==>
        !signed || (records != [] && !far && exists i: nat :: BadSignatureAt(token, records, |records|, i))) &&
      (e.Some? ==> e.value in {SignatureVerification, ChainIntegrity, HopLimitExceeded})
  {
    FirstErrorReason(token, records, |records|);
    hide FirstError, BadSignatureAt;
  }

  // ---------- a token comes home ----------

  /** Chains of two records or more come from validated tokens, and no amount is over 100 000. */
  ghost predicate NetSigned(net: Network) {
    (forall item :: item in net.pool ==>
      item.0.fields.amount <= 100_000 && (|item.1| >= 2 ==> item.0.IssuerSigned())) &&
    forall w, id :: 0 <= w < |net.wallets| && id in net.wallets[w].1.entries ==>
      AmountOf(net.wallets[w].1.entries[id]) <= 100_000
  }

  lemma NetStepSigned(net: Network, e: NetEvent)
    requires NetBuilt(net) && NetSigned(net)
    ensures NetSigned(NetStep(net, e))
  {
    hide Intact, IntegrityError, Built, Sound, Balance, HoldsBuilt, Added, Outgoing, SplitUp, FirstRecord;
    match e
    case Mint(issuer, receiver, amount, id, nonce, now) =>
    case Deliver(w, item, at) =>
      if w < |net.wallets| && item in net.pool {
        var (key, reg) := net.wallets[w];
        if Received(key, reg, item.0, item.1, at).Ok? {
          ReceivedRecord(key, reg, item.0, item.1, at);
        }
      }
    case SendFrom(w, id, receiver, nonce, now) =>
      if w < |net.wallets| && Sent(net.wallets[w].0, net.wallets[w].1, id, receiver, nonce, now).1.Ok? {
        var (key, reg) := net.wallets[w];
        SentRecord(key, reg, id, receiver, nonce, now);
        SoundSigned(key, reg, id);
      }
    case SwapAt(w, id, amount, receiver, issuerLabel, draw, now) =>
      if w < |net.wallets| {
        var (key, reg) := net.wallets[w];
        SplitLeaves(key, reg, id, amount, receiver, issuerLabel, draw, now);
      }
  }

  /** What a split leaves in the register was there before, and its parts are small tokens on one record. */
  lemma SplitLeaves(key: Key, reg: Register, id: string, amount: int, receiver: Key, issuerLabel: Key, draw: SplitDraw,
                    now: int)
    requires Sound(key, reg)
    ensures var (after, out) := Swapped(key, reg, id, amount, receiver, issuerLabel, draw, now);
      (forall held :: held in after.entries ==> held in reg.entries && after.entries[held] == reg.entries[held]) &&
      (out.Ok? ==> forall item :: item in SplitItems(out.value) ==> item.0.fields.amount <= 100_000 && |item.1| == 1)
  {
    if id in reg.entries {
      SoundReceipt(key, reg, id);
      SplitIff(key, reg, id, amount, receiver, issuerLabel, draw, now);
    }
  }

  lemma SoundSigned(key: Key, reg: Register, id: string)
    requires Sound(key, reg) && id in reg.entries
    ensures reg.entries[id].token.Some? && reg.entries[id].token.value.IssuerSigned()
  {
    SoundReceipt(key, reg, id);
    IntactIff(reg.entries[id].token.value, reg.entries[id].fullChain);
  }

  lemma {:induction false} NetRunSigned(net: Network, events: seq<NetEvent>)
    requires NetBuilt(net) && NetSigned(net)
    ensures NetBuilt(NetRun(net, events)) && NetSigned(NetRun(net, events))
    decreases |events|
  {
    hide NetBuilt, NetSigned, NetStep;
    if events == [] {
    } else {
      NetStepBuilt(net, events[0]);
      NetStepSigned(net, events[0]);
      NetRunSigned(NetStep(net, events[0]), events[1..]);
    }
  }

  lemma EmptySigned(keys: seq<Key>)
    ensures NetBuilt(EmptyNetwork(keys)) && NetSigned(EmptyNetwork(keys))
  {
  }

  /** Nothing is lost from the pool, and wallets keep their keys. */
  lemma {:induction false} RunKeepsPool(net: Network, events: seq<NetEvent>)
    ensures var late := NetRun(net, events);
      net.pool <= late.pool && |late.wallets| == |net.wallets| &&
      forall w :: 0 <= w < |net.wallets| ==> late.wallets[w].0 == net.wallets[w].0
    decreases |events|
  {
    hide Step, Sent, Swapped, NewlyMinted;
    if events == [] {
    } else {
      RunKeepsPool(NetStep(net, events[0]), events[1..]);
    }
  }

  /** Wallet w counts the token of this id as spent. */
  ghost predicate GaveAway(net: Network, w: nat, id: string) {
    w < |net.wallets| && id in net.wallets[w].1.spentIds
  }

  /** The chain is under way to wallet w, its last nonce is new there and its amount fits under the cap of 1 000 000. */
  ghost predicate RoomFor(net: Network, w: nat, token: Token, chain: seq<Record>) {
    w < |net.wallets| && chain != [] && chain[|chain| - 1].payload.receiver == net.wallets[w].0 &&
    chain[|chain| - 1].payload.nonce !in net.wallets[w].1.seenNonces &&
    Balance(net.wallets[w].1.entries) + token.fields.amount <= 1_000_000
  }

  /** The wallet holds the token on this chain and does not count it as spent. */
  ghost predicate Holds(net: Network, w: nat, token: Token, chain: seq<Record>) {
    w < |net.wallets| &&
    var (id, reg) := (token.fields.tokenId, net.wallets[w].1);
    id in reg.entries && reg.entries[id].token == Some(token) && reg.entries[id].fullChain == chain &&
    id !in reg.spentIds
  }

  /**
   After any run from empty wallets: a token that changed hands and that the wallet gave away earlier
   is taken in again when it is delivered before it expires, if its last nonce is new and it fits.
   */
  lemma GivenAwayIsTakenBack(keys: seq<Key>, events: seq<NetEvent>, w: nat, item: (Token, seq<Record>), at: Reading)
    requires var net := NetRun(EmptyNetwork(keys), events);
      item in net.pool && |item.1| >= 2 && GaveAway(net, w, item.0.fields.tokenId) &&
      RoomFor(net, w, item.0, item.1) && InTime(item.0, at.checkedAt)
    ensures Holds(NetStep(NetRun(EmptyNetwork(keys), events), Deliver(w, item, at)), w, item.0, item.1)
  {
    EmptySigned(keys);
    NetRunSigned(EmptyNetwork(keys), events);
    hide NetRun;
    var net := NetRun(EmptyNetwork(keys), events);
    var (key, reg) := net.wallets[w];
    BuiltIsIntact(item.0, item.1);
    ReceivedIff(key, reg, item.0, item.1, at);
    ReceivedRecord(key, reg, item.0, item.1, at);
  }

  /** The chain that sending the held token to the receiver makes when it goes back to a former sender */
  ghost function SentBackChain(net: Network, v: nat, id: string, receiver: Key, nonce: string): seq<Record>
    requires v < |net.wallets| && id in net.wallets[v].1.entries && net.wallets[v].1.entries[id].fullChain != []
  {
    var r := net.wallets[v].1.entries[id];
    var payload := Payload(id, 1, net.wallets[v].0, receiver, AmountOf(r), nonce);
    r.fullChain + [SignedRecord(payload, r.fullChain[|r.fullChain| - 1].chainHash)]
  }

  lemma BackToSender(chain: seq<Record>, receiver: Key)
    requires chain != [] && receiver in Senders(chain)
    ensures HopAfter(chain, receiver) == 1
  {
  }

  /** The held token can be sent back to the receiver, a former sender, now. */
  ghost predicate CanGoBack(net: Network, v: nat, id: string, receiver: Key, now: int) {
    v < |net.wallets| && id in net.wallets[v].1.entries &&
    var r := net.wallets[v].1.entries[id];
    r.token.Some? && r.fullChain != [] && InTime(r.token.value, now) && receiver in Senders(r.fullChain)
  }

  lemma SendBack(net: Network, v: nat, id: string, receiver: Key, nonce: string, now: int)
    requires NetBuilt(net) && NetSigned(net) && CanGoBack(net, v, id, receiver, now)
    ensures var token := net.wallets[v].1.entries[id].token.value;
      var sent := NetStep(net, SendFrom(v, id, receiver, nonce, now));
      GaveAway(sent, v, id) && token.fields.tokenId == id &&
      sent.pool == net.pool + {(token, SentBackChain(net, v, id, receiver, nonce))}
  {
    hide HoldsBuilt, Built, Intact, Balance, InTime, Sent, HopAfter, Senders, SignedRecord;
    var (key, reg) := net.wallets[v];
    assert Sound(key, reg);
    hide Sound;
    SoundReceipt(key, reg, id);
    SentIff(key, reg, id, receiver, nonce, now);
    BackToSender(reg.entries[id].fullChain, receiver);
    SentRecord(key, reg, id, receiver, nonce, now);
  }

  /**
   Going back never fails for hops or amount: over any run from empty wallets, a held token can be
   sent to any of its former senders until it expires.
   */
  lemma SendingBackWorks(keys: seq<Key>, events: seq<NetEvent>, v: nat, id: string, receiver: Key, nonce: string,
                         now: int)
    requires CanGoBack(NetRun(EmptyNetwork(keys), events), v, id, receiver, now)
    ensures var net := NetRun(EmptyNetwork(keys), events);
      var token := net.wallets[v].1.entries[id].token.value;
      var sent := NetStep(net, SendFrom(v, id, receiver, nonce, now));
      GaveAway(sent, v, id) && sent.pool == net.pool + {(token, SentBackChain(net, v, id, receiver, nonce))}
  {
    EmptySigned(keys);
    NetRunSigned(EmptyNetwork(keys), events);
    SendBack(NetRun(EmptyNetwork(keys), events), v, id, receiver, nonce, now);
    hide NetRun, NetStep, NetBuilt, NetSigned;
  }

  /**
   Home again, over runs. After any run a wallet holds a token that another wallet gave away; it sends
   it back before the expiry. Whatever happens in between, when the new chain is delivered the other
   wallet holds the token again, as long as it does not hold it already, the nonce is new to it, there
   is room and the expiry is not past.
   */
  lemma TokensComeHome(keys: seq<Key>, before: seq<NetEvent>, v: nat, w: nat, id: string, nonce: string, sentAt: int,
                       between: seq<NetEvent>, at: Reading)
    requires var net := NetRun(EmptyNetwork(keys), before);
      w < |net.wallets| && CanGoBack(net, v, id, net.wallets[w].0, sentAt) &&
      var token := net.wallets[v].1.entries[id].token.value;
      var chain := SentBackChain(net, v, id, net.wallets[w].0, nonce);
      var late := NetRun(NetStep(net, SendFrom(v, id, net.wallets[w].0, nonce, sentAt)), between);
      GaveAway(late, w, id) && RoomFor(late, w, token, chain) && InTime(token, at.checkedAt)
    ensures var net := NetRun(EmptyNetwork(keys), before);
      var token := net.wallets[v].1.entries[id].token.value;
      var chain := SentBackChain(net, v, id, net.wallets[w].0, nonce);
      var late := NetRun(NetStep(net, SendFrom(v, id, net.wallets[w].0, nonce, sentAt)), between);
      Holds(NetStep(late, Deliver(w, (token, chain), at)), w, token, chain)
  {
    EmptySigned(keys);
    NetRunSigned(EmptyNetwork(keys), before);
    var net := NetRun(EmptyNetwork(keys), before);
    var receiver := net.wallets[w].0;
    var e := SendFrom(v, id, receiver, nonce, sentAt);
    SendBack(net, v, id, receiver, nonce, sentAt);
    RunKeepsPool(NetStep(net, e), between);
    RunsJoin(EmptyNetwork(keys), before, [e] + between);
    RunFirst(net, e, between);
    hide NetRun, NetStep, NetBuilt, NetSigned, CanGoBack, GaveAway, RoomFor, Holds, InTime;
    GivenAwayIsTakenBack(keys, before + ([e] + between), w,
                         (net.wallets[v].1.entries[id].token.value, SentBackChain(net, v, id, receiver, nonce)), at);
  }

  lemma RunFirst(net: Network, e: NetEvent, events: seq<NetEvent>)
    ensures NetRun(net, [e] + events) == NetRun(NetStep(net, e), events)
  {
    assert ([e] + events)[1..] == events;
  }

  lemma {:induction false} RunsJoin(net: Network, a: seq<NetEvent>, b: seq<NetEvent>)
    ensures NetRun(net, a + b) == NetRun(NetRun(net, a), b)
    decreases |a|
  {
    hide NetStep;
    if a == [] {
      assert a + b == b;
    } else {
      assert (a + b)[1..] == a[1..] + b;
      RunsJoin(NetStep(net, a[0]), a[1..], b);
    }
  }
}
