/** The wallet and payment session objects (wallet/wallet.py, protocol/payment_session.py). */
module Wallets {
  import opened Basics
  import opened Dicts
  import opened Subsets
  import opened Selection
  import opened Tokens
  import opened CoinSearch
  import opened WalletModel

  ghost function Objects(d: Dict<Token>): set<Token> {
    set i | 0 <= i < |d| :: d[i].1
  }

  /** A register of token objects, read as values. */
  ghost function Contents(d: Dict<Token>): (c: Register)
    reads Objects(d)
    ensures |c| == |d|
    ensures forall i :: 0 <= i < |d| ==> c[i] == (d[i].0, d[i].1.Data())
  {
    seq(|d|, i requires 0 <= i < |d| reads Objects(d) => (d[i].0, d[i].1.Data()))
  }

  function IdsOfObjects(tokens: seq<Token>): (ids: seq<string>)
    ensures |ids| == |tokens|
  {
    seq(|tokens|, i requires 0 <= i < |tokens| => tokens[i].tokenId)
  }

  function PayloadsOf(tokens: seq<TokenData>): (ps: seq<Payload>)
    ensures |ps| == |tokens|
  {
    seq(|tokens|, i requires 0 <= i < |tokens| => ToPayload(tokens[i]))
  }

  /** The objects at the given positions of a register */
  function TokensAt(d: Dict<Token>, positions: seq<nat>): (ts: seq<Token>)
    requires forall i :: 0 <= i < |positions| ==> positions[i] < |d|
    ensures |ts| == |positions|
  {
    seq(|positions|, i requires 0 <= i < |positions| => d[positions[i]].1)
  }

  function Serialized(sent: Result<seq<TokenData>, WalletError>): Result<seq<Payload>, WalletError> {
    match sent
    case Ok(tokens) => Ok(PayloadsOf(tokens))
    case Err(e) => Err(e)
  }

  lemma {:induction false} SameKeysSameIndex<U, V>(d: Dict<U>, e: Dict<V>, k: string)
    requires |d| == |e| && forall i :: 0 <= i < |d| ==> d[i].0 == e[i].0
    ensures IndexOf(d, k) == IndexOf(e, k)
  {
    if d == [] || d[0].0 == k {
    } else {
      SameKeysSameIndex(d[1..], e[1..], k);
    }
  }

  lemma ContentsPop(d: Dict<Token>, k: string)
    ensures Objects(Pop(d, k)) <= Objects(d)
    ensures Contents(Pop(d, k)) == Pop(Contents(d), k)
  {
    SameKeysSameIndex(d, Contents(d), k);
  }

  lemma ContentsPut(d: Dict<Token>, k: string, t: Token)
    ensures Objects(Put(d, k, t)) <= Objects(d) + {t}
    ensures Contents(Put(d, k, t)) == Put(Contents(d), k, t.Data())
  {
    SameKeysSameIndex(d, Contents(d), k);
  }

  lemma SameHas(d: Dict<Token>, k: string)
    ensures Has(Contents(d), k) <==> Has(d, k)
    ensures Has(d, k) ==> Get(Contents(d), k) == Get(d, k).Data()
  {
    SameKeysSameIndex(d, Contents(d), k);
  }

  lemma SpentIff(d: Dict<Token>, k: string)
    ensures Has(d, k) <==> k in Keys(Contents(d))
  {
    HasKey(Contents(d), k);
    SameHas(d, k);
  }

  lemma PopShape(d: Dict<Token>, k: string)
    requires DistinctKeys(d) && Has(d, k) && forall i :: 0 <= i < |d| ==> d[i].0 == d[i].1.tokenId
    ensures DistinctKeys(Pop(d, k)) && forall i :: 0 <= i < |Pop(d, k)| ==> Pop(d, k)[i].0 == Pop(d, k)[i].1.tokenId
    ensures Get(d, k).tokenId == k && Get(d, k) in Objects(d) && Get(d, k) !in Objects(Pop(d, k))
  {
    PopEffect(d, k);
  }

  /** copy.deepcopy of a register */
  method DeepCopyRegister(d: Dict<Token>) returns (copy: Dict<Token>)
    ensures fresh(Objects(copy))
    ensures Contents(copy) == Contents(d)
    ensures |copy| == |d| && forall i :: 0 <= i < |d| ==> copy[i].0 == d[i].0 && copy[i].1.tokenId == d[i].1.tokenId
  {
    copy := [];
    for n := 0 to |d|
      invariant |copy| == n && forall i :: 0 <= i < n ==> fresh(copy[i].1)
      invariant forall i :: 0 <= i < n ==> copy[i].0 == d[i].0 && copy[i].1.Data() == d[i].1.Data()
    {
      var token := d[n].1.DeepCopy();
      copy := copy + [(d[n].0, token)];
    }
  }

  /** Registers keyed by token id; no token object is both spendable and spent. */
  ghost predicate WellFormed(utr: Dict<Token>, spent: Dict<Token>) {
    DistinctKeys(utr) && DistinctKeys(spent) &&
    (forall i :: 0 <= i < |utr| ==> utr[i].0 == utr[i].1.tokenId) &&
    Objects(utr) !! Objects(spent)
  }

  class Wallet {
    const ownerPk: Key
    const keystore: map<Key, SecretKey>
    var utr: Dict<Token>
    var spent: Dict<Token>
    ghost var Repr: set<Token>

    constructor (ownerPk: Key, keystore: map<Key, SecretKey>)
      ensures Valid() && Data() == WalletData(ownerPk, keystore, [], [])
    {
      this.ownerPk, this.keystore := ownerPk, keystore;
      utr, spent, Repr := [], [], {};
    }

    ghost predicate Valid()
      reads this
    {
      WellFormed(utr, spent) && Objects(utr) <= Repr && Objects(spent) <= Repr
    }

    ghost function Data(): (w: WalletData)
      requires Valid()
      reads this, Repr
      ensures w.ownerPk == ownerPk && w.keys == keystore
    {
      WalletData(ownerPk, keystore, Contents(utr), Contents(spent))
    }

    /** Deep copies of both registers */
    method Snapshot() returns (u: Dict<Token>, s: Dict<Token>, ghost copies: set<Token>)
      requires Valid()
      ensures fresh(copies) && Objects(u) <= copies && Objects(s) <= copies && WellFormed(u, s)
      ensures Contents(u) == Data().utr && Contents(s) == Data().spent
    {
      u := DeepCopyRegister(utr);
      s := DeepCopyRegister(spent);
      copies := Objects(u) + Objects(s);
    }

    /** Give the wallet other registers */
    method Restore(u: Dict<Token>, s: Dict<Token>, ghost copies: set<Token>)
      requires WellFormed(u, s) && Objects(u) <= copies && Objects(s) <= copies
      modifies this
      ensures utr == u && spent == s && Repr == copies && Valid()
      ensures Data() == WalletData(ownerPk, keystore, Contents(u), Contents(s))
    {
      utr, spent, Repr := u, s, copies;
    }

    method AddToken(token: Token) returns (r: Result<(), WalletError>)
      requires Valid()
      modifies this
      ensures Valid() && fresh(Repr - old(Repr))
      ensures WalletModel.AddToken(old(Data()), old(token.Data())).Err? ==>
        r == Err(WalletModel.AddToken(old(Data()), old(token.Data())).error) && Data() == old(Data())
      ensures WalletModel.AddToken(old(Data()), old(token.Data())).Ok? ==>
        r.Ok? && Data() == WalletModel.AddToken(old(Data()), old(token.Data())).value
    {
      hide ValidChain, Put, WellFormed, Contents;
      if token.ownerPk != ownerPk {
        return Err(NotOwned);
      }
      var valid := token.ValidateChain(token.issuerPk);
      if !valid {
        return Err(InvalidChain);
      }
      var copy := token.DeepCopy();
      assert Data() == old(Data());
      Take(copy);
      return Ok(());
    }

    /** The token becomes spendable under its id, in place of one it held under that id. */
    method Take(token: Token)
      requires Valid() && token !in Repr
      modifies this`utr, this`Repr
      ensures Valid() && Repr == old(Repr) + {token}
      ensures Data() == old(Data()).(utr := Put(old(Data()).utr, token.tokenId, token.Data()))
    {
      hide Put, IndexOf, Mapping;
      ContentsPut(utr, token.tokenId, token);
      PutShape(utr, token.tokenId, token);
      utr := Put(utr, token.tokenId, token);
      Repr := Repr + {token};
    }

    method SelectTokens(amount: int) returns (r: Result<seq<Token>, WalletError>)
      requires Valid()
      ensures WalletModel.SelectTokens(Data(), amount).Err? ==> r == Err(WalletModel.SelectTokens(Data(), amount).error)
      ensures WalletModel.SelectTokens(Data(), amount).Ok? ==>
        r == Ok(TokensAt(utr, WalletModel.SelectTokens(Data(), amount).value))
    {
      hide Order, BestMask, WellFormed;
      var values := seq(|utr|, i requires 0 <= i < |utr| reads this, Objects(utr) => utr[i].1.value);
      assert Data().utr == Contents(utr) && values == TokenValues(Data().utr);
      if amount < 0 {
        return Err(BadSelection(NegativeAmount));
      }
      if amount == 0 {
        return Ok([]);
      }
      var order := Order(values);
      var tokens := TokensAt(utr, order);
      assert ValuesOfObjects(tokens) == At(values, order);
      var exact := FindExactTokenSubset(tokens, amount);
      assert Data() == old(Data());
      if exact.Some? {
        ghost var m := BestMask(At(values, order), amount).value;
        PickedFrom(order, m);
        PickTokensAt(utr, order, m);
        return Ok(exact.value);
      }
      var prefix := CoverFromSmallest(tokens, amount);
      assert Data() == old(Data());
      if prefix.None? {
        assert Select(values, amount) == Err(InsufficientFunds);
        return Err(BadSelection(InsufficientFunds));
      }
      assert prefix.value == TokensAt(utr, order[..|prefix.value|]);
      return Ok(prefix.value);
    }

    /** One round of the loop of send_tokens: the token is extended in place, and a copy of it kept as spent. */
    method SendOne(tokenId: string, senderSk: SecretKey, receiverPk: Key, stamp: Stamp) returns (payload: Payload)
      requires Valid() && Has(utr, tokenId) && Has(Data().utr, tokenId)
      modifies this, Repr
      ensures Valid() && fresh(Repr - old(Repr))
      ensures var w := old(Data());
        var t := Get(w.utr, tokenId).Appended(senderSk, receiverPk, stamp);
        payload == ToPayload(t) && Data() == w.(utr := Pop(w.utr, tokenId), spent := Put(w.spent, t.tokenId, t))
    {
      hide Put, Pop, ToPayload, Get, TokenData.Appended, WellFormed;
      var token := TakeOut(tokenId);
      ghost var w := Data();
      var _ := token.AppendTransfer(senderSk, receiverPk, stamp);
      assert Data() == w;
      var copy := token.DeepCopy();
      assert Data() == w;
      Keep(copy);
      payload := ToPayload(token.Data());
    }

    /** The token stops being spendable and is handed to the caller, as the same object. */
    method TakeOut(tokenId: string) returns (token: Token)
      requires Valid() && Has(utr, tokenId) && Has(Data().utr, tokenId)
      modifies this`utr
      ensures Valid() && token in Repr && token !in Objects(utr) && token !in Objects(spent)
      ensures token.Data() == Get(old(Data()).utr, tokenId) && token.tokenId == tokenId
      ensures Data() == old(Data()).(utr := Pop(old(Data()).utr, tokenId))
    {
      hide Put, Pop, Get;
      SameHas(utr, tokenId);
      token := Get(utr, tokenId);
      PopShape(utr, tokenId);
      ContentsPop(utr, tokenId);
      utr := Pop(utr, tokenId);
    }

    /** The token is recorded as spent under its id. */
    method Keep(token: Token)
      requires Valid() && token !in Repr
      modifies this`spent, this`Repr
      ensures Valid() && Repr == old(Repr) + {token}
      ensures Data() == old(Data()).(spent := Put(old(Data()).spent, token.tokenId, token.Data()))
    {
      hide Put;
      ContentsPut(spent, token.tokenId, token);
      PutEffect(spent, token.tokenId, token);
      spent := Put(spent, token.tokenId, token);
      Repr := Repr + {token};
    }

    method SendTokens(receiverPk: Key, tokens: seq<Token>, clock: Clock) returns (r: Result<seq<Payload>, WalletError>)
      requires Valid()
      modifies this, Repr
      ensures Valid() && fresh(Repr - old(Repr))
      ensures var out := WalletModel.SendTokens(old(Data()), receiverPk, IdsOfObjects(tokens), clock);
        Data() == out.0 && r == Serialized(out.1)
    {
      hide Put, Pop, IndexOf, ToPayload, Has, Get;
      hide Contents, TokenData.Appended, WellFormed, SendEach, Objects, DistinctKeys;
      if ownerPk !in keystore {
        return Err(MissingKey);
      }
      var senderSk := keystore[ownerPk];
      var payloads: seq<Payload> := [];
      ghost var ids := IdsOfObjects(tokens);
      ghost var before := Data();
      ghost var sent: seq<TokenData> := [];
      SendNothing(before, senderSk, receiverPk, clock);
      for n := 0 to |tokens|
        invariant Valid() && fresh(Repr - old(Repr))
        invariant SendEach(before, senderSk, receiverPk, ids[..n], clock) == (Data(), Ok(sent))
        invariant payloads == PayloadsOf(sent)
      {
        var id := tokens[n].tokenId;
        assert ids[..n + 1][..n] == ids[..n] && ids[..n + 1][n] == id;
        SameHas(utr, id);
        SendNext(before, senderSk, receiverPk, ids[..n + 1], clock, Data(), sent);
        if !Has(utr, id) {
          SendStops(before, senderSk, receiverPk, ids, clock, n + 1);
          return Err(TokenUnavailable(id));
        }
        sent := sent + [Get(Data().utr, id).Appended(senderSk, receiverPk, clock(n))];
        var payload := SendOne(id, senderSk, receiverPk, clock(n));
        payloads := payloads + [payload];
      }
      assert ids[..|tokens|] == ids;
      return Ok(payloads);
    }

    method InitiatePayment(price: int, receiverPk: Key, clock: Clock) returns (r: Result<seq<Payload>, WalletError>)
      requires Valid()
      modifies this, Repr
      ensures Valid() && fresh(Repr - old(Repr))
      ensures WalletModel.SelectTokens(old(Data()), price).Err? ==>
        Data() == old(Data()) && r == Err(WalletModel.SelectTokens(old(Data()), price).error)
      ensures WalletModel.SelectTokens(old(Data()), price).Ok? ==>
        var ids := IdsAt(old(Data()).utr, WalletModel.SelectTokens(old(Data()), price).value);
        var out := WalletModel.SendTokens(old(Data()), receiverPk, ids, clock);
        Data() == out.0 && r == Serialized(out.1)
    {
      hide WalletModel.SelectTokens, WalletModel.SendTokens, Contents, WellFormed;
      var tokens :- SelectTokens(price);
      assert Data() == old(Data());
      TokenIdsAt(this, WalletModel.SelectTokens(Data(), price).value);
      r := SendTokens(receiverPk, tokens, clock);
    }

    method ProcessPayment(values: seq<int>, price: int) returns (r: Result<seq<Token>, WalletError>)
      requires Valid()
      ensures WalletModel.ProcessPayment(Data(), values, price).Err? ==>
        r == Err(WalletModel.ProcessPayment(Data(), values, price).error)
      ensures WalletModel.ProcessPayment(Data(), values, price).Ok? ==>
        r == Ok(TokensAt(utr, WalletModel.ProcessPayment(Data(), values, price).value))
    {
      hide WalletModel.SelectTokens;
      var total := Sum(values);
      if total < price {
        return Err(Underpaid);
      }
      r := SelectTokens(total - price);
    }

    method ReceiveToken(payload: Payload) returns (ok: bool)
      requires Valid()
      modifies this
      ensures Valid() && fresh(Repr - old(Repr))
      ensures ok <==> WalletModel.ReceiveToken(old(Data()), payload).Some?
      ensures Data() == if ok then WalletModel.ReceiveToken(old(Data()), payload).value else old(Data())
    {
      hide ValidChain, Put, IndexOf, Mapping, FromPayload, WellFormed, Contents, Objects, Has, DistinctKeys;
      var utrBefore, spentBefore, copies := Snapshot();
      assert Data() == old(Data());
      var parsed := FromPayload(payload);
      if parsed.Some? {
        var token := new Token(parsed.value);
        if token.ownerPk == ownerPk {
          var valid := token.ValidateChain(token.issuerPk);
          SpentIff(spent, token.tokenId);
          assert Data() == old(Data());
          if valid && !Has(spent, token.tokenId) {
            Take(token);
            return true;
          }
        }
      }
      Restore(utrBefore, spentBefore, copies);
      return false;
    }

    method Sync(settled: seq<string>)
      requires Valid()
      modifies this`spent
      ensures Valid()
      ensures Data() == WalletModel.Sync(old(Data()), settled)
    {
      hide Pop, IndexOf, Mapping;
      for n := 0 to |settled|
        invariant Valid()
        invariant Data() == WalletModel.Sync(old(Data()), settled[..n])
      {
        assert settled[..n + 1][..n] == settled[..n];
        ContentsPop(spent, settled[n]);
        PopEffect(spent, settled[n]);
        spent := Pop(spent, settled[n]);
      }
      assert settled[..|settled|] == settled;
    }
  }

  /** The receiver chooses change for what it was paid and sends it. */
  method SendChange(w: Wallet, inbound: seq<int>, price: int, takerPk: Key, clock: Clock)
    returns (r: Result<seq<Payload>, WalletError>)
    requires w.Valid()
    modifies w, w.Repr
    ensures w.Valid() && fresh(w.Repr - old(w.Repr))
    ensures WalletModel.ProcessPayment(old(w.Data()), inbound, price).Err? ==>
      w.Data() == old(w.Data()) && r == Err(WalletModel.ProcessPayment(old(w.Data()), inbound, price).error)
    ensures WalletModel.ProcessPayment(old(w.Data()), inbound, price).Ok? ==>
      var ids := IdsAt(old(w.Data()).utr, WalletModel.ProcessPayment(old(w.Data()), inbound, price).value);
      var out := WalletModel.SendTokens(old(w.Data()), takerPk, ids, clock);
      w.Data() == out.0 && r == Serialized(out.1)
  {
    hide WalletModel.ProcessPayment, WalletModel.SendTokens, Contents, WellFormed;
    var change :- w.ProcessPayment(inbound, price);
    assert w.Data() == old(w.Data());
    TokenIdsAt(w, WalletModel.ProcessPayment(w.Data(), inbound, price).value);
    r := w.SendTokens(takerPk, change, clock);
  }

  lemma TokenIdsAt(w: Wallet, positions: seq<nat>)
    requires w.Valid() && forall i :: 0 <= i < |positions| ==> positions[i] < |w.utr|
    ensures IdsOfObjects(TokensAt(w.utr, positions)) == IdsAt(w.Data().utr, positions)
  {
  }

  /** Every payload received in turn, until one is refused. */
  method ReceivePayloads(taker: Wallet, payloads: seq<Payload>, ghost tokens: seq<TokenData>) returns (ok: bool)
    requires taker.Valid() && payloads == PayloadsOf(tokens)
    modifies taker
    ensures taker.Valid() && fresh(taker.Repr - old(taker.Repr))
    ensures ok <==> ReceiveEach(old(taker.Data()), tokens).Some?
    ensures ok ==> taker.Data() == ReceiveEach(old(taker.Data()), tokens).value
  {
    hide Accept, FromPayload, ToPayload, Contents, WellFormed;
    for n := 0 to |payloads|
      invariant taker.Valid() && fresh(taker.Repr - old(taker.Repr))
      invariant ReceiveEach(old(taker.Data()), tokens[..n]) == Some(taker.Data())
    {
      assert tokens[..n + 1][..n] == tokens[..n] && tokens[..n + 1][n] == tokens[n];
      PayloadRoundTrip(tokens[n]);
      var received := taker.ReceiveToken(payloads[n]);
      if !received {
        ReceiveStops(old(taker.Data()), tokens, n + 1);
        return false;
      }
    }
    assert tokens[..|payloads|] == tokens;
    return true;
  }

  class PaymentSession {
    const sender: Wallet
    const receiver: Wallet
    const price: int

    constructor (sender: Wallet, receiver: Wallet, price: int)
      ensures this.sender == sender && this.receiver == receiver && this.price == price
    {
      this.sender, this.receiver, this.price := sender, receiver, price;
    }

    /** Two wallets that share no token object. */
    ghost predicate Valid()
      reads this, sender, receiver
    {
      sender != receiver && sender.Valid() && receiver.Valid() && sender.Repr !! receiver.Repr
    }

    /** What both stages leave intact: the wallets stay apart, and hold only old and new token objects. */
    twostate predicate Apart()
      reads this, sender, receiver
    {
      Valid() && fresh(sender.Repr - old(sender.Repr)) && fresh(receiver.Repr - old(receiver.Repr))
    }

    /** The sender sends, the receiver receives. */
    method PayStage(payClock: Clock) returns (r: Result<seq<Payload>, WalletError>)
      requires Valid()
      modifies sender, receiver, sender.Repr
      ensures Apart()
      ensures var pay := Move(old(sender.Data()), old(receiver.Data()), price, payClock, ReceiverRejected);
        (pay.Err? ==> r == Err(pay.error)) &&
        (pay.Ok? ==>
          r == Ok(PayloadsOf(pay.value.tokens)) &&
          sender.Data() == pay.value.giver && receiver.Data() == pay.value.taker)
    {
      hide WalletModel.SelectTokens, WalletModel.SendTokens, ReceiveEach, Contents, WellFormed, Objects;
      ghost var s, t := sender.Data(), receiver.Data();
      ghost var chosen := WalletModel.SelectTokens(s, price);
      ghost var ids := if chosen.Ok? then IdsAt(s.utr, chosen.value) else [];
      ghost var sent := WalletModel.SendTokens(s, t.ownerPk, ids, payClock).1;
      var payments :- sender.InitiatePayment(price, receiver.ownerPk, payClock);
      assert receiver.Data() == t;
      var accepted := ReceivePayloads(receiver, payments, sent.value);
      if !accepted {
        return Err(ReceiverRejected);
      }
      return Ok(payments);
    }

    /** The receiver works out the change and sends it, the sender receives it. */
    method ChangeStage(payments: seq<Payload>, changeClock: Clock,
                       ghost pay: Moved) returns (r: Result<seq<Payload>, WalletError>)
      requires Valid() && sender.Data() == pay.giver && receiver.Data() == pay.taker &&
        payments == PayloadsOf(pay.tokens)
      modifies sender, receiver, receiver.Repr
      ensures Apart()
      ensures (Change(pay, price, changeClock).Err? ==> r == Err(Change(pay, price, changeClock).error)) &&
        (Change(pay, price, changeClock).Ok? ==>
          r == Ok(PayloadsOf(Change(pay, price, changeClock).value.changes)) &&
          sender.Data() == Change(pay, price, changeClock).value.sender &&
          receiver.Data() == Change(pay, price, changeClock).value.receiver)
    {
      hide WalletModel.SelectTokens, WalletModel.SendTokens, ReceiveEach, Contents, WellFormed, Objects, IdsAt;
      var inbound := seq(|payments|, i requires 0 <= i < |payments| => payments[i].value);
      assert inbound == ValuesOf(pay.tokens);
      ghost var chosen := WalletModel.ProcessPayment(pay.taker, inbound, price);
      ghost var ids := if chosen.Ok? then IdsAt(pay.taker.utr, chosen.value) else [];
      ghost var sent := WalletModel.SendTokens(pay.taker, pay.giver.ownerPk, ids, changeClock).1;
      var changes :- SendChange(receiver, inbound, price, sender.ownerPk, changeClock);
      assert sender.Data() == pay.giver;
      var accepted := ReceivePayloads(sender, changes, sent.value);
      if !accepted {
        return Err(SenderRejected);
      }
      return Ok(changes);
    }

    /** The body of the try block: on an error the wallets may be left half way. */
    method Attempt(payClock: Clock, changeClock: Clock) returns (r: Result<(seq<Payload>, seq<Payload>), WalletError>)
      requires Valid()
      modifies sender, receiver, sender.Repr, receiver.Repr
      ensures Valid()
      ensures var session := Session(old(sender.Data()), old(receiver.Data()), price, payClock, changeClock);
        (session.Err? ==> r == Err(session.error)) &&
        (session.Ok? ==>
          r == Ok((PayloadsOf(session.value.payments), PayloadsOf(session.value.changes))) &&
          sender.Data() == session.value.sender && receiver.Data() == session.value.receiver)
    {
      hide Move, Contents, WellFormed, PayloadsOf;
      ghost var pay := Move(sender.Data(), receiver.Data(), price, payClock, ReceiverRejected);
      var payments :- PayStage(payClock);
      var changes :- ChangeStage(payments, changeClock, pay.value);
      return Ok((payments, changes));
    }

    /** The whole session: on an error both wallets get the copies taken at the start back. */
    method Execute(payClock: Clock, changeClock: Clock) returns (r: Result<(seq<Payload>, seq<Payload>), WalletError>)
      requires Valid()
      modifies sender, receiver, sender.Repr, receiver.Repr
      ensures Valid()
      ensures var session := Session(old(sender.Data()), old(receiver.Data()), price, payClock, changeClock);
        (session.Err? ==>
          r == Err(session.error) &&
          sender.Data() == old(sender.Data()) && receiver.Data() == old(receiver.Data())) &&
        (session.Ok? ==>
          r == Ok((PayloadsOf(session.value.payments), PayloadsOf(session.value.changes))) &&
          sender.Data() == session.value.sender && receiver.Data() == session.value.receiver)
    {
      hide Session, Contents, WellFormed, PayloadsOf, Objects, Mapping, DistinctKeys;
      ghost var s, t := sender.Data(), receiver.Data();
      var senderUtr, senderSpent, senderCopies := sender.Snapshot();
      var receiverUtr, receiverSpent, receiverCopies := receiver.Snapshot();
      assert sender.Data() == s && receiver.Data() == t;
      r := Attempt(payClock, changeClock);
      if r.Err? {
        RollBack(senderUtr, senderSpent, senderCopies, receiverUtr, receiverSpent, receiverCopies, s, t);
      }
    }

    /** The except block: both wallets get their copies back. */
    method RollBack(senderUtr: Dict<Token>, senderSpent: Dict<Token>, ghost senderCopies: set<Token>,
                    receiverUtr: Dict<Token>, receiverSpent: Dict<Token>, ghost receiverCopies: set<Token>,
                    ghost s: WalletData, ghost t: WalletData)
      requires sender != receiver && senderCopies !! receiverCopies
      requires WellFormed(senderUtr, senderSpent)
      requires Objects(senderUtr) <= senderCopies && Objects(senderSpent) <= senderCopies
      requires WellFormed(receiverUtr, receiverSpent)
      requires Objects(receiverUtr) <= receiverCopies && Objects(receiverSpent) <= receiverCopies
      requires s == WalletData(sender.ownerPk, sender.keystore, Contents(senderUtr), Contents(senderSpent))
      requires t == WalletData(receiver.ownerPk, receiver.keystore, Contents(receiverUtr), Contents(receiverSpent))
      modifies sender, receiver
      ensures Valid() && sender.Data() == s && receiver.Data() == t
    {
      hide Contents, WellFormed, Objects;
      sender.Restore(senderUtr, senderSpent, senderCopies);
      receiver.Restore(receiverUtr, receiverSpent, receiverCopies);
    }
  }

  lemma {:induction false} PickTokensAt(d: Dict<Token>, order: seq<nat>, m: seq<bool>)
    requires |m| == |order| && forall i :: 0 <= i < |order| ==> order[i] < |d|
    ensures forall i :: 0 <= i < |Pick<nat>(order, m)| ==> Pick<nat>(order, m)[i] < |d|
    ensures Pick(TokensAt(d, order), m) == TokensAt(d, Pick<nat>(order, m))
  {
    if order == [] {
    } else {
      PickTokensAt(d, order[1..], m[1..]);
      assert TokensAt(d, order)[1..] == TokensAt(d, order[1..]);
    }
  }

  lemma PutShape(d: Dict<Token>, k: string, t: Token)
    requires DistinctKeys(d) && t.tokenId == k && forall i :: 0 <= i < |d| ==> d[i].0 == d[i].1.tokenId
    ensures DistinctKeys(Put(d, k, t)) && forall i :: 0 <= i < |Put(d, k, t)| ==>
      Put(d, k, t)[i].0 == Put(d, k, t)[i].1.tokenId
  {
    PutEffect(d, k, t);
  }
}
