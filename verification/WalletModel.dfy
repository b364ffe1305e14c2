/**
 Wallet contents and payment sessions as values (wallet/wallet.py, protocol/payment_session.py).
 The methods of the wallet objects are proved to compute these functions.
 */
module WalletModel {
  import opened Basics
  import opened Dicts
  import opened Tokens
  import opened Selection

  type Register = Dict<TokenData>

  /** The k-th new transfer draws clock(k). */
  type Clock = nat -> Stamp

  datatype WalletData = WalletData(ownerPk: Key, keys: map<Key, SecretKey>, utr: Register, spent: Register)

  datatype WalletError =
    | NotOwned | InvalidChain
    | BadSelection(reason: SelectError)
    | MissingKey | TokenUnavailable(tokenId: string)
    | Underpaid | ReceiverRejected | SenderRejected

  function TokenValues(d: Register): (vs: seq<int>)
    ensures |vs| == |d|
  {
    seq(|d|, i requires 0 <= i < |d| => d[i].1.value)
  }

  function Worth(d: Register): int {
    Sum(TokenValues(d))
  }

  function ValuesOf(tokens: seq<TokenData>): (vs: seq<int>)
    ensures |vs| == |tokens|
  {
    seq(|tokens|, i requires 0 <= i < |tokens| => tokens[i].value)
  }

  function IdsOf(tokens: seq<TokenData>): (ids: seq<string>)
    ensures |ids| == |tokens|
  {
    seq(|tokens|, i requires 0 <= i < |tokens| => tokens[i].tokenId)
  }

  // ---------- wallet operations ----------

  function AddToken(w: WalletData, t: TokenData): Result<WalletData, WalletError> {
    if t.ownerPk != w.ownerPk then Err(NotOwned)
    else if !ValidChain(t) then Err(InvalidChain)
    else Ok(w.(utr := Put(w.utr, t.tokenId, t)))
  }

  /** The register positions select_tokens returns. */
  function SelectTokens(w: WalletData, amount: int): (r: Result<seq<nat>, WalletError>)
    ensures r.Ok? ==> forall i :: 0 <= i < |r.value| ==> r.value[i] < |w.utr|
  {
    match Select(TokenValues(w.utr), amount)
    case Ok(c) => Ok(c)
    case Err(e) => Err(BadSelection(e))
  }

  /** The keys found at the given positions */
  function IdsAt(d: Register, positions: seq<nat>): (ids: seq<string>)
    requires forall i :: 0 <= i < |positions| ==> positions[i] < |d|
    ensures |ids| == |positions|
  {
    seq(|positions|, i requires 0 <= i < |positions| => d[positions[i]].0)
  }

  /** The loop of send_tokens: an unavailable token ends it and leaves the earlier ones sent. */
  function SendEach(w: WalletData, sk: SecretKey, receiverPk: Key, ids: seq<string>, clock: Clock)
    : (r: (WalletData, Result<seq<TokenData>, WalletError>))
    ensures r.0.ownerPk == w.ownerPk && r.0.keys == w.keys
    decreases |ids|
  {
    if ids == [] then (w, Ok([])) else
      var n := |ids| - 1;
      var (before, sent) := SendEach(w, sk, receiverPk, ids[..n], clock);
      if sent.Err? then (before, sent)
      else if !Has(before.utr, ids[n]) then (before, Err(TokenUnavailable(ids[n])))
      else
        var t := Get(before.utr, ids[n]).Appended(sk, receiverPk, clock(n));
        (before.(utr := Pop(before.utr, ids[n]), spent := Put(before.spent, t.tokenId, t)), Ok(sent.value + [t]))
  }

  function SendTokens(w: WalletData, receiverPk: Key, ids: seq<string>, clock: Clock)
    : (WalletData, Result<seq<TokenData>, WalletError>)
  {
    if w.ownerPk !in w.keys then (w, Err(MissingKey))
    else SendEach(w, w.keys[w.ownerPk], receiverPk, ids, clock)
  }

  /** What receive_token checks before it takes a token. */
  predicate Acceptable(ownerPk: Key, spent: Register, t: TokenData) {
    t.ownerPk == ownerPk && ValidChain(t) && t.tokenId !in Keys(spent)
  }

  function Accept(w: WalletData, t: TokenData): Option<WalletData> {
    if Acceptable(w.ownerPk, w.spent, t) then Some(w.(utr := Put(w.utr, t.tokenId, t))) else None
  }

  function ReceiveToken(w: WalletData, p: Payload): Option<WalletData> {
    match FromPayload(p)
    case None => None
    case Some(t) => Accept(w, t)
  }

  /** Receiving the payloads of the given tokens one by one, until one is refused. */
  function ReceiveEach(w: WalletData, tokens: seq<TokenData>): (r: Option<WalletData>)
    ensures r.Some? ==> r.value.ownerPk == w.ownerPk && r.value.keys == w.keys && r.value.spent == w.spent
    decreases |tokens|
  {
    if tokens == [] then Some(w) else
      match ReceiveEach(w, tokens[..|tokens| - 1])
      case None => None
      case Some(before) => Accept(before, tokens[|tokens| - 1])
  }

  /** process_payment: the positions of the change tokens */
  function ProcessPayment(w: WalletData, values: seq<int>, price: int): (r: Result<seq<nat>, WalletError>)
    ensures r.Ok? ==> forall i :: 0 <= i < |r.value| ==> r.value[i] < |w.utr|
  {
    if Sum(values) < price then Err(Underpaid) else SelectTokens(w, Sum(values) - price)
  }

  function Sync(w: WalletData, settled: seq<string>): WalletData
    decreases |settled|
  {
    if settled == [] then w
    else
      var before := Sync(w, settled[..|settled| - 1]);
      before.(spent := Pop(before.spent, settled[|settled| - 1]))
  }

  // ---------- the payment session ----------

  /** Tokens that changed hands, and both wallets afterwards. */
  datatype Moved = Moved(giver: WalletData, taker: WalletData, tokens: seq<TokenData>)

  /** One direction of a session: choose tokens for an amount, send them, have every one received. */
  function Move(giver: WalletData, taker: WalletData, amount: int, clock: Clock, refused: WalletError)
    : Result<Moved, WalletError>
  {
    match SelectTokens(giver, amount)
    case Err(e) => Err(e)
    case Ok(chosen) =>
      var sent := SendTokens(giver, taker.ownerPk, IdsAt(giver.utr, chosen), clock);
      match sent.1
      case Err(e) => Err(e)
      case Ok(tokens) =>
        match ReceiveEach(taker, tokens)
        case None => Err(refused)
        case Some(taker') => Ok(Moved(sent.0, taker', tokens))
  }

  datatype Outcome = Outcome(
    sender: WalletData, receiver: WalletData, payments: seq<TokenData>, changes: seq<TokenData>)

  /** What execute does when nothing fails; on an error both wallets keep their contents. */
  function Session(s: WalletData, r: WalletData, price: int, payClock: Clock, changeClock: Clock)
    : Result<Outcome, WalletError>
  {
    match Move(s, r, price, payClock, ReceiverRejected)
    case Err(e) => Err(e)
    case Ok(pay) => Change(pay, price, changeClock)
  }

  /** The second half of a session: the receiver hands back what it was paid over the price. */
  function Change(pay: Moved, price: int, changeClock: Clock): Result<Outcome, WalletError> {
    var total := Sum(ValuesOf(pay.tokens));
    if total < price then Err(Underpaid) else
      match Move(pay.taker, pay.giver, total - price, changeClock, SenderRejected)
      case Err(e) => Err(e)
      case Ok(back) => Ok(Outcome(back.taker, back.giver, pay.tokens, back.tokens))
  }

  lemma SendNothing(w: WalletData, sk: SecretKey, receiverPk: Key, clock: Clock)
    ensures SendEach(w, sk, receiverPk, [], clock) == (w, Ok([]))
  {
  }

  /** One more token, after the ones before it were sent. */
  lemma SendNext(w: WalletData, sk: SecretKey, receiverPk: Key, ids: seq<string>, clock: Clock,
                 before: WalletData, sent: seq<TokenData>)
    requires ids != [] && SendEach(w, sk, receiverPk, ids[..|ids| - 1], clock) == (before, Ok(sent))
    ensures var n := |ids| - 1;
      if !Has(before.utr, ids[n])
      then SendEach(w, sk, receiverPk, ids, clock) == (before, Err(TokenUnavailable(ids[n])))
      else
        var t := Get(before.utr, ids[n]).Appended(sk, receiverPk, clock(n));
        SendEach(w, sk, receiverPk, ids, clock) ==
        (before.(utr := Pop(before.utr, ids[n]), spent := Put(before.spent, t.tokenId, t)), Ok(sent + [t]))
  {
    hide Pop, Put, Has, Get, TokenData.Appended;
  }

  /** The first token that cannot be sent decides the result. */
  lemma {:induction false} SendStops(w: WalletData, sk: SecretKey, receiverPk: Key, ids: seq<string>,
                                     clock: Clock, n: nat)
    requires n <= |ids| && SendEach(w, sk, receiverPk, ids[..n], clock).1.Err?
    ensures SendEach(w, sk, receiverPk, ids, clock) == SendEach(w, sk, receiverPk, ids[..n], clock)
    decreases |ids|
  {
    if n == |ids| {
      assert ids[..n] == ids;
    } else {
      var front := ids[..|ids| - 1];
      assert front[..n] == ids[..n];
      SendStops(w, sk, receiverPk, front, clock, n);
    }
  }

  lemma {:induction false} ReceiveStops(w: WalletData, tokens: seq<TokenData>, n: nat)
    requires n <= |tokens| && ReceiveEach(w, tokens[..n]).None?
    ensures ReceiveEach(w, tokens).None?
    decreases |tokens|
  {
    if n == |tokens| {
      assert tokens[..n] == tokens;
    } else {
      var front := tokens[..|tokens| - 1];
      assert front[..n] == tokens[..n];
      ReceiveStops(w, front, n);
    }
  }

  // ---------- effects on registers ----------

  lemma PutWorth(d: Register, t: TokenData)
    requires !Has(d, t.tokenId)
    ensures Worth(Put(d, t.tokenId, t)) == Worth(d) + t.value
  {
    var p := Put(d, t.tokenId, t);
    assert TokenValues(p) == TokenValues(d) + [t.value];
    SumConcat(TokenValues(d), [t.value]);
    assert Sum([t.value]) == t.value;
  }

  lemma PopWorth(d: Register, id: string)
    requires Has(d, id)
    ensures Worth(Pop(d, id)) == Worth(d) - Get(d, id).value
  {
    var i := IndexOf(d, id);
    SumWithout(TokenValues(d), i);
    assert TokenValues(Pop(d, id)) == Without(TokenValues(d), i);
  }

  ghost predicate WellKeyed(d: Register) {
    DistinctKeys(d) && forall k :: k in Mapping(d) ==> Mapping(d)[k].tokenId == k
  }

  ghost function Elements(ids: seq<string>): set<string> {
    set i | 0 <= i < |ids| :: ids[i]
  }

  lemma ElementsSplit(ids: seq<string>, n: nat)
    requires |ids| == n + 1
    ensures Elements(ids) == Elements(ids[..n]) + {ids[n]}
    ensures NoDuplicates(ids) ==> NoDuplicates(ids[..n]) && ids[n] !in Elements(ids[..n])
  {
    assert ids == ids[..n] + [ids[n]];
  }

  lemma LastValue(tokens: seq<TokenData>, n: nat)
    requires |tokens| == n + 1
    ensures Sum(ValuesOf(tokens)) == Sum(ValuesOf(tokens[..n])) + tokens[n].value
  {
    assert ValuesOf(tokens) == ValuesOf(tokens[..n]) + [tokens[n].value];
    SumConcat(ValuesOf(tokens[..n]), [tokens[n].value]);
    assert Sum([tokens[n].value]) == tokens[n].value;
  }

  /** What sending available tokens does: each one leaves the UTR, extended, for the STR. */
  ghost predicate Sent(w: WalletData, sk: SecretKey, receiverPk: Key, ids: seq<string>, clock: Clock,
                       w': WalletData, tokens: seq<TokenData>) {
    |tokens| == |ids| &&
    (forall i :: 0 <= i < |ids| ==>
      ids[i] in Keys(w.utr) && tokens[i] == Mapping(w.utr)[ids[i]].Appended(sk, receiverPk, clock(i))) &&
    w'.ownerPk == w.ownerPk && w'.keys == w.keys &&
    WellKeyed(w'.utr) && Mapping(w'.utr) == Mapping(w.utr) - Elements(ids) &&
    DistinctKeys(w'.spent) && Keys(w'.spent) == Keys(w.spent) + Elements(ids) &&
    Worth(w'.utr) + Sum(ValuesOf(tokens)) == Worth(w.utr)
  }

  lemma {:induction false} SendEachEffect(w: WalletData, sk: SecretKey, receiverPk: Key, ids: seq<string>,
                                          clock: Clock)
    requires WellKeyed(w.utr) && DistinctKeys(w.spent)
    requires NoDuplicates(ids) && Elements(ids) <= Keys(w.utr)
    ensures SendEach(w, sk, receiverPk, ids, clock).1.Ok?
    ensures var (w', r) := SendEach(w, sk, receiverPk, ids, clock); Sent(w, sk, receiverPk, ids, clock, w', r.value)
    decreases |ids|
  {
    if ids == [] {
      assert Mapping(w.utr) == Mapping(w.utr) - {};
    } else {
      var n := |ids| - 1;
      var id := ids[n];
      ElementsSplit(ids, n);
      SendEachEffect(w, sk, receiverPk, ids[..n], clock);
      var (before, sent) := SendEach(w, sk, receiverPk, ids[..n], clock);
      assert id in Mapping(before.utr);
      HasKey(before.utr, id);
      var t := Get(before.utr, id).Appended(sk, receiverPk, clock(n));
      assert Mapping(before.utr)[id] == Mapping(w.utr)[id];
      SendLastEffect(before, t, id);
      SentOneMore(w, sk, receiverPk, ids, n, clock, before, sent.value, t);
    }
  }

  /** The first id that is not held, or was sent already, ends it; the ones before it are sent. */
  lemma SendFailsAt(w: WalletData, sk: SecretKey, receiverPk: Key, ids: seq<string>, clock: Clock, n: nat)
    requires WellKeyed(w.utr) && DistinctKeys(w.spent) && n < |ids|
    requires NoDuplicates(ids[..n]) && Elements(ids[..n]) <= Keys(w.utr)
    requires ids[n] !in Keys(w.utr) || ids[n] in Elements(ids[..n])
    ensures var (after, out) := SendEach(w, sk, receiverPk, ids, clock);
      out == Err(TokenUnavailable(ids[n])) && after == SendEach(w, sk, receiverPk, ids[..n], clock).0
  {
    hide WellKeyed, DistinctKeys;
    SendEachEffect(w, sk, receiverPk, ids[..n], clock);
    var (before, sent) := SendEach(w, sk, receiverPk, ids[..n], clock);
    HasKey(before.utr, ids[n]);
    var some := ids[..n + 1];
    assert some[..n] == ids[..n];
    SendNext(w, sk, receiverPk, some, clock, before, sent.value);
    SendStops(w, sk, receiverPk, ids, clock, n + 1);
  }

  lemma RemoveOneMore<K, V>(m: map<K, V>, ks: set<K>, k: K)
    ensures m - (ks + {k}) == m - ks - {k}
  {
  }

  lemma SentOneMore(w: WalletData, sk: SecretKey, receiverPk: Key, ids: seq<string>, n: nat, clock: Clock,
                    before: WalletData, sent: seq<TokenData>, t: TokenData)
    requires |ids| == n + 1 && NoDuplicates(ids) && Elements(ids) <= Keys(w.utr)
    requires Sent(w, sk, receiverPk, ids[..n], clock, before, sent)
    requires t == Mapping(w.utr)[ids[n]].Appended(sk, receiverPk, clock(n))
    requires WellKeyed(Pop(before.utr, ids[n])) && Mapping(Pop(before.utr, ids[n])) == Mapping(before.utr) - {ids[n]}
    requires Worth(Pop(before.utr, ids[n])) + t.value == Worth(before.utr)
    requires DistinctKeys(Put(before.spent, ids[n], t))
    requires Keys(Put(before.spent, ids[n], t)) == Keys(before.spent) + {ids[n]}
    ensures Sent(w, sk, receiverPk, ids, clock,
                 before.(utr := Pop(before.utr, ids[n]), spent := Put(before.spent, ids[n], t)), sent + [t])
  {
    ElementsSplit(ids, n);
    LastValue(sent + [t], n);
    assert (sent + [t])[..n] == sent;
    RemoveOneMore(Mapping(w.utr), Elements(ids[..n]), ids[n]);
    forall i | 0 <= i < |ids|
      ensures ids[i] in Keys(w.utr)
      ensures (sent + [t])[i] == Mapping(w.utr)[ids[i]].Appended(sk, receiverPk, clock(i))
    {
      if i < n {
        assert ids[..n][i] == ids[i];
      }
    }
  }

  lemma SendLastEffect(w: WalletData, t: TokenData, id: string)
    requires WellKeyed(w.utr) && DistinctKeys(w.spent) && Has(w.utr, id)
    requires t.tokenId == id && t.value == Get(w.utr, id).value
    ensures var utr := Pop(w.utr, id);
      WellKeyed(utr) && Mapping(utr) == Mapping(w.utr) - {id} && Worth(utr) + t.value == Worth(w.utr)
    ensures DistinctKeys(Put(w.spent, id, t)) && Keys(Put(w.spent, id, t)) == Keys(w.spent) + {id}
  {
    HasKey(w.utr, id);
    PopEffect(w.utr, id);
    PopWorth(w.utr, id);
    PutEffect(w.spent, id, t);
    assert Keys(Put(w.spent, id, t)) == Mapping(Put(w.spent, id, t)).Keys;
  }

  ghost function ById(tokens: seq<TokenData>): (m: map<string, TokenData>)
    ensures m.Keys == Elements(IdsOf(tokens))
    decreases |tokens|
  {
    if tokens == [] then map[]
    else
      var n := |tokens| - 1;
      assert IdsOf(tokens)[..n] == IdsOf(tokens[..n]);
      ElementsSplit(IdsOf(tokens), n);
      ById(tokens[..n])[tokens[n].tokenId := tokens[n]]
  }

  /** What accepting tokens does to a register that holds none of them. */
  ghost predicate Received(w: WalletData, tokens: seq<TokenData>, w': WalletData) {
    w'.ownerPk == w.ownerPk && w'.keys == w.keys && w'.spent == w.spent &&
    WellKeyed(w'.utr) && Mapping(w'.utr) == Mapping(w.utr) + ById(tokens) &&
    Worth(w'.utr) == Worth(w.utr) + Sum(ValuesOf(tokens))
  }

  lemma ReceiveLastEffect(w: WalletData, tokens: seq<TokenData>, n: nat, before: WalletData)
    requires |tokens| == n + 1 && Received(w, tokens[..n], before)
    requires NoDuplicates(IdsOf(tokens)) && tokens[n].tokenId !in Keys(w.utr)
    ensures Received(w, tokens, before.(utr := Put(before.utr, tokens[n].tokenId, tokens[n])))
  {
    hide Put, IndexOf, Has, Worth, Mapping, DistinctKeys;
    var t := tokens[n];
    assert IdsOf(tokens)[..n] == IdsOf(tokens[..n]);
    ElementsSplit(IdsOf(tokens), n);
    assert t.tokenId !in Mapping(before.utr);
    HasKey(before.utr, t.tokenId);
    PutEffect(before.utr, t.tokenId, t);
    PutWorth(before.utr, t);
    LastValue(tokens, n);
    AddOneMore(Mapping(w.utr), ById(tokens[..n]), t.tokenId, t);
  }

  lemma AddOneMore<K, V>(m: map<K, V>, added: map<K, V>, k: K, v: V)
    ensures (m + added)[k := v] == m + added[k := v]
  {
  }

  ghost predicate AllAcceptable(w: WalletData, tokens: seq<TokenData>) {
    forall i :: 0 <= i < |tokens| ==> Acceptable(w.ownerPk, w.spent, tokens[i])
  }

  lemma AllButLastAcceptable(w: WalletData, tokens: seq<TokenData>, n: nat)
    requires |tokens| == n + 1
    ensures AllAcceptable(w, tokens) <==>
      AllAcceptable(w, tokens[..n]) && Acceptable(w.ownerPk, w.spent, tokens[n])
  {
    assert forall i :: 0 <= i < n ==> tokens[..n][i] == tokens[i];
    if AllAcceptable(w, tokens) {
      forall i | 0 <= i < n
        ensures Acceptable(w.ownerPk, w.spent, tokens[..n][i])
      {
        assert Acceptable(w.ownerPk, w.spent, tokens[i]);
      }
    }
    if AllAcceptable(w, tokens[..n]) && Acceptable(w.ownerPk, w.spent, tokens[n]) {
      forall i | 0 <= i < |tokens|
        ensures Acceptable(w.ownerPk, w.spent, tokens[i])
      {
        if i < n {
          assert Acceptable(w.ownerPk, w.spent, tokens[..n][i]);
        }
      }
    }
  }

  lemma {:induction false} ReceivedIff(w: WalletData, tokens: seq<TokenData>)
    ensures ReceiveEach(w, tokens).Some? <==> AllAcceptable(w, tokens)
    decreases |tokens|
  {
    if tokens == [] {
    } else {
      ReceivedIff(w, tokens[..|tokens| - 1]);
      AllButLastAcceptable(w, tokens, |tokens| - 1);
    }
  }

  lemma {:induction false} ReceiveEachEffect(w: WalletData, tokens: seq<TokenData>)
    requires WellKeyed(w.utr) && ReceiveEach(w, tokens).Some?
    requires NoDuplicates(IdsOf(tokens)) && Elements(IdsOf(tokens)) !! Keys(w.utr)
    ensures Received(w, tokens, ReceiveEach(w, tokens).value)
    decreases |tokens|
  {
    if tokens == [] {
      assert Mapping(w.utr) == Mapping(w.utr) + map[];
    } else {
      var n := |tokens| - 1;
      assert IdsOf(tokens)[..n] == IdsOf(tokens[..n]) && IdsOf(tokens)[n] == tokens[n].tokenId;
      ElementsSplit(IdsOf(tokens), n);
      ReceiveEachEffect(w, tokens[..n]);
      ReceiveLastEffect(w, tokens, n, ReceiveEach(w, tokens[..n]).value);
    }
  }
}
