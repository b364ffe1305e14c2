/** What payment sessions guarantee: settlement, exact success condition, custody over whole runs. */
module Custody {
  import opened Basics
  import opened Dicts
  import opened Tokens
  import opened Selection
  import opened WalletModel

  ghost predicate Owned(ownerPk: Key, t: TokenData) {
    t.ownerPk == ownerPk && ValidChain(t)
  }

  ghost predicate OwnsAll(ownerPk: Key, tokens: map<string, TokenData>) {
    forall k :: k in tokens ==> Owned(ownerPk, tokens[k])
  }

  /** The wallet invariant: registers keyed by token id, every unspent token owned and validated. */
  ghost predicate Healthy(w: WalletData) {
    WellKeyed(w.utr) && DistinctKeys(w.spent) && OwnsAll(w.ownerPk, Mapping(w.utr))
  }

  /** The keystore holds the wallet's own private key. */
  ghost predicate KeyAvailable(w: WalletData) {
    w.ownerPk in w.keys && w.keys[w.ownerPk].publicKey == w.ownerPk
  }

  lemma ChosenIds(d: Register, c: seq<nat>)
    requires WellKeyed(d) && Choice(TokenValues(d), c)
    ensures NoDuplicates(IdsAt(d, c)) && Elements(IdsAt(d, c)) <= Keys(d)
    ensures forall i :: 0 <= i < |c| ==> Mapping(d)[IdsAt(d, c)[i]] == d[c[i]].1
  {
    MappingAt(d);
  }

  lemma SelectionChooses(w: WalletData, amount: int, c: seq<nat>)
    requires SelectTokens(w, amount) == Ok(c)
    ensures amount >= 0 && Choice(TokenValues(w.utr), c)
    ensures Sum(At(TokenValues(w.utr), c)) >= amount
  {
    if amount > 0 {
      SelectCovers(TokenValues(w.utr), amount);
    }
  }

  /** Change is refused as underpaid exactly when it is; otherwise it covers the excess, or the register cannot. */
  lemma ProcessPaymentIff(w: WalletData, values: seq<int>, price: int)
    ensures var (out, excess) := (ProcessPayment(w, values, price), Sum(values) - price);
      (out == Err(Underpaid) <==> excess < 0) &&
      (out.Ok? ==> Choice(TokenValues(w.utr), out.value) && Sum(At(TokenValues(w.utr), out.value)) >= excess) &&
      (out.Err? && excess >= 0 ==> out == Err(BadSelection(InsufficientFunds)) && Worth(w.utr) < excess)
  {
    SelectReason(TokenValues(w.utr), Sum(values) - price);
    if ProcessPayment(w, values, price).Ok? {
      SelectionChooses(w, Sum(values) - price, ProcessPayment(w, values, price).value);
    }
    hide Select, Choice;
  }

  lemma SentTokens(w: WalletData, sk: SecretKey, receiverPk: Key, c: seq<nat>, clock: Clock, w': WalletData,
                   tokens: seq<TokenData>)
    requires WellKeyed(w.utr) && Choice(TokenValues(w.utr), c)
    requires Sent(w, sk, receiverPk, IdsAt(w.utr, c), clock, w', tokens)
    ensures IdsOf(tokens) == IdsAt(w.utr, c) && NoDuplicates(IdsOf(tokens))
    ensures ValuesOf(tokens) == At(TokenValues(w.utr), c)
  {
    ChosenIds(w.utr, c);
    forall i | 0 <= i < |c|
      ensures tokens[i].tokenId == IdsAt(w.utr, c)[i] && tokens[i].value == At(TokenValues(w.utr), c)[i]
    {
      assert IdsAt(w.utr, c)[i] in Mapping(w.utr);
    }
  }

  // ---------- one direction of a session ----------

  /** Two registers of different tokens, with the keys and shapes a move relies on. */
  ghost predicate Separate(giver: WalletData, taker: WalletData) {
    WellKeyed(giver.utr) && DistinctKeys(giver.spent) && WellKeyed(taker.utr) && Keys(giver.utr) !! Keys(taker.utr)
  }

  /** What a completed move did. */
  ghost predicate MoveDone(giver: WalletData, taker: WalletData, amount: int, clock: Clock, m: Moved) {
    var ids := IdsOf(m.tokens);
    SelectTokens(giver, amount).Ok? && giver.ownerPk in giver.keys &&
    ids == IdsAt(giver.utr, SelectTokens(giver, amount).value) &&
    NoDuplicates(ids) && Elements(ids) <= Keys(giver.utr) &&
    ValuesOf(m.tokens) == At(TokenValues(giver.utr), SelectTokens(giver, amount).value) &&
    Sum(ValuesOf(m.tokens)) >= amount &&
    Sent(giver, giver.keys[giver.ownerPk], taker.ownerPk, ids, clock, m.giver, m.tokens) &&
    AllAcceptable(taker, m.tokens) && Received(taker, m.tokens, m.taker)
  }

  /** The tokens a move sends, before the taker looks at them. */
  function Outgoing(giver: WalletData, takerPk: Key, amount: int, clock: Clock): seq<TokenData> {
    match SelectTokens(giver, amount)
    case Err(e) => []
    case Ok(chosen) =>
      match SendTokens(giver, takerPk, IdsAt(giver.utr, chosen), clock).1
      case Err(e) => []
      case Ok(tokens) => tokens
  }

  lemma SelectedSent(giver: WalletData, takerPk: Key, amount: int, clock: Clock)
    requires WellKeyed(giver.utr) && DistinctKeys(giver.spent)
    requires SelectTokens(giver, amount).Ok? && giver.ownerPk in giver.keys
    ensures var sent := SendTokens(giver, takerPk, IdsAt(giver.utr, SelectTokens(giver, amount).value), clock);
      sent.1 == Ok(Outgoing(giver, takerPk, amount, clock)) &&
      Sent(giver, giver.keys[giver.ownerPk], takerPk, IdsOf(sent.1.value), clock, sent.0, sent.1.value)
    ensures var tokens := Outgoing(giver, takerPk, amount, clock);
      IdsOf(tokens) == IdsAt(giver.utr, SelectTokens(giver, amount).value) &&
      NoDuplicates(IdsOf(tokens)) && Elements(IdsOf(tokens)) <= Keys(giver.utr) &&
      ValuesOf(tokens) == At(TokenValues(giver.utr), SelectTokens(giver, amount).value) &&
      Sum(ValuesOf(tokens)) >= amount
  {
    var c := SelectTokens(giver, amount).value;
    var sk := giver.keys[giver.ownerPk];
    SelectionChooses(giver, amount, c);
    ChosenIds(giver.utr, c);
    SendEachEffect(giver, sk, takerPk, IdsAt(giver.utr, c), clock);
    var sent := SendTokens(giver, takerPk, IdsAt(giver.utr, c), clock);
    SentTokens(giver, sk, takerPk, c, clock, sent.0, sent.1.value);
  }

  /** A move goes through exactly when tokens can be chosen, a key is there and the taker accepts every token. */
  lemma MoveEffect(giver: WalletData, taker: WalletData, amount: int, clock: Clock, refused: WalletError)
    requires Separate(giver, taker)
    ensures Move(giver, taker, amount, clock, refused).Ok? <==>
      SelectTokens(giver, amount).Ok? && giver.ownerPk in giver.keys &&
      AllAcceptable(taker, Outgoing(giver, taker.ownerPk, amount, clock))
    ensures Move(giver, taker, amount, clock, refused).Ok? ==>
      Move(giver, taker, amount, clock, refused).value.tokens == Outgoing(giver, taker.ownerPk, amount, clock) &&
      MoveDone(giver, taker, amount, clock, Move(giver, taker, amount, clock, refused).value)
  {
    if SelectTokens(giver, amount).Ok? && giver.ownerPk in giver.keys {
      SelectedSent(giver, taker.ownerPk, amount, clock);
      var tokens := Outgoing(giver, taker.ownerPk, amount, clock);
      ReceivedIff(taker, tokens);
      if ReceiveEach(taker, tokens).Some? {
        ReceiveEachEffect(taker, tokens);
      }
    }
  }

  lemma MoveValues(giver: WalletData, taker: WalletData, amount: int, clock: Clock, refused: WalletError)
    requires Separate(giver, taker) && Move(giver, taker, amount, clock, refused).Ok?
    ensures Select(TokenValues(giver.utr), amount).Ok?
    ensures var tokens := Move(giver, taker, amount, clock, refused).value.tokens;
      ValuesOf(tokens) == At(TokenValues(giver.utr), Select(TokenValues(giver.utr), amount).value) &&
      Sum(ValuesOf(tokens)) >= amount
  {
    MoveEffect(giver, taker, amount, clock, refused);
  }

  /** After a completed payment the two wallets still hold different tokens. */
  lemma PaidSeparate(s: WalletData, r: WalletData, price: int, payClock: Clock)
    requires Separate(s, r) && DistinctKeys(r.spent)
    requires Move(s, r, price, payClock, ReceiverRejected).Ok?
    ensures var pay := Move(s, r, price, payClock, ReceiverRejected).value; Separate(pay.taker, pay.giver)
  {
    MoveEffect(s, r, price, payClock, ReceiverRejected);
  }

  /** Both directions of a completed session. */
  lemma SessionDirections(s: WalletData, r: WalletData, price: int, payClock: Clock, changeClock: Clock)
    returns (pay: Moved, back: Moved)
    requires Separate(s, r) && DistinctKeys(r.spent)
    requires Session(s, r, price, payClock, changeClock).Ok?
    ensures Session(s, r, price, payClock, changeClock) == Ok(Outcome(back.taker, back.giver, pay.tokens, back.tokens))
    ensures Move(s, r, price, payClock, ReceiverRejected) == Ok(pay) && MoveDone(s, r, price, payClock, pay)
    ensures Separate(pay.taker, pay.giver)
    ensures MoveDone(pay.taker, pay.giver, Sum(ValuesOf(pay.tokens)) - price, changeClock, back)
  {
    hide Move, MoveDone, Outgoing, AllAcceptable, SelectTokens, Separate, Sum;
    PaidSeparate(s, r, price, payClock);
    MoveEffect(s, r, price, payClock, ReceiverRejected);
    pay := Move(s, r, price, payClock, ReceiverRejected).value;
    var due := Sum(ValuesOf(pay.tokens)) - price;
    MoveEffect(pay.taker, pay.giver, due, changeClock, SenderRejected);
    back := Move(pay.taker, pay.giver, due, changeClock, SenderRejected).value;
  }

  // ---------- settlement ----------

  lemma {:induction false} ByIdTokens(tokens: seq<TokenData>, k: string)
    requires k in ById(tokens)
    ensures ById(tokens)[k] in tokens && ById(tokens)[k].tokenId == k
    decreases |tokens|
  {
    var n := |tokens| - 1;
    if k == tokens[n].tokenId {
    } else {
      ByIdTokens(tokens[..n], k);
    }
  }

  lemma AcceptedNotSpent(w: WalletData, tokens: seq<TokenData>)
    requires AllAcceptable(w, tokens)
    ensures Elements(IdsOf(tokens)) !! Keys(w.spent)
  {
    forall k | k in Elements(IdsOf(tokens))
      ensures k !in Keys(w.spent)
    {
      var i :| 0 <= i < |tokens| && IdsOf(tokens)[i] == k;
      assert Acceptable(w.ownerPk, w.spent, tokens[i]);
    }
  }

  /** Each token is what the register held, extended by one transfer signed with sk. */
  ghost predicate HandedOn(held: map<string, TokenData>, sk: SecretKey, receiverPk: Key, clock: Clock,
                           tokens: seq<TokenData>) {
    forall i :: 0 <= i < |tokens| ==>
      IdsOf(tokens)[i] in held && tokens[i] == held[IdsOf(tokens)[i]].Appended(sk, receiverPk, clock(i))
  }

  /**
   Where the tokens of a completed session end up: the payment tokens leave the sender, each
   one extended by one transfer to the receiver; the change tokens come from what the receiver
   held before the session, never from the payment; everything else stays as it was.
   */
  lemma SessionMovesTokens(s: WalletData, r: WalletData, price: int, payClock: Clock, changeClock: Clock)
    requires Healthy(s) && Healthy(r) && Keys(s.utr) !! Keys(r.utr)
    requires Session(s, r, price, payClock, changeClock).Ok?
    ensures var o := Session(s, r, price, payClock, changeClock).value;
      var P, C := Elements(IdsOf(o.payments)), Elements(IdsOf(o.changes));
      P <= Keys(s.utr) && C <= Keys(r.utr) &&
      s.ownerPk in s.keys && HandedOn(Mapping(s.utr), s.keys[s.ownerPk], r.ownerPk, payClock, o.payments) &&
      r.ownerPk in r.keys && HandedOn(Mapping(r.utr), r.keys[r.ownerPk], s.ownerPk, changeClock, o.changes) &&
      Mapping(o.sender.utr) == (Mapping(s.utr) - P) + ById(o.changes) &&
      Mapping(o.receiver.utr) == (Mapping(r.utr) - C) + ById(o.payments) &&
      Keys(o.sender.spent) == Keys(s.spent) + P && Keys(o.receiver.spent) == Keys(r.spent) + C
  {
    hide Session, Move, Healthy, Separate, MoveDone, ValuesOf;
    hide Sum, HandedOn, ById, DistinctKeys, NoDuplicates, Mapping;
    PairSeparate(s, r);
    var pay, back := SessionDirections(s, r, price, payClock, changeClock);
    MoveTransfers(s, r, price, payClock, pay);
    MoveTransfers(pay.taker, pay.giver, Sum(ValuesOf(pay.tokens)) - price, changeClock, back);
    var P, C := Elements(IdsOf(pay.tokens)), Elements(IdsOf(back.tokens));
    assert C !! ById(pay.tokens).Keys;
    HandedOnFromRest(Mapping(r.utr), ById(pay.tokens), r.keys[r.ownerPk], s.ownerPk, changeClock, back.tokens);
    RemoveFromDisjoint(Mapping(r.utr), ById(pay.tokens), C);
  }

  /** What one completed move does to the two wallets' contents. */
  ghost predicate Transferred(giver: WalletData, taker: WalletData, clock: Clock, m: Moved) {
    var ids := Elements(IdsOf(m.tokens));
    ids <= Mapping(giver.utr).Keys && ids !! Keys(taker.spent) &&
    giver.ownerPk in giver.keys &&
    HandedOn(Mapping(giver.utr), giver.keys[giver.ownerPk], taker.ownerPk, clock, m.tokens) &&
    m.giver.ownerPk == giver.ownerPk && m.giver.keys == giver.keys &&
    m.taker.ownerPk == taker.ownerPk && m.taker.keys == taker.keys && m.taker.spent == taker.spent &&
    Mapping(m.giver.utr) == Mapping(giver.utr) - ids && Keys(m.giver.spent) == Keys(giver.spent) + ids &&
    Mapping(m.taker.utr) == Mapping(taker.utr) + ById(m.tokens)
  }

  lemma MoveTransfers(giver: WalletData, taker: WalletData, amount: int, clock: Clock, m: Moved)
    requires MoveDone(giver, taker, amount, clock, m)
    ensures Transferred(giver, taker, clock, m)
  {
    hide SelectTokens, Worth, Sum, WellKeyed, AllAcceptable;
    AcceptedNotSpent(taker, m.tokens);
  }

  /** Tokens that were not just added came from what was held before. */
  lemma HandedOnFromRest(held: map<string, TokenData>, added: map<string, TokenData>, sk: SecretKey, receiverPk: Key,
                         clock: Clock, tokens: seq<TokenData>)
    requires HandedOn(held + added, sk, receiverPk, clock, tokens) && Elements(IdsOf(tokens)) !! added.Keys
    ensures HandedOn(held, sk, receiverPk, clock, tokens) && Elements(IdsOf(tokens)) <= held.Keys
  {
    forall i | 0 <= i < |tokens|
      ensures IdsOf(tokens)[i] in held && (held + added)[IdsOf(tokens)[i]] == held[IdsOf(tokens)[i]]
    {
      assert IdsOf(tokens)[i] in Elements(IdsOf(tokens));
    }
  }

  lemma RemoveFromDisjoint<K, V>(a: map<K, V>, b: map<K, V>, ks: set<K>)
    requires ks !! b.Keys
    ensures (a + b) - ks == (a - ks) + b
  {
  }

  /** The receiver once it holds the payment. */
  function AfterPayment(s: WalletData, r: WalletData, price: int, payClock: Clock): WalletData {
    match Move(s, r, price, payClock, ReceiverRejected)
    case Ok(pay) => pay.taker
    case Err(e) => r
  }

  /**
   What a completed session pays: never more than the price. It pays the price exactly when
   the receiver, holding the payment, has an exact subset for the change; otherwise it falls
   short by less than the largest change token.
   */
  lemma SessionSettles(s: WalletData, r: WalletData, price: int, payClock: Clock, changeClock: Clock)
    requires Separate(s, r) && DistinctKeys(r.spent)
    requires Session(s, r, price, payClock, changeClock).Ok?
    ensures var o := Session(s, r, price, payClock, changeClock).value;
      var due := Sum(ValuesOf(o.payments)) - price;
      Sum(ValuesOf(o.payments)) - Sum(ValuesOf(o.changes)) <= price &&
      ChangeMeets(TokenValues(AfterPayment(s, r, price, payClock).utr), due, ValuesOf(o.changes))
  {
    hide Session, Move, ChangeMeets, Select, Separate, DistinctKeys, Sum;
    var held, due, c := ChangeChosen(s, r, price, payClock, changeClock);
    ChosenChangeMeets(held, due, c);
    ChangeCovers(held, due, At(held, c));
  }

  lemma ChangeCovers(held: seq<int>, due: int, change: seq<int>)
    requires ChangeMeets(held, due, change)
    ensures Sum(change) >= due
  {
  }

  lemma ChangeChosen(s: WalletData, r: WalletData, price: int, payClock: Clock, changeClock: Clock)
    returns (held: seq<int>, due: int, c: seq<nat>)
    requires Separate(s, r) && DistinctKeys(r.spent)
    requires Session(s, r, price, payClock, changeClock).Ok?
    ensures held == TokenValues(AfterPayment(s, r, price, payClock).utr)
    ensures due == Sum(ValuesOf(Session(s, r, price, payClock, changeClock).value.payments)) - price
    ensures Select(held, due).Ok? && c == Select(held, due).value
    ensures ValuesOf(Session(s, r, price, payClock, changeClock).value.changes) == At(held, c)
  {
    hide Select, SendTokens, ReceiveEach, Separate;
    PaidSeparate(s, r, price, payClock);
    var pay := Move(s, r, price, payClock, ReceiverRejected).value;
    held := TokenValues(pay.taker.utr);
    due := Sum(ValuesOf(pay.tokens)) - price;
    MoveValues(pay.taker, pay.giver, due, changeClock, SenderRejected);
    c := Select(held, due).value;
  }

  /** Change worth at least what is due: exactly that iff possible, else over by less than its largest token. */
  ghost predicate ChangeMeets(held: seq<int>, due: int, change: seq<int>) {
    Sum(change) >= due && (Sum(change) == due <==> exists c :: ExactChoice(held, due, c)) &&
    (Sum(change) > due ==> exists i :: 0 <= i < |change| && Sum(change) - due < change[i])
  }

  lemma ChosenChangeMeets(held: seq<int>, due: int, c: seq<nat>)
    requires Select(held, due).Ok? && c == Select(held, due).value
    ensures ChangeMeets(held, due, At(held, c))
  {
    if due == 0 {
      assert ExactChoice(held, 0, []);
    } else {
      SelectContract(held, due);
      if !exists c' :: ExactChoice(held, due, c') {
        assert At(held, c)[|c| - 1] == held[c[|c| - 1]];
      }
    }
  }

  // ---------- what a session keeps ----------

  lemma MoveConserves(giver: WalletData, taker: WalletData, amount: int, clock: Clock, refused: WalletError)
    requires Separate(giver, taker) && DistinctKeys(taker.spent) && Move(giver, taker, amount, clock, refused).Ok?
    ensures var m := Move(giver, taker, amount, clock, refused).value;
      Separate(m.taker, m.giver) && Separate(m.giver, m.taker) &&
      Keys(m.giver.utr) + Keys(m.taker.utr) == Keys(giver.utr) + Keys(taker.utr) &&
      Worth(m.giver.utr) + Worth(m.taker.utr) == Worth(giver.utr) + Worth(taker.utr) &&
      m.giver.ownerPk == giver.ownerPk && m.taker.ownerPk == taker.ownerPk &&
      m.giver.keys == giver.keys && m.taker.keys == taker.keys
  {
    hide Move, Outgoing, AllAcceptable, SelectTokens, WellKeyed, Worth, Sum, DistinctKeys, Mapping;
    MoveEffect(giver, taker, amount, clock, refused);
  }

  lemma MoveKeepsOwnership(giver: WalletData, taker: WalletData, amount: int, clock: Clock, refused: WalletError)
    requires Separate(giver, taker) && Move(giver, taker, amount, clock, refused).Ok?
    requires OwnsAll(giver.ownerPk, Mapping(giver.utr)) && OwnsAll(taker.ownerPk, Mapping(taker.utr))
    ensures var m := Move(giver, taker, amount, clock, refused).value;
      OwnsAll(m.giver.ownerPk, Mapping(m.giver.utr)) && OwnsAll(m.taker.ownerPk, Mapping(m.taker.utr))
  {
    hide Move, OwnsAll, Separate, Worth, AllAcceptable, SelectTokens, WellKeyed, Outgoing;
    MoveEffect(giver, taker, amount, clock, refused);
    var m := Move(giver, taker, amount, clock, refused).value;
    AcceptedOwned(taker, m.tokens);
    OwnsRest(giver.ownerPk, Mapping(giver.utr), Elements(IdsOf(m.tokens)));
    OwnsBoth(taker.ownerPk, Mapping(taker.utr), ById(m.tokens));
  }

  lemma OwnsRest(ownerPk: Key, tokens: map<string, TokenData>, ids: set<string>)
    requires OwnsAll(ownerPk, tokens)
    ensures OwnsAll(ownerPk, tokens - ids)
  {
  }

  lemma OwnsBoth(ownerPk: Key, a: map<string, TokenData>, b: map<string, TokenData>)
    requires OwnsAll(ownerPk, a) && OwnsAll(ownerPk, b)
    ensures OwnsAll(ownerPk, a + b)
  {
  }

  lemma AcceptedOwned(w: WalletData, tokens: seq<TokenData>)
    requires AllAcceptable(w, tokens)
    ensures OwnsAll(w.ownerPk, ById(tokens))
  {
    forall k | k in ById(tokens)
      ensures Owned(w.ownerPk, ById(tokens)[k])
    {
      ByIdTokens(tokens, k);
      var i :| 0 <= i < |tokens| && tokens[i] == ById(tokens)[k];
      assert Acceptable(w.ownerPk, w.spent, tokens[i]);
    }
  }

  /** Two healthy wallets that hold different tokens. */
  ghost predicate HealthyPair(a: WalletData, b: WalletData) {
    Healthy(a) && Healthy(b) && Keys(a.utr) !! Keys(b.utr)
  }

  /** What two wallets have in common before and after an exchange. */
  ghost predicate Exchanged(a: WalletData, b: WalletData, a': WalletData, b': WalletData) {
    Keys(a'.utr) + Keys(b'.utr) == Keys(a.utr) + Keys(b.utr) &&
    Worth(a'.utr) + Worth(b'.utr) == Worth(a.utr) + Worth(b.utr) &&
    a'.ownerPk == a.ownerPk && b'.ownerPk == b.ownerPk
  }

  lemma MoveKeeps(giver: WalletData, taker: WalletData, amount: int, clock: Clock, refused: WalletError)
    requires HealthyPair(giver, taker) && Move(giver, taker, amount, clock, refused).Ok?
    ensures var m := Move(giver, taker, amount, clock, refused).value;
      HealthyPair(m.giver, m.taker) && HealthyPair(m.taker, m.giver) && Exchanged(giver, taker, m.giver, m.taker)
  {
    MoveConserves(giver, taker, amount, clock, refused);
    MoveKeepsOwnership(giver, taker, amount, clock, refused);
  }

  lemma ChangeKeeps(pay: Moved, price: int, changeClock: Clock)
    requires HealthyPair(pay.taker, pay.giver) && Change(pay, price, changeClock).Ok?
    ensures var o := Change(pay, price, changeClock).value;
      HealthyPair(o.sender, o.receiver) && Exchanged(pay.giver, pay.taker, o.sender, o.receiver)
  {
    hide Move, HealthyPair, ValuesOf, Worth, Dicts.Keys;
    MoveKeeps(pay.taker, pay.giver, Sum(ValuesOf(pay.tokens)) - price, changeClock, SenderRejected);
  }

  /** A completed session keeps both wallets healthy, their tokens apart and their common worth. */
  lemma SessionKeeps(s: WalletData, r: WalletData, price: int, payClock: Clock, changeClock: Clock)
    requires HealthyPair(s, r) && Session(s, r, price, payClock, changeClock).Ok?
    ensures var o := Session(s, r, price, payClock, changeClock).value;
      HealthyPair(o.sender, o.receiver) && Exchanged(s, r, o.sender, o.receiver)
  {
    hide Move, Change, HealthyPair;
    MoveKeeps(s, r, price, payClock, ReceiverRejected);
    ChangeKeeps(Move(s, r, price, payClock, ReceiverRejected).value, price, changeClock);
  }

  // ---------- when a session succeeds ----------

  /** The ids of the tokens select_tokens takes, none when it fails. */
  function ChosenSet(w: WalletData, amount: int): set<string> {
    match SelectTokens(w, amount)
    case Ok(c) => set i | 0 <= i < |c| :: IdsAt(w.utr, c)[i]
    case Err(e) => {}
  }

  /** How much the chosen tokens are worth over the amount. */
  function Overpaid(w: WalletData, amount: int): int {
    match SelectTokens(w, amount)
    case Ok(c) => Sum(At(TokenValues(w.utr), c)) - amount
    case Err(e) => 0
  }

  lemma SignedTokensAcceptable(giver: WalletData, taker: WalletData, ids: seq<string>, clock: Clock,
                               giver': WalletData, tokens: seq<TokenData>)
    requires OwnsAll(giver.ownerPk, Mapping(giver.utr)) && WellKeyed(giver.utr) && KeyAvailable(giver)
    requires Sent(giver, giver.keys[giver.ownerPk], taker.ownerPk, ids, clock, giver', tokens)
    ensures AllAcceptable(taker, tokens) <==> Elements(ids) !! Keys(taker.spent)
  {
    forall i | 0 <= i < |ids|
      ensures ids[i] in Elements(ids)
      ensures Acceptable(taker.ownerPk, taker.spent, tokens[i]) <==> ids[i] !in Keys(taker.spent)
    {
      var t := Mapping(giver.utr)[ids[i]];
      assert Owned(giver.ownerPk, t);
      AppendValidIff(t, giver.keys[giver.ownerPk], taker.ownerPk, clock(i));
    }
    if Elements(ids) !! Keys(taker.spent) {
      forall i | 0 <= i < |tokens|
        ensures Acceptable(taker.ownerPk, taker.spent, tokens[i])
      {
        assert ids[i] !in Keys(taker.spent);
      }
    } else {
      var k :| k in Elements(ids) && k in Keys(taker.spent);
      var i :| 0 <= i < |ids| && ids[i] == k;
      assert !Acceptable(taker.ownerPk, taker.spent, tokens[i]);
    }
  }

  lemma OutgoingAcceptableIff(giver: WalletData, taker: WalletData, amount: int, clock: Clock)
    requires Healthy(giver) && KeyAvailable(giver) && SelectTokens(giver, amount).Ok?
    ensures AllAcceptable(taker, Outgoing(giver, taker.ownerPk, amount, clock)) <==>
      ChosenSet(giver, amount) !! Keys(taker.spent)
  {
    hide SendTokens, Sent, AllAcceptable;
    SelectedSent(giver, taker.ownerPk, amount, clock);
    var sent := SendTokens(giver, taker.ownerPk, IdsAt(giver.utr, SelectTokens(giver, amount).value), clock);
    SignedTokensAcceptable(giver, taker, IdsOf(sent.1.value), clock, sent.0, sent.1.value);
    assert ChosenSet(giver, amount) == Elements(IdsOf(sent.1.value));
  }

  lemma MoveOkIff(giver: WalletData, taker: WalletData, amount: int, clock: Clock, refused: WalletError)
    requires Separate(giver, taker)
    ensures Move(giver, taker, amount, clock, refused).Ok? <==>
      SelectTokens(giver, amount).Ok? && giver.ownerPk in giver.keys &&
      AllAcceptable(taker, Outgoing(giver, taker.ownerPk, amount, clock))
  {
    MoveEffect(giver, taker, amount, clock, refused);
  }

  /**
   A healthy wallet with its key can move an amount exactly when it can choose and the taker
   never spent a chosen token.
   */
  lemma MoveSucceedsIff(giver: WalletData, taker: WalletData, amount: int, clock: Clock, refused: WalletError)
    requires HealthyPair(giver, taker) && KeyAvailable(giver)
    ensures Move(giver, taker, amount, clock, refused).Ok? <==>
      SelectTokens(giver, amount).Ok? && ChosenSet(giver, amount) !! Keys(taker.spent)
  {
    MoveOkIff(giver, taker, amount, clock, refused);
    if SelectTokens(giver, amount).Ok? {
      OutgoingAcceptableIff(giver, taker, amount, clock);
    }
  }

  /** What the chosen tokens are worth, and that the giver now counts them as spent. */
  lemma MovePaysOut(giver: WalletData, taker: WalletData, amount: int, clock: Clock, refused: WalletError)
    requires Separate(giver, taker) && Move(giver, taker, amount, clock, refused).Ok?
    ensures var m := Move(giver, taker, amount, clock, refused).value;
      Keys(m.giver.spent) == Keys(giver.spent) + ChosenSet(giver, amount) &&
      Sum(ValuesOf(m.tokens)) == amount + Overpaid(giver, amount) &&
      Worth(m.taker.utr) == Worth(taker.utr) + amount + Overpaid(giver, amount) &&
      amount >= 0 && Overpaid(giver, amount) >= 0 &&
      m.giver.keys == giver.keys && m.giver.ownerPk == giver.ownerPk &&
      m.taker.keys == taker.keys && m.taker.ownerPk == taker.ownerPk
  {
    MoveEffect(giver, taker, amount, clock, refused);
    SelectionChooses(giver, amount, SelectTokens(giver, amount).value);
    var m := Move(giver, taker, amount, clock, refused).value;
    assert ChosenSet(giver, amount) == Elements(IdsOf(m.tokens));
  }

  lemma ChangeSucceedsIff(pay: Moved, price: int, changeClock: Clock)
    requires HealthyPair(pay.taker, pay.giver) && KeyAvailable(pay.taker)
    requires Sum(ValuesOf(pay.tokens)) >= price
    ensures var due := Sum(ValuesOf(pay.tokens)) - price;
      Change(pay, price, changeClock).Ok? <==>
        SelectTokens(pay.taker, due).Ok? && ChosenSet(pay.taker, due) !! Keys(pay.giver.spent)
  {
    hide Move, SelectTokens, ChosenSet, HealthyPair, KeyAvailable;
    MoveSucceedsIff(pay.taker, pay.giver, Sum(ValuesOf(pay.tokens)) - price, changeClock, SenderRejected);
  }

  lemma PairSeparate(a: WalletData, b: WalletData)
    requires HealthyPair(a, b)
    ensures Separate(a, b) && DistinctKeys(b.spent)
  {
  }

  /**
   Between healthy wallets with their keys, a session succeeds exactly when payment tokens can
   be chosen and the receiver spent none of them, and change tokens can be chosen from the
   receiver's register, payment included, and the sender spent none of those, this payment included.
   */
  lemma SessionSucceedsIff(s: WalletData, r: WalletData, price: int, payClock: Clock, changeClock: Clock)
    requires HealthyPair(s, r) && KeyAvailable(s) && KeyAvailable(r)
    ensures var r1, due := AfterPayment(s, r, price, payClock), Overpaid(s, price);
      Session(s, r, price, payClock, changeClock).Ok? <==>
        SelectTokens(s, price).Ok? && ChosenSet(s, price) !! Keys(r.spent) &&
        SelectTokens(r1, due).Ok? && ChosenSet(r1, due) !! Keys(s.spent) + ChosenSet(s, price)
  {
    hide Move, Change, SelectTokens, ChosenSet, Separate, Healthy, Worth, Sum, Dicts.Keys;
    MoveSucceedsIff(s, r, price, payClock, ReceiverRejected);
    if Move(s, r, price, payClock, ReceiverRejected).Ok? {
      PairSeparate(s, r);
      MoveKeeps(s, r, price, payClock, ReceiverRejected);
      MovePaysOut(s, r, price, payClock, ReceiverRejected);
      ChangeSucceedsIff(Move(s, r, price, payClock, ReceiverRejected).value, price, changeClock);
    }
  }

  /**
   Why a move fails: because nothing can be chosen, for the reason of the choice; because a key is
   missing; or because the taker refuses a token.
   */
  lemma MoveReason(giver: WalletData, taker: WalletData, amount: int, clock: Clock, refused: WalletError)
    requires Separate(giver, taker) && Move(giver, taker, amount, clock, refused).Err?
    ensures var (chosen, error) := (SelectTokens(giver, amount), Move(giver, taker, amount, clock, refused).error);
      error == if chosen.Err? then chosen.error else if giver.ownerPk !in giver.keys then MissingKey else refused
  {
    MoveOkIff(giver, taker, amount, clock, refused);
    if SelectTokens(giver, amount).Ok? && giver.ownerPk in giver.keys {
      SelectedSent(giver, taker.ownerPk, amount, clock);
    }
    hide Outgoing, AllAcceptable, SelectTokens, SendEach;
  }

  /**
   Why a session between healthy wallets with their keys fails: the payment or the change cannot be
   chosen, or a wallet is handed a token it spent. It never fails for being underpaid.
   */
  lemma SessionReason(s: WalletData, r: WalletData, price: int, payClock: Clock, changeClock: Clock)
    requires HealthyPair(s, r) && KeyAvailable(s) && KeyAvailable(r)
    requires Session(s, r, price, payClock, changeClock).Err?
    ensures var r1, due := AfterPayment(s, r, price, payClock), Overpaid(s, price);
      var error := Session(s, r, price, payClock, changeClock).error;
      error == if SelectTokens(s, price).Err? then SelectTokens(s, price).error
        else if !(ChosenSet(s, price) !! Keys(r.spent)) then ReceiverRejected
        else if SelectTokens(r1, due).Err? then SelectTokens(r1, due).error
        else SenderRejected
  {
    hide Move, SelectTokens, ChosenSet, Separate, Healthy, Worth, Sum, Dicts.Keys;
    PairSeparate(s, r);
    MoveSucceedsIff(s, r, price, payClock, ReceiverRejected);
    if Move(s, r, price, payClock, ReceiverRejected).Err? {
      MoveReason(s, r, price, payClock, ReceiverRejected);
    } else {
      MoveKeeps(s, r, price, payClock, ReceiverRejected);
      MovePaysOut(s, r, price, payClock, ReceiverRejected);
      var pay := Move(s, r, price, payClock, ReceiverRejected).value;
      PairSeparate(pay.taker, pay.giver);
      MoveReason(pay.taker, pay.giver, Sum(ValuesOf(pay.tokens)) - price, changeClock, SenderRejected);
    }
  }

  /**
   With no negative token the condition is about the four registers only: the price is not
   negative, the sender can cover it, and no token goes back to a wallet that spent it. The
   choice of change itself never runs out of funds.
   */
  lemma SessionSucceedsIffFunded(s: WalletData, r: WalletData, price: int, payClock: Clock, changeClock: Clock)
    requires HealthyPair(s, r) && KeyAvailable(s) && KeyAvailable(r)
    requires forall i :: 0 <= i < |s.utr| ==> TokenValues(s.utr)[i] >= 0
    requires forall i :: 0 <= i < |r.utr| ==> TokenValues(r.utr)[i] >= 0
    ensures var r1, due := AfterPayment(s, r, price, payClock), Overpaid(s, price);
      Session(s, r, price, payClock, changeClock).Ok? <==>
        price >= 0 && Worth(s.utr) >= price && ChosenSet(s, price) !! Keys(r.spent) &&
        ChosenSet(r1, due) !! Keys(s.spent) + ChosenSet(s, price)
  {
    SessionSucceedsIff(s, r, price, payClock, changeClock);
    SumNonNegative(TokenValues(s.utr));
    SumNonNegative(TokenValues(r.utr));
    if price > 0 {
      SelectFailsIff(TokenValues(s.utr), price);
    }
    MoveSucceedsIff(s, r, price, payClock, ReceiverRejected);
    if Move(s, r, price, payClock, ReceiverRejected).Ok? {
      MovePaysOut(s, r, price, payClock, ReceiverRejected);
      var r1, due := AfterPayment(s, r, price, payClock), Overpaid(s, price);
      if due > 0 {
        SelectCovers(TokenValues(r1.utr), due);
      }
    }
  }

  // ---------- runs of many wallets ----------

  type World = seq<WalletData>

  datatype Event =
    | Pay(sender: nat, receiver: nat, price: int, payClock: Clock, changeClock: Clock)
    | Settle(wallet: nat, ids: seq<string>)

  /** One event; a session that fails leaves both wallets as they were. */
  function Step(world: World, e: Event): (w: World)
    ensures |w| == |world|
  {
    match e
    case Pay(i, j, price, payClock, changeClock) =>
      if i < |world| && j < |world| && i != j then
        match Session(world[i], world[j], price, payClock, changeClock)
        case Ok(o) => world[i := o.sender][j := o.receiver]
        case Err(_) => world
      else world
    case Settle(i, ids) => if i < |world| then world[i := Sync(world[i], ids)] else world
  }

  function Run(world: World, events: seq<Event>): (w: World)
    ensures |w| == |world|
    decreases |events|
  {
    if events == [] then world else Run(Step(world, events[0]), events[1..])
  }

  /** The token ids each wallet can spend. */
  function IdSets(world: World): (ks: seq<set<string>>)
    ensures |ks| == |world|
  {
    seq(|world|, i requires 0 <= i < |world| => Keys(world[i].utr))
  }

  function Worths(world: World): (vs: seq<int>)
    ensures |vs| == |world|
  {
    seq(|world|, i requires 0 <= i < |world| => Worth(world[i].utr))
  }

  ghost predicate PairwiseDisjoint(ks: seq<set<string>>) {
    forall i, j :: 0 <= i < j < |ks| ==> ks[i] !! ks[j]
  }

  function Union(ks: seq<set<string>>): set<string> {
    set i, id | 0 <= i < |ks| && id in ks[i] :: id
  }

  /** Every wallet healthy, and no token id in two unspent registers. */
  ghost predicate Custodial(world: World) {
    (forall i :: 0 <= i < |world| ==> Healthy(world[i])) && PairwiseDisjoint(IdSets(world))
  }

  function TotalWorth(world: World): int {
    Sum(Worths(world))
  }

  function AllIds(world: World): set<string> {
    Union(IdSets(world))
  }

  lemma SumUpdate(vs: seq<int>, i: nat, v: int)
    requires i < |vs|
    ensures Sum(vs[i := v]) == Sum(vs) - vs[i] + v
  {
    SumSplit(vs, i);
    SumSplit(vs[i := v], i);
    assert vs[i := v][..i] == vs[..i] && vs[i := v][i + 1..] == vs[i + 1..];
  }

  /** Two sets exchanging members between them. */
  lemma ExchangeSets(ks: seq<set<string>>, i: nat, j: nat, a: set<string>, b: set<string>)
    requires PairwiseDisjoint(ks) && i < |ks| && j < |ks| && i != j
    requires a !! b && a + b == ks[i] + ks[j]
    ensures PairwiseDisjoint(ks[i := a][j := b]) && Union(ks[i := a][j := b]) == Union(ks)
  {
    var ks' := ks[i := a][j := b];
    forall x, y | 0 <= x < y < |ks|
      ensures ks'[x] !! ks'[y]
    {
      assert forall z :: 0 <= z < |ks| && z != i ==> ks[z] !! ks[i];
      assert forall z :: 0 <= z < |ks| && z != j ==> ks[z] !! ks[j];
    }
    forall id
      ensures id in Union(ks') <==> id in Union(ks)
    {
      if id in Union(ks) {
        var x :| 0 <= x < |ks| && id in ks[x];
        assert id in ks'[if x != i && x != j then x else if id in a then i else j];
      }
      if id in Union(ks') {
        var x :| 0 <= x < |ks'| && id in ks'[x];
        assert id in ks[if x != i && x != j then x else if id in ks[i] then i else j];
      }
    }
  }

  lemma {:induction false} SyncKeeps(w: WalletData, ids: seq<string>)
    requires DistinctKeys(w.spent)
    ensures Sync(w, ids) == w.(spent := Sync(w, ids).spent) && DistinctKeys(Sync(w, ids).spent)
    ensures Mapping(Sync(w, ids).spent) == Mapping(w.spent) - Elements(ids)
    decreases |ids|
  {
    if ids == [] {
      assert Mapping(w.spent) == Mapping(w.spent) - {};
    } else {
      var n := |ids| - 1;
      SyncKeeps(w, ids[..n]);
      PopEffect(Sync(w, ids[..n]).spent, ids[n]);
      assert ids == ids[..n] + [ids[n]];
      assert Elements(ids) == Elements(ids[..n]) + {ids[n]};
      RemoveOneMore(Mapping(w.spent), Elements(ids[..n]), ids[n]);
    }
  }

  /** Replacing two wallets by an exchange between them keeps the world custodial. */
  lemma ExchangeKeeps(world: World, i: nat, j: nat, a: WalletData, b: WalletData)
    requires Custodial(world) && i < |world| && j < |world| && i != j
    requires HealthyPair(a, b) && Exchanged(world[i], world[j], a, b)
    ensures Custodial(world[i := a][j := b])
    ensures TotalWorth(world[i := a][j := b]) == TotalWorth(world)
    ensures AllIds(world[i := a][j := b]) == AllIds(world)
  {
    hide Healthy, Worth, Union, PairwiseDisjoint, Dicts.Keys;
    var w := world[i := a][j := b];
    SumUpdate(Worths(world), i, Worth(a.utr));
    SumUpdate(Worths(world)[i := Worth(a.utr)], j, Worth(b.utr));
    assert Worths(w) == Worths(world)[i := Worth(a.utr)][j := Worth(b.utr)];
    ExchangeSets(IdSets(world), i, j, Keys(a.utr), Keys(b.utr));
    assert IdSets(w) == IdSets(world)[i := Keys(a.utr)][j := Keys(b.utr)];
  }

  lemma PayKeeps(world: World, i: nat, j: nat, price: int, payClock: Clock, changeClock: Clock)
    requires Custodial(world) && i < |world| && j < |world| && i != j
    requires Session(world[i], world[j], price, payClock, changeClock).Ok?
    ensures var o := Session(world[i], world[j], price, payClock, changeClock).value;
      var w := world[i := o.sender][j := o.receiver];
      Custodial(w) && TotalWorth(w) == TotalWorth(world) && AllIds(w) == AllIds(world) &&
      o.sender.ownerPk == world[i].ownerPk && o.receiver.ownerPk == world[j].ownerPk
  {
    hide Session, Healthy, Worth, Union, Dicts.Keys, TotalWorth, AllIds;
    assert IdSets(world)[i] !! IdSets(world)[j];
    SessionKeeps(world[i], world[j], price, payClock, changeClock);
    var o := Session(world[i], world[j], price, payClock, changeClock).value;
    ExchangeKeeps(world, i, j, o.sender, o.receiver);
  }

  lemma SettleKeeps(world: World, i: nat, ids: seq<string>)
    requires Custodial(world) && i < |world|
    ensures var w := world[i := Sync(world[i], ids)];
      Custodial(w) && TotalWorth(w) == TotalWorth(world) && AllIds(w) == AllIds(world) &&
      w[i].ownerPk == world[i].ownerPk
  {
    hide Sync, Worth, Union, PairwiseDisjoint, Dicts.Keys, WellKeyed, OwnsAll;
    var w := world[i := Sync(world[i], ids)];
    SyncKeeps(world[i], ids);
    assert Worths(w) == Worths(world) && IdSets(w) == IdSets(world);
  }

  lemma StepKeeps(world: World, e: Event)
    requires Custodial(world)
    ensures Custodial(Step(world, e))
    ensures TotalWorth(Step(world, e)) == TotalWorth(world)
    ensures AllIds(Step(world, e)) == AllIds(world)
    ensures forall i :: 0 <= i < |world| ==> Step(world, e)[i].ownerPk == world[i].ownerPk
  {
    hide Session, Sync, Custodial, TotalWorth, AllIds;
    match e
    case Pay(i, j, price, payClock, changeClock) =>
      if i < |world| && j < |world| && i != j && Session(world[i], world[j], price, payClock, changeClock).Ok? {
        PayKeeps(world, i, j, price, payClock, changeClock);
      }
    case Settle(i, ids) =>
      if i < |world| {
        SettleKeeps(world, i, ids);
      }
  }

  /**
   Custody over whole runs of any number of wallets, any mix of completed and failed sessions
   and settlements: the wallets stay healthy, no token is in two unspent registers, and neither
   the set of unspent tokens nor their total value ever changes.
   */
  lemma {:induction false} RunKeepsCustody(world: World, events: seq<Event>)
    requires Custodial(world)
    ensures Custodial(Run(world, events))
    ensures TotalWorth(Run(world, events)) == TotalWorth(world)
    ensures AllIds(Run(world, events)) == AllIds(world)
    ensures forall i :: 0 <= i < |world| ==> Run(world, events)[i].ownerPk == world[i].ownerPk
    decreases |events|
  {
    hide Custodial, TotalWorth, AllIds, Step;
    if events == [] {
    } else {
      StepKeeps(world, events[0]);
      RunKeepsCustody(Step(world, events[0]), events[1..]);
    }
  }

  /** The id is in exactly one unspent register, and that wallet is the token's owner. */
  ghost predicate OneOwner(w: World, id: string) {
    exists i :: 0 <= i < |w| && id in Keys(w[i].utr) && Owned(w[i].ownerPk, Mapping(w[i].utr)[id]) &&
      forall j :: 0 <= j < |w| && id in Keys(w[j].utr) ==> j == i
  }

  lemma CustodialOneOwner(w: World, id: string)
    requires Custodial(w) && id in AllIds(w)
    ensures OneOwner(w, id)
  {
    hide OwnsAll, WellKeyed, DistinctKeys, Dicts.Keys;
    var i :| 0 <= i < |w| && id in IdSets(w)[i];
    assert Healthy(w[i]);
    forall j | 0 <= j < |w| && id in Keys(w[j].utr)
      ensures j == i
    {
      assert id in IdSets(w)[j];
    }
    HeldIsOwned(w[i], id);
  }

  lemma HeldIsOwned(w: WalletData, id: string)
    requires Healthy(w) && id in Keys(w.utr)
    ensures Owned(w.ownerPk, Mapping(w.utr)[id])
  {
  }

  /** Every token of the start is, at any time, in exactly one register, and that wallet is its owner. */
  lemma ExactlyOneOwner(world: World, events: seq<Event>, id: string)
    requires Custodial(world) && id in AllIds(world)
    ensures OneOwner(Run(world, events), id)
  {
    RunKeepsCustody(world, events);
    hide Run, Custodial, AllIds, OneOwner;
    CustodialOneOwner(Run(world, events), id);
  }

  // ---------- tokens from outside ----------

  /** Another wallet than i can spend the id. */
  ghost predicate HeldElsewhere(world: World, i: nat, id: string) {
    exists j :: 0 <= j < |world| && j != i && id in Keys(world[j].utr)
  }

  function TakenIn(w: WalletData, t: TokenData): WalletData {
    w.(utr := Put(w.utr, t.tokenId, t))
  }

  function HeldValue(w: WalletData, id: string): int {
    if id in Keys(w.utr) then Mapping(w.utr)[id].value else 0
  }

  lemma PutWorthHeld(d: Register, t: TokenData)
    requires Has(d, t.tokenId)
    ensures Worth(Put(d, t.tokenId, t)) == Worth(d) - Get(d, t.tokenId).value + t.value
  {
    var i := IndexOf(d, t.tokenId);
    SumUpdate(TokenValues(d), i, t.value);
    assert TokenValues(Put(d, t.tokenId, t)) == TokenValues(d)[i := t.value];
  }

  /** Taking in a token of its own keeps a wallet healthy; a token of the same id is replaced. */
  lemma TakenInHealthy(w: WalletData, t: TokenData)
    requires Healthy(w) && Owned(w.ownerPk, t)
    ensures var a := TakenIn(w, t);
      Healthy(a) && Worth(a.utr) == Worth(w.utr) - HeldValue(w, t.tokenId) + t.value &&
      Keys(a.utr) == Keys(w.utr) + {t.tokenId}
  {
    hide ValidChain, Worth, IndexOf, Mapping, Put, DistinctKeys;
    HasKey(w.utr, t.tokenId);
    PutEffect(w.utr, t.tokenId, t);
    if Has(w.utr, t.tokenId) {
      PutWorthHeld(w.utr, t);
    } else {
      PutWorth(w.utr, t);
    }
  }

  /** Adding a member to one of several disjoint sets */
  lemma AddToSets(ks: seq<set<string>>, i: nat, id: string)
    requires PairwiseDisjoint(ks) && i < |ks|
    ensures var ks' := ks[i := ks[i] + {id}];
      Union(ks') == Union(ks) + {id} &&
      (PairwiseDisjoint(ks') <==> !exists j :: 0 <= j < |ks| && j != i && id in ks[j])
  {
    var ks' := ks[i := ks[i] + {id}];
    assert id in ks'[i];
    forall q
      ensures q in Union(ks') <==> q in Union(ks) + {id}
    {
      if q in Union(ks) {
        var x :| 0 <= x < |ks| && q in ks[x];
        assert q in ks'[x];
      }
    }
    if j :| 0 <= j < |ks| && j != i && id in ks[j] {
      assert id in ks'[j];
      assert !(ks'[if i < j then i else j] !! ks'[if i < j then j else i]);
    } else {
      assert forall x :: 0 <= x < |ks| && x != i ==> id !in ks[x];
    }
  }

  /**
   One wallet takes in a token of its own: custody stays single exactly when no other wallet can
   spend the id. The id joins the spendable ones, and its value replaces what the wallet held
   under the id.
   */
  lemma TakingInIff(world: World, i: nat, t: TokenData)
    requires Custodial(world) && i < |world| && Owned(world[i].ownerPk, t)
    ensures var w := world[i := TakenIn(world[i], t)];
      (Custodial(w) <==> !HeldElsewhere(world, i, t.tokenId)) && AllIds(w) == AllIds(world) + {t.tokenId} &&
      TotalWorth(w) == TotalWorth(world) - HeldValue(world[i], t.tokenId) + t.value
  {
    hide Healthy, Owned, Worth, TakenIn, HeldValue, PairwiseDisjoint, Union, Dicts.Keys;
    assert Healthy(world[i]);
    TakenInHealthy(world[i], t);
    var a := TakenIn(world[i], t);
    var w := world[i := a];
    SumUpdate(Worths(world), i, Worth(a.utr));
    assert Worths(w) == Worths(world)[i := Worth(a.utr)];
    AddToSets(IdSets(world), i, t.tokenId);
    assert IdSets(w) == IdSets(world)[i := Keys(a.utr)];
    ElsewhereInSets(world, i, t.tokenId);
  }

  lemma ElsewhereInSets(world: World, i: nat, id: string)
    ensures HeldElsewhere(world, i, id) <==> exists j :: 0 <= j < |world| && j != i && id in IdSets(world)[j]
  {
    if j :| 0 <= j < |world| && j != i && id in Keys(world[j].utr) {
      assert id in IdSets(world)[j];
    }
  }

  /**
   A token added from outside, whether the wallet spent it before or not: taken in exactly when it
   is the wallet's own and valid, and then custody stays single exactly when no other wallet can
   spend its id.
   */
  lemma SeedingKeepsCustody(world: World, i: nat, t: TokenData)
    requires Custodial(world) && i < |world|
    ensures AddToken(world[i], t).Ok? <==> Owned(world[i].ownerPk, t)
    ensures AddToken(world[i], t).Ok? ==>
      var w := world[i := AddToken(world[i], t).value];
      (Custodial(w) <==> !HeldElsewhere(world, i, t.tokenId)) && AllIds(w) == AllIds(world) + {t.tokenId} &&
      TotalWorth(w) == TotalWorth(world) - HeldValue(world[i], t.tokenId) + t.value
  {
    hide Custodial, ValidChain, HeldElsewhere, AllIds, TotalWorth, HeldValue, Put;
    if AddToken(world[i], t).Ok? {
      TakingInIff(world, i, t);
    }
  }

  /** Why a token is not added: it is somebody else's, or its chain does not validate. */
  lemma AddTokenReason(w: WalletData, t: TokenData)
    ensures AddToken(w, t) == Err(NotOwned) <==> t.ownerPk != w.ownerPk
    ensures AddToken(w, t) == Err(InvalidChain) <==> t.ownerPk == w.ownerPk && !ValidChain(t)
  {
    hide ValidChain, Put;
  }

  /** A payload is received exactly when it is a token of the wallet's own, valid, and not in its spent register. */
  lemma ReceivedPayloadIff(w: WalletData, payload: Payload)
    requires DistinctKeys(w.utr)
    ensures var (t, after) := (FromPayload(payload), ReceiveToken(w, payload));
      (after.Some? <==> t.Some? && Owned(w.ownerPk, t.value) && t.value.tokenId !in Keys(w.spent)) &&
      (after.Some? ==>
        after.value == w.(utr := after.value.utr) &&
        Mapping(after.value.utr) == Mapping(w.utr)[t.value.tokenId := t.value])
  {
    if FromPayload(payload).Some? {
      PutEffect(w.utr, FromPayload(payload).value.tokenId, FromPayload(payload).value);
    }
    hide FromPayload, ValidChain, Put, Mapping;
  }

  // ---------- runs with replayed payloads and added tokens ----------

  datatype AnyEvent =
    | Ordinary(event: Event)
    | Receive(wallet: nat, payload: Payload)
    | Add(wallet: nat, token: TokenData)

  function AnyStep(world: World, e: AnyEvent): (w: World)
    ensures |w| == |world|
  {
    match e
    case Ordinary(event) => Step(world, event)
    case Receive(i, payload) =>
      if i < |world| && ReceiveToken(world[i], payload).Some?
      then world[i := ReceiveToken(world[i], payload).value]
      else world
    case Add(i, t) =>
      if i < |world| && AddToken(world[i], t).Ok? then world[i := AddToken(world[i], t).value] else world
  }

  function AnyRun(world: World, events: seq<AnyEvent>): (w: World)
    ensures |w| == |world|
    decreases |events|
  {
    if events == [] then world else AnyRun(AnyStep(world, events[0]), events[1..])
  }

  /** The token the event would put into wallet i, if any */
  ghost predicate BringsIn(world: World, e: AnyEvent, i: nat, t: TokenData) {
    i < |world| &&
    match e
    case Ordinary(_) => false
    case Receive(j, payload) =>
      i == j && FromPayload(payload) == Some(t) && Acceptable(world[i].ownerPk, world[i].spent, t)
    case Add(j, added) => i == j && added == t && Owned(world[i].ownerPk, t)
  }

  /** The event brings a token to one wallet that another can spend. */
  ghost predicate Duplicates(world: World, e: AnyEvent) {
    exists i: nat, t :: BringsIn(world, e, i, t) && HeldElsewhere(world, i, t.tokenId)
  }

  lemma InBounds(world: World, e: AnyEvent, i: nat, t: TokenData)
    requires BringsIn(world, e, i, t)
    ensures i < |world|
  {
  }

  lemma BroughtIn(world: World, e: AnyEvent, i: nat, t: TokenData)
    requires BringsIn(world, e, i, t)
    ensures Owned(world[i].ownerPk, t) && AnyStep(world, e) == world[i := TakenIn(world[i], t)]
  {
    hide ValidChain, FromPayload, Put;
  }

  lemma NothingBroughtIn(world: World, e: AnyEvent)
    requires !e.Ordinary? && forall i: nat, t :: !BringsIn(world, e, i, t)
    ensures AnyStep(world, e) == world
  {
    hide ValidChain, FromPayload, Put;
    match e
    case Receive(i, payload) =>
      if i < |world| && FromPayload(payload).Some? {
        assert !BringsIn(world, e, i, FromPayload(payload).value);
      }
    case Add(i, t) =>
      assert !BringsIn(world, e, i, t);
  }

  lemma OneBroughtIn(world: World, e: AnyEvent, i: nat, t: TokenData, i': nat, t': TokenData)
    requires BringsIn(world, e, i, t) && BringsIn(world, e, i', t')
    ensures i' == i && t' == t
  {
  }

  /** One event keeps custody single exactly when it brings no wallet a token that another can spend. */
  lemma AnyStepIff(world: World, e: AnyEvent)
    requires Custodial(world)
    ensures Custodial(AnyStep(world, e)) <==> !Duplicates(world, e)
    ensures AllIds(world) <= AllIds(AnyStep(world, e))
  {
    hide Custodial, AllIds, BringsIn, AnyStep, HeldElsewhere, Owned, TotalWorth, TakenIn;
    if e.Ordinary? {
      OrdinaryStep(world, e);
    } else if i: nat, t :| BringsIn(world, e, i, t) {
      BroughtIn(world, e, i, t);
      InBounds(world, e, i, t);
      TakingInIff(world, i, t);
      forall i': nat, t' | BringsIn(world, e, i', t')
        ensures i' == i && t' == t
      {
        OneBroughtIn(world, e, i, t, i', t');
      }
    } else {
      NothingBroughtIn(world, e);
    }
  }

  lemma OrdinaryStep(world: World, e: AnyEvent)
    requires Custodial(world) && e.Ordinary?
    ensures Custodial(AnyStep(world, e)) && !Duplicates(world, e) && AllIds(AnyStep(world, e)) == AllIds(world)
  {
    StepKeeps(world, e.event);
  }

  /** Custody is single at every moment of the run. */
  ghost predicate AlwaysCustodial(world: World, events: seq<AnyEvent>)
    decreases |events|
  {
    Custodial(world) && (events != [] ==> AlwaysCustodial(AnyStep(world, events[0]), events[1..]))
  }

  ghost predicate NeverDuplicates(world: World, events: seq<AnyEvent>)
    decreases |events|
  {
    events != [] ==> !Duplicates(world, events[0]) && NeverDuplicates(AnyStep(world, events[0]), events[1..])
  }

  /**
   Over any run, replayed payloads and added tokens included, custody is single at every moment
   exactly when no event brings a wallet a token that another wallet can spend at that moment.
   */
  lemma {:induction false} AlwaysCustodialIff(world: World, events: seq<AnyEvent>)
    requires Custodial(world)
    ensures AlwaysCustodial(world, events) <==> NeverDuplicates(world, events)
    decreases |events|
  {
    hide Custodial, AnyStep, Duplicates, AllIds;
    if events == [] {
    } else {
      var next := AnyStep(world, events[0]);
      AnyStepIff(world, events[0]);
      if Custodial(next) {
        AlwaysCustodialIff(next, events[1..]);
      }
    }
  }

  /** And then every token there ever was is in exactly one register, that of its owner. */
  lemma {:induction false} OneOwnerOverRuns(world: World, events: seq<AnyEvent>, id: string)
    requires Custodial(world) && NeverDuplicates(world, events) && id in AllIds(world)
    ensures OneOwner(AnyRun(world, events), id)
    decreases |events|
  {
    hide Custodial, AnyStep, Duplicates, AllIds, OneOwner;
    if events == [] {
      CustodialOneOwner(world, id);
    } else {
      AnyStepIff(world, events[0]);
      OneOwnerOverRuns(AnyStep(world, events[0]), events[1..], id);
    }
  }

  /**
   What protects a wallet from payloads it received before is its spent register: an old payload of
   its own is taken again exactly when its id is not there, and a settlement takes ids out.
   */
  lemma ReplayIff(w: WalletData, ids: seq<string>, payload: Payload, t: TokenData)
    requires DistinctKeys(w.spent) && FromPayload(payload) == Some(t) && Owned(w.ownerPk, t)
    ensures ReceiveToken(w, payload).Some? <==> t.tokenId !in Keys(w.spent)
    ensures ReceiveToken(Sync(w, ids), payload).Some? <==> t.tokenId !in Keys(w.spent) || t.tokenId in Elements(ids)
  {
    SyncKeeps(w, ids);
    hide FromPayload, ValidChain, Put, Sync;
  }

  /**
   A token was paid on and another wallet holds it. Its old payload is refused, until the first
   wallet synchronises with its settlement: then it is taken again, and two wallets can spend it.
   */
  lemma SyncReopensReplay(world: World, i: nat, j: nat, payload: Payload, t: TokenData)
    requires Custodial(world) && i < |world| && j < |world| && i != j
    requires FromPayload(payload) == Some(t) && Owned(world[i].ownerPk, t)
    requires t.tokenId in Keys(world[i].spent) && t.tokenId in Keys(world[j].utr)
    ensures AnyStep(world, Receive(i, payload)) == world
    ensures !Custodial(AnyRun(world, [Ordinary(Settle(i, [t.tokenId])), Receive(i, payload)]))
  {
    hide Custodial, Owned, FromPayload, Sync, ReceiveToken, Duplicates, AnyStep;
    HealthySpent(world, i);
    ReplayIff(world[i], [t.tokenId], payload, t);
    ReceivedStep(world, i, payload);
    SettledStep(world, i, t.tokenId);
    var settled := AnyStep(world, Ordinary(Settle(i, [t.tokenId])));
    StepKeeps(world, Settle(i, [t.tokenId]));
    ArrivalDuplicates(settled, i, j, payload, t);
    AnyStepIff(settled, Receive(i, payload));
    TwoSteps(world, Ordinary(Settle(i, [t.tokenId])), Receive(i, payload));
  }

  lemma HealthySpent(world: World, i: nat)
    requires Custodial(world) && i < |world|
    ensures DistinctKeys(world[i].spent)
  {
    assert Healthy(world[i]);
  }

  lemma ReceivedStep(world: World, i: nat, payload: Payload)
    requires i < |world| && ReceiveToken(world[i], payload).None?
    ensures AnyStep(world, Receive(i, payload)) == world
  {
  }

  lemma SettledStep(world: World, i: nat, id: string)
    requires i < |world|
    ensures AnyStep(world, Ordinary(Settle(i, [id]))) == Step(world, Settle(i, [id]))
    ensures Step(world, Settle(i, [id])) == world[i := Sync(world[i], [id])] && id in Elements([id])
  {
    hide Sync;
    assert [id][0] == id;
  }

  lemma ArrivalDuplicates(world: World, i: nat, j: nat, payload: Payload, t: TokenData)
    requires i < |world| && j < |world| && i != j && t.tokenId in Keys(world[j].utr)
    requires FromPayload(payload) == Some(t) && ReceiveToken(world[i], payload).Some?
    ensures Duplicates(world, Receive(i, payload))
  {
    hide FromPayload, ValidChain, Put, Dicts.Keys;
    assert BringsIn(world, Receive(i, payload), i, t) && HeldElsewhere(world, i, t.tokenId);
  }

  lemma TwoSteps(world: World, first: AnyEvent, second: AnyEvent)
    ensures AnyRun(world, [first, second]) == AnyStep(AnyStep(world, first), second)
  {
    hide AnyStep;
    var events := [first, second];
    assert events[1..] == [second] && [second][1..] == [];
    var next := AnyStep(world, first);
    assert AnyRun(next, [second]) == AnyRun(AnyStep(next, second), []) == AnyStep(next, second);
  }
}
