/** What honest payments of the offline wallet guarantee: cap-limited bundles and bounded hops. */
module OfflineRuns {
  import opened Basics
  import opened Dicts
  import opened Subsets
  import opened Selection
  import opened PocModels
  import opened OfflineWallet

  // ---------- what create_payment hands out ----------

  lemma {:induction false} SpendableFrom(policy: PolicyConfig, tokens: seq<Token>, now: int)
    ensures forall i :: 0 <= i < |SpendableTokens(policy, tokens, now)| ==>
      SpendableTokens(policy, tokens, now)[i] in tokens &&
      Spendable(policy, SpendableTokens(policy, tokens, now)[i], now)
  {
    if tokens == [] {
    } else {
      SpendableFrom(policy, tokens[..|tokens| - 1], now);
    }
  }

  /** Keeping the spendable tokens keeps them distinct. */
  lemma {:induction false} SpendableDistinct(policy: PolicyConfig, tokens: seq<Token>, now: int)
    requires DistinctIds(tokens)
    ensures DistinctIds(SpendableTokens(policy, tokens, now))
  {
    if tokens == [] {
    } else {
      var n := |tokens| - 1;
      SpendableDistinct(policy, tokens[..n], now);
      SpendableFrom(policy, tokens[..n], now);
    }
  }

  ghost predicate DistinctIds(tokens: seq<Token>) {
    forall i, j :: 0 <= i < j < |tokens| ==> tokens[i].tokenId != tokens[j].tokenId
  }

  /** Selected tokens come from the pool, are distinct, and stand in ascending order of value. */
  lemma FromPoolEffect(pool: seq<Token>, amount: int)
    requires DistinctIds(pool) && FromPool(pool, amount).Some?
    ensures var selected := FromPool(pool, amount).value;
      DistinctIds(selected) && Ascending(ValuesOf(selected)) &&
      (forall i :: 0 <= i < |selected| ==> selected[i] in pool)
  {
    hide Order, CoverLength;
    var order := Order(ValuesOf(pool));
    var selected := FromPool(pool, amount).value;
    OrderIsSorted(ValuesOf(pool));
    assert forall i :: 0 <= i < |selected| ==> selected[i] == pool[order[i]];
    assert forall i :: 0 <= i < |order| ==> At(ValuesOf(pool), order)[i] == pool[order[i]].value;
  }

  /** The bundle create_payment makes out of the selected tokens. */
  ghost predicate BundleOf(sender: Key, receiver: Key, selected: seq<Token>, draws: nat -> TransferDraw,
                           bundle: PaymentBundle) {
    |bundle.transfers| == |selected| &&
    (forall i :: 0 <= i < |selected| ==> bundle.transfers[i] == TransferOf(sender, receiver, selected[i], draws(i))) &&
    (forall i :: 0 <= i < |selected| ==>
      selected[i].tokenId in bundle.tokens && bundle.tokens[selected[i].tokenId] == Outbound(selected[i], receiver))
  }

  lemma {:induction false} SpendAllBundle(w: WalletData, receiver: Key, selected: seq<Token>,
                                          draws: nat -> TransferDraw)
    requires DistinctIds(selected)
    ensures SpendAll(w, receiver, selected, draws).0.publicKey == w.publicKey
    ensures BundleOf(w.publicKey, receiver, selected, draws, SpendAll(w, receiver, selected, draws).1)
  {
    if selected == [] {
    } else {
      SpendAllBundle(w, receiver, selected[..|selected| - 1], draws);
      BundleGrows(w.publicKey, receiver, selected, draws, SpendAll(w, receiver, selected[..|selected| - 1], draws).1);
    }
  }

  lemma BundleGrows(sender: Key, receiver: Key, selected: seq<Token>, draws: nat -> TransferDraw,
                    bundle: PaymentBundle)
    requires selected != [] && DistinctIds(selected)
    requires BundleOf(sender, receiver, selected[..|selected| - 1], draws, bundle)
    ensures var n := |selected| - 1;
      BundleOf(sender, receiver, selected, draws,
               PaymentBundle(bundle.transfers + [TransferOf(sender, receiver, selected[n], draws(n))],
                             bundle.tokens[selected[n].tokenId := Outbound(selected[n], receiver)]))
  {
    hide TransferOf, Outbound;
    var n := |selected| - 1;
    assert forall i :: 0 <= i < n ==> selected[..n][i] == selected[i];
  }

  /** The tokens a payment takes. */
  function Selected(policy: PolicyConfig, w: WalletData, amount: int, now: int): seq<Token> {
    match FromPool(SpendableTokens(policy, TokensOf(w.utr), now), amount)
    case None => []
    case Some(selected) => selected
  }

  /** Tokens have made as many hops as transfers, at most the limit. */
  ghost predicate HopsCounted(policy: PolicyConfig, t: Token) {
    t.nonce == t.hopCount && 0 <= t.hopCount <= policy.maxHops
  }

  ghost predicate CountedRegister(policy: PolicyConfig, d: Dict<Token>) {
    KeyedById(d) && forall i :: 0 <= i < |d| ==> HopsCounted(policy, d[i].1)
  }

  ghost predicate HonestWallet(policy: PolicyConfig, w: WalletData) {
    CountedRegister(policy, w.utr)
  }

  /** What an honest payment selects: spendable tokens of the register, distinct, in ascending order of value. */
  lemma PaymentSelects(policy: PolicyConfig, w: WalletData, receiver: Key, amount: int, now: int,
                       draws: nat -> TransferDraw)
    requires HonestWallet(policy, w) && Payment(policy, w, receiver, amount, now, draws).1.Ok?
    ensures var selected := Selected(policy, w, amount, now);
      Payable(policy, selected) &&
      BundleOf(w.publicKey, receiver, selected, draws, Payment(policy, w, receiver, amount, now, draws).1.value)
  {
    var tokens := TokensOf(w.utr);
    var pool := SpendableTokens(policy, tokens, now);
    SpendableDistinct(policy, tokens, now);
    SpendableFrom(policy, tokens, now);
    FromPoolEffect(pool, amount);
    var selected := Selected(policy, w, amount, now);
    forall i | 0 <= i < |selected|
      ensures HopsCounted(policy, selected[i]) && selected[i].hopCount < policy.maxHops
    {
      assert selected[i] in pool && selected[i] in tokens;
      var j :| 0 <= j < |tokens| && tokens[j] == selected[i];
      assert w.utr[j].1 == selected[i];
    }
    SpendAllBundle(w.(syncRequired := w.syncRequired + Unspendable(policy, tokens, now)), receiver, selected, draws);
  }

  // ---------- receiving an honest bundle under the cap ----------

  /** How many values from the front fit under the cap one after the other. */
  function FitCount(room: int, vs: seq<int>): (k: nat)
    ensures k <= |vs|
    decreases |vs|
  {
    if vs == [] || vs[0] > room then 0 else 1 + FitCount(room - vs[0], vs[1..])
  }

  /** There is room left, or the first value makes it. */
  ghost predicate RoomToStart(room: int, vs: seq<int>) {
    room >= 0 || (vs != [] && vs[0] <= room)
  }

  /** In ascending order the values that fit one after the other are as many as can fit at all. */
  lemma {:induction false} FitCountIsMost(room: int, vs: seq<int>, m: seq<bool>)
    requires RoomToStart(room, vs) && Ascending(vs) && |m| == |vs| && PickSum(vs, m) <= room
    ensures Count(m) <= FitCount(room, vs)
  {
    FirstValuesAreLeast(vs, m);
    FitCountExceeds(room, vs, Count(m));
  }

  lemma {:induction false} FitCountExceeds(room: int, vs: seq<int>, n: nat)
    requires RoomToStart(room, vs) && Ascending(vs) && n <= |vs| && Sum(vs[..n]) <= room
    ensures n <= FitCount(room, vs)
    decreases |vs|
  {
    if n == 0 {
    } else {
      assert vs[..n][1..] == vs[1..][..n - 1];
      if vs[0] > room {
        SumNonNegative(vs[1..][..n - 1]);
      } else {
        FitCountExceeds(room - vs[0], vs[1..], n - 1);
      }
    }
  }

  lemma {:induction false} FitCountFits(room: int, vs: seq<int>)
    requires RoomToStart(room, vs)
    ensures Sum(vs[..FitCount(room, vs)]) <= room
    decreases |vs|
  {
    if vs == [] || vs[0] > room {
    } else {
      FitCountFits(room - vs[0], vs[1..]);
      var k := FitCount(room, vs);
      assert vs[..k][1..] == vs[1..][..k - 1];
    }
  }

  /** Where counting stops, the next value of an ascending list does not fit, nor does any later one. */
  lemma {:induction false} FitCountStops(room: int, vs: seq<int>, n: nat)
    requires Ascending(vs) && FitCount(room, vs) <= n < |vs|
    ensures vs[n] > room - Sum(vs[..FitCount(room, vs)])
    decreases |vs|
  {
    var k := FitCount(room, vs);
    if k == 0 {
    } else {
      FitCountStops(room - vs[0], vs[1..], n - 1);
      assert vs[..k][1..] == vs[1..][..k - 1];
    }
  }

  lemma {:induction false} FitCountPrefix(room: int, vs: seq<int>, n: nat)
    requires n < FitCount(room, vs)
    ensures Sum(vs[..n]) + vs[n] <= room
    decreases |vs|
  {
    if n == 0 {
    } else {
      FitCountPrefix(room - vs[0], vs[1..], n - 1);
      assert vs[..n][1..] == vs[1..][..n - 1];
    }
  }

  /** From transfer n on, the bundle is new to the wallet: new transfer ids, tokens it does not hold. */
  ghost predicate NewFrom(utr: Dict<Token>, processed: set<string>, selected: seq<Token>, draws: nat -> TransferDraw,
                          n: nat) {
    DistinctKeys(utr) &&
    forall i :: n <= i < |selected| ==> draws(i).transferId !in processed && selected[i].tokenId !in Keys(utr)
  }

  /** Nothing in the bundle is expired when it is read, and its transfer ids are distinct. */
  ghost predicate Timely(policy: PolicyConfig, selected: seq<Token>, draws: nat -> TransferDraw,
                         clock: nat -> Reading) {
    (forall i, j :: 0 <= i < j < |selected| ==> draws(i).transferId != draws(j).transferId) &&
    forall i :: 0 <= i < |selected| ==>
      !selected[i].CreationExpired(policy, clock(i).first) && !selected[i].IssueExpired(policy, clock(i).second)
  }

  /** Tokens that all have a hop left, none of them twice, in ascending order of value. */
  ghost predicate Payable(policy: PolicyConfig, selected: seq<Token>) {
    DistinctIds(selected) && Ascending(ValuesOf(selected)) &&
    forall i :: 0 <= i < |selected| ==> HopsCounted(policy, selected[i]) && selected[i].hopCount < policy.maxHops
  }

  /** How many transfers of the bundle fit under the wallet's balance cap. */
  function Fitting(policy: PolicyConfig, w: WalletData, selected: seq<Token>): (k: nat)
    ensures k <= |selected|
  {
    FitCount(policy.maxBalance - Balance(w.utr), ValuesOf(selected))
  }

  /** The verdicts on the first n transfers: the ones that fit are accepted, the cap refuses the others. */
  ghost predicate Verdicts(k: nat, draws: nat -> TransferDraw, n: nat, results: seq<(string, Reason)>) {
    |results| == n && forall i :: 0 <= i < n ==>
      results[i] == (draws(i).transferId, if i < k then Accepted else MaxBalanceExceeded)
  }

  function Least(a: nat, b: nat): nat {
    if a < b then a else b
  }

  /** The receiver after n transfers of an honest bundle */
  ghost predicate ReceivedSoFar(policy: PolicyConfig, w: WalletData, selected: seq<Token>, draws: nat -> TransferDraw,
                                n: nat, w': WalletData)
    requires n <= |selected|
  {
    w'.publicKey == w.publicKey && NewFrom(w'.utr, w'.processed, selected, draws, n) &&
    Balance(w'.utr) == Balance(w.utr) + Sum(ValuesOf(selected)[..Least(n, Fitting(policy, w, selected))])
  }

  lemma {:induction false} HonestBundleSteps(policy: PolicyConfig, sender: Key, w: WalletData, selected: seq<Token>,
                                             draws: nat -> TransferDraw, bundle: PaymentBundle, n: nat,
                                             clock: nat -> Reading)
    requires n <= |selected| && Payable(policy, selected)
    requires BundleOf(sender, w.publicKey, selected, draws, bundle)
    requires NewFrom(w.utr, w.processed, selected, draws, 0) && Timely(policy, selected, draws, clock)
    ensures var (w', r) := BundleReceived(policy, w, bundle, n, clock);
      r.Ok? && ReceivedSoFar(policy, w, selected, draws, n, w') &&
      Verdicts(Fitting(policy, w, selected), draws, n, r.value)
  {
    hide BundleReceived, Applied, ReceivedSoFar, NewFrom, Payable, Timely;
    hide Fitting, Outbound, TransferOf, Verdicts, Keys, ValuesOf;
    if n == 0 {
      NothingReceived(policy, w, selected, draws, bundle, clock);
    } else {
      HonestBundleSteps(policy, sender, w, selected, draws, bundle, n - 1, clock);
      var (before, done) := BundleReceived(policy, w, bundle, n - 1, clock);
      SameToken(sender, w.publicKey, selected[n - 1], draws(n - 1));
      BundleStep(policy, w, bundle, n - 1, clock);
      HonestTransfer(policy, sender, w, selected, draws, n - 1, before, clock);
      OneMoreVerdict(Fitting(policy, w, selected), draws, n - 1, done.value);
    }
  }

  lemma NothingReceived(policy: PolicyConfig, w: WalletData, selected: seq<Token>, draws: nat -> TransferDraw,
                        bundle: PaymentBundle, clock: nat -> Reading)
    requires NewFrom(w.utr, w.processed, selected, draws, 0)
    ensures BundleReceived(policy, w, bundle, 0, clock) == (w, Ok([]))
    ensures ReceivedSoFar(policy, w, selected, draws, 0, w) && Verdicts(Fitting(policy, w, selected), draws, 0, [])
  {
    assert ValuesOf(selected)[..0] == [];
  }

  lemma BundleStep(policy: PolicyConfig, w: WalletData, bundle: PaymentBundle, n: nat, clock: nat -> Reading)
    requires n < |bundle.transfers| && bundle.transfers[n].body.tokenId in bundle.tokens
    requires BundleReceived(policy, w, bundle, n, clock).1.Ok?
    ensures var (before, done) := BundleReceived(policy, w, bundle, n, clock);
      var transfer := bundle.transfers[n];
      var (after, reason) := Applied(policy, before, transfer, bundle.tokens[transfer.body.tokenId], clock(n));
      BundleReceived(policy, w, bundle, n + 1, clock) == (after, Ok(done.value + [(transfer.body.transferId, reason)]))
  {
    hide Applied;
  }

  lemma OneMoreVerdict(k: nat, draws: nat -> TransferDraw, n: nat, results: seq<(string, Reason)>)
    requires Verdicts(k, draws, n, results)
    ensures Verdicts(k, draws, n + 1, results + [(draws(n).transferId, if n < k then Accepted else MaxBalanceExceeded)])
  {
  }

  lemma SameToken(sender: Key, receiver: Key, t: Token, draw: TransferDraw)
    ensures TransferOf(sender, receiver, t, draw).body.tokenId == t.tokenId
    ensures TransferOf(sender, receiver, t, draw).body.transferId == draw.transferId
  {
  }

  /** One transfer of an honest bundle is accepted exactly when its value still fits. */
  lemma HonestTransfer(policy: PolicyConfig, sender: Key, w: WalletData, selected: seq<Token>,
                       draws: nat -> TransferDraw, n: nat, before: WalletData, clock: nat -> Reading)
    requires n < |selected| && Payable(policy, selected) && Timely(policy, selected, draws, clock)
    requires ReceivedSoFar(policy, w, selected, draws, n, before)
    ensures var transfer := TransferOf(sender, w.publicKey, selected[n], draws(n));
      var (after, reason) := Applied(policy, before, transfer, Outbound(selected[n], w.publicKey), clock(n));
      transfer.body.transferId == draws(n).transferId && ReceivedSoFar(policy, w, selected, draws, n + 1, after) &&
      reason == if n < Fitting(policy, w, selected) then Accepted else MaxBalanceExceeded
  {
    var t := Outbound(selected[n], w.publicKey);
    var transfer := TransferOf(sender, w.publicKey, selected[n], draws(n));
    HonestVerdict(policy, sender, before, selected[n], draws(n), clock(n));
    hide Balance, Verdict, FitCount, Sum, Keys, Put, TransferOf;
    hide Kept, NewFrom, Timely, Payable, ValuesOf, HopsCounted, Least;
    SameToken(sender, w.publicKey, selected[n], draws(n));
    if n < Fitting(policy, w, selected) {
      SameFields(before.publicKey, transfer, t);
      TransferTaken(policy, w, selected, draws, clock, n, before, Kept(before.publicKey, transfer, t));
    } else {
      TransferRefused(policy, w, selected, draws, clock, n, before);
    }
  }

  lemma SameFields(receiver: Key, transfer: Transfer, t: Token)
    ensures Kept(receiver, transfer, t).tokenId == t.tokenId && Kept(receiver, transfer, t).value == t.value
  {
  }

  /** Storing a received token that fits adds its value, and the rest of the bundle is still new. */
  lemma TransferTaken(policy: PolicyConfig, w: WalletData, selected: seq<Token>, draws: nat -> TransferDraw,
                      clock: nat -> Reading, n: nat, before: WalletData, t: Token)
    requires n < Fitting(policy, w, selected) && Payable(policy, selected) && Timely(policy, selected, draws, clock)
    requires ReceivedSoFar(policy, w, selected, draws, n, before) && t.tokenId == selected[n].tokenId &&
      t.value == selected[n].value
    ensures Balance(before.utr) + t.value <= policy.maxBalance
    ensures var utr := Put(before.utr, t.tokenId, t);
      NewFrom(utr, before.processed + {draws(n).transferId}, selected, draws, n + 1) &&
      Balance(utr) == Balance(w.utr) + Sum(ValuesOf(selected)[..Least(n + 1, Fitting(policy, w, selected))])
  {
    hide Balance, FitCount, Sum, IndexOf, Mapping, Put, Ascending, DistinctKeys;
    FitCountPrefix(policy.maxBalance - Balance(w.utr), ValuesOf(selected), n);
    TakeOne(ValuesOf(selected), n);
    HasKey(before.utr, t.tokenId);
    BalancePut(before.utr, t.tokenId, t);
    PutEffect(before.utr, t.tokenId, t);
    assert Keys(Put(before.utr, t.tokenId, t)) == Mapping(Put(before.utr, t.tokenId, t)).Keys;
  }

  /** A token that does not fit leaves the receiver as it was. */
  lemma TransferRefused(policy: PolicyConfig, w: WalletData, selected: seq<Token>, draws: nat -> TransferDraw,
                        clock: nat -> Reading, n: nat, before: WalletData)
    requires Fitting(policy, w, selected) <= n < |selected| && Payable(policy, selected)
    requires ReceivedSoFar(policy, w, selected, draws, n, before)
    ensures Balance(before.utr) + selected[n].value > policy.maxBalance
    ensures ReceivedSoFar(policy, w, selected, draws, n + 1, before)
  {
    hide Balance, FitCount, Sum, Keys, DistinctIds, HopsCounted;
    FitCountStops(policy.maxBalance - Balance(w.utr), ValuesOf(selected), n);
  }

  lemma TakeOne(vs: seq<int>, n: nat)
    requires n < |vs|
    ensures Sum(vs[..n + 1]) == Sum(vs[..n]) + vs[n]
  {
    assert vs[..n + 1] == vs[..n] + [vs[n]];
    SumConcat(vs[..n], [vs[n]]);
  }

  lemma HonestVerdict(policy: PolicyConfig, sender: Key, w: WalletData, t: Token, draw: TransferDraw, now: Reading)
    requires HopsCounted(policy, t) && t.hopCount < policy.maxHops
    requires draw.transferId !in w.processed
    requires !t.CreationExpired(policy, now.first) && !t.IssueExpired(policy, now.second)
    ensures Verdict(policy, w, TransferOf(sender, w.publicKey, t, draw), Outbound(t, w.publicKey), now) == Accepted
  {
  }

  /** Every sub-collection of the selected tokens that fits under the cap has at most k tokens. */
  ghost predicate MostThatFit(vs: seq<int>, room: int, k: nat) {
    k <= |vs| && Sum(vs[..k]) <= room && forall m :: |m| == |vs| && PickSum(vs, m) <= room ==> Count(m) <= k
  }

  /**
   The first k transfers were accepted, the cap refused the others; k is the most that fit
   exactly when there is room to start.
   */
  ghost predicate TakesPrefix(policy: PolicyConfig, w: WalletData, vs: seq<int>, draws: nat -> TransferDraw, k: nat,
                              after: (WalletData, Result<seq<(string, Reason)>, WalletError>)) {
    var room := policy.maxBalance - Balance(w.utr);
    k <= |vs| && after.1.Ok? && Verdicts(k, draws, |vs|, after.1.value) &&
    Balance(after.0.utr) == Balance(w.utr) + Sum(vs[..k]) && (MostThatFit(vs, room, k) <==> RoomToStart(room, vs))
  }

  /**
   An honest, unexpired bundle of tokens the receiver does not hold: the accepted transfers are
   a prefix, every other one is refused for the balance cap only, and the accepted value is what
   the receiver gains. Because payments list their tokens in ascending order of value, the prefix
   fits under the cap and is as long as any sub-collection that does, exactly when the receiver is
   not over its cap already, or gets down to it with the first token.
   */
  lemma CapLimitedBundle(policy: PolicyConfig, s: WalletData, w: WalletData, amount: int, now: int,
                         draws: nat -> TransferDraw, clock: nat -> Reading) returns (k: nat)
    requires HonestWallet(policy, s)
    requires Payment(policy, s, w.publicKey, amount, now, draws).1.Ok?
    requires NewFrom(w.utr, w.processed, Selected(policy, s, amount, now), draws, 0)
    requires Timely(policy, Selected(policy, s, amount, now), draws, clock)
    ensures var bundle := Payment(policy, s, w.publicKey, amount, now, draws).1.value;
      var vs := ValuesOf(Selected(policy, s, amount, now));
      TakesPrefix(policy, w, vs, draws, k, BundleReceived(policy, w, bundle, |bundle.transfers|, clock))
  {
    hide Selected, Payment, BundleReceived, FitCount, PickSum, Count, Sum, ValuesOf;
    hide Ascending, TakesPrefix, Balance, Payable, NewFrom, Timely, HonestWallet;
    PaymentSelects(policy, s, w.publicKey, amount, now, draws);
    var bundle := Payment(policy, s, w.publicKey, amount, now, draws).1.value;
    var selected := Selected(policy, s, amount, now);
    HonestBundleReceived(policy, s.publicKey, w, selected, draws, bundle, clock);
    k := Fitting(policy, w, selected);
  }

  lemma HonestBundleReceived(policy: PolicyConfig, sender: Key, w: WalletData, selected: seq<Token>,
                             draws: nat -> TransferDraw, bundle: PaymentBundle, clock: nat -> Reading)
    requires Payable(policy, selected) && BundleOf(sender, w.publicKey, selected, draws, bundle)
    requires NewFrom(w.utr, w.processed, selected, draws, 0) && Timely(policy, selected, draws, clock)
    ensures TakesPrefix(policy, w, ValuesOf(selected), draws, Fitting(policy, w, selected),
                        BundleReceived(policy, w, bundle, |bundle.transfers|, clock))
  {
    hide BundleReceived, NewFrom, Payable, Timely, Verdicts, MostThatFit, RoomToStart, Fitting, Balance, Sum, Keys;
    HonestBundleSteps(policy, sender, w, selected, draws, bundle, |selected|, clock);
    PrefixIsMost(policy, w, selected);
  }

  lemma PrefixIsMost(policy: PolicyConfig, w: WalletData, selected: seq<Token>)
    requires Payable(policy, selected)
    ensures var room := policy.maxBalance - Balance(w.utr);
      MostThatFit(ValuesOf(selected), room, Fitting(policy, w, selected)) <==> RoomToStart(room, ValuesOf(selected))
  {
    var vs := ValuesOf(selected);
    var room := policy.maxBalance - Balance(w.utr);
    if RoomToStart(room, vs) {
      FitCountFits(room, vs);
      forall m | |m| == |vs| && PickSum(vs, m) <= room
        ensures Count(m) <= FitCount(room, vs)
      {
        FitCountIsMost(room, vs, m);
      }
    } else {
      assert vs[..0] == [];
    }
  }

  // ---------- hops over runs ----------

  /**
   Wallets, every bundle handed out and every token minted so far. Bundles may be delivered and
   minted tokens deposited late, to anyone, more than once, or never.
   */
  datatype Network = Network(wallets: seq<WalletData>, bundles: seq<PaymentBundle>, minted: seq<Token>)

  datatype Event =
    | Mint(issuerPk: Key, owner: Key, value: int, draw: MintDraw)
    | Deposit(depositedBy: nat, token: nat)
    | Pay(payer: nat, receiver: Key, amount: int, now: int, draws: nat -> TransferDraw)
    | Deliver(receivedBy: nat, bundle: nat, clock: nat -> Reading)

  function Step(policy: PolicyConfig, s: Network, e: Event): Network {
    match e
    case Mint(issuerPk, owner, value, draw) => s.(minted := s.minted + [MintedToken(issuerPk, owner, value, draw)])
    case Deposit(to, k) =>
      if to >= |s.wallets| || k >= |s.minted| then s else
        s.(wallets := s.wallets[to := Deposited(policy, s.wallets[to], s.minted[k]).0])
    case Pay(payer, receiver, amount, now, draws) =>
      if payer >= |s.wallets| then s else
        var (w, r) := Payment(policy, s.wallets[payer], receiver, amount, now, draws);
        s.(wallets := s.wallets[payer := w], bundles := if r.Ok? then s.bundles + [r.value] else s.bundles)
    case Deliver(to, b, clock) =>
      if to >= |s.wallets| || b >= |s.bundles| then s else
        var bundle := s.bundles[b];
        s.(wallets := s.wallets[to := BundleReceived(policy, s.wallets[to], bundle, |bundle.transfers|, clock).0])
  }

  function Run(policy: PolicyConfig, s: Network, events: seq<Event>): Network
    decreases |events|
  {
    if events == [] then s else Run(policy, Step(policy, s, events[0]), events[1..])
  }

  /** A token on its way has one more owner change than hops; its transfer carries the same count twice. */
  ghost predicate CountedBundle(policy: PolicyConfig, b: PaymentBundle) {
    forall i :: 0 <= i < |b.transfers| ==> CountedTransfer(policy, b, b.transfers[i].body)
  }

  ghost predicate CountedTransfer(policy: PolicyConfig, b: PaymentBundle, transfer: TransferBody) {
    transfer.tokenId in b.tokens &&
    var t := b.tokens[transfer.tokenId];
    t.tokenId == transfer.tokenId && t.nonce == t.hopCount + 1 == transfer.nonce == transfer.hopCount &&
    1 <= transfer.hopCount <= policy.maxHops
  }

  ghost predicate Counted(policy: PolicyConfig, s: Network) {
    (forall i :: 0 <= i < |s.wallets| ==> HonestWallet(policy, s.wallets[i])) &&
    (forall i :: 0 <= i < |s.bundles| ==> CountedBundle(policy, s.bundles[i])) &&
    (forall i :: 0 <= i < |s.minted| ==> HopsCounted(policy, s.minted[i]))
  }

  /**
   Whatever is minted, deposited, paid and delivered, in any order and however often a token is
   deposited or a bundle delivered again, every token held or on its way has nonce and hop count in
   step, never above the hop limit.
   */
  lemma {:induction false} HopsStayCounted(policy: PolicyConfig, s: Network, events: seq<Event>)
    requires policy.maxHops >= 0 && Counted(policy, s)
    ensures Counted(policy, Run(policy, s, events))
    decreases |events|
  {
    if events == [] {
    } else {
      StepKeepsCount(policy, s, events[0]);
      HopsStayCounted(policy, Step(policy, s, events[0]), events[1..]);
    }
  }

  lemma StepKeepsCount(policy: PolicyConfig, s: Network, e: Event)
    requires policy.maxHops >= 0 && Counted(policy, s)
    ensures Counted(policy, Step(policy, s, e))
  {
    hide CountedRegister, CountedBundle, Payment, BundleReceived, Balance, Put;
    match e
    case Mint(issuerPk, owner, value, draw) =>
    case Deposit(to, k) =>
      if to < |s.wallets| && k < |s.minted| {
        HoldingKeepsHonest(policy, s.wallets[to].utr, s.minted[k]);
      }
    case Pay(payer, receiver, amount, now, draws) =>
      if payer < |s.wallets| {
        PayingKeepsCount(policy, s.wallets[payer], receiver, amount, now, draws);
      }
    case Deliver(to, b, clock) =>
      if to < |s.wallets| && b < |s.bundles| {
        ReceivingKeepsCount(policy, s.wallets[to], s.bundles[b], |s.bundles[b].transfers|, clock);
      }
  }

  lemma HoldingKeepsHonest(policy: PolicyConfig, d: Dict<Token>, t: Token)
    requires CountedRegister(policy, d) && HopsCounted(policy, t)
    ensures CountedRegister(policy, Put(d, t.tokenId, t))
  {
    hide Mapping;
    PutEffect(d, t.tokenId, t);
  }

  lemma PoppingKeepsHonest(policy: PolicyConfig, d: Dict<Token>, id: string)
    requires CountedRegister(policy, d)
    ensures CountedRegister(policy, Pop(d, id))
  {
    hide Mapping;
    PopEffect(d, id);
  }

  lemma {:induction false} SpendAllKeepsHonest(policy: PolicyConfig, w: WalletData, receiver: Key,
                                               selected: seq<Token>, draws: nat -> TransferDraw)
    requires HonestWallet(policy, w)
    ensures HonestWallet(policy, SpendAll(w, receiver, selected, draws).0)
  {
    if selected == [] {
    } else {
      var n := |selected| - 1;
      SpendAllKeepsHonest(policy, w, receiver, selected[..n], draws);
      PoppingKeepsHonest(policy, SpendAll(w, receiver, selected[..n], draws).0.utr, selected[n].tokenId);
    }
  }

  lemma PayingKeepsCount(policy: PolicyConfig, w: WalletData, receiver: Key, amount: int, now: int,
                         draws: nat -> TransferDraw)
    requires HonestWallet(policy, w)
    ensures var (w', r) := Payment(policy, w, receiver, amount, now, draws);
      HonestWallet(policy, w') && (r.Ok? ==> CountedBundle(policy, r.value))
  {
    var checked := w.(syncRequired := w.syncRequired + Unspendable(policy, TokensOf(w.utr), now));
    var (w', r) := Payment(policy, w, receiver, amount, now, draws);
    var selected := Selected(policy, w, amount, now);
    SpendAllKeepsHonest(policy, checked, receiver, selected, draws);
    if r.Ok? {
      PaymentSelects(policy, w, receiver, amount, now, draws);
      HonestBundleCounted(policy, w.publicKey, receiver, selected, draws, r.value);
    }
  }

  lemma HonestBundleCounted(policy: PolicyConfig, sender: Key, receiver: Key, selected: seq<Token>,
                            draws: nat -> TransferDraw, bundle: PaymentBundle)
    requires Payable(policy, selected) && BundleOf(sender, receiver, selected, draws, bundle)
    ensures CountedBundle(policy, bundle)
  {
    forall i | 0 <= i < |bundle.transfers|
      ensures CountedTransfer(policy, bundle, bundle.transfers[i].body)
    {
      SameToken(sender, receiver, selected[i], draws(i));
      assert bundle.transfers[i] == TransferOf(sender, receiver, selected[i], draws(i));
    }
  }

  lemma {:induction false} ReceivingKeepsCount(policy: PolicyConfig, w: WalletData, bundle: PaymentBundle, n: nat,
                                               clock: nat -> Reading)
    requires n <= |bundle.transfers| && HonestWallet(policy, w) && CountedBundle(policy, bundle)
    ensures HonestWallet(policy, BundleReceived(policy, w, bundle, n, clock).0)
  {
    hide CountedRegister, Verdict, Balance, Put;
    if n == 0 {
    } else {
      ReceivingKeepsCount(policy, w, bundle, n - 1, clock);
      var before := BundleReceived(policy, w, bundle, n - 1, clock).0;
      var transfer := bundle.transfers[n - 1];
      assert CountedTransfer(policy, bundle, transfer.body);
      var t := bundle.tokens[transfer.body.tokenId];
      HoldingKeepsHonest(policy, before.utr, Kept(before.publicKey, transfer, t));
    }
  }

  // ---------- replays and the cap over runs ----------

  lemma {:induction false} ReceivingRemembers(policy: PolicyConfig, w: WalletData, bundle: PaymentBundle, n: nat,
                                              clock: nat -> Reading)
    requires n <= |bundle.transfers|
    ensures w.processed <= BundleReceived(policy, w, bundle, n, clock).0.processed
  {
    hide Verdict, Balance, Put;
    if n == 0 {
    } else {
      ReceivingRemembers(policy, w, bundle, n - 1, clock);
    }
  }

  lemma {:induction false} SpendAllRemembers(w: WalletData, receiver: Key, selected: seq<Token>,
                                             draws: nat -> TransferDraw)
    ensures SpendAll(w, receiver, selected, draws).0.processed == w.processed
  {
    if selected == [] {
    } else {
      SpendAllRemembers(w, receiver, selected[..|selected| - 1], draws);
    }
  }

  lemma StepRemembers(policy: PolicyConfig, s: Network, e: Event, i: nat)
    requires i < |s.wallets|
    ensures |Step(policy, s, e).wallets| == |s.wallets|
    ensures s.wallets[i].processed <= Step(policy, s, e).wallets[i].processed
  {
    hide BundleReceived, SpendAll, FromPool, SpendableTokens, Unspendable, Balance, Put;
    match e
    case Mint(issuerPk, owner, value, draw) =>
    case Deposit(to, k) =>
    case Pay(payer, receiver, amount, now, draws) =>
      if payer < |s.wallets| {
        var w := s.wallets[payer];
        var checked := w.(syncRequired := w.syncRequired + Unspendable(policy, TokensOf(w.utr), now));
        SpendAllRemembers(checked, receiver, Selected(policy, w, amount, now), draws);
      }
    case Deliver(to, b, clock) =>
      if to < |s.wallets| && b < |s.bundles| {
        ReceivingRemembers(policy, s.wallets[to], s.bundles[b], |s.bundles[b].transfers|, clock);
      }
  }

  lemma {:induction false} RunRemembers(policy: PolicyConfig, s: Network, events: seq<Event>, i: nat)
    requires i < |s.wallets|
    ensures |Run(policy, s, events).wallets| == |s.wallets|
    ensures s.wallets[i].processed <= Run(policy, s, events).wallets[i].processed
    decreases |events|
  {
    hide Step;
    if events == [] {
    } else {
      StepRemembers(policy, s, events[0], i);
      RunRemembers(policy, Step(policy, s, events[0]), events[1..], i);
    }
  }

  /**
   A transfer a wallet has accepted is never accepted by it again: whatever happens in between,
   whatever token comes with it and whatever else a record under that id says, it is a replay.
   */
  lemma AcceptedOnce(policy: PolicyConfig, s: Network, i: nat, transfer: Transfer, t: Token, now: Reading,
                     events: seq<Event>, again: Transfer, t': Token, later: Reading)
    requires i < |s.wallets| && Applied(policy, s.wallets[i], transfer, t, now).1.Accepted?
    requires again.body.transferId == transfer.body.transferId
    ensures var accepted := s.(wallets := s.wallets[i := Applied(policy, s.wallets[i], transfer, t, now).0]);
      var late := Run(policy, accepted, events);
      |late.wallets| == |s.wallets| &&
      Applied(policy, late.wallets[i], again, t', later) == (late.wallets[i], ReplayTransferId)
  {
    hide Run, Balance, Put;
    RunRemembers(policy, s.(wallets := s.wallets[i := Applied(policy, s.wallets[i], transfer, t, now).0]), events, i);
  }

  ghost predicate NonNegative(d: Dict<Token>) {
    forall i :: 0 <= i < |d| ==> d[i].1.value >= 0
  }

  lemma BalancePutAtMost(d: Dict<Token>, t: Token)
    requires NonNegative(d) && t.value >= 0
    ensures NonNegative(Put(d, t.tokenId, t)) && Balance(Put(d, t.tokenId, t)) <= Balance(d) + t.value
  {
    var i := IndexOf(d, t.tokenId);
    if i < |d| {
      var vs := ValuesOf(TokensOf(d));
      SumSplit(vs, i);
      SumSplit(vs[i := t.value], i);
      assert vs[i := t.value][..i] == vs[..i] && vs[i := t.value][i + 1..] == vs[i + 1..];
      assert ValuesOf(TokensOf(Put(d, t.tokenId, t))) == vs[i := t.value];
    } else {
      BalancePut(d, t.tokenId, t);
    }
  }

  lemma BalancePopAtMost(d: Dict<Token>, id: string)
    requires NonNegative(d)
    ensures NonNegative(Pop(d, id)) && Balance(Pop(d, id)) <= Balance(d)
  {
    var i := IndexOf(d, id);
    if i < |d| {
      SumWithout(ValuesOf(TokensOf(d)), i);
      assert ValuesOf(TokensOf(Pop(d, id))) == Without(ValuesOf(TokensOf(d)), i);
    }
  }

  /** No negative token, held or on its way, and no wallet over the cap */
  ghost predicate Capped(policy: PolicyConfig, s: Network) {
    (forall i :: 0 <= i < |s.wallets| ==> CappedRegister(policy, s.wallets[i].utr)) &&
    (forall i :: 0 <= i < |s.bundles| ==> NonNegativeBundle(s.bundles[i])) &&
    (forall i :: 0 <= i < |s.minted| ==> s.minted[i].value >= 0)
  }

  ghost predicate CappedRegister(policy: PolicyConfig, d: Dict<Token>) {
    NonNegative(d) && Balance(d) <= policy.maxBalance
  }

  ghost predicate NonNegativeBundle(b: PaymentBundle) {
    forall i :: 0 <= i < |b.transfers| && b.transfers[i].body.tokenId in b.tokens ==>
      b.tokens[b.transfers[i].body.tokenId].value >= 0
  }

  lemma {:induction false} SpendAllCapped(policy: PolicyConfig, w: WalletData, receiver: Key, selected: seq<Token>,
                                          draws: nat -> TransferDraw)
    requires CappedRegister(policy, w.utr)
    ensures CappedRegister(policy, SpendAll(w, receiver, selected, draws).0.utr)
  {
    hide Balance, Pop, NonNegative;
    if selected == [] {
    } else {
      var n := |selected| - 1;
      SpendAllCapped(policy, w, receiver, selected[..n], draws);
      BalancePopAtMost(SpendAll(w, receiver, selected[..n], draws).0.utr, selected[n].tokenId);
    }
  }

  lemma PayingKeepsCap(policy: PolicyConfig, w: WalletData, receiver: Key, amount: int, now: int,
                       draws: nat -> TransferDraw)
    requires HonestWallet(policy, w) && CappedRegister(policy, w.utr)
    ensures var (w', r) := Payment(policy, w, receiver, amount, now, draws);
      CappedRegister(policy, w'.utr) && (r.Ok? ==> NonNegativeBundle(r.value))
  {
    var checked := w.(syncRequired := w.syncRequired + Unspendable(policy, TokensOf(w.utr), now));
    var (w', r) := Payment(policy, w, receiver, amount, now, draws);
    var selected := Selected(policy, w, amount, now);
    SpendAllCapped(policy, checked, receiver, selected, draws);
    if r.Ok? {
      PaymentSelects(policy, w, receiver, amount, now, draws);
      SelectedFromRegister(policy, w, amount, now);
      HonestBundleNonNegative(w.publicKey, receiver, selected, draws, r.value);
    }
  }

  lemma SelectedFromRegister(policy: PolicyConfig, w: WalletData, amount: int, now: int)
    requires HonestWallet(policy, w) && NonNegative(w.utr)
    ensures forall i :: 0 <= i < |Selected(policy, w, amount, now)| ==> Selected(policy, w, amount, now)[i].value >= 0
  {
    var tokens := TokensOf(w.utr);
    var pool := SpendableTokens(policy, tokens, now);
    var selected := Selected(policy, w, amount, now);
    SpendableDistinct(policy, tokens, now);
    SpendableFrom(policy, tokens, now);
    if FromPool(pool, amount).Some? {
      FromPoolEffect(pool, amount);
      hide FromPool, SpendableTokens, DistinctIds, Ascending;
      forall i | 0 <= i < |selected|
        ensures selected[i].value >= 0
      {
        assert selected[i] in pool && selected[i] in tokens;
        var j :| 0 <= j < |tokens| && tokens[j] == selected[i];
        assert w.utr[j].1 == selected[i];
      }
    }
  }

  lemma HonestBundleNonNegative(sender: Key, receiver: Key, selected: seq<Token>, draws: nat -> TransferDraw,
                                bundle: PaymentBundle)
    requires BundleOf(sender, receiver, selected, draws, bundle) && forall i :: 0 <= i < |selected| ==>
      selected[i].value >= 0
    ensures NonNegativeBundle(bundle)
  {
    forall i | 0 <= i < |bundle.transfers|
      ensures bundle.transfers[i].body.tokenId in bundle.tokens &&
        bundle.tokens[bundle.transfers[i].body.tokenId].value >= 0
    {
      SameToken(sender, receiver, selected[i], draws(i));
      assert bundle.transfers[i] == TransferOf(sender, receiver, selected[i], draws(i));
    }
  }

  lemma {:induction false} ReceivingKeepsCap(policy: PolicyConfig, w: WalletData, bundle: PaymentBundle, n: nat,
                                             clock: nat -> Reading)
    requires n <= |bundle.transfers| && CappedRegister(policy, w.utr) && NonNegativeBundle(bundle)
    ensures CappedRegister(policy, BundleReceived(policy, w, bundle, n, clock).0.utr)
  {
    hide NonNegative, Verdict, Balance, Put, Kept;
    if n == 0 {
    } else {
      ReceivingKeepsCap(policy, w, bundle, n - 1, clock);
      var before := BundleReceived(policy, w, bundle, n - 1, clock).0;
      var transfer := bundle.transfers[n - 1];
      if transfer.body.tokenId in bundle.tokens {
        var t := bundle.tokens[transfer.body.tokenId];
        SameFields(before.publicKey, transfer, t);
        BalancePutAtMost(before.utr, Kept(before.publicKey, transfer, t));
      }
    }
  }

  lemma StepKeepsCap(policy: PolicyConfig, s: Network, e: Event)
    requires Counted(policy, s) && Capped(policy, s) && (e.Mint? ==> e.value >= 0)
    ensures Capped(policy, Step(policy, s, e))
  {
    hide HonestWallet, NonNegativeBundle, CountedBundle, Payment, BundleReceived, Balance, Put, NonNegative;
    match e
    case Mint(issuerPk, owner, value, draw) =>
    case Deposit(to, k) =>
      if to < |s.wallets| && k < |s.minted| {
        BalancePutAtMost(s.wallets[to].utr, s.minted[k]);
      }
    case Pay(payer, receiver, amount, now, draws) =>
      if payer < |s.wallets| {
        PayingKeepsCap(policy, s.wallets[payer], receiver, amount, now, draws);
      }
    case Deliver(to, b, clock) =>
      if to < |s.wallets| && b < |s.bundles| {
        ReceivingKeepsCap(policy, s.wallets[to], s.bundles[b], |s.bundles[b].transfers|, clock);
      }
  }

  /**
   As long as no negative token is minted, no wallet ever holds more than the cap, whatever is
   paid, delivered or replayed.
   */
  lemma {:induction false} CapKeptOverRuns(policy: PolicyConfig, s: Network, events: seq<Event>)
    requires policy.maxHops >= 0 && Counted(policy, s) && Capped(policy, s)
    requires forall i :: 0 <= i < |events| && events[i].Mint? ==> events[i].value >= 0
    ensures Capped(policy, Run(policy, s, events))
    decreases |events|
  {
    hide Counted, Capped, Step;
    if events == [] {
    } else {
      StepKeepsCount(policy, s, events[0]);
      StepKeepsCap(policy, s, events[0]);
      CapKeptOverRuns(policy, Step(policy, s, events[0]), events[1..]);
    }
  }
}
