/** Custody in a network of dpc wallets: no token is in two wallets, and nothing is held that was not minted. */
module DpcCustody {
  import opened Basics
  import opened DpcChain
  import opened DpcWallet
  import opened DpcRuns

  // ---------- totals ----------

  /** Entries worth what a map says are worth their part of the map's total. */
  lemma {:induction false} BalanceWithin(live: map<string, int>, entries: map<string, Receipt>)
    requires Priced(live, entries)
    ensures Total(live) == Balance(entries) + Total(live - entries.Keys)
    decreases |entries|
  {
    hide Balance, Total;
    if entries == map[] {
      NothingHeld();
      assert live - entries.Keys == live;
    } else {
      var id :| id in entries;
      BalanceSplit(entries, id);
      TotalSplit(live, id);
      BalanceWithin(live - {id}, entries - {id});
      assert live - {id} - (entries - {id}).Keys == live - entries.Keys;
    }
  }

  lemma NothingHeld()
    ensures Balance(map[]) == 0
  {
  }

  ghost predicate Priced(live: map<string, int>, entries: map<string, Receipt>) {
    forall id :: id in entries ==> id in live && live[id] == AmountOf(entries[id])
  }

  // ---------- the invariant ----------

  type Wallets = seq<(Key, Register)>

  type Item = (Token, seq<Record>)

  ghost function PoolIds(pool: set<Item>): set<string> {
    set item | item in pool :: item.0.fields.tokenId
  }

  /** The wallet the chain is addressed to has seen its last nonce, and will never take the chain in. */
  ghost predicate SeenBy(wallet: (Key, Register), chain: seq<Record>) {
    chain != [] && chain[|chain| - 1].payload.receiver == wallet.0 &&
    chain[|chain| - 1].payload.nonce in wallet.1.seenNonces
  }

  ghost predicate Open(wallets: Wallets, chain: seq<Record>) {
    forall w :: 0 <= w < |wallets| ==> !SeenBy(wallets[w], chain)
  }

  ghost predicate Unheld(wallets: Wallets, id: string) {
    forall w :: 0 <= w < |wallets| ==> id !in wallets[w].1.entries
  }

  /** A chain that may still be taken in is for a live token that nobody holds. */
  ghost predicate OpenItem(wallets: Wallets, live: map<string, int>, item: Item) {
    item.0.fields.tokenId in live && live[item.0.fields.tokenId] == item.0.fields.amount &&
    Unheld(wallets, item.0.fields.tokenId)
  }

  ghost predicate WalletsApart(wallets: Wallets) {
    forall i, j :: 0 <= i < j < |wallets| ==>
      wallets[i].0 != wallets[j].0 && wallets[i].1.entries.Keys !! wallets[j].1.entries.Keys
  }

  ghost predicate WalletsSound(wallets: Wallets, pool: set<Item>, live: map<string, int>) {
    forall w :: 0 <= w < |wallets| ==>
      Sound(wallets[w].0, wallets[w].1) && Priced(live, wallets[w].1.entries) &&
      wallets[w].1.entries.Keys <= PoolIds(pool)
  }

  ghost predicate PoolSound(wallets: Wallets, pool: set<Item>, live: map<string, int>) {
    (forall item :: item in pool && Open(wallets, item.1) ==> OpenItem(wallets, live, item)) &&
    (forall a, b :: (a in pool && b in pool && Open(wallets, a.1) && Open(wallets, b.1) &&
                     a.0.fields.tokenId == b.0.fields.tokenId) ==> a == b)
  }

  /** live lists the tokens that can still be held, with their amounts. */
  ghost predicate Accounted(net: Network, live: map<string, int>) {
    WalletsApart(net.wallets) && WalletsSound(net.wallets, net.pool, live) && PoolSound(net.wallets, net.pool, live) &&
    live.Keys <= PoolIds(net.pool) && forall id :: id in live ==> live[id] > 0
  }

  lemma ApartUpdate(wallets: Wallets, w: nat, reg: Register)
    requires WalletsApart(wallets) && w < |wallets|
    requires forall v :: 0 <= v < |wallets| && v != w ==> reg.entries.Keys !! wallets[v].1.entries.Keys
    ensures WalletsApart(wallets[w := (wallets[w].0, reg)])
  {
  }

  lemma SoundUpdate(wallets: Wallets, pool: set<Item>, live: map<string, int>, w: nat, reg: Register)
    requires WalletsSound(wallets, pool, live) && w < |wallets|
    requires Sound(wallets[w].0, reg) && Priced(live, reg.entries) && reg.entries.Keys <= PoolIds(pool)
    ensures WalletsSound(wallets[w := (wallets[w].0, reg)], pool, live)
  {
    hide Sound, Priced;
  }

  /** Fewer open chains, and for those still open nobody holds the token. */
  lemma PoolUpdate(wallets: Wallets, wallets': Wallets, pool: set<Item>, live: map<string, int>)
    requires PoolSound(wallets, pool, live)
    requires forall item :: item in pool && Open(wallets', item.1) ==>
      Open(wallets, item.1) && Unheld(wallets', item.0.fields.tokenId)
    ensures PoolSound(wallets', pool, live)
  {
    hide Open, Unheld;
    forall item | item in pool && Open(wallets', item.1)
      ensures OpenItem(wallets', live, item)
    {
      assert OpenItem(wallets, live, item);
    }
  }

  lemma UnheldUpdate(wallets: Wallets, w: nat, reg: Register, id: string)
    requires Unheld(wallets, id) && w < |wallets| && id !in reg.entries
    ensures Unheld(wallets[w := (wallets[w].0, reg)], id)
  {
  }

  lemma OpenUpdate(wallets: Wallets, w: nat, reg: Register, chain: seq<Record>)
    requires w < |wallets| && wallets[w].1.seenNonces <= reg.seenNonces &&
      Open(wallets[w := (wallets[w].0, reg)], chain)
    ensures Open(wallets, chain) && !SeenBy((wallets[w].0, reg), chain)
  {
    var wallets' := wallets[w := (wallets[w].0, reg)];
    assert !SeenBy(wallets'[w], chain);
    forall v | 0 <= v < |wallets|
      ensures !SeenBy(wallets[v], chain)
    {
      assert !SeenBy(wallets'[v], chain);
    }
  }

  // ---------- steps ----------

  /** An accepted chain was open, so its token was held by nobody; afterwards it is closed. */
  lemma DeliverAccounted(net: Network, live: map<string, int>, w: nat, item: Item, at: Reading)
    requires Accounted(net, live) && w < |net.wallets| && item in net.pool
    ensures Accounted(NetStep(net, Deliver(w, item, at)), live)
  {
    var (key, reg) := net.wallets[w];
    if Received(key, reg, item.0, item.1, at).Ok? {
      ReceivedEffect(key, reg, item.0, item.1, at);
      var (after, r) := Received(key, reg, item.0, item.1, at).value;
      StepSound(key, reg, Receive(item.0, item.1, at));
      hide Sound, Received, Intact, IntegrityError, Balance;
      AcceptedAddressed(key, r);
      AcceptedAccounted(net, live, w, item, r, after);
    } else {
      assert net.wallets[w := (key, reg)] == net.wallets;
    }
  }

  lemma AcceptedAddressed(key: Key, r: Receipt)
    requires Genuine(key, r.tokenId, r)
    ensures r.fullChain != [] && r.fullChain[|r.fullChain| - 1].payload.receiver == key
    ensures r.token.Some? && r.token.value.fields.tokenId == r.tokenId && AmountOf(r) == r.token.value.fields.amount
  {
  }

  lemma AcceptedAccounted(net: Network, live: map<string, int>, w: nat, item: Item, r: Receipt, after: Register)
    requires Accounted(net, live) && w < |net.wallets| && item in net.pool
    requires var (key, reg) := net.wallets[w];
      after == Register(reg.entries[r.tokenId := r], reg.spentIds - {r.tokenId}, reg.seenNonces + Nonces(item.1)) &&
      Sound(key, after)
    requires r.token == Some(item.0) && item.0.fields.tokenId == r.tokenId && AmountOf(r) == item.0.fields.amount
    requires item.1 != [] && item.1[|item.1| - 1].payload.receiver == net.wallets[w].0
    requires item.1[|item.1| - 1].payload.nonce !in net.wallets[w].1.seenNonces
    ensures Accounted(net.(wallets := net.wallets[w := (net.wallets[w].0, after)]), live)
  {
    hide Sound, Priced, WalletsApart, WalletsSound, PoolSound, Open;
    var wallets := net.wallets;
    var id := r.tokenId;
    ArrivalOpen(wallets, w, item);
    OpenItemOf(wallets, net.pool, live, item);
    EntriesGrow(net, live, w, item, r, after);
    ApartUpdate(wallets, w, after);
    SoundUpdate(wallets, net.pool, live, w, after);
    var wallets' := wallets[w := (wallets[w].0, after)];
    assert item.1[|item.1| - 1].payload.nonce in Nonces(item.1);
    forall other | other in net.pool && Open(wallets', other.1)
      ensures Open(wallets, other.1) && Unheld(wallets', other.0.fields.tokenId)
    {
      OpenUpdate(wallets, w, after, other.1);
      OpenItemOf(wallets, net.pool, live, other);
      OneOpen(wallets, net.pool, live, item, other);
      UnheldUpdate(wallets, w, after, other.0.fields.tokenId);
    }
    PoolUpdate(wallets, wallets', net.pool, live);
  }

  /** A chain a wallet accepts is open: other wallets have other keys. */
  lemma ArrivalOpen(wallets: Wallets, w: nat, item: Item)
    requires WalletsApart(wallets) && w < |wallets| && item.1 != []
    requires item.1[|item.1| - 1].payload.receiver == wallets[w].0
    requires item.1[|item.1| - 1].payload.nonce !in wallets[w].1.seenNonces
    ensures Open(wallets, item.1)
  {
  }

  lemma OpenItemOf(wallets: Wallets, pool: set<Item>, live: map<string, int>, item: Item)
    requires PoolSound(wallets, pool, live) && item in pool && Open(wallets, item.1)
    ensures OpenItem(wallets, live, item)
  {
  }

  lemma OneOpen(wallets: Wallets, pool: set<Item>, live: map<string, int>, a: Item, b: Item)
    requires PoolSound(wallets, pool, live) && a in pool && b in pool && Open(wallets, a.1) && Open(wallets, b.1)
    ensures a.0.fields.tokenId == b.0.fields.tokenId ==> a == b
  {
  }

  lemma EntriesGrow(net: Network, live: map<string, int>, w: nat, item: Item, r: Receipt, after: Register)
    requires WalletsApart(net.wallets) && WalletsSound(net.wallets, net.pool, live) && w < |net.wallets| &&
      item in net.pool
    requires after.entries == net.wallets[w].1.entries[r.tokenId := r]
    requires item.0.fields.tokenId == r.tokenId && AmountOf(r) == item.0.fields.amount &&
      OpenItem(net.wallets, live, item)
    ensures Priced(live, after.entries) && after.entries.Keys <= PoolIds(net.pool)
    ensures forall v :: 0 <= v < |net.wallets| && v != w ==> after.entries.Keys !! net.wallets[v].1.entries.Keys
  {
    hide Sound;
    assert Priced(live, net.wallets[w].1.entries);
    assert item.0.fields.tokenId in PoolIds(net.pool);
  }

  /** The network after a send or a split at wallet w ended with the given register and result */
  ghost function AfterSend(net: Network, w: nat, result: (Register, Result<Item, Failure>)): Network
    requires w < |net.wallets|
  {
    var pool := if result.1.Ok? then net.pool + {result.1.value} else net.pool;
    Network(net.wallets[w := (net.wallets[w].0, result.0)], pool)
  }

  ghost function AfterSwap(net: Network, w: nat, result: (Register, Result<Split, Failure>)): Network
    requires w < |net.wallets|
  {
    var pool := if result.1.Ok? then net.pool + SplitItems(result.1.value) else net.pool;
    Network(net.wallets[w := (net.wallets[w].0, result.0)], pool)
  }

  /** Taking a token out and handing on a longer chain of it */
  lemma SendAccounted(net: Network, live: map<string, int>, w: nat, id: string, receiver: Key, nonce: string, now: int)
    requires Accounted(net, live) && w < |net.wallets|
    ensures Accounted(AfterSend(net, w, Sent(net.wallets[w].0, net.wallets[w].1, id, receiver, nonce, now)), live)
  {
    var (key, reg) := net.wallets[w];
    hide Accounted, Sound, Sent, Unheld, Open, PoolIds, AmountOf, Step;
    WalletSound(net, live, w);
    SendEffect(key, reg, id, receiver, nonce, now);
    var (reg', out) := Sent(key, reg, id, receiver, nonce, now);
    if out.Ok? {
      TakenOutSound(key, reg, id);
      TakenOutAccounted(net, live, w, id);
      HandedOnAccounted(net.(wallets := net.wallets[w := (key, reg')]), live, out.value);
    } else {
      assert net.wallets[w := (key, reg)] == net.wallets;
    }
  }

  lemma TakenOutSound(key: Key, reg: Register, id: string)
    requires Sound(key, reg)
    ensures Sound(key, TakenOut(reg, id))
  {
    hide Genuine;
  }

  lemma WalletSound(net: Network, live: map<string, int>, w: nat)
    requires Accounted(net, live) && w < |net.wallets|
    ensures Sound(net.wallets[w].0, net.wallets[w].1)
  {
    hide Sound;
  }

  /** A send takes the token out of the register and hands on the same token, or changes nothing. */
  lemma SendEffect(key: Key, reg: Register, id: string, receiver: Key, nonce: string, now: int)
    requires Sound(key, reg)
    ensures var (reg', out) := Sent(key, reg, id, receiver, nonce, now);
      (out.Err? ==> reg' == reg) &&
      (out.Ok? ==>
        id in reg.entries && reg' == TakenOut(reg, id) && out.value.0.fields.tokenId == id &&
        out.value.0.fields.amount == AmountOf(reg.entries[id]))
  {
    if id in reg.entries {
      assert Genuine(key, id, reg.entries[id]);
    }
    if Sent(key, reg, id, receiver, nonce, now).1.Err? {
      FailedSendInvisibleIff(key, reg, id, receiver, nonce, now);
    }
  }

  /** Without one of its tokens a wallet is still accounted for, and that token is held by nobody and open nowhere. */
  lemma TakenOutAccounted(net: Network, live: map<string, int>, w: nat, id: string)
    requires Accounted(net, live) && w < |net.wallets| && id in net.wallets[w].1.entries
    requires Sound(net.wallets[w].0, TakenOut(net.wallets[w].1, id))
    ensures var wallets := net.wallets[w := (net.wallets[w].0, TakenOut(net.wallets[w].1, id))];
      Accounted(net.(wallets := wallets), live) && Unheld(wallets, id) &&
      (forall item :: item in net.pool && Open(wallets, item.1) ==> item.0.fields.tokenId != id) &&
      id in live && live[id] == AmountOf(net.wallets[w].1.entries[id])
  {
    hide Sound, WalletsApart, WalletsSound, PoolSound, Open;
    var wallets := net.wallets;
    var reg' := TakenOut(wallets[w].1, id);
    EntriesShrink(net, live, w, id);
    ApartUpdate(wallets, w, reg');
    SoundUpdate(wallets, net.pool, live, w, reg');
    var wallets' := wallets[w := (wallets[w].0, reg')];
    forall item | item in net.pool && Open(wallets', item.1)
      ensures Open(wallets, item.1) && Unheld(wallets', item.0.fields.tokenId) && item.0.fields.tokenId != id
    {
      OpenUpdate(wallets, w, reg', item.1);
      OpenItemOf(wallets, net.pool, live, item);
      UnheldUpdate(wallets, w, reg', item.0.fields.tokenId);
    }
    PoolUpdate(wallets, wallets', net.pool, live);
  }

  lemma EntriesShrink(net: Network, live: map<string, int>, w: nat, id: string)
    requires WalletsApart(net.wallets) && WalletsSound(net.wallets, net.pool, live) && w < |net.wallets|
    requires id in net.wallets[w].1.entries
    ensures var entries := net.wallets[w].1.entries - {id};
      Priced(live, entries) && entries.Keys <= PoolIds(net.pool) &&
      (forall v :: 0 <= v < |net.wallets| && v != w ==> entries.Keys !! net.wallets[v].1.entries.Keys) &&
      Unheld(net.wallets[w := (net.wallets[w].0, TakenOut(net.wallets[w].1, id))], id) &&
      id in live && live[id] == AmountOf(net.wallets[w].1.entries[id])
  {
    hide Sound;
    assert Priced(live, net.wallets[w].1.entries);
  }

  /** A new chain of a live token that nobody holds and no open chain is for */
  lemma HandedOnAccounted(net: Network, live: map<string, int>, item: Item)
    requires Accounted(net, live) && OpenItem(net.wallets, live, item)
    requires forall other :: other in net.pool && Open(net.wallets, other.1) ==>
      other.0.fields.tokenId != item.0.fields.tokenId
    ensures Accounted(net.(pool := net.pool + {item}), live)
  {
    hide Sound, Priced, WalletsApart, Open, Unheld;
    assert PoolIds(net.pool + {item}) == PoolIds(net.pool) + {item.0.fields.tokenId};
  }

  /** A token becomes live under a new id. */
  lemma LiveAccounted(net: Network, live: map<string, int>, item: Item)
    requires Accounted(net, live) && item.0.fields.tokenId !in PoolIds(net.pool) && item.0.fields.amount > 0
    ensures Accounted(net.(pool := net.pool + {item}), live[item.0.fields.tokenId := item.0.fields.amount])
  {
    hide Sound, Priced, WalletsApart, PoolSound, Open;
    var id := item.0.fields.tokenId;
    var live' := live[id := item.0.fields.amount];
    assert PoolIds(net.pool + {item}) == PoolIds(net.pool) + {id};
    forall w | 0 <= w < |net.wallets|
      ensures id !in net.wallets[w].1.entries && Priced(live', net.wallets[w].1.entries)
    {
      StillPriced(live, net.wallets[w].1.entries, id, item.0.fields.amount);
    }
    NewPoolSound(net.wallets, net.pool, live, item);
  }

  lemma StillPriced(live: map<string, int>, entries: map<string, Receipt>, id: string, amount: int)
    requires Priced(live, entries) && id !in entries
    ensures Priced(live[id := amount], entries)
  {
  }

  lemma NewPoolSound(wallets: Wallets, pool: set<Item>, live: map<string, int>, item: Item)
    requires PoolSound(wallets, pool, live) && item.0.fields.tokenId !in PoolIds(pool) &&
      Unheld(wallets, item.0.fields.tokenId)
    ensures PoolSound(wallets, pool + {item}, live[item.0.fields.tokenId := item.0.fields.amount])
  {
    hide Open, Unheld;
    forall other | other in pool
      ensures other.0.fields.tokenId != item.0.fields.tokenId
    {
      assert other.0.fields.tokenId in PoolIds(pool);
    }
  }

  /** A token nobody holds and no open chain is for can be struck off. */
  lemma StruckAccounted(net: Network, live: map<string, int>, id: string)
    requires Accounted(net, live) && Unheld(net.wallets, id)
    requires forall item :: item in net.pool && Open(net.wallets, item.1) ==> item.0.fields.tokenId != id
    ensures Accounted(net, live - {id})
  {
    hide Sound;
    forall w | 0 <= w < |net.wallets|
      ensures Priced(live - {id}, net.wallets[w].1.entries)
    {
      assert Priced(live, net.wallets[w].1.entries);
    }
    assert WalletsSound(net.wallets, net.pool, live - {id});
    forall item | item in net.pool && Open(net.wallets, item.1)
      ensures OpenItem(net.wallets, live - {id}, item)
    {
      assert OpenItem(net.wallets, live, item);
    }
  }

  /** A split strikes off the old token and makes two new ones live that are worth as much. */
  lemma SwapAccounted(net: Network, live: map<string, int>, w: nat, id: string, amount: int, receiver: Key,
                      issuerLabel: Key, draw: SplitDraw, now: int) returns (live': map<string, int>)
    requires Accounted(net, live) && w < |net.wallets|
    requires draw.paymentId != draw.changeId && draw.paymentId !in PoolIds(net.pool) &&
      draw.changeId !in PoolIds(net.pool)
    ensures var (key, reg) := net.wallets[w];
      Accounted(AfterSwap(net, w, Swapped(key, reg, id, amount, receiver, issuerLabel, draw, now)), live')
    ensures Total(live') == Total(live)
  {
    var (key, reg) := net.wallets[w];
    hide Accounted, Sound, Swapped, Unheld, Open, PoolIds, Total, AmountOf, Step, TakenOut, OpenItem;
    WalletSound(net, live, w);
    SwapEffect(key, reg, id, amount, receiver, issuerLabel, draw, now);
    var (reg', out) := Swapped(key, reg, id, amount, receiver, issuerLabel, draw, now);
    if out.Ok? {
      TakenOutSound(key, reg, id);
      live' := SplitAccounted(net, live, w, id, out.value);
    } else {
      assert net.wallets[w := (key, reg)] == net.wallets;
      live' := live;
    }
  }

  lemma SplitAccounted(net: Network, live: map<string, int>, w: nat, id: string,
                       s: Split) returns (live': map<string, int>)
    requires Accounted(net, live) && w < |net.wallets| && id in net.wallets[w].1.entries
    requires Sound(net.wallets[w].0, TakenOut(net.wallets[w].1, id))
    requires s.payment.fields.amount > 0 && s.change.fields.amount > 0
    requires s.payment.fields.amount + s.change.fields.amount == AmountOf(net.wallets[w].1.entries[id])
    requires s.payment.fields.tokenId != s.change.fields.tokenId
    requires s.payment.fields.tokenId !in PoolIds(net.pool) && s.change.fields.tokenId !in PoolIds(net.pool)
    ensures Accounted(AfterSwap(net, w, (TakenOut(net.wallets[w].1, id), Ok(s))), live') && Total(live') == Total(live)
  {
    hide Accounted, Sound, Unheld, Open, PoolIds, Total, AmountOf, TakenOut, OpenItem;
    var one := net.(wallets := net.wallets[w := (net.wallets[w].0, TakenOut(net.wallets[w].1, id))]);
    TakenOutAccounted(net, live, w, id);
    StruckAccounted(one, live, id);
    live' := TwoLive(one, live - {id}, (s.payment, s.paymentChain), (s.change, s.changeChain));
    TotalSplit(live, id);
  }

  lemma TwoLive(net: Network, live: map<string, int>, a: Item, b: Item) returns (live': map<string, int>)
    requires Accounted(net, live) && a.0.fields.amount > 0 && b.0.fields.amount > 0
    requires a.0.fields.tokenId != b.0.fields.tokenId
    requires a.0.fields.tokenId !in PoolIds(net.pool) && b.0.fields.tokenId !in PoolIds(net.pool)
    ensures Accounted(net.(pool := net.pool + {a, b}), live')
    ensures Total(live') == Total(live) + a.0.fields.amount + b.0.fields.amount
  {
    hide Accounted, Total;
    LiveIsPooled(net, live);
    LiveAccounted(net, live, a);
    TotalPut(live, a.0.fields.tokenId, a.0.fields.amount);
    var one := net.(pool := net.pool + {a});
    var live1 := live[a.0.fields.tokenId := a.0.fields.amount];
    LiveIsPooled(one, live1);
    assert b.0.fields.tokenId !in PoolIds(one.pool);
    LiveAccounted(one, live1, b);
    TotalPut(live1, b.0.fields.tokenId, b.0.fields.amount);
    live' := live1[b.0.fields.tokenId := b.0.fields.amount];
    assert one.pool + {b} == net.pool + {a, b};
  }

  /** A split takes the token out and makes two new ones worth as much, or changes nothing. */
  lemma SwapEffect(key: Key, reg: Register, id: string, amount: int, receiver: Key, issuerLabel: Key,
                   draw: SplitDraw, now: int)
    requires Sound(key, reg)
    ensures var (reg', out) := Swapped(key, reg, id, amount, receiver, issuerLabel, draw, now);
      (out.Err? ==> reg' == reg) &&
      (out.Ok? ==>
        id in reg.entries && reg' == TakenOut(reg, id) &&
        var (a, b) := (out.value.payment.fields, out.value.change.fields);
        a.tokenId == draw.paymentId && b.tokenId == draw.changeId && a.amount > 0 && b.amount > 0 &&
        a.amount + b.amount == AmountOf(reg.entries[id]))
  {
    if id in reg.entries {
      assert Genuine(key, id, reg.entries[id]);
    }
    if Swapped(key, reg, id, amount, receiver, issuerLabel, draw, now).1.Err? {
      FailedSplitInvisibleIff(key, reg, id, amount, receiver, issuerLabel, draw, now);
    }
  }

  lemma LiveIsPooled(net: Network, live: map<string, int>)
    requires Accounted(net, live)
    ensures live.Keys <= PoolIds(net.pool)
  {
  }

  // ---------- runs ----------

  /** The ids an event draws are new and distinct. */
  ghost predicate FreshIds(net: Network, e: NetEvent) {
    match e
    case Mint(issuer, receiver, amount, id, nonce, now) => id !in PoolIds(net.pool)
    case SwapAt(w, id, amount, receiver, issuerLabel, draw, now) =>
      draw.paymentId != draw.changeId && draw.paymentId !in PoolIds(net.pool) && draw.changeId !in PoolIds(net.pool)
    case _ => true
  }

  ghost predicate FreshRun(net: Network, events: seq<NetEvent>)
    decreases |events|
  {
    events == [] || (FreshIds(net, events[0]) && FreshRun(NetStep(net, events[0]), events[1..]))
  }

  /** What mint_token issued over the events, refused amounts left out */
  function MintedTotal(events: seq<NetEvent>): int
    decreases |events|
  {
    if events == [] then 0 else
      var first := if events[0].Mint? && 0 < events[0].amount <= MAX_SINGLE_TX then events[0].amount else 0;
      first + MintedTotal(events[1..])
  }

  lemma StepAccounted(net: Network, live: map<string, int>, e: NetEvent) returns (live': map<string, int>)
    requires Accounted(net, live) && FreshIds(net, e)
    ensures Accounted(NetStep(net, e), live') && Total(live') == Total(live) + MintedTotal([e])
  {
    live' := live;
    hide Accounted, Sent, Swapped, Step, Total;
    assert [e][1..] == [] && MintedTotal([]) == 0;
    match e
    case Mint(issuer, receiver, amount, id, nonce, now) =>
      if NewlyMinted(issuer, receiver, amount, id, nonce, now).Ok? {
        var item := NewlyMinted(issuer, receiver, amount, id, nonce, now).value;
        LiveAccounted(net, live, item);
        LiveIsPooled(net, live);
        TotalPut(live, id, amount);
        live' := live[id := amount];
      }
    case Deliver(w, item, at) =>
      if w < |net.wallets| && item in net.pool {
        DeliverAccounted(net, live, w, item, at);
      }
    case SendFrom(w, id, receiver, nonce, now) =>
      if w < |net.wallets| {
        SendAccounted(net, live, w, id, receiver, nonce, now);
      }
    case SwapAt(w, id, amount, receiver, issuerLabel, draw, now) =>
      if w < |net.wallets| {
        live' := SwapAccounted(net, live, w, id, amount, receiver, issuerLabel, draw, now);
      }
  }

  lemma {:induction false} RunAccounted(net: Network, live: map<string, int>,
                                        events: seq<NetEvent>) returns (live': map<string, int>)
    requires Accounted(net, live) && FreshRun(net, events)
    ensures Accounted(NetRun(net, events), live') && Total(live') == Total(live) + MintedTotal(events)
    decreases |events|
  {
    hide Accounted, NetStep, FreshIds, Total;
    live' := live;
    if events == [] {
    } else {
      var next := StepAccounted(net, live, events[0]);
      live' := RunAccounted(NetStep(net, events[0]), next, events[1..]);
      assert [events[0]][1..] == [] && MintedTotal([]) == 0;
    }
  }

  ghost function HeldTotal(wallets: Wallets): int {
    if wallets == [] then 0 else HeldTotal(wallets[..|wallets| - 1]) + Balance(wallets[|wallets| - 1].1.entries)
  }

  ghost predicate EntriesApart(wallets: Wallets) {
    forall i, j :: 0 <= i < j < |wallets| ==> wallets[i].1.entries.Keys !! wallets[j].1.entries.Keys
  }

  lemma {:induction false} HeldAtMostLive(wallets: Wallets, live: map<string, int>)
    requires EntriesApart(wallets) && forall w :: 0 <= w < |wallets| ==> Priced(live, wallets[w].1.entries)
    requires forall id :: id in live ==> live[id] >= 0
    ensures HeldTotal(wallets) <= Total(live)
  {
    if wallets == [] {
      TotalNonNegative(live);
    } else {
      var n := |wallets| - 1;
      var last := wallets[n].1.entries;
      BalanceWithin(live, last);
      forall w | 0 <= w < n
        ensures Priced(live - last.Keys, wallets[..n][w].1.entries)
      {
        assert wallets[w].1.entries.Keys !! last.Keys;
      }
      HeldAtMostLive(wallets[..n], live - last.Keys);
    }
  }

  /** No token id is held by two wallets. */
  ghost predicate SingleCustody(wallets: Wallets) {
    forall i, j, id ::
      (0 <= i < |wallets| && 0 <= j < |wallets| && id in wallets[i].1.entries && id in wallets[j].1.entries) ==> i == j
  }

  /**
   Custody over whole runs of a network of wallets with different keys, whatever is minted, sent,
   split, delivered late, twice or never: no token is held by two wallets, and all wallets together
   never hold more than was minted. Only the drawn token ids need to be new.
   */
  lemma NetworkCustody(keys: seq<Key>, events: seq<NetEvent>)
    requires NoDuplicates(keys) && FreshRun(EmptyNetwork(keys), events)
    ensures var net := NetRun(EmptyNetwork(keys), events);
      SingleCustody(net.wallets) && HeldTotal(net.wallets) <= MintedTotal(events)
  {
    var live := RunAccounted(EmptyNetwork(keys), map[], events);
    var net := NetRun(EmptyNetwork(keys), events);
    hide NetRun, FreshRun, Sound, PoolSound, Total;
    HeldAtMostLive(net.wallets, live);
    NothingTotal();
    ApartIsSingle(net.wallets);
  }

  lemma ApartIsSingle(wallets: Wallets)
    requires WalletsApart(wallets)
    ensures SingleCustody(wallets)
  {
    forall i, j | 0 <= i < |wallets| && 0 <= j < |wallets| && i != j
      ensures wallets[i].1.entries.Keys !! wallets[j].1.entries.Keys
    {
      assert i < j || j < i;
    }
  }
}
