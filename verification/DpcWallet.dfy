/** The register and the wallet of the dpc stack (dpc/wallet.py). */
module DpcWallet {
  import opened Basics
  import opened DpcChain

  datatype Receipt = Receipt(
    tokenId: string, receivedAt: int, finalHop: Record, fullChain: seq<Record>, isRedeemed: bool, token: Option<Token>)

  function AmountOf(r: Receipt): int {
    if r.token.Some? then r.token.value.fields.amount else r.finalHop.payload.amount
  }

  function Nonces(records: seq<Record>): set<string> {
    set i | 0 <= i < |records| :: records[i].payload.nonce
  }

  // ---------- balances ----------

  ghost function Balance(entries: map<string, Receipt>): int {
    if entries == map[] then 0 else
      var id :| id in entries;
      AmountOf(entries[id]) + Balance(entries - {id})
  }

  /** The balance does not depend on the order the entries are added up in. */
  lemma {:induction false} BalanceSplit(entries: map<string, Receipt>, id: string)
    requires id in entries
    ensures Balance(entries) == AmountOf(entries[id]) + Balance(entries - {id})
    decreases |entries|
  {
    var first :| first in entries && Balance(entries) == AmountOf(entries[first]) + Balance(entries - {first});
    if first == id {
    } else {
      BalanceSplit(entries - {first}, id);
      BalanceSplit(entries - {id}, first);
      assert entries - {first} - {id} == entries - {id} - {first};
    }
  }

  lemma BalancePut(entries: map<string, Receipt>, id: string, r: Receipt)
    requires id !in entries
    ensures Balance(entries[id := r]) == Balance(entries) + AmountOf(r)
  {
    BalanceSplit(entries[id := r], id);
    assert entries[id := r] - {id} == entries;
  }

  // ---------- the register ----------

  datatype Register = Register(entries: map<string, Receipt>, spentIds: set<string>, seenNonces: set<string>)

  ghost function Added(reg: Register, r: Receipt): Result<Register, Failure> {
    var returning := r.tokenId in reg.spentIds;
    var nonces := Nonces(r.fullChain);
    if r.tokenId in reg.entries then Err(DoubleSpend)
    else if returning && r.fullChain == [] then Err(IndexError)
    else if returning && r.fullChain[|r.fullChain| - 1].payload.nonce in reg.seenNonces then Err(DoubleSpend)
    else if !returning && nonces * reg.seenNonces != {} then Err(DoubleSpend)
    else if Balance(reg.entries) + AmountOf(r) > MAX_WALLET_BALANCE then Err(WalletBalanceCap)
    else Ok(Register(reg.entries[r.tokenId := r], reg.spentIds - {r.tokenId}, reg.seenNonces + nonces))
  }

  /** Remove an entry and mark its id spent. */
  function TakenOut(reg: Register, id: string): Register {
    reg.(entries := reg.entries - {id}, spentIds := reg.spentIds + {id})
  }

  function Restored(reg: Register, r: Receipt): Register {
    reg.(entries := reg.entries[r.tokenId := r], spentIds := reg.spentIds - {r.tokenId})
  }

  class UnspentTokenRegister {
    var entries: map<string, Receipt>
    var spentTokenIds: set<string>
    var seenNonces: set<string>

    constructor ()
      ensures Data() == Register(map[], {}, {})
    {
      entries, spentTokenIds, seenNonces := map[], {}, {};
    }

    function Data(): Register
      reads this
    {
      Register(entries, spentTokenIds, seenNonces)
    }

    method AddReceipt(receipt: Receipt) returns (error: Option<Failure>)
      modifies this
      ensures match Added(old(Data()), receipt)
        case Ok(reg) => error == None && Data() == reg
        case Err(e) => error == Some(e) && Data() == old(Data())
    {
      var returning := receipt.tokenId in spentTokenIds;
      if receipt.tokenId in entries {
        return Some(DoubleSpend);
      }
      var chain := receipt.fullChain;
      if receipt.tokenId in spentTokenIds {
        if chain == [] {
          return Some(IndexError);
        }
        if chain[|chain| - 1].payload.nonce in seenNonces {
          return Some(DoubleSpend);
        }
      }
      var incoming := Nonces(chain);
      var conflicts := if returning then {chain[|chain| - 1].payload.nonce} * seenNonces else seenNonces * incoming;
      if conflicts != {} {
        return Some(DoubleSpend);
      }
      var total := TotalBalance();
      if total + AmountOf(receipt) > MAX_WALLET_BALANCE {
        return Some(WalletBalanceCap);
      }
      entries := entries[receipt.tokenId := receipt];
      spentTokenIds := spentTokenIds - {receipt.tokenId};
      seenNonces := seenNonces + incoming;
      return None;
    }

    method Spend(id: string) returns (r: Result<Receipt, Failure>)
      modifies this
      ensures id !in old(entries) ==> r == Err(WalletState) && Data() == old(Data())
      ensures id in old(entries) ==> r == Ok(old(entries)[id]) && Data() == TakenOut(old(Data()), id)
    {
      if id !in entries {
        return Err(WalletState);
      }
      var receipt := entries[id];
      entries := entries - {id};
      spentTokenIds := spentTokenIds + {id};
      return Ok(receipt);
    }

    method RestoreUnspent(receipt: Receipt)
      modifies this
      ensures Data() == Restored(old(Data()), receipt)
    {
      entries := entries[receipt.tokenId := receipt];
      spentTokenIds := spentTokenIds - {receipt.tokenId};
    }

    method TotalBalance() returns (total: int)
      ensures total == Balance(entries)
    {
      total := 0;
      var rest := entries;
      while rest != map[]
        invariant total + Balance(rest) == Balance(entries)
        decreases |rest|
      {
        var id :| id in rest;
        BalanceSplit(rest, id);
        total := total + AmountOf(rest[id]);
        rest := rest - {id};
      }
    }
  }

  // ---------- wallet operations ----------

  /** The two clock readings of receive_token: for the expiry check, and for the receipt */
  datatype Reading = Reading(checkedAt: int, receivedAt: int)

  /** receive_token */
  ghost function Received(key: Key, reg: Register, token: Token, chain: seq<Record>, now: Reading)
    : Result<(Register, Receipt), Failure>
  {
    match token.Expired(now.checkedAt)
    case Err(e) => Err(e)
    case Ok(true) => Err(TokenExpired)
    case Ok(false) =>
      match IntegrityError(token, chain)
      case Some(e) => Err(e)
      case None =>
        var tip := chain[|chain| - 1];
        if tip.payload.receiver != key then Err(WalletState) else
          var receipt := Receipt(token.fields.tokenId, now.receivedAt, tip, chain, false, Some(token));
          match Added(reg, receipt)
          case Err(e) => Err(e)
          case Ok(reg') => Ok((reg', receipt))
  }

  /** The part of send_token between spend and restore. */
  function Outgoing(key: Key, receipt: Receipt, receiver: Key, nonce: string, now: int)
    : Result<(Token, seq<Record>), Failure>
  {
    if receipt.token.None? then Err(WalletState) else
      var token := receipt.token.value;
      var chain := receipt.fullChain;
      match token.Expired(now)
      case Err(e) => Err(e)
      case Ok(true) => Err(TokenExpired)
      case Ok(false) =>
        if receipt.finalHop.payload.amount > MAX_SINGLE_TX then Err(TransactionValueCap) else
          match IntegrityError(token, chain)
          case Some(e) => Err(e)
          case None =>
            if NextHop(chain, receiver) > MAX_OFFLINE_HOPS then Err(HopLimitExceeded)
            else
              var amount := receipt.finalHop.payload.amount;
              Ok((token, chain + [NextRecord(token.fields.tokenId, chain, key, receiver, amount, nonce)]))
  }

  function Sent(key: Key, reg: Register, id: string, receiver: Key, nonce: string, now: int)
    : (Register, Result<(Token, seq<Record>), Failure>)
  {
    if id !in reg.entries then (reg, Err(WalletState)) else
      var receipt := reg.entries[id];
      var out := Outgoing(key, receipt, receiver, nonce, now);
      (if out.Ok? then TakenOut(reg, id) else Restored(TakenOut(reg, id), receipt), out)
  }

  /** The random ids and nonces one split draws. */
  datatype SplitDraw = SplitDraw(paymentId: string, changeId: string, paymentNonce: string, changeNonce: string)

  datatype Split = Split(payment: Token, paymentChain: seq<Record>, change: Token, changeChain: seq<Record>)

  function SplitToken(key: Key, issuerLabel: Key, original: Token, id: string, amount: int, now: int): Token {
    var fields := TokenFields(id, issuerLabel, amount, now, original.fields.ttlExpiry);
    Token(fields, Signed(key, TokenMessage(fields)))
  }

  /** The part of swap_change between spend and restore. */
  function SplitUp(key: Key, receipt: Receipt, amount: int, receiver: Key, issuerLabel: Key, draw: SplitDraw, now: int)
    : Result<Split, Failure>
  {
    if receipt.token.None? then Err(WalletState) else
      var original := receipt.token.value;
      var rest := original.fields.amount - amount;
      if amount <= 0 || amount >= original.fields.amount then Err(InsufficientFunds)
      else if amount > MAX_SINGLE_TX || rest > MAX_SINGLE_TX then Err(TransactionValueCap)
      else
        var payment := SplitToken(key, issuerLabel, original, draw.paymentId, amount, now);
        var change := SplitToken(key, issuerLabel, original, draw.changeId, rest, now);
        Ok(Split(payment, [FirstRecord(payment, key, receiver, draw.paymentNonce)],
                 change, [FirstRecord(change, key, key, draw.changeNonce)]))
  }

  /** swap_change; only the two split-amount errors put the token back. */
  function Swapped(key: Key, reg: Register, id: string, amount: int, receiver: Key, issuerLabel: Key,
                   draw: SplitDraw, now: int)
    : (Register, Result<Split, Failure>)
  {
    if id !in reg.entries then (reg, Err(WalletState)) else
      var receipt := reg.entries[id];
      var out := SplitUp(key, receipt, amount, receiver, issuerLabel, draw, now);
      var restored := out == Err(InsufficientFunds) || out == Err(TransactionValueCap);
      (if restored then Restored(TakenOut(reg, id), receipt) else TakenOut(reg, id), out)
  }

  class DPCWallet {
    const key: Key
    const utr: UnspentTokenRegister

    constructor (key: Key)
      ensures this.key == key && fresh(utr) && utr.Data() == Register(map[], {}, {})
    {
      this.key := key;
      utr := new UnspentTokenRegister();
    }

    method ReceiveToken(token: Token, records: seq<Record>, now: Reading) returns (r: Result<Receipt, Failure>)
      modifies utr
      ensures match Received(key, old(utr.Data()), token, records, now)
        case Ok(out) => r == Ok(out.1) && utr.Data() == out.0
        case Err(e) => r == Err(e) && utr.Data() == old(utr.Data())
    {
      var expired :- token.Expired(now.checkedAt);
      if expired {
        return Err(TokenExpired);
      }
      var chain := new TransferChain(records);
      var error := chain.ValidateIntegrity(token);
      if error.Some? {
        return Err(error.value);
      }
      var tip := records[|records| - 1];
      if tip.payload.receiver != key {
        return Err(WalletState);
      }
      var receipt := Receipt(token.fields.tokenId, now.receivedAt, tip, records, false, Some(token));
      error := utr.AddReceipt(receipt);
      if error.Some? {
        return Err(error.value);
      }
      return Ok(receipt);
    }

    method SendToken(id: string, receiver: Key, nonce: string,
                     now: int) returns (r: Result<(Token, seq<Record>), Failure>)
      modifies utr
      ensures (utr.Data(), r) == Sent(key, old(utr.Data()), id, receiver, nonce, now)
    {
      var receipt :- utr.Spend(id);
      r := TryOutgoing(receipt, receiver, nonce, now);
      if r.Err? {
        utr.RestoreUnspent(receipt);
      }
    }

    /** The try block of send_token */
    method TryOutgoing(receipt: Receipt, receiver: Key, nonce: string, now: int)
      returns (r: Result<(Token, seq<Record>), Failure>)
      ensures r == Outgoing(key, receipt, receiver, nonce, now)
    {
      if receipt.token.None? {
        return Err(WalletState);
      }
      var token := receipt.token.value;
      var expired :- token.Expired(now);
      if expired {
        return Err(TokenExpired);
      }
      var amount := receipt.finalHop.payload.amount;
      if amount > MAX_SINGLE_TX {
        return Err(TransactionValueCap);
      }
      var chain := new TransferChain(receipt.fullChain);
      var error := chain.ValidateIntegrity(token);
      if error.Some? {
        return Err(error.value);
      }
      var existing := receipt.fullChain;
      var priorOwners := set i | 0 <= i < |existing| :: existing[i].payload.sender;
      var hop := if receiver in priorOwners then 1 else existing[|existing| - 1].payload.hopIndex + 1;
      if hop > MAX_OFFLINE_HOPS {
        return Err(HopLimitExceeded);
      }
      var payload := Payload(token.fields.tokenId, hop, key, receiver, amount, nonce);
      var record := SignedRecord(payload, existing[|existing| - 1].chainHash);
      return Ok((token, existing + [record]));
    }

    method SwapChange(id: string, amount: int, receiver: Key, issuerLabel: Key, draw: SplitDraw, now: int)
      returns (r: Result<Split, Failure>)
      modifies utr
      ensures (utr.Data(), r) == Swapped(key, old(utr.Data()), id, amount, receiver, issuerLabel, draw, now)
    {
      var receipt :- utr.Spend(id);
      r := TrySplit(receipt, amount, receiver, issuerLabel, draw, now);
      if r == Err(InsufficientFunds) || r == Err(TransactionValueCap) {
        utr.RestoreUnspent(receipt);
      }
    }

    /** The try block of swap_change */
    method TrySplit(receipt: Receipt, amount: int, receiver: Key, issuerLabel: Key, draw: SplitDraw, now: int)
      returns (r: Result<Split, Failure>)
      ensures r == SplitUp(key, receipt, amount, receiver, issuerLabel, draw, now)
    {
      if receipt.token.None? {
        return Err(WalletState);
      }
      var original := receipt.token.value;
      if amount <= 0 || amount >= original.fields.amount {
        return Err(InsufficientFunds);
      }
      var rest := original.fields.amount - amount;
      if amount > MAX_SINGLE_TX || rest > MAX_SINGLE_TX {
        return Err(TransactionValueCap);
      }
      var payment := SplitToken(key, issuerLabel, original, draw.paymentId, amount, now);
      var change := SplitToken(key, issuerLabel, original, draw.changeId, rest, now);
      var paymentChain := [FirstRecord(payment, key, receiver, draw.paymentNonce)];
      var changeChain := [FirstRecord(change, key, key, draw.changeNonce)];
      return Ok(Split(payment, paymentChain, change, changeChain));
    }
  }
}
