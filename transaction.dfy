/**
  A value-transfer record: an output map from address to amount and a signed
  input (timestamp, amount, address, signature).

  The collaborators the record relies on are parameters here:
  - a wallet's `sign` is a function field of `Wallet`;
  - `verifySignature` is a `Verifier` argument;
  - `uuid()` and `Date.now()` arrive as the `id` and `now` arguments;
  - `MINING_REWARD` and `REWARD_INPUT` arrive in a `Config`.
  Amounts are mathematical integers.
*/
module Transactions {
  import opened Dict

  type Address = string
  type Id = string
  type Signature = string

  /** An output map: address to amount, in insertion order. */
  type Outputs = seq<(Address, int)>

  datatype Input = Input(timestamp: int, amount: int, address: Address, signature: Signature)

  /** The part of a wallet a transaction reads: its key, its balance and its signing operation. */
  datatype Wallet = Wallet(publicKey: Address, balance: int, sign: Outputs -> Signature)

  /** `verifySignature({ publicKey, data, signature })`. */
  type Verifier = (Address, Outputs, Signature) -> bool

  /** The configuration constants a reward transaction uses. */
  datatype Config = Config(miningReward: int, rewardInput: Input)

  /** A transaction as a value: what a pool stores and a block carries. */
  datatype Tx = Tx(id: Id, outputMap: Outputs, input: Input)

  datatype Outcome = Updated | AmountExceedsBalance

  /** The signatures a wallet makes are the ones the verifier accepts for its key. */
  ghost predicate SignsFor(verify: Verifier, w: Wallet)
  {
    forall m: Outputs :: verify(w.publicKey, m, w.sign(m))
  }

  function Sum(vs: seq<int>): int
  {
    if vs == [] then 0 else vs[0] + Sum(vs[1..])
  }

  /** The total an output map represents. */
  function Total(m: Outputs): int
  {
    Sum(Values(m))
  }

  /** The outputs add up to the amount the input declares. */
  predicate Balanced(tx: Tx)
  {
    Total(tx.outputMap) == tx.input.amount
  }

  lemma {:induction false} SumSnoc(vs: seq<int>, x: int)
    ensures Sum(vs + [x]) == Sum(vs) + x
  {
    if vs != [] {
      assert (vs + [x])[1..] == vs[1..] + [x];
      SumSnoc(vs[1..], x);
    }
  }

  /** `values.reduce((total, v) => total + v)`: a left fold with no seed, undefined on no values. */
  function Reduce(vs: seq<int>): (r: int)
    requires vs != []
    ensures r == Sum(vs)
    decreases |vs|
  {
    if |vs| == 1 then vs[0]
    else
      var init := vs[..|vs| - 1];
      assert vs == init + [vs[|vs| - 1]];
      SumSnoc(init, vs[|vs| - 1]);
      Reduce(init) + vs[|vs| - 1]
  }

  /** Assigning `v` to `k` changes the total by the difference from the old value (zero if absent). */
  lemma {:induction false} TotalPut(m: Outputs, k: Address, v: int)
    ensures Total(Put(m, k, v)) == Total(m) - GetOr(m, k, 0) + v
  {
    if m != [] && m[0].0 != k {
      TotalPut(m[1..], k, v);
    }
  }

  lemma TotalSingle(k: Address, v: int)
    ensures Total([(k, v)]) == v
  {
    assert Values([(k, v)]) == [v];
    assert [v][1..] == [];
    assert Sum([v]) == v + Sum([]);
  }

  /** The freshly built output map: the recipient gets `amount`, the sender the rest of its balance. */
  function CreateOutputMap(senderWallet: Wallet, recipient: Address, amount: int): (r: Outputs)
    ensures UniqueKeys(r)
    ensures Keys(r) == {recipient, senderWallet.publicKey}
    ensures Get(r, senderWallet.publicKey) == Some(senderWallet.balance - amount)
    ensures recipient != senderWallet.publicKey ==> Get(r, recipient) == Some(amount)
    ensures recipient != senderWallet.publicKey ==> Total(r) == senderWallet.balance
    ensures recipient == senderWallet.publicKey ==> Total(r) == senderWallet.balance - amount
    ensures recipient != senderWallet.publicKey ==> r == [(recipient, amount), (senderWallet.publicKey, senderWallet.balance - amount)]
  {
    var withRecipient := Put([], recipient, amount);
    assert withRecipient == [(recipient, amount)];
    GetKeys(withRecipient, senderWallet.publicKey);
    TotalSingle(recipient, amount);
    KeysPut([], recipient, amount);
    KeysPut(withRecipient, senderWallet.publicKey, senderWallet.balance - amount);
    GetPut(withRecipient, senderWallet.publicKey, senderWallet.balance - amount, recipient);
    GetPut(withRecipient, senderWallet.publicKey, senderWallet.balance - amount, senderWallet.publicKey);
    PutUnique(withRecipient, senderWallet.publicKey, senderWallet.balance - amount);
    PutShape(withRecipient, senderWallet.publicKey, senderWallet.balance - amount);
    TotalPut(withRecipient, senderWallet.publicKey, senderWallet.balance - amount);
    Put(withRecipient, senderWallet.publicKey, senderWallet.balance - amount)
  }

  /** The input signing `outputMap` with the wallet's key at time `now`. */
  function CreateInput(senderWallet: Wallet, outputMap: Outputs, now: int): (r: Input)
    ensures r.timestamp == now && r.amount == senderWallet.balance && r.address == senderWallet.publicKey
    ensures r.signature == senderWallet.sign(outputMap)
  {
    Input(now, senderWallet.balance, senderWallet.publicKey, senderWallet.sign(outputMap))
  }

  /** What `update` does to the output map once the balance check passes. */
  function MoveAmount(m: Outputs, sender: Address, recipient: Address, amount: int): (r: Outputs)
    ensures Get(r, sender).Some? && Get(r, recipient).Some?
  {
    var raised := Put(m, recipient, GetOr(m, recipient, 0) + amount);
    GetPut(m, recipient, GetOr(m, recipient, 0) + amount, recipient);
    GetPut(raised, sender, GetOr(raised, sender, 0) - amount, sender);
    GetPut(raised, sender, GetOr(raised, sender, 0) - amount, recipient);
    Put(raised, sender, GetOr(raised, sender, 0) - amount)
  }

  /** Sending to oneself leaves one's own allocation as it was. */
  lemma MoveAmountSelfEntry(m: Outputs, sender: Address, recipient: Address, amount: int, k: Address)
    requires k == sender && k == recipient
    ensures Get(MoveAmount(m, sender, recipient, amount), k) == Some(GetOr(m, k, 0))
  {
    var v1 := GetOr(m, recipient, 0) + amount;
    GetPut(m, recipient, v1, sender);
    var v2 := GetOr(Put(m, recipient, v1), sender, 0) - amount;
    GetPutPut(m, recipient, v1, sender, v2, k);
  }

  /** The recipient's allocation rises by `amount`, from zero when absent. */
  lemma MoveAmountRecipientEntry(m: Outputs, sender: Address, recipient: Address, amount: int, k: Address)
    requires k != sender && k == recipient
    ensures Get(MoveAmount(m, sender, recipient, amount), k) == Some(GetOr(m, k, 0) + amount)
  {
    var v1 := GetOr(m, recipient, 0) + amount;
    GetPut(m, recipient, v1, sender);
    var v2 := GetOr(Put(m, recipient, v1), sender, 0) - amount;
    GetPutPut(m, recipient, v1, sender, v2, k);
  }

  /** The sender's allocation falls by `amount`. */
  lemma MoveAmountSenderEntry(m: Outputs, sender: Address, recipient: Address, amount: int, k: Address)
    requires k == sender && k != recipient
    ensures Get(MoveAmount(m, sender, recipient, amount), k) == Some(GetOr(m, k, 0) - amount)
  {
    var v1 := GetOr(m, recipient, 0) + amount;
    GetPut(m, recipient, v1, sender);
    var v2 := GetOr(Put(m, recipient, v1), sender, 0) - amount;
    GetPutPut(m, recipient, v1, sender, v2, k);
  }

  /** Every other address reads as before, present or absent. */
  lemma MoveAmountOtherEntry(m: Outputs, sender: Address, recipient: Address, amount: int, k: Address)
    requires k != sender && k != recipient
    ensures Get(MoveAmount(m, sender, recipient, amount), k) == Get(m, k)
  {
    var v1 := GetOr(m, recipient, 0) + amount;
    GetPut(m, recipient, v1, sender);
    var v2 := GetOr(Put(m, recipient, v1), sender, 0) - amount;
    GetPutPut(m, recipient, v1, sender, v2, k);
  }

  /**
    The recipient's allocation rises by `amount` (from zero when absent), the
    sender's falls by `amount`, and every other address reads as before.
  */
  lemma MoveAmountAllocations(m: Outputs, sender: Address, recipient: Address, amount: int, k: Address)
    ensures Get(MoveAmount(m, sender, recipient, amount), k) ==
      if k == sender && k == recipient then Some(GetOr(m, k, 0))
      else if k == recipient then Some(GetOr(m, k, 0) + amount)
      else if k == sender then Some(GetOr(m, k, 0) - amount)
      else Get(m, k)
  {
    if k == sender && k == recipient {
      MoveAmountSelfEntry(m, sender, recipient, amount, k);
    } else if k == recipient {
      MoveAmountRecipientEntry(m, sender, recipient, amount, k);
    } else if k == sender {
      MoveAmountSenderEntry(m, sender, recipient, amount, k);
    } else {
      MoveAmountOtherEntry(m, sender, recipient, amount, k);
    }
  }

  /** `MoveAmount` as the two assignments it makes, once their values are known. */
  lemma MoveAmountAssigns(m: Outputs, sender: Address, recipient: Address, amount: int, raisedTo: int, loweredTo: int)
    requires raisedTo == GetOr(m, recipient, 0) + amount
    requires loweredTo == GetOr(Put(m, recipient, raisedTo), sender, 0) - amount
    ensures MoveAmount(m, sender, recipient, amount) == Put(Put(m, recipient, raisedTo), sender, loweredTo)
  {
  }

  /** Only the sender and the recipient can be new keys. */
  lemma MoveAmountKeys(m: Outputs, sender: Address, recipient: Address, amount: int)
    ensures Keys(MoveAmount(m, sender, recipient, amount)) == Keys(m) + {sender, recipient}
  {
    var v1 := GetOr(m, recipient, 0) + amount;
    var raised := Put(m, recipient, v1);
    KeysPut(m, recipient, v1);
    KeysPut(raised, sender, GetOr(raised, sender, 0) - amount);
  }

  /** The keys already present keep their positions. */
  lemma MoveAmountKeepsOrder(m: Outputs, sender: Address, recipient: Address, amount: int)
    ensures |MoveAmount(m, sender, recipient, amount)| >= |m|
    ensures forall i :: 0 <= i < |m| ==> MoveAmount(m, sender, recipient, amount)[i].0 == m[i].0
  {
    var v1 := GetOr(m, recipient, 0) + amount;
    var raised := Put(m, recipient, v1);
    var v2 := GetOr(raised, sender, 0) - amount;
    assert MoveAmount(m, sender, recipient, amount) == Put(raised, sender, v2);
    PutKeepsOrder(m, recipient, v1);
    PutKeepsOrder(raised, sender, v2);
  }

  /** No key is repeated afterwards. */
  lemma MoveAmountUnique(m: Outputs, sender: Address, recipient: Address, amount: int)
    requires UniqueKeys(m)
    ensures UniqueKeys(MoveAmount(m, sender, recipient, amount))
  {
    var v1 := GetOr(m, recipient, 0) + amount;
    var raised := Put(m, recipient, v1);
    PutUnique(m, recipient, v1);
    PutUnique(raised, sender, GetOr(raised, sender, 0) - amount);
  }

  /** Moving an amount between allocations keeps the total. */
  lemma MoveAmountTotal(m: Outputs, sender: Address, recipient: Address, amount: int)
    ensures Total(MoveAmount(m, sender, recipient, amount)) == Total(m)
  {
    var v1 := GetOr(m, recipient, 0) + amount;
    var raised := Put(m, recipient, v1);
    var v2 := GetOr(raised, sender, 0) - amount;
    TotalPut(m, recipient, v1);
    TotalPut(raised, sender, v2);
  }

  /** Sending to oneself leaves the output map exactly as it was. */
  lemma MoveAmountToSelf(m: Outputs, sender: Address, amount: int)
    requires sender in Keys(m)
    ensures MoveAmount(m, sender, sender, amount) == m
  {
    GetKeys(m, sender);
    GetPut(m, sender, GetOr(m, sender, 0) + amount, sender);
    PutPut(m, sender, GetOr(m, sender, 0) + amount, GetOr(m, sender, 0));
    PutSame(m, sender);
  }

  /**
    `Transaction.validTransaction`: the outputs, summed as `reduce` sums them,
    equal `input.amount`, and the verifier accepts the signature over the output
    map for `input.address`. The sum is checked first.
  */
  function ValidTransaction(verify: Verifier, tx: Tx): (r: bool)
    requires tx.outputMap != []
    ensures r <==> Balanced(tx) && verify(tx.input.address, tx.outputMap, tx.input.signature)
  {
    var outputTotal := Reduce(Values(tx.outputMap));
    if tx.input.amount != outputTotal then false
    else if !verify(tx.input.address, tx.outputMap, tx.input.signature) then false
    else true
  }

  /** An unbalanced transaction is rejected whatever the verifier says. */
  lemma UnbalancedRejected(verify: Verifier, other: Verifier, tx: Tx)
    requires tx.outputMap != [] && !Balanced(tx)
    ensures !ValidTransaction(verify, tx) && ValidTransaction(verify, tx) == ValidTransaction(other, tx)
  {
  }

  /** Changing one output value after signing breaks the balance, so validation fails. */
  lemma TamperedOutputRejected(verify: Verifier, tx: Tx, k: Address, v: int)
    requires tx.outputMap != [] && ValidTransaction(verify, tx)
    requires k in Keys(tx.outputMap) && v != GetOr(tx.outputMap, k, 0)
    ensures !ValidTransaction(verify, tx.(outputMap := Put(tx.outputMap, k, v)))
  {
    TotalPut(tx.outputMap, k, v);
    KeysPut(tx.outputMap, k, v);
    assert k in Keys(Put(tx.outputMap, k, v));
  }

  /**
    A transaction built from a wallet for a recipient other than the sender
    balances, declares the wallet's balance and address, and passes validation
    when the wallet signs for the verifier.
  */
  lemma BuiltTransactionValid(verify: Verifier, w: Wallet, id: Id, recipient: Address, amount: int, now: int)
    requires recipient != w.publicKey
    ensures var om := CreateOutputMap(w, recipient, amount);
      var tx := Tx(id, om, CreateInput(w, om, now));
      && Balanced(tx) && tx.input.amount == w.balance && tx.input.address == w.publicKey
      && (SignsFor(verify, w) ==> ValidTransaction(verify, tx))
  {
  }

  /**
    After a successful update, the transaction is still valid provided the
    wallet's balance still equals the total it allocated.
  */
  lemma UpdatedTransactionValid(verify: Verifier, tx: Tx, w: Wallet, recipient: Address, amount: int, now: int)
    requires Total(tx.outputMap) == w.balance && SignsFor(verify, w)
    ensures var om := MoveAmount(tx.outputMap, w.publicKey, recipient, amount);
      om != [] && ValidTransaction(verify, Tx(tx.id, om, CreateInput(w, om, now)))
  {
    var om := MoveAmount(tx.outputMap, w.publicKey, recipient, amount);
    MoveAmountKeys(tx.outputMap, w.publicKey, recipient, amount);
    MoveAmountTotal(tx.outputMap, w.publicKey, recipient, amount);
    assert w.publicKey in Keys(om);
  }

  /** The reward output map has exactly one entry: the miner's key with the mining reward. */
  function RewardOutputs(cfg: Config, minerWallet: Wallet): (r: Outputs)
    ensures |r| == 1 && Keys(r) == {minerWallet.publicKey}
    ensures Get(r, minerWallet.publicKey) == Some(cfg.miningReward)
    ensures Total(r) == cfg.miningReward
  {
    TotalSingle(minerWallet.publicKey, cfg.miningReward);
    KeysPut([], minerWallet.publicKey, cfg.miningReward);
    [(minerWallet.publicKey, cfg.miningReward)]
  }

  /** A transaction record whose output map and input the methods below maintain in place. */
  class Transaction {
    var id: Id
    var outputMap: Outputs
    var input: Input

    predicate WellFormed()
      reads this
    {
      UniqueKeys(outputMap)
    }

    /**
      Adopts `givenOutputMap` and `givenInput` when present; otherwise builds
      each from `senderWallet`, the input signing the output map just chosen.
    */
    constructor (id: Id, now: int, senderWallet: Option<Wallet>, recipient: Address, amount: int,
                 givenOutputMap: Option<Outputs>, givenInput: Option<Input>)
      requires givenOutputMap.None? || givenInput.None? ==> senderWallet.Some?
      requires givenOutputMap.Some? ==> UniqueKeys(givenOutputMap.value)
      ensures WellFormed() && this.id == id
      ensures givenOutputMap.Some? ==> this.outputMap == givenOutputMap.value
      ensures givenOutputMap.None? ==> this.outputMap == CreateOutputMap(senderWallet.value, recipient, amount)
      ensures givenInput.Some? ==> this.input == givenInput.value
      ensures givenInput.None? ==> this.input == CreateInput(senderWallet.value, this.outputMap, now)
    {
      this.id := id;
      var om := if givenOutputMap.Some? then givenOutputMap.value
                else CreateOutputMap(senderWallet.value, recipient, amount);
      this.outputMap := om;
      this.input := if givenInput.Some? then givenInput.value else CreateInput(senderWallet.value, om, now);
    }

    /**
      Moves `amount` from the sender's remaining allocation to `recipient` and
      signs again; fails, changing nothing, when the allocation is below `amount`.
    */
    method Update(senderWallet: Wallet, recipient: Address, amount: int, now: int) returns (r: Outcome)
      requires WellFormed() && senderWallet.publicKey in Keys(outputMap)
      modifies this
      ensures WellFormed() && id == old(id)
      ensures r == if old(GetOr(outputMap, senderWallet.publicKey, 0)) < amount then AmountExceedsBalance else Updated
      ensures r == AmountExceedsBalance ==> outputMap == old(outputMap) && input == old(input)
      ensures r == Updated ==> outputMap == MoveAmount(old(outputMap), senderWallet.publicKey, recipient, amount)
      ensures r == Updated ==> input == CreateInput(senderWallet, outputMap, now)
    {
      var senderKey := senderWallet.publicKey;
      GetKeys(outputMap, senderKey);
      if Get(outputMap, senderKey).value < amount {
        return AmountExceedsBalance;
      }
      ghost var before := outputMap;
      var current := Get(outputMap, recipient);
      var raisedTo: int;
      if current.None? || current.value == 0 {
        raisedTo := amount;
      } else {
        raisedTo := current.value + amount;
      }
      assert raisedTo == GetOr(before, recipient, 0) + amount;
      outputMap := Put(outputMap, recipient, raisedTo);
      PutUnique(before, recipient, raisedTo);
      GetPut(before, recipient, raisedTo, senderKey);
      ghost var raised := outputMap;
      var loweredTo := Get(outputMap, senderKey).value - amount;
      assert loweredTo == GetOr(raised, senderKey, 0) - amount;
      outputMap := Put(outputMap, senderKey, loweredTo);
      PutUnique(raised, senderKey, loweredTo);
      MoveAmountAssigns(before, senderKey, recipient, amount, raisedTo, loweredTo);
      input := CreateInput(senderWallet, outputMap, now);
      r := Updated;
    }

    /** `Transaction.rewardTransaction`: the sentinel input and one output paying the miner. */
    static method RewardTransaction(id: Id, cfg: Config, minerWallet: Wallet) returns (t: Transaction)
      ensures fresh(t) && t.WellFormed() && t.id == id
      ensures t.input == cfg.rewardInput && t.outputMap == RewardOutputs(cfg, minerWallet)
    {
      t := new Transaction(id, 0, None, "", 0, Some(RewardOutputs(cfg, minerWallet)), Some(cfg.rewardInput));
    }
  }

  /**
    The walk-through of a wallet with balance 1000: sending 100 to B gives
    {B: 100, A: 900}; moving 50 more to C gives {B: 100, A: 850, C: 50}, still
    totalling 1000.
  */
  lemma Scenario(sign: Outputs -> Signature)
    ensures var w := Wallet("A", 1000, sign);
      var built := CreateOutputMap(w, "B", 100);
      && built == [("B", 100), ("A", 900)]
      && MoveAmount(built, "A", "C", 50) == [("B", 100), ("A", 850), ("C", 50)]
      && Total(MoveAmount(built, "A", "C", 50)) == 1000
  {
    var w := Wallet("A", 1000, sign);
    var built := CreateOutputMap(w, "B", 100);
    assert "C" !in Keys(built);
    GetKeys(built, "C");
    var raised := Put(built, "C", 50);
    PutShape(built, "C", 50);
    GetPut(built, "C", 50, "A");
    PutUnique(built, "C", 50);
    assert raised == [("B", 100), ("A", 900), ("C", 50)];
    PutOverwrites(raised, "A", 850, 1);
    assert raised[1 := ("A", 850)] == [("B", 100), ("A", 850), ("C", 50)];
    MoveAmountTotal(built, "A", "C", 50);
  }
}
