# Wallet transactions and the transaction pool

A model, in Dafny, of the transaction record and the pending-transaction pool
of a small proof-of-work cryptocurrency (the `wallet/` directory of the
repository).

- **Transaction** (`transaction.dfy`, module `Transactions`). A transaction
  moves value from one sender to one or more recipients. It holds:
  - an *output map* from address to amount;
  - a signed *input*: timestamp, amount, sender address and signature.
  The model covers four operations:
  - building a transaction from a sender wallet, or adopting a given output
    map and input;
  - updating a transaction in place: move `amount` from the sender's
    remainder to a recipient, then sign again;
  - validating it: the outputs must add up to `input.amount`, and the
    signature must verify;
  - building the reward (coinbase) transaction.
  `Transaction` is a class, because `update` changes its fields in place.
  `Tx` is the same record as a value.
- **Transaction pool** (`transaction_pool.dfy`, module `Pool`). A table from
  transaction id to transaction, with these operations:
  - insert or overwrite by id;
  - replace the whole table;
  - clear;
  - find the first transaction from a given sender;
  - the valid subset;
  - sweep out every id that a block of a chain carries.
- **Ordered tables** (`dict.dfy`, module `Dict`). Both components keep their
  data in a JavaScript object. A JavaScript object is modelled as a sequence of
  `(key, value)` entries with no repeated key:
  - assigning a present key replaces its value in place;
  - assigning a new key appends an entry;
  - `delete` removes the entry;
  - `Object.values` reads the values in entry order.
  The order matters for the pool's "first match" lookup and for the order of
  its filtered view.

The collaborators the code calls are parameters of the model:
- a wallet's `sign` is a function field of `Wallet`;
- `verifySignature` is a `Verifier` function argument;
- `uuid()` and `Date.now()` are the `id` and `now` arguments;
- `MINING_REWARD` and `REWARD_INPUT` come in a `Config` value.

Where a property depends on signatures, it is stated under the hypothesis
`SignsFor(verify, wallet)`: the wallet's signatures are the ones the verifier
accepts for its key.

`update` does not keep `input.amount` fixed. It rebuilds the input with
`createInput`, which takes the wallet's *current* balance
(wallet/transaction.js:57-60, 33-39). So the balance invariant survives an
update only while the wallet's balance still equals the total of the outputs.
`UpdatedTransactionValid` states exactly that condition.

## Model

| member | source | states |
|---|---|---|
| `Dict.GetPut` | wallet/transaction-pool.js:22-24 | after `o[k] = v`, reading `k` gives `v` and every other key reads as before |
| `Dict.PutShape` | wallet/transaction-pool.js:22-24 | assigning a new key appends one entry at the end; assigning a present key keeps the length and the key at every position |
| `Dict.PutOverwrites` | wallet/transaction-pool.js:22-24 | overwriting a present key replaces that entry at its own position and changes nothing else |
| `Dict.PutPut` | wallet/transaction-pool.js:22-24 | a second assignment to the same key wins, so assigning twice is assigning once |
| `Dict.GetWithout` | wallet/transaction-pool.js:16 | after deleting a set of keys, those keys read as absent and every other key reads as before |
| `Dict.KeysWithout` | wallet/transaction-pool.js:16 | deleting a set of keys removes exactly those keys |
| `Dict.WithoutAppend` | wallet/transaction-pool.js:16 | deletion distributes over concatenation, so the entries that remain keep their order |
| `Dict.WithoutWithout` | wallet/transaction-pool.js:12-20 | deleting one set of keys and then another is deleting their union |
| `Dict.Values` | wallet/transaction-pool.js:31 | `Object.values` has one value per entry, in entry order |
| `Transactions.Reduce` | wallet/transaction.js:73-75 | the seedless left-fold `reduce` of a non-empty list of amounts is their sum |
| `Transactions.TotalPut` | wallet/transaction.js:49-54 | assigning `v` to key `k` changes the total by `v` minus the old value of `k`, taken as zero when absent |
| `Transactions.CreateOutputMap` | wallet/transaction.js:24-31 | the built map has exactly the keys `recipient` and the sender; the sender gets `balance - amount`, whatever `amount` is; the recipient gets `amount` when it is not the sender; the total is the balance, or `balance - amount` when sending to oneself |
| `Transactions.CreateInput` | wallet/transaction.js:33-39 | the input carries the given time, the wallet's current balance as its amount, the wallet's key as its address, and the wallet's signature over the given output map |
| `Transactions.MoveAmount` | wallet/transaction.js:49-54 | after an update both the sender and the recipient have an entry; the lemmas below state their values, the untouched keys, the order and the total |
| `Transactions.MoveAmountAllocations` | wallet/transaction.js:49-54 | after an update the recipient's allocation is raised by `amount`, starting from zero when absent or zero, and the sender's is lowered by `amount`; every other address reads as before |
| `Transactions.MoveAmountKeys` | wallet/transaction.js:49-54 | an update adds no key other than the sender and the recipient |
| `Transactions.MoveAmountKeepsOrder` | wallet/transaction.js:49-54 | an update keeps every existing key at its position in the map |
| `Transactions.MoveAmountUnique` | wallet/transaction.js:49-54 | an update repeats no key |
| `Transactions.MoveAmountTotal` | wallet/transaction.js:49-54 | an update does not change the sum of the output amounts |
| `Transactions.MoveAmountToSelf` | wallet/transaction.js:49-54 | an update from the sender to itself leaves the output map exactly as it was |
| `Transactions.ValidTransaction` | wallet/transaction.js:66-95 | a transaction is valid iff its outputs sum to `input.amount` and the verifier accepts the signature over the output map for `input.address` |
| `Transactions.UnbalancedRejected` | wallet/transaction.js:77-80 | a sum mismatch makes validation false, and the verifier's answer does not matter, because the signature is not consulted |
| `Transactions.TamperedOutputRejected` | wallet/transaction.js:73-80 | changing any one output amount of a valid transaction makes it invalid |
| `Transactions.BuiltTransactionValid` | wallet/transaction.js:6-39 | a transaction built for another recipient balances, declares the wallet's balance and address, and is valid when the wallet signs for the verifier |
| `Transactions.UpdatedTransactionValid` | wallet/transaction.js:42-61 | an updated transaction is valid when the wallet signs for the verifier and its balance equals the map's total |
| `Transactions.RewardOutputs` | wallet/transaction.js:100-102 | the reward output map has one entry: the miner's key with the mining reward |
| `Transactions.Transaction.constructor` | wallet/transaction.js:6-22 | a given output map and a given input are stored unchanged; each is built from the wallet only when absent, and the input signs the output map just chosen |
| `Transactions.Transaction.Update` | wallet/transaction.js:42-61 | fails with `AmountExceedsBalance`, changing nothing, exactly when the sender's allocation is below `amount`; otherwise the map becomes `MoveAmount` of the old map, and the input is signed again over the new map with the wallet's current balance |
| `Transactions.Transaction.RewardTransaction` | wallet/transaction.js:97-104 | a fresh transaction whose input is the reward sentinel and whose output map pays the miner the mining reward |
| `Transactions.Scenario` | wallet/transaction.js:24-61 | a wallet `A` with balance 1000 sends 100 to `B`, giving `{B: 100, A: 900}`; moving 50 more to `C` gives `{B: 100, A: 850, C: 50}`, which totals 1000 |
| `Pool.FindBySender` | wallet/transaction-pool.js:30-36 | `find` returns the first transaction in order whose input address matches, and absent exactly when none matches |
| `Pool.FilterValid` | wallet/transaction-pool.js:38-42 | `filter` never lengthens the list; which transactions it keeps is stated by `Pool.FilterValidMembers`, and their order by `Pool.FilterValidAppend` |
| `Pool.FilterValidMembers` | wallet/transaction-pool.js:38-42 | a transaction is in the filtered list iff it is in the list and passes validation |
| `Pool.FilterValidAppend` | wallet/transaction-pool.js:38-42 | filtering distributes over concatenation, so it keeps the order of the transactions it keeps |
| `Pool.ClearedLookup` | wallet/transaction-pool.js:12-20 | after the sweep, an id that a block of the chain carries reads as absent; every other id keeps its transaction; chain ids the pool never held change nothing |
| `Pool.ClearTwice` | wallet/transaction-pool.js:12-20 | sweeping the same chain twice is sweeping it once |
| `Pool.SetThenExisting` | wallet/transaction-pool.js:22-36 | after setting a transaction, a search for its sender finds a pooled transaction from that sender |
| `Pool.SetTransactionIdempotent` | wallet/transaction-pool.js:22-24 | setting the same transaction twice is setting it once |
| `Pool.TransactionPool.constructor` | wallet/transaction-pool.js:4-6 | a new pool is empty, and no address has an existing transaction |
| `Pool.TransactionPool.Clear` | wallet/transaction-pool.js:8-10 | after clearing, the pool is empty and no address has an existing transaction |
| `Pool.TransactionPool.ClearBlockchainTransactions` | wallet/transaction-pool.js:12-20 | the nested loop over blocks and their transactions leaves the pool as it was, minus every id that some block carries |
| `Pool.TransactionPool.SetTransaction` | wallet/transaction-pool.js:22-24 | the table becomes the old table with `tx` assigned to its id: `tx` is stored under its id, and every other id keeps its entry |
| `Pool.TransactionPool.SetMap` | wallet/transaction-pool.js:26-28 | the table becomes exactly the given one |
| `Pool.TransactionPool.ExistingTransaction` | wallet/transaction-pool.js:30-36 | the first pooled transaction in entry order whose input address matches, or absent exactly when none does |
| `Pool.TransactionPool.ValidTransactions` | wallet/transaction-pool.js:38-42 | exactly the pooled transactions that pass validation, taken from the pool without changing it |

## Left out

- Cryptography is not modelled. `senderWallet.sign` is a function field, and `verifySignature` (`../util`) is a function argument. A tampered signature is detected only when the verifier rejects it, so no lemma claims that.
- `../util` and `../config` are not part of this model. `MINING_REWARD` and `REWARD_INPUT` are fields of the `Config` argument.
- `uuid()` and `Date.now()` are not modelled. Their values arrive as the arguments `id` and `now`.
- `console.error` diagnostics are left out. They are logging only.
- Amounts are mathematical integers. JavaScript numbers are floating point, and their rounding is not modelled.
- JavaScript lists keys that look like integers before other keys. This model keeps plain insertion order for every key.
- Reference sharing is not modelled, in three places:
  - The pool stores transactions as values (`Tx`). In the code, a later `update` of a pooled `Transaction` object also changes the pooled entry.
  - `setMap` stores the caller's own object (wallet/transaction-pool.js:27). In the code, later pool changes are seen through the caller's reference, and the caller's changes are seen by the pool. The model copies the table.
  - The constructor adopts the caller's `outputMap` object (wallet/transaction.js:9). In the code, a later `update` changes the caller's map too. The model's `Update` changes only the transaction's own field.
- Blocks are modelled only as their `data` list (`Pool.Block`). The block and blockchain module, mining, difficulty and chain validation are not part of this model. `average-work.js`, a benchmarking script, is not modelled either.
- `Transactions.ValidTransaction`: requires a non-empty output map. The code's `reduce` has no initial value and throws on an empty map.
- `Pool.TransactionPool.ValidTransactions`: requires every pooled output map to be non-empty, for the same reason.
- `Transactions.Transaction.Update`: requires the sender's key to be in the output map. With the key missing, the code compares `undefined < amount`, which is false. It then stores `NaN` under the sender's key, or `0` when the recipient is the sender (wallet/transaction.js:49-54). The model does not reproduce that.
- `Transactions.Transaction.constructor`: requires a wallet whenever the output map or the input must be built. The code reads `senderWallet.publicKey` and throws when no wallet is given. It also requires a given output map to repeat no key, as every JavaScript object satisfies.
- `Pool.TransactionPool.SetMap`: requires the given table to repeat no id, as every JavaScript object satisfies.
- `clearBlockchainTransactions` checks `if (this.transactionMap[id])`. The model treats that truth test as "the id is present". Pool entries are transaction objects, and those are always truthy.
