/**
  The pool of pending transactions: a table from transaction id to transaction,
  kept in the entry order a JavaScript object gives it. The pool stores
  transactions as values (`Tx`).
*/
module Pool {
  import opened Dict
  import opened Transactions

  /** The part of a block the pool reads: the transactions it carries. */
  datatype Block = Block(data: seq<Tx>)

  /** The ids of the transactions in `data`. */
  function TxIds(data: seq<Tx>): set<Id>
  {
    set t | t in data :: t.id
  }

  /** The ids of every transaction carried by some block of `chain`. */
  function ChainIds(chain: seq<Block>): set<Id>
  {
    set b, t | b in chain && t in b.data :: t.id
  }

  lemma TxIdsSnoc(data: seq<Tx>, j: nat)
    requires j < |data|
    ensures TxIds(data[..j + 1]) == TxIds(data[..j]) + {data[j].id}
  {
    assert data[..j + 1] == data[..j] + [data[j]];
  }

  lemma ChainIdsSnoc(chain: seq<Block>, i: nat)
    requires i < |chain|
    ensures ChainIds(chain[..i + 1]) == ChainIds(chain[..i]) + TxIds(chain[i].data)
  {
    assert chain[..i + 1] == chain[..i] + [chain[i]];
  }

  /** Every transaction's output map is non-empty, so validating it is defined. */
  predicate AllHaveOutputs(txs: seq<Tx>)
  {
    forall i :: 0 <= i < |txs| ==> txs[i].outputMap != []
  }

  lemma AllHaveOutputsTail(a: seq<Tx>)
    requires a != [] && AllHaveOutputs(a)
    ensures AllHaveOutputs(a[1..])
  {
    assert forall i :: 0 <= i < |a| - 1 ==> a[1..][i] == a[i + 1];
  }

  /** `find` over transactions: the first one whose input comes from `address`. */
  function FindBySender(txs: seq<Tx>, address: Address): (r: Option<Tx>)
    ensures r.None? <==> forall i :: 0 <= i < |txs| ==> txs[i].input.address != address
    ensures r.Some? ==> r.value.input.address == address
    ensures r.Some? ==> exists i :: 0 <= i < |txs| && txs[i] == r.value &&
                          forall j :: 0 <= j < i ==> txs[j].input.address != address
  {
    if txs == [] then None
    else if txs[0].input.address == address then Some(txs[0])
    else
      var r := FindBySender(txs[1..], address);
      assert forall i :: 1 <= i < |txs| ==> txs[i] == txs[1..][i - 1];
      assert r.Some? ==> exists i :: 0 <= i < |txs| && txs[i] == r.value &&
                           forall j :: 0 <= j < i ==> txs[j].input.address != address by {
        if r.Some? {
          var i :| 0 <= i < |txs[1..]| && txs[1..][i] == r.value &&
            forall j :: 0 <= j < i ==> txs[1..][j].input.address != address;
          assert txs[i + 1] == r.value;
          assert forall j :: 0 <= j < i + 1 ==> txs[j].input.address != address by {
            assert forall j :: 1 <= j < i + 1 ==> txs[j] == txs[1..][j - 1];
          }
        }
      }
      r
  }

  /** `filter` with `Transaction.validTransaction`: the valid transactions, in order. */
  function FilterValid(verify: Verifier, txs: seq<Tx>): (r: seq<Tx>)
    requires AllHaveOutputs(txs)
    ensures |r| <= |txs|
  {
    if txs == [] then []
    else
      AllHaveOutputsTail(txs);
      var rest := FilterValid(verify, txs[1..]);
      if ValidTransaction(verify, txs[0]) then [txs[0]] + rest else rest
  }

  /** The filtered list holds exactly the valid transactions of the list. */
  lemma {:induction false} FilterValidMembers(verify: Verifier, txs: seq<Tx>)
    requires AllHaveOutputs(txs)
    ensures forall t :: t in FilterValid(verify, txs) <==> t in txs && t.outputMap != [] && ValidTransaction(verify, t)
  {
    if txs != [] {
      AllHaveOutputsTail(txs);
      FilterValidMembers(verify, txs[1..]);
      assert forall t :: t in txs <==> t == txs[0] || t in txs[1..];
    }
  }

  lemma AllHaveOutputsAppend(a: seq<Tx>, b: seq<Tx>)
    requires AllHaveOutputs(a) && AllHaveOutputs(b)
    ensures AllHaveOutputs(a + b)
  {
  }

  /** Filtering keeps order: it distributes over concatenation. */
  lemma {:induction false} FilterValidAppend(verify: Verifier, a: seq<Tx>, b: seq<Tx>)
    requires AllHaveOutputs(a) && AllHaveOutputs(b)
    ensures AllHaveOutputs(a + b)
    ensures FilterValid(verify, a + b) == FilterValid(verify, a) + FilterValid(verify, b)
  {
    AllHaveOutputsAppend(a, b);
    if a == [] {
      assert a + b == b;
    } else {
      assert (a + b)[0] == a[0];
      assert (a + b)[1..] == a[1..] + b;
      AllHaveOutputsTail(a);
      FilterValidAppend(verify, a[1..], b);
    }
  }

  /** A lookup of every id carried by the chain misses after the sweep; other ids read as before. */
  lemma ClearedLookup(m: seq<(Id, Tx)>, chain: seq<Block>, k: Id)
    ensures Get(Without(m, ChainIds(chain)), k) ==
      if exists b, t :: b in chain && t in b.data && t.id == k then None else Get(m, k)
  {
    GetWithout(m, ChainIds(chain), k);
  }

  /** Sweeping the same chain twice is sweeping it once. */
  lemma ClearTwice(m: seq<(Id, Tx)>, chain: seq<Block>)
    ensures Without(Without(m, ChainIds(chain)), ChainIds(chain)) == Without(m, ChainIds(chain))
  {
    WithoutWithout(m, ChainIds(chain), ChainIds(chain));
    assert ChainIds(chain) + ChainIds(chain) == ChainIds(chain);
  }

  /** Once a transaction is set, a search for its sender finds a pooled transaction from that sender. */
  lemma SetThenExisting(m: seq<(Id, Tx)>, tx: Tx)
    ensures var found := FindBySender(Values(Put(m, tx.id, tx)), tx.input.address);
      found.Some? && found.value.input.address == tx.input.address && found.value in Values(Put(m, tx.id, tx))
  {
    var s := Put(m, tx.id, tx);
    GetPut(m, tx.id, tx, tx.id);
    GetFound(s, tx.id);
    var i :| 0 <= i < |s| && s[i] == (tx.id, tx) && forall j :: 0 <= j < i ==> s[j].0 != tx.id;
    assert Values(s)[i] == tx;
  }

  /** Setting the same transaction twice is setting it once. */
  lemma SetTransactionIdempotent(m: seq<(Id, Tx)>, tx: Tx)
    ensures Put(Put(m, tx.id, tx), tx.id, tx) == Put(m, tx.id, tx)
  {
    PutPut(m, tx.id, tx, tx);
  }

  class TransactionPool {
    var transactionMap: seq<(Id, Tx)>

    predicate WellFormed()
      reads this
    {
      UniqueKeys(transactionMap)
    }

    /** A new pool is empty. */
    constructor ()
      ensures WellFormed() && transactionMap == []
      ensures forall a :: ExistingTransaction(a).None?
    {
      transactionMap := [];
    }

    /** Empties the pool. */
    method Clear()
      modifies this
      ensures WellFormed() && transactionMap == []
      ensures forall a :: ExistingTransaction(a).None?
    {
      transactionMap := [];
    }

    /**
      Deletes from the pool every transaction whose id a block of `chain`
      carries; ids the pool does not hold are passed over.
    */
    method ClearBlockchainTransactions(chain: seq<Block>)
      requires WellFormed()
      modifies this
      ensures WellFormed()
      ensures transactionMap == Without(old(transactionMap), ChainIds(chain))
    {
      ghost var start := transactionMap;
      ghost var deleted: set<Id> := {};
      WithoutAbsent(start, {});
      assert chain[..0] == [];
      var i := 0;
      while i < |chain|
        invariant 0 <= i <= |chain|
        invariant deleted == ChainIds(chain[..i])
        invariant transactionMap == Without(start, deleted)
        invariant UniqueKeys(transactionMap)
      {
        var data := chain[i].data;
        ghost var swept := deleted;
        assert data[..0] == [];
        var j := 0;
        while j < |data|
          invariant 0 <= j <= |data|
          invariant deleted == swept + TxIds(data[..j])
          invariant transactionMap == Without(start, deleted)
          invariant UniqueKeys(transactionMap)
        {
          var id := data[j].id;
          if Get(transactionMap, id).Some? {
            assert UniqueKeys(Without(transactionMap, {id})) && Without(transactionMap, {id}) == Without(start, deleted + {id}) by {
              WithoutUnique(transactionMap, {id});
              WithoutWithout(start, deleted, {id});
            }
            transactionMap := Without(transactionMap, {id});
          } else {
            assert transactionMap == Without(start, deleted + {id}) by {
              WithoutMissing(start, deleted, id);
            }
          }
          assert deleted + {id} == swept + TxIds(data[..j + 1]) by {
            TxIdsSnoc(data, j);
          }
          deleted := deleted + {id};
          j := j + 1;
        }
        assert deleted == ChainIds(chain[..i + 1]) by {
          assert data[..|data|] == data;
          ChainIdsSnoc(chain, i);
        }
        i := i + 1;
      }
      assert chain[..|chain|] == chain;
    }

    /** Adds `tx` under its id, or replaces the entry with that id in place. */
    method SetTransaction(tx: Tx)
      requires WellFormed()
      modifies this
      ensures WellFormed()
      ensures transactionMap == Put(old(transactionMap), tx.id, tx)
      ensures Get(transactionMap, tx.id) == Some(tx)
      ensures forall k :: k != tx.id ==> Get(transactionMap, k) == Get(old(transactionMap), k)
    {
      ghost var before := transactionMap;
      transactionMap := Put(transactionMap, tx.id, tx);
      PutUnique(before, tx.id, tx);
      forall k
        ensures Get(transactionMap, k) == if k == tx.id then Some(tx) else Get(before, k)
      {
        GetPut(before, tx.id, tx, k);
      }
    }

    /** Replaces the whole table. */
    method SetMap(m: seq<(Id, Tx)>)
      requires UniqueKeys(m)
      modifies this
      ensures WellFormed() && transactionMap == m
    {
      transactionMap := m;
    }

    /** The first pooled transaction, in entry order, whose input comes from `inputAddress`. */
    function ExistingTransaction(inputAddress: Address): (r: Option<Tx>)
      reads this
      ensures r.None? <==> forall i :: 0 <= i < |transactionMap| ==> transactionMap[i].1.input.address != inputAddress
      ensures r.Some? ==> r.value.input.address == inputAddress
      ensures r.Some? ==> exists i :: 0 <= i < |transactionMap| && transactionMap[i].1 == r.value &&
                            forall j :: 0 <= j < i ==> transactionMap[j].1.input.address != inputAddress
    {
      FindBySender(Values(transactionMap), inputAddress)
    }

    /** The pooled transactions that pass validation, in entry order. */
    function ValidTransactions(verify: Verifier): (r: seq<Tx>)
      reads this
      requires forall i :: 0 <= i < |transactionMap| ==> transactionMap[i].1.outputMap != []
      ensures forall t :: t in r <==> t in Values(transactionMap) && t.outputMap != [] && ValidTransaction(verify, t)
    {
      FilterValidMembers(verify, Values(transactionMap));
      FilterValid(verify, Values(transactionMap))
    }
  }
}
