/** `TransactionsSet` and `calcCost` (src/core/transactions_set.cpp). */
module TransactionsSet {
  import opened Types
  import opened Blocks

  /** The transactions of a vector, as equality sees them: signatures aside. */
  ghost function Members(txs: seq<Transaction>): set<Transaction> {
    set tx | tx in txs :: tx.Unsigned()
  }

  ghost predicate NoDuplicates(txs: seq<Transaction>) {
    forall i, j :: 0 <= i < j < |txs| ==> txs[i].Unsigned() != txs[j].Unsigned()
  }

  /** Swap-with-last removal of the first equal transaction. */
  function Removed(txs: seq<Transaction>, i: nat): seq<Transaction>
    requires i < |txs|
  {
    txs[i := txs[|txs| - 1]][..|txs| - 1]
  }

  lemma {:induction false} RemovedMembers(txs: seq<Transaction>, i: nat)
    requires i < |txs| && NoDuplicates(txs)
    ensures NoDuplicates(Removed(txs, i))
    ensures Members(Removed(txs, i)) == Members(txs) - {txs[i].Unsigned()}
  {
    var n, out := |txs|, Removed(txs, i);
    forall tx | tx in txs && tx.Unsigned() != txs[i].Unsigned() ensures tx in out {
      var k :| 0 <= k < n && txs[k] == tx;
      assert out[if k == n - 1 then i else k] == tx;
    }
    forall k | 0 <= k < |out| ensures out[k] in txs && out[k].Unsigned() != txs[i].Unsigned() {
      assert out[k] == if k == i then txs[n - 1] else txs[k];
    }
  }

  class TransactionsSet {
    var txs: seq<Transaction>

    /** The vector is a set. */
    ghost predicate Valid()
      reads this
    {
      NoDuplicates(txs)
    }

    constructor ()
      ensures Valid() && txs == []
    {
      txs := [];
    }

    /** Index of the first equal transaction, or the length. */
    method FindIndex(tx: Transaction) returns (i: nat)
      ensures i <= |txs| && (i < |txs| ==> txs[i].Unsigned() == tx.Unsigned())
      ensures i < |txs| <==> tx.Unsigned() in Members(txs)
    {
      i := 0;
      while i < |txs| && txs[i].Unsigned() != tx.Unsigned()
        invariant i <= |txs| && forall k :: 0 <= k < i ==> txs[k].Unsigned() != tx.Unsigned()
      {
        i := i + 1;
      }
      assert i < |txs| ==> txs[i] in txs;
    }

    method Find(tx: Transaction) returns (found: bool)
      ensures found <==> tx.Unsigned() in Members(txs)
    {
      var i := FindIndex(tx);
      found := i < |txs|;
    }

    method Add(tx: Transaction)
      requires Valid()
      modifies this
      ensures Valid() && Members(txs) == Members(old(txs)) + {tx.Unsigned()}
      ensures txs == if tx.Unsigned() in Members(old(txs)) then old(txs) else old(txs) + [tx]
    {
      var found := Find(tx);
      if !found {
        ghost var before := txs;
        txs := txs + [tx];
        assert forall t :: t in txs <==> t in before || t == tx;
      }
    }

    method RemoveOne(tx: Transaction)
      requires Valid()
      modifies this
      ensures Valid() && Members(txs) == Members(old(txs)) - {tx.Unsigned()}
    {
      var i := FindIndex(tx);
      if i == |txs| {
        return;
      }
      RemovedMembers(txs, i);
      if i != |txs| - 1 {
        txs := txs[i := txs[|txs| - 1]];
      } else {
        assert txs[i := txs[|txs| - 1]] == txs;
      }
      txs := txs[..|txs| - 1];
    }

    /** Set difference, whatever the order and the repetitions in `other`. */
    method Remove(other: seq<Transaction>)
      requires Valid()
      modifies this
      ensures Valid() && Members(txs) == Members(old(txs)) - Members(other)
    {
      for k := 0 to |other|
        invariant Valid() && Members(txs) == Members(old(txs)) - Members(other[..k])
      {
        RemoveOne(other[k]);
        assert other[..k + 1] == other[..k] + [other[k]];
        assert Members(other[..k + 1]) == Members(other[..k]) + {other[k].Unsigned()};
      }
      assert other[..|other|] == other;
    }
  }

  /** The first cost of each sender: `std::map::insert` does not overwrite. */
  function CostOf(txs: seq<Transaction>): map<Address, nat> {
    if txs == [] then map[] else
      var m, tx := CostOf(txs[..|txs| - 1]), txs[|txs| - 1];
      if tx.from in m then m else m[tx.from := tx.amount + tx.fee]
  }

  lemma {:induction false} CostOfSenders(txs: seq<Transaction>, a: Address)
    ensures a in CostOf(txs) <==> exists tx :: tx in txs && tx.from == a
  {
    if txs == [] {
    } else {
      var front, last := txs[..|txs| - 1], txs[|txs| - 1];
      CostOfSenders(front, a);
      assert txs == front + [last];
    }
  }

  /** The cost recorded for a sender is that of his first transaction, whatever follows. */
  lemma {:induction false} CostOfFirst(txs: seq<Transaction>, i: nat)
    requires i < |txs| && forall k :: 0 <= k < i ==> txs[k].from != txs[i].from
    ensures txs[i].from in CostOf(txs) && CostOf(txs)[txs[i].from] == txs[i].amount + txs[i].fee
  {
    var front := txs[..|txs| - 1];
    if i < |front| {
      CostOfFirst(front, i);
    } else {
      CostOfSenders(front, txs[i].from);
    }
  }

  /** What a sender owes for all his transactions. */
  function Owed(txs: seq<Transaction>, a: Address): nat {
    if txs == [] then 0 else
      var last := txs[|txs| - 1];
      Owed(txs[..|txs| - 1], a) + if last.from == a then last.amount + last.fee else 0
  }

  /** The recorded cost is part of it; a sender without one owes nothing. */
  lemma {:induction false} CostIsOwed(txs: seq<Transaction>, a: Address)
    ensures if a in CostOf(txs) then CostOf(txs)[a] <= Owed(txs, a) else Owed(txs, a) == 0
  {
    if txs == [] {
    } else {
      CostIsOwed(txs[..|txs| - 1], a);
    }
  }

  /** Some cost does not fit 256 bits; the checked addition raises. */
  predicate CostOverflows(txs: seq<Transaction>) {
    exists i :: 0 <= i < |txs| && txs[i].amount + txs[i].fee > MAX_UINT256
  }

  /** Fewer transactions, no new overflow. */
  lemma {:induction false} CostsShrink(txs: seq<Transaction>, fewer: seq<Transaction>)
    requires Members(fewer) <= Members(txs) && !CostOverflows(txs)
    ensures !CostOverflows(fewer)
  {
    forall i | 0 <= i < |fewer| ensures fewer[i].amount + fewer[i].fee <= MAX_UINT256 {
      assert fewer[i].Unsigned() in Members(fewer);
      var tx :| tx in txs && tx.Unsigned() == fewer[i].Unsigned();
      assert tx.amount == fewer[i].Unsigned().amount && tx.fee == fewer[i].Unsigned().fee;
    }
  }

  method CalcCost(txs: seq<Transaction>) returns (r: Result<map<Address, nat>>)
    ensures r.Raised? <==> CostOverflows(txs)
    ensures r.Raised? ==> r.error == OverflowError
    ensures r.Ok? ==> r.value == CostOf(txs)
  {
    var result: map<Address, nat> := map[];
    for k := 0 to |txs|
      invariant result == CostOf(txs[..k])
      invariant forall i :: 0 <= i < k ==> txs[i].amount + txs[i].fee <= MAX_UINT256
    {
      var tx := txs[k];
      assert txs[..k + 1][..k] == txs[..k];
      if tx.amount + tx.fee > MAX_UINT256 {
        return Raised(OverflowError);
      }
      if tx.from !in result {
        result := result[tx.from := tx.amount + tx.fee];
      }
    }
    assert txs[..|txs|] == txs;
    return Ok(result);
  }

  ghost predicate DistinctSenders(txs: seq<Transaction>) {
    forall i, j :: 0 <= i < j < |txs| ==> txs[i].from != txs[j].from
  }

  /** With one transaction per sender the cost recorded is that transaction's. */
  lemma {:induction false} CostOfDistinct(txs: seq<Transaction>, i: nat)
    requires DistinctSenders(txs) && i < |txs|
    ensures txs[i].from in CostOf(txs) && CostOf(txs)[txs[i].from] == txs[i].amount + txs[i].fee
  {
    CostOfFirst(txs, i);
  }
}
