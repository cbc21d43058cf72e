/** Blocks of plain transfers with one transaction per sender: all succeed, in any order alike. */
module Transfers {
  import opened Types
  import opened Blocks
  import opened Accounts
  import opened Execution
  import opened Supply
  import opened TransactionsSet

  /** The balance test of `checkBlockTransactions`: every sender exists and can pay its recorded cost. */
  predicate SendersCanPay(l: Ledger, txs: seq<Transaction>) {
    var cost := CostOf(txs);
    forall i :: 0 <= i < |txs| ==>
      txs[i].from in l && txs[i].from in cost && cost[txs[i].from] <= l[txs[i].from].balance
  }

  /** The sender has no earlier transaction. */
  predicate IsFirst(txs: seq<Transaction>, i: int) {
    0 <= i < |txs| && forall k :: 0 <= k < i ==> txs[k].from != txs[i].from
  }

  /**
   The balance test of a block asks of each sender's first transaction, and of no other, that the account is there
   and covers it.
   */
  lemma {:induction false} CanPayIff(l: Ledger, txs: seq<Transaction>)
    ensures SendersCanPay(l, txs) <==>
            forall i :: IsFirst(txs, i) ==>
              txs[i].from in l && txs[i].amount + txs[i].fee <= l[txs[i].from].balance
  {
    hide CostOf;
    if SendersCanPay(l, txs) {
      forall i | IsFirst(txs, i) ensures txs[i].from in l && txs[i].amount + txs[i].fee <= l[txs[i].from].balance {
        CostOfFirst(txs, i);
      }
    }
    if forall i :: IsFirst(txs, i) ==>
         txs[i].from in l && txs[i].amount + txs[i].fee <= l[txs[i].from].balance
    {
      forall i | 0 <= i < |txs|
        ensures txs[i].from in l && txs[i].from in CostOf(txs) && CostOf(txs)[txs[i].from] <= l[txs[i].from].balance
      {
        var j := FirstOf(txs, i);
        CostOfFirst(txs, j);
      }
    }
  }

  lemma {:induction false} FirstOf(txs: seq<Transaction>, i: nat) returns (j: nat)
    requires i < |txs|
    ensures IsFirst(txs, j) && txs[j].from == txs[i].from
  {
    j := i;
    if k :| 0 <= k < i && txs[k].from == txs[i].from {
      j := FirstOf(txs, k);
    }
  }

  // ---------- sums over a block ----------

  ghost function Sum(txs: seq<Transaction>, f: Transaction -> int): int {
    if txs == [] then 0 else f(txs[0]) + Sum(txs[1..], f)
  }

  lemma {:induction false} SumConcat(xs: seq<Transaction>, ys: seq<Transaction>, f: Transaction -> int)
    ensures Sum(xs + ys, f) == Sum(xs, f) + Sum(ys, f)
  {
    if xs == [] {
      assert xs + ys == ys;
    } else {
      assert (xs + ys)[1..] == xs[1..] + ys;
      SumConcat(xs[1..], ys, f);
    }
  }

  lemma {:induction false} WithoutOne(ys: seq<Transaction>, k: nat, f: Transaction -> int)
    requires k < |ys|
    ensures Sum(ys, f) == f(ys[k]) + Sum(Removed(ys, k), f)
  {
    var before, after := ys[..k], ys[k + 1..];
    assert ys == before + ([ys[k]] + after);
    SumConcat(before, [ys[k]] + after, f);
    SumConcat([ys[k]], after, f);
    SumConcat(before, after, f);
    assert [ys[k]][1..] == [];
  }

  function Removed(ys: seq<Transaction>, k: nat): (r: seq<Transaction>)
    requires k < |ys|
    ensures |r| == |ys| - 1
  {
    ys[..k] + ys[k + 1..]
  }

  lemma {:induction false} RemovedBag(ys: seq<Transaction>, k: nat)
    requires k < |ys|
    ensures multiset(Removed(ys, k)) == multiset(ys) - multiset{ys[k]}
  {
    assert ys == ys[..k] + ([ys[k]] + ys[k + 1..]);
    assert multiset(ys) == multiset(ys[..k]) + multiset{ys[k]} + multiset(ys[k + 1..]);
  }

  /** A sum does not depend on the order. */
  lemma {:induction false} SumPermuted(xs: seq<Transaction>, ys: seq<Transaction>, f: Transaction -> int)
    requires multiset(xs) == multiset(ys)
    ensures Sum(xs, f) == Sum(ys, f)
    decreases |xs|
  {
    if xs == [] {
      assert |multiset(ys)| == 0;
    } else {
      hide Sum, Removed;
      var k := Locate(xs[0], ys, xs);
      WithoutOne(xs, 0, f);
      WithoutOne(ys, k, f);
      RemovedBag(xs, 0);
      RemovedBag(ys, k);
      SumPermuted(Removed(xs, 0), Removed(ys, k), f);
    }
  }

  lemma {:induction false} Locate(tx: Transaction, ys: seq<Transaction>, xs: seq<Transaction>) returns (k: nat)
    requires multiset(xs) == multiset(ys) && tx in xs
    ensures k < |ys| && ys[k] == tx
  {
    assert tx in multiset(ys);
    k :| 0 <= k < |ys| && ys[k] == tx;
  }

  /** What one transfer changes for account `x`. */
  function Effect(tx: Transaction, coinbase: Address, x: Address): int {
    (if x == tx.to then tx.amount else 0) + (if x == coinbase then tx.fee else 0)
      - (if x == tx.from then tx.amount + tx.fee else 0)
  }

  ghost function EffectOf(coinbase: Address, x: Address): Transaction -> int {
    (tx: Transaction) => Effect(tx, coinbase, x)
  }

  ghost function SentBy(a: Address): Transaction -> int {
    (tx: Transaction) => if tx.from == a then 1 else 0
  }

  lemma {:induction false} SentNonNegative(txs: seq<Transaction>, a: Address)
    ensures Sum(txs, SentBy(a)) >= 0
    ensures Sum(txs, SentBy(a)) >= 1 <==> exists i :: 0 <= i < |txs| && txs[i].from == a
  {
    if txs == [] {
    } else {
      SentNonNegative(txs[1..], a);
      if i :| 0 <= i < |txs[1..]| && txs[1..][i].from == a { assert txs[i + 1].from == a; }
      if i :| 0 <= i < |txs| && txs[i].from == a { assert i > 0 ==> txs[1..][i - 1].from == a; }
    }
  }

  /** One transaction per sender is a statement about sums. */
  lemma {:induction false} DistinctIsSum(txs: seq<Transaction>)
    ensures DistinctSenders(txs) <==> forall a :: Sum(txs, SentBy(a)) <= 1
  {
    if txs == [] {
    } else {
      var rest := txs[1..];
      DistinctIsSum(rest);
      SentNonNegative(rest, txs[0].from);
      if DistinctSenders(txs) {
        forall i, j | 0 <= i < j < |rest| ensures rest[i].from != rest[j].from {
          assert txs[i + 1].from != txs[j + 1].from;
        }
        forall i | 0 <= i < |rest| ensures rest[i].from != txs[0].from { assert txs[i + 1].from != txs[0].from; }
      }
      if forall a :: Sum(txs, SentBy(a)) <= 1 {
        forall a ensures Sum(rest, SentBy(a)) <= 1 { assert Sum(txs, SentBy(a)) <= 1; }
        assert Sum(txs, SentBy(txs[0].from)) <= 1;
        forall i, j | 0 <= i < j < |txs| ensures txs[i].from != txs[j].from {
          assert rest[j - 1] == txs[j];
          assert i > 0 ==> rest[i - 1] == txs[i];
        }
      }
    }
  }

  // ---------- the transactions one by one ----------

  lemma {:induction false} BalanceSteps(l: Ledger, a: Address, n: nat, hash: Hash, x: Address)
    ensures Bal(Touch(l, a), x) == Bal(Recorded(l, a, hash), x) == Bal(l, x)
    ensures Bal(Add(l, a, n), x) == Bal(l, x) + if x == a then n else 0
    ensures n <= Bal(l, a) ==> Bal(Sub(l, a, n), x) == Bal(l, x) - if x == a then n else 0
  {}

  /** A funded plain transfer succeeds and has exactly its effect. */
  lemma {:induction false} PlainTransfer(env: Env, heights: Heights, before: Ledger, block: Block, tx: Transaction,
                                         x: Address)
    requires env.Sane() && IsPlain(before, tx) && tx.amount + tx.fee <= Bal(before, tx.from)
    ensures var p := Perform(env, heights, before, block, tx);
            && p.status == Ok(TransactionStatus(Success, TransferAction, 0))
            && Bal(p.ledger, x) == Bal(before, x) + Effect(tx, block.coinbase, x)
  {
    var l := Recorded(before, tx.from, env.HashOf(tx));
    var paid := Sub(l, tx.from, tx.fee);
    var c := Touch(paid, tx.to);
    var moved := Transfer(c, tx.from, tx.to, tx.amount);
    assert tx.from in c && c[tx.to].kind != CONTRACT;
    forall y ensures Bal(c, y) == Bal(before, y) - if y == tx.from then tx.fee else 0 {
      BalanceSteps(before, tx.from, 0, env.HashOf(tx), y);
      BalanceSteps(l, tx.from, tx.fee, NULL_HASH, y);
      BalanceSteps(paid, tx.to, 0, NULL_HASH, y);
    }
    assert CanTransfer(c, tx.from, tx.amount);
    TransferBalances(c, tx.from, tx.to, tx.amount, x);
    BalanceSteps(moved, block.coinbase, tx.fee, NULL_HASH, x);
    hide Recorded, Sub, Touch, Add, Transfer, PerformCall, PerformCreation;
  }

  /** Enough for every transaction still to come, counting only what its sender has now. */
  ghost predicate Funded(l: Ledger, txs: seq<Transaction>) {
    forall i :: 0 <= i < |txs| ==> txs[i].amount + txs[i].fee <= Bal(l, txs[i].from)
  }

  lemma {:induction false} FundedAll(env: Env, heights: Heights, l: Ledger, block: Block, txs: seq<Transaction>)
    requires env.Sane() && AllPlain(l, txs) && Funded(l, txs) && DistinctSenders(txs)
    ensures var applied := PerformAll(env, heights, l, block, txs);
            && !applied.raised && |applied.statuses| == |txs|
            && (forall i :: 0 <= i < |txs| ==> applied.statuses[i].code == Success)
            && forall x :: Bal(applied.ledger, x) == Bal(l, x) + Sum(txs, EffectOf(block.coinbase, x))
    decreases |txs|
  {
    hide Perform, IsContract;
    if txs == [] {
    } else {
      var tx, rest := txs[0], txs[1..];
      forall x ensures Bal(Perform(env, heights, l, block, tx).ledger, x) == Bal(l, x) + Effect(tx, block.coinbase, x) {
        PlainTransfer(env, heights, l, block, tx, x);
      }
      PlainTransfer(env, heights, l, block, tx, tx.from);
      PlainKeepsContracts(env, heights, l, block, tx);
      var l' := Perform(env, heights, l, block, tx).ledger;
      forall i | 0 <= i < |rest|
        ensures IsPlain(l', rest[i]) && rest[i].amount + rest[i].fee <= Bal(l', rest[i].from)
      {
        assert rest[i] == txs[i + 1] && txs[i + 1].from != tx.from;
      }
      forall i, j | 0 <= i < j < |rest| ensures rest[i].from != rest[j].from {
        assert txs[i + 1].from != txs[j + 1].from;
      }
      FundedAll(env, heights, l', block, rest);
      var after := PerformAll(env, heights, l, block, txs).ledger;
      forall x ensures Bal(after, x) == Bal(l, x) + Sum(txs, EffectOf(block.coinbase, x))
      {
        assert EffectOf(block.coinbase, x)(tx) == Effect(tx, block.coinbase, x);
      }
    }
  }

  lemma {:induction false} CanPayIsFunded(l: Ledger, block: Block)
    requires SendersCanPay(l, block.txs) && DistinctSenders(block.txs) && AllPlain(l, block.txs)
    ensures var paid := Add(l, block.coinbase, EMISSION_VALUE);
            Funded(paid, block.txs) && AllPlain(paid, block.txs)
  {
    var paid := Add(l, block.coinbase, EMISSION_VALUE);
    forall i | 0 <= i < |block.txs|
      ensures block.txs[i].amount + block.txs[i].fee <= Bal(paid, block.txs[i].from)
      ensures IsPlain(paid, block.txs[i])
    {
      CostOfDistinct(block.txs, i);
      assert IsPlain(l, block.txs[i]);
    }
  }

  /**
   A block of plain transfers from distinct senders that passes the balance test succeeds entirely, and
   every account ends with what it had, the emission, and the effects of the transactions.
   */
  lemma {:induction false} CheckedBlockSucceeds(env: Env, heights: Heights, l: Ledger, block: Block)
    requires env.Sane() && AllPlain(l, block.txs) && DistinctSenders(block.txs) && SendersCanPay(l, block.txs)
    ensures var applied := ApplyBlock(env, heights, l, block);
            && !applied.raised && |applied.statuses| == |block.txs|
            && (forall i :: 0 <= i < |block.txs| ==> applied.statuses[i].code == Success)
            && forall x :: Bal(applied.ledger, x) == Bal(l, x) + (if x == block.coinbase then EMISSION_VALUE else 0)
                                                     + Sum(block.txs, EffectOf(block.coinbase, x))
  {
    CanPayIsFunded(l, block);
    FundedAll(env, heights, Add(l, block.coinbase, EMISSION_VALUE), block, block.txs);
    hide PerformAll;
  }

  /** What is recorded for a transaction is one of the statuses given to transactions with its hash. */
  lemma {:induction false} OutputsRecord(env: Env, outputs: map<Hash, TransactionStatus>, txs: seq<Transaction>,
                                         statuses: seq<TransactionStatus>, i: nat)
    requires i < |txs| == |statuses|
    ensures env.HashOf(txs[i]) in Outputs(env, outputs, txs, statuses)
    ensures exists j :: i <= j < |txs| && env.HashOf(txs[j]) == env.HashOf(txs[i])
                        && Outputs(env, outputs, txs, statuses)[env.HashOf(txs[i])] == statuses[j]
    decreases |txs|
  {
    var next := outputs[env.HashOf(txs[0]) := statuses[0]];
    if i > 0 {
      OutputsRecord(env, next, txs[1..], statuses[1..], i - 1);
      var j :| i - 1 <= j < |txs[1..]| && env.HashOf(txs[1..][j]) == env.HashOf(txs[1..][i - 1])
               && Outputs(env, next, txs[1..], statuses[1..])[env.HashOf(txs[i])] == statuses[1..][j];
      assert txs[1..][j] == txs[j + 1] && statuses[1..][j] == statuses[j + 1];
    } else {
      OutputsOf(env, next, txs[1..], statuses[1..], env.HashOf(txs[0]));
      if j :| 0 <= j < |txs[1..]| && env.HashOf(txs[1..][j]) == env.HashOf(txs[0])
              && Outputs(env, next, txs[1..], statuses[1..])[env.HashOf(txs[0])] == statuses[1..][j] {
        assert txs[1..][j] == txs[j + 1] && statuses[1..][j] == statuses[j + 1];
      }
    }
  }

  lemma {:induction false} OutputsOf(env: Env, outputs: map<Hash, TransactionStatus>, txs: seq<Transaction>,
                                     statuses: seq<TransactionStatus>, hash: Hash)
    requires |txs| == |statuses| && hash in outputs
    ensures hash in Outputs(env, outputs, txs, statuses)
    ensures Outputs(env, outputs, txs, statuses)[hash] == outputs[hash]
            || exists j :: 0 <= j < |txs| && env.HashOf(txs[j]) == hash
                           && Outputs(env, outputs, txs, statuses)[hash] == statuses[j]
    decreases |txs|
  {
    if txs == [] {
    } else {
      var next := outputs[env.HashOf(txs[0]) := statuses[0]];
      OutputsOf(env, next, txs[1..], statuses[1..], hash);
      if j :| 0 <= j < |txs[1..]| && env.HashOf(txs[1..][j]) == hash
              && Outputs(env, next, txs[1..], statuses[1..])[hash] == statuses[1..][j] {
        assert txs[1..][j] == txs[j + 1] && statuses[1..][j] == statuses[j + 1];
      }
    }
  }

  /** No other recorded outcome is touched. */
  lemma {:induction false} OutputsKeep(env: Env, outputs: map<Hash, TransactionStatus>, txs: seq<Transaction>,
                                       statuses: seq<TransactionStatus>, hash: Hash)
    requires forall i :: 0 <= i < |txs| ==> env.HashOf(txs[i]) != hash
    ensures hash in Outputs(env, outputs, txs, statuses) <==> hash in outputs
    ensures hash in outputs ==> Outputs(env, outputs, txs, statuses)[hash] == outputs[hash]
    decreases |txs|
  {
    if txs == [] || statuses == [] {
    } else {
      OutputsKeep(env, outputs[env.HashOf(txs[0]) := statuses[0]], txs[1..], statuses[1..], hash);
    }
  }

  /** So every transaction of such a block is found recorded as a success. */
  lemma {:induction false} CheckedBlockRecordsSuccess(env: Env, heights: Heights, l: Ledger, block: Block,
                                                      outputs: map<Hash, TransactionStatus>, i: nat)
    requires env.Sane() && AllPlain(l, block.txs) && DistinctSenders(block.txs) && SendersCanPay(l, block.txs)
    requires i < |block.txs|
    ensures var recorded := Outputs(env, outputs, block.txs, ApplyBlock(env, heights, l, block).statuses);
            env.HashOf(block.txs[i]) in recorded && recorded[env.HashOf(block.txs[i])].code == Success
  {
    CheckedBlockSucceeds(env, heights, l, block);
    OutputsRecord(env, outputs, block.txs, ApplyBlock(env, heights, l, block).statuses, i);
    hide ApplyBlock, Outputs;
  }

  /** The balance test and the kind of block do not depend on the order of the transactions. */
  lemma {:induction false} ReorderedBlockPasses(l: Ledger, txs: seq<Transaction>, txs': seq<Transaction>)
    requires multiset(txs) == multiset(txs')
    requires AllPlain(l, txs) && DistinctSenders(txs) && SendersCanPay(l, txs)
    ensures AllPlain(l, txs') && DistinctSenders(txs') && SendersCanPay(l, txs')
  {
    DistinctIsSum(txs);
    DistinctIsSum(txs');
    forall a ensures Sum(txs', SentBy(a)) <= 1 {
      SumPermuted(txs, txs', SentBy(a));
      assert Sum(txs, SentBy(a)) <= 1;
    }
    forall i | 0 <= i < |txs'|
      ensures IsPlain(l, txs'[i]) && txs'[i].from in l && txs'[i].from in CostOf(txs')
      ensures CostOf(txs')[txs'[i].from] <= l[txs'[i].from].balance
    {
      assert txs'[i] in multiset(txs);
      var k :| 0 <= k < |txs| && txs[k] == txs'[i];
      CostOfDistinct(txs, k);
      CostOfDistinct(txs', i);
      assert IsPlain(l, txs[k]);
    }
  }

  /** Reordering the transactions of such a block changes no final balance. */
  lemma {:induction false} OrderIsIrrelevant(env: Env, heights: Heights, heights': Heights, l: Ledger, block: Block,
                                             block': Block)
    requires env.Sane() && AllPlain(l, block.txs) && DistinctSenders(block.txs) && SendersCanPay(l, block.txs)
    requires multiset(block.txs) == multiset(block'.txs) && block.coinbase == block'.coinbase
    ensures !ApplyBlock(env, heights', l, block').raised
    ensures forall x ::
              Bal(ApplyBlock(env, heights, l, block).ledger, x) == Bal(ApplyBlock(env, heights', l, block').ledger, x)
  {
    ReorderedBlockPasses(l, block.txs, block'.txs);
    CheckedBlockSucceeds(env, heights, l, block);
    CheckedBlockSucceeds(env, heights', l, block');
    hide ApplyBlock;
    forall x
      ensures Bal(ApplyBlock(env, heights, l, block).ledger, x) == Bal(ApplyBlock(env, heights', l, block').ledger, x)
    {
      SumPermuted(block.txs, block'.txs, EffectOf(block.coinbase, x));
    }
  }
}
