/**
 When performing transactions raises. Outside contract creation `tryPerformTransaction` (src/core/core.cpp)
 takes the fee before any `try` block, and the cost test before it looks at each sender's first cost only.
 */
module Raising {
  import opened Blocks
  import opened Accounts
  import opened Execution
  import opened Supply
  import opened Transfers
  import TransactionsSet

  /** A transaction that is not a contract creation, from a sender who has less than its fee. */
  predicate CannotPayFee(l: Ledger, tx: Transaction) {
    tx.to != NULL_ADDRESS && Bal(l, tx.from) < tx.fee
  }

  lemma {:induction false} PerformRaisesIff(env: Env, heights: Heights, before: Ledger, block: Block, tx: Transaction)
    requires env.Sane()
    ensures Perform(env, heights, before, block, tx).status.Raised? <==> CannotPayFee(before, tx)
  {
    hide PerformCreation, PerformCall, PerformTransfer;
    BalanceSteps(before, tx.from, 0, env.HashOf(tx), tx.from);
    var l := Recorded(before, tx.from, env.HashOf(tx));
    StatusOfCreation(env, heights, l, block, tx);
    if tx.to != NULL_ADDRESS && tx.fee <= Bal(l, tx.from) {
      StatusOfCall(env, heights, Touch(l, tx.to), Touch(Sub(l, tx.from, tx.fee), tx.to), block, tx);
    }
    hide Recorded, Touch, Sub, Bal;
  }

  lemma {:induction false} StatusOfCreation(env: Env, heights: Heights, l: Ledger, block: Block, tx: Transaction)
    requires env.Sane() && tx.from in l
    ensures PerformCreation(env, heights, l, block, tx).status.Ok?
  {
    hide RunScript, Settled, Transfer;
  }

  lemma {:induction false} StatusOfCall(env: Env, heights: Heights, l: Ledger, c: Ledger, block: Block, tx: Transaction)
    requires env.Sane()
    ensures PerformCall(env, heights, l, c, block, tx).status.Ok? && PerformTransfer(l, c, block, tx).status.Ok?
  {
    hide RunScript, Settled, Transfer;
  }

  /** The transactions before number `k` are performed, and its sender then cannot pay its fee. */
  ghost predicate StuckAt(env: Env, heights: Heights, l: Ledger, block: Block, txs: seq<Transaction>, k: nat)
    requires env.Sane() && k < |txs|
  {
    var sofar := PerformAll(env, heights, l, block, txs[..k]);
    !sofar.raised && CannotPayFee(sofar.ledger, txs[k])
  }

  ghost predicate Stuck(env: Env, heights: Heights, l: Ledger, block: Block, txs: seq<Transaction>)
    requires env.Sane()
  {
    exists k :: 0 <= k < |txs| && StuckAt(env, heights, l, block, txs, k)
  }

  /** Behind a transaction that does not raise, getting stuck is getting stuck on the ledger it leaves. */
  lemma {:induction false} StuckLater(env: Env, heights: Heights, l: Ledger, block: Block, txs: seq<Transaction>,
                                      k: nat)
    requires env.Sane() && 0 < k < |txs| && !CannotPayFee(l, txs[0])
    ensures var next := Perform(env, heights, l, block, txs[0]).ledger;
            StuckAt(env, heights, l, block, txs, k) <==> StuckAt(env, heights, next, block, txs[1..], k - 1)
  {
    hide Perform, CannotPayFee;
    PerformRaisesIff(env, heights, l, block, txs[0]);
    assert txs[..k][0] == txs[0] && txs[..k][1..] == txs[1..][..k - 1];
  }

  /** Performing a block's transactions raises exactly when some sender's turn comes without its fee. */
  lemma {:induction false} RaisesIffStuck(env: Env, heights: Heights, l: Ledger, block: Block, txs: seq<Transaction>)
    requires env.Sane()
    ensures PerformAll(env, heights, l, block, txs).raised <==> Stuck(env, heights, l, block, txs)
    decreases |txs|
  {
    hide Perform, CannotPayFee, StuckAt;
    if txs == [] {
    } else {
      PerformRaisesIff(env, heights, l, block, txs[0]);
      StuckFirst(env, heights, l, block, txs);
      if !CannotPayFee(l, txs[0]) {
        var next := Perform(env, heights, l, block, txs[0]).ledger;
        RaisesIffStuck(env, heights, next, block, txs[1..]);
        forall k | 0 < k < |txs|
          ensures StuckAt(env, heights, l, block, txs, k) <==> StuckAt(env, heights, next, block, txs[1..], k - 1)
        {
          StuckLater(env, heights, l, block, txs, k);
        }
        if k :| 0 <= k < |txs[1..]| && StuckAt(env, heights, next, block, txs[1..], k) {
          assert StuckAt(env, heights, l, block, txs, k + 1);
        }
      }
    }
  }

  lemma {:induction false} StuckFirst(env: Env, heights: Heights, l: Ledger, block: Block, txs: seq<Transaction>)
    requires env.Sane() && txs != []
    ensures StuckAt(env, heights, l, block, txs, 0) <==> CannotPayFee(l, txs[0])
  {
    hide CannotPayFee, Perform;
    assert txs[..0] == [];
  }

  /** A block, performed after the emission, raises. */
  ghost predicate BlockRaises(env: Env, heights: Heights, l: Ledger, block: Block)
    requires env.Sane()
  {
    Stuck(env, heights, Add(l, block.coinbase, EMISSION_VALUE), block, block.txs)
  }

  lemma {:induction false} BlockRaisesIff(env: Env, heights: Heights, l: Ledger, block: Block)
    requires env.Sane()
    ensures ApplyBlock(env, heights, l, block).raised <==> BlockRaises(env, heights, l, block)
  {
    RaisesIffStuck(env, heights, Add(l, block.coinbase, EMISSION_VALUE), block, block.txs);
  }

  /** A checked block of plain transfers from distinct senders never raises. */
  lemma {:induction false} PlainBlockNeverRaises(env: Env, heights: Heights, l: Ledger, block: Block)
    requires env.Sane() && AllPlain(l, block.txs) && TransactionsSet.DistinctSenders(block.txs)
    requires SendersCanPay(l, block.txs)
    ensures !BlockRaises(env, heights, l, block)
  {
    hide ApplyBlock;
    CheckedBlockSucceeds(env, heights, l, block);
    BlockRaisesIff(env, heights, l, block);
  }
}
