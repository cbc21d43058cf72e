/**
 What the constructor of `Core` (src/core/core.cpp) does with the blocks it finds in the database: it performs
 their transactions on the genesis accounts, but does not repeat the emissions.
 */
module Reopening {
  import opened Blocks
  import opened Accounts
  import opened Execution
  import opened Supply
  import opened Transfers
  import opened Raising
  import Chain

  datatype Replay = Replay(ledger: Ledger, outputs: map<Hash, TransactionStatus>, raised: bool)

  /** The accounts and outcomes after the transactions of `chain` above genesis, up to the first that raises. */
  ghost function Replayed(env: Env, heights: Heights, chain: seq<Block>): Replay
    requires env.Sane() && |chain| > 0
  {
    if |chain| == 1 then Replay(FromGenesis(map[], chain[0].txs), map[], false) else
      var before, last := Replayed(env, heights, chain[..|chain| - 1]), chain[|chain| - 1];
      if before.raised then before else
        var a := PerformAll(env, heights, before.ledger, last, last.txs);
        Replay(a.ledger, Outputs(env, before.outputs, last.txs, a.statuses), a.raised)
  }

  lemma {:induction false} ReplayStep(env: Env, heights: Heights, chain: seq<Block>, d: nat)
    requires env.Sane() && 1 <= d < |chain| && !Replayed(env, heights, chain[..d]).raised
    ensures var before := Replayed(env, heights, chain[..d]);
            var a := PerformAll(env, heights, before.ledger, chain[d], chain[d].txs);
            Replayed(env, heights, chain[..d + 1])
            == Replay(a.ledger, Outputs(env, before.outputs, chain[d].txs, a.statuses), a.raised)
  {
    hide PerformAll, Outputs;
    assert chain[..d + 1][..d] == chain[..d];
  }

  lemma {:induction false} ReplayStart(env: Env, heights: Heights, chain: seq<Block>)
    requires env.Sane() && |chain| > 0
    ensures Replayed(env, heights, chain[..1]) == Replay(FromGenesis(map[], chain[0].txs), map[], false)
  {}

  /** Behind a block that raised nothing more is performed. */
  lemma {:induction false} ReplayStops(env: Env, heights: Heights, chain: seq<Block>, n: nat)
    requires env.Sane() && 1 <= n <= |chain| && Replayed(env, heights, chain[..n]).raised
    ensures Replayed(env, heights, chain) == Replayed(env, heights, chain[..n])
  {
    if n == |chain| {
      assert chain[..n] == chain;
    } else {
      var front := chain[..|chain| - 1];
      assert front[..n] == chain[..n];
      ReplayStops(env, heights, front, n);
    }
  }

  /** The blocks before number `n` are replayed, and some sender's turn in it comes without its fee. */
  ghost predicate StuckIn(env: Env, heights: Heights, chain: seq<Block>, n: nat)
    requires env.Sane() && 1 <= n < |chain|
  {
    var before := Replayed(env, heights, chain[..n]);
    !before.raised && Stuck(env, heights, before.ledger, chain[n], chain[n].txs)
  }

  /** The replay raises exactly when some block gets stuck in it: then the node does not start. */
  lemma {:induction false} ReplayRaisesIff(env: Env, heights: Heights, chain: seq<Block>)
    requires env.Sane() && |chain| > 0
    ensures Replayed(env, heights, chain).raised <==>
            exists n :: 1 <= n < |chain| && StuckIn(env, heights, chain, n)
  {
    hide PerformAll, Stuck, Outputs;
    if |chain| == 1 {
    } else {
      var last := |chain| - 1;
      var front := chain[..last];
      ReplayRaisesIff(env, heights, front);
      forall n | 1 <= n < last ensures StuckIn(env, heights, front, n) <==> StuckIn(env, heights, chain, n) {
        assert front[..n] == chain[..n];
      }
      RaisesIffStuck(env, heights, Replayed(env, heights, front).ledger, chain[last], chain[last].txs);
      assert StuckIn(env, heights, chain, last) <==>
             !Replayed(env, heights, front).raised && Replayed(env, heights, chain).raised;
      if n :| 1 <= n < last && StuckIn(env, heights, front, n) {
        assert StuckIn(env, heights, chain, n);
      }
    }
  }

  // ---------- no overflow ----------

  lemma {:induction false} ReplayBound(env: Env, heights: Heights, chain: seq<Block>)
    requires env.Sane() && Chain.WellFormed(chain)
    ensures Total(Replayed(env, heights, chain).ledger)
            <= Total(FromGenesis(map[], chain[0].txs)) + (|chain| - 1) * BLOCK_LIMIT
  {
    hide Total, FromGenesis, PerformAll;
    if |chain| == 1 {
    } else {
      var front, last := chain[..|chain| - 1], chain[|chain| - 1];
      Chain.PrefixWellFormed(chain, |chain| - 1);
      ReplayBound(env, heights, front);
      assert Chain.Admissible(front, last);
      PerformAllBound(env, heights, Replayed(env, heights, front).ledger, last, last.txs);
    }
  }

  // ---------- what is lost ----------

  ghost predicate NoContracts(l: Ledger) {
    forall a :: !IsContract(l, a)
  }

  lemma {:induction false} GenesisHasNoContracts(txs: seq<Transaction>)
    ensures NoContracts(FromGenesis(map[], txs))
  {
    if txs == [] {
    } else {
      var before := FromGenesis(map[], txs[..|txs| - 1]);
      GenesisHasNoContracts(txs[..|txs| - 1]);
      forall a ensures !IsContract(FromGenesis(map[], txs), a) {
        assert !IsContract(before, a);
      }
    }
  }

  /** No transaction above genesis creates a contract, so none calls one. */
  predicate OnlyTransfers(chain: seq<Block>) {
    forall i :: 1 <= i < |chain| ==> forall j :: 0 <= j < |chain[i].txs| ==> chain[i].txs[j].to != NULL_ADDRESS
  }

  lemma {:induction false} AllPlainThen(l: Ledger, txs: seq<Transaction>)
    requires NoContracts(l) && forall j :: 0 <= j < |txs| ==> txs[j].to != NULL_ADDRESS
    ensures AllPlain(l, txs)
  {}

  lemma {:induction false} LedgerPlain(env: Env, chain: seq<Block>)
    requires env.Sane() && |chain| > 0 && OnlyTransfers(chain)
    ensures NoContracts(LedgerOf(env, chain))
    ensures Total(LedgerOf(env, chain)) == Total(FromGenesis(map[], chain[0].txs)) + EMISSION_VALUE * (|chain| - 1)
  {
    hide Total, IsContract, ApplyBlock, AllPlain;
    if |chain| == 1 {
      GenesisHasNoContracts(chain[0].txs);
    } else {
      var front, last := chain[..|chain| - 1], chain[|chain| - 1];
      LedgerPlain(env, front);
      AllPlainThen(LedgerOf(env, front), last.txs);
      PlainBlockAddsEmission(env, HeightsOf(chain), LedgerOf(env, front), last);
    }
  }

  lemma {:induction false} ReplayPlain(env: Env, heights: Heights, chain: seq<Block>)
    requires env.Sane() && |chain| > 0 && OnlyTransfers(chain)
    ensures NoContracts(Replayed(env, heights, chain).ledger)
    ensures Total(Replayed(env, heights, chain).ledger) == Total(FromGenesis(map[], chain[0].txs))
  {
    hide Total, IsContract, PerformAll, AllPlain;
    if |chain| == 1 {
      GenesisHasNoContracts(chain[0].txs);
    } else {
      var front, last := chain[..|chain| - 1], chain[|chain| - 1];
      ReplayPlain(env, heights, front);
      var l := Replayed(env, heights, front).ledger;
      AllPlainThen(l, last.txs);
      PlainTransactions(env, heights, l, last, last.txs);
    }
  }

  /**
   On a chain of transfers the replay misses every emission: the accounts are those the node had before exactly
   when there is nothing but the genesis block.
   */
  lemma {:induction false} ReplayRestoresIff(env: Env, heights: Heights, chain: seq<Block>)
    requires env.Sane() && |chain| > 0 && OnlyTransfers(chain)
    ensures Total(LedgerOf(env, chain))
            == Total(Replayed(env, heights, chain).ledger) + EMISSION_VALUE * (|chain| - 1)
    ensures Replayed(env, heights, chain).ledger == LedgerOf(env, chain) <==> |chain| == 1
  {
    hide Total;
    LedgerPlain(env, chain);
    ReplayPlain(env, heights, chain);
  }

  /** How many blocks above genesis name `x` as their coinbase. */
  function Mined(chain: seq<Block>, x: Address): nat {
    if |chain| <= 1 then 0
    else Mined(chain[..|chain| - 1], x) + if chain[|chain| - 1].coinbase == x then 1 else 0
  }

  /** Each is a transfer its sender can pay when its turn comes. */
  ghost predicate PaidInTurn(env: Env, heights: Heights, l: Ledger, block: Block, txs: seq<Transaction>)
    requires env.Sane()
    decreases |txs|
  {
    txs == []
    || (IsPlain(l, txs[0]) && txs[0].amount + txs[0].fee <= Bal(l, txs[0].from)
        && PaidInTurn(env, heights, Perform(env, heights, l, block, txs[0]).ledger, block, txs[1..]))
  }

  ghost predicate ReplayPaid(env: Env, heights: Heights, chain: seq<Block>)
    requires env.Sane() && |chain| > 0
  {
    |chain| == 1
    || (ReplayPaid(env, heights, chain[..|chain| - 1])
        && PaidInTurn(env, heights, Replayed(env, heights, chain[..|chain| - 1]).ledger, chain[|chain| - 1],
                      chain[|chain| - 1].txs))
  }

  /** `rich` is `poor` with more on the accounts. */
  ghost predicate Richer(poor: Ledger, rich: Ledger) {
    SameContracts(poor, rich) && forall x :: Bal(poor, x) <= Bal(rich, x)
  }

  ghost predicate SameGap(poor: Ledger, rich: Ledger, poor': Ledger, rich': Ledger) {
    forall x :: Bal(rich', x) - Bal(poor', x) == Bal(rich, x) - Bal(poor, x)
  }

  /** Transfers that can be paid from less can be paid from more, and keep the difference on every account. */
  lemma {:induction false} GapKept(env: Env, heights: Heights, h: Heights, poor: Ledger, rich: Ledger, block: Block,
                                   txs: seq<Transaction>)
    requires env.Sane() && Richer(poor, rich) && PaidInTurn(env, heights, poor, block, txs)
    ensures var a, b := PerformAll(env, heights, poor, block, txs), PerformAll(env, h, rich, block, txs);
            && !a.raised && !b.raised && Richer(a.ledger, b.ledger) && SameGap(poor, rich, a.ledger, b.ledger)
    decreases |txs|
  {
    hide Perform, IsContract, Bal;
    if txs == [] {
    } else {
      var tx := txs[0];
      var p, r := Perform(env, heights, poor, block, tx), Perform(env, h, rich, block, tx);
      StepGap(env, heights, h, poor, rich, block, tx);
      GapKept(env, heights, h, p.ledger, r.ledger, block, txs[1..]);
    }
  }

  lemma {:induction false} StepGap(env: Env, heights: Heights, h: Heights, poor: Ledger, rich: Ledger, block: Block,
                                   tx: Transaction)
    requires env.Sane() && Richer(poor, rich)
    requires IsPlain(poor, tx) && tx.amount + tx.fee <= Bal(poor, tx.from)
    ensures var p, r := Perform(env, heights, poor, block, tx), Perform(env, h, rich, block, tx);
            p.status.Ok? && r.status.Ok? && Richer(p.ledger, r.ledger) && SameGap(poor, rich, p.ledger, r.ledger)
  {
    hide Perform, IsContract, Bal, Effect;
    var p, r := Perform(env, heights, poor, block, tx), Perform(env, h, rich, block, tx);
    PlainKeepsContracts(env, heights, poor, block, tx);
    PlainKeepsContracts(env, h, rich, block, tx);
    forall x ensures Bal(r.ledger, x) - Bal(p.ledger, x) == Bal(rich, x) - Bal(poor, x) {
      PlainTransfer(env, heights, poor, block, tx, x);
      PlainTransfer(env, h, rich, block, tx, x);
    }
    PlainTransfer(env, heights, poor, block, tx, tx.from);
    PlainTransfer(env, h, rich, block, tx, tx.from);
  }

  /**
   When every transaction of the replay is a transfer that can be paid in its turn, each account lacks exactly the
   emission for the blocks it mined.
   */
  lemma {:induction false} EmissionsLost(env: Env, heights: Heights, chain: seq<Block>)
    requires env.Sane() && |chain| > 0 && ReplayPaid(env, heights, chain)
    ensures !Replayed(env, heights, chain).raised
    ensures SameContracts(Replayed(env, heights, chain).ledger, LedgerOf(env, chain))
    ensures forall x :: Bal(LedgerOf(env, chain), x)
                        == Bal(Replayed(env, heights, chain).ledger, x) + EMISSION_VALUE * Mined(chain, x)
  {
    hide IsContract, Bal, PerformAll, PaidInTurn, Outputs;
    if |chain| == 1 {
    } else {
      var front, last := chain[..|chain| - 1], chain[|chain| - 1];
      EmissionsLost(env, heights, front);
      var poor, rich := Replayed(env, heights, front).ledger, LedgerOf(env, front);
      Emitted(poor, rich, last.coinbase);
      GapKept(env, heights, HeightsOf(chain), poor, Add(rich, last.coinbase, EMISSION_VALUE), last, last.txs);
    }
  }

  lemma {:induction false} Emitted(poor: Ledger, rich: Ledger, coinbase: Address)
    requires Richer(poor, rich)
    ensures Richer(poor, Add(rich, coinbase, EMISSION_VALUE))
    ensures forall x :: Bal(Add(rich, coinbase, EMISSION_VALUE), x)
                        == Bal(rich, x) + if x == coinbase then EMISSION_VALUE else 0
  {}
}
