/** What the recorded outcome of a transaction says about the ledger, and when every one succeeds. */
module Outcomes {
  import opened Types
  import opened Blocks
  import opened Accounts
  import opened Execution
  import opened Supply

  // ---------- failed transactions ----------

  /**
   Nothing but bookkeeping: the sender's list and nonce grew by this transaction, and the sender or the
   receiver, if missing, became an empty client account.
   */
  ghost predicate OnlyBookkeeping(env: Env, before: Ledger, after: Ledger, tx: Transaction) {
    forall a :: BookkeptAt(env, before, after, tx, a)
  }

  ghost predicate BookkeptAt(env: Env, before: Ledger, after: Ledger, tx: Transaction, a: Address) {
    var was := if a in before then before[a] else NewAccount(CLIENT);
    && (a in before ==> a in after)
    && (a in after && a !in before ==> a == tx.from || a == tx.to)
    && (a in after ==>
          after[a] == if a == tx.from
                      then was.(transactions := was.transactions + [env.HashOf(tx)],
                                nonce := (was.nonce + 1) % 0x1_00000000_00000000)
                      else was)
  }

  /** The status says the transaction did not happen, or there is none because it raised. */
  predicate Unperformed(p: Performed) {
    p.status.Ok? ==> p.status.value.code == NotEnoughBalance || p.status.value.code == Failed
  }

  lemma {:induction false} UnperformedLedger(env: Env, heights: Heights, before: Ledger, block: Block, tx: Transaction)
    requires env.Sane() && Unperformed(Perform(env, heights, before, block, tx))
    ensures var l := Recorded(before, tx.from, env.HashOf(tx));
            Perform(env, heights, before, block, tx).ledger == if tx.to == NULL_ADDRESS then l else Touch(l, tx.to)
  {
    hide RunScript, Settled, Transfer, Recorded;
  }

  /** A transaction that ends in NotEnoughBalance or Failed, or raises, leaves only its bookkeeping. */
  lemma {:induction false} FailureLeavesOnlyBookkeeping(env: Env, heights: Heights, before: Ledger, block: Block,
                                                  tx: Transaction)
    requires env.Sane() && Unperformed(Perform(env, heights, before, block, tx))
    ensures OnlyBookkeeping(env, before, Perform(env, heights, before, block, tx).ledger, tx)
  {
    UnperformedLedger(env, heights, before, block, tx);
    hide Perform;
  }

  // ---------- nonces ----------

  ghost predicate NonceFits(l: Ledger, a: Address) {
    a in l ==> l[a].nonce == |l[a].transactions| % 0x1_00000000_00000000
  }

  /** Every account's nonce is the length of its transaction list, as a 64-bit number. */
  ghost predicate NoncesFit(l: Ledger) {
    forall a :: NonceFits(l, a)
  }

  lemma {:induction false} NonceSteps(l: Ledger, a: Address, b: Address, n: nat, hash: Hash, value: seq<Byte>,
                                      code: Hash, x: Address)
    requires NonceFits(l, x)
    ensures NonceFits(Touch(l, a), x) && NonceFits(Recorded(l, a, hash), x) && NonceFits(Add(l, a, n), x)
    ensures n <= Bal(l, a) ==> NonceFits(Sub(l, a, n), x)
    ensures NonceFits(Transfer(l, a, b, n), x) && NonceFits(CreateContract(l, a, code), x)
    ensures NonceFits(Stored(l, a, hash, value), x) && NonceFits(l - {a}, x)
  {
    NonceMoves(l, a, b, n, x);
    hide Transfer, Sub, Add;
  }

  lemma {:induction false} NonceMoves(l: Ledger, a: Address, b: Address, n: nat, x: Address)
    requires NonceFits(l, x)
    ensures n <= Bal(l, a) ==> NonceFits(Sub(l, a, n), x)
    ensures NonceFits(Add(l, a, n), x) && NonceFits(Transfer(l, a, b, n), x)
  {}

  lemma {:induction false} NonceScript(l: Ledger, script: seq<HostCall>, x: Address)
    requires NonceFits(l, x)
    ensures NonceFits(RunScript(l, script), x)
    decreases script, 0
  {
    if script == [] {
    } else {
      NonceCall(l, script[0], x);
      NonceScript(RunCall(l, script[0]), script[1..], x);
    }
  }

  lemma {:induction false} NonceCall(l: Ledger, c: HostCall, x: Address)
    requires NonceFits(l, x)
    ensures NonceFits(RunCall(l, c), x)
    decreases c, 1
  {
    hide Touch, Transfer, Stored, NonceFits;
    match c
    case Call(sender, destination, value, nested, _) =>
      if IsContract(l, destination) { NonceScript(l, nested, x); }
      else { NonceSteps(l, sender, destination, value, NULL_HASH, [], NULL_HASH, x); }
    case SetStorage(a, key, value) => NonceSteps(l, a, a, 0, key, value, NULL_HASH, x);
    case SelfDestruct(a, b) =>
      NonceSteps(l, a, a, 0, NULL_HASH, [], NULL_HASH, x);
      NonceSteps(Touch(l, a), b, b, 0, NULL_HASH, [], NULL_HASH, x);
      var t := Touch(Touch(l, a), b);
      NonceSteps(t, a, b, Bal(t, a), NULL_HASH, [], NULL_HASH, x);
      NonceSteps(Transfer(t, a, b, Bal(t, a)), a, a, 0, NULL_HASH, [], NULL_HASH, x);
    case Inspect(a) => NonceSteps(l, a, a, 0, NULL_HASH, [], NULL_HASH, x);
  }

  lemma {:induction false} NonceSettled(l: Ledger, coinbase: Address, tx: Transaction, gasLeft: Uint64, x: Address)
    requires NonceFits(l, x) && gasLeft <= tx.fee
    ensures NonceFits(Settled(l, coinbase, tx, gasLeft), x)
  {
    NonceSteps(l, coinbase, coinbase, tx.fee - gasLeft, NULL_HASH, [], NULL_HASH, x);
    NonceSteps(Add(l, coinbase, tx.fee - gasLeft), tx.from, tx.from, gasLeft, NULL_HASH, [], NULL_HASH, x);
  }

  lemma {:induction false} NoncePenalised(l: Ledger, coinbase: Address, tx: Transaction, run: EvmRun,
                                          action: ActionType, x: Address)
    requires NonceFits(l, x) && run.gasLeft <= tx.fee
    ensures NonceFits(Penalised(l, coinbase, tx, run, action).ledger, x)
  {
    NonceSteps(l, tx.from, tx.from, run.gasLeft, NULL_HASH, [], NULL_HASH, x);
    if run.gasLeft <= Bal(l, tx.from) {
      NonceSteps(Sub(l, tx.from, run.gasLeft), coinbase, coinbase, tx.fee - run.gasLeft, NULL_HASH, [], NULL_HASH, x);
    }
  }

  lemma {:induction false} NonceCreation(env: Env, heights: Heights, l: Ledger, block: Block, tx: Transaction,
                                         x: Address)
    requires env.Sane() && tx.from in l && NonceFits(l, x)
    ensures NonceFits(PerformCreation(env, heights, l, block, tx).ledger, x)
  {
    hide NonceFits, RunScript, Transfer, Settled, Penalised, Sub, Bal;
    if tx.fee <= Bal(l, tx.from) {
      var a := NewAddress(env, l, tx);
      var start := CreationStart(env, l, tx);
      NonceSteps(l, tx.from, tx.from, tx.fee, NULL_HASH, [], NULL_HASH, x);
      NonceSteps(Sub(l, tx.from, tx.fee), a, a, 0, NULL_HASH, [], env.sha256(tx.data), x);
      NonceSteps(start, tx.from, a, tx.amount, NULL_HASH, [], NULL_HASH, x);
      var funded := Transfer(start, tx.from, a, tx.amount);
      var run := env.evm(heights, funded, block, tx, a);
      NonceScript(funded, run.script, x);
      NonceSteps(RunScript(funded, run.script), a, a, 0, NULL_HASH, [], NULL_HASH, x);
      var ran := Touch(RunScript(funded, run.script), a);
      var coded := ran[a := ran[a].(runtimeCode := run.output)];
      NonceCoded(ran, a, run.output, x);
      NonceSettled(coded, block.coinbase, tx, run.gasLeft, x);
      NoncePenalised(l, block.coinbase, tx, run, ContractCreation, x);
      hide CreationStart, Touch;
    }
  }

  lemma {:induction false} NonceCoded(l: Ledger, a: Address, code: seq<Byte>, x: Address)
    requires NonceFits(l, x) && a in l
    ensures NonceFits(l[a := l[a].(runtimeCode := code)], x)
  {}

  lemma {:induction false} NonceToAccount(env: Env, heights: Heights, l: Ledger, c: Ledger, block: Block,
                                          tx: Transaction, x: Address)
    requires env.Sane() && NonceFits(l, x) && NonceFits(c, x)
    ensures NonceFits(PerformCall(env, heights, l, c, block, tx).ledger, x)
    ensures NonceFits(PerformTransfer(l, c, block, tx).ledger, x)
  {
    hide NonceFits, RunScript, Transfer, Settled, Penalised, Add;
    var funded := Transfer(c, tx.from, tx.to, tx.amount);
    NonceSteps(c, tx.from, tx.to, tx.amount, NULL_HASH, [], NULL_HASH, x);
    NonceSteps(funded, block.coinbase, block.coinbase, tx.fee, NULL_HASH, [], NULL_HASH, x);
    var start := if tx.amount > 0 then funded else c;
    var run := env.evm(heights, start, block, tx, tx.to);
    NonceScript(start, run.script, x);
    NonceSettled(RunScript(start, run.script), block.coinbase, tx, run.gasLeft, x);
    NoncePenalised(l, block.coinbase, tx, run, ContractCall, x);
  }

  lemma {:induction false} NoncePerform(env: Env, heights: Heights, before: Ledger, block: Block, tx: Transaction,
                                        x: Address)
    requires env.Sane() && NonceFits(before, x)
    ensures NonceFits(Perform(env, heights, before, block, tx).ledger, x)
  {
    hide NonceFits, Sub, Bal, Perform, PerformCreation, PerformCall, PerformTransfer, Recorded, Touch;
    var l := Recorded(before, tx.from, env.HashOf(tx));
    NonceSteps(before, tx.from, tx.from, 0, env.HashOf(tx), [], NULL_HASH, x);
    if tx.to == NULL_ADDRESS {
      PerformToNobody(env, heights, before, block, tx);
      NonceCreation(env, heights, l, block, tx, x);
    } else {
      PerformToAccount(env, heights, before, block, tx);
      NonceSteps(l, tx.to, tx.to, 0, NULL_HASH, [], NULL_HASH, x);
      if tx.fee <= Bal(l, tx.from) {
        var paid := Sub(l, tx.from, tx.fee);
        NonceSteps(l, tx.from, tx.from, tx.fee, NULL_HASH, [], NULL_HASH, x);
        NonceSteps(paid, tx.to, tx.to, 0, NULL_HASH, [], NULL_HASH, x);
        NonceToAccount(env, heights, Touch(l, tx.to), Touch(paid, tx.to), block, tx, x);
      }
    }
  }

  lemma {:induction false} PerformToNobody(env: Env, heights: Heights, before: Ledger, block: Block, tx: Transaction)
    requires env.Sane() && tx.to == NULL_ADDRESS
    ensures tx.from in Recorded(before, tx.from, env.HashOf(tx))
    ensures Perform(env, heights, before, block, tx) ==
            PerformCreation(env, heights, Recorded(before, tx.from, env.HashOf(tx)), block, tx)
  {
    hide PerformCreation;
  }

  lemma {:induction false} NoncesPerformAll(env: Env, heights: Heights, l: Ledger, block: Block, txs: seq<Transaction>)
    requires env.Sane() && NoncesFit(l)
    ensures NoncesFit(PerformAll(env, heights, l, block, txs).ledger)
    decreases |txs|
  {
    if txs == [] {
    } else {
      var p := Perform(env, heights, l, block, txs[0]);
      forall x ensures NonceFits(p.ledger, x) { NoncePerform(env, heights, l, block, txs[0], x); }
      if p.status.Ok? { NoncesPerformAll(env, heights, p.ledger, block, txs[1..]); }
    }
  }

  lemma {:induction false} NoncesGenesis(l: Ledger, txs: seq<Transaction>)
    requires NoncesFit(l)
    ensures NoncesFit(FromGenesis(l, txs))
  {
    if txs == [] {
    } else {
      NoncesGenesis(l, txs[..|txs| - 1]);
      var g := FromGenesis(l, txs[..|txs| - 1]);
      forall x ensures NonceFits(FromGenesis(l, txs), x) { assert NonceFits(g, x); }
    }
  }

  /** Over every chain, whatever contracts ran in it, nonces count transactions. */
  lemma {:induction false} NoncesOfChain(env: Env, chain: seq<Block>)
    requires env.Sane() && |chain| > 0
    ensures NoncesFit(LedgerOf(env, chain))
  {
    if |chain| == 1 {
      NoncesGenesis(map[], chain[0].txs);
    } else {
      var l, block := LedgerOf(env, chain[..|chain| - 1]), chain[|chain| - 1];
      NoncesOfChain(env, chain[..|chain| - 1]);
      forall x ensures NonceFits(Add(l, block.coinbase, EMISSION_VALUE), x) {
        NonceSteps(l, block.coinbase, block.coinbase, EMISSION_VALUE, NULL_HASH, [], NULL_HASH, x);
      }
      NoncesPerformAll(env, HeightsOf(chain), Add(l, block.coinbase, EMISSION_VALUE), block, block.txs);
    }
  }
}
