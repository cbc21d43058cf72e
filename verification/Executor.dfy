/** `tryPerformTransaction` and `applyBlockTransactions` (src/core/core.cpp), step by step on the accounts. */
module Executor {
  import opened Types
  import opened Blocks
  import opened Accounts
  import opened Execution
  import opened Supply
  import opened Payments
  import opened Chain
  import Host = EthHost

  /** Performs transactions on the accounts and records their outcomes. */
  class Executor {
    const env: Env
    const stateManager: StateManager
    var txOutputs: map<Hash, TransactionStatus>

    constructor (env: Env)
      ensures this.env == env && fresh(stateManager)
      ensures stateManager.Valid() && stateManager.states == map[] && txOutputs == map[]
    {
      this.env := env;
      stateManager := new StateManager();
      txOutputs := map[];
    }

    method AddTransactionOutput(hash: Hash, code: StatusCode, action: ActionType, feeLeft: Uint64)
      modifies this
      ensures txOutputs == old(txOutputs)[hash := TransactionStatus(code, action, feeLeft)]
    {
      txOutputs := txOutputs[hash := TransactionStatus(code, action, feeLeft)];
    }

    /** The two failure branches after the machine ran; what they raise is caught and recorded. */
    method Penalise(tx: Transaction, block: Block, run: EvmRun, action: ActionType)
      requires stateManager.Valid() && run.gasLeft <= tx.fee
      requires tx.from in stateManager.states && Total(stateManager.states) + tx.fee <= MAX_UINT256
      modifies this, stateManager
      ensures var p := Penalised(old(stateManager.states), block.coinbase, tx, run, action);
              && stateManager.states == p.ledger && stateManager.Valid()
              && p.status.Ok? && txOutputs == old(txOutputs)[env.HashOf(tx) := p.status.value]
      ensures run.gasLeft <= old(Bal(stateManager.states, tx.from)) ==>
                forall x :: Bal(stateManager.states, x) ==
                            old(Bal(stateManager.states, x)) - (if x == tx.from then run.gasLeft else 0)
                            + (if x == block.coinbase then tx.fee - run.gasLeft else 0)
    {
      hide Total, Bal, Add, Sub;
      PenalisedPaysAll(stateManager.states, block.coinbase, tx, run, action);
      var code := if run.status == EVMC_REVERT then Revert else BadQueryForm;
      AddTransactionOutput(env.HashOf(tx), code, action, run.gasLeft);
      if run.gasLeft <= Bal(stateManager.states, tx.from) {
        TotalSub(stateManager.states, tx.from, run.gasLeft);
      }
      var charged := stateManager.SubBalance(tx.from, run.gasLeft);
      if charged.Raised? {
        AddTransactionOutput(env.HashOf(tx), Failed, action, tx.fee);
        return;
      }
      var paid := stateManager.AddBalance(block.coinbase, tx.fee - run.gasLeft);
    }

    /** Pay for a successful run out of the working copy and commit it. */
    method Settle(txManager: StateManager, tx: Transaction, block: Block, run: EvmRun, action: ActionType)
      requires txManager != stateManager && run.gasLeft <= tx.fee
      requires Total(txManager.states) + tx.fee <= MAX_UINT256
      modifies this, stateManager, txManager
      ensures stateManager.states == Settled(old(txManager.states), block.coinbase, tx, run.gasLeft)
      ensures forall x :: Bal(stateManager.states, x) ==
                          Bal(old(txManager.states), x) + (if x == block.coinbase then tx.fee - run.gasLeft else 0)
                                                        + (if x == tx.from then run.gasLeft else 0)
      ensures stateManager.Valid()
      ensures txOutputs == old(txOutputs)[env.HashOf(tx) := TransactionStatus(Success, action, run.gasLeft)]
    {
      hide Total, Bal, Touch, Add;
      SettledPaysAll(txManager.states, block.coinbase, tx, run.gasLeft);
      AddTransactionOutput(env.HashOf(tx), Success, action, run.gasLeft);
      TotalAdd(txManager.states, block.coinbase, tx.fee - run.gasLeft);
      var paid := txManager.AddBalance(block.coinbase, tx.fee - run.gasLeft);
      var returned := txManager.AddBalance(tx.from, run.gasLeft);
      stateManager.ApplyChanges(txManager);
    }

    method DeployContract(txManager: StateManager, tx: Transaction, block: Block, heights: Heights)
      requires txManager != stateManager && txManager.states == stateManager.states && stateManager.Valid()
      requires env.Sane() && tx.from in stateManager.states && Total(stateManager.states) + tx.fee <= MAX_UINT256
      modifies this, stateManager, txManager
      ensures var p := PerformCreation(env, heights, old(stateManager.states), block, tx);
              && stateManager.states == p.ledger && stateManager.Valid()
              && p.status.Ok? && txOutputs == old(txOutputs)[env.HashOf(tx) := p.status.value]
    {
      hide Total, Settled, Penalised, RunScript, Transfer, CreateContract;
      ghost var l := stateManager.states;
      if tx.fee <= Bal(l, tx.from) { TotalSub(l, tx.from, tx.fee); }
      var charged := txManager.SubBalance(tx.from, tx.fee);
      if charged.Raised? {
        AddTransactionOutput(env.HashOf(tx), Failed, ContractCreation, tx.fee);
        return;
      }
      var codeHash := env.sha256(tx.data);
      var address := env.contractAddress(codeHash, tx.from, txManager.states[tx.from].nonce);
      TotalUpdate(txManager.states, address, NewAccount(CONTRACT).(codeHash := codeHash));
      txManager.CreateContractAccount(address, codeHash);
      TotalCreate(Sub(l, tx.from, tx.fee), address, codeHash);
      assert txManager.states == CreationStart(env, l, tx);
      TotalTransfer(txManager.states, tx.from, address, tx.amount);
      var moved := txManager.TryTransferMoney(tx.from, address, tx.amount);
      if !moved {
        AddTransactionOutput(env.HashOf(tx), NotEnoughBalance, ContractCreation, tx.fee);
        return;
      }
      var run := env.evm(heights, txManager.states, block, tx, address);
      if run.status == EVMC_SUCCESS {
        TotalScript(txManager.states, run.script);
        var host := new Host.EthHost(txManager);
        host.Execute(run.script);
        TotalTouch(txManager.states, address);
        var account := txManager.GetAccount(address);
        TotalUpdate(txManager.states, address, account.(runtimeCode := run.output));
        txManager.states := txManager.states[address := account.(runtimeCode := run.output)];
        Settle(txManager, tx, block, run, ContractCreation);
      } else {
        Penalise(tx, block, run, ContractCreation);
      }
    }

    method CallContract(txManager: StateManager, tx: Transaction, block: Block, heights: Heights)
      requires txManager != stateManager && stateManager.Valid() && env.Sane()
      requires tx.from in stateManager.states && Total(stateManager.states) + tx.fee <= MAX_UINT256
      requires Total(txManager.states) + tx.fee <= MAX_UINT256
      modifies this, stateManager, txManager
      ensures var p := PerformCall(env, heights, old(stateManager.states), old(txManager.states), block, tx);
              && stateManager.states == p.ledger && stateManager.Valid()
              && p.status.Ok? && txOutputs == old(txOutputs)[env.HashOf(tx) := p.status.value]
    {
      hide Total, Settled, Penalised, RunScript, Transfer;
      if tx.data == [] {
        AddTransactionOutput(env.HashOf(tx), BadQueryForm, ContractCall, tx.fee);
        return;
      }
      if tx.amount > 0 {
        TotalTransfer(txManager.states, tx.from, tx.to, tx.amount);
        var moved := txManager.TryTransferMoney(tx.from, tx.to, tx.amount);
        if !moved {
          AddTransactionOutput(env.HashOf(tx), NotEnoughBalance, ContractCall, tx.fee);
          return;
        }
      }
      var run := env.evm(heights, txManager.states, block, tx, tx.to);
      if run.status == EVMC_SUCCESS {
        TotalScript(txManager.states, run.script);
        var host := new Host.EthHost(txManager);
        host.Execute(run.script);
        Settle(txManager, tx, block, run, ContractCall);
      } else {
        Penalise(tx, block, run, ContractCall);
      }
    }

    method TransferMoney(txManager: StateManager, tx: Transaction, block: Block)
      requires txManager != stateManager && stateManager.Valid()
      requires Total(txManager.states) + tx.fee <= MAX_UINT256
      modifies this, stateManager, txManager
      ensures var p := PerformTransfer(old(stateManager.states), old(txManager.states), block, tx);
              && stateManager.states == p.ledger && stateManager.Valid()
              && p.status.Ok? && txOutputs == old(txOutputs)[env.HashOf(tx) := p.status.value]
    {
      hide Total, Transfer;
      TotalTransfer(txManager.states, tx.from, tx.to, tx.amount);
      var moved := txManager.TryTransferMoney(tx.from, tx.to, tx.amount);
      if !moved {
        AddTransactionOutput(env.HashOf(tx), NotEnoughBalance, TransferAction, tx.fee);
        return;
      }
      AddTransactionOutput(env.HashOf(tx), Success, TransferAction, 0);
      var paid := txManager.AddBalance(block.coinbase, tx.fee);
      stateManager.ApplyChanges(txManager);
    }

    /** The working copy is made after the bookkeeping, before the receiver is looked at. */
    method TryPerformTransaction(tx: Transaction, block: Block, heights: Heights) returns (r: Result<()>)
      requires stateManager.Valid() && env.Sane() && Total(stateManager.states) + tx.fee <= MAX_UINT256
      modifies this, stateManager
      ensures var p := Perform(env, heights, old(stateManager.states), block, tx);
              && stateManager.states == p.ledger && stateManager.Valid()
              && (r.Raised? <==> p.status.Raised?)
              && (r.Raised? ==> txOutputs == old(txOutputs))
              && (r.Ok? ==> txOutputs == old(txOutputs)[env.HashOf(tx) := p.status.value])
    {
      hide Total, PerformCreation, PerformCall, PerformTransfer, Recorded;
      TotalRecorded(stateManager.states, tx.from, env.HashOf(tx));
      stateManager.AddTransactionHash(tx.from, env.HashOf(tx));
      RecordedKnows(old(stateManager.states), tx.from, env.HashOf(tx));
      var txManager := stateManager.CreateCopy();
      ghost var l := stateManager.states;
      if tx.to == NULL_ADDRESS {
        DeployContract(txManager, tx, block, heights);
        return Ok(());
      }
      TotalTouch(l, tx.to);
      var recovery := stateManager.GetAccount(tx.to);
      if tx.fee <= Bal(l, tx.from) { TotalSub(l, tx.from, tx.fee); }
      var charged := txManager.SubBalance(tx.from, tx.fee);
      if charged.Raised? {
        return Raised(LogicError);
      }
      TotalTouch(txManager.states, tx.to);
      var receiver := txManager.GetAccount(tx.to);
      if receiver.kind == CONTRACT {
        CallContract(txManager, tx, block, heights);
      } else {
        TransferMoney(txManager, tx, block);
      }
      return Ok(());
    }

    method ApplyBlockTransactions(block: Block, heights: Heights) returns (r: Result<()>)
      requires stateManager.Valid() && env.Sane() && |block.txs| <= MAX_TRANSACTIONS_IN_BLOCK
      requires Total(stateManager.states) + BLOCK_LIMIT <= MAX_UINT256
      modifies this, stateManager
      ensures var applied := ApplyBlock(env, heights, old(stateManager.states), block);
              && stateManager.states == applied.ledger && stateManager.Valid()
              && (r.Raised? <==> applied.raised)
              && txOutputs == Outputs(env, old(txOutputs), block.txs, applied.statuses)
    {
      hide Total, PerformAll, Outputs;
      TotalAdd(stateManager.states, block.coinbase, EMISSION_VALUE);
      var emitted := stateManager.AddBalance(block.coinbase, EMISSION_VALUE);
      r := PerformTransactions(block, heights);
    }

    /** Stops at the first transaction that raises; what was performed before it stays. */
    method PerformTransactions(block: Block, heights: Heights) returns (r: Result<()>)
      requires stateManager.Valid() && env.Sane() && |block.txs| <= MAX_TRANSACTIONS_IN_BLOCK
      requires Total(stateManager.states) + MAX_TRANSACTIONS_IN_BLOCK * FEE_LIMIT <= MAX_UINT256
      modifies this, stateManager
      ensures var performed := PerformAll(env, heights, old(stateManager.states), block, block.txs);
              && stateManager.states == performed.ledger && stateManager.Valid()
              && (r.Raised? <==> performed.raised)
              && txOutputs == Outputs(env, old(txOutputs), block.txs, performed.statuses)
    {
      hide Total, Perform;
      ghost var paid := stateManager.states;
      ghost var whole := PerformAll(env, heights, paid, block, block.txs);
      assert block.txs[0..] == block.txs;
      for k := 0 to |block.txs|
        invariant stateManager.Valid()
        invariant Total(stateManager.states) <= Total(paid) + k * FEE_LIMIT
        invariant var rest := PerformAll(env, heights, stateManager.states, block, block.txs[k..]);
                  && rest.ledger == whole.ledger && rest.raised == whole.raised
                  && Outputs(env, txOutputs, block.txs[k..], rest.statuses)
                     == Outputs(env, old(txOutputs), block.txs, whole.statuses)
      {
        var tx := block.txs[k];
        assert block.txs[k..][0] == tx && block.txs[k..][1..] == block.txs[k + 1..];
        PerformBound(env, heights, stateManager.states, block, tx);
        var performed := TryPerformTransaction(tx, block, heights);
        if performed.Raised? {
          return Raised(LogicError);
        }
      }
      return Ok(());
    }
  }

  lemma {:induction false} TotalCreate(l: Ledger, a: Address, codeHash: Hash)
    ensures Total(CreateContract(l, a, codeHash)) <= Total(l)
  {
    TotalUpdate(l, a, NewAccount(CONTRACT).(codeHash := codeHash));
  }

  lemma {:induction false} RecordedKnows(l: Ledger, a: Address, hash: Hash)
    ensures a in Recorded(l, a, hash)
  {}
}
