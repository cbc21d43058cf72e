/**
 Who is paid by a transaction (`Core::tryPerformTransaction`, src/core/core.cpp): every balance and the recorded
 status in every case, and what a deployed contract is.
 */
module Payments {
  import opened Types
  import opened Blocks
  import opened Accounts
  import opened Execution
  import opened Supply
  import opened Transfers

  // ---------- scripts ----------

  /** The callbacks of a script happen in order, each on what the ones before it left. */
  lemma {:induction false} ScriptInOrder(l: Ledger, first: seq<HostCall>, rest: seq<HostCall>)
    ensures RunScript(l, first + rest) == RunScript(RunScript(l, first), rest)
    decreases |first|
  {
    hide RunCall;
    if first == [] {
      assert first + rest == rest;
    } else {
      assert (first + rest)[0] == first[0] && (first + rest)[1..] == first[1..] + rest;
      ScriptInOrder(RunCall(l, first[0]), first[1..], rest);
    }
  }

  /** Some callback that is made in the run of the script, at any depth, destroys account `a`. */
  ghost predicate Destroys(l: Ledger, script: seq<HostCall>, a: Address)
    decreases script, 0
  {
    script != [] && (CallDestroys(l, script[0], a) || Destroys(RunCall(l, script[0]), script[1..], a))
  }

  ghost predicate CallDestroys(l: Ledger, c: HostCall, a: Address)
    decreases c, 1
  {
    match c
    case Call(_, destination, _, nested, _) => IsContract(l, destination) && Destroys(l, nested, a)
    case SelfDestruct(b, _) => a == b
    case _ => false
  }

  /** A contract with this code hash. */
  predicate IsContractOf(l: Ledger, a: Address, codeHash: Hash) {
    a in l && l[a].kind == CONTRACT && l[a].codeHash == codeHash
  }

  /** A script turns nothing into a contract, and a contract stays what it is exactly if it is not destroyed. */
  lemma {:induction false} ScriptKeepsKind(l: Ledger, script: seq<HostCall>, a: Address, codeHash: Hash)
    ensures !IsContract(l, a) ==> !IsContract(RunScript(l, script), a)
    ensures if Destroys(l, script, a) then !IsContract(RunScript(l, script), a)
            else IsContractOf(l, a, codeHash) ==> IsContractOf(RunScript(l, script), a, codeHash)
    decreases script, 0
  {
    hide IsContract, IsContractOf;
    if script == [] {
    } else {
      CallKeepsKind(l, script[0], a, codeHash);
      ScriptKeepsKind(RunCall(l, script[0]), script[1..], a, codeHash);
    }
  }

  lemma {:induction false} CallKeepsKind(l: Ledger, c: HostCall, a: Address, codeHash: Hash)
    ensures !IsContract(l, a) ==> !IsContract(RunCall(l, c), a)
    ensures if CallDestroys(l, c, a) then !IsContract(RunCall(l, c), a)
            else IsContractOf(l, a, codeHash) ==> IsContractOf(RunCall(l, c), a, codeHash)
    decreases c, 1
  {
    match c
    case Call(sender, destination, value, nested, _) =>
      if IsContract(l, destination) { ScriptKeepsKind(l, nested, a, codeHash); }
    case SetStorage(_, _, _) =>
    case SelfDestruct(_, _) =>
    case Inspect(_) =>
  }

  // ---------- what reaches the machine ----------

  /** The nonce of the sender once the transaction is recorded. */
  function NextNonce(before: Ledger, from: Address): Uint64 {
    ((if from in before then before[from].nonce else 0) + 1) % 0x1_00000000_00000000
  }

  /** Where a contract of this transaction is deployed. */
  function DeployedAt(env: Env, before: Ledger, tx: Transaction): Address {
    env.contractAddress(env.sha256(tx.data), tx.from, NextNonce(before, tx.from))
  }

  /** Whether the machine runs at all, and on what balances, for a transaction to an account. */
  lemma {:induction false} CallReaches(env: Env, heights: Heights, before: Ledger, block: Block, tx: Transaction)
    requires env.Sane() && tx.to != NULL_ADDRESS
    ensures var reached := MachineRun(env, heights, before, block, tx);
            && (reached.Some? <==>
                IsContract(before, tx.to) && tx.data != [] && tx.fee + tx.amount <= Bal(before, tx.from))
            && (reached.Some? ==>
                && reached.value.run == env.evm(heights, reached.value.funded, block, tx, tx.to)
                && forall x :: Bal(reached.value.funded, x) ==
                               Bal(before, x) - (if x == tx.from then tx.fee + tx.amount else 0)
                                              + (if x == tx.to then tx.amount else 0))
  {
    MachineToAccount(env, heights, before, block, tx);
    hide MachineRun;
    var l := Recorded(before, tx.from, env.HashOf(tx));
    SameKind(before, tx.from, tx.from, 0, env.HashOf(tx), tx.to);
    BalanceSteps(before, tx.from, 0, env.HashOf(tx), tx.from);
  }

  /** The same for a contract creation; a reused address loses what it held, before it gets the amount. */
  lemma {:induction false} CreationReaches(env: Env, heights: Heights, before: Ledger, block: Block, tx: Transaction)
    requires env.Sane() && tx.to == NULL_ADDRESS
    ensures var reached, a := MachineRun(env, heights, before, block, tx), DeployedAt(env, before, tx);
            && (reached.Some? <==>
                && tx.fee <= Bal(before, tx.from)
                && tx.amount <= if a == tx.from then 0 else Bal(before, tx.from) - tx.fee)
            && (reached.Some? ==>
                && reached.value.run == env.evm(heights, reached.value.funded, block, tx, a)
                && reached.value.funded.Keys >= {a}
                && reached.value.funded[a]
                   == NewAccount(CONTRACT).(codeHash := env.sha256(tx.data), balance := tx.amount)
                && forall x | x != a :: Bal(reached.value.funded, x) ==
                                        Bal(before, x) - (if x == tx.from then tx.fee + tx.amount else 0))
  {
    var l := Recorded(before, tx.from, env.HashOf(tx));
    assert NewAddress(env, l, tx) == DeployedAt(env, before, tx);
  }

  // ---------- successful runs ----------

  lemma {:induction false} SettledPays(l: Ledger, coinbase: Address, tx: Transaction, gasLeft: Uint64, x: Address)
    requires gasLeft <= tx.fee
    ensures Bal(Settled(l, coinbase, tx, gasLeft), x) ==
            Bal(l, x) + (if x == coinbase then tx.fee - gasLeft else 0) + (if x == tx.from then gasLeft else 0)
  {
    BalanceSteps(l, coinbase, tx.fee - gasLeft, NULL_HASH, x);
    BalanceSteps(Add(l, coinbase, tx.fee - gasLeft), tx.from, gasLeft, NULL_HASH, x);
  }

  lemma {:induction false} SettledPaysAll(l: Ledger, coinbase: Address, tx: Transaction, gasLeft: Uint64)
    requires gasLeft <= tx.fee
    ensures forall x :: Bal(Settled(l, coinbase, tx, gasLeft), x) ==
                        Bal(l, x) + (if x == coinbase then tx.fee - gasLeft else 0)
                                  + (if x == tx.from then gasLeft else 0)
  {
    hide Settled, Bal;
    forall x { SettledPays(l, coinbase, tx, gasLeft, x); }
  }

  /** After a successful run the coinbase has the gas used, and the sender what is left, on top of the script. */
  lemma {:induction false} SuccessfulRunPays(env: Env, heights: Heights, before: Ledger, block: Block, tx: Transaction,
                                             x: Address)
    requires env.Sane() && MachineRun(env, heights, before, block, tx).Some?
    requires MachineRun(env, heights, before, block, tx).value.run.status == EVMC_SUCCESS
    ensures var p := Perform(env, heights, before, block, tx);
            var Reach(funded, run, _) := MachineRun(env, heights, before, block, tx).value;
            var action := if tx.to == NULL_ADDRESS then ContractCreation else ContractCall;
            && p.status == Ok(TransactionStatus(Success, action, run.gasLeft))
            && Bal(p.ledger, x) == Bal(RunScript(funded, run.script), x)
                                   + (if x == block.coinbase then tx.fee - run.gasLeft else 0)
                                   + (if x == tx.from then run.gasLeft else 0)
  {
    var Reach(funded, run, _) := MachineRun(env, heights, before, block, tx).value;
    if tx.to == NULL_ADDRESS {
      CreationSucceeds(env, heights, before, block, tx);
      var a := DeployedAt(env, before, tx);
      var coded := Coded(RunScript(funded, run.script), a, run.output);
      SettledPays(coded, block.coinbase, tx, run.gasLeft, x);
      hide MachineRun, Perform, Settled, RunScript;
    } else {
      CallSucceeds(env, heights, before, block, tx);
      SettledPays(RunScript(funded, run.script), block.coinbase, tx, run.gasLeft, x);
    }
  }

  /** The code is stored at the address, whatever the script left there. */
  function Coded(l: Ledger, a: Address, code: seq<Byte>): Ledger {
    var t := Touch(l, a);
    t[a := t[a].(runtimeCode := code)]
  }

  lemma {:induction false} CreationSucceeds(env: Env, heights: Heights, before: Ledger, block: Block, tx: Transaction)
    requires env.Sane() && tx.to == NULL_ADDRESS && MachineRun(env, heights, before, block, tx).Some?
    requires MachineRun(env, heights, before, block, tx).value.run.status == EVMC_SUCCESS
    ensures var Reach(funded, run, _) := MachineRun(env, heights, before, block, tx).value;
            var coded := Coded(RunScript(funded, run.script), DeployedAt(env, before, tx), run.output);
            && run.gasLeft <= tx.fee
            && Perform(env, heights, before, block, tx)
               == Done(Settled(coded, block.coinbase, tx, run.gasLeft), Success, ContractCreation, run.gasLeft)
  {
    hide RunScript, Settled, Transfer, CanTransfer;
    var l := Recorded(before, tx.from, env.HashOf(tx));
    assert NewAddress(env, l, tx) == DeployedAt(env, before, tx);
  }

  lemma {:induction false} CallSucceeds(env: Env, heights: Heights, before: Ledger, block: Block, tx: Transaction)
    requires env.Sane() && tx.to != NULL_ADDRESS && MachineRun(env, heights, before, block, tx).Some?
    requires MachineRun(env, heights, before, block, tx).value.run.status == EVMC_SUCCESS
    ensures var Reach(funded, run, _) := MachineRun(env, heights, before, block, tx).value;
            && run.gasLeft <= tx.fee
            && Perform(env, heights, before, block, tx)
               == Done(Settled(RunScript(funded, run.script), block.coinbase, tx, run.gasLeft), Success, ContractCall,
                       run.gasLeft)
  {
    MachineToAccount(env, heights, before, block, tx);
    PerformToAccount(env, heights, before, block, tx);
    hide Perform, MachineRun, RunScript, Settled, Transfer;
    var c := Touch(Sub(Recorded(before, tx.from, env.HashOf(tx)), tx.from, tx.fee), tx.to);
    TransferNothing(c, tx.from, tx.to);
  }

  // ---------- failed runs ----------

  /**
   After a failed run the sender has lost the gas that was left, and the coinbase has the gas used; a sender who
   has less than the gas left is not charged and nobody is paid.
   */
  lemma {:induction false} FailedRunPays(env: Env, heights: Heights, before: Ledger, block: Block, tx: Transaction,
                                         x: Address)
    requires env.Sane() && MachineRun(env, heights, before, block, tx).Some?
    requires MachineRun(env, heights, before, block, tx).value.run.status != EVMC_SUCCESS
    ensures var p, run := Perform(env, heights, before, block, tx),
                          MachineRun(env, heights, before, block, tx).value.run;
            var action := if tx.to == NULL_ADDRESS then ContractCreation else ContractCall;
            if Bal(before, tx.from) < run.gasLeft then
              && p.status == Ok(TransactionStatus(Failed, action, tx.fee))
              && Bal(p.ledger, x) == Bal(before, x)
            else
              && p.status == Ok(TransactionStatus(if run.status == EVMC_REVERT then Revert else BadQueryForm, action,
                                                  run.gasLeft))
              && Bal(p.ledger, x) == Bal(before, x) - (if x == tx.from then run.gasLeft else 0)
                                                    + (if x == block.coinbase then tx.fee - run.gasLeft else 0)
  {
    var l := Recorded(before, tx.from, env.HashOf(tx));
    var run := MachineRun(env, heights, before, block, tx).value.run;
    BalanceSteps(before, tx.from, 0, env.HashOf(tx), x);
    BalanceSteps(before, tx.from, 0, env.HashOf(tx), tx.from);
    if tx.to == NULL_ADDRESS {
      CreationFails(env, heights, before, block, tx);
      PenalisedPays(l, block.coinbase, tx, run, ContractCreation, x);
    } else {
      CallFails(env, heights, before, block, tx);
      BalanceSteps(l, tx.to, 0, NULL_HASH, x);
      BalanceSteps(l, tx.to, 0, NULL_HASH, tx.from);
      PenalisedPays(Touch(l, tx.to), block.coinbase, tx, run, ContractCall, x);
    }
  }

  lemma {:induction false} PenalisedPays(l: Ledger, coinbase: Address, tx: Transaction, run: EvmRun,
                                         action: ActionType, x: Address)
    requires run.gasLeft <= tx.fee
    ensures var p := Penalised(l, coinbase, tx, run, action);
            if Bal(l, tx.from) < run.gasLeft then
              p == Performed(l, Ok(TransactionStatus(Failed, action, tx.fee)))
            else
              && p.status == Ok(TransactionStatus(if run.status == EVMC_REVERT then Revert else BadQueryForm, action,
                                                  run.gasLeft))
              && Bal(p.ledger, x) == Bal(l, x) - (if x == tx.from then run.gasLeft else 0)
                                               + (if x == coinbase then tx.fee - run.gasLeft else 0)
  {
    BalanceSteps(l, tx.from, run.gasLeft, NULL_HASH, x);
    if run.gasLeft <= Bal(l, tx.from) {
      BalanceSteps(Sub(l, tx.from, run.gasLeft), coinbase, tx.fee - run.gasLeft, NULL_HASH, x);
    }
  }

  lemma {:induction false} PenalisedPaysAll(l: Ledger, coinbase: Address, tx: Transaction, run: EvmRun,
                                            action: ActionType)
    requires run.gasLeft <= tx.fee
    ensures run.gasLeft <= Bal(l, tx.from) ==>
              forall x :: Bal(Penalised(l, coinbase, tx, run, action).ledger, x) ==
                          Bal(l, x) - (if x == tx.from then run.gasLeft else 0)
                                    + (if x == coinbase then tx.fee - run.gasLeft else 0)
  {
    hide Penalised, Bal;
    if run.gasLeft <= Bal(l, tx.from) {
      forall x { PenalisedPays(l, coinbase, tx, run, action, x); }
    }
  }

  lemma {:induction false} CreationFails(env: Env, heights: Heights, before: Ledger, block: Block, tx: Transaction)
    requires env.Sane() && tx.to == NULL_ADDRESS && MachineRun(env, heights, before, block, tx).Some?
    requires MachineRun(env, heights, before, block, tx).value.run.status != EVMC_SUCCESS
    ensures var run := MachineRun(env, heights, before, block, tx).value.run;
            && run.gasLeft <= tx.fee
            && Perform(env, heights, before, block, tx)
               == Penalised(Recorded(before, tx.from, env.HashOf(tx)), block.coinbase, tx, run, ContractCreation)
  {
    hide RunScript, Settled, Transfer, CanTransfer, Penalised;
  }

  lemma {:induction false} CallFails(env: Env, heights: Heights, before: Ledger, block: Block, tx: Transaction)
    requires env.Sane() && tx.to != NULL_ADDRESS && MachineRun(env, heights, before, block, tx).Some?
    requires MachineRun(env, heights, before, block, tx).value.run.status != EVMC_SUCCESS
    ensures var l, run := Recorded(before, tx.from, env.HashOf(tx)),
                          MachineRun(env, heights, before, block, tx).value.run;
            && run.gasLeft <= tx.fee
            && Perform(env, heights, before, block, tx)
               == Penalised(Touch(l, tx.to), block.coinbase, tx, run, ContractCall)
  {
    MachineToAccount(env, heights, before, block, tx);
    PerformToAccount(env, heights, before, block, tx);
    hide Perform, MachineRun, RunScript, Settled, Transfer, Penalised;
    var c := Touch(Sub(Recorded(before, tx.from, env.HashOf(tx)), tx.from, tx.fee), tx.to);
    TransferNothing(c, tx.from, tx.to);
  }

  // ---------- without a run ----------

  /**
   A transaction that does not reach the machine changes balances exactly when it is a transfer its sender can pay;
   the status tells why not, and it raises exactly outside creation when the fee is missing.
   */
  lemma {:induction false} NoRunPays(env: Env, heights: Heights, before: Ledger, block: Block, tx: Transaction,
                                     x: Address)
    requires env.Sane() && MachineRun(env, heights, before, block, tx).None?
    ensures var p, has := Perform(env, heights, before, block, tx), Bal(before, tx.from);
            var paid := tx.to != NULL_ADDRESS && !IsContract(before, tx.to) && tx.fee + tx.amount <= has;
            && (p.status.Raised? <==> tx.to != NULL_ADDRESS && has < tx.fee)
            && (p.status.Ok? ==>
                p.status.value ==
                if tx.to == NULL_ADDRESS then
                  TransactionStatus(if has < tx.fee then Failed else NotEnoughBalance, ContractCreation, tx.fee)
                else if IsContract(before, tx.to) then
                  TransactionStatus(if tx.data == [] then BadQueryForm else NotEnoughBalance, ContractCall, tx.fee)
                else if paid then TransactionStatus(Success, TransferAction, 0)
                else TransactionStatus(NotEnoughBalance, TransferAction, tx.fee))
            && Bal(p.ledger, x) ==
               Bal(before, x) + if !paid then 0
                                else (if x == tx.to then tx.amount else 0) + (if x == block.coinbase then tx.fee else 0)
                                     - (if x == tx.from then tx.amount + tx.fee else 0)
  {
    if tx.to == NULL_ADDRESS {
      CreationRefused(env, heights, before, block, tx);
      BalanceSteps(before, tx.from, 0, env.HashOf(tx), x);
      BalanceSteps(before, tx.from, 0, env.HashOf(tx), tx.from);
      hide Perform, MachineRun;
    } else if !IsContract(before, tx.to) && tx.fee + tx.amount <= Bal(before, tx.from) {
      PlainTransfer(env, heights, before, block, tx, x);
      hide Perform, MachineRun;
    } else {
      NotPerformed(env, heights, before, block, tx);
      var l := Recorded(before, tx.from, env.HashOf(tx));
      BalanceSteps(before, tx.from, 0, env.HashOf(tx), x);
      BalanceSteps(l, tx.to, 0, NULL_HASH, x);
      hide Perform, MachineRun, Recorded, Touch;
    }
  }

  lemma {:induction false} CreationRefused(env: Env, heights: Heights, before: Ledger, block: Block, tx: Transaction)
    requires env.Sane() && tx.to == NULL_ADDRESS && MachineRun(env, heights, before, block, tx).None?
    ensures var l := Recorded(before, tx.from, env.HashOf(tx));
            Perform(env, heights, before, block, tx) ==
            Done(l, if Bal(l, tx.from) < tx.fee then Failed else NotEnoughBalance, ContractCreation, tx.fee)
  {
    hide RunScript, Settled, Transfer, CanTransfer, Penalised;
  }

  lemma {:induction false} NotPerformed(env: Env, heights: Heights, before: Ledger, block: Block, tx: Transaction)
    requires env.Sane() && tx.to != NULL_ADDRESS && MachineRun(env, heights, before, block, tx).None?
    requires IsContract(before, tx.to) || Bal(before, tx.from) < tx.fee + tx.amount
    ensures var l, p := Recorded(before, tx.from, env.HashOf(tx)), Perform(env, heights, before, block, tx);
            && p.ledger == Touch(l, tx.to)
            && p.status == if Bal(before, tx.from) < tx.fee then Raised(LogicError)
                           else if !IsContract(before, tx.to) then
                             Ok(TransactionStatus(NotEnoughBalance, TransferAction, tx.fee))
                           else Ok(TransactionStatus(if tx.data == [] then BadQueryForm else NotEnoughBalance,
                                                     ContractCall, tx.fee))
  {
    MachineToAccount(env, heights, before, block, tx);
    PerformToAccount(env, heights, before, block, tx);
    hide Perform, MachineRun, RunScript, Settled, Transfer, Penalised;
    var l := Recorded(before, tx.from, env.HashOf(tx));
    BalanceSteps(before, tx.from, 0, env.HashOf(tx), tx.from);
    SameKind(before, tx.from, tx.from, 0, env.HashOf(tx), tx.to);
  }

  // ---------- what is deployed ----------

  /**
   A successful creation leaves the returned code at the address. The account is a contract of the code's hash
   exactly if the script did not destroy it; otherwise the code ends up in a client account.
   */
  lemma {:induction false} CodeDeployed(env: Env, heights: Heights, before: Ledger, block: Block, tx: Transaction)
    requires env.Sane() && tx.to == NULL_ADDRESS && MachineRun(env, heights, before, block, tx).Some?
    requires MachineRun(env, heights, before, block, tx).value.run.status == EVMC_SUCCESS
    ensures var Reach(funded, run, _) := MachineRun(env, heights, before, block, tx).value;
            var a, after := DeployedAt(env, before, tx), Perform(env, heights, before, block, tx).ledger;
            && a in after && after[a].runtimeCode == run.output
            && (after[a].kind == CONTRACT <==> !Destroys(funded, run.script, a))
            && (after[a].kind == CONTRACT ==> after[a].codeHash == env.sha256(tx.data))
  {
    CreationReaches(env, heights, before, block, tx);
    CreationSucceeds(env, heights, before, block, tx);
    var Reach(funded, run, _) := MachineRun(env, heights, before, block, tx).value;
    var a := DeployedAt(env, before, tx);
    hide MachineRun, Perform, DeployedAt, Settled;
    var ran := RunScript(funded, run.script);
    ScriptKeepsKind(funded, run.script, a, env.sha256(tx.data));
    hide RunScript, Destroys;
    SettledKeeps(Coded(ran, a, run.output), block.coinbase, tx, run.gasLeft, a);
  }

  lemma {:induction false} SettledKeeps(l: Ledger, coinbase: Address, tx: Transaction, gasLeft: Uint64, a: Address)
    requires gasLeft <= tx.fee && a in l
    ensures var after := Settled(l, coinbase, tx, gasLeft); a in after && after[a] == l[a].(balance := after[a].balance)
  {}

  // ---------- blocks ----------

  /** Transactions are performed in order, each on what the ones before it left, up to the first that raises. */
  lemma {:induction false} PerformedInOrder(env: Env, heights: Heights, l: Ledger, block: Block,
                                            first: seq<Transaction>, rest: seq<Transaction>)
    requires env.Sane()
    ensures var a, whole := PerformAll(env, heights, l, block, first), PerformAll(env, heights, l, block, first + rest);
            var b := PerformAll(env, heights, a.ledger, block, rest);
            whole == if a.raised then a else Applied(b.ledger, a.statuses + b.statuses, b.raised)
    decreases |first|
  {
    hide Perform;
    if first == [] {
      assert first + rest == rest;
    } else {
      assert (first + rest)[0] == first[0] && (first + rest)[1..] == first[1..] + rest;
      PerformAllStep(env, heights, l, block, first);
      PerformAllStep(env, heights, l, block, first + rest);
      hide PerformAll;
      PerformedInOrder(env, heights, Perform(env, heights, l, block, first[0]).ledger, block, first[1..], rest);
    }
  }

  lemma {:induction false} PerformAllStep(env: Env, heights: Heights, l: Ledger, block: Block, txs: seq<Transaction>)
    requires env.Sane() && txs != []
    ensures var p := Perform(env, heights, l, block, txs[0]);
            var rest := PerformAll(env, heights, p.ledger, block, txs[1..]);
            PerformAll(env, heights, l, block, txs) ==
            if p.status.Raised? then Applied(p.ledger, [], true)
            else Applied(rest.ledger, [p.status.value] + rest.statuses, rest.raised)
  {
    hide Perform;
  }

  /** The coinbase can spend the emission of 1000 in the block itself: it comes before the transactions. */
  lemma {:induction false} EmissionFirst(env: Env, heights: Heights, l: Ledger, block: Block, tx: Transaction)
    requires env.Sane() && block.txs == [tx] && tx.from == block.coinbase && IsPlain(l, tx)
    ensures var applied, funds := ApplyBlock(env, heights, l, block), Bal(l, tx.from) + 1000;
            && (applied.raised <==> funds < tx.fee)
            && (applied.statuses == [TransactionStatus(Success, TransferAction, 0)] <==> tx.amount + tx.fee <= funds)
  {
    var paid := Add(l, block.coinbase, EMISSION_VALUE);
    SameKind(l, block.coinbase, block.coinbase, EMISSION_VALUE, NULL_HASH, tx.to);
    BalanceSteps(l, block.coinbase, EMISSION_VALUE, NULL_HASH, tx.from);
    PlainRunsNothing(env, heights, paid, block, tx);
    NoRunPays(env, heights, paid, block, tx, tx.from);
    hide Perform, MachineRun, Add, Bal, IsContract;
    var p := Perform(env, heights, paid, block, tx);
    assert block.txs[1..] == [];
    assert PerformAll(env, heights, p.ledger, block, []) == Applied(p.ledger, [], false);
    assert ApplyBlock(env, heights, l, block) ==
           if p.status.Raised? then Applied(p.ledger, [], true) else Applied(p.ledger, [p.status.value], false);
  }
}
