/** The sum of all balances: what moves it, what cannot, and why no checked addition overflows. */
module Supply {
  import opened Types
  import opened Blocks
  import opened Accounts
  import opened Execution
  import Chain

  // ---------- scripts ----------

  /** Money that leaves the world when `c` runs: an account that names itself as its beneficiary. */
  ghost function CallBurn(l: Ledger, c: HostCall): nat
    decreases c, 1
  {
    match c
    case Call(sender, destination, value, nested, _) => if IsContract(l, destination) then ScriptBurn(l, nested) else 0
    case SelfDestruct(a, beneficiary) => if a == beneficiary then Bal(l, a) else 0
    case _ => 0
  }

  ghost function ScriptBurn(l: Ledger, script: seq<HostCall>): nat
    decreases script, 0
  {
    if script == [] then 0 else CallBurn(l, script[0]) + ScriptBurn(RunCall(l, script[0]), script[1..])
  }

  lemma {:induction false} TotalStored(l: Ledger, a: Address, key: Hash, value: seq<Byte>)
    ensures Total(Stored(l, a, key, value)) == Total(l)
  {
    TotalTouch(l, a);
    var t := Touch(l, a);
    TotalUpdate(t, a, Stored(l, a, key, value)[a]);
    assert t[a := t[a]] == t;
  }

  lemma {:induction false} TotalDestructed(l: Ledger, a: Address, b: Address)
    ensures Total(Destructed(l, a, b)) + (if a == b then Bal(l, a) else 0) == Total(l)
  {
    TotalTouch(l, a);
    TotalTouch(Touch(l, a), b);
    var t := Touch(Touch(l, a), b);
    TotalTransfer(t, a, b, Bal(t, a));
    TransferBalances(t, a, b, Bal(t, a), a);
    TotalRemove(Transfer(t, a, b, Bal(t, a)), a);
  }

  /** Any script of host callbacks, nested calls included, loses exactly what it burns. */
  lemma {:induction false} TotalScript(l: Ledger, script: seq<HostCall>)
    ensures Total(RunScript(l, script)) + ScriptBurn(l, script) == Total(l)
    decreases script, 0
  {
    if script == [] {
    } else {
      TotalCall(l, script[0]);
      TotalScript(RunCall(l, script[0]), script[1..]);
    }
  }

  lemma {:induction false} TotalCall(l: Ledger, c: HostCall)
    ensures Total(RunCall(l, c)) + CallBurn(l, c) == Total(l)
    decreases c, 1
  {
    match c
    case Call(sender, destination, value, nested, _) =>
      if IsContract(l, destination) { TotalScript(l, nested); } else { TotalTransfer(l, sender, destination, value); }
    case SetStorage(a, key, value) => TotalStored(l, a, key, value);
    case SelfDestruct(a, b) => TotalDestructed(l, a, b);
    case Inspect(a) => TotalTouch(l, a);
  }

  /** No account in the script, at any depth, names itself as its own beneficiary. */
  ghost predicate NoSelfBeneficiary(script: seq<HostCall>)
    decreases script, 0
  {
    forall i :: 0 <= i < |script| ==> HasOtherBeneficiary(script[i])
  }

  ghost predicate HasOtherBeneficiary(c: HostCall)
    decreases c, 1
  {
    match c
    case Call(_, _, _, nested, _) => NoSelfBeneficiary(nested)
    case SelfDestruct(a, b) => a != b
    case _ => true
  }

  lemma {:induction false} NothingBurned(l: Ledger, script: seq<HostCall>)
    requires NoSelfBeneficiary(script)
    ensures ScriptBurn(l, script) == 0
    decreases script
  {
    if script == [] {
    } else {
      assert HasOtherBeneficiary(script[0]);
      if script[0].Call? { NothingBurned(l, script[0].nested); }
      assert forall i :: 0 <= i < |script[1..]| ==> script[1..][i] == script[i + 1];
      NothingBurned(RunCall(l, script[0]), script[1..]);
    }
  }

  // ---------- one transaction ----------

  /** The ledger the machine starts on and the run it makes, for a transaction that reaches it. */
  datatype Reach = Reach(funded: Ledger, run: EvmRun, overwritten: nat)

  ghost function MachineRun(env: Env, heights: Heights, before: Ledger, block: Block, tx: Transaction): Option<Reach>
    requires env.Sane()
  {
    var l := Recorded(before, tx.from, env.HashOf(tx));
    if Bal(l, tx.from) < tx.fee then None
    else if tx.to == NULL_ADDRESS then
      var a := NewAddress(env, l, tx);
      var start := CreationStart(env, l, tx);
      var funded := Transfer(start, tx.from, a, tx.amount);
      if CanTransfer(start, tx.from, tx.amount)
      then Some(Reach(funded, env.evm(heights, funded, block, tx, a), Bal(Sub(l, tx.from, tx.fee), a)))
      else None
    else
      var c := Touch(Sub(l, tx.from, tx.fee), tx.to);
      var funded := Transfer(c, tx.from, tx.to, tx.amount);
      if c[tx.to].kind == CONTRACT && tx.data != [] && CanTransfer(c, tx.from, tx.amount)
      then Some(Reach(funded, env.evm(heights, funded, block, tx, tx.to), 0))
      else None
  }

  /** Money destroyed by a successful run: what the script burned and what a reused address held. */
  ghost function Burned(reach: Reach): nat {
    reach.overwritten + ScriptBurn(reach.funded, reach.run.script)
  }

  lemma {:induction false} TotalSettled(l: Ledger, coinbase: Address, tx: Transaction, gasLeft: Uint64)
    requires gasLeft <= tx.fee
    ensures Total(Settled(l, coinbase, tx, gasLeft)) == Total(l) + tx.fee
  {
    TotalAdd(l, coinbase, tx.fee - gasLeft);
    TotalAdd(Add(l, coinbase, tx.fee - gasLeft), tx.from, gasLeft);
  }

  /** The exact change of the sum when the machine fails: the charge and the credit do not balance. */
  lemma {:induction false} TotalPenalised(l: Ledger, coinbase: Address, tx: Transaction, run: EvmRun,
                                          action: ActionType)
    requires run.gasLeft <= tx.fee
    ensures Total(Penalised(l, coinbase, tx, run, action).ledger) as int ==
            Total(l) + if Bal(l, tx.from) < run.gasLeft then 0 else tx.fee - 2 * run.gasLeft
  {
    if run.gasLeft <= Bal(l, tx.from) {
      TotalSub(l, tx.from, run.gasLeft);
      TotalAdd(Sub(l, tx.from, run.gasLeft), coinbase, tx.fee - run.gasLeft);
    }
  }

  lemma {:induction false} TotalCreation(env: Env, heights: Heights, before: Ledger, block: Block, tx: Transaction)
    requires env.Sane() && tx.to == NULL_ADDRESS
    ensures SupplyChanged(env, heights, before, block, tx)
  {
    var l := Recorded(before, tx.from, env.HashOf(tx));
    TotalRecorded(before, tx.from, env.HashOf(tx));
    var reached := MachineRun(env, heights, before, block, tx);
    if reached.Some? {
      var Reach(funded, run, overwritten) := reached.value;
      var a := NewAddress(env, l, tx);
      var start := CreationStart(env, l, tx);
      if run.status == EVMC_SUCCESS {
        TotalSub(l, tx.from, tx.fee);
        TotalUpdate(Sub(l, tx.from, tx.fee), a, NewAccount(CONTRACT).(codeHash := env.sha256(tx.data)));
        TotalTransfer(start, tx.from, a, tx.amount);
        TotalScript(funded, run.script);
        TotalTouch(RunScript(funded, run.script), a);
        var ran := Touch(RunScript(funded, run.script), a);
        var coded := ran[a := ran[a].(runtimeCode := run.output)];
        TotalUpdate(ran, a, coded[a]);
        TotalSettled(coded, block.coinbase, tx, run.gasLeft);
      } else {
        TotalPenalised(l, block.coinbase, tx, run, ContractCreation);
      }
    }
  }

  lemma {:induction false} TotalContractCall(env: Env, heights: Heights, l: Ledger, c: Ledger, block: Block,
                                             tx: Transaction)
    requires env.Sane() && tx.from in c && tx.to in c && Total(c) + tx.fee == Total(l)
    requires tx.data != [] && CanTransfer(c, tx.from, tx.amount)
    ensures var funded := Transfer(c, tx.from, tx.to, tx.amount);
            var run := env.evm(heights, funded, block, tx, tx.to);
            var after := Total(PerformCall(env, heights, l, c, block, tx).ledger);
            if run.status == EVMC_SUCCESS then after + ScriptBurn(funded, run.script) == Total(l)
            else after as int == Total(l) + if Bal(l, tx.from) < run.gasLeft then 0 else tx.fee - 2 * run.gasLeft
  {
    TransferNothing(c, tx.from, tx.to);
    hide Transfer, Settled, RunScript, ScriptBurn, Penalised;
    var funded := Transfer(c, tx.from, tx.to, tx.amount);
    var run := env.evm(heights, funded, block, tx, tx.to);
    TotalTransfer(c, tx.from, tx.to, tx.amount);
    TotalScript(funded, run.script);
    TotalSettled(RunScript(funded, run.script), block.coinbase, tx, run.gasLeft);
    TotalPenalised(l, block.coinbase, tx, run, ContractCall);
  }

  lemma {:induction false} TotalPlain(l: Ledger, c: Ledger, block: Block, tx: Transaction)
    requires Total(c) + tx.fee == Total(l)
    ensures Total(PerformTransfer(l, c, block, tx).ledger) == Total(l)
  {
    TotalTransfer(c, tx.from, tx.to, tx.amount);
    TotalAdd(Transfer(c, tx.from, tx.to, tx.amount), block.coinbase, tx.fee);
  }

  /** How a transaction to an account is performed. */
  lemma {:induction false} PerformToAccount(env: Env, heights: Heights, before: Ledger, block: Block, tx: Transaction)
    requires env.Sane() && tx.to != NULL_ADDRESS
    ensures var l, p := Recorded(before, tx.from, env.HashOf(tx)), Perform(env, heights, before, block, tx);
            && tx.from in l
            && (Bal(l, tx.from) < tx.fee ==> p == Performed(Touch(l, tx.to), Raised(LogicError)))
            && (tx.fee <= Bal(l, tx.from) ==>
                var c := Touch(Sub(l, tx.from, tx.fee), tx.to);
                && tx.from in c && tx.to in c
                && p == if c[tx.to].kind == CONTRACT then PerformCall(env, heights, Touch(l, tx.to), c, block, tx)
                        else PerformTransfer(Touch(l, tx.to), c, block, tx))
  {
    hide PerformCall, PerformTransfer, PerformCreation;
  }

  /** When such a transaction reaches the machine. */
  lemma {:induction false} MachineToAccount(env: Env, heights: Heights, before: Ledger, block: Block, tx: Transaction)
    requires env.Sane() && tx.to != NULL_ADDRESS
    ensures var l, reached := Recorded(before, tx.from, env.HashOf(tx)), MachineRun(env, heights, before, block, tx);
            && tx.from in l
            && (Bal(l, tx.from) < tx.fee ==> reached.None?)
            && (tx.fee <= Bal(l, tx.from) ==>
                var c := Touch(Sub(l, tx.from, tx.fee), tx.to);
                && tx.to in c
                && (reached.Some? <==> c[tx.to].kind == CONTRACT && tx.data != [] && CanTransfer(c, tx.from, tx.amount))
                && (reached.Some? ==>
                    var funded := Transfer(c, tx.from, tx.to, tx.amount);
                    reached.value == Reach(funded, env.evm(heights, funded, block, tx, tx.to), 0)))
  {
    hide Transfer, CreationStart, CanTransfer;
  }

  lemma {:induction false} TotalToAccount(env: Env, heights: Heights, before: Ledger, block: Block, tx: Transaction)
    requires env.Sane() && tx.to != NULL_ADDRESS
    ensures SupplyChanged(env, heights, before, block, tx)
  {
    hide Perform, MachineRun, PerformCall, PerformTransfer, CanTransfer, Total, Recorded, Sub, Touch, Transfer,
         ScriptBurn, Bal;
    PerformToAccount(env, heights, before, block, tx);
    MachineToAccount(env, heights, before, block, tx);
    var l := Recorded(before, tx.from, env.HashOf(tx));
    TotalRecorded(before, tx.from, env.HashOf(tx));
    TotalTouch(l, tx.to);
    if tx.fee <= Bal(l, tx.from) {
      var paid := Sub(l, tx.from, tx.fee);
      var c := Touch(paid, tx.to);
      TotalSub(l, tx.from, tx.fee);
      TotalTouch(paid, tx.to);
      if c[tx.to].kind != CONTRACT {
        TotalPlain(Touch(l, tx.to), c, block, tx);
      } else if tx.data != [] && CanTransfer(c, tx.from, tx.amount) {
        TotalContractCall(env, heights, Touch(l, tx.to), c, block, tx);
      } else {
        CallRefused(env, heights, Touch(l, tx.to), c, block, tx);
      }
    }
  }

  /** A call without data or without the money leaves the committed accounts alone. */
  lemma {:induction false} CallRefused(env: Env, heights: Heights, l: Ledger, c: Ledger, block: Block, tx: Transaction)
    requires env.Sane() && tx.from in c && (tx.data == [] || !CanTransfer(c, tx.from, tx.amount))
    ensures PerformCall(env, heights, l, c, block, tx).ledger == l
  {}

  lemma {:induction false} TransferNothing(l: Ledger, from: Address, to: Address)
    requires from in l && to in l
    ensures Transfer(l, from, to, 0) == l
  {
    assert l[from].(balance := l[from].balance) == l[from];
  }

  /** How the sum of all balances moves when `tx` is performed, in every case. */
  ghost predicate SupplyChanged(env: Env, heights: Heights, before: Ledger, block: Block, tx: Transaction)
    requires env.Sane()
  {
    var after := Total(Perform(env, heights, before, block, tx).ledger);
    match MachineRun(env, heights, before, block, tx)
    case None => after == Total(before)
    case Some(reach) =>
      if reach.run.status == EVMC_SUCCESS then after + Burned(reach) == Total(before)
      else after as int == Total(before) +
             if Bal(before, tx.from) < reach.run.gasLeft then 0 else tx.fee - 2 * reach.run.gasLeft
  }

  /** The exact account of the sum for every transaction, ledger, machine and outcome. */
  lemma {:induction false} SupplyChange(env: Env, heights: Heights, before: Ledger, block: Block, tx: Transaction)
    requires env.Sane()
    ensures SupplyChanged(env, heights, before, block, tx)
  {
    if tx.to == NULL_ADDRESS {
      TotalCreation(env, heights, before, block, tx);
    } else {
      TotalToAccount(env, heights, before, block, tx);
    }
  }

  /** A transaction that ends in success never makes money, and keeps it all exactly when nothing burned. */
  lemma {:induction false} SuccessMakesNoMoney(env: Env, heights: Heights, before: Ledger, block: Block,
                                               tx: Transaction)
    requires env.Sane()
    requires Perform(env, heights, before, block, tx).status.Ok?
    requires Perform(env, heights, before, block, tx).status.value.code == Success
    ensures var after := Total(Perform(env, heights, before, block, tx).ledger);
            var reached := MachineRun(env, heights, before, block, tx);
            && after <= Total(before)
            && (after == Total(before) <==> reached.None? || Burned(reached.value) == 0)
  {
    SupplyChange(env, heights, before, block, tx);
    SuccessfulRun(env, heights, before, block, tx);
  }

  lemma {:induction false} SuccessfulRun(env: Env, heights: Heights, before: Ledger, block: Block, tx: Transaction)
    requires env.Sane()
    ensures var status := Perform(env, heights, before, block, tx).status;
            var reached := MachineRun(env, heights, before, block, tx);
            status.Ok? && status.value.code == Success && reached.Some? ==> reached.value.run.status == EVMC_SUCCESS
  {
    hide Total, RunScript, Recorded, Add;
    var l := Recorded(before, tx.from, env.HashOf(tx));
    if tx.to != NULL_ADDRESS && tx.fee <= Bal(l, tx.from) {
      var c := Touch(Sub(l, tx.from, tx.fee), tx.to);
      assert tx.from in c;
      TransferNothing(c, tx.from, tx.to);
    }
  }

  /** In particular when nobody is his own beneficiary and the new contract's address was unused. */
  lemma {:induction false} CarefulRunBurnsNothing(reach: Reach)
    requires NoSelfBeneficiary(reach.run.script) && reach.overwritten == 0
    ensures Burned(reach) == 0
  {
    NothingBurned(reach.funded, reach.run.script);
  }

  /** A run that fails, and can be charged for, conserves the sum only when half the fee was left. */
  lemma {:induction false} FailureConservesIff(env: Env, heights: Heights, before: Ledger, block: Block,
                                               tx: Transaction)
    requires env.Sane()
    ensures var reached := MachineRun(env, heights, before, block, tx);
            reached.Some? && reached.value.run.status != EVMC_SUCCESS ==>
              (Total(Perform(env, heights, before, block, tx).ledger) == Total(before) <==>
               Bal(before, tx.from) < reached.value.run.gasLeft || tx.fee == 2 * reached.value.run.gasLeft)
  {
    SupplyChange(env, heights, before, block, tx);
  }

  /** A machine that always reverts and returns this much of the gas, no more than the fee. */
  function Reverting(gasLeft: Uint64): Env {
    Env(_ => NULL_HASH, _ => true, _ => NULL_HASH, (_, _, _) => NULL_ADDRESS,
        (_: Heights, _: Ledger, _: Block, tx: Transaction, _: Address) =>
          EvmRun([], EVMC_REVERT, if gasLeft <= tx.fee then gasLeft else tx.fee, []))
  }

  /** The creation of a contract, for a fee of 2. */
  function Creation(sender: Address): Transaction {
    Transaction(sender, NULL_ADDRESS, 0, 2, 0, [], [])
  }

  /** A reverted run that used all its gas makes money out of nothing; one that used none destroys as much. */
  lemma {:induction false} RevertedRunMovesSupply(sender: Address, block: Block, gasLeft: Uint64)
    requires gasLeft <= 2
    ensures Reverting(gasLeft).Sane()
    ensures var before: Ledger := map[sender := NewAccount(CLIENT).(balance := 10)];
            Total(Perform(Reverting(gasLeft), map[], before, block, Creation(sender)).ledger) as int
            == Total(before) + 2 - 2 * gasLeft
  {
    var env, tx := Reverting(gasLeft), Creation(sender);
    var before: Ledger := map[sender := NewAccount(CLIENT).(balance := 10)];
    assert env.Sane();
    SupplyChange(env, map[], before, block, tx);
    assert Bal(before, sender) == 10;
    RevertedReach(env, before, block, tx, gasLeft);
    hide Perform, Total, MachineRun;
  }

  lemma {:induction false} RevertedReach(env: Env, before: Ledger, block: Block, tx: Transaction, gasLeft: Uint64)
    requires env == Reverting(gasLeft) && env.Sane() && tx == Creation(tx.from) && gasLeft <= 2 <= Bal(before, tx.from)
    ensures var reached := MachineRun(env, map[], before, block, tx);
            reached.Some? && reached.value.run == EvmRun([], EVMC_REVERT, gasLeft, [])
  {
    var l := Recorded(before, tx.from, env.HashOf(tx));
    assert Bal(l, tx.from) == Bal(before, tx.from);
    assert Reached(env, l, tx);
    hide Recorded, Bal, Transfer;
  }

  predicate Reached(env: Env, l: Ledger, tx: Transaction)
    requires tx.from in l && tx.fee <= Bal(l, tx.from)
  {
    CanTransfer(CreationStart(env, l, tx), tx.from, tx.amount)
  }

  /** Whatever happens, one transaction adds at most its own fee to the sum. */
  lemma {:induction false} PerformBound(env: Env, heights: Heights, before: Ledger, block: Block, tx: Transaction)
    requires env.Sane()
    ensures Total(Perform(env, heights, before, block, tx).ledger) <= Total(before) + tx.fee
  {
    SupplyChange(env, heights, before, block, tx);
  }

  // ---------- blocks of plain transfers ----------

  /** A transfer to somebody who is not a contract. */
  predicate IsPlain(l: Ledger, tx: Transaction) {
    tx.to != NULL_ADDRESS && !IsContract(l, tx.to)
  }

  predicate AllPlain(l: Ledger, txs: seq<Transaction>) {
    forall i :: 0 <= i < |txs| ==> IsPlain(l, txs[i])
  }

  /** No account turns into a contract or stops being one. */
  ghost predicate SameContracts(l: Ledger, l': Ledger) {
    forall a :: IsContract(l, a) <==> IsContract(l', a)
  }

  lemma {:induction false} SameKind(l: Ledger, a: Address, b: Address, n: nat, hash: Hash, x: Address)
    ensures IsContract(Touch(l, a), x) == IsContract(Recorded(l, a, hash), x) == IsContract(l, x)
    ensures IsContract(Add(l, a, n), x) == IsContract(l, x)
    ensures n <= Bal(l, a) ==> IsContract(Sub(l, a, n), x) == IsContract(l, x)
    ensures IsContract(Transfer(l, a, b, n), x) == IsContract(l, x)
  {}

  lemma {:induction false} PlainKind(env: Env, heights: Heights, before: Ledger, block: Block, tx: Transaction,
                                     x: Address)
    requires env.Sane() && IsPlain(before, tx)
    ensures IsContract(Perform(env, heights, before, block, tx).ledger, x) == IsContract(before, x)
  {
    hide Perform, PerformCall, PerformTransfer, Recorded, Touch, Sub, Bal, IsContract;
    PerformToAccount(env, heights, before, block, tx);
    var l := Recorded(before, tx.from, env.HashOf(tx));
    SameKind(before, tx.from, tx.from, 0, env.HashOf(tx), x);
    SameKind(before, tx.from, tx.from, 0, env.HashOf(tx), tx.to);
    SameKind(l, tx.to, tx.to, 0, NULL_HASH, x);
    if tx.fee <= Bal(l, tx.from) {
      var paid := Sub(l, tx.from, tx.fee);
      var c := Touch(paid, tx.to);
      SameKind(l, tx.from, tx.from, tx.fee, NULL_HASH, x);
      SameKind(l, tx.from, tx.from, tx.fee, NULL_HASH, tx.to);
      SameKind(paid, tx.to, tx.to, 0, NULL_HASH, x);
      SameKind(paid, tx.to, tx.to, 0, NULL_HASH, tx.to);
      assert !IsContract(c, tx.to);
      assert c[tx.to].kind != CONTRACT by { KindOf(c, tx.to); }
      TransferKind(Touch(l, tx.to), c, block, tx, x);
    }
  }

  lemma {:induction false} KindOf(l: Ledger, a: Address)
    requires a in l
    ensures IsContract(l, a) <==> l[a].kind == CONTRACT
  {}

  lemma {:induction false} TransferKind(l: Ledger, c: Ledger, block: Block, tx: Transaction, x: Address)
    requires IsContract(l, x) == IsContract(c, x)
    ensures IsContract(PerformTransfer(l, c, block, tx).ledger, x) == IsContract(l, x)
  {
    SameKind(c, tx.from, tx.to, tx.amount, NULL_HASH, x);
    SameKind(Transfer(c, tx.from, tx.to, tx.amount), block.coinbase, block.coinbase, tx.fee, NULL_HASH, x);
    hide IsContract, Transfer, Add;
  }

  lemma {:induction false} PlainKeepsContracts(env: Env, heights: Heights, l: Ledger, block: Block, tx: Transaction)
    requires env.Sane() && IsPlain(l, tx)
    ensures SameContracts(l, Perform(env, heights, l, block, tx).ledger)
    ensures Total(Perform(env, heights, l, block, tx).ledger) == Total(l)
  {
    forall x ensures IsContract(Perform(env, heights, l, block, tx).ledger, x) == IsContract(l, x) {
      PlainKind(env, heights, l, block, tx, x);
    }
    PlainRunsNothing(env, heights, l, block, tx);
    SupplyChange(env, heights, l, block, tx);
    hide Perform, IsContract, MachineRun;
  }

  lemma {:induction false} PlainRunsNothing(env: Env, heights: Heights, l: Ledger, block: Block, tx: Transaction)
    requires env.Sane() && IsPlain(l, tx)
    ensures MachineRun(env, heights, l, block, tx).None?
  {}

  lemma {:induction false} PlainTransactions(env: Env, heights: Heights, l: Ledger, block: Block, txs: seq<Transaction>)
    requires env.Sane() && AllPlain(l, txs)
    ensures Total(PerformAll(env, heights, l, block, txs).ledger) == Total(l)
    ensures SameContracts(l, PerformAll(env, heights, l, block, txs).ledger)
    decreases |txs|
  {
    hide Perform, IsContract, Total;
    if txs == [] {
    } else {
      PlainKeepsContracts(env, heights, l, block, txs[0]);
      var p := Perform(env, heights, l, block, txs[0]);
      assert AllPlain(p.ledger, txs[1..]);
      if p.status.Ok? { PlainTransactions(env, heights, p.ledger, block, txs[1..]); }
    }
  }

  /**
   A block of plain transfers adds exactly the emission: whatever accounts coincide, whether or not
   each transfer succeeds, and even when one of them raises half way.
   */
  lemma {:induction false} PlainBlockAddsEmission(env: Env, heights: Heights, l: Ledger, block: Block)
    requires env.Sane() && AllPlain(l, block.txs)
    ensures Total(ApplyBlock(env, heights, l, block).ledger) == Total(l) + EMISSION_VALUE
    ensures SameContracts(l, ApplyBlock(env, heights, l, block).ledger)
  {
    TotalAdd(l, block.coinbase, EMISSION_VALUE);
    var paid := Add(l, block.coinbase, EMISSION_VALUE);
    assert SameContracts(l, paid);
    assert AllPlain(paid, block.txs);
    PlainTransactions(env, heights, paid, block, block.txs);
  }

  /** The supply of a chain of plain transfers is the genesis supply and the emissions. */
  lemma {:induction false} PlainChainSupply(env: Env, chain: seq<Block>)
    requires env.Sane() && |chain| > 0
    requires forall i :: 1 <= i < |chain| ==> AllPlain(LedgerOf(env, chain[..i]), chain[i].txs)
    ensures Total(LedgerOf(env, chain)) == Total(LedgerOf(env, chain[..1])) + EMISSION_VALUE * (|chain| - 1)
  {
    hide Total, AllPlain, SameContracts, ApplyBlock;
    if |chain| == 1 {
      assert chain[..1] == chain;
    } else {
      var front := chain[..|chain| - 1];
      assert front[..1] == chain[..1];
      forall i | 1 <= i < |front| ensures AllPlain(LedgerOf(env, front[..i]), front[i].txs) {
        assert front[..i] == chain[..i];
      }
      PlainChainSupply(env, front);
      PlainBlockAddsEmission(env, HeightsOf(chain), LedgerOf(env, front), chain[|chain| - 1]);
    }
  }

  // ---------- no checked addition overflows, over any run ----------

  const FEE_LIMIT: nat := 0x1_00000000_00000000
  const BLOCK_LIMIT: nat := EMISSION_VALUE + Chain.MAX_TRANSACTIONS_IN_BLOCK * FEE_LIMIT

  lemma {:induction false} PerformAllBound(env: Env, heights: Heights, l: Ledger, block: Block, txs: seq<Transaction>)
    requires env.Sane()
    ensures Total(PerformAll(env, heights, l, block, txs).ledger) <= Total(l) + |txs| * FEE_LIMIT
    decreases |txs|
  {
    if txs == [] {
    } else {
      PerformBound(env, heights, l, block, txs[0]);
      PerformAllBound(env, heights, Perform(env, heights, l, block, txs[0]).ledger, block, txs[1..]);
    }
  }

  lemma {:induction false} ApplyBlockBound(env: Env, heights: Heights, l: Ledger, block: Block)
    requires env.Sane() && |block.txs| <= Chain.MAX_TRANSACTIONS_IN_BLOCK
    ensures Total(ApplyBlock(env, heights, l, block).ledger) <= Total(l) + BLOCK_LIMIT
  {
    TotalAdd(l, block.coinbase, EMISSION_VALUE);
    PerformAllBound(env, heights, Add(l, block.coinbase, EMISSION_VALUE), block, block.txs);
  }

  lemma {:induction false} LedgerBound(env: Env, chain: seq<Block>)
    requires env.Sane() && Chain.WellFormed(chain)
    ensures Total(LedgerOf(env, chain)) <= Total(LedgerOf(env, chain[..1])) + (|chain| - 1) * BLOCK_LIMIT
  {
    if |chain| == 1 {
      assert chain[..1] == chain;
    } else {
      var front := chain[..|chain| - 1];
      assert front[..1] == chain[..1];
      Chain.PrefixWellFormed(chain, |chain| - 1);
      LedgerBound(env, front);
      assert Chain.Admissible(front, chain[|chain| - 1]);
      ApplyBlockBound(env, HeightsOf(chain), LedgerOf(env, front), chain[|chain| - 1]);
    }
  }

  /**
   For any chain that was ever grown from a genesis block worth 2^32, contracts and failed runs
   included, there is room below 2^256 for everything one more block can add.
   */
  lemma {:induction false} SupplyFits(env: Env, chain: seq<Block>)
    requires env.Sane() && Chain.WellFormed(chain) && Total(LedgerOf(env, chain[..1])) <= 0x1_00000000
    ensures Total(LedgerOf(env, chain)) + BLOCK_LIMIT <= MAX_UINT256
  {
    hide LedgerOf, Total, Chain.WellFormed;
    LedgerBound(env, chain);
    DepthFits(chain);
    RunFits(|chain| - 1);
  }

  lemma {:induction false} DepthFits(chain: seq<Block>)
    requires Chain.WellFormed(chain)
    ensures 0 < |chain| <= FEE_LIMIT
  {
    if |chain| > 1 {
      Chain.Shape(chain, 0, |chain| - 1);
    }
  }

  lemma {:induction false} RunFits(blocks: nat)
    requires blocks < FEE_LIMIT
    ensures 0x1_00000000 + blocks * BLOCK_LIMIT + BLOCK_LIMIT <= MAX_UINT256
  {
    assert BLOCK_LIMIT == 1844674407370955162600;
    assert (blocks + 1) * 1844674407370955162600 <= 0x1_00000000_00000000 * 1844674407370955162600;
  }
}
