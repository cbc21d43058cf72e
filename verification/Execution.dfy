/**
 Performing transactions (`Core::tryPerformTransaction`, `Core::applyBlockTransactions` and the host
 callbacks of `EthHost`, src/core/core.cpp), as functions on ledgers.
 */
module Execution {
  import opened Types
  import opened Blocks
  import opened Accounts

  /** base::config::BC_EMISSION_VALUE */
  const EMISSION_VALUE: nat := 1000

  // ---------- the virtual machine, seen from the host ----------

  /**
   What contract code asks of its host. A `Call` to a contract account runs that contract's own script
   `nested` and ends with its `status`; `Inspect` stands for the callbacks that only look at an account, and
   create it if missing.
   */
  datatype HostCall =
    | Call(sender: Address, destination: Address, value: Uint256, nested: seq<HostCall>, status: EvmStatus)
    | SetStorage(address: Address, key: Hash, value_: seq<Byte>)
    | SelfDestruct(address: Address, beneficiary: Address)
    | Inspect(address: Address)

  datatype EvmStatus = EVMC_SUCCESS | EVMC_REVERT | EVMC_OTHER

  datatype EvmRun = EvmRun(script: seq<HostCall>, status: EvmStatus, gasLeft: Uint64, output: seq<Byte>)

  /** What `findBlockHash` can tell the machine: the hash at each depth. */
  type Heights = map<nat, Hash>

  function HeightsOf(chain: seq<Block>): Heights {
    map i | 0 <= i < |chain| :: chain[i].hash
  }

  /**
   The parts of the program that are not modelled: hashes, signatures and the virtual machine,
   whose script may depend on everything the host can show it. Any functions will do.
   */
  datatype Env = Env(txHash: Transaction -> Hash,
                     checkSign: Transaction -> bool,
                     sha256: seq<Byte> -> Hash,
                     contractAddress: (Hash, Address, Uint64) -> Address,
                     evm: (Heights, Ledger, Block, Transaction, Address) -> EvmRun)
  {
    /** `hashOfTransaction` does not look at the signature. */
    function HashOf(tx: Transaction): Hash {
      txHash(tx.Unsigned())
    }

    /** The machine never returns more gas than it was given. */
    ghost predicate Sane() {
      forall heights, l, block, tx, target :: evm(heights, l, block, tx, target).gasLeft <= tx.fee
    }
  }

  function NULL_VALUE(): seq<Byte> { ZeroBytes(32) }

  /** What `EthHost::get_storage` returns: zeros for a missing account or key. */
  function Read(l: Ledger, a: Address, key: Hash): seq<Byte> {
    if a in l && key in l[a].storage then l[a].storage[key].data else NULL_VALUE()
  }

  datatype StorageStatus = STORAGE_UNCHANGED | STORAGE_MODIFIED | STORAGE_ADDED | STORAGE_DELETED

  /** `EthHost::set_storage` */
  function Stored(l: Ledger, a: Address, key: Hash, value: seq<Byte>): Ledger {
    var t := Touch(l, a);
    if key !in t[a].storage && value == NULL_VALUE() then t
    else t[a := t[a].(storage := t[a].storage[key := StorageData(value, true)])]
  }

  /** `EthHost::selfdestruct` */
  function Destructed(l: Ledger, a: Address, beneficiary: Address): Ledger {
    var t := Touch(Touch(l, a), beneficiary);
    Transfer(t, a, beneficiary, Bal(t, a)) - {a}
  }

  predicate IsContract(l: Ledger, a: Address) {
    a in l && l[a].kind == CONTRACT
  }

  function RunCall(l: Ledger, c: HostCall): Ledger
    decreases c, 1
  {
    match c
    case Call(sender, destination, value, nested, _) =>
      if IsContract(l, destination) then RunScript(l, nested) else Transfer(l, sender, destination, value)
    case SetStorage(a, key, value) => Stored(l, a, key, value)
    case SelfDestruct(a, beneficiary) => Destructed(l, a, beneficiary)
    case Inspect(a) => Touch(l, a)
  }

  function RunScript(l: Ledger, script: seq<HostCall>): Ledger
    decreases script, 0
  {
    if script == [] then l else RunScript(RunCall(l, script[0]), script[1..])
  }

  // ---------- one transaction ----------

  datatype StatusCode = Success | Pending | BadQueryForm | BadSign | NotEnoughBalance | Revert | Failed

  datatype ActionType = NoAction | TransferAction | ContractCall | ContractCreation

  datatype TransactionStatus = TransactionStatus(code: StatusCode, action: ActionType, feeLeft: Uint64)

  /** The ledger afterwards, and the recorded status, or the error that left the function. */
  datatype Performed = Performed(ledger: Ledger, status: Result<TransactionStatus>)

  function Done(l: Ledger, code: StatusCode, action: ActionType, feeLeft: Uint64): Performed {
    Performed(l, Ok(TransactionStatus(code, action, feeLeft)))
  }

  /** A successful run: the coinbase gets the gas used, the sender gets back what is left. */
  function Settled(l: Ledger, coinbase: Address, tx: Transaction, gasLeft: Uint64): Ledger
    requires gasLeft <= tx.fee
  {
    Add(Add(l, coinbase, tx.fee - gasLeft), tx.from, gasLeft)
  }

  /** A failed run: the work is dropped, the sender pays the gas *left*, the coinbase gets the gas used. */
  function Penalised(l: Ledger, coinbase: Address, tx: Transaction, run: EvmRun, action: ActionType): Performed
    requires run.gasLeft <= tx.fee
  {
    if Bal(l, tx.from) < run.gasLeft then Done(l, Failed, action, tx.fee)
    else Done(Add(Sub(l, tx.from, run.gasLeft), coinbase, tx.fee - run.gasLeft),
              if run.status == EVMC_REVERT then Revert else BadQueryForm, action, run.gasLeft)
  }

  /** The ledger an init or contract code starts from, when it gets to start. */
  function CreationStart(env: Env, l: Ledger, tx: Transaction): Ledger
    requires tx.from in l && tx.fee <= Bal(l, tx.from)
  {
    CreateContract(Sub(l, tx.from, tx.fee), NewAddress(env, l, tx), env.sha256(tx.data))
  }

  function NewAddress(env: Env, l: Ledger, tx: Transaction): Address
    requires tx.from in l
  {
    env.contractAddress(env.sha256(tx.data), tx.from, l[tx.from].nonce)
  }

  function PerformCreation(env: Env, heights: Heights, l: Ledger, block: Block, tx: Transaction): Performed
    requires env.Sane() && tx.from in l
  {
    if Bal(l, tx.from) < tx.fee then Done(l, Failed, ContractCreation, tx.fee) else
      var a := NewAddress(env, l, tx);
      var start := CreationStart(env, l, tx);
      if !CanTransfer(start, tx.from, tx.amount) then Done(l, NotEnoughBalance, ContractCreation, tx.fee) else
        var funded := Transfer(start, tx.from, a, tx.amount);
        var run := env.evm(heights, funded, block, tx, a);
        if run.status == EVMC_SUCCESS then
          var ran := Touch(RunScript(funded, run.script), a);
          var coded := ran[a := ran[a].(runtimeCode := run.output)];
          Done(Settled(coded, block.coinbase, tx, run.gasLeft), Success, ContractCreation, run.gasLeft)
        else Penalised(l, block.coinbase, tx, run, ContractCreation)
  }

  /** `l` is the committed ledger, `c` the working copy with the fee taken; both know the receiver. */
  function PerformCall(env: Env, heights: Heights, l: Ledger, c: Ledger, block: Block, tx: Transaction): Performed
    requires env.Sane()
  {
    if tx.data == [] then Done(l, BadQueryForm, ContractCall, tx.fee)
    else if tx.amount > 0 && !CanTransfer(c, tx.from, tx.amount) then Done(l, NotEnoughBalance, ContractCall, tx.fee)
    else
      var funded := if tx.amount > 0 then Transfer(c, tx.from, tx.to, tx.amount) else c;
      var run := env.evm(heights, funded, block, tx, tx.to);
      if run.status == EVMC_SUCCESS then
        Done(Settled(RunScript(funded, run.script), block.coinbase, tx, run.gasLeft),
             Success, ContractCall, run.gasLeft)
      else Penalised(l, block.coinbase, tx, run, ContractCall)
  }

  function PerformTransfer(l: Ledger, c: Ledger, block: Block, tx: Transaction): Performed {
    if !CanTransfer(c, tx.from, tx.amount) then Done(l, NotEnoughBalance, TransferAction, tx.fee)
    else Done(Add(Transfer(c, tx.from, tx.to, tx.amount), block.coinbase, tx.fee), Success, TransferAction, 0)
  }

  /**
   `tryPerformTransaction`. Outside contract creation the fee is taken before any `try` block, so a
   sender who cannot pay it makes the whole function raise.
   */
  function Perform(env: Env, heights: Heights, before: Ledger, block: Block, tx: Transaction): Performed
    requires env.Sane()
  {
    var l := Recorded(before, tx.from, env.HashOf(tx));
    if tx.to == NULL_ADDRESS then PerformCreation(env, heights, l, block, tx)
    else
      var l' := Touch(l, tx.to);
      if Bal(l, tx.from) < tx.fee then Performed(l', Raised(LogicError)) else
        var c := Touch(Sub(l, tx.from, tx.fee), tx.to);
        if c[tx.to].kind == CONTRACT then PerformCall(env, heights, l', c, block, tx)
        else PerformTransfer(l', c, block, tx)
  }

  // ---------- one block ----------

  /** The ledger afterwards, the statuses recorded, and whether some transaction raised. */
  datatype Applied = Applied(ledger: Ledger, statuses: seq<TransactionStatus>, raised: bool)

  /** The transactions in order, up to the first that raises. */
  function PerformAll(env: Env, heights: Heights, l: Ledger, block: Block, txs: seq<Transaction>): Applied
    requires env.Sane()
    decreases |txs|
  {
    if txs == [] then Applied(l, [], false) else
      var p := Perform(env, heights, l, block, txs[0]);
      if p.status.Raised? then Applied(p.ledger, [], true) else
        var rest := PerformAll(env, heights, p.ledger, block, txs[1..]);
        rest.(statuses := [p.status.value] + rest.statuses)
  }

  /** The recorded outcomes after these statuses were recorded for the first transactions, in order. */
  function Outputs(env: Env, outputs: map<Hash, TransactionStatus>, txs: seq<Transaction>,
                   statuses: seq<TransactionStatus>)
    : map<Hash, TransactionStatus>
    decreases |statuses|
  {
    if statuses == [] || txs == [] then outputs
    else Outputs(env, outputs[env.HashOf(txs[0]) := statuses[0]], txs[1..], statuses[1..])
  }

  /** `applyBlockTransactions` */
  function ApplyBlock(env: Env, heights: Heights, l: Ledger, block: Block): Applied
    requires env.Sane()
  {
    PerformAll(env, heights, Add(l, block.coinbase, EMISSION_VALUE), block, block.txs)
  }

  /** The ledger of a node that grew `chain` from its genesis block: a function of the chain alone. */
  function LedgerOf(env: Env, chain: seq<Block>): Ledger
    requires env.Sane() && |chain| > 0
  {
    if |chain| == 1 then FromGenesis(map[], chain[0].txs)
    else ApplyBlock(env, HeightsOf(chain), LedgerOf(env, chain[..|chain| - 1]), chain[|chain| - 1]).ledger
  }
}
