/** `Core` (src/core/core.cpp): the chain, the accounts and the pending transactions kept in step. */
module Core {
  import opened Types
  import opened Blocks
  import opened Accounts
  import opened Execution
  import opened Supply
  import opened Chain
  import Consensus
  import Blockchain
  import Persistent = PersistentBlockchain
  import Pool = TransactionsSet
  import opened Transfers
  import opened Executor
  import opened Raising
  import opened Reopening

  /** `Core::getGenesisBlock`, up to the address and the hash: one emission of 2^32. */
  function GenesisBlock(emission: Address, hash: Hash): Block {
    Block(0, 0, NULL_HASH, 1583789617, emission,
          [Transaction(NULL_ADDRESS, emission, 0x1_00000000, 0, 1583789617, [], [])], hash)
  }

  lemma {:induction false} GenesisSupply(emission: Address, hash: Hash)
    ensures Total(FromGenesis(map[], GenesisBlock(emission, hash).txs)) == 0x1_00000000
  {
    var txs := GenesisBlock(emission, hash).txs;
    assert txs[..0] == [] && FromGenesis(map[], []) == map[];
    TotalUpdate(map[], emission, NewAccount(CLIENT).(balance := 0x1_00000000));
  }

  /** The transactions of a chain, signatures aside. */
  ghost function ChainMembers(chain: seq<Block>): set<Transaction> {
    if chain == [] then {} else ChainMembers(chain[..|chain| - 1]) + Pool.Members(chain[|chain| - 1].txs)
  }

  lemma {:induction false} InChainMembers(chain: seq<Block>, u: Transaction)
    ensures u in ChainMembers(chain) <==> exists tx :: Blockchain.InChain(chain, tx) && tx.Unsigned() == u
  {
    if chain == [] {
    } else {
      var front, last := chain[..|chain| - 1], chain[|chain| - 1];
      InChainMembers(front, u);
      forall tx ensures Blockchain.InChain(chain, tx) <==> Blockchain.InChain(front, tx) || tx in last.txs {
        if Blockchain.InChain(front, tx) {
          var i :| 0 <= i < |front| && tx in front[i].txs;
          assert chain[i] == front[i];
        }
        if i :| 0 <= i < |chain| && tx in chain[i].txs { assert i < |front| ==> front[i] == chain[i]; }
      }
    }
  }

  /** Everything `_tryAddBlock` demands of a block, the clock included. */
  ghost predicate Accepts(env: Env, chain: seq<Block>, b: Block, now: nat)
    requires env.Sane() && |chain| > 0
  {
    && !HasHash(chain, b.hash)
    && !Pool.CostOverflows(b.txs)
    && SendersCanPay(LedgerOf(env, chain), b.txs)
    && Verdict(chain, b, now) == ADDED
  }

  /** The transaction tests every block of the chain passed on top of the blocks before it. */
  ghost predicate Checked(env: Env, chain: seq<Block>)
    requires env.Sane()
  {
    forall i :: 1 <= i < |chain| ==>
        !Pool.CostOverflows(chain[i].txs) && SendersCanPay(LedgerOf(env, chain[..i]), chain[i].txs)
  }

  lemma {:induction false} CheckedExtends(env: Env, chain: seq<Block>, b: Block)
    requires env.Sane() && |chain| > 0 && Checked(env, chain)
    requires !Pool.CostOverflows(b.txs) && SendersCanPay(LedgerOf(env, chain), b.txs)
    ensures Checked(env, chain + [b])
  {
    hide LedgerOf, SendersCanPay, Pool.CostOverflows;
    var longer := chain + [b];
    forall i | 1 <= i < |longer|
      ensures !Pool.CostOverflows(longer[i].txs) && SendersCanPay(LedgerOf(env, longer[..i]), longer[i].txs)
    {
      assert longer[..i] == if i == |chain| then chain else chain[..i];
    }
  }

  /** What applying an accepted block does to the accounts. */
  ghost function Effects(env: Env, chain: seq<Block>, b: Block): Applied
    requires env.Sane() && |chain| > 0
  {
    ApplyBlock(env, HeightsOf(chain + [b]), LedgerOf(env, chain), b)
  }

  /** Some sender's turn in the block comes without the fee, after the emission and the transactions before it. */
  ghost predicate Raises(env: Env, chain: seq<Block>, b: Block)
    requires env.Sane() && |chain| > 0
  {
    BlockRaises(env, HeightsOf(chain + [b]), LedgerOf(env, chain), b)
  }

  /** The answer of `_tryAddBlock`; raising is one, with the block already in the chain. */
  ghost function Answer(env: Env, chain: seq<Block>, b: Block, now: nat): Result<AdditionResult>
    requires env.Sane() && |chain| > 0
  {
    if HasHash(chain, b.hash) then Ok(INVALID_TRANSACTIONS)
    else if Pool.CostOverflows(b.txs) then Raised(OverflowError)
    else if !SendersCanPay(LedgerOf(env, chain), b.txs) then Ok(INVALID_TRANSACTIONS)
    else if Verdict(chain, b, now) != ADDED then Ok(Verdict(chain, b, now))
    else if Raises(env, chain, b) then Raised(LogicError)
    else Ok(ADDED)
  }

  /** An accepted block is answered ADDED or raises in the accounts; a refused one does neither. */
  lemma {:induction false} AnswerCases(env: Env, chain: seq<Block>, b: Block, now: nat)
    requires env.Sane() && |chain| > 0
    ensures var answer := Answer(env, chain, b, now);
            && (Accepts(env, chain, b, now) <==> answer == Ok(ADDED) || answer == Raised(LogicError))
            && (answer.Raised? ==> answer.error == LogicError || answer.error == OverflowError)
  {
    hide LedgerOf, HasHash, SendersCanPay, Pool.CostOverflows, Raises, Verdict;
  }

  /**
   Why a block is refused before the chain looks at it, check by check: it is known, some cost does not fit 256
   bits, or the account of some sender's first transaction is missing or does not cover that one.
   */
  lemma {:induction false} AnswerBecause(env: Env, chain: seq<Block>, b: Block, now: nat)
    requires env.Sane() && |chain| > 0
    ensures var answer, l := Answer(env, chain, b, now), LedgerOf(env, chain);
            var known := exists i :: 0 <= i < |chain| && chain[i].hash == b.hash;
            var large := exists i :: 0 <= i < |b.txs| && b.txs[i].amount + b.txs[i].fee > MAX_UINT256;
            var covered := forall i :: IsFirst(b.txs, i) ==>
                             b.txs[i].from in l && b.txs[i].amount + b.txs[i].fee <= l[b.txs[i].from].balance;
            && (answer == Ok(INVALID_TRANSACTIONS) <==> known || (!large && !covered))
            && (answer == Raised(OverflowError) <==> !known && large)
            && (!known && !large && covered && Verdict(chain, b, now) != ADDED ==> answer == Ok(Verdict(chain, b, now)))
  {
    CanPayIff(LedgerOf(env, chain), b.txs);
    RefusedBecause(chain, b, now);
    hide LedgerOf, SendersCanPay, Raises, IsFirst, Horizon;
  }

  /** A checked block of plain transfers from distinct senders never raises. */
  lemma {:induction false} PlainNeverRaises(env: Env, chain: seq<Block>, b: Block)
    requires env.Sane() && |chain| > 0 && AllPlain(LedgerOf(env, chain), b.txs)
    requires Pool.DistinctSenders(b.txs) && SendersCanPay(LedgerOf(env, chain), b.txs)
    ensures !Raises(env, chain, b)
  {
    PlainBlockNeverRaises(env, HeightsOf(chain + [b]), LedgerOf(env, chain), b);
  }

  /**
   Two transfers that spend the genesis account's 2^32 and then a fee of 1, whose block pays a third party.
   The cost test passes, because it knows the sender's first cost only.
   */
  function OverspendingBlock(emission: Address, payee: Address, parent: Hash, hash: Hash): Block {
    Block(1, 0, parent, 1583789618, payee,
          [Transaction(emission, payee, 0xFFFFFFFF, 1, 1583789618, [], []),
           Transaction(emission, payee, 0, 1, 1583789618, [], [])], hash)
  }

  /** Accepted on the genesis block, it raises, with the chain longer and the second transfer undone. */
  lemma {:induction false} AcceptedBlockRaises(env: Env, emission: Address, payee: Address, parent: Hash, hash: Hash,
                                               now: nat)
    requires env.Sane() && emission != payee && payee != NULL_ADDRESS && parent != hash
    requires 1583789618 <= Horizon(now)
    ensures var chain, b := [GenesisBlock(emission, parent)], OverspendingBlock(emission, payee, parent, hash);
            Accepts(env, chain, b, now) && Answer(env, chain, b, now) == Raised(LogicError)
  {
    var genesis, b := GenesisBlock(emission, parent), OverspendingBlock(emission, payee, parent, hash);
    var chain := [genesis];
    OverspendingCost(emission, payee, parent, hash);
    GenesisLedger(env, emission, parent);
    assert Accepts(env, chain, b, now) by { OverspendingAccepted(env, emission, payee, parent, hash, now); }
    OverspendingRaises(env, HeightsOf(chain + [b]), LedgerOf(env, chain), b, emission, payee, parent, hash);
    hide LedgerOf, Accepts, BlockRaises, Verdict, HasHash, SendersCanPay, Pool.CostOverflows;
    AnswerOfAccepted(env, chain, b, now);
  }

  lemma {:induction false} AnswerOfAccepted(env: Env, chain: seq<Block>, b: Block, now: nat)
    requires env.Sane() && |chain| > 0 && Accepts(env, chain, b, now)
    ensures Answer(env, chain, b, now) == if Raises(env, chain, b) then Raised(LogicError) else Ok(ADDED)
  {
    hide LedgerOf, HasHash, SendersCanPay, Pool.CostOverflows, Raises, Verdict;
  }

  lemma {:induction false} GenesisLedger(env: Env, emission: Address, hash: Hash)
    requires env.Sane()
    ensures LedgerOf(env, [GenesisBlock(emission, hash)])
            == map[emission := NewAccount(CLIENT).(balance := 0x1_00000000)]
  {
    var txs := GenesisBlock(emission, hash).txs;
    assert txs[..0] == [] && FromGenesis(map[], []) == map[];
  }

  lemma {:induction false} OverspendingCost(emission: Address, payee: Address, parent: Hash, hash: Hash)
    ensures Pool.CostOf(OverspendingBlock(emission, payee, parent, hash).txs) == map[emission := 0x1_00000000]
  {
    var txs := OverspendingBlock(emission, payee, parent, hash).txs;
    assert txs[..1] == [txs[0]] && [txs[0]][..0] == [];
    assert Pool.CostOf([txs[0]]) == map[emission := 0x1_00000000];
  }

  lemma {:induction false} OverspendingAccepted(env: Env, emission: Address, payee: Address, parent: Hash, hash: Hash,
                                                now: nat)
    requires env.Sane() && parent != hash && 1583789618 <= Horizon(now)
    ensures Accepts(env, [GenesisBlock(emission, parent)], OverspendingBlock(emission, payee, parent, hash), now)
  {
    var chain, b := [GenesisBlock(emission, parent)], OverspendingBlock(emission, payee, parent, hash);
    OverspendingCost(emission, payee, parent, hash);
    GenesisLedger(env, emission, parent);
    assert SendersCanPay(LedgerOf(env, chain), b.txs);
    Consensus.HashFits(hash);
    hide LedgerOf, SendersCanPay, Pool.CostOf, Horizon;
  }

  /** After the first transfer the sender has nothing left. */
  lemma {:induction false} OverspendingRaises(env: Env, heights: Heights, l: Ledger, b: Block,
                                              emission: Address, payee: Address, parent: Hash, hash: Hash)
    requires env.Sane() && emission != payee && payee != NULL_ADDRESS
    requires b == OverspendingBlock(emission, payee, parent, hash)
    requires l == map[emission := NewAccount(CLIENT).(balance := 0x1_00000000)]
    ensures BlockRaises(env, heights, l, b)
  {
    var paid := Add(l, payee, EMISSION_VALUE);
    var first := Perform(env, heights, paid, b, b.txs[0]);
    PlainTransfer(env, heights, paid, b, b.txs[0], emission);
    hide Perform, Add;
    assert b.txs[..1][0] == b.txs[0] && b.txs[..1][1..] == [];
    assert PerformAll(env, heights, first.ledger, b, []) == Applied(first.ledger, [], false);
    assert PerformAll(env, heights, paid, b, b.txs[..1]).ledger == first.ledger;
    assert StuckAt(env, heights, paid, b, b.txs, 1);
  }

  lemma {:induction false} LedgerExtends(env: Env, chain: seq<Block>, b: Block)
    requires env.Sane() && |chain| > 0
    ensures LedgerOf(env, chain + [b]) == Effects(env, chain, b).ledger
    ensures ChainMembers(chain + [b]) == ChainMembers(chain) + Pool.Members(b.txs)
    ensures (chain + [b])[..1] == chain[..1]
  {
    assert (chain + [b])[..|chain|] == chain;
  }

  lemma {:induction false} HeightsRead(chain: seq<Block>, blocks: map<Hash, Block>, byDepth: map<nat, Hash>,
                                       top: Hash, genesis: Hash)
    requires Blockchain.Views(chain, blocks, byDepth, top, genesis)
    ensures byDepth == HeightsOf(chain)
  {}

  lemma {:induction false} StartsEmpty(env: Env, genesisBlock: Block)
    requires env.Sane()
    ensures LedgerOf(env, [genesisBlock]) == FromGenesis(map[], genesisBlock.txs) && Checked(env, [genesisBlock])
    ensures Pool.Members([]) == {} && !Pool.CostOverflows([])
  {}

  /** The replay of the blocks of `chain`, with all of it visible to the machine. */
  ghost function ReplayOf(env: Env, chain: seq<Block>): Replay
    requires env.Sane() && |chain| > 0
  {
    Replayed(env, HeightsOf(chain), chain)
  }

  /** A block mined by `miner` with a transfer of nothing by the genesis account. */
  function IdleBlock(emission: Address, miner: Address, parent: Hash, hash: Hash): Block {
    Block(1, 0, parent, 1583789618, miner, [Transaction(emission, emission, 0, 0, 1583789618, [], [])], hash)
  }

  /** A block in which the miner spends 1 of his emission as a fee. */
  function FeeBlock(emission: Address, miner: Address, parent: Hash, hash: Hash): Block {
    Block(2, 0, parent, 1583789619, miner, [Transaction(miner, emission, 0, 1, 1583789619, [], [])], hash)
  }

  /** Replayed, the idle block leaves its miner with nothing. */
  lemma {:induction false} IdleReplayed(env: Env, heights: Heights, emission: Address, miner: Address, h0: Hash,
                                        h1: Hash)
    requires env.Sane() && emission != miner && emission != NULL_ADDRESS
    ensures var chain := [GenesisBlock(emission, h0), IdleBlock(emission, miner, h0, h1)];
            && ReplayPaid(env, heights, chain)
            && !Replayed(env, heights, chain).raised && Bal(Replayed(env, heights, chain).ledger, miner) == 0
  {
    var g, b := GenesisBlock(emission, h0), IdleBlock(emission, miner, h0, h1);
    var chain, tx := [g, b], b.txs[0];
    GenesisLedger(env, emission, h0);
    var l := LedgerOf(env, [g]);
    ReplayStart(env, heights, chain);
    assert chain[..1] == [g] && chain[..2] == chain && b.txs[1..] == [];
    hide Perform, FromGenesis, Replayed, Outputs;
    PlainTransfer(env, heights, l, b, tx, miner);
    ReplayStep(env, heights, chain, 1);
    assert PaidInTurn(env, heights, Perform(env, heights, l, b, tx).ledger, b, []);
    assert PaidInTurn(env, heights, l, b, b.txs);
    var next := Perform(env, heights, l, b, tx).ledger;
    assert PerformAll(env, heights, next, b, []) == Applied(next, [], false);
    assert PerformAll(env, heights, l, b, b.txs).ledger == next;
  }

  /** Mined on the running node, it leaves him the emission. */
  lemma {:induction false} IdleMined(env: Env, emission: Address, miner: Address, h0: Hash, h1: Hash)
    requires env.Sane() && emission != miner && emission != NULL_ADDRESS
    ensures var g, b := GenesisBlock(emission, h0), IdleBlock(emission, miner, h0, h1);
            Bal(LedgerOf(env, [g, b]), miner) == EMISSION_VALUE && NoContracts(LedgerOf(env, [g, b]))
  {
    var g, b := GenesisBlock(emission, h0), IdleBlock(emission, miner, h0, h1);
    var chain := [g, b];
    assert chain[..1] == [g] && Mined([g], miner) == 0 && Mined(chain, miner) == 1;
    hide LedgerOf, Replayed, ReplayPaid, Total, FromGenesis, IsContract;
    IdleReplayed(env, map[], emission, miner, h0, h1);
    EmissionsLost(env, map[], chain);
    LedgerPlain(env, chain);
  }

  lemma {:induction false} OneCost(tx: Transaction)
    ensures Pool.CostOf([tx]) == map[tx.from := tx.amount + tx.fee]
  {
    assert [tx][..0] == [];
  }

  lemma {:induction false} AcceptedInTurn(env: Env, chain: seq<Block>, b: Block, tx: Transaction, now: nat)
    requires env.Sane() && 0 < |chain| < 4 && Verdict(chain, b, now) == ADDED && b.txs == [tx]
    requires tx.from in LedgerOf(env, chain) && tx.amount + tx.fee <= Bal(LedgerOf(env, chain), tx.from)
    requires IsPlain(LedgerOf(env, chain), tx) && tx.amount + tx.fee <= MAX_UINT256
    ensures Answer(env, chain, b, now) == Ok(ADDED)
  {
    OneCost(tx);
    hide LedgerOf, HasHash, IsPlain, Pool.CostOf;
    assert SendersCanPay(LedgerOf(env, chain), b.txs) && !Pool.CostOverflows(b.txs);
    PlainNeverRaises(env, chain, b);
    hide Verdict, Raises;
  }

  /**
   Two blocks accepted on the genesis block, the second paying a fee out of the emission for the first: the node
   runs on, but does not start again, because without the emission the fee cannot be paid.
   */
  lemma {:induction false} RestartRaises(env: Env, emission: Address, miner: Address, h0: Hash, h1: Hash, h2: Hash,
                                         now: nat)
    requires env.Sane() && emission != miner && emission != NULL_ADDRESS && h0 != h1 && h0 != h2 && h1 != h2
    requires 1583789619 <= Horizon(now)
    ensures var g, b, c := GenesisBlock(emission, h0), IdleBlock(emission, miner, h0, h1),
                           FeeBlock(emission, miner, h1, h2);
            && Answer(env, [g], b, now) == Ok(ADDED) && Answer(env, [g, b], c, now) == Ok(ADDED)
            && ReplayOf(env, [g, b, c]).raised
  {
    var g, b, c := GenesisBlock(emission, h0), IdleBlock(emission, miner, h0, h1), FeeBlock(emission, miner, h1, h2);
    IdleVerdicts(emission, miner, h0, h1, h2, now);
    GenesisLedger(env, emission, h0);
    IdleMined(env, emission, miner, h0, h1);
    AcceptedInTurn(env, [g], b, b.txs[0], now);
    AcceptedInTurn(env, [g, b], c, c.txs[0], now);
    var chain := [g, b, c];
    IdleReplayed(env, HeightsOf(chain), emission, miner, h0, h1);
    assert chain[..2] == [g, b];
    StuckFirst(env, HeightsOf(chain), Replayed(env, HeightsOf(chain), [g, b]).ledger, c, c.txs);
    assert StuckIn(env, HeightsOf(chain), chain, 2);
    ReplayRaisesIff(env, HeightsOf(chain), chain);
  }

  lemma {:induction false} IdleVerdicts(emission: Address, miner: Address, h0: Hash, h1: Hash, h2: Hash, now: nat)
    requires h0 != h1 && h0 != h2 && h1 != h2 && 1583789619 <= Horizon(now)
    ensures var g, b, c := GenesisBlock(emission, h0), IdleBlock(emission, miner, h0, h1),
                           FeeBlock(emission, miner, h1, h2);
            Verdict([g], b, now) == ADDED && Verdict([g, b], c, now) == ADDED
  {
    Consensus.HashFits(h1);
    Consensus.HashFits(h2);
    hide Horizon;
  }

  lemma {:induction false} TopDepth(chain: seq<Block>)
    requires WellFormed(chain) && chain[0].depth == 0
    ensures Last(chain).depth == |chain| - 1
  {
    if |chain| > 1 {
      Shape(chain, 0, |chain| - 1);
    }
  }

  lemma {:induction false} HashKnown(chain: seq<Block>, i: nat)
    requires i < |chain|
    ensures HasHash(chain, chain[i].hash)
  {}

  lemma {:induction false} SameHash(chain: seq<Block>, b: Block, i: nat)
    requires WellFormed(chain) && b in chain && i < |chain| && b.hash == chain[i].hash
    ensures b == chain[i]
  {
    hide WellFormed;
    var j :| 0 <= j < |chain| && chain[j] == b;
    if j < i {
      Shape(chain, j, i);
    } else if i < j {
      Shape(chain, i, j);
    }
  }

  /** Before block `d` is replayed there is room below 2^256 for all its fees. */
  lemma {:induction false} RoomToReplay(env: Env, heights: Heights, chain: seq<Block>, d: nat)
    requires env.Sane() && WellFormed(chain) && 1 <= d < |chain|
    requires Total(FromGenesis(map[], chain[0].txs)) <= 0x1_00000000
    ensures |chain[d].txs| <= MAX_TRANSACTIONS_IN_BLOCK
    ensures Total(Replayed(env, heights, chain[..d]).ledger) + MAX_TRANSACTIONS_IN_BLOCK * FEE_LIMIT <= MAX_UINT256
  {
    assert Admissible(chain[..d], chain[d]);
    hide Total, WellFormed, Replayed, FromGenesis, Admissible;
    PrefixWellFormed(chain, d);
    ReplayBound(env, heights, chain[..d]);
    DepthFits(chain);
    RunFits(d - 1);
  }

  class Core {
    const executor: Executor
    const blockchain: Persistent.PersistentBlockchain
    const pendingTransactions: Pool.TransactionsSet

    ghost function Repr(): set<object> {
      {this, executor, executor.stateManager, blockchain, blockchain.base, blockchain.base.consensus,
       pendingTransactions}
    }

    ghost function Chain(): seq<Block>
      reads blockchain.base
    {
      blockchain.base.chain
    }

    /**
     The accounts are a function of the chain; the pool has no duplicates and shares nothing with the
     chain; every cost in the pool fits 256 bits.
     */
    ghost predicate Valid()
      reads Repr()
      ensures Valid() ==> |Chain()| > 0 && executor.env.Sane()
    {
      && executor.env.Sane()
      && blockchain.Valid() && executor.stateManager.Valid() && pendingTransactions.Valid()
      && executor.stateManager.states == LedgerOf(executor.env, Chain()) && Checked(executor.env, Chain())
      && Total(LedgerOf(executor.env, Chain()[..1])) <= 0x1_00000000
      && Pool.Members(pendingTransactions.txs) !! ChainMembers(Chain())
      && !Pool.CostOverflows(pendingTransactions.txs)
    }

    /** The node before `Start`; `stored` is what an earlier one left in the database, `clean` wipes it. */
    constructor (env: Env, genesisBlock: Block, stored: Persistent.Store, clean: bool)
      requires env.Sane() && Total(FromGenesis(map[], genesisBlock.txs)) <= 0x1_00000000
      ensures Valid() && Chain() == [genesisBlock] && executor.env == env && fresh(Repr())
      ensures executor.txOutputs == map[] && pendingTransactions.txs == []
      ensures blockchain.base.genesisBlockHash == genesisBlock.hash
      ensures blockchain.database == if clean then map[] else stored
      ensures clean ==> blockchain.Synced() && Persistent.Clean(blockchain.database, Chain())
    {
      hide Total, WellFormed, Blockchain.Views, Persistent.Holds, Persistent.Clean, LedgerOf, FromGenesis, Checked,
           ChainMembers, Pool.Members, Pool.CostOverflows;
      StartsEmpty(env, genesisBlock);
      executor := new Executor(env);
      blockchain := new Persistent.PersistentBlockchain(genesisBlock, stored, clean);
      pendingTransactions := new Pool.TransactionsSet();
      new;
      executor.stateManager.UpdateFromGenesis(genesisBlock);
      assert Chain()[..1] == Chain();
    }

    /**
     The rest of the program's constructor: loads the chain and performs the transactions of its blocks, without
     the emissions. It raises where the load does, and where a sender's turn comes without the fee.
     */
    method Start(clock: nat -> nat, ghost path: seq<Hash>) returns (r: Result<()>)
      requires Valid() && |Chain()| == 1 && Chain()[0].depth == 0 && executor.txOutputs == map[]
      requires if Persistent.LAST_BLOCK_HASH_KEY in blockchain.database
               then Persistent.Walk(blockchain.database, path, blockchain.base.genesisBlockHash) else path == []
      modifies Repr()
      ensures blockchain.Valid() && |Chain()| > 0 && unchanged(pendingTransactions)
      ensures Persistent.Broken(old(blockchain.database), path, old(blockchain.base.genesisBlockHash)) ==>
                && r.Raised? && Chain() == old(Chain()) && blockchain.database == old(blockchain.database)
                && unchanged(executor, executor.stateManager)
      ensures !Persistent.Broken(old(blockchain.database), path, old(blockchain.base.genesisBlockHash)) ==>
                var loaded := Persistent.LoadedFrom(old(Chain()), old(blockchain.database), Persistent.Oldest(path),
                                                    clock, 0);
                && Chain() == loaded.chain && blockchain.database == loaded.store
                && (loaded.raised ==> r.Raised? && unchanged(executor, executor.stateManager))
                && (!loaded.raised ==> AfterReplay() && (r.Raised? <==> ReplayOf(executor.env, Chain()).raised))
    {
      hide Total, WellFormed, Blockchain.Views, LedgerOf, Checked, ChainMembers, Pool.Members, Pool.CostOverflows,
           Persistent.Walk, Persistent.Broken, Persistent.LoadedFrom, Persistent.Oldest, AfterReplay, ReplayOf,
           FromGenesis;
      ghost var genesis := Chain();
      assert genesis[..1] == genesis == [genesis[0]];
      StartsEmpty(executor.env, genesis[0]);
      Persistent.LoadedKeepsFirst(genesis, blockchain.database, Persistent.Oldest(path), clock, 0);
      r := blockchain.Load(clock, path);
      if r.Raised? {
        return;
      }
      r := ReplayBlocks();
    }

    /** The accounts and recorded outcomes are those of the replay. */
    ghost predicate AfterReplay()
      reads Repr()
    {
      && executor.env.Sane() && |Chain()| > 0
      && executor.stateManager.states == ReplayOf(executor.env, Chain()).ledger
      && executor.txOutputs == ReplayOf(executor.env, Chain()).outputs
    }

    /** The loop over the loaded blocks. */
    method ReplayBlocks() returns (r: Result<()>)
      requires executor.env.Sane() && blockchain.Valid() && executor.stateManager.Valid() && |Chain()| > 0
      requires Chain()[0].depth == 0 && Total(executor.stateManager.states) <= 0x1_00000000
      requires executor.stateManager.states == FromGenesis(map[], Chain()[0].txs) && executor.txOutputs == map[]
      modifies executor, executor.stateManager
      ensures executor.stateManager.Valid() && AfterReplay()
      ensures r.Raised? <==> ReplayOf(executor.env, Chain()).raised
    {
      hide Total, WellFormed, Blockchain.Views, FromGenesis, HeightsOf, HasHash, PerformAll, Outputs, Replayed;
      ghost var chain, heights := Chain(), HeightsOf(Chain());
      HeightsRead(chain, blockchain.base.blocks, blockchain.base.blocksByDepth, blockchain.base.topLevelBlockHash,
                  blockchain.base.genesisBlockHash);
      var depth := blockchain.base.GetTopBlock().depth;
      TopDepth(chain);
      ReplayStart(executor.env, heights, chain);
      var d := 1;
      while d <= depth
        invariant 1 <= d <= |chain| && executor.stateManager.Valid()
        invariant Replayed(executor.env, heights, chain[..d])
                  == Replay(executor.stateManager.states, executor.txOutputs, false)
      {
        var hash := blockchain.base.FindBlockHashByDepth(d);
        HashKnown(chain, d);
        var found := blockchain.base.FindBlock(hash.value);
        SameHash(chain, found.value, d);
        RoomToReplay(executor.env, heights, chain, d);
        ReplayStep(executor.env, heights, chain, d);
        r := executor.PerformTransactions(found.value, blockchain.base.blocksByDepth);
        if r.Raised? {
          ReplayStops(executor.env, heights, chain, d + 1);
          return;
        }
        d := d + 1;
      }
      assert chain[..d] == chain;
      return Ok(());
    }

    function FindBlock(hash: Hash): (r: Option<Block>)
      requires Valid()
      reads Repr()
      ensures r.Some? <==> HasHash(Chain(), hash)
      ensures r.Some? ==> r.value in Chain() && r.value.hash == hash
    {
      blockchain.base.FindBlock(hash)
    }

    function FindBlockHash(depth: Uint64): (r: Option<Hash>)
      requires Valid()
      reads Repr()
      ensures r == if depth < |Chain()| then Some(Chain()[depth].hash) else None
    {
      blockchain.base.FindBlockHashByDepth(depth)
    }

    function GetTopBlockHash(): (hash: Hash)
      requires Valid()
      reads Repr()
      ensures hash == Last(Chain()).hash && HasHash(Chain(), hash)
    {
      blockchain.base.topLevelBlockHash
    }

    /** The three tests of `checkBlockTransactions`; the cost map may raise. */
    method CheckBlockTransactions(block: Block) returns (r: Result<bool>)
      requires Valid()
      ensures r.Raised? <==> !HasHash(Chain(), block.hash) && Pool.CostOverflows(block.txs)
      ensures r.Raised? ==> r.error == OverflowError
      ensures r.Ok? ==> (r.value <==> !HasHash(Chain(), block.hash)
                                      && SendersCanPay(LedgerOf(executor.env, Chain()), block.txs))
    {
      hide Total, LedgerOf, WellFormed, HasHash, Blockchain.Views, Checked, Pool.CostOf, Pool.CostOverflows;
      var found := blockchain.base.FindBlock(block.hash);
      if found.Some? {
        return Ok(false);
      }
      var cost :- Pool.CalcCost(block.txs);
      var states := executor.stateManager.states;
      for k := 0 to |block.txs|
        invariant forall i :: 0 <= i < k ==>
          block.txs[i].from in states && block.txs[i].from in cost
              && cost[block.txs[i].from] <= states[block.txs[i].from].balance
      {
        var from := block.txs[k].from;
        if from !in states {
          return Ok(false);
        }
        Pool.CostOfSenders(block.txs, from);
        assert block.txs[k] in block.txs && from in cost;
        if cost[from] > states[from].balance {
          return Ok(false);
        }
      }
      return Ok(true);
    }

    /**
     The chain grows by the block exactly when it is accepted, and then the accounts, the pool and the
     store follow; in every other case nothing changes at all.
     */
    method TryAddBlock(block: Block, now: nat) returns (r: Result<AdditionResult>)
      requires Valid()
      modifies Repr()
      ensures Valid()
      ensures r == Answer(executor.env, old(Chain()), block, now)
      ensures Chain() ==
                if Accepts(executor.env, old(Chain()), block, now) then old(Chain()) + [block] else old(Chain())
      ensures Accepts(executor.env, old(Chain()), block, now) ==>
                executor.txOutputs == Outputs(executor.env, old(executor.txOutputs), block.txs,
                                              Effects(executor.env, old(Chain()), block).statuses)
      ensures Accepts(executor.env, old(Chain()), block, now) ==>
                Pool.Members(pendingTransactions.txs)
                    == Pool.Members(old(pendingTransactions.txs)) - Pool.Members(block.txs)
      ensures !Accepts(executor.env, old(Chain()), block, now) ==>
                unchanged(executor, executor.stateManager, blockchain, blockchain.base, blockchain.base.consensus,
                          pendingTransactions)
      ensures blockchain.database == if Accepts(executor.env, old(Chain()), block, now)
                                     then Persistent.Pushed(old(blockchain.database), block)
                                     else old(blockchain.database)
      ensures old(blockchain.Synced()) ==>
                (blockchain.Synced() <==> !Accepts(executor.env, old(Chain()), block, now)
                                          || Persistent.BlockKey(block.hash) !in old(blockchain.database))
      ensures old(Persistent.Clean(blockchain.database, Chain())) ==> Persistent.Clean(blockchain.database, Chain())
    {
      hide Total, LedgerOf, WellFormed, HasHash, Blockchain.Views, Pool.CostOverflows, Verdict, SendersCanPay,
           ApplyBlock, BlockRaises, ChainMembers, Pool.Members, HeightsOf, Checked, Outputs, Persistent.Holds,
           Persistent.Clean, Persistent.Pushed, Persistent.BlockKey;
      var passed :- CheckBlockTransactions(block);
      if !passed {
        return Ok(INVALID_TRANSACTIONS);
      }
      ghost var chain := Chain();
      SupplyFits(executor.env, chain);
      var added := blockchain.TryAddBlock(block, now);
      if added != ADDED {
        return Ok(added);
      }
      LedgerExtends(executor.env, chain, block);
      AddedBlock(chain, block, now);
      CheckedExtends(executor.env, chain, block);
      ghost var pool := pendingTransactions.txs;
      pendingTransactions.Remove(block.txs);
      Pool.CostsShrink(pool, pendingTransactions.txs);
      HeightsRead(Chain(), blockchain.base.blocks, blockchain.base.blocksByDepth,
                  blockchain.base.topLevelBlockHash, blockchain.base.genesisBlockHash);
      var applied := executor.ApplyBlockTransactions(block, blockchain.base.blocksByDepth);
      BlockRaisesIff(executor.env, HeightsOf(chain + [block]), LedgerOf(executor.env, chain), block);
      if applied.Raised? {
        return Raised(LogicError);
      }
      return Ok(ADDED);
    }

    /**
     Atomically `addPendingTransaction`: the answer, the recorded outcome and the pool. A transaction enters
     the pool exactly when it is signed, new to chain and pool, covered by its sender's balance, and passes the
     comparison with the sender's first pending cost, which the program makes the other way round: it refuses
     what the balance exceeds.
     */
    method AddPendingTransaction(tx: Transaction) returns (r: Result<TransactionStatus>)
      requires Valid()
      modifies executor, pendingTransactions
      ensures Valid()
      ensures r == PendingAnswer(executor.env, Chain(), old(pendingTransactions.txs), old(executor.txOutputs), tx)
      ensures executor.txOutputs ==
                if r.Ok? && !(executor.env.checkSign(tx) && KnownToChain(executor.env, Chain(), tx))
                then old(executor.txOutputs)[executor.env.HashOf(tx) := r.value]
                else old(executor.txOutputs)
      ensures pendingTransactions.txs ==
                if EntersPool(executor.env, Chain(), old(pendingTransactions.txs), tx)
                then old(pendingTransactions.txs) + [tx]
                else old(pendingTransactions.txs)
    {
      hide Total, LedgerOf, WellFormed, HasHash, Blockchain.Views, ChainMembers, Checked, Pool.CostOf;
      var env := executor.env;
      var hash := env.HashOf(tx);
      if tx.amount + tx.fee > MAX_UINT256 {
        return Raised(OverflowError);
      }
      var cost := tx.amount + tx.fee;
      if !env.checkSign(tx) {
        executor.AddTransactionOutput(hash, BadSign, NoAction, tx.fee);
        return Ok(TransactionStatus(BadSign, NoAction, tx.fee));
      }
      var known := blockchain.base.FindTransaction(t => env.HashOf(t), hash);
      if known.Some? {
        var output :=
          if hash in executor.txOutputs then executor.txOutputs[hash] else TransactionStatus(Failed, NoAction, 0);
        return Ok(output);
      }
      NewToChain(env, Chain(), tx);
      var pending := pendingTransactions.Find(tx);
      if pending {
        executor.AddTransactionOutput(hash, Pending, NoAction, tx.fee);
        return Ok(TransactionStatus(Pending, NoAction, tx.fee));
      }
      var priced := Pool.CalcCost(pendingTransactions.txs);
      var costs := priced.value;
      var states := executor.stateManager.states;
      if tx.from in costs && tx.from in states {
        if costs[tx.from] + cost > MAX_UINT256 {
          return Raised(OverflowError);
        }
        if costs[tx.from] + cost < states[tx.from].balance {
          executor.AddTransactionOutput(hash, NotEnoughBalance, NoAction, 0);
          return Ok(TransactionStatus(NotEnoughBalance, NoAction, 0));
        }
      }
      if tx.from !in states || states[tx.from].balance < cost {
        executor.AddTransactionOutput(hash, NotEnoughBalance, NoAction, 0);
        return Ok(TransactionStatus(NotEnoughBalance, NoAction, 0));
      }
      ghost var pool := pendingTransactions.txs;
      pendingTransactions.Add(tx);
      executor.AddTransactionOutput(hash, Pending, NoAction, tx.fee);
      return Ok(TransactionStatus(Pending, NoAction, tx.fee));
    }
  }

  /** Some transaction of the chain has the hash of `tx`. */
  ghost predicate KnownToChain(env: Env, chain: seq<Block>, tx: Transaction) {
    exists t :: Blockchain.InChain(chain, t) && env.HashOf(t) == env.HashOf(tx)
  }

  /**
   The process restarts over the database of a node. The chain comes back as far as the clock accepts it, but the
   accounts are those of the replay: on a chain of transfers they are the node's own exactly if there is nothing but
   the genesis block.
   */
  method Restart(node: Core, genesisBlock: Block, clock: nat -> nat) returns (again: Core, r: Result<()>)
    requires node.Valid() && node.blockchain.Synced() && node.Chain()[0] == genesisBlock && genesisBlock.depth == 0
    ensures fresh(again.Repr()) && again.executor.env == node.executor.env
    ensures again.blockchain.Valid() && again.blockchain.database == node.blockchain.database
    ensures again.Chain() == node.Chain()[..Persistent.Reloaded(node.Chain(), clock)]
    ensures again.AfterReplay() && (r.Raised? <==> ReplayOf(again.executor.env, again.Chain()).raised)
    ensures again.Chain() == node.Chain() && OnlyTransfers(node.Chain()) ==>
              (again.executor.stateManager.states == node.executor.stateManager.states <==> |node.Chain()| == 1)
  {
    ghost var chain, env := node.Chain(), node.executor.env;
    assert chain[..1] == [genesisBlock];
    StartsEmpty(env, genesisBlock);
    hide Blockchain.Views, WellFormed, Persistent.Reloaded, Persistent.Holds, Total, LedgerOf, FromGenesis, Checked,
         ChainMembers, Pool.Members, Pool.CostOverflows, Replayed, OnlyTransfers, HeightsOf;
    again, r := Reopen(node.executor.env, genesisBlock, node.blockchain.database, clock, chain);
    if again.Chain() == chain && OnlyTransfers(chain) {
      ReplayRestoresIff(env, HeightsOf(chain), chain);
    }
  }

  /** A new node over a store that holds `chain`, and its start. */
  method Reopen(env: Env, genesisBlock: Block, store: Persistent.Store, clock: nat -> nat, ghost chain: seq<Block>)
    returns (again: Core, r: Result<()>)
    requires env.Sane() && Total(FromGenesis(map[], genesisBlock.txs)) <= 0x1_00000000
    requires Persistent.Holds(store, chain) && WellFormed(chain) && chain[0] == genesisBlock && genesisBlock.depth == 0
    ensures fresh(again.Repr()) && again.executor.env == env
    ensures again.blockchain.Valid() && again.blockchain.database == store
    ensures again.Chain() == chain[..Persistent.Reloaded(chain, clock)]
    ensures again.AfterReplay() && (r.Raised? <==> ReplayOf(env, again.Chain()).raised)
  {
    assert |chain| > 0;
    hide Blockchain.Views, WellFormed, Persistent.Reloaded, Persistent.Holds, Persistent.Broken, Persistent.PathOf,
         Persistent.Walk, Persistent.LoadedFrom, Persistent.Oldest, Total, FromGenesis, ReplayOf, Core.Valid,
         Core.AfterReplay;
    Persistent.HeldLoads(store, chain, clock, genesisBlock);
    again := new Core(env, genesisBlock, store, false);
    r := again.Start(clock, Persistent.PathOf(chain));
  }

  /** The answer of `addPendingTransaction`, in the order of its checks; the two checked additions may raise. */
  ghost function PendingAnswer(env: Env, chain: seq<Block>, pool: seq<Transaction>, outputs: map<Hash,
                               TransactionStatus>,
                               tx: Transaction): Result<TransactionStatus>
    requires env.Sane() && |chain| > 0
  {
    var l, costs, cost := LedgerOf(env, chain), Pool.CostOf(pool), tx.amount + tx.fee;
    var committed := tx.from in costs && tx.from in l;
    if cost > MAX_UINT256 then Raised(OverflowError)
    else if !env.checkSign(tx) then Ok(TransactionStatus(BadSign, NoAction, tx.fee))
    else if KnownToChain(env, chain, tx) then
      Ok(if env.HashOf(tx) in outputs then outputs[env.HashOf(tx)] else TransactionStatus(Failed, NoAction, 0))
    else if tx.Unsigned() in Pool.Members(pool) then Ok(TransactionStatus(Pending, NoAction, tx.fee))
    else if committed && costs[tx.from] + cost > MAX_UINT256 then Raised(OverflowError)
    else if committed && costs[tx.from] + cost < l[tx.from].balance then
      Ok(TransactionStatus(NotEnoughBalance, NoAction, 0))
    else if tx.from !in l || l[tx.from].balance < cost then Ok(TransactionStatus(NotEnoughBalance, NoAction, 0))
    else Ok(TransactionStatus(Pending, NoAction, tx.fee))
  }

  /** What enters the pool is what is answered Pending and was not there; whatever else is new is refused. */
  lemma {:induction false} EntersIffPending(env: Env, chain: seq<Block>, pool: seq<Transaction>,
                                            outputs: map<Hash, TransactionStatus>, tx: Transaction)
    requires env.Sane() && |chain| > 0 && !KnownToChain(env, chain, tx) && tx.Unsigned() !in Pool.Members(pool)
    ensures EntersPool(env, chain, pool, tx) <==>
            PendingAnswer(env, chain, pool, outputs, tx) == Ok(TransactionStatus(Pending, NoAction, tx.fee))
    ensures var answer, cost := PendingAnswer(env, chain, pool, outputs, tx), tx.amount + tx.fee;
            && (cost <= MAX_UINT256 && !env.checkSign(tx) ==>
                answer == Ok(TransactionStatus(BadSign, NoAction, tx.fee)))
            && (answer.Ok? && env.checkSign(tx) && !EntersPool(env, chain, pool, tx) ==>
                answer == Ok(TransactionStatus(NotEnoughBalance, NoAction, 0)))
            && (answer.Raised? <==>
                || cost > MAX_UINT256
                || (env.checkSign(tx) && tx.from in LedgerOf(env, chain)
                    && exists i :: IsFirst(pool, i) && pool[i].from == tx.from
                                   && pool[i].amount + pool[i].fee + cost > MAX_UINT256))
  {
    if tx.from in Pool.CostOf(pool) {
      var i := FirstCost(pool, tx.from);
      assert IsFirst(pool, i);
    }
    forall i | IsFirst(pool, i) ensures pool[i].from in Pool.CostOf(pool)
                                        && Pool.CostOf(pool)[pool[i].from] == pool[i].amount + pool[i].fee
    {
      Pool.CostOfFirst(pool, i);
    }
    hide LedgerOf, Pool.CostOf, Pool.Members, IsFirst, KnownToChain;
  }

  /** A transaction with the hash of one in the chain gets what is recorded for it, one in the pool is Pending. */
  lemma {:induction false} AlreadyThere(env: Env, chain: seq<Block>, pool: seq<Transaction>,
                                        outputs: map<Hash, TransactionStatus>, tx: Transaction)
    requires env.Sane() && |chain| > 0 && env.checkSign(tx) && tx.amount + tx.fee <= MAX_UINT256
    ensures var answer, hash := PendingAnswer(env, chain, pool, outputs, tx), env.HashOf(tx);
            && ((exists i, t :: 0 <= i < |chain| && t in chain[i].txs && env.HashOf(t) == hash) ==>
                answer == Ok(if hash in outputs then outputs[hash] else TransactionStatus(Failed, NoAction, 0)))
            && (tx in pool && !(exists i, t :: 0 <= i < |chain| && t in chain[i].txs && env.HashOf(t) == hash) ==>
                answer == Ok(TransactionStatus(Pending, NoAction, tx.fee)))
            && (KnownToChain(env, chain, tx) || tx in pool ==> !EntersPool(env, chain, pool, tx))
  {
    hide LedgerOf, Pool.CostOf;
    if tx in pool { assert tx.Unsigned() in Pool.Members(pool); }
    if i, t :| 0 <= i < |chain| && t in chain[i].txs && env.HashOf(t) == env.HashOf(tx) {
      assert Blockchain.InChain(chain, t);
    }
    if KnownToChain(env, chain, tx) {
      var t :| Blockchain.InChain(chain, t) && env.HashOf(t) == env.HashOf(tx);
      var i :| 0 <= i < |chain| && t in chain[i].txs;
    }
  }

  lemma {:induction false} FirstCost(pool: seq<Transaction>, a: Address) returns (i: nat)
    requires a in Pool.CostOf(pool)
    ensures IsFirst(pool, i) && pool[i].from == a && Pool.CostOf(pool)[a] == pool[i].amount + pool[i].fee
  {
    Pool.CostOfSenders(pool, a);
    var tx :| tx in pool && tx.from == a;
    var k :| 0 <= k < |pool| && pool[k] == tx;
    i := FirstOf(pool, k);
    Pool.CostOfFirst(pool, i);
  }

  /** When a transaction enters the pool. */
  ghost predicate EntersPool(env: Env, chain: seq<Block>, pool: seq<Transaction>, tx: Transaction)
    requires env.Sane() && |chain| > 0
  {
    var l, costs, cost := LedgerOf(env, chain), Pool.CostOf(pool), tx.amount + tx.fee;
    && env.checkSign(tx) && !KnownToChain(env, chain, tx) && tx.Unsigned() !in Pool.Members(pool)
    && tx.from in l && cost <= MAX_UINT256 && cost <= l[tx.from].balance
    && (tx.from in costs ==> l[tx.from].balance <= costs[tx.from] + cost <= MAX_UINT256)
  }

  /**
   Whether the decision is right: taken exactly when the sender can pay everything he has pending and this. For
   a sender with nothing pending it is. For others, with the balance b, this cost c, the first pending cost p
   and all he owes, it is right exactly when the balance does not cover c alone, or the check overflows, or
   p + c < b < owed + c, or p + c == b == owed + c.
   */
  lemma {:induction false} DecisionRightIff(env: Env, chain: seq<Block>, pool: seq<Transaction>, tx: Transaction)
    requires env.Sane() && |chain| > 0 && env.checkSign(tx)
    requires !KnownToChain(env, chain, tx) && tx.Unsigned() !in Pool.Members(pool)
    requires tx.from in LedgerOf(env, chain) && LedgerOf(env, chain)[tx.from].balance <= MAX_UINT256
    ensures var b, c, owed := LedgerOf(env, chain)[tx.from].balance, tx.amount + tx.fee, Pool.Owed(pool, tx.from);
            (EntersPool(env, chain, pool, tx) <==> owed + c <= b) <==>
            (tx.from in Pool.CostOf(pool) ==>
               var p := Pool.CostOf(pool)[tx.from];
               c > b || p + c > MAX_UINT256 || p + c < b < owed + c || p + c == b == owed + c)
  {
    Pool.CostIsOwed(pool, tx.from);
    hide LedgerOf, Pool.CostOf, Pool.Owed, Pool.Members, KnownToChain;
  }

  /** A transfer of the genesis account. */
  function Spending(emission: Address, payee: Address, amount: Uint256): Transaction {
    Transaction(emission, payee, amount, 0, 1583789618, [], [])
  }

  /** With a transfer of 1 pending, a second of 2 is refused, although the account holds 2^32. */
  lemma {:induction false} FundedIsRefused(env: Env, emission: Address, payee: Address, hash: Hash)
    requires env.Sane() && !KnownToChain(env, [GenesisBlock(emission, hash)], Spending(emission, payee, 2))
    requires env.checkSign(Spending(emission, payee, 2))
    ensures PendingAnswer(env, [GenesisBlock(emission, hash)], [Spending(emission, payee, 1)], map[],
            Spending(emission, payee, 2))
            == Ok(TransactionStatus(NotEnoughBalance, NoAction, 0))
  {
    PendingOne(env, emission, payee, hash, 1, 2);
    hide LedgerOf, Pool.CostOf, KnownToChain;
  }

  /** With 2^32 - 1 pending, a second transfer of 2 is taken, although the account cannot pay both. */
  lemma {:induction false} OvercommittedIsTaken(env: Env, emission: Address, payee: Address, hash: Hash)
    requires env.Sane() && !KnownToChain(env, [GenesisBlock(emission, hash)], Spending(emission, payee, 2))
    requires env.checkSign(Spending(emission, payee, 2))
    ensures EntersPool(env, [GenesisBlock(emission, hash)], [Spending(emission, payee, 0xFFFFFFFF)],
            Spending(emission, payee, 2))
  {
    PendingOne(env, emission, payee, hash, 0xFFFFFFFF, 2);
    hide LedgerOf, Pool.CostOf, KnownToChain;
  }

  /**
   With 1 and 2^32 - 1 pending, a third transfer, of 2^32 - 1, is taken: the program compares with the first
   pending cost only, and that with this one makes up exactly the balance.
   */
  lemma {:induction false} ThirdIsTaken(env: Env, emission: Address, payee: Address, hash: Hash, third: Transaction)
    requires env.Sane() && third == Spending(emission, payee, 0xFFFFFFFF).(timestamp := 1583789619)
    requires env.checkSign(third) && !KnownToChain(env, [GenesisBlock(emission, hash)], third)
    ensures var pool := [Spending(emission, payee, 1), Spending(emission, payee, 0xFFFFFFFF)];
            && EntersPool(env, [GenesisBlock(emission, hash)], pool, third)
            && Pool.Owed(pool, emission) == 0x1_00000000
            && LedgerOf(env, [GenesisBlock(emission, hash)])[emission].balance == 0x1_00000000
  {
    var first := Spending(emission, payee, 1);
    var pool := [first, Spending(emission, payee, 0xFFFFFFFF)];
    GenesisLedger(env, emission, hash);
    assert pool[..1] == [first];
    OneCost(first);
    assert Pool.CostOf(pool) == map[emission := 1];
    hide Pool.CostOf;
    assert [first][..0] == [] && Pool.Owed([first][..0], emission) == 0;
    assert Pool.Owed(pool[..1], emission) == 1;
    assert Pool.Owed(pool, emission) == Pool.Owed(pool[..1], emission) + 0xFFFFFFFF;
    hide Pool.Owed;
    hide LedgerOf, KnownToChain;
  }

  lemma {:induction false} PendingOne(env: Env, emission: Address, payee: Address, hash: Hash, first: Uint256,
                                      second: Uint256)
    requires env.Sane() && first != second
    ensures LedgerOf(env, [GenesisBlock(emission, hash)])
            == map[emission := NewAccount(CLIENT).(balance := 0x1_00000000)]
    ensures Pool.CostOf([Spending(emission, payee, first)]) == map[emission := first as nat]
    ensures Spending(emission, payee, second).Unsigned() !in Pool.Members([Spending(emission, payee, first)])
  {
    GenesisLedger(env, emission, hash);
    assert [Spending(emission, payee, first)][..0] == [];
  }

  /** No transaction of the chain has this hash, so none of them is this transaction. */
  lemma {:induction false} NewToChain(env: Env, chain: seq<Block>, tx: Transaction)
    requires !KnownToChain(env, chain, tx)
    ensures tx.Unsigned() !in ChainMembers(chain)
  {
    InChainMembers(chain, tx.Unsigned());
  }

  lemma {:induction false} AddedBlock(chain: seq<Block>, b: Block, now: nat)
    requires |chain| > 0 && Verdict(chain, b, now) == ADDED
    ensures |b.txs| <= MAX_TRANSACTIONS_IN_BLOCK
  {}

  /** A node none of whose objects changed is as valid as before. */
  twostate lemma StaysValid(core: Core)
    requires old(core.Valid())
    requires unchanged(core, core.executor, core.executor.stateManager, core.blockchain, core.blockchain.base,
                       core.blockchain.base.consensus, core.pendingTransactions)
    ensures core.Valid() && core.Chain() == old(core.Chain())
  {
    hide Total, LedgerOf, WellFormed, Checked, ChainMembers, Blockchain.Views, Pool.CostOverflows, Pool.Members;
  }
}
