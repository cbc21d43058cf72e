# Likelib in Dafny

Likelib is a proof-of-work blockchain node. This project models the parts of it whose correctness is hard
to see from the code, and proves what they are for:

- **The chain** (`Consensus`, `Chain`, `Blockchain`, `PersistentBlockchain`): three views of one chain, a
  difficulty threshold that is a function of the chain alone, and a key-value store from which a restart
  brings the chain back.
- **The ledger** (`Accounts`, `Execution`, `Supply`, `Outcomes`, `Transfers`, `Payments`, `Raising`,
  `EthHost`, `Executor`, `TransactionsSet`, `Reopening`, `Core`): what performing transactions does to the
  accounts, whatever contract code asks of its host, and the node that keeps chain, accounts and pending
  transactions in step.
- **Synchronisation** (`Synchronizer`): two nodes, the GET_BLOCK / BLOCK exchange between them, and
  NEW_BLOCK messages arriving in between.
- **Byte-level algorithms** (`Positional`, `Base58`, `Fips202`, `KeccakPermutation`, `Keccak`): base 58 in
  place, and Keccak-256 in place against the bit-by-bit definitions of FIPS 202, sections 3.2 to 5.1.
- **Two more state machines** (`Miner`, `MinerRuns`; `XorMetric`, `Kademlia`): every interleaving of job
  orders and mining threads, and the bucket table of peers.

Classes of the program whose methods change their fields are Dafny classes, and its loops are loops over the
same buffers. Each method is proved against a function of the old state, and the laws are lemmas about those
functions. `Executor` holds the methods of `Core` that perform transactions; it is a class of its own so that
`Core` can state what the accounts are. Ghost fields (`chain`, `addedAt`, `fed`, `log`) record history that
the program does not keep.

Hashes, signatures, contract addresses and the virtual machine are arbitrary functions (`Execution.Env`), so
nothing rests on collision freedom: a block carries its hash, as `ImmutableBlock` does. A machine run is a
finite tree of host callbacks with a status and some gas left, chosen from everything the host can show it.
Clock readings, memory alignment, random seeds and the order of threads are parameters. Sections under a lock
are single steps.

`dafny verify dfyconfig.toml` checks the whole project.

## Where the code differs from what is written about it

The model follows the code in each case.

- `src/core/core.cpp:57` says the genesis block emits 2^32 plus the block emission; only 2^32 is credited
  (`Core.GenesisSupply`).
- `addPendingTransaction` (`src/core/core.cpp:111-118`) refuses a transaction when a pending cost of the sender
  with it stays *below* the balance, and that pending cost is his first one only, because `calcCost`
  (`src/core/transactions_set.cpp:138-146`) keeps the first. `Core.FundedIsRefused` and
  `Core.OvercommittedIsTaken` are inputs for the one, `Core.ThirdIsTaken` for the other: there the first pending
  cost and the new one make up exactly the balance. `Core.DecisionRightIff` says exactly when a transaction is
  taken if and only if its sender can pay all he has pending and it.
- A failed contract run charges the sender the gas that is *left* and pays the coinbase the gas used
  (`Payments.FailedRunPays`; `Supply.RevertedRunMovesSupply` is an input, `Supply.FailureConservesIff` says exactly
  when that balances).
- Init code that destroys the account it deploys still ends in Success, with its code in a client account
  (`Payments.CodeDeployed`).
- Outside contract creation a fee the sender cannot pay raises out of `tryAddBlock` after the block was added,
  and the cost test does not prevent it, because it knows each sender's first cost only:
  `Core.AcceptedBlockRaises` is such a block on the genesis block, `Raising.RaisesIffStuck` says exactly when.
- After a stop between the puts for a block the retry of that block is answered ADDED but writes nothing, and
  a restart then comes back without the block (`PersistentBlockchain.StopRetry`). Once another block was added
  on top, the store is whole again if two puts had been made; if one had, the next load fails
  (`PersistentBlockchain.StopRetryExtend`).
- A node that starts on a database performs the transactions of the blocks it loads, but not their emissions
  (`src/core/core.cpp:22-28`): on a chain of transfers its accounts are those it had before exactly if there is
  nothing but the genesis block (`Reopening.ReplayRestoresIff`), and each account lacks exactly the emissions it
  mined (`Reopening.EmissionsLost`). Where a fee was paid out of an emission it may not start at all
  (`Core.RestartRaises` is a chain, `Reopening.ReplayRaisesIff` says exactly when).
- The clock plus one day is a 32-bit sum and wraps (`PersistentBlockchain.HorizonWraps`); so does the silence
  of a peer, which makes one seen after the clock reading count as silent (`Kademlia.SilentIff`).
- The state of a peer stays `REQUESTED_BLOCKS` after the exchange is over (`Synchronizer.Synchronise`).
- `Keccak256::compute` passes its size as 16 bits: from 65536 bytes on it hashes a prefix
  (`Keccak.WholeInputHashedIff`, `Keccak.LongInputsCollide`).
- A worker that finds its block just after a new job came in delivers the old block and drops the new job
  (`MinerRuns.StaleGrant`).

## Model

| member | source | states |
|---|---|---|
| `Positional.ToDigits` | src/base/bytes.cpp:268-300 | the minimal digits of a number exist: digits of the base, no leading zero, and the number as value |
| `Positional.MinimalDigitsUnique` | src/base/bytes.cpp:268-300 | minimal digits of the same value are the same digits |
| `Positional.LexLessIsNumeric` | src/base/bytes.tpp:193-211 | lexicographic comparison of equally long byte strings is numeric comparison of what they write |
| `Base58.Decode` | src/base/bytes.cpp:268-300 | returns one zero byte per leading '1' and the minimal base-256 form of the rest, and raises exactly on a character outside the alphabet |
| `Base58.DecodeDigits` | src/base/bytes.cpp:276-296 | the loop over the characters: the buffer ends up holding the numeral read, or an invalid character raises |
| `Base58.Accumulate` | src/base/bytes.cpp:284-292 | the inner loop multiplies the number in the buffer by the factor and adds the digit, in place, with no carry left over |
| `Base58.DecodeBufferSuffices` | src/base/bytes.cpp:276-276 | n * 733 / 1000 + 1 bytes hold any base-58 numeral of n digits, for every n |
| `Base58.EncodeBufferSuffices` | src/base/bytes.tpp:302-302 | n * 138 / 100 + 1 cells hold any base-256 numeral of n bytes in base 58, for every n |
| `Base58.Encode` | src/base/bytes.tpp:293-329 | returns one '1' per leading zero byte and the minimal base-58 spelling of the rest |
| `Base58.EncodeDigits` | src/base/bytes.tpp:303-314 | the digit loop leaves the base-58 form of the bytes in the buffer |
| `Base58.SkipZeros` | src/base/bytes.tpp:315-318 | finds the first nonzero cell |
| `Base58.Spell` | src/base/bytes.tpp:320-328 | appends the letters of the digits |
| `Base58.DecodeEncode` | src/base/bytes.cpp:268-300 | decoding an encoded byte string gives it back, for every byte string |
| `Base58.EncodeDecode` | src/base/bytes.cpp:268-300 | encoding a decoded string gives it back, for every string that decodes |
| `Base58.DecodeInjective` | src/base/bytes.cpp:268-300 | different strings decode to different bytes |
| `Base58.DecodesIffInAlphabet` | src/base/bytes.cpp:280-283 | a string decodes exactly when all its characters are in the alphabet |
| `Base58.LettersAreMapped` | src/base/bytes.cpp:247-265 | the decoding table gives a character a digit exactly when the character is that digit's letter |
| `Base58.AlphabetInOrder` | src/base/bytes.cpp:247-265 | a character is in the alphabet exactly if it is a digit but 0 or a letter but I, O and l, and digits follow the order of the characters |
| `Base58.AlphabetSpelled` | src/base/bytes.tpp:290-290 | digit by digit the letters are the program's string |
| `Fips202.Pad` | src/base/hash.cpp:686-692 | pad10*1: a one, the fewest zeros, a one, up to a multiple of the rate |
| `KeccakPermutation.Rotl64` | src/base/hash.cpp:476-476 | the two shifts of the macro are a cyclic shift of the lane |
| `KeccakPermutation.KeccakTheta` | src/base/hash.cpp:551-571 | the three loops in place are theta of FIPS 202, section 3.2.1, on every state |
| `KeccakPermutation.ThetaLane` | src/base/hash.cpp:562-570 | the lane changed by the word D of its column is theta's lane, bit by bit |
| `KeccakPermutation.ThetaSpreads` | src/base/hash.cpp:551-571 | a bit flipped before theta flips exactly itself, the column to its right and the column to its left one bit higher, on every state |
| `KeccakPermutation.RhoVisits` | src/base/hash.cpp:496-498 | the walk of section 3.2.2 meets lanes 1 to 24 once each, and the table holds its offsets modulo 64 |
| `KeccakPermutation.KeccakRho` | src/base/hash.cpp:605-607 | rotating lane by lane in order is rho |
| `KeccakPermutation.PiCycle` | src/base/hash.cpp:493-494 | the table is one cycle through lanes 1 to 24 in which pi takes each lane from the next |
| `Fips202.PiMoves` | src/base/hash.cpp:573-580 | pi moves lane (x, y) to (y, 2x + 3y mod 5) |
| `KeccakPermutation.KeccakPi` | src/base/hash.cpp:573-580 | rotating that cycle through one temporary is pi, on every state |
| `KeccakPermutation.KeccakChi` | src/base/hash.cpp:588-598 | the row loop with two saved lanes is chi |
| `Fips202.ChiChanges` | src/base/hash.cpp:588-598 | chi changes exactly the bits whose next in the row is clear and whose next but one is set |
| `KeccakPermutation.RcIsTable` | src/base/hash.cpp:489-491 | bit j of a table entry is the output rc(j + 7 round) of the shift register of section 3.2.5 |
| `KeccakPermutation.RoundConstantBit` | src/base/hash.cpp:509-537 | the round constant of section 3.2.5 has exactly the bits the table entry switches on |
| `KeccakPermutation.GetRoundConstant` | src/base/hash.cpp:509-537 | unpacks the table entry to the round constant of FIPS 202 |
| `KeccakPermutation.Sha3Permutation` | src/base/hash.cpp:600-614 | the 24 rounds in place are Keccak-f[1600] |
| `Keccak.ProcessBlock` | src/base/hash.cpp:623-631 | xors the block into the first 17 lanes and permutes: one step of the sponge |
| `Keccak.AbsorbSplit` | src/base/hash.cpp:661-674 | absorbing two runs of blocks is absorbing their concatenation |
| `Keccak.Context.constructor` | src/base/hash.cpp:550-550 | an initialised context holds the empty message |
| `Keccak.Context.Update` | src/base/hash.cpp:644-679 | after any chunk, at any address, the context holds everything fed before followed by the chunk |
| `Keccak.Context.ProcessBlocks` | src/base/hash.cpp:661-674 | the loop absorbs the whole blocks of the rest of the chunk, read in place or through the buffer |
| `Keccak.ChunkingIsInvisible` | src/base/hash.cpp:644-679 | the message alone decides lanes, `rest` and the live part of the buffer, however it was split |
| `Keccak.LastBlockIsPadded` | src/base/hash.cpp:690-692 | zeroing and the two marks make the tail followed by pad10*1, also when one byte takes both marks |
| `Keccak.Finished` | src/base/hash.cpp:686-699 | the digest of a message is read off after one more block, the padded tail |
| `Keccak.Context.Final` | src/base/hash.cpp:686-699 | returns the digest of everything fed |
| `Keccak.DigestIsKeccak512` | src/base/hash.cpp:686-699 | the digest's bits are the first 256 of KECCAK[512] of the message's bits |
| `Keccak.Compute` | src/base/hash.cpp:766-774 | the one byte string whose bits are the FIPS 202 digest, for every input shorter than 65536 bytes, and otherwise the digest of the first size mod 65536 bytes |
| `Keccak.WholeInputHashedIff` | src/base/hash.cpp:644-644 | all of the input is hashed exactly when it is shorter than 65536 bytes |
| `Keccak.LongInputsCollide` | src/base/hash.cpp:766-774 | from that length on two different inputs of one length share a digest |
| `Consensus.CalcComparer` | src/core/consensus.cpp:8-16 | the array is the 32-byte big-endian form of the threshold, for every 256-bit value |
| `Consensus.Consensus.CheckBlock` | src/core/consensus.cpp:58-61 | accepts exactly when the hash as a number is at most the threshold |
| `Consensus.Nearest` | src/core/consensus.cpp:94-97 | rounding to the nearest integer keeps the order with integers and is off by at most a half |
| `Consensus.DoubleBounds` | src/core/consensus.cpp:94-97 | a quotient and its double lie within half a unit and on the same side of 1/2, 1, 3/2 and 2 |
| `Consensus.TwoThirds` | src/core/consensus.cpp:94-97 | the double of 80/120 is below two thirds, so the boundary of 80 seconds is met exactly |
| `Consensus.ShortInterval` | src/core/consensus.cpp:94-101 | below the target time the clamped, rounded divisor, in double arithmetic, is 2 up to 80 seconds and 1 after |
| `Consensus.LongInterval` | src/core/consensus.cpp:102-109 | from the target time on the clamped, rounded factor, in double arithmetic, is 1 before 180 seconds and 2 after |
| `Consensus.NextDensed` | src/core/consensus.cpp:80-109 | the new threshold is half up to 80 seconds, the same before 180, and double from then on where that fits; the checked arithmetic raises exactly for a zero threshold and a long interval |
| `Consensus.RetargetRounds` | src/core/consensus.cpp:94-108 | in integers: below the target time the threshold is divided, from it on multiplied where that fits, by the interval's ratio to the target, rounded and kept between 1 and 2 |
| `Consensus.RetargetMonotone` | src/core/consensus.cpp:94-108 | a longer interval never gives a lower threshold, and from 180 seconds on a higher one than up to 80 |
| `Consensus.Consensus.ApplyBlock` | src/core/consensus.cpp:64-110 | the bounded queue after a block, when the threshold moves, to what in integers, and when it raises |
| `Chain.AddedIffAdmissible` | src/core/blockchain.cpp:75-123 | the checks in their order add up to one predicate on chain and block, and the clock |
| `Chain.RefusedBecause` | src/core/blockchain.cpp:75-123 | which check each refusal names, exactly, and a day as the clock's tolerance |
| `Chain.Shape` | src/core/blockchain.cpp:75-123 | in every grown chain depth is position, blocks are hash-linked, hashes differ, timestamps strictly increase |
| `Chain.ZeroThresholdExhausted` | src/core/consensus.cpp:94-101 | a threshold of zero means the one hash that meets it is already in the chain |
| `Chain.AdmissibleThresholdPositive` | src/core/consensus.cpp:102-108 | so no block is ever applied at threshold zero and the checked division never divides by it |
| `Chain.ThresholdBound` | src/core/consensus.cpp:80-109 | after k retargets the threshold is at least floor((2^256 - 1) / 2^k) |
| `Chain.ThresholdRule` | src/core/consensus.cpp:64-110 | on every grown chain the threshold starts at the maximum and moves exactly with the blocks at odd depths from 3 on, by the interval since the block before, to the value stated in integers |
| `Blockchain.Blockchain.constructor` | src/core/blockchain.cpp:47-72 | the genesis block alone, in all views |
| `Blockchain.Blockchain.TryAddBlock` | src/core/blockchain.cpp:75-123 | chain, block and clock decide the answer; an added block extends the chain in all views, any other answer changes nothing; nothing is raised |
| `Blockchain.ViewsExtended` | src/core/blockchain.cpp:57-123 | adding an admissible block to the two maps and the top hash keeps them views of one chain |
| `Blockchain.ConsensusFollows` | src/core/consensus.cpp:64-110 | for an admissible block queue and threshold become the recursive functions of the longer chain, with a positive interval |
| `Blockchain.Blockchain.FindBlock` | src/core/blockchain.cpp:126-135 | finds a block exactly when the chain has one with the hash |
| `Blockchain.Blockchain.FindBlockHashByDepth` | src/core/blockchain.cpp:138-147 | the hash of the block at that position, if there is one |
| `Blockchain.Blockchain.GetTopBlock` | src/core/blockchain.cpp:179-192 | the last block of the chain |
| `Blockchain.Blockchain.FindTransaction` | src/core/blockchain.cpp:150-161 | finds a transaction with the hash exactly when some block of the chain holds one |
| `PersistentBlockchain.KeysApart` | src/core/blockchain.cpp:12-39 | the tagged keys of the three kinds of record never coincide |
| `PersistentBlockchain.PersistentBlockchain.PushForwardToPersistentStorage` | src/core/blockchain.cpp:246-259 | three puts, or none when the block record is there |
| `PersistentBlockchain.PersistentBlockchain.TryAddBlock` | src/core/blockchain.cpp:233-243 | an added block reaches chain and store alike; memory and store in agreement stay so exactly unless a block is added that already has a record, which never happens on a store with records of the chain's blocks only |
| `PersistentBlockchain.PushedHoldsIff` | src/core/blockchain.cpp:246-259 | a store that holds a chain holds it with the new block after the push exactly when it had no record of the block before |
| `PersistentBlockchain.CleanKept` | src/core/blockchain.cpp:246-259 | a store with records of the chain's blocks only has none of a new block, and stays such a store |
| `PersistentBlockchain.StopKeepsChain` | src/core/blockchain.cpp:255-257 | stopped before the third put, the store still holds the chain without the block |
| `PersistentBlockchain.StopRetry` | src/core/blockchain.cpp:246-259 | for a block without a record, stopped after k puts and retried, the store holds the chain with the block exactly for k = 0 and 3, and without it exactly for k = 1 and 2 |
| `PersistentBlockchain.StopRetryExtend` | src/core/blockchain.cpp:246-259 | stopped after k puts, retried and extended by another block, the store holds the whole chain exactly when k is not 1, and has a missing back-link exactly when k is 1 |
| `PersistentBlockchain.HoldsWalk` | src/core/blockchain.cpp:286-306 | the walk back from the recorded last block reads the chain's hashes down to the genesis block |
| `PersistentBlockchain.WalkEndsIff` | src/core/blockchain.cpp:286-306 | on any store the walk ends, at the genesis hash or a missing back-link, exactly when it never comes back to a hash |
| `PersistentBlockchain.PersistentBlockchain.GetLastBlockHashAtPersistentStorage` | src/core/blockchain.cpp:262-271 | the recorded last hash, if any |
| `PersistentBlockchain.PersistentBlockchain.CreateAllBlockHashesList` | src/core/blockchain.cpp:286-306 | on any store on which the walk ends it returns the hashes oldest first, and raises exactly when a back-link is missing |
| `PersistentBlockchain.OutOfOrder` | src/core/blockchain.cpp:222-230 | a block of the chain replayed on a prefix is added exactly when it is the next one and the clock accepts it |
| `PersistentBlockchain.PersistentBlockchain.LoadOne` | src/core/blockchain.cpp:224-229 | one turn of the loop over any store: raises exactly for a missing block record, else adds the block exactly if the chain and clock admit it |
| `PersistentBlockchain.PersistentBlockchain.Load` | src/core/blockchain.cpp:222-230 | the walk and then the loop, over any store: chain, store and raise are those of the replay of the recorded blocks |
| `PersistentBlockchain.PersistentBlockchain.LoadAll` | src/core/blockchain.cpp:224-229 | the loop is the replay of the recorded blocks, up to a missing record |
| `PersistentBlockchain.PersistentBlockchain.FindBlockAtPersistentStorage` | src/core/blockchain.cpp:274-283 | the recorded block, if any |
| `PersistentBlockchain.LoadedHolds` | src/core/blockchain.cpp:222-230 | from a store that holds a chain the replay gives its longest prefix in time, raises nothing and leaves the store unchanged |
| `PersistentBlockchain.Reloaded` | src/core/blockchain.cpp:222-230 | how long that prefix is: every block in it is in time, the one after it is not |
| `PersistentBlockchain.ReloadedAll` | src/core/blockchain.cpp:222-230 | everything comes back exactly when the clock accepts every timestamp |
| `PersistentBlockchain.HorizonMonotone` | src/core/blockchain.cpp:105-108 | a later clock accepts whatever an earlier one did, unless the 32-bit sum wraps |
| `PersistentBlockchain.HorizonWraps` | src/core/blockchain.cpp:105-108 | a clock reading at which every block with a timestamp is refused |
| `PersistentBlockchain.LaterClock` | src/core/blockchain.cpp:222-230 | a chain added under earlier clocks reloads whole under later ones that are a day from wrapping |
| `PersistentBlockchain.Restart` | src/core/blockchain.cpp:207-230 | a fresh node over a store in agreement with a node, other records or not, has the same blocks for every such clock, and the store unchanged |
| `Accounts.StateManager.GetAccount` | src/core/managers.cpp:202-213 | returns the account and creates an empty client account if there is none |
| `Accounts.StateManager.AddTransactionHash` | src/core/managers.cpp:29-33 | the hash goes to the end of the list and the 64-bit nonce grows by one, and nothing else changes |
| `Accounts.StateManager.AddBalance` | src/core/managers.cpp:48-51 | adds to a balance, or raises exactly when the sum exceeds 256 bits; it does not while the sum of all balances fits |
| `Accounts.StateManager.SubBalance` | src/core/managers.cpp:54-60 | subtracts, or raises and changes no balance |
| `Accounts.StateManager.TryTransferMoney` | src/core/managers.cpp:246-263 | moves money exactly when the sender exists and has it, sender and receiver possibly the same |
| `Accounts.StateManager.CreateContractAccount` | src/core/managers.cpp:152-166 | the address becomes a fresh contract account, whatever was there |
| `Accounts.StateManager.DeleteAccount` | src/core/managers.cpp:176-186 | removes the account |
| `Accounts.StateManager.CreateCopy` | src/core/managers.cpp:216-224 | a separate manager with the same accounts |
| `Accounts.StateManager.ApplyChanges` | src/core/managers.cpp:227-231 | takes over the accounts of the copy |
| `Accounts.StateManager.UpdateFromGenesis` | src/core/managers.cpp:266-274 | the receivers of the genesis transactions |
| `Accounts.GenesisReceivers` | src/core/managers.cpp:266-274 | the genesis accounts are the receivers' and no others |
| `Accounts.GenesisAccount` | src/core/managers.cpp:266-274 | each is a client account with the amount of the first transfer to it |
| `Accounts.TotalTransfer` | src/core/managers.cpp:246-263 | a transfer keeps the sum of all balances |
| `Accounts.TransferBound` | src/core/managers.cpp:246-263 | the receiver's new balance is within the old sum, so the checked addition fits |
| `Accounts.TransferBalances` | src/core/managers.cpp:246-263 | every balance after a transfer, under all aliasing |
| `Supply.TotalScript` | src/core/core.cpp:642-802 | any script of host callbacks, nested calls included, loses exactly what it burns |
| `Supply.NothingBurned` | src/core/core.cpp:762-779 | a script in which nobody is his own beneficiary burns nothing |
| `Supply.SupplyChange` | src/core/core.cpp:345-526 | the exact change of the sum of all balances for every transaction, ledger, machine and outcome |
| `Supply.SuccessMakesNoMoney` | src/core/core.cpp:345-526 | a success never increases the sum, and conserves it exactly when nothing was burned or overwritten |
| `Supply.CarefulRunBurnsNothing` | src/core/core.cpp:353-388 | so it conserves it when nobody is his own beneficiary and the new address was unused |
| `Supply.FailureConservesIff` | src/core/core.cpp:389-409 | a failed run conserves the sum exactly when it cannot be charged or half the fee was left |
| `Supply.RevertedRunMovesSupply` | src/core/core.cpp:389-399 | a reverted creation with a fee of 2 changes the sum by 2 less twice the gas left |
| `Supply.PerformBound` | src/core/core.cpp:345-526 | no transaction adds more than its own fee to the sum |
| `Supply.PlainKeepsContracts` | src/core/core.cpp:420-522 | a transfer to a client account conserves the sum and makes or unmakes no contract |
| `Supply.PlainBlockAddsEmission` | src/core/core.cpp:334-342 | a block of such transfers adds exactly the emission, whatever coincides, succeeds or raises |
| `Supply.PlainChainSupply` | src/core/core.cpp:334-342 | the supply of a chain of such blocks is the genesis supply and the emissions |
| `Supply.LedgerBound` | src/core/core.cpp:334-342 | on every chain the sum grows by at most the emission and a hundred fees a block |
| `Supply.SupplyFits` | src/core/core.cpp:334-342 | on every chain grown from a genesis worth 2^32 no 256-bit addition of the next block can overflow |
| `TransactionsSet.TransactionsSet.Find` | src/core/transactions_set.cpp:18-21 | membership, signatures aside |
| `TransactionsSet.TransactionsSet.Add` | src/core/transactions_set.cpp:10-15 | adds unless an equal one is there; the vector stays a set |
| `TransactionsSet.TransactionsSet.RemoveOne` | src/core/transactions_set.cpp:38-52 | swap with last takes out exactly the equal transaction |
| `TransactionsSet.TransactionsSet.Remove` | src/core/transactions_set.cpp:91-96 | set difference, for any order and repetition in the argument |
| `TransactionsSet.RemovedMembers` | src/core/transactions_set.cpp:38-52 | what swap with last leaves: no duplicates, the members but one |
| `TransactionsSet.CalcCost` | src/core/transactions_set.cpp:138-146 | the first cost of each sender, or a raise exactly when some cost exceeds 256 bits |
| `TransactionsSet.CostOfSenders` | src/core/transactions_set.cpp:138-146 | the cost map knows exactly the senders |
| `TransactionsSet.CostOfFirst` | src/core/transactions_set.cpp:138-146 | the recorded cost of a sender is that of his first transaction, whatever follows |
| `TransactionsSet.CostOfDistinct` | src/core/transactions_set.cpp:138-146 | with one transaction per sender its cost is the recorded one |
| `Outcomes.FailureLeavesOnlyBookkeeping` | src/core/core.cpp:345-526 | a transaction that ends in NotEnoughBalance or Failed, or raises, changes nothing but the sender's list and nonce and possible empty accounts |
| `Outcomes.NoncesOfChain` | src/core/managers.cpp:29-33 | on every chain, contracts included, each nonce is the length of the account's transaction list modulo 2^64 |
| `Transfers.PlainTransfer` | src/core/core.cpp:498-514 | a funded transfer succeeds and changes every balance by exactly its effect |
| `Transfers.CanPayIff` | src/core/core.cpp:248-269 | the balance test asks exactly that the account of each sender's first transaction exists and covers that one |
| `Transfers.CheckedBlockSucceeds` | src/core/core.cpp:248-269 | a block of transfers from distinct senders that passes the balance test succeeds entirely, with all final balances |
| `Transfers.OutputsRecord` | src/core/core.cpp:157-166 | what is recorded for a transaction of a block is the status of one with its hash, no earlier than itself |
| `Transfers.OutputsKeep` | src/core/core.cpp:157-166 | the recorded outcomes of other transactions stay |
| `Transfers.CheckedBlockRecordsSuccess` | src/core/core.cpp:334-342 | every transaction of such a block is found recorded as a success |
| `Transfers.ReorderedBlockPasses` | src/core/core.cpp:248-269 | the balance test does not depend on the order of the transactions |
| `Transfers.OrderIsIrrelevant` | src/core/core.cpp:334-342 | nor do the final balances |
| `Transfers.SumPermuted` | src/core/core.cpp:334-342 | effects of transactions add up in any order |
| `Raising.PerformRaisesIff` | src/core/core.cpp:420-423 | performing a transaction raises exactly when it is no creation and its sender has less than its fee |
| `Raising.RaisesIffStuck` | src/core/core.cpp:334-342 | performing a block's transactions raises exactly when, after those before it, some sender's turn comes without its fee |
| `Raising.BlockRaisesIff` | src/core/core.cpp:334-342 | the same for the whole block, after the emission |
| `Raising.PlainBlockNeverRaises` | src/core/core.cpp:334-342 | a checked block of transfers from distinct senders to client accounts never raises |
| `EthHost.EthHost.SetStorage` | src/core/core.cpp:642-684 | the key reads as the value afterwards and every other key and account as before; a zero written to a missing key leaves none, and the status says unchanged, added, deleted or modified accordingly |
| `EthHost.EthHost.SelfDestruct` | src/core/core.cpp:762-779 | the account is gone, the beneficiary, created if missing, has its balance on top, and nothing else changes |
| `EthHost.EthHost.Call` | src/core/core.cpp:782-802 | runs the code of a contract and returns its status; to anybody else the value goes from sender to destination and nothing else changes, or without the money nothing at all, and success is returned either way |
| `EthHost.CallPays` | src/core/core.cpp:791-795 | every balance after such a call, for every ledger |
| `EthHost.EthHost.Execute` | src/core/core.cpp:642-802 | the callbacks of a run in order |
| `Payments.ScriptInOrder` | src/core/core.cpp:642-802 | the callbacks of a script happen in order, each on what the ones before left |
| `Payments.ScriptKeepsKind` | src/core/core.cpp:642-802 | no script makes a contract, and a contract stays one with its code hash exactly if no callback made, at any depth, destroys it |
| `Payments.CallReaches` | src/core/core.cpp:421-446 | a transaction to an account reaches the machine exactly if that is a contract, there are data, and the sender can pay fee and amount; and what every balance then is |
| `Payments.CreationReaches` | src/core/core.cpp:353-372 | a creation reaches it exactly if the sender can pay, a sender whose own address is reused having nothing left; what every balance then is, and that the address is a fresh contract account with the amount |
| `Payments.SuccessfulRunPays` | src/core/core.cpp:374-387 | after a successful run every balance is what the script left, the gas used to the coinbase and the gas left to the sender; the status is Success with the gas left |
| `Payments.FailedRunPays` | src/core/core.cpp:389-417 | after a failed run every balance is as before, less the gas left at the sender and plus the gas used at the coinbase, or unchanged when the sender cannot be charged; and the status |
| `Payments.NoRunPays` | src/core/core.cpp:345-526 | without a run every balance changes exactly by a transfer the sender can pay, fee to the coinbase; the status of every such case, and when it raises |
| `Payments.CodeDeployed` | src/core/core.cpp:374-387 | after a successful creation the returned code is at the address, which is a contract with the code's hash exactly if the script did not destroy it |
| `Payments.PerformedInOrder` | src/core/core.cpp:339-341 | performing two stretches of transactions is performing the first and then the second on what it left, unless the first raises |
| `Payments.EmissionFirst` | src/core/core.cpp:334-342 | the coinbase can spend the emission of 1000 in the block that pays it |
| `Executor.Executor.DeployContract` | src/core/core.cpp:353-419 | contract creation, all branches, accounts and recorded status |
| `Executor.Executor.CallContract` | src/core/core.cpp:425-497 | a call of a contract, all branches |
| `Executor.Executor.TransferMoney` | src/core/core.cpp:498-522 | a transfer to a client account |
| `Executor.Executor.Penalise` | src/core/core.cpp:389-417 | the two failure branches with every balance, and Failed when the charge raises |
| `Executor.Executor.Settle` | src/core/core.cpp:376-387 | the gas used to the coinbase and the gas left to the sender, as every balance shows, and the commit |
| `Executor.Executor.TryPerformTransaction` | src/core/core.cpp:345-526 | accounts and status are those of the functional account of the transaction, raising exactly when it raises |
| `Executor.Executor.ApplyBlockTransactions` | src/core/core.cpp:334-342 | emission, then the transactions in order up to the first that raises; accounts, recorded outcomes and raise |
| `Executor.Executor.PerformTransactions` | src/core/core.cpp:339-341 | the loop over the transactions, up to the first that raises |
| `Core.GenesisSupply` | src/core/core.cpp:36-61 | the genesis block is worth exactly 2^32 |
| `Core.InChainMembers` | src/core/blockchain.cpp:150-161 | what it means for a transaction to be in the chain, signatures aside |
| `Core.AnswerCases` | src/core/core.cpp:199-220 | an accepted block is answered ADDED or raises in the accounts; a refused one does neither |
| `Core.AnswerBecause` | src/core/core.cpp:199-220 | which check each refusal or overflow names, exactly |
| `Core.PlainNeverRaises` | src/core/core.cpp:199-220 | on any chain such a block, accepted, is answered without a raise |
| `Core.AcceptedBlockRaises` | src/core/core.cpp:199-220 | a block on the genesis block that is accepted and raises |
| `Reopening.ReplayRaisesIff` | src/core/core.cpp:22-28 | the replay of loaded blocks raises exactly when in some block, after those before it, a sender's turn comes without its fee |
| `Reopening.ReplayRestoresIff` | src/core/core.cpp:22-28 | on a chain of transfers the replayed accounts miss exactly the emissions in sum, raise or not, and equal those of the running node exactly on the genesis block alone |
| `Reopening.EmissionsLost` | src/core/core.cpp:22-28 | when every transaction is a transfer that can be paid in its turn, the replay does not raise and each account lacks exactly the emission for the blocks it mined |
| `Core.RestartRaises` | src/core/core.cpp:22-28 | two blocks the running node accepts without a raise, on which the replay raises |
| `Core.Restart` | src/core/core.cpp:12-33 | a node started on the database of another has the part of its chain in time and the replayed accounts; on transfers they are the other's exactly for the genesis block alone |
| `Core.Core.constructor` | src/core/core.cpp:12-20 | before the load the node has the genesis block, its accounts, an empty pool, and the database it was given or a wiped one |
| `Core.Core.Start` | src/core/core.cpp:22-28 | loads the chain as the load loop does and replays it: chain, database, accounts and outcomes, raising exactly where the load or the replay does |
| `Core.Core.ReplayBlocks` | src/core/core.cpp:23-28 | the loop over depths leaves the accounts and outcomes of the replay, up to the first raise |
| `Core.Core.FindBlock` | src/core/core.cpp:223-226 | finds a block exactly when the chain has one with the hash |
| `Core.Core.FindBlockHash` | src/core/core.cpp:229-232 | the hash at a depth |
| `Core.Core.GetTopBlockHash` | src/core/core.cpp:322-325 | the hash of the last block |
| `Core.Core.CheckBlockTransactions` | src/core/core.cpp:248-269 | true exactly for a new block whose senders exist and can pay their recorded cost |
| `Core.Core.TryAddBlock` | src/core/core.cpp:199-220 | the chain grows exactly by an accepted block, accounts, outcomes, pool and store follow, and otherwise nothing changes; the pool never shares a transaction with the chain, and the store stays in agreement exactly unless the block already has a record |
| `Core.Core.AddPendingTransaction` | src/core/core.cpp:70-142 | the answer or raise of every branch, what is recorded, and exactly which transactions enter the pool; it never holds duplicates or a transaction of the chain |
| `Core.EntersIffPending` | src/core/core.cpp:70-142 | a transaction new to chain and pool enters exactly when it is answered Pending, is otherwise refused as unsigned or unpayable, and raises exactly when its cost, alone or with the sender's first pending one, overflows |
| `Core.AlreadyThere` | src/core/core.cpp:83-105 | a transaction of the chain gets what is recorded for it, one of the pool is Pending, and neither enters |
| `Core.DecisionRightIff` | src/core/core.cpp:107-128 | when a new signed transaction is taken if and only if its sender can pay all he has pending and it: exactly if he has nothing pending, or the balance does not cover it alone, or the check overflows, or the balance lies strictly between the first pending cost with it and all he would owe, or equals both |
| `TransactionsSet.CostIsOwed` | src/core/transactions_set.cpp:138-146 | the recorded cost of a sender is at most what he owes for all his transactions, and who has none recorded owes nothing |
| `Core.FundedIsRefused` | src/core/core.cpp:111-120 | a second small transfer is refused although the account could pay both |
| `Core.OvercommittedIsTaken` | src/core/core.cpp:111-120 | a second transfer is taken although the account cannot pay both |
| `Core.ThirdIsTaken` | src/core/core.cpp:107-120 | a third transfer is taken although the two pending ones already owe the whole balance |
| `Synchronizer.Synchronizer.RequestBlock` | src/core/peer.cpp:396-405 | sends one request, or raises exactly when one is outstanding |
| `Synchronizer.Synchronizer.HandleReceivedTopBlockHash` | src/core/peer.cpp:293-314 | requests the announced block exactly when the node does not have it |
| `Synchronizer.Synchronizer.HandleReceivedBlock` | src/core/peer.cpp:317-363 | every branch: unexpected, other hash, foreign genesis, next request, or the apply loop |
| `Synchronizer.Synchronizer.HandleBlock` | src/core/peer.cpp:591-601 | a BLOCK message is offered to the synchronizer only |
| `Synchronizer.Synchronizer.ApplySyncBlocks` | src/core/peer.cpp:346-355 | the apply loop replays the fetched blocks oldest first until one is refused or raises |
| `Synchronizer.Synchronizer.HandleReceivedNewBlock` | src/core/peer.cpp:366-387 | every way a new block goes: added, raised, put in front of the blocks being fetched, or tried once more; with the whole new state |
| `Synchronizer.ReplayIsPrefix` | src/core/peer.cpp:346-355 | whatever blocks are replayed, the chain grows by a first stretch of them, each accepted on those before, up to the first refused or raising |
| `Synchronizer.HandleGetBlock` | src/core/peer.cpp:579-588 | the reply is a block of the chain with the hash, exactly if there is one |
| `Synchronizer.FetchedLinked` | src/core/peer.cpp:331-333 | the blocks fetched so far are hash-linked down to the one requested next |
| `Synchronizer.HonestBlock` | src/core/core.cpp:199-220 | a block of an honest peer's chain is accepted on a prefix exactly when it is the next one and in time |
| `Synchronizer.HonestReplay` | src/core/peer.cpp:346-355 | replaying what is missing gives the peer's chain exactly when the clock accepts it all and no block but the last raises |
| `Synchronizer.PlainIsSmooth` | src/core/peer.cpp:346-355 | where the missing blocks hold transfers from distinct senders to client accounts the clock alone decides, and nothing raises |
| `Synchronizer.Answered` | src/core/peer.cpp:317-363 | one request and its answer: one block further down, all of them applied, or the exchange abandoned at a null back-link |
| `Synchronizer.Announced` | src/core/peer.cpp:366-387 | a contiguous NEW_BLOCK during the exchange keeps the fetched blocks a stretch of the peer's chain |
| `Synchronizer.Exchange` | src/core/peer.cpp:317-387 | the message loop ends after one request per block fetched, with the outcome of the replay, or with nothing applied at a null back-link |
| `Synchronizer.Synchronise` | src/core/peer.cpp:293-387 | the whole exchange with an honest peer ahead: exactly as many requests as missing blocks, no request ever outstanding, linked blocks, and the peer's chain in the end exactly when no null hash lies on the way, the clock accepts every block and none but the last raises |
| `Miner.CommonState.SetCommonData` | src/node/miner.cpp:49-55 | version and data change together; the data is published last |
| `Miner.CommonState.CallHandlerAndDrop` | src/node/miner.cpp:58-79 | hands the block on exactly when the standing job is FIND_NONCE, and then drops the job |
| `Miner.CommonState.WaitAndReadNewData` | src/node/miner.cpp:82-88 | reads version and data of one publication, exactly when the version differs from the one last read |
| `Miner.Search` | src/node/miner.cpp:194-204 | the inner loop offers the candidates among the nonces it tries while the version stands still |
| `Miner.CandidatesIff` | src/node/miner.cpp:199-203 | a block is offered exactly when it is the job with a nonce tried and its hash is below the complexity |
| `Miner.CandidatesInOrder` | src/node/miner.cpp:198-204 | more attempts only add candidates at the end |
| `Miner.SealedIff` | src/node/miner.cpp:199-203 | a candidate is the job but for nonce and hash, and its hash is that of everything else in it |
| `Miner.NextNonce` | src/node/miner.cpp:199-199 | the nonces start at the seed and go up by one, wrapping to zero |
| `Miner.NoncesDistinct` | src/node/miner.cpp:199-199 | no nonce is tried twice before all 2^64 were |
| `MinerRuns.EveryRun` | src/node/miner.cpp:28-213 | the invariant of jobs, workers, grants and deliveries, over every interleaving of any number of workers |
| `MinerRuns.WorkerSearches` | src/node/miner.cpp:198-204 | in every interleaving, what a worker found since it read its job are the candidates for the nonces it tried since |
| `MinerRuns.LoopIsSearch` | src/node/miner.cpp:198-204 | when it has left the loop they are exactly the result of the inner loop for the loads it made |
| `MinerRuns.RunSearches` | src/node/miner.cpp:178-204 | in every run from the start, what a worker found since it read a job are the candidates for the nonces it tried from its seed on, and once out of the loop for as many nonces as its loads returned the version it read |
| `MinerRuns.ReadTogether` | src/node/miner.cpp:82-88 | a worker's version and job were published together, up to the nonce it has set |
| `MinerRuns.CallsBounded` | src/node/miner.cpp:58-79 | handler calls, made and under way, never exceed the FIND_NONCE orders, and a standing job was not yet answered |
| `MinerRuns.DeliveredMeets` | src/node/miner.cpp:192-203 | every delivered block is a published job with a nonce and its hash is below the complexity published with it |
| `MinerRuns.OrderPublished` | src/node/miner.cpp:131-146 | in every run findNonce publishes the job, dropJob NONE and stop EXIT; a worker that reads next starts on the job, goes back to waiting or stops |
| `MinerRuns.NoStopNoEnd` | src/node/miner.cpp:143-146 | in a run without stop EXIT is never published and no worker stops |
| `MinerRuns.NothingAfterStop` | src/node/miner.cpp:143-146 | in every run, once stop was called and no order follows, nothing more is published or granted, whatever the workers do |
| `MinerRuns.WakesIff` | src/node/miner.cpp:85-87 | a waiting worker misses exactly the publications that are a multiple of 2^64 ahead of it |
| `MinerRuns.WorkersStop` | src/node/miner.cpp:176-212 | after EXIT every worker that has not stopped can step, and each of its steps brings it closer to stopping |
| `MinerRuns.AllStop` | src/node/miner.cpp:143-212 | in every run of less than 2^64 publications, once stop was called and no order follows, n workers take at most 4n steps in whatever order, and no step is left exactly when all have stopped |
| `MinerRuns.GrantAnswersIff` | src/node/miner.cpp:58-79 | a granted block answers the job it drops exactly when that job has the same template and its complexity is met |
| `MinerRuns.StaleGrant` | src/node/miner.cpp:58-79 | a run in which a stale block is delivered and the new job dropped |
| `XorMetric.BitsSpell` | src/core/host.cpp:90-98 | the bits shifted out of the bytes are the binary digits of the big-endian number |
| `XorMetric.CalcDifference` | src/core/host.cpp:78-103 | the byte loop and the shift loop find the first bit in which two addresses differ, 160 for equal ones |
| `XorMetric.DifferenceIsLogarithm` | src/core/host.cpp:78-103 | 2^(159 - d) <= a xor b < 2^(160 - d) for distinct addresses, and d is 160 exactly for equal ones |
| `XorMetric.DifferenceSymmetric` | src/core/host.cpp:78-103 | the difference is symmetric |
| `XorMetric.DifferenceUltrametric` | src/core/host.cpp:78-103 | of three differences the two least are equal |
| `Kademlia.KademliaPeerPool.constructor` | src/core/host.cpp:73-75 | an empty table satisfies the invariant |
| `Kademlia.KademliaPeerPool.GetLeastRecentlySeenPeerIndex` | src/core/host.cpp:114-129 | the first of the peers seen longest ago |
| `Kademlia.KademliaPeerPool.TryAddPeer` | src/core/host.cpp:132-165 | exactly when a newcomer is added, where, and who goes for it; the table invariant is kept and nothing else changes |
| `Kademlia.KademliaPeerPool.TryRemovePeer` | src/core/host.cpp:168-181 | removes that very peer exactly when it is in the bucket of its distance |
| `Kademlia.KademliaPeerPool.RemovePeer` | src/core/host.cpp:184-192 | erases one place of one bucket |
| `Kademlia.KademliaPeerPool.RemoveSilent` | src/core/host.cpp:195-204 | every bucket keeps its open peers in order; the invariant is kept |
| `Kademlia.StillOpenWithin` | src/core/host.cpp:199-203 | those are exactly the members whose session is not closed |
| `Kademlia.StillOpenInOrder` | src/core/host.cpp:199-203 | they keep their order: of two stretches those of the first come first |
| `Kademlia.KademliaPeerPool.RemoveIfClosed` | src/core/host.cpp:199-203 | the loop that keeps them |
| `Kademlia.KademliaPeerPool.HasPeerWithEndpoint` | src/core/host.cpp:244-253 | whether some pooled peer has the endpoint |
| `Kademlia.StoredOnce` | src/core/host.cpp:132-165 | the host is never stored and two places of the table never share an endpoint |
| `Kademlia.PushKeeps` | src/core/host.cpp:148-152 | adding a peer without a clash to a bucket with room keeps buckets by distance, at most ten, endpoints unique |
| `Kademlia.EvictKeeps` | src/core/host.cpp:153-160 | so does replacing one |
| `Kademlia.ShrinkKeeps` | src/core/host.cpp:168-204 | so does taking members out of a bucket |
| `Kademlia.SilentIff` | src/core/host.cpp:155-156 | when the unsigned difference counts as silence: long ago, or seen after the clock reading |

## Left out

- The text attached to a recorded status, and the output bytes put into it.
- The virtual machine, its gas arithmetic and the sign of the gas it returns: a run is any script of callbacks with at most the given gas left.
- Rollback of nested calls that fail: a nested call is its script.
- Callbacks that only look at an account are one case (`Inspect`), which can create the account; what they return is part of what the machine may depend on.
- Account objects are values in a map: a C++ reference into the map is a lookup and an update at its address.
- Serialization and archives (`.tpp` files other than the base-58 encoder): taken to be invertible; LevelDB is a map.
- `Base58.Decode`: characters beyond 127, for which the program reads before the start of its table; and a terminating zero is taken to follow the last character, as in every call.
- `PersistentBlockchain.PersistentBlockchain.CreateAllBlockHashesList`: stores on which the walk comes back to a hash, where the program never ends (`PersistentBlockchain.WalkEndsIff`); `PersistentBlockchain.PersistentBlockchain.Load` likewise.
- `Core.Core.Start`: like the load, not on stores whose walk comes back to a hash. `Core.Core.TryAddBlock` and what follows from it are about a node whose accounts are those of its chain, which one after a replay is not unless it loaded the genesis block alone.
- `Synchronizer.Synchronise`: NEW_BLOCK messages during an exchange are contiguous extensions of what was announced, because the code does not check that they are.
- Forks and reorganisation, which the program does not do.
- Ratings, timers, handshakes, `lookup` order, `selectBestByFee` and event subscriptions.
- Peers of the pool keep the address and endpoints they were added with.
- Debug assertions, among them the one in `removePeer` (src/core/host.cpp:186) that compares a bucket index with the bucket size.
- `MinerRuns.AllStop`: more than 2^64 publications, after which a worker can take an old version for the current one (`MinerRuns.WakesIff`).
- Relaxed memory orderings of the version counter: its loads are atomic steps between locked sections.
- `Keccak.Context.Final` always writes its result; the program allows none to be asked for.
- Sockets, configuration, logging, keys, OpenSSL and secp256k1, the RPC services, clients and compilers' tooling.
