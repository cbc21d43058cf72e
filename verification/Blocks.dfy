/**
 The values the node exchanges and stores: hashes, addresses, transactions and blocks.

 A block carries its own hash, as `ImmutableBlock::_this_block_hash` does. Nothing is assumed about
 how that hash was computed: what is proved holds for every hash function, colliding ones included.
 */
module Blocks {
  import opened Types

  const MAX_UINT256: nat := 0xFFFFFFFF_FFFFFFFF_FFFFFFFF_FFFFFFFF_FFFFFFFF_FFFFFFFF_FFFFFFFF_FFFFFFFF

  type Uint256 = n: nat | n <= MAX_UINT256

  type Uint64 = n: nat | n < 0x1_00000000_00000000

  type Uint32 = n: nat | n < 0x1_00000000

  type Hash = h: seq<Byte> | |h| == 32 witness ZeroBytes(32)

  const NULL_HASH: Hash := ZeroBytes(32)

  type Address = a: seq<Byte> | |a| == 20 witness ZeroBytes(20)

  const NULL_ADDRESS: Address := ZeroBytes(20)

  datatype Transaction = Transaction(from: Address, to: Address, amount: Uint256, fee: Uint64, timestamp: Uint32,
                                     data: seq<Byte>, sign: seq<Byte>)
  {
    /** What `Transaction::operator==` and `hashOfTransaction` look at: everything but the signature. */
    function Unsigned(): Transaction {
      this.(sign := [])
    }
  }

  datatype Block = Block(depth: Uint64, nonce: Uint64, prevHash: Hash, timestamp: Uint32, coinbase: Address,
                         txs: seq<Transaction>, hash: Hash)
}
