/** `Blockchain` (src/core/blockchain.cpp): three views of one chain, kept in step with `Consensus`. */
module Blockchain {
  import opened Types
  import opened Blocks
  import opened Positional
  import opened Chain
  import Consensus

  /** The hash map, the depth map, the top hash and the genesis hash all describe `chain`. */
  ghost predicate Views(chain: seq<Block>, blocks: map<Hash, Block>, byDepth: map<nat, Hash>, top: Hash,
                        genesis: Hash) {
    && |chain| > 0
    && (forall i :: 0 <= i < |chain| ==> chain[i].hash in blocks && blocks[chain[i].hash] == chain[i])
    && (forall h :: h in blocks ==> HasHash(chain, h))
    && |blocks| == |chain|
    && (forall i :: 0 <= i < |chain| ==> i in byDepth && byDepth[i] == chain[i].hash)
    && (forall d :: d in byDepth ==> d < |chain|)
    && top == Last(chain).hash && genesis == chain[0].hash
  }

  lemma {:induction false} ViewsRead(chain: seq<Block>, blocks: map<Hash, Block>, byDepth: map<nat, Hash>, top: Hash,
                                     genesis: Hash)
    requires Views(chain, blocks, byDepth, top, genesis)
    ensures |blocks| == |chain| > 0
    ensures forall h :: h in blocks <==> HasHash(chain, h)
    ensures forall h :: h in blocks ==> blocks[h] in chain && blocks[h].hash == h
    ensures top == Last(chain).hash && top in blocks && blocks[top] == Last(chain)
  {
    forall h | h in blocks ensures blocks[h] in chain && blocks[h].hash == h {
      var i :| 0 <= i < |chain| && chain[i].hash == h;
    }
  }

  lemma {:induction false} ViewsExtended(chain: seq<Block>, blocks: map<Hash, Block>, byDepth: map<nat, Hash>,
                                         top: Hash, genesis: Hash,
                      b: Block)
    requires Views(chain, blocks, byDepth, top, genesis)
    requires !HasHash(chain, b.hash) && b.depth == |chain|
    ensures Views(chain + [b], blocks[b.hash := b], byDepth[b.depth := b.hash], b.hash, genesis)
  {
    hide HasHash;
    var longer, blocks' := chain + [b], blocks[b.hash := b];
    forall i | 0 <= i < |longer| ensures longer[i].hash in blocks' && blocks'[longer[i].hash] == longer[i] {
      if i < |chain| {
        assert longer[i] == chain[i];
      }
    }
    forall h | h in blocks' ensures HasHash(longer, h) {
      HasHashExtended(chain, b, h);
    }
    assert b.hash !in blocks && blocks'.Keys == blocks.Keys + {b.hash};
  }

  lemma {:induction false} HasHashExtended(chain: seq<Block>, b: Block, h: Hash)
    ensures HasHash(chain + [b], h) <==> HasHash(chain, h) || h == b.hash
  {
    var longer := chain + [b];
    if HasHash(chain, h) {
      var i :| 0 <= i < |chain| && chain[i].hash == h;
      assert longer[i].hash == h;
    }
    assert longer[|chain|] == b;
    assert forall i :: 0 <= i < |chain| ==> longer[i] == chain[i];
  }

  class Blockchain {
    var blocks: map<Hash, Block>
    var blocksByDepth: map<nat, Hash>
    var genesisBlockHash: Hash
    var topLevelBlockHash: Hash
    const consensus: Consensus.Consensus

    /** The chain the three views describe. */
    ghost var chain: seq<Block>

    ghost function Repr(): set<object> {
      {this, consensus}
    }

    ghost predicate Valid()
      reads this, consensus
    {
      && consensus.Valid()
      && Views(chain, blocks, blocksByDepth, topLevelBlockHash, genesisBlockHash)
      && WellFormed(chain)
      && consensus.lastBlocks == Recent(chain)
      && consensus.complexity.densed == ThresholdOf(chain)
    }

    constructor (genesisBlock: Block)
      ensures Valid() && chain == [genesisBlock] && genesisBlockHash == genesisBlock.hash && fresh(consensus)
    {
      consensus := new Consensus.Consensus();
      blocks := map[genesisBlock.hash := genesisBlock];
      blocksByDepth := map[0 := genesisBlock.hash];
      topLevelBlockHash := genesisBlock.hash;
      genesisBlockHash := genesisBlock.hash;
      chain := [genesisBlock];
      new;
      assert chain[0].hash == genesisBlock.hash;
    }

    /**
     The result is decided by the chain, the block and the clock alone; an added block extends the
     chain, any other answer leaves every field as it was. Nothing is ever raised.
     */
    method TryAddBlock(block: Block, now: nat) returns (r: AdditionResult)
      requires Valid()
      modifies this, consensus
      ensures Valid()
      ensures r == Verdict(old(chain), block, now)
      ensures r == ADDED ==> chain == old(chain) + [block]
      ensures r != ADDED ==> unchanged(this) && unchanged(consensus)
      ensures genesisBlockHash == old(genesisBlockHash)
    {
      hide Value, ThresholdOf, Recent, WellFormed, Views, Consensus.Retarget, Consensus.Pushed;
      ViewsRead(chain, blocks, blocksByDepth, topLevelBlockHash, genesisBlockHash);
      if |blocks| != 0 && block.hash in blocks {
        return ALREADY_IN_BLOCKCHAIN;
      } else if |blocks| != 0 && topLevelBlockHash != block.prevHash {
        return INVALID_PARENT_HASH;
      } else if |blocks| != block.depth {
        return INVALID_DEPTH;
      }
      var accepted := consensus.CheckBlock(block);
      if !accepted {
        return CONSENSUS_ERROR;
      } else if topLevelBlockHash != block.prevHash {
        return INVALID_PARENT_HASH;
      } else if |block.txs| == 0 || |block.txs| > MAX_TRANSACTIONS_IN_BLOCK {
        return INVALID_TRANSACTIONS_NUMBER;
      }
      var top := blocks[topLevelBlockHash];
      if top.timestamp >= block.timestamp {
        return OLD_TIMESTAMP;
      } else if block.timestamp > (now % 0x1_00000000 + SECONDS_IN_DAY) % 0x1_00000000 {
        return FUTURE_TIMESTAMP;
      }
      AddedIffAdmissible(chain, block, now);
      ConsensusFollows(chain, block);
      ViewsExtended(chain, blocks, blocksByDepth, topLevelBlockHash, genesisBlockHash, block);
      var applied := consensus.ApplyBlock(block);
      assert applied.Ok?;
      blocks := blocks[block.hash := block];
      blocksByDepth := blocksByDepth[block.depth := block.hash];
      topLevelBlockHash := block.hash;
      chain := chain + [block];
      return ADDED;
    }

    function FindBlock(hash: Hash): (r: Option<Block>)
      requires Valid()
      reads this, consensus
      ensures r.Some? <==> HasHash(chain, hash)
      ensures r.Some? ==> r.value in chain && r.value.hash == hash
    {
      ViewsRead(chain, blocks, blocksByDepth, topLevelBlockHash, genesisBlockHash);
      if hash in blocks then Some(blocks[hash]) else None
    }

    function FindBlockHashByDepth(depth: Uint64): (r: Option<Hash>)
      requires Valid()
      reads this, consensus
      ensures r == if depth < |chain| then Some(chain[depth].hash) else None
    {
      if depth in blocksByDepth then Some(blocksByDepth[depth]) else None
    }

    function GetTopBlock(): (b: Block)
      requires Valid()
      reads this, consensus
      ensures b == Last(chain)
    {
      blocks[topLevelBlockHash]
    }

    /** Whether some block holds a transaction with this hash; the map is searched in no fixed order. */
    method FindTransaction(txHash: Transaction -> Hash, hash: Hash) returns (r: Option<Transaction>)
      requires Valid()
      ensures r.Some? ==> InChain(chain, r.value) && txHash(r.value) == hash
      ensures r.None? ==> forall tx :: InChain(chain, tx) ==> txHash(tx) != hash
    {
      hide WellFormed, ThresholdOf, Recent, Value;
      var unvisited := blocks.Keys;
      while unvisited != {}
        invariant unvisited <= blocks.Keys
        invariant forall h :: h in blocks && h !in unvisited ==> Lacks(txHash, hash, blocks[h].txs)
        decreases |unvisited|
      {
        var h :| h in unvisited;
        var found := FindIn(txHash, hash, blocks[h].txs);
        if found.Some? {
          assert HasHash(chain, h);
          ghost var i :| 0 <= i < |chain| && chain[i].hash == h;
          assert found.value in chain[i].txs;
          return found;
        }
        unvisited := unvisited - {h};
      }
      forall tx | InChain(chain, tx) ensures txHash(tx) != hash {
        var i :| 0 <= i < |chain| && tx in chain[i].txs;
        assert chain[i].hash in blocks && Lacks(txHash, hash, chain[i].txs);
      }
      return None;
    }
  }

  ghost predicate Lacks(txHash: Transaction -> Hash, hash: Hash, txs: seq<Transaction>) {
    forall tx :: tx in txs ==> txHash(tx) != hash
  }

  method FindIn(txHash: Transaction -> Hash, hash: Hash, txs: seq<Transaction>) returns (r: Option<Transaction>)
    ensures r.Some? ==> r.value in txs && txHash(r.value) == hash
    ensures r.None? ==> Lacks(txHash, hash, txs)
  {
    for k := 0 to |txs|
      invariant Lacks(txHash, hash, txs[..k])
    {
      if txHash(txs[k]) == hash {
        return Some(txs[k]);
      }
    }
    assert txs[..|txs|] == txs;
    return None;
  }

  ghost predicate InChain(chain: seq<Block>, tx: Transaction) {
    exists i :: 0 <= i < |chain| && tx in chain[i].txs
  }

  lemma {:induction false} RetargetPosition(chain: seq<Block>, b: Block)
    requires |chain| > 0 && b.depth == |chain|
    ensures Consensus.RetargetsAt(Recent(chain), b) <==> |chain| >= 3 && |chain| % 2 == 1
    ensures |chain| >= 2 ==> Recent(chain + [b])[0] == Last(chain)
  {
    assert |Recent(chain)| == if |chain| <= 2 then |chain| - 1 else 2;
    assert (|chain| - 1) % 2 == 0 <==> |chain| % 2 == 1;
  }

  /** For an admissible block the difficulty rule cannot raise, and it computes the next threshold. */
  lemma {:induction false} ConsensusFollows(chain: seq<Block>, b: Block)
    requires WellFormed(chain) && Admissible(chain, b)
    ensures WellFormed(chain + [b])
    ensures Consensus.Pushed(Recent(chain), b) == Recent(chain + [b])
    ensures Consensus.RetargetsAt(Recent(chain), b) <==> |chain| >= 3 && |chain| % 2 == 1
    ensures |chain| >= 2 ==> Recent(chain + [b])[0] == Last(chain)
    ensures b.timestamp > Last(chain).timestamp && ThresholdOf(chain) > 0
    ensures ThresholdOf(chain + [b]) ==
            if |chain| >= 3 && |chain| % 2 == 1
            then Consensus.Retarget(ThresholdOf(chain), b.timestamp - Last(chain).timestamp)
            else ThresholdOf(chain)
  {
    hide ThresholdOf, Value;
    RetargetPosition(chain, b);
    Extended(chain, b);
    RecentStep(chain, b);
    ThresholdStep(chain, b);
    AdmissibleThresholdPositive(chain, b);
  }
}
