/** `Peer::Synchronizer` and the GET_BLOCK / BLOCK handlers (src/core/peer.cpp). */
module Synchronizer {
  import opened Types
  import opened Blocks
  import opened Chain
  import opened Execution
  import Persistent = PersistentBlockchain
  import Pool = TransactionsSet
  import opened Core
  import opened Transfers
  import opened Supply

  datatype PeerState = JUST_ESTABLISHED | REQUESTED_BLOCKS | SYNCHRONISED

  /** The chain after applying `blocks` one by one until one is refused or raises. */
  datatype Replay = Replay(chain: seq<Block>, raised: bool)

  ghost function Replayed(env: Env, chain: seq<Block>, blocks: seq<Block>, clock: nat -> nat, k: nat): Replay
    requires env.Sane() && |chain| > 0
    decreases |blocks|
  {
    if blocks == [] then Replay(chain, false)
    else
      var answer := Answer(env, chain, blocks[0], clock(k));
      if !Accepts(env, chain, blocks[0], clock(k)) then Replay(chain, answer.Raised?)
      else if answer.Raised? then Replay(chain + [blocks[0]], true)
      else Replayed(env, chain + [blocks[0]], blocks[1..], clock, k + 1)
  }

  /**
   Whatever blocks are replayed, the chain grows by the first `n` of them, each accepted on those before it; after
   that one was refused or raised, and none behind it is looked at.
   */
  lemma {:induction false} ReplayIsPrefix(env: Env, chain: seq<Block>, blocks: seq<Block>, clock: nat -> nat, k: nat)
    returns (n: nat)
    requires env.Sane() && |chain| > 0
    ensures var replay := Replayed(env, chain, blocks, clock, k);
            && n <= |blocks| && replay.chain == chain + blocks[..n]
            && (forall i :: 0 <= i < n ==> Accepts(env, chain + blocks[..i], blocks[i], clock(k + i)))
            && (!replay.raised && n < |blocks| ==> !Accepts(env, chain + blocks[..n], blocks[n], clock(k + n)))
            && (replay.raised ==> (n < |blocks| && Answer(env, chain + blocks[..n], blocks[n], clock(k + n)).Raised?)
                                  || (n > 0 && Answer(env, chain + blocks[..n - 1], blocks[n - 1],
                                                      clock(k + n - 1)).Raised?))
    decreases |blocks|
  {
    hide Accepts, Answer;
    assert chain + blocks[..0] == chain;
    if blocks == [] || !Accepts(env, chain, blocks[0], clock(k)) {
      n := 0;
    } else if Answer(env, chain, blocks[0], clock(k)).Raised? {
      n := 1;
      assert blocks[..1] == [blocks[0]];
    } else {
      var longer := chain + [blocks[0]];
      var m := ReplayIsPrefix(env, longer, blocks[1..], clock, k + 1);
      n := m + 1;
      forall i | 0 <= i < |blocks| ensures longer + blocks[1..][..i] == chain + blocks[..i + 1] {}
      forall i | 0 <= i < n ensures Accepts(env, chain + blocks[..i], blocks[i], clock(k + i)) {
        if i > 0 {
          assert Accepts(env, longer + blocks[1..][..i - 1], blocks[1..][i - 1], clock(k + 1 + (i - 1)));
        }
      }
    }
  }

  /** Whether an answer says that the block was added. */
  function Added(answer: Result<AdditionResult>): Result<bool> {
    match answer
    case Ok(result) => Ok(result == ADDED)
    case Raised(error) => Raised(error)
  }

  /** The chain after `Core.TryAddBlock`. */
  ghost function Grown(env: Env, chain: seq<Block>, b: Block, now: nat): seq<Block>
    requires env.Sane() && |chain| > 0
  {
    if Accepts(env, chain, b, now) then chain + [b] else chain
  }

  class Synchronizer {
    const core: Core
    var requestedBlock: Option<Hash>
    var syncBlocks: seq<Block>
    var peerState: PeerState

    /** The GET_BLOCK messages sent so far. */
    var sent: seq<Hash>

    constructor (core: Core)
      ensures this.core == core && requestedBlock == None && syncBlocks == [] && sent == []
              && peerState == JUST_ESTABLISHED
    {
      this.core := core;
      requestedBlock := None;
      syncBlocks := [];
      peerState := JUST_ESTABLISHED;
      sent := [];
    }

    method RequestBlock(hash: Hash) returns (r: Result<()>)
      modifies this
      ensures r.Raised? <==> old(requestedBlock).Some?
      ensures r.Raised? ==> r.error == RuntimeError && unchanged(this)
      ensures r.Ok? ==> requestedBlock == Some(hash) && sent == old(sent) + [hash]
      ensures syncBlocks == old(syncBlocks) && peerState == old(peerState)
    {
      if requestedBlock.Some? {
        return Raised(RuntimeError);
      }
      sent := sent + [hash];
      requestedBlock := Some(hash);
      return Ok(());
    }

    /** A top block we know means we are not behind; any other is requested. */
    method HandleReceivedTopBlockHash(peersTop: Hash) returns (r: Result<()>)
      requires core.Valid() && this !in core.Repr()
      modifies this
      ensures HasHash(core.Chain(), peersTop) ==>
                r.Ok? && peerState == SYNCHRONISED && sent == old(sent) && requestedBlock == old(requestedBlock)
      ensures !HasHash(core.Chain(), peersTop) && old(requestedBlock).None? ==>
                r.Ok? && peerState == REQUESTED_BLOCKS && sent == old(sent) + [peersTop]
                    && requestedBlock == Some(peersTop)
      ensures !HasHash(core.Chain(), peersTop) && old(requestedBlock).Some? ==>
              r == Raised(RuntimeError) && unchanged(this)
      ensures syncBlocks == old(syncBlocks)
    {
      hide Core.Valid;
      var ours := core.GetTopBlockHash();
      if peersTop == ours {
        peerState := SYNCHRONISED;
        return Ok(());
      }
      var found := core.FindBlock(peersTop);
      if found.Some? {
        peerState := SYNCHRONISED;
        return Ok(());
      }
      r := RequestBlock(peersTop);
      if r.Raised? {
        return;
      }
      peerState := REQUESTED_BLOCKS;
    }

    /** `Peer::handle(msg::Block)`: a block that does not have the hash it is announced with is ignored. */
    method HandleBlock(hash: Hash, block: Block, clock: nat -> nat) returns (r: Result<()>)
      requires core.Valid() && this !in core.Repr()
      modifies this, core.Repr()
      ensures core.Valid() && peerState == old(peerState)
      ensures hash != block.hash ==> r.Ok? && unchanged(this) && core.Chain() == old(core.Chain())
      ensures hash == block.hash ==>
              Handled(old(requestedBlock), old(syncBlocks), old(sent), old(core.Chain()), hash, block, clock, r)
    {
      if hash != block.hash {
        return Ok(());
      }
      r := HandleReceivedBlock(hash, block, clock);
    }

    /** The four ways a BLOCK message goes, with the whole new state. */
    ghost predicate Handled(requested: Option<Hash>, blocks: seq<Block>, sentBefore: seq<Hash>, chain: seq<Block>,
                            hash: Hash, block: Block, clock: nat -> nat, r: Result<()>)
      requires core.executor.env.Sane() && |chain| > 0
      reads this, core.blockchain.base
    {
      if requested != Some(hash) then
        r.Ok? && requestedBlock == requested && syncBlocks == blocks && sent == sentBefore && core.Chain() == chain
      else if block.prevHash == NULL_HASH then
        r.Ok? && requestedBlock == None && syncBlocks == blocks + [block] && sent == sentBefore && core.Chain() == chain
      else if HasHash(chain, block.prevHash) then
        var replay := Replayed(core.executor.env, chain, Reversed(blocks + [block]), clock, 0);
        && requestedBlock == None && sent == sentBefore && core.Chain() == replay.chain
        && (r.Raised? <==> replay.raised) && (r.Raised? ==> r.error != RuntimeError)
        && syncBlocks == if replay.raised then blocks + [block] else []
      else
        r.Ok? && requestedBlock == Some(block.prevHash) && syncBlocks == blocks + [block]
        && sent == sentBefore + [block.prevHash] && core.Chain() == chain
    }

    method HandleReceivedBlock(hash: Hash, block: Block, clock: nat -> nat) returns (r: Result<()>)
      requires core.Valid() && this !in core.Repr() && hash == block.hash
      modifies this, core.Repr()
      ensures core.Valid() && peerState == old(peerState)
      ensures Handled(old(requestedBlock), old(syncBlocks), old(sent), old(core.Chain()), hash, block, clock, r)
    {
      hide Core.Valid, Replayed, HasHash;
      if requestedBlock.None? {
        return Ok(());
      } else if requestedBlock.value != hash {
        return Ok(());
      }
      requestedBlock := None;
      syncBlocks := syncBlocks + [block];
      var next := block.prevHash;
      if next == NULL_HASH {
        return Ok(());
      }
      var known := core.FindBlock(next);
      if known.Some? {
        var applied := ApplySyncBlocks(clock);
        if applied.Raised? {
          return applied;
        }
        syncBlocks := [];
      } else {
        r := RequestBlock(next);
        return;
      }
      return Ok(());
    }

    /** The apply loop: newest requested last, so the vector is read from its end. */
    method ApplySyncBlocks(clock: nat -> nat) returns (r: Result<()>)
      requires core.Valid() && this !in core.Repr()
      modifies core.Repr()
      ensures core.Valid()
      ensures var replay := Replayed(core.executor.env, old(core.Chain()), Reversed(syncBlocks), clock, 0);
              core.Chain() == replay.chain && (r.Raised? <==> replay.raised)
      ensures r.Raised? ==> r.error != RuntimeError
    {
      hide Core.Valid, Accepts, Answer;
      ghost var env, all := core.executor.env, Reversed(syncBlocks);
      ghost var whole := Replayed(env, core.Chain(), all, clock, 0);
      var k := 0;
      while k < |syncBlocks|
        invariant k <= |syncBlocks| && core.Valid()
        invariant Replayed(env, core.Chain(), all[k..], clock, k) == whole
      {
        var block := syncBlocks[|syncBlocks| - 1 - k];
        assert all[k..][0] == block && all[k..][1..] == all[k + 1..];
        AnswerCases(env, core.Chain(), block, clock(k));
        var added := core.TryAddBlock(block, clock(k));
        if added.Raised? {
          return Raised(added.error);
        }
        if added.value != ADDED {
          break;
        }
        k := k + 1;
      }
      return Ok(());
    }

    /** The ways a NEW_BLOCK message goes, with the whole new state. */
    ghost predicate NewsHandled(requested: Option<Hash>, blocks: seq<Block>, sentBefore: seq<Hash>, chain: seq<Block>,
                                block: Block, clock: nat -> nat, r: Result<bool>)
      requires core.executor.env.Sane() && |chain| > 0
      reads this, core.blockchain.base
    {
      var env := core.executor.env;
      var first, second := Answer(env, chain, block, clock(0)), Answer(env, chain, block, clock(1));
      && requestedBlock == requested && sent == sentBefore
      && if first.Raised? || first.value == ADDED then
           r == Added(first) && syncBlocks == blocks && core.Chain() == Grown(env, chain, block, clock(0))
         else if requested.Some? then
           r == Ok(true) && syncBlocks == [block] + blocks && core.Chain() == chain
         else
           r == Added(second) && syncBlocks == blocks && core.Chain() == Grown(env, chain, block, clock(1))
    }

    /**
     A new block that does not fit the chain is put in front of the blocks being fetched, unchecked; when
     nothing is being fetched it is tried once more.
     */
    method HandleReceivedNewBlock(hash: Hash, block: Block, clock: nat -> nat) returns (r: Result<bool>)
      requires core.Valid() && this !in core.Repr() && hash == block.hash
      modifies this, core.Repr()
      ensures core.Valid() && peerState == old(peerState)
      ensures NewsHandled(old(requestedBlock), old(syncBlocks), old(sent), old(core.Chain()), block, clock, r)
      ensures var env, chain := core.executor.env, old(core.Chain());
              core.Chain() != chain <==>
                || Accepts(env, chain, block, clock(0))
                || (old(requestedBlock).None? && Answer(env, chain, block, clock(0)).Ok?
                    && Accepts(env, chain, block, clock(1)))
    {
      hide Core.Valid, Accepts, Answer, HasHash;
      AnswerCases(core.executor.env, core.Chain(), block, clock(0));
      var added := core.TryAddBlock(block, clock(0));
      if added.Raised? {
        return Raised(added.error);
      }
      if added.value == ADDED {
        return Ok(true);
      }
      if requestedBlock.Some? {
        syncBlocks := [block] + syncBlocks;
        return Ok(true);
      }
      AnswerCases(core.executor.env, core.Chain(), block, clock(1));
      added := core.TryAddBlock(block, clock(1));
      if added.Raised? {
        return Raised(added.error);
      }
      return Ok(added.value == ADDED);
    }
  }

  /** `Peer::handle(msg::GetBlock)`: BLOCK or BLOCK_NOT_FOUND. */
  function HandleGetBlock(core: Core, hash: Hash): (reply: Option<Block>)
    requires core.Valid()
    reads core.Repr()
    ensures reply.Some? <==> HasHash(core.Chain(), hash)
    ensures reply.Some? ==> reply.value in core.Chain() && reply.value.hash == hash
  {
    core.FindBlock(hash)
  }

  // ---------- an honest peer ahead of us ----------

  /** A chain that some node with this environment has grown. */
  ghost predicate Honest(env: Env, chain: seq<Block>) {
    env.Sane() && WellFormed(chain) && Checked(env, chain)
  }

  ghost predicate RaisesAt(env: Env, chain: seq<Block>, i: nat)
    requires env.Sane() && 1 <= i < |chain|
  {
    Raises(env, chain[..i], chain[i])
  }

  /** On its own prefix an honest block is accepted or not by the clock alone; elsewhere it is refused. */
  lemma {:induction false} HonestBlock(env: Env, remote: seq<Block>, n: nat, i: nat, now: nat)
    requires Honest(env, remote) && 1 <= n <= |remote| && 1 <= i < |remote|
    ensures Accepts(env, remote[..n], remote[i], now) <==> i == n && remote[i].timestamp <= Horizon(now)
    ensures i > n ==> Answer(env, remote[..n], remote[i], now).Ok?
    ensures i >= n && !Accepts(env, remote[..n], remote[i], now) ==> Answer(env, remote[..n], remote[i], now).Ok?
    ensures i == n && Accepts(env, remote[..n], remote[i], now) ==>
              (Answer(env, remote[..n], remote[i], now).Raised? <==> RaisesAt(env, remote, n))
  {
    hide LedgerOf, SendersCanPay, Pool.CostOverflows, Raises;
    Persistent.OutOfOrder(remote, n, i, now);
    assert i == n ==> Admissible(remote[..i], remote[i]);
  }

  /**
   Replaying what is missing ends with the whole of it exactly when the clock accepts every timestamp
   and no block but the last one raises; and it raises when that last one does.
   */
  lemma {:induction false} HonestReplay(env: Env, remote: seq<Block>, n: nat, m: nat, clock: nat -> nat, k: nat)
    requires Honest(env, remote) && 1 <= n <= m <= |remote|
    ensures var replay := Replayed(env, remote[..n], remote[n..m], clock, k);
            && (replay.chain == remote[..m] <==> Smooth(env, remote, n, m, clock, k))
            && (Smooth(env, remote, n, m, clock, k) ==> (replay.raised <==> n < m && RaisesAt(env, remote, m - 1)))
            && replay.chain <= remote[..m]
    decreases m - n
  {
    hide Accepts, Answer, RaisesAt, WellFormed, Checked, Horizon, Env.Sane;
    if n < m {
      HonestStep(env, remote, n, m, clock, k);
      SmoothStep(env, remote, n, m, clock, k);
      hide Replayed, Smooth;
      HonestReplay(env, remote, n + 1, m, clock, k + 1);
      assert |remote[..m]| == m && |remote[..n]| == n && |remote[..n + 1]| == n + 1;
    } else {
      assert remote[n..m] == [];
    }
  }

  lemma {:induction false} HonestStep(env: Env, remote: seq<Block>, n: nat, m: nat, clock: nat -> nat, k: nat)
    requires Honest(env, remote) && 1 <= n < m <= |remote|
    ensures Replayed(env, remote[..n], remote[n..m], clock, k) ==
            if remote[n].timestamp > Horizon(clock(k)) then Replay(remote[..n], false)
            else if RaisesAt(env, remote, n) then Replay(remote[..n + 1], true)
            else Replayed(env, remote[..n + 1], remote[n + 1..m], clock, k + 1)
  {
    hide Accepts, Answer, RaisesAt, WellFormed, Checked, Horizon;
    HonestBlock(env, remote, n, n, clock(k));
    assert remote[n..m][0] == remote[n] && remote[n..m][1..] == remote[n + 1..m];
    assert remote[..n] + [remote[n]] == remote[..n + 1];
  }

  ghost predicate Smooth(env: Env, remote: seq<Block>, n: nat, m: nat, clock: nat -> nat, k: nat)
    requires env.Sane() && 1 <= n <= m <= |remote|
  {
    forall i :: n <= i < m ==>
      remote[i].timestamp <= Horizon(clock(k + i - n)) && (i < m - 1 ==> !RaisesAt(env, remote, i))
  }

  lemma {:induction false} SmoothStep(env: Env, remote: seq<Block>, n: nat, m: nat, clock: nat -> nat, k: nat)
    requires env.Sane() && 1 <= n < m <= |remote|
    ensures Smooth(env, remote, n, m, clock, k) <==>
            && remote[n].timestamp <= Horizon(clock(k)) && (n < m - 1 ==> !RaisesAt(env, remote, n))
            && Smooth(env, remote, n + 1, m, clock, k + 1)
  {
    hide RaisesAt, Horizon;
    if Smooth(env, remote, n, m, clock, k) {
      forall i | n + 1 <= i < m
        ensures remote[i].timestamp <= Horizon(clock(k + 1 + i - (n + 1))) && (i < m - 1 ==> !RaisesAt(env, remote, i))
      {
        assert k + 1 + i - (n + 1) == k + i - n;
      }
    }
    if && remote[n].timestamp <= Horizon(clock(k)) && (n < m - 1 ==> !RaisesAt(env, remote, n))
       && Smooth(env, remote, n + 1, m, clock, k + 1)
    {
      forall i | n <= i < m
        ensures remote[i].timestamp <= Horizon(clock(k + i - n)) && (i < m - 1 ==> !RaisesAt(env, remote, i))
      {
        if i > n { assert k + 1 + i - (n + 1) == k + i - n; }
      }
    }
  }

  ghost predicate PlainAt(env: Env, chain: seq<Block>, i: nat)
    requires env.Sane() && 1 <= i < |chain|
  {
    AllPlain(LedgerOf(env, chain[..i]), chain[i].txs) && Pool.DistinctSenders(chain[i].txs)
  }

  /** Where the missing blocks hold plain transfers from distinct senders, the clock alone decides. */
  lemma {:induction false} PlainIsSmooth(env: Env, remote: seq<Block>, n: nat, m: nat, clock: nat -> nat, k: nat)
    requires Honest(env, remote) && 1 <= n <= m <= |remote|
    requires forall i :: n <= i < m ==> PlainAt(env, remote, i)
    ensures Smooth(env, remote, n, m, clock, k) <==>
            forall i :: n <= i < m ==> remote[i].timestamp <= Horizon(clock(k + i - n))
    ensures forall i :: n <= i < m ==> !RaisesAt(env, remote, i)
  {
    hide Horizon, LedgerOf, Raises, SendersCanPay, WellFormed, AllPlain, Pool.DistinctSenders;
    forall i | n <= i < m ensures !RaisesAt(env, remote, i) {
      assert PlainAt(env, remote, i);
      PlainNeverRaises(env, remote[..i], remote[i]);
    }
    hide RaisesAt;
  }

  /** The blocks fetched so far are linked to each other, and the oldest one to the block requested next. */
  ghost predicate Linked(blocks: seq<Block>, requested: Hash) {
    && (forall i :: 0 <= i < |blocks| - 1 ==> blocks[i].prevHash == blocks[i + 1].hash)
    && (blocks != [] ==> blocks[|blocks| - 1].prevHash == requested)
  }

  lemma {:induction false} FetchedLinked(remote: seq<Block>, p: nat, top: nat)
    requires WellFormed(remote) && p <= top < |remote|
    ensures Linked(Reversed(remote[p + 1..top + 1]), remote[p].hash)
  {
    hide WellFormed;
    var blocks := Reversed(remote[p + 1..top + 1]);
    forall i | 0 <= i < |blocks| - 1 ensures blocks[i].prevHash == blocks[i + 1].hash {
      LinkAt(remote, top - i);
    }
    if blocks != [] {
      assert blocks[|blocks| - 1] == remote[p + 1];
      LinkAt(remote, p + 1);
    }
  }

  lemma {:induction false} LinkAt(remote: seq<Block>, i: nat)
    requires WellFormed(remote) && 1 <= i < |remote|
    ensures remote[i].prevHash == remote[i - 1].hash
  {
    Shape(remote, 0, i);
  }

  /** Where the exchange stands: block `p` of the peer is requested, the blocks above it up to `t` are here. */
  ghost predicate Fetching(sync: Synchronizer, remote: seq<Block>, n: nat, p: nat, t: nat)
    reads sync, sync.core.blockchain.base
  {
    && 1 <= n <= p <= t < |remote|
    && sync.core.Chain() == remote[..n]
    && sync.requestedBlock == Some(remote[p].hash)
    && sync.syncBlocks == Reversed(remote[p + 1..t + 1])
  }

  /** Block `p` came back with a null back-link: it is taken for another genesis block and the exchange is over. */
  ghost predicate Abandoned(sync: Synchronizer, remote: seq<Block>, n: nat, p: nat, t: nat)
    reads sync, sync.core.blockchain.base
  {
    && 1 <= n <= p <= t < |remote|
    && sync.core.Chain() == remote[..n]
    && sync.requestedBlock == None
    && sync.syncBlocks == Reversed(remote[p..t + 1])
  }

  /** No block from `n - 1` up to below `depth` has the null hash. */
  ghost predicate NullFree(chain: seq<Block>, n: nat, depth: nat)
    requires 1 <= n <= depth < |chain|
  {
    forall i :: n - 1 <= i < depth ==> chain[i].hash != NULL_HASH
  }

  /** Hash lookups of the honest peer and of us, whose chain is its first `n` blocks. */
  lemma {:induction false} PrefixHashes(remote: seq<Block>, n: nat, i: nat)
    requires WellFormed(remote) && n <= |remote| && i < |remote|
    ensures HasHash(remote, remote[i].hash)
    ensures HasHash(remote[..n], remote[i].hash) <==> i < n
    ensures forall b :: b in remote && b.hash == remote[i].hash ==> b == remote[i]
  {
    if i < n { assert remote[..n][i].hash == remote[i].hash; }
    forall j | 0 <= j < |remote| && remote[j].hash == remote[i].hash ensures j == i {
      if j < i { Shape(remote, j, i); } else if i < j { Shape(remote, i, j); }
    }
  }

  /** What one BLOCK message does to the exchange: one step further down, or the apply loop. */
  method Fed(sync: Synchronizer, ghost chain: seq<Block>, block: Block, clock: nat -> nat, ghost n: nat, ghost p: nat,
             ghost t: nat)
    returns (r: Result<()>)
    requires sync.core.Valid() && sync !in sync.core.Repr() && WellFormed(chain)
    requires Fetching(sync, chain, n, p, t) && block == chain[p]
    modifies sync, sync.core.Repr()
    ensures sync.core.Valid() && sync.peerState == old(sync.peerState)
    ensures chain[p - 1].hash == NULL_HASH ==> r.Ok? && Abandoned(sync, chain, n, p, t) && sync.sent == old(sync.sent)
    ensures chain[p - 1].hash != NULL_HASH && p > n ==>
            r.Ok? && Fetching(sync, chain, n, p - 1, t) && sync.sent == old(sync.sent) + [chain[p - 1].hash]
    ensures chain[p - 1].hash != NULL_HASH && p == n ==>
              var replay := Replayed(sync.core.executor.env, chain[..n], chain[n..t + 1], clock, 0);
              && sync.core.Chain() == replay.chain && sync.requestedBlock == None && sync.sent == old(sync.sent)
              && (r.Raised? <==> replay.raised) && (r.Raised? ==> r.error != RuntimeError)
              && (r.Ok? ==> sync.syncBlocks == [])
  {
    hide Core.Valid, HasHash, Replayed, WellFormed, Reversed;
    StepDown(chain, n, p, t);
    r := sync.HandleBlock(block.hash, block, clock);
  }

  /** The peer looks the requested block up and sends it. */
  method Answered(sync: Synchronizer, remote: Core, clock: nat -> nat, ghost n: nat, ghost p: nat, ghost t: nat)
    returns (r: Result<()>)
    requires sync.core.Valid() && remote.Valid() && sync !in sync.core.Repr() && sync !in remote.Repr()
    requires sync.core.Repr() !! remote.Repr()
    requires Fetching(sync, remote.Chain(), n, p, t)
    modifies sync, sync.core.Repr()
    ensures sync.core.Valid() && remote.Valid() && remote.Chain() == old(remote.Chain())
    ensures sync.peerState == old(sync.peerState)
    ensures remote.Chain()[p - 1].hash == NULL_HASH ==>
              r.Ok? && Abandoned(sync, remote.Chain(), n, p, t) && sync.sent == old(sync.sent)
    ensures remote.Chain()[p - 1].hash != NULL_HASH && p > n ==>
              r.Ok? && Fetching(sync, remote.Chain(), n, p - 1, t) && |sync.sent| == |old(sync.sent)| + 1
    ensures remote.Chain()[p - 1].hash != NULL_HASH && p == n ==>
              var replay := Replayed(sync.core.executor.env, remote.Chain()[..n], remote.Chain()[n..t + 1], clock, 0);
              && sync.core.Chain() == replay.chain && sync.requestedBlock == None && sync.sent == old(sync.sent)
              && (r.Raised? <==> replay.raised) && (r.Raised? ==> r.error != RuntimeError)
              && (r.Ok? ==> sync.syncBlocks == [])
  {
    hide Core.Valid, Core.FindBlock, HasHash, Replayed, WellFormed, Reversed, HandleGetBlock;
    ghost var chain := remote.Chain();
    ValidIsHonest(remote);
    PrefixHashes(chain, n, p);
    var reply := HandleGetBlock(remote, sync.requestedBlock.value);
    assert reply == Some(chain[p]);
    label Before:
    r := Fed(sync, chain, reply.value, clock, n, p, t);
    StaysValid@Before(remote);
  }

  lemma {:induction false} StepDown(chain: seq<Block>, n: nat, p: nat, t: nat)
    requires WellFormed(chain) && 1 <= n <= p <= t < |chain|
    ensures chain[p].prevHash == chain[p - 1].hash
    ensures HasHash(chain[..n], chain[p - 1].hash) <==> p == n
    ensures Reversed(chain[p + 1..t + 1]) + [chain[p]] == Reversed(chain[p..t + 1])
    ensures Reversed(Reversed(chain[p..t + 1])) == chain[p..t + 1]
  {
    hide WellFormed, HasHash, Reversed;
    LinkAt(chain, p);
    PrefixHashes(chain, n, p - 1);
    ReversedCons(chain, p, t);
    ReversedTwice(chain[p..t + 1]);
  }

  lemma {:induction false} ReversedCons(chain: seq<Block>, p: nat, t: nat)
    requires p <= t < |chain|
    ensures Reversed(chain[p + 1..t + 1]) + [chain[p]] == Reversed(chain[p..t + 1])
  {
    var longer, shorter := Reversed(chain[p..t + 1]), Reversed(chain[p + 1..t + 1]) + [chain[p]];
    assert |longer| == |shorter|;
    forall i | 0 <= i < |longer| ensures longer[i] == shorter[i] {}
  }

  lemma {:induction false} ReversedTwice(s: seq<Block>)
    ensures Reversed(Reversed(s)) == s
  {
    forall i | 0 <= i < |s| ensures Reversed(Reversed(s))[i] == s[i] {}
  }

  lemma {:induction false} ValidIsHonest(core: Core)
    requires core.Valid()
    ensures Honest(core.executor.env, core.Chain())
  {}

  /** The peer announces the next block of its chain while we are fetching: the fetched run grows by it. */
  method Announced(sync: Synchronizer, ghost chain: seq<Block>, block: Block, clock: nat -> nat, ghost n: nat,
                   ghost p: nat, ghost t: nat)
    requires sync.core.Valid() && sync !in sync.core.Repr() && Honest(sync.core.executor.env, chain)
    requires Fetching(sync, chain, n, p, t) && t + 1 < |chain| && block == chain[t + 1]
    modifies sync, sync.core.Repr()
    ensures sync.core.Valid() && Fetching(sync, chain, n, p, t + 1)
    ensures sync.sent == old(sync.sent) && sync.peerState == old(sync.peerState)
  {
    hide Core.Valid, HasHash, WellFormed, Checked, Answer, Accepts, Reversed;
    NewsRefused(sync.core.executor.env, chain, n, t + 1, clock(0));
    ReversedSnoc(chain, p, t);
    var r := sync.HandleReceivedNewBlock(block.hash, block, clock);
  }

  lemma {:induction false} NewsRefused(env: Env, remote: seq<Block>, n: nat, i: nat, now: nat)
    requires Honest(env, remote) && 1 <= n < i < |remote|
    ensures Answer(env, remote[..n], remote[i], now).Ok? && Answer(env, remote[..n], remote[i], now).value != ADDED
  {
    HonestBlock(env, remote, n, i, now);
    AnswerCases(env, remote[..n], remote[i], now);
  }

  lemma {:induction false} ReversedSnoc(chain: seq<Block>, p: nat, t: nat)
    requires p <= t && t + 1 < |chain|
    ensures [chain[t + 1]] + Reversed(chain[p + 1..t + 1]) == Reversed(chain[p + 1..t + 2])
  {
    var longer, shorter := Reversed(chain[p + 1..t + 2]), [chain[t + 1]] + Reversed(chain[p + 1..t + 1]);
    assert |longer| == |shorter|;
    forall i | 0 <= i < |longer| ensures longer[i] == shorter[i] {}
  }

  /** Where the exchange leaves us: with the peer's chain up to block `last` exactly if nothing stood in the way. */
  ghost predicate Synced(sync: Synchronizer, env: Env, chain: seq<Block>, n: nat, depth: nat, last: nat,
                         clock: nat -> nat, r: Result<()>)
    requires env.Sane() && 1 <= n <= depth <= last < |chain|
    reads sync, sync.core.blockchain.base
  {
    var nothingInTheWay := NullFree(chain, n, depth) && Smooth(env, chain, n, last + 1, clock, 0);
    && (sync.core.Chain() == chain[..last + 1] <==> nothingInTheWay)
    && sync.core.Chain() <= chain[..last + 1]
    && (nothingInTheWay ==> (r.Raised? <==> RaisesAt(env, chain, last)))
    && (!NullFree(chain, n, depth) ==> r.Ok? && sync.core.Chain() == chain[..n])
    && (NullFree(chain, n, depth) && r.Ok? ==> sync.syncBlocks == [])
    && (r.Raised? ==> r.error != RuntimeError)
  }

  /**
   The whole exchange with an honest peer whose chain extends ours. It takes exactly one request per
   missing block below the announced top, never finds a request outstanding, keeps the fetched blocks
   linked, and ends with the peer's chain up to the last block announced (news may come before any
   answer) exactly when the clock accepts it all and no block but the last raises in the accounts. A null
   hash on the way, which the program takes for the parent of a genesis block, ends it with nothing applied.
   */
  method Synchronise(sync: Synchronizer, remote: Core, depth: nat, news: nat -> nat, newsClock: nat -> nat,
                     clock: nat -> nat)
    returns (r: Result<()>, ghost last: nat)
    requires sync.core.Valid() && remote.Valid() && sync !in sync.core.Repr() && sync !in remote.Repr()
    requires sync.core.Repr() !! remote.Repr() && sync.core.executor.env == remote.executor.env
    requires sync.requestedBlock == None && sync.syncBlocks == []
    requires |sync.core.Chain()| <= depth < |remote.Chain()| && sync.core.Chain() <= remote.Chain()
    modifies sync, sync.core.Repr()
    ensures sync.core.Valid() && remote.Chain() == old(remote.Chain()) && Honest(remote.executor.env, remote.Chain())
    ensures sync.requestedBlock == None && sync.peerState == REQUESTED_BLOCKS
    ensures var n := |old(sync.core.Chain())|;
            && depth <= last < |remote.Chain()|
            && |sync.sent| <= |old(sync.sent)| + (depth + 1 - n)
            && (NullFree(remote.Chain(), n, depth) ==> |sync.sent| == |old(sync.sent)| + (depth + 1 - n))
            && Synced(sync, remote.executor.env, remote.Chain(), n, depth, last, clock, r)
  {
    hide Core.Valid, HasHash, WellFormed, Checked, Smooth, RaisesAt, Replayed, Env.Sane;
    ghost var n, chain := |sync.core.Chain()|, remote.Chain();
    ValidIsHonest(remote);
    DepthFits(chain, depth);
    var announced := remote.FindBlockHash(depth);
    assert sync.core.Chain() == chain[..n];
    label Before:
    Begin(sync, chain, announced.value, n, depth);
    StaysValid@Before(remote);
    ghost var cut;
    r, last, cut := Exchange(sync, remote, depth, news, newsClock, clock, n);
    HonestReplay(remote.executor.env, chain, n, last + 1, clock, 0);
    assert |chain[..n]| == n && |chain[..last + 1]| == last + 1;
    if chain[cut - 1].hash == NULL_HASH {
      assert !NullFree(chain, n, depth);
    }
  }

  /** The peer announces its top block, which we do not have, and we request it. */
  method Begin(sync: Synchronizer, ghost chain: seq<Block>, announced: Hash, ghost n: nat, ghost depth: nat)
    requires sync.core.Valid() && sync !in sync.core.Repr() && WellFormed(chain)
    requires 1 <= n <= depth < |chain| && sync.core.Chain() == chain[..n] && announced == chain[depth].hash
    requires sync.requestedBlock == None && sync.syncBlocks == []
    modifies sync
    ensures sync.core.Valid() && Fetching(sync, chain, n, depth, depth)
    ensures sync.peerState == REQUESTED_BLOCKS && |sync.sent| == |old(sync.sent)| + 1
  {
    hide Core.Valid, HasHash, WellFormed, Reversed;
    PrefixHashes(chain, n, depth);
    NothingFetched(chain, depth);
    var r := sync.HandleReceivedTopBlockHash(announced);
  }

  /** How the exchange ends, after block `cut` came back: with the replay, unless the block before has a null hash. */
  ghost predicate Ended(sync: Synchronizer, env: Env, chain: seq<Block>, n: nat, depth: nat, cut: nat, last: nat,
                        clock: nat -> nat, r: Result<()>)
    requires env.Sane()
    reads sync, sync.core.blockchain.base
  {
    && 1 <= n <= cut <= depth <= last < |chain|
    && (forall i :: cut <= i < depth ==> chain[i].hash != NULL_HASH)
    && if chain[cut - 1].hash == NULL_HASH then
         r.Ok? && Abandoned(sync, chain, n, cut, last)
       else
         var replay := Replayed(env, chain[..n], chain[n..last + 1], clock, 0);
         && cut == n && sync.core.Chain() == replay.chain
         && (r.Raised? <==> replay.raised) && (r.Raised? ==> r.error != RuntimeError)
         && (r.Ok? ==> sync.syncBlocks == [])
  }

  /** The message loop, from the first request to the answer that sets off the apply loop. */
  method Exchange(sync: Synchronizer, remote: Core, depth: nat, news: nat -> nat, newsClock: nat -> nat,
                  clock: nat -> nat,
                  ghost n: nat)
    returns (r: Result<()>, ghost last: nat, ghost cut: nat)
    requires sync.core.Valid() && remote.Valid() && sync !in sync.core.Repr() && sync !in remote.Repr()
    requires sync.core.Repr() !! remote.Repr() && sync.core.executor.env == remote.executor.env
    requires Fetching(sync, remote.Chain(), n, depth, depth)
    modifies sync, sync.core.Repr()
    ensures sync.core.Valid() && remote.Valid() && remote.Chain() == old(remote.Chain())
    ensures sync.requestedBlock == None && sync.peerState == old(sync.peerState)
    ensures n <= cut <= depth && |sync.sent| == |old(sync.sent)| + (depth - cut)
    ensures remote.executor.env.Sane()
            && Ended(sync, remote.executor.env, remote.Chain(), n, depth, cut, last, clock, r)
  {
    hide Core.Valid, HasHash, WellFormed, Checked, Reversed, Replayed, Linked, Env.Sane;
    ghost var chain := remote.Chain();
    ValidIsHonest(remote);
    FetchedLinked(chain, depth, depth);
    ghost var p: nat := depth;
    var t, round := depth, 0;
    while true
      invariant p <= depth <= t
      invariant sync.core.Valid() && remote.Valid() && remote.Chain() == chain
      invariant Fetching(sync, chain, n, p, t) && Linked(sync.syncBlocks, sync.requestedBlock.value)
      invariant forall i :: p <= i < depth ==> chain[i].hash != NULL_HASH
      invariant |sync.sent| == |old(sync.sent)| + (depth - p) && sync.peerState == old(sync.peerState)
      decreases p
    {
      t := Announcements(sync, remote, news(round), newsClock, n, p, t);
      r := Answered(sync, remote, clock, n, p, t);
      if sync.requestedBlock.None? {
        last, cut := t, p;
        return;
      }
      p, round := p - 1, round + 1;
      FetchedLinked(chain, p, t);
    }
  }

  lemma {:induction false} NothingFetched(chain: seq<Block>, depth: nat)
    requires depth < |chain|
    ensures Reversed(chain[depth + 1..depth + 1]) == []
  {}

  /** Up to `count` announcements, as long as the peer has further blocks. */
  method Announcements(sync: Synchronizer, remote: Core, count: nat, clock: nat -> nat, ghost n: nat, ghost p: nat,
                       t: nat)
    returns (t': nat)
    requires sync.core.Valid() && remote.Valid() && sync !in sync.core.Repr() && sync !in remote.Repr()
    requires sync.core.Repr() !! remote.Repr() && sync.core.executor.env == remote.executor.env
    requires Fetching(sync, remote.Chain(), n, p, t)
    modifies sync, sync.core.Repr()
    ensures sync.core.Valid() && remote.Valid() && remote.Chain() == old(remote.Chain())
    ensures t <= t' && Fetching(sync, remote.Chain(), n, p, t')
    ensures sync.sent == old(sync.sent) && sync.peerState == old(sync.peerState)
  {
    hide Core.Valid, HasHash, WellFormed, Checked, Reversed;
    t' := t;
    for j := 0 to count
      invariant sync.core.Valid() && remote.Valid() && remote.Chain() == old(remote.Chain())
      invariant t <= t' && Fetching(sync, remote.Chain(), n, p, t')
      invariant sync.sent == old(sync.sent) && sync.peerState == old(sync.peerState)
    {
      ValidIsHonest(remote);
      DepthFits(remote.Chain(), t');
      if t' + 1 < 0x1_00000000_00000000 {
        var hash := remote.FindBlockHash(t' + 1);
        if hash.Some? {
          PrefixHashes(remote.Chain(), n, t' + 1);
          var block := remote.FindBlock(hash.value);
          label Before:
          Announced(sync, remote.Chain(), block.value, clock, n, p, t');
          StaysValid@Before(remote);
          t' := t' + 1;
        }
      }
    }
  }

  lemma {:induction false} DepthFits(chain: seq<Block>, i: nat)
    requires WellFormed(chain) && 1 <= i < |chain|
    ensures i < 0x1_00000000_00000000
  {
    Shape(chain, 0, i);
  }
}
