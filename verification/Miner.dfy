/**
 The hand-off of jobs between the node and its mining threads (src/node/miner.cpp).

 The sections under the lock are single steps, and so is each unlocked load of the version; a run is any
 interleaving of orders to the miner and steps of the workers. The hash function and the seeds of the
 nonces are arbitrary.
 */
module Miner {
  import opened Types
  import opened Blocks
  import opened Positional
  import opened Consensus

  datatype Task = NONE | DROP_JOB | FIND_NONCE | EXIT

  datatype CommonData = CommonData(task: Task, block: Option<Block>, complexity: Option<Complexity>)

  const NOTHING: CommonData := CommonData(NONE, None, None)

  const DROPPED: CommonData := CommonData(DROP_JOB, None, None)

  /** The public calls of `Miner`: findNonce, dropJob and stop. */
  datatype Order = FindNonce(block: Block, complexity: Complexity) | DropJob | Stop {
    function Data(): CommonData {
      match this
      case FindNonce(b, c) => CommonData(FIND_NONCE, Some(b), Some(c))
      case DropJob => NOTHING
      case Stop => CommonData(EXIT, None, None)
    }
  }

  const VERSIONS: nat := 0x1_00000000_00000000

  /** The counter after everything in `log` was published, the initial value first. */
  function VersionOf(log: seq<CommonData>): Uint64
    requires |log| > 0
  {
    (|log| - 1) % VERSIONS
  }

  function Latest(log: seq<CommonData>): CommonData
    requires |log| > 0
  {
    log[|log| - 1]
  }

  /** The publications after a block was offered: the standing job, if there is one, is dropped for it. */
  function AfterOffer(log: seq<CommonData>): seq<CommonData>
    requires |log| > 0
  {
    if Latest(log).task == FIND_NONCE then log + [DROPPED] else log
  }

  // ---------- CommonState ----------

  class CommonState {
    var version: Uint64
    var commonData: CommonData
    /** Every value of `commonData`, in order. */
    ghost var log: seq<CommonData>

    ghost predicate Valid()
      reads this
    {
      |log| > 0 && version == VersionOf(log) && commonData == Latest(log)
    }

    constructor (initial: CommonData)
      ensures Valid() && log == [initial]
    {
      version := 0;
      commonData := initial;
      log := [initial];
    }

    function GetVersion(): Uint64
      reads this
    {
      version
    }

    method SetCommonData(data: CommonData)
      requires Valid()
      modifies this
      ensures Valid() && log == old(log) + [data]
    {
      Counts(log);
      version := (version + 1) % VERSIONS;
      commonData := data;
      log := log + [data];
    }

    /** `handed` is what the handler is then called with, outside the lock. */
    method CallHandlerAndDrop(block: Block) returns (handed: Option<Block>)
      requires Valid()
      modifies this
      ensures Valid()
      ensures handed == if old(commonData).task == FIND_NONCE then Some(block) else None
      ensures log == AfterOffer(old(log))
    {
      if commonData.task != FIND_NONCE {
        return None;
      }
      Counts(log);
      version := (version + 1) % VERSIONS;
      commonData := commonData.(task := DROP_JOB);
      commonData := commonData.(block := None);
      commonData := commonData.(complexity := None);
      log := log + [commonData];
      return Some(block);
    }

    /** One wake-up: nothing while the version is the one last read. */
    method WaitAndReadNewData(lastReadVersion: Uint64) returns (read: Option<(Uint64, CommonData)>)
      requires Valid()
      ensures read == if VersionOf(log) == lastReadVersion then None else Some((VersionOf(log), Latest(log)))
    {
      if GetVersion() == lastReadVersion {
        return None;
      }
      return Some((GetVersion(), commonData));
    }
  }

  lemma {:induction false} Counts(log: seq<CommonData>)
    requires |log| > 0
    ensures |log| % VERSIONS == (VersionOf(log) + 1) % VERSIONS
  {
    var q := (|log| - 1) / VERSIONS;
    assert |log| == q * VERSIONS + VersionOf(log) + 1;
    EuclidUnique(VERSIONS, |log| / VERSIONS, |log| % VERSIONS,
                 if VersionOf(log) + 1 == VERSIONS then q + 1 else q, (VersionOf(log) + 1) % VERSIONS);
  }

  // ---------- one worker's search ----------

  /** What is hashed of a block: everything but the hash it carries. */
  function Bare(b: Block): Block {
    b.(hash := NULL_HASH)
  }

  /** The immutable block of the job with this nonce. */
  function Sealed(sha: Block -> Hash, job: Block, nonce: Uint64): Block {
    var b := job.(nonce := nonce);
    b.(hash := sha(Bare(b)))
  }

  /** `attempting_nonce` after `j` increments. */
  function NonceAfter(seed: Uint64, j: nat): Uint64 {
    (seed + j) % VERSIONS
  }

  function Candidates(sha: Block -> Hash, job: Block, comparer: Hash, seed: Uint64, n: nat): seq<Block> {
    if n == 0 then [] else
      var b := Sealed(sha, job, NonceAfter(seed, n - 1));
      Candidates(sha, job, comparer, seed, n - 1) + if LexLess(b.hash, comparer) then [b] else []
  }

  /** How many loads in a row return `version`. */
  function Unchanged(version: Uint64, loads: seq<Uint64>): (n: nat)
    ensures n <= |loads|
  {
    if |loads| > 0 && loads[0] == version then 1 + Unchanged(version, loads[1..]) else 0
  }

  lemma {:induction false} UnchangedAt(version: Uint64, loads: seq<Uint64>, i: nat)
    requires i <= |loads| && forall k :: 0 <= k < i ==> loads[k] == version
    ensures (i < |loads| && loads[i] == version) || Unchanged(version, loads) == i
  {
    if i == 0 {
    } else {
      UnchangedAt(version, loads[1..], i - 1);
    }
  }

  /**
   The inner loop of `MinerWorker::worker`; `loads` is what its loads of the version return, and the
   candidates are the blocks it offers to callHandlerAndDrop.
   */
  method Search(sha: Block -> Hash, job: Block, complexity: Complexity, seed: Uint64, version: Uint64,
                loads: seq<Uint64>)
    returns (candidates: seq<Block>)
    ensures candidates == Candidates(sha, job, complexity.comparer, seed, Unchanged(version, loads))
  {
    var comparer := complexity.comparer;
    var b := job;
    var attemptingNonce := seed;
    candidates := [];
    var i := 0;
    while i < |loads| && loads[i] == version
      invariant 0 <= i <= |loads| && forall k :: 0 <= k < i ==> loads[k] == version
      invariant attemptingNonce == NonceAfter(seed, i) && b == job.(nonce := b.nonce)
      invariant candidates == Candidates(sha, job, comparer, seed, i)
    {
      b := b.(nonce := attemptingNonce);
      attemptingNonce := (attemptingNonce + 1) % VERSIONS;
      NextNonce(seed, i);
      if LexLess(sha(Bare(b)), comparer) {
        candidates := candidates + [b.(hash := sha(Bare(b)))];
      }
      i := i + 1;
    }
    UnchangedAt(version, loads, i);
  }

  /** The nonces start at the seed and go up by one, from the last 64-bit number to zero. */
  lemma {:induction false} NextNonce(seed: Uint64, j: nat)
    ensures NonceAfter(seed, 0) == seed
    ensures NonceAfter(seed, j + 1) == (NonceAfter(seed, j) + 1) % VERSIONS
  {
    var q := (seed + j) / VERSIONS;
    var r := NonceAfter(seed, j);
    EuclidUnique(VERSIONS, (seed + j + 1) / VERSIONS, (seed + j + 1) % VERSIONS,
                 if r + 1 == VERSIONS then q + 1 else q, (r + 1) % VERSIONS);
  }

  /** A sealed block is the job but for nonce and hash, and the hash is that of everything else in it. */
  lemma {:induction false} SealedIff(sha: Block -> Hash, job: Block, nonce: Uint64, b: Block)
    ensures b == Sealed(sha, job, nonce) <==>
            b == job.(nonce := nonce, hash := b.hash) && b.hash == sha(b.(hash := NULL_HASH))
  {}

  /** They are offered in the order the nonces are tried in. */
  lemma {:induction false} CandidatesInOrder(sha: Block -> Hash, job: Block, comparer: Hash, seed: Uint64, m: nat,
                                             n: nat)
    requires m <= n
    ensures Candidates(sha, job, comparer, seed, m) <= Candidates(sha, job, comparer, seed, n)
  {
    if m == n {
    } else {
      CandidatesInOrder(sha, job, comparer, seed, m, n - 1);
    }
  }

  /** What is offered are the blocks of the job that meet its complexity, over the nonces tried. */
  lemma {:induction false} CandidatesIff(sha: Block -> Hash, job: Block, comparer: Hash, seed: Uint64, n: nat, b: Block)
    ensures b in Candidates(sha, job, comparer, seed, n) <==>
            exists j :: 0 <= j < n && b == Sealed(sha, job, NonceAfter(seed, j))
                        && Value(256, b.hash) < Value(256, comparer)
  {
    hide NonceAfter, LexLess, Value;
    LexLessIsNumeric(256, b.hash, comparer);
    if n == 0 {
    } else {
      CandidatesIff(sha, job, comparer, seed, n - 1, b);
      if b == Sealed(sha, job, NonceAfter(seed, n - 1)) && LexLess(b.hash, comparer) {
        assert 0 <= n - 1 < n;
      }
    }
  }

  /** No nonce is tried twice before all 2^64 were. */
  lemma {:induction false} NoncesDistinct(seed: Uint64, i: nat, j: nat)
    requires i < j < i + VERSIONS
    ensures NonceAfter(seed, i) != NonceAfter(seed, j)
  {
    var (p, q) := ((seed + i) / VERSIONS, (seed + j) / VERSIONS);
    assert seed + i == p * VERSIONS + NonceAfter(seed, i) && seed + j == q * VERSIONS + NonceAfter(seed, j);
    if p < q { assert (q - p) * VERSIONS >= VERSIONS; }
  }
}
