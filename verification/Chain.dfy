/** Chains as plain sequences of blocks: what `Blockchain` and `Consensus` are measured against. */
module Chain {
  import opened Blocks
  import opened Positional
  import opened Consensus

  const MAX_TRANSACTIONS_IN_BLOCK: nat := 100
  const SECONDS_IN_DAY: nat := 24 * 60 * 60

  datatype AdditionResult =
    | ADDED
    | ALREADY_IN_BLOCKCHAIN
    | INVALID_PARENT_HASH
    | INVALID_DEPTH
    | OLD_TIMESTAMP
    | FUTURE_TIMESTAMP
    | INVALID_TRANSACTIONS_NUMBER
    | INVALID_TRANSACTIONS
    | CONSENSUS_ERROR

  /** The latest timestamp accepted when the system clock reads `now` seconds; the sum is 32-bit. */
  function Horizon(now: nat): Uint32 {
    (now % 0x1_00000000 + SECONDS_IN_DAY) % 0x1_00000000
  }

  /** The difficulty threshold after `chain`, by recursion on the chain alone. */
  function ThresholdOf(chain: seq<Block>): Uint256 {
    var n := |chain|;
    if n < 4 then MAX_UINT256
    else if n % 2 == 0 then Retarget(ThresholdOf(chain[..n - 1]), chain[n - 1].timestamp - chain[n - 2].timestamp)
    else ThresholdOf(chain[..n - 1])
  }

  /** The last min(n, RATE) blocks after the genesis block. */
  function Recent(chain: seq<Block>): seq<Block>
    requires |chain| > 0
  {
    if |chain| <= RATE then chain[1..] else chain[|chain| - RATE..]
  }

  function Last(chain: seq<Block>): Block
    requires |chain| > 0
  {
    chain[|chain| - 1]
  }

  ghost predicate HasHash(chain: seq<Block>, hash: Hash) {
    exists i :: 0 <= i < |chain| && chain[i].hash == hash
  }

  /** Everything `tryAddBlock` demands of a block on top of `chain`, except what the clock decides. */
  ghost predicate Admissible(chain: seq<Block>, b: Block)
    requires |chain| > 0
  {
    && !HasHash(chain, b.hash)
    && b.prevHash == Last(chain).hash
    && b.depth == |chain|
    && Value(256, b.hash) <= ThresholdOf(chain)
    && 1 <= |b.txs| <= MAX_TRANSACTIONS_IN_BLOCK
    && Last(chain).timestamp < b.timestamp
  }

  /** A chain that grew from its genesis block by admissible blocks. */
  ghost predicate WellFormed(chain: seq<Block>) {
    && |chain| > 0
    && forall i :: 1 <= i < |chain| ==> Admissible(chain[..i], chain[i])
  }

  /** The answer of `tryAddBlock`, in the order of its checks. */
  ghost function Verdict(chain: seq<Block>, b: Block, now: nat): AdditionResult
    requires |chain| > 0
  {
    if HasHash(chain, b.hash) then ALREADY_IN_BLOCKCHAIN
    else if b.prevHash != Last(chain).hash then INVALID_PARENT_HASH
    else if b.depth != |chain| then INVALID_DEPTH
    else if Value(256, b.hash) > ThresholdOf(chain) then CONSENSUS_ERROR
    else if |b.txs| == 0 || |b.txs| > MAX_TRANSACTIONS_IN_BLOCK then INVALID_TRANSACTIONS_NUMBER
    else if b.timestamp <= Last(chain).timestamp then OLD_TIMESTAMP
    else if b.timestamp > Horizon(now) then FUTURE_TIMESTAMP
    else ADDED
  }

  lemma {:induction false} AddedIffAdmissible(chain: seq<Block>, b: Block, now: nat)
    requires |chain| > 0
    ensures Verdict(chain, b, now) == ADDED <==> Admissible(chain, b) && b.timestamp <= Horizon(now)
  {}

  /** Every refusal names a check that fails where all before it pass: hash, parent, depth, work, size, time. */
  lemma {:induction false} RefusedBecause(chain: seq<Block>, b: Block, now: nat)
    requires |chain| > 0
    ensures var known := exists i :: 0 <= i < |chain| && chain[i].hash == b.hash;
            var top := chain[|chain| - 1];
            var verdict, linked := Verdict(chain, b, now), b.prevHash == top.hash && b.depth == |chain|;
            var sealed := linked && Value(256, b.hash) <= ThresholdOf(chain);
            var sized := sealed && 1 <= |b.txs| <= 100;
            && (verdict == ALREADY_IN_BLOCKCHAIN <==> known)
            && (verdict == INVALID_PARENT_HASH <==> !known && b.prevHash != top.hash)
            && (verdict == INVALID_DEPTH <==> !known && b.prevHash == top.hash && b.depth != |chain|)
            && (verdict == CONSENSUS_ERROR <==> !known && linked && !sealed)
            && (verdict == INVALID_TRANSACTIONS_NUMBER <==> !known && sealed && !sized)
            && (verdict == OLD_TIMESTAMP <==> !known && sized && b.timestamp <= top.timestamp)
            && (verdict == FUTURE_TIMESTAMP <==>
                !known && sized && top.timestamp < b.timestamp && b.timestamp > Horizon(now))
            && (now < 0x1_00000000 - 86400 ==> Horizon(now) == now + 86400)
  {
    hide ThresholdOf, Value;
  }

  lemma {:induction false} Extended(chain: seq<Block>, b: Block)
    requires WellFormed(chain) && Admissible(chain, b)
    ensures WellFormed(chain + [b])
  {
    var longer := chain + [b];
    forall i | 1 <= i < |longer| ensures Admissible(longer[..i], longer[i]) {
      assert longer[..i] == if i == |chain| then chain else chain[..i];
    }
  }

  lemma {:induction false} PrefixWellFormed(chain: seq<Block>, n: nat)
    requires WellFormed(chain) && 1 <= n <= |chain|
    ensures WellFormed(chain[..n])
  {
    forall i | 1 <= i < n ensures Admissible(chain[..n][..i], chain[..n][i]) {
      assert chain[..n][..i] == chain[..i];
    }
  }

  /** Depth equals position, blocks are hash-linked, hashes differ, timestamps strictly increase. */
  lemma {:induction false} Shape(chain: seq<Block>, i: nat, j: nat)
    requires WellFormed(chain) && i < j < |chain|
    ensures chain[j].depth == j && chain[j].prevHash == chain[j - 1].hash
    ensures chain[i].hash != chain[j].hash && chain[i].timestamp < chain[j].timestamp
  {
    assert Admissible(chain[..j], chain[j]);
    assert chain[..j][i] == chain[i] && chain[..j][j - 1] == chain[j - 1];
    if i == j - 1 {
    } else {
      Shape(chain, i, j - 1);
    }
  }

  lemma {:induction false} ThresholdStep(chain: seq<Block>, b: Block)
    requires |chain| > 0
    ensures ThresholdOf(chain + [b]) ==
            if |chain| >= 3 && |chain| % 2 == 1 then Retarget(ThresholdOf(chain), b.timestamp - Last(chain).timestamp)
            else ThresholdOf(chain)
  {
    assert (chain + [b])[..|chain|] == chain;
  }

  /**
   How the threshold follows a grown chain: it starts at the maximum, moves with every second block from the
   one at depth 3 on, and there by the interval since the block before.
   */
  lemma {:induction false} ThresholdRule(chain: seq<Block>, n: nat)
    requires WellFormed(chain) && n < |chain|
    ensures n < 3 ==> ThresholdOf(chain[..n + 1]) == MAX_UINT256
    ensures n >= 3 && n % 2 == 0 ==> ThresholdOf(chain[..n + 1]) == ThresholdOf(chain[..n])
    ensures n >= 3 && n % 2 == 1 ==>
              var before, after := ThresholdOf(chain[..n]), ThresholdOf(chain[..n + 1]);
              var elapsed := chain[n].timestamp - chain[n - 1].timestamp;
              && elapsed > 0
              && (elapsed < TARGET ==> after == before / Clamp((2 * TARGET + elapsed) / (2 * elapsed), 1, RATE))
              && (elapsed >= TARGET ==>
                  var factor := Clamp((2 * elapsed + TARGET) / (2 * TARGET), 1, RATE);
                  after == if before * factor <= MAX_UINT256 then before * factor else before)
  {
    hide Retarget, WellFormed;
    ThresholdAt(chain, n);
    if n >= 3 {
      hide Clamp, ThresholdOf;
      Shape(chain, n - 1, n);
      RetargetRounds(ThresholdOf(chain[..n]), chain[n].timestamp - chain[n - 1].timestamp);
    }
  }

  lemma {:induction false} ThresholdAt(chain: seq<Block>, n: nat)
    requires n < |chain|
    ensures ThresholdOf(chain[..n + 1]) ==
            if n < 3 then MAX_UINT256
            else if n % 2 == 0 then ThresholdOf(chain[..n])
            else Retarget(ThresholdOf(chain[..n]), chain[n].timestamp - chain[n - 1].timestamp)
  {
    hide Retarget;
    assert chain[..n + 1][..n] == chain[..n];
  }

  lemma {:induction false} RecentStep(chain: seq<Block>, b: Block)
    requires |chain| > 0
    ensures Recent(chain + [b]) == Pushed(Recent(chain), b)
  {
    var n, longer := |chain|, chain + [b];
    if n < RATE {
      assert longer[1..] == chain[1..] + [b];
    } else if n == RATE {
      assert longer[1..] == chain[1..] + [b];
      assert longer[|longer| - RATE..] == longer[1..];
    } else {
      assert longer[n + 1 - RATE..] == chain[n + 1 - RATE..] + [b];
      assert (chain[n - RATE..] + [b])[1..] == chain[n + 1 - RATE..] + [b];
    }
  }

  // ---------- the checked arithmetic of the difficulty rule ----------

  lemma {:induction false} SmallHashes(h: Hash, h': Hash)
    requires h != h' && Value(256, h) <= 1 && Value(256, h') <= 1
    ensures Value(256, h) == 0 || Value(256, h') == 0
  {
    if Value(256, h) == Value(256, h') { ValueInjective(256, h, h'); }
  }

  /**
   A threshold of zero can be reached, but only once the one hash that still meets it is in the
   chain: the two blocks below the last halving both had hashes at most 1.
   */
  lemma {:induction false} ZeroThresholdExhausted(chain: seq<Block>)
    requires WellFormed(chain) && ThresholdOf(chain) == 0
    ensures exists i :: 0 <= i < |chain| && Value(256, chain[i].hash) == 0
  {
    LastHalving(chain);
    hide ThresholdOf, Value;
    var n := |chain|;
    var front := chain[..n - 1];
    PrefixWellFormed(chain, n - 1);
    if ThresholdOf(front) == 0 {
      ZeroThresholdExhausted(front);
      var i :| 0 <= i < |front| && Value(256, front[i].hash) == 0;
      assert Value(256, chain[i].hash) == 0;
    } else {
      assert Admissible(chain[..n - 1], chain[n - 1]) && Admissible(chain[..n - 2], chain[n - 2]);
      Shape(chain, n - 2, n - 1);
      SmallHashes(chain[n - 1].hash, chain[n - 2].hash);
    }
  }

  /** A threshold that has just become zero was 1 for the last two blocks. */
  lemma {:induction false} LastHalving(chain: seq<Block>)
    requires ThresholdOf(chain) == 0
    ensures |chain| >= 4
    ensures ThresholdOf(chain[..|chain| - 1]) == 0
            || ThresholdOf(chain[..|chain| - 1]) == ThresholdOf(chain[..|chain| - 2]) == 1
  {
    var n := |chain|;
    var front := chain[..n - 1];
    assert front[..n - 2] == chain[..n - 2];
    if n % 2 == 0 {
      assert ThresholdOf(front) / 2 == 0 || ThresholdOf(front) == 0;
      assert ThresholdOf(front) == ThresholdOf(front[..n - 2]);
    }
  }

  /** So no block is admissible at threshold zero, and the checked division never divides by zero. */
  lemma {:induction false} AdmissibleThresholdPositive(chain: seq<Block>, b: Block)
    requires WellFormed(chain) && Admissible(chain, b)
    ensures ThresholdOf(chain) > 0
  {
    if ThresholdOf(chain) == 0 {
      ZeroThresholdExhausted(chain);
      var i :| 0 <= i < |chain| && Value(256, chain[i].hash) == 0;
      ValueInjective(256, chain[i].hash, b.hash);
      assert false;
    }
  }

  /** How many of the blocks of `chain` retargeted. */
  function Retargets(chain: seq<Block>): nat {
    if |chain| < 4 then 0 else (|chain| - 2) / 2
  }

  lemma {:induction false} HalvedBound(m: nat, p: nat, d: nat)
    requires p > 0 && d >= m / p
    ensures d / 2 >= m / (p * 2)
  {
    var q := m / p;
    assert m == q * p + m % p;
    var q' := m / (p * 2);
    assert m == q' * (p * 2) + m % (p * 2);
    if q' > q / 2 {
      assert 2 * q' >= q + 1;
      MulMonotone(q + 1, 2 * q', p, p);
      assert false;
    }
  }

  /** After k retargets the threshold is at least floor((2^256 - 1) / 2^k). */
  lemma {:induction false} ThresholdBound(chain: seq<Block>)
    ensures ThresholdOf(chain) >= MAX_UINT256 / Pow(2, Retargets(chain))
  {
    if |chain| < 4 {
    } else {
      ThresholdBound(chain[..|chain| - 1]);
      if |chain| % 2 == 0 {
        var k := Retargets(chain) - 1;
        HalvedBound(MAX_UINT256, Pow(2, k), ThresholdOf(chain[..|chain| - 1]));
        assert Pow(2, k + 1) == Pow(2, k) * 2;
      }
    }
  }
}
