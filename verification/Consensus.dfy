/** `Complexity` and `Consensus` (src/core/consensus.cpp): the difficulty rule. */
module Consensus {
  import opened Types
  import opened Blocks
  import opened Positional

  /** base::config::BC_DIFFICULTY_RECALCULATION_RATE and BC_TARGET_BLOCKS_PER_MINUTE. */
  const RATE: nat := 2
  const TARGET: nat := RATE * 60 / 1

  // ---------- the big-endian comparer ----------

  method CalcComparer(densed: Uint256) returns (ret: Hash)
    ensures Value(256, ret) == densed
  {
    hide Value, Pow;
    var cells := new Byte[32](_ => 0);
    var index := 32;
    var d: nat := densed;
    Uint256Fits(densed);
    ComparerStart(cells[..], d);
    while d > 0
      invariant 0 <= index <= 32
      invariant ComparerProgress(cells[..], index, d, densed)
      decreases d
    {
      ghost var before := cells[..];
      ComparerStep(before, index, d, densed);
      index := index - 1;
      cells[index] := d % 256;
      assert cells[..] == before[index := cells[index]];
      d := d / 256;
    }
    assert 0 * Pow(256, 32 - index) == 0;
    LeadingZeros(256, cells[..index], cells[index..]);
    assert cells[..] == cells[..index] + cells[index..];
    return cells[..];
  }

  lemma {:induction false} HashRange()
    ensures Pow(256, 32) == MAX_UINT256 + 1
  {
    assert Pow(256, 2) == 0x1_0000;
    PowSquared(256, 2, 0x1_0000);
    PowSquared(256, 4, 0x1_00000000);
    PowSquared(256, 8, 0x1_00000000_00000000);
    PowSquared(256, 16, 0x1_00000000_00000000_00000000_00000000);
  }

  lemma {:induction false} Uint256Fits(n: Uint256)
    ensures n < Pow(256, 32)
  {
    HashRange();
  }

  lemma {:induction false} HashFits(h: Hash)
    ensures Value(256, h) <= MAX_UINT256
  {
    ValueBound(256, h);
    HashRange();
  }

  /** The cells from `index` on and `d` together are the number; the cells before are still zero. */
  ghost predicate ComparerProgress(cells: seq<Byte>, index: nat, d: nat, densed: nat) {
    && index <= |cells| == 32
    && (forall i :: 0 <= i < index ==> cells[i] == 0)
    && d * Pow(256, 32 - index) + Value(256, cells[index..]) == densed
    && d < Pow(256, index)
  }

  lemma {:induction false} ComparerStart(cells: seq<Byte>, densed: nat)
    requires |cells| == 32 && (forall i :: 0 <= i < 32 ==> cells[i] == 0) && densed < Pow(256, 32)
    ensures ComparerProgress(cells, 32, densed, densed)
  {
    assert cells[32..] == [];
  }

  lemma {:induction false} ComparerStep(cells: seq<Byte>, index: nat, d: nat, densed: nat)
    requires ComparerProgress(cells, index, d, densed) && d > 0
    ensures index > 0 && ComparerProgress(cells[index - 1 := d % 256], index - 1, d / 256, densed)
  {
    if index == 0 {
      assert false;
    } else {
      var after := cells[index - 1 := d % 256];
      assert after[index - 1..] == [d % 256] + cells[index..];
      ValueCons(256, d % 256, cells[index..]);
      ComparerArithmetic(d / 256, d % 256, Pow(256, 32 - index));
    }
  }

  lemma {:induction false} ComparerArithmetic(q: nat, r: nat, p: nat)
    ensures q * (256 * p) + r * p == (q * 256 + r) * p
  {}

  datatype Complexity = Complexity(densed: Uint256, comparer: Hash) {
    ghost predicate Valid() {
      Value(256, comparer) == densed
    }
  }

  // ---------- the retarget rule ----------

  /** `std::round` of a non-negative number. */
  function Round(x: real): (n: nat)
    requires x >= 0.0
  {
    (x + 0.5).Floor
  }

  function Clamp(x: nat, low: nat, high: nat): nat {
    if x < low then low else if x > high then high else x
  }

  /** Halve when the last block came within 80 s, double (if it fits) from 180 s on, else keep. */
  function Retarget(densed: Uint256, elapsed: int): Uint256 {
    if elapsed <= 80 then densed / 2
    else if elapsed < 180 || densed * 2 > MAX_UINT256 then densed
    else densed * 2
  }

  /**
   The rule in exact arithmetic: the interval is rounded to whole multiples or fractions of the target, between
   a half and two, and the threshold moves by as much in the direction of the interval, except where it would
   overflow.
   */
  lemma {:induction false} RetargetRounds(densed: Uint256, elapsed: nat)
    requires elapsed > 0
    ensures elapsed < TARGET ==>
              Retarget(densed, elapsed) == densed / Clamp((2 * TARGET + elapsed) / (2 * elapsed), 1, RATE)
    ensures elapsed >= TARGET ==>
              var factor := Clamp((2 * elapsed + TARGET) / (2 * TARGET), 1, RATE);
              Retarget(densed, elapsed) == if densed * factor <= MAX_UINT256 then densed * factor else densed
  {
    if elapsed < TARGET {
      var q := (2 * TARGET + elapsed) / (2 * elapsed);
      assert 2 * TARGET + elapsed == q * (2 * elapsed) + (2 * TARGET + elapsed) % (2 * elapsed);
      if elapsed <= 80 && q < 2 { MulMonotone(q, 1, 2 * elapsed, 2 * elapsed); }
      if elapsed > 80 && q > 1 { MulMonotone(2, q, 2 * elapsed, 2 * elapsed); }
      if q < 1 { MulMonotone(q, 0, 2 * elapsed, 2 * elapsed); }
    }
  }

  /** A longer interval never makes mining harder. */
  lemma {:induction false} RetargetMonotone(densed: Uint256, elapsed: nat, longer: nat)
    requires elapsed <= longer
    ensures Retarget(densed, elapsed) <= Retarget(densed, longer)
    ensures elapsed <= 80 && longer >= 180 && densed > 1 ==> Retarget(densed, elapsed) < Retarget(densed, longer)
  {}

  // ---------- double arithmetic ----------

  /** 2^52 and 2^53: how many doubles there are from 1 to 2, and how many multiples of their unit from 0 to 1. */
  const UNITS: real := 4503599627370496.0
  const HALF_UNITS: real := 9007199254740992.0

  /** Round to nearest, ties to even. */
  function Nearest(y: real): (n: int)
    ensures n as real - 0.5 <= y <= n as real + 0.5
    ensures forall k: int {:trigger k as real} :: (k as real <= y ==> k <= n) && (y <= k as real ==> n <= k)
  {
    var n := y.Floor;
    if y - n as real < 0.5 then n
    else if y - n as real > 0.5 then n + 1
    else if n % 2 == 0 then n else n + 1
  }

  /**
   The double nearest to a quotient, in the two binades from 1/2 to 2. What `applyBlock` makes of the others
   does not depend on how they round: it clamps everything below 1/2 to 1/2 and from 2 on to 2.
   */
  function Double(x: real): (r: real)
    ensures x >= 0.0 ==> r >= 0.0
  {
    if 0.5 <= x < 1.0 then Nearest(x * HALF_UNITS) as real / HALF_UNITS
    else if 1.0 <= x < 2.0 then Nearest(x * UNITS) as real / UNITS
    else x
  }

  /** A double is within half a unit, and on the same side of 1/2, 1, 3/2 and 2. */
  lemma {:induction false} DoubleBounds(x: real)
    requires 0.5 <= x <= 2.0
    ensures x - 0.5 / UNITS <= Double(x) <= x + 0.5 / UNITS && 0.5 <= Double(x) <= 2.0
    ensures (x <= 1.0 ==> Double(x) <= 1.0) && (x >= 1.0 ==> Double(x) >= 1.0) && (x >= 1.5 ==> Double(x) >= 1.5)
  {
    if x < 1.0 {
      assert 4503599627370496 as real <= x * HALF_UNITS <= 9007199254740992 as real;
    } else if x < 2.0 {
      assert 4503599627370496 as real <= x * UNITS <= 9007199254740992 as real;
      assert x >= 1.5 ==> 6755399441055744 as real <= x * UNITS;
    }
  }

  /** Two thirds round down, so that the boundary of 80 s is met exactly. */
  lemma {:induction false} TwoThirds()
    ensures Double(80.0 / 120.0) < 2.0 / 3.0
  {
    var y := 80.0 / 120.0 * HALF_UNITS;
    assert 6004799503160661.0 < y < 6004799503160661.5;
    assert Nearest(y) == 6004799503160661;
  }

  /** The ratio branch: `elapsed / TARGET` below one. */
  lemma {:induction false} ShortInterval(elapsed: nat)
    requires 0 < elapsed < TARGET
    ensures var r := Double(elapsed as real / TARGET as real);
            var r' := if r < 1.0 / RATE as real then 1.0 / RATE as real else r;
            r < 1.0 && Clamp(Round(Double(1.0 / r')), 1, RATE) == if elapsed <= 80 then 2 else 1
  {
    hide Double, Round, Clamp;
    var r := Double(elapsed as real / 120.0);
    if elapsed < 60 {
      TinyRatio(elapsed);
      Divisor(2.0);
      assert 1.0 / 0.5 == 2.0;
    } else {
      ShortRatio(elapsed);
      InverseBounds(r, 1.0 / r);
      Divisor(1.0 / r);
    }
  }

  lemma {:induction false} TinyRatio(elapsed: nat)
    requires elapsed < 60
    ensures Double(elapsed as real / 120.0) < 0.5
  {}

  lemma {:induction false} ShortRatio(elapsed: nat)
    requires 60 <= elapsed < TARGET
    ensures var r := Double(elapsed as real / 120.0);
            0.5 <= r < 1.0 && (elapsed <= 80 ==> r <= 2.0 / 3.0) && (elapsed > 80 ==> r >= 0.67)
  {
    hide Double;
    var x := elapsed as real / 120.0;
    DoubleBounds(x);
    TwoThirds();
    assert elapsed <= 79 ==> x <= 79.0 / 120.0;
    assert elapsed >= 81 ==> x >= 81.0 / 120.0;
  }

  lemma {:induction false} Divisor(inverse: real)
    requires 1.0 < inverse <= 2.0
    ensures inverse >= 1.5 ==> Clamp(Round(Double(inverse)), 1, RATE) == 2
    ensures inverse <= 1.4926 ==> Clamp(Round(Double(inverse)), 1, RATE) == 1
  {
    hide Double;
    DoubleBounds(inverse);
  }

  lemma {:induction false} InverseBounds(r: real, inverse: real)
    requires 0.5 <= r < 1.0 && inverse * r == 1.0
    ensures 1.0 < inverse <= 2.0
    ensures r <= 2.0 / 3.0 ==> inverse >= 1.5
    ensures r >= 0.67 ==> inverse <= 1.4926
  {
    if inverse <= 1.0 { Product(inverse, 1.0, r); }
    if inverse > 2.0 { Product(2.0, inverse, r); }
    if r <= 2.0 / 3.0 && inverse < 1.5 { StrictProduct(inverse, 1.5, r); }
    if r >= 0.67 && inverse > 1.4926 { StrictProduct(1.4926, inverse, r); }
  }

  lemma {:induction false} Product(x: real, y: real, r: real)
    requires r > 0.0 && x <= y
    ensures x * r <= y * r
  {
    assert (y - x) * r >= 0.0;
  }

  lemma {:induction false} StrictProduct(x: real, y: real, r: real)
    requires r > 0.0 && x < y
    ensures x * r < y * r
  {
    assert (y - x) * r > 0.0;
  }

  lemma {:induction false} LongInterval(elapsed: nat)
    requires elapsed >= TARGET
    ensures var r := Double(elapsed as real / TARGET as real);
            var r' := if r > RATE as real then RATE as real else r;
            r >= 1.0 && Round(r') == if elapsed < 180 then 1 else 2
  {
    var x := elapsed as real / 120.0;
    if x <= 2.0 {
      hide Double;
      DoubleBounds(x);
      assert elapsed < 180 ==> x <= 179.0 / 120.0;
      assert elapsed >= 180 ==> x >= 1.5;
    }
  }

  /** The last part of `applyBlock`; the checked division raises on a threshold of zero. */
  method NextDensed(densed: Uint256, elapsed: nat) returns (r: Result<Uint256>)
    requires elapsed > 0
    ensures r.Raised? <==> elapsed >= TARGET && densed == 0
    ensures r.Ok? ==> r.value == Retarget(densed, elapsed)
    ensures r.Ok? && elapsed <= 80 ==> r.value == densed / 2
    ensures r.Ok? && 80 < elapsed < 180 ==> r.value == densed
    ensures r.Ok? && 180 <= elapsed ==> r.value == if densed * 2 <= MAX_UINT256 then densed * 2 else densed
  {
    hide Double, Round;
    var ratio := Double(elapsed as real / TARGET as real);
    if elapsed < TARGET {
      ShortInterval(elapsed);
    } else {
      LongInterval(elapsed);
    }
    if ratio < 1.0 {
      ratio := if ratio < 1.0 / RATE as real then 1.0 / RATE as real else ratio;
      var m := Clamp(Round(Double(1.0 / ratio)), 1, RATE);
      return Ok(densed / m);
    } else {
      ratio := if ratio > RATE as real then RATE as real else ratio;
      if densed == 0 {
        return Raised(OverflowError);
      }
      var m := MAX_UINT256 / densed;
      var limit := if m < RATE then m else RATE;
      DoublingFits(densed);
      var mult := Clamp(Round(ratio), 0, limit);
      if densed * mult > MAX_UINT256 {
        return Raised(OverflowError);
      }
      return Ok(densed * mult);
    }
  }

  // ---------- the class ----------

  class Consensus {
    var lastBlocks: seq<Block>
    var complexity: Complexity

    ghost predicate Valid()
      reads this
    {
      complexity.Valid()
    }

    constructor ()
      ensures Valid() && lastBlocks == [] && complexity.densed == MAX_UINT256
    {
      var comparer := CalcComparer(MAX_UINT256);
      lastBlocks := [];
      complexity := Complexity(MAX_UINT256, comparer);
    }

    /** The hash, read as a 256-bit number, is at most the threshold. */
    method CheckBlock(block: Block) returns (ok: bool)
      requires Valid()
      ensures ok <==> Value(256, block.hash) <= complexity.densed
    {
      LexLessIsNumeric(256, complexity.comparer, block.hash);
      ok := !LexLess(complexity.comparer, block.hash);
    }

    /**
     The new queue in every case; the new threshold when nothing is raised. `Time::operator-` raises
     when the timestamps run backwards, the checked division when the threshold has reached zero.
     */
    method ApplyBlock(block: Block) returns (r: Result<()>)
      requires Valid()
      modifies this
      ensures Valid()
      ensures lastBlocks == Pushed(old(lastBlocks), block)
      ensures !RetargetsAt(old(lastBlocks), block) ==> r.Ok? && complexity == old(complexity)
      ensures RetargetsAt(old(lastBlocks), block) ==>
                var elapsed := block.timestamp - lastBlocks[0].timestamp;
                && (r.Raised? <==> elapsed < 0 || (elapsed >= TARGET && old(complexity).densed == 0))
                && (r.Raised? ==> complexity == old(complexity))
                && (r.Ok? ==> complexity.densed == Retarget(old(complexity).densed, elapsed))
      ensures RetargetsAt(old(lastBlocks), block) && r.Ok? ==>
                var before, gap := old(complexity).densed, block.timestamp - lastBlocks[0].timestamp;
                var elapsed := if gap == 0 then 1 else gap;
                var factor := Clamp((2 * elapsed + TARGET) / (2 * TARGET), 1, RATE);
                complexity.densed ==
                if elapsed < TARGET then before / Clamp((2 * TARGET + elapsed) / (2 * elapsed), 1, RATE)
                else if before * factor <= MAX_UINT256 then before * factor else before
    {
      hide Value, Pow, Clamp;
      lastBlocks := lastBlocks + [block];
      if |lastBlocks| < RATE {
        return Ok(());
      }
      if |lastBlocks| > RATE {
        lastBlocks := lastBlocks[1..];
      }
      if block.depth != 0 && (block.depth - 1) % RATE != 0 {
        return Ok(());
      }
      var p := lastBlocks[0];
      if block.timestamp < p.timestamp {
        return Raised(LogicError);
      }
      var elapsed := block.timestamp - p.timestamp;
      if elapsed == 0 {
        elapsed := 1;
      }
      RetargetRounds(complexity.densed, elapsed);
      var densed :- NextDensed(complexity.densed, elapsed);
      var comparer := CalcComparer(densed);
      complexity := Complexity(densed, comparer);
      return Ok(());
    }
  }

  lemma {:induction false} DoublingFits(densed: nat)
    requires 0 < densed <= MAX_UINT256
    ensures MAX_UINT256 / densed >= 1
    ensures MAX_UINT256 / densed < 2 <==> densed * 2 > MAX_UINT256
  {
    var m := MAX_UINT256 / densed;
    assert MAX_UINT256 == m * densed + MAX_UINT256 % densed;
    if m >= 2 { MulMonotone(2, m, densed, densed); }
  }

  /** The queue after `push` and the conditional `pop`. */
  function Pushed(queue: seq<Block>, block: Block): seq<Block> {
    var longer := queue + [block];
    if |longer| > RATE then longer[1..] else longer
  }

  predicate RetargetsAt(queue: seq<Block>, block: Block) {
    |queue| + 1 >= RATE && (block.depth == 0 || (block.depth - 1) % RATE == 0)
  }
}
