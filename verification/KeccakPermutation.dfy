/** Keccak-f[1600] as hash.cpp computes it (src/base/hash.cpp): in place, lane by lane, from tables. */
module KeccakPermutation {
  import opened Types
  import opened Fips202

  const TYPE_ROUND_INFO: nat := 0
  const TYPE_PI_TRANSFORM: nat := 24
  const TYPE_RHO_TRANSFORM: nat := 48

  /** `constants[kind + index]`: round information, then the pi cycle, then the rho rotations. */
  function GetConstant(kind: nat, index: nat): Byte
    requires kind + index < 72
  {
    match kind + index
    case 0 => 1 case 1 => 26 case 2 => 94 case 3 => 112 case 4 => 31 case 5 => 33
    case 6 => 121 case 7 => 85 case 8 => 14 case 9 => 12 case 10 => 53 case 11 => 38
    case 12 => 63 case 13 => 79 case 14 => 93 case 15 => 83 case 16 => 82 case 17 => 72
    case 18 => 22 case 19 => 102 case 20 => 121 case 21 => 88 case 22 => 33 case 23 => 116
    case 24 => 1 case 25 => 6 case 26 => 9 case 27 => 22 case 28 => 14 case 29 => 20
    case 30 => 2 case 31 => 12 case 32 => 13 case 33 => 19 case 34 => 23 case 35 => 15
    case 36 => 4 case 37 => 24 case 38 => 21 case 39 => 8 case 40 => 16 case 41 => 5
    case 42 => 3 case 43 => 18 case 44 => 17 case 45 => 11 case 46 => 7 case 47 => 10
    case 48 => 1 case 49 => 62 case 50 => 28 case 51 => 27 case 52 => 36 case 53 => 44
    case 54 => 6 case 55 => 55 case 56 => 20 case 57 => 3 case 58 => 10 case 59 => 43
    case 60 => 25 case 61 => 39 case 62 => 41 case 63 => 45 case 64 => 15 case 65 => 21
    case 66 => 8 case 67 => 18 case 68 => 2 case 69 => 61 case 70 => 56 case 71 => 14
  }

  /** The cases of an index into one of the tables. */
  lemma {:induction false} Below24(n: nat)
    requires n < 24
    ensures || n == 0 || n == 1 || n == 2 || n == 3 || n == 4 || n == 5 || n == 6 || n == 7
            || n == 8 || n == 9 || n == 10 || n == 11 || n == 12 || n == 13 || n == 14 || n == 15
            || n == 16 || n == 17 || n == 18 || n == 19 || n == 20 || n == 21 || n == 22 || n == 23
  {}

  // ---------- 64-bit words as their bits ----------

  /** `l << n` */
  function Shl(l: Lane, n: nat): (r: Lane)
    ensures forall z :: 0 <= z < 64 ==> r[z] == (z >= n && l[z - n])
  {
    seq(64, z requires 0 <= z < 64 => z >= n && l[z - n])
  }

  /** `l >> n` */
  function Shr(l: Lane, n: nat): (r: Lane)
    ensures forall z :: 0 <= z < 64 ==> r[z] == (z + n < 64 && l[z + n])
  {
    seq(64, z requires 0 <= z < 64 => z + n < 64 && l[z + n])
  }

  /** `~l & m` */
  function AndNot(l: Lane, m: Lane): (r: Lane)
    ensures forall z :: 0 <= z < 64 ==> r[z] == (!l[z] && m[z])
  {
    seq(64, z requires 0 <= z < 64 => !l[z] && m[z])
  }

  /** The macro ROTL64. */
  function Rotl64(l: Lane, n: nat): (r: Lane)
    requires 0 < n < 64
    ensures r == Shifted(l, n)
  {
    var r := XorLane(Shl(l, n), Shr(l, 64 - n));
    RotationIsShift(l, n, r);
    r
  }

  lemma {:induction false} RotationIsShift(l: Lane, n: nat, r: Lane)
    requires 0 < n < 64 && r == XorLane(Shl(l, n), Shr(l, 64 - n))
    ensures r == Shifted(l, n)
  {
    forall z | 0 <= z < 64 ensures r[z] == Shifted(l, n)[z] {
      assert (z - n) % 64 == if z >= n then z - n else z - n + 64;
    }
  }

  lemma {:induction false} SameState(a: State, b: State)
    requires forall i, z :: 0 <= i < 25 && 0 <= z < 64 ==> a[i][z] == b[i][z]
    ensures a == b
  {
    forall i | 0 <= i < 25 ensures a[i] == b[i] {}
  }

  // ---------- theta ----------

  /** The exclusive or of the first `k` lanes of a column, at least one. */
  function ColumnTo(a: State, i: nat, k: nat): Lane
    requires i < 5 && 1 <= k <= 5
  {
    if k == 1 then a[i] else XorLane(ColumnTo(a, i, k - 1), a[i + 5 * (k - 1)])
  }

  lemma {:induction false} ColumnIsParity(a: State, i: nat, z: nat)
    requires i < 5 && z < 64
    ensures ColumnTo(a, i, 5)[z] == ColumnParity(a, i, z)
  {
    assert ColumnTo(a, i, 2)[z] == (a[i][z] != a[i + 5][z]);
    assert ColumnTo(a, i, 3)[z] == (ColumnTo(a, i, 2)[z] != a[i + 10][z]);
    assert ColumnTo(a, i, 4)[z] == (ColumnTo(a, i, 3)[z] != a[i + 15][z]);
  }

  function ThetaD(a: State, i: nat): Lane
    requires i < 5
  {
    XorLane(Rotl64(ColumnTo(a, (i + 1) % 5, 5), 1), ColumnTo(a, (i + 4) % 5, 5))
  }

  lemma {:induction false} ThetaDIs(a: State, i: nat, next: nat, previous: nat)
    requires i < 5 && next == (i + 1) % 5 && previous == (i + 4) % 5
    ensures next < 5 && previous < 5
    ensures ThetaD(a, i) == XorLane(Rotl64(ColumnTo(a, next, 5), 1), ColumnTo(a, previous, 5))
  {}

  function Flipped(a: State, x: nat, y: nat, z: nat): State
    requires x < 5 && y < 5 && z < 64
  {
    a[5 * y + x := a[5 * y + x][z := !a[5 * y + x][z]]]
  }

  /**
   How theta spreads a change: one bit flipped flips itself, the column to its right, and the column to its left
   one bit higher, eleven bits in all.
   */
  lemma {:induction false} ThetaSpreads(a: State, x: nat, y: nat, z: nat, x': nat, y': nat, z': nat)
    requires x < 5 && y < 5 && z < 64 && x' < 5 && y' < 5 && z' < 64
    ensures Theta(a)[5 * y' + x'][z'] != Theta(Flipped(a, x, y, z))[5 * y' + x'][z'] <==>
            || (x' == x && y' == y && z' == z)
            || (x' == (x + 1) % 5 && z' == z)
            || (x' == (x + 4) % 5 && z' == (z + 1) % 64)
  {
    hide ColumnParity, Bit, Flipped, ThetaBit, Theta;
    Neighbours(x, x', z, z');
    var b := Flipped(a, x, y, z);
    forall x2: nat, y2: nat, z2: nat | x2 < 5 && y2 < 5 && z2 < 64
      ensures Bit(a, x2, y2, z2) != Bit(b, x2, y2, z2) <==> x2 == x && y2 == y && z2 == z
    {
      FlippedBit(a, x, y, z, x2, y2, z2);
    }
    ParityFlips(a, b, x, y, z, (x' + 4) % 5, z');
    ParityFlips(a, b, x, y, z, (x' + 1) % 5, (z' + 63) % 64);
    ThetaAt(a, x', y', z');
    ThetaAt(b, x', y', z');
  }

  lemma {:induction false} Neighbours(x: nat, x': nat, z: nat, z': nat)
    requires x < 5 && x' < 5 && z < 64 && z' < 64
    ensures (x' + 4) % 5 == x <==> x' == (x + 1) % 5
    ensures (x' + 1) % 5 == x <==> x' == (x + 4) % 5
    ensures (z' + 63) % 64 == z <==> z' == (z + 1) % 64
  {}

  lemma {:induction false} ThetaAt(a: State, x: nat, y: nat, z: nat)
    requires x < 5 && y < 5 && z < 64
    ensures Theta(a)[5 * y + x][z] ==
            (Bit(a, x, y, z) != (ColumnParity(a, (x + 4) % 5, z) != ColumnParity(a, (x + 1) % 5, (z + 63) % 64)))
  {
    hide ColumnParity, Bit;
    assert (5 * y + x) % 5 == x && (5 * y + x) / 5 == y;
  }

  lemma {:induction false} FlippedBit(a: State, x: nat, y: nat, z: nat, x': nat, y': nat, z': nat)
    requires x < 5 && y < 5 && z < 64 && x' < 5 && y' < 5 && z' < 64
    ensures Bit(a, x', y', z') != Bit(Flipped(a, x, y, z), x', y', z') <==> x' == x && y' == y && z' == z
  {
    assert 5 * y' + x' == 5 * y + x <==> x' == x && y' == y;
  }

  lemma {:induction false} ParityFlips(a: State, b: State, x: nat, y: nat, z: nat, x': nat, z': nat)
    requires x < 5 && y < 5 && z < 64 && x' < 5 && z' < 64
    requires forall x2: nat, y2: nat, z2: nat | x2 < 5 && y2 < 5 && z2 < 64 ::
               Bit(a, x2, y2, z2) != Bit(b, x2, y2, z2) <==> x2 == x && y2 == y && z2 == z
    ensures ColumnParity(a, x', z') != ColumnParity(b, x', z') <==> x' == x && z' == z
  {
    hide Bit;
    if x' == x && z' == z { assert y == 0 || y == 1 || y == 2 || y == 3 || y == 4; }
  }

  lemma {:induction false} ThetaLane(a: State, i: nat, z: nat)
    requires i < 25 && z < 64
    ensures XorLane(a[i], ThetaD(a, i % 5))[z] == Theta(a)[i][z]
  {
    hide ColumnTo, ColumnParity, Rotl64;
    var x := i % 5;
    ColumnIsParity(a, (x + 1) % 5, (z + 63) % 64);
    ColumnIsParity(a, (x + 4) % 5, z);
    assert (z - 1) % 64 == (z + 63) % 64;
    assert Rotl64(ColumnTo(a, (x + 1) % 5, 5), 1)[z] == ColumnTo(a, (x + 1) % 5, 5)[(z + 63) % 64];
    assert 5 * (i / 5) + x == i;
  }

  /** The columns before `i`, and the lanes of column `i` below `j`, already changed. */
  function ThetaTo(a: State, i: nat, j: nat): (r: State)
    ensures forall k :: 0 <= k < 25 ==>
              r[k] == if k % 5 < i || (k % 5 == i && k < j) then XorLane(a[k], ThetaD(a, k % 5)) else a[k]
  {
    seq(25, k requires 0 <= k < 25 =>
      if k % 5 < i || (k % 5 == i && k < j) then XorLane(a[k], ThetaD(a, k % 5)) else a[k])
  }

  lemma {:induction false} ThetaToStep(a: State, i: nat, row: nat)
    requires i < 5 && row < 5
    ensures ThetaTo(a, i, 5 * row)[i + 5 * row] == a[i + 5 * row]
    ensures ThetaTo(a, i, 5 * row + 5) ==
            ThetaTo(a, i, 5 * row)[i + 5 * row := XorLane(a[i + 5 * row], ThetaD(a, i))]
  {
    hide XorLane, ThetaD;
    var j := 5 * row;
    assert (i + j) % 5 == i;
    forall k | 0 <= k < 25 && k != i + j ensures ThetaTo(a, i, j + 5)[k] == ThetaTo(a, i, j)[k] {
      assert k % 5 == i && j <= k < j + 5 ==> k == i + j;
    }
  }

  lemma {:induction false} ThetaToEnds(a: State, i: nat)
    requires i < 5
    ensures ThetaTo(a, 0, 0) == a && ThetaTo(a, i, 25) == ThetaTo(a, i + 1, 0)
  {
    hide XorLane, ThetaD;
  }

  lemma {:induction false} ThetaToAll(a: State)
    ensures ThetaTo(a, 5, 0) == Theta(a)
  {
    hide Theta, ThetaD, XorLane;
    forall i, z | 0 <= i < 25 && 0 <= z < 64 ensures ThetaTo(a, 5, 0)[i][z] == Theta(a)[i][z] {
      ThetaLane(a, i, z);
    }
    SameState(ThetaTo(a, 5, 0), Theta(a));
  }

  /** The array C: the first loop of keccak_theta. */
  method ThetaColumns(a: array<Lane>) returns (c: array<Lane>)
    requires a.Length == 25
    ensures fresh(c) && c.Length == 5
    ensures forall k :: 0 <= k < 5 ==> c[k] == ColumnTo(a[..], k, 5)
  {
    hide ColumnTo, XorLane;
    c := new Lane[5](_ => ZeroLane());
    for i := 0 to 5
      invariant forall k :: 0 <= k < i ==> c[k] == ColumnTo(a[..], k, 5)
    {
      c[i] := a[i];
      ColumnStep(a[..], i, 1);
      var j := 5;
      ghost var row := 1;
      while j < 25
        invariant row <= 5 && j == 5 * row
        invariant forall k :: 0 <= k < i ==> c[k] == ColumnTo(a[..], k, 5)
        invariant c[i] == ColumnTo(a[..], i, row)
      {
        ColumnStep(a[..], i, row + 1);
        c[i] := XorLane(c[i], a[i + j]);
        j, row := j + 5, row + 1;
      }
    }
  }

  /** The array D: the second loop. */
  method ThetaDifferences(ghost a: State, c: array<Lane>) returns (d: array<Lane>)
    requires c.Length == 5 && forall k :: 0 <= k < 5 ==> c[k] == ColumnTo(a, k, 5)
    ensures fresh(d) && d.Length == 5
    ensures forall k :: 0 <= k < 5 ==> d[k] == ThetaD(a, k)
  {
    hide ColumnTo, XorLane, Rotl64, ThetaD;
    d := new Lane[5](_ => ZeroLane());
    ghost var columns := c[..];
    for i := 0 to 5
      invariant c[..] == columns
      invariant forall k :: 0 <= k < i ==> d[k] == ThetaD(a, k)
    {
      var next, previous := (i + 1) % 5, (i + 4) % 5;
      ThetaDIs(a, i, next, previous);
      assert c[next] == columns[next] && c[previous] == columns[previous];
      d[i] := XorLane(Rotl64(c[next], 1), c[previous]);
    }
  }

  method KeccakTheta(a: array<Lane>)
    requires a.Length == 25
    modifies a
    ensures a[..] == Theta(old(a[..]))
  {
    hide Theta, ColumnTo, XorLane, ThetaTo, ThetaD;
    ghost var before: State := a[..];
    var c := ThetaColumns(a);
    var d := ThetaDifferences(before, c);
    ThetaToEnds(before, 0);
    for i := 0 to 5
      invariant a[..] == ThetaTo(before, i, 0)
      invariant forall k :: 0 <= k < 5 ==> d[k] == ThetaD(before, k)
    {
      var j := 0;
      ghost var row := 0;
      while j < 25
        invariant row <= 5 && j == 5 * row
        invariant a[..] == ThetaTo(before, i, j)
        invariant forall k :: 0 <= k < 5 ==> d[k] == ThetaD(before, k)
      {
        ThetaToStep(before, i, row);
        a[i + j] := XorLane(a[i + j], d[i]);
        j, row := j + 5, row + 1;
      }
      ThetaToEnds(before, i);
    }
    ThetaToAll(before);
  }

  lemma {:induction false} ColumnStep(a: State, i: nat, k: nat)
    requires i < 5 && 1 <= k <= 5
    ensures ColumnTo(a, i, k) == if k == 1 then a[i] else XorLane(ColumnTo(a, i, k - 1), a[i + 5 * (k - 1)])
  {}

  // ---------- rho ----------

  /** The lane met at step t of the walk of section 3.2.2. */
  function RhoLane(t: nat): nat
    requires t < 24
  {
    match t
    case 0 => 1 case 1 => 10 case 2 => 7 case 3 => 11 case 4 => 17 case 5 => 18
    case 6 => 3 case 7 => 5 case 8 => 16 case 9 => 8 case 10 => 21 case 11 => 24
    case 12 => 4 case 13 => 15 case 14 => 23 case 15 => 19 case 16 => 13 case 17 => 12
    case 18 => 2 case 19 => 20 case 20 => 14 case 21 => 22 case 22 => 9 case 23 => 6
  }

  /** The step of the walk at which lane `i` is met. */
  function RhoTime(i: nat): nat
    requires 1 <= i < 25
  {
    match i
    case 1 => 0 case 2 => 18 case 3 => 6 case 4 => 12 case 5 => 7 case 6 => 23
    case 7 => 2 case 8 => 9 case 9 => 22 case 10 => 1 case 11 => 3 case 12 => 17
    case 13 => 16 case 14 => 20 case 15 => 13 case 16 => 8 case 17 => 4 case 18 => 5
    case 19 => 15 case 20 => 19 case 21 => 10 case 22 => 21 case 23 => 14 case 24 => 11
  }

  lemma {:induction false} RhoWalkLane(t: nat)
    requires t < 24
    ensures RhoWalk(t) == (RhoLane(t) % 5, RhoLane(t) / 5)
  {
    hide RhoLane;
    if t == 0 {
      RhoLaneFirst();
    } else {
      RhoWalkLane(t - 1);
      RhoLaneStep(t - 1);
      var (x, y) := RhoWalk(t - 1);
      assert RhoWalk(t) == (y, (2 * x + 3 * y) % 5);
      hide RhoWalk;
      Coordinates((2 * x + 3 * y) % 5, y);
    }
  }

  lemma {:induction false} Coordinates(q: nat, r: nat)
    requires r < 5
    ensures (5 * q + r) % 5 == r && (5 * q + r) / 5 == q
  {}

  lemma {:induction false} RhoIndexLane(t: nat)
    requires t < 24
    ensures RhoIndex(t) == RhoLane(t)
  {
    hide RhoLane, RhoWalk;
    RhoWalkLane(t);
  }

  lemma {:induction false} RhoLaneFirst()
    ensures RhoLane(0) == 1
  {}

  lemma {:induction false} RhoLaneStep(t: nat)
    requires t < 23
    ensures RhoLane(t + 1) == 5 * ((2 * (RhoLane(t) % 5) + 3 * (RhoLane(t) / 5)) % 5) + RhoLane(t) / 5
    ensures RhoLane(t) < 25
  {
    Below24(t);
  }

  /** The walk meets lanes 1 to 24, each once, and the table holds their offsets modulo 64. */
  lemma {:induction false} RhoVisits(t: nat)
    requires t < 24
    ensures 1 <= RhoIndex(t) < 25 && RhoTime(RhoIndex(t)) == t
    ensures GetConstant(TYPE_RHO_TRANSFORM, RhoIndex(t) - 1) == RhoOffset(t) % 64
  {
    hide RhoIndex, RhoLane, RhoTime, RhoOffset, GetConstant;
    RhoIndexLane(t);
    RhoMet(t);
    RhoTable(t);
  }

  lemma {:induction false} RhoMet(t: nat)
    requires t < 24
    ensures 1 <= RhoLane(t) < 25 && RhoTime(RhoLane(t)) == t
  {
    Below24(t);
  }

  lemma {:induction false} RhoTable(t: nat)
    requires t < 24
    ensures 1 <= RhoLane(t) < 25
    ensures GetConstant(TYPE_RHO_TRANSFORM, RhoLane(t) - 1) == RhoOffset(t) % 64
  {
    Below24(t);
  }

  lemma {:induction false} RhoTimes(i: nat)
    requires 1 <= i < 25
    ensures RhoTime(i) < 24 && RhoIndex(RhoTime(i)) == i
  {
    RhoLaneAt(i);
    RhoIndexLane(RhoTime(i));
  }

  lemma {:induction false} RhoLaneAt(i: nat)
    requires 1 <= i < 25
    ensures RhoTime(i) < 24 && RhoLane(RhoTime(i)) == i
  {
    Below24(i - 1);
  }

  lemma {:induction false} ShiftModulo(l: Lane, n: nat)
    ensures Shifted(l, n) == Shifted(l, n % 64)
  {
    forall z | 0 <= z < 64 ensures Shifted(l, n)[z] == Shifted(l, n % 64)[z] {
      ShiftIndex(z, n);
    }
  }

  lemma {:induction false} ShiftIndex(z: nat, n: nat)
    ensures (z - n) % 64 == (z - n % 64) % 64
  {
    assert z - n == z - n % 64 - 64 * (n / 64);
  }

  lemma {:induction false} RhoFromAt(a: State, r: State, t: nat, i: nat)
    requires t <= 24 && i < 25
    ensures RhoFrom(a, r, t)[i] ==
            if i >= 1 && RhoTime(i) >= t then Shifted(a[i], RhoOffset(RhoTime(i))) else r[i]
    decreases 24 - t
  {
    hide RhoTime, RhoWalk, RhoIndex, RhoOffset, RhoFrom, Shifted, GetConstant;
    if i >= 1 { RhoTimes(i); }
    RhoFromStep(a, r, t);
    if t == 24 {
    } else {
      var met := RhoIndex(t);
      RhoVisits(t);
      RhoFromAt(a, r[met := Shifted(a[met], RhoOffset(t))], t + 1, i);
      assert i >= 1 && RhoTime(i) == t ==> i == met;
    }
  }

  lemma {:induction false} RhoFromStep(a: State, r: State, t: nat)
    requires t <= 24
    ensures RhoFrom(a, r, t) ==
            if t == 24 then r else RhoFrom(a, r[RhoIndex(t) := Shifted(a[RhoIndex(t)], RhoOffset(t))], t + 1)
  {
    hide RhoIndex, RhoOffset, Shifted;
  }

  /** The loop of sha3_permutation over the lanes after the first. */
  method KeccakRho(a: array<Lane>)
    requires a.Length == 25
    modifies a
    ensures a[..] == Rho(old(a[..]))
  {
    hide Rho, Rotl64, GetConstant, Shifted;
    ghost var before: State := a[..];
    for i := 1 to 25
      invariant forall k :: 0 <= k < 25 ==> a[k] == if 1 <= k < i then Rho(before)[k] else before[k]
    {
      RhoRotation(before, i);
      a[i] := Rotl64(a[i], GetConstant(TYPE_RHO_TRANSFORM, i - 1));
    }
    RhoFirst(before);
    assert a[..] == Rho(before);
  }

  lemma {:induction false} RhoFirst(a: State)
    ensures Rho(a)[0] == a[0]
  {
    RhoFromAt(a, a, 0, 0);
  }

  lemma {:induction false} RhoInRange(i: nat)
    requires 1 <= i < 25
    ensures 0 < GetConstant(TYPE_RHO_TRANSFORM, i - 1) < 64
  {
    Below24(i - 1);
  }

  lemma {:induction false} RhoRotation(a: State, i: nat)
    requires 1 <= i < 25
    ensures 0 < GetConstant(TYPE_RHO_TRANSFORM, i - 1) < 64
    ensures Rho(a)[i] == Shifted(a[i], GetConstant(TYPE_RHO_TRANSFORM, i - 1))
  {
    hide RhoTime, RhoIndex, RhoOffset, RhoFrom, GetConstant, Shifted;
    RhoInRange(i);
    RhoFromAt(a, a, 0, i);
    RhoTimes(i);
    RhoVisits(RhoTime(i));
    ShiftModulo(a[i], RhoOffset(RhoTime(i)));
  }

  // ---------- pi ----------

  function PiTransform(k: nat): nat
    requires k < 24
  {
    GetConstant(TYPE_PI_TRANSFORM, k)
  }

  /** The position of lane `i` in the cycle. */
  function PiPosition(i: nat): nat
    requires 1 <= i < 25
  {
    match i
    case 1 => 0 case 2 => 6 case 3 => 18 case 4 => 12 case 5 => 17 case 6 => 1
    case 7 => 22 case 8 => 15 case 9 => 2 case 10 => 23 case 11 => 21 case 12 => 7
    case 13 => 8 case 14 => 4 case 15 => 11 case 16 => 16 case 17 => 20 case 18 => 19
    case 19 => 9 case 20 => 5 case 21 => 14 case 22 => 3 case 23 => 10 case 24 => 13
  }

  lemma {:induction false} PiLane(k: nat)
    requires k < 24
    ensures 1 <= PiTransform(k) < 25 && PiPosition(PiTransform(k)) == k
  {
    Below24(k);
  }

  lemma {:induction false} PiPositions(i: nat)
    requires 1 <= i < 25
    ensures PiPosition(i) < 24 && PiTransform(PiPosition(i)) == i
  {
    Below24(i - 1);
  }

  /** pi takes lane `i` from the lane one place on in the cycle. */
  lemma {:induction false} PiSourcePosition(i: nat)
    requires 1 <= i < 25
    ensures 1 <= PiSource(i) && PiPosition(PiSource(i)) == (PiPosition(i) + 1) % 24
  {
    PiSources();
    hide PiSource;
    Below24(i - 1);
  }

  lemma {:induction false} PiSources()
    ensures PiSource(0) == 0 && PiSource(1) == 6 && PiSource(2) == 12 && PiSource(3) == 18 && PiSource(4) == 24
    ensures PiSource(5) == 3 && PiSource(6) == 9 && PiSource(7) == 10 && PiSource(8) == 16 && PiSource(9) == 22
    ensures PiSource(10) == 1 && PiSource(11) == 7 && PiSource(12) == 13 && PiSource(13) == 19 && PiSource(14) == 20
    ensures PiSource(15) == 4 && PiSource(16) == 5 && PiSource(17) == 11 && PiSource(18) == 17 && PiSource(19) == 23
    ensures PiSource(20) == 2 && PiSource(21) == 8 && PiSource(22) == 14 && PiSource(23) == 15 && PiSource(24) == 21
  {
    hide PiSource;
    PiSourceIs(0, 0); PiSourceIs(1, 0); PiSourceIs(2, 0); PiSourceIs(3, 0); PiSourceIs(4, 0);
    PiSourceIs(0, 1); PiSourceIs(1, 1); PiSourceIs(2, 1); PiSourceIs(3, 1); PiSourceIs(4, 1);
    PiSourceIs(0, 2); PiSourceIs(1, 2); PiSourceIs(2, 2); PiSourceIs(3, 2); PiSourceIs(4, 2);
    PiSourceIs(0, 3); PiSourceIs(1, 3); PiSourceIs(2, 3); PiSourceIs(3, 3); PiSourceIs(4, 3);
    PiSourceIs(0, 4); PiSourceIs(1, 4); PiSourceIs(2, 4); PiSourceIs(3, 4); PiSourceIs(4, 4);
  }

  lemma {:induction false} PiSourceIs(x: nat, y: nat)
    requires x < 5 && y < 5
    ensures 5 * y + x < 25 && PiSource(5 * y + x) == 5 * x + (x + 3 * y) % 5
  {}

  /** The table is one cycle through lanes 1 to 24, each taking its value from the next. */
  lemma {:induction false} PiCycle(k: nat)
    requires k < 24
    ensures 1 <= PiTransform(k) < 25 && PiPosition(PiTransform(k)) == k
    ensures PiSource(PiTransform(k)) == PiTransform((k + 1) % 24)
  {
    hide PiPosition, PiTransform, PiSource;
    PiLane(k);
    PiSourcePosition(PiTransform(k));
    PiPositions(PiSource(PiTransform(k)));
  }

  /** The first `k` assignments of the cycle, each taking the value before the next. */
  function PiTo(a: State, k: nat): (r: State)
    ensures r[0] == a[0] && forall i :: 1 <= i < 25 ==> r[i] == if PiPosition(i) < k then a[PiSource(i)] else a[i]
  {
    seq(25, i requires 0 <= i < 25 => if i > 0 && PiPosition(i) < k then a[PiSource(i)] else a[i])
  }

  lemma {:induction false} PiToStep(a: State, k: nat)
    requires k < 23
    ensures PiTransform(k) < 25 && PiTransform(k + 1) < 25
    ensures PiTo(a, k + 1) == PiTo(a, k)[PiTransform(k) := PiTo(a, k)[PiTransform(k + 1)]]
  {
    hide PiPosition, PiTransform, PiSource;
    PiCycle(k);
    PiCycle(k + 1);
    forall i | 0 <= i < 25 && i != PiTransform(k) ensures PiTo(a, k + 1)[i] == PiTo(a, k)[i] {
      if i > 0 { PiPositions(i); }
    }
  }

  lemma {:induction false} PiToEnds(a: State)
    ensures PiTo(a, 0) == a && PiTo(a, 23)[10 := a[1]] == Pi(a)
  {
    PiEnds();
    hide PiPosition, PiTransform, PiSource;
    forall i | 0 <= i < 25 && i != 10 ensures PiTo(a, 23)[i] == Pi(a)[i] {
      if i > 0 { PiPositions(i); }
    }
  }

  lemma {:induction false} PiEnds()
    ensures PiSource(0) == 0 && PiTransform(0) == 1 && PiTransform(23) == 10 && PiSource(10) == 1
  {
    PiSources();
    hide PiSource;
  }

  method KeccakPi(a: array<Lane>)
    requires a.Length == 25
    modifies a
    ensures a[..] == Pi(old(a[..]))
  {
    hide PiTo, Pi, GetConstant;
    ghost var before: State := a[..];
    PiToEnds(before);
    var a1 := a[1];
    for i := 1 to 24
      invariant a[..] == PiTo(before, i - 1)
    {
      PiToStep(before, i - 1);
      a[GetConstant(TYPE_PI_TRANSFORM, i - 1)] := a[GetConstant(TYPE_PI_TRANSFORM, i)];
    }
    a[10] := a1;
  }

  // ---------- chi ----------

  function ChiLane(a: State, i: nat): Lane
    requires i < 25
  {
    var row := 5 * (i / 5);
    XorLane(a[i], AndNot(a[row + (i % 5 + 1) % 5], a[row + (i % 5 + 2) % 5]))
  }

  /** The rows below lane `i` already changed. */
  function ChiTo(a: State, i: nat): (r: State)
    ensures forall k :: 0 <= k < 25 ==> r[k] == if k < i then ChiLane(a, k) else a[k]
  {
    seq(25, k requires 0 <= k < 25 => if k < i then ChiLane(a, k) else a[k])
  }

  lemma {:induction false} ChiLaneAt(a: State, row: nat, i: nat, x: nat)
    requires row < 5 && i == 5 * row && x < 5
    ensures ChiLane(a, i + x) ==
            XorLane(a[i + x], AndNot(a[if x < 4 then i + x + 1 else i], a[if x < 3 then i + x + 2 else i + x - 3]))
  {
    assert (i + x) % 5 == x && (i + x) / 5 == row;
  }

  lemma {:induction false} ChiToAll(a: State)
    ensures ChiTo(a, 0) == a && ChiTo(a, 25) == Chi(a)
  {
    hide ChiLane, Chi;
    forall i, z | 0 <= i < 25 && 0 <= z < 64 ensures ChiTo(a, 25)[i][z] == Chi(a)[i][z] {
      ChiLaneBit(a, i, z);
    }
    SameState(ChiTo(a, 25), Chi(a));
  }

  /** One row changed, from lane `i` on. */
  predicate RowChanged(b: State, r: State, i: nat)
    requires i <= 20
  {
    && r[i] == XorLane(b[i], AndNot(b[i + 1], b[i + 2]))
    && r[i + 1] == XorLane(b[i + 1], AndNot(b[i + 2], b[i + 3]))
    && r[i + 2] == XorLane(b[i + 2], AndNot(b[i + 3], b[i + 4]))
    && r[i + 3] == XorLane(b[i + 3], AndNot(b[i + 4], b[i]))
    && r[i + 4] == XorLane(b[i + 4], AndNot(b[i], b[i + 1]))
    && forall k :: 0 <= k < 25 && !(i <= k < i + 5) ==> r[k] == b[k]
  }

  /** The body of the loop of keccak_chi. */
  method ChiRow(a: array<Lane>, i: nat)
    requires a.Length == 25 && i <= 20
    modifies a
    ensures RowChanged(old(a[..]), a[..], i)
  {
    hide XorLane, AndNot;
    var a0, a1 := a[0 + i], a[1 + i];
    a[0 + i] := XorLane(a[0 + i], AndNot(a1, a[2 + i]));
    a[1 + i] := XorLane(a[1 + i], AndNot(a[2 + i], a[3 + i]));
    a[2 + i] := XorLane(a[2 + i], AndNot(a[3 + i], a[4 + i]));
    a[3 + i] := XorLane(a[3 + i], AndNot(a[4 + i], a0));
    a[4 + i] := XorLane(a[4 + i], AndNot(a0, a1));
  }

  method KeccakChi(a: array<Lane>)
    requires a.Length == 25
    modifies a
    ensures a[..] == Chi(old(a[..]))
  {
    hide Chi, ChiTo, RowChanged;
    ghost var before: State := a[..];
    ChiToAll(before);
    var i := 0;
    ghost var row := 0;
    while i < 25
      invariant row <= 5 && i == 5 * row
      invariant a[..] == ChiTo(before, i)
    {
      ghost var current: State := a[..];
      ChiRow(a, i);
      ChiToStep(before, row, i, current, a[..]);
      i, row := i + 5, row + 1;
    }
  }

  lemma {:induction false} ChiToStep(a: State, row: nat, i: nat, current: State, next: State)
    requires row < 5 && i == 5 * row && current == ChiTo(a, i)
    requires RowChanged(current, next, i)
    ensures next == ChiTo(a, i + 5)
  {
    hide XorLane, AndNot, ChiLane;
    assert current[i] == a[i] && current[i + 1] == a[i + 1] && current[i + 2] == a[i + 2]
        && current[i + 3] == a[i + 3] && current[i + 4] == a[i + 4];
    forall k | 0 <= k < 25 ensures next[k] == ChiTo(a, i + 5)[k] {
      if i <= k < i + 5 { ChiLaneAt(a, row, i, k - i); }
    }
  }

  lemma {:induction false} ChiLaneBit(a: State, i: nat, z: nat)
    requires i < 25 && z < 64
    ensures ChiLane(a, i)[z] == Chi(a)[i][z]
  {
    assert 5 * (i / 5) + i % 5 == i;
  }

  // ---------- iota ----------

  /** `info & (1 << k)` is not zero. */
  predicate HasBit(info: nat, k: nat)
    requires k < 8
  {
    match k
    case 0 => info % 2 == 1
    case 1 => info / 2 % 2 == 1
    case 2 => info / 4 % 2 == 1
    case 3 => info / 8 % 2 == 1
    case 4 => info / 16 % 2 == 1
    case 5 => info / 32 % 2 == 1
    case 6 => info / 64 % 2 == 1
    case 7 => info / 128 % 2 == 1
  }

  method GetRoundConstant(round: nat) returns (result: Lane)
    requires round < 24
    ensures result == RoundConstant(round)
  {
    hide HasBit, Rc, RcBit;
    result := ZeroLane();
    var roundInfo := GetConstant(TYPE_ROUND_INFO, round);
    if HasBit(roundInfo, 6) { result := result[63 := true]; }
    if HasBit(roundInfo, 5) { result := result[31 := true]; }
    if HasBit(roundInfo, 4) { result := result[15 := true]; }
    if HasBit(roundInfo, 3) { result := result[7 := true]; }
    if HasBit(roundInfo, 2) { result := result[3 := true]; }
    if HasBit(roundInfo, 1) { result := result[1 := true]; }
    if HasBit(roundInfo, 0) { result := result[0 := true]; }
    forall z | 0 <= z < 64 ensures result[z] == RoundConstant(round)[z] {
      RoundConstantBit(round, z);
    }
  }

  /** The seven bits the table packs are the seven that may be set. */
  lemma {:induction false} RoundConstantBit(round: nat, z: nat)
    requires round < 24 && z < 64
    ensures RcBit(round, z) <==>
            var info := GetConstant(TYPE_ROUND_INFO, round);
            || (z == 63 && HasBit(info, 6)) || (z == 31 && HasBit(info, 5)) || (z == 15 && HasBit(info, 4))
            || (z == 7 && HasBit(info, 3)) || (z == 3 && HasBit(info, 2)) || (z == 1 && HasBit(info, 1))
            || (z == 0 && HasBit(info, 0))
  {
    hide Rc, HasBit;
    forall j | 0 <= j <= 6 ensures Rc(j + 7 * round) <==> HasBit(GetConstant(TYPE_ROUND_INFO, round), j) {
      RcIsTable(round, j);
    }
    assert RcPosition(0) == 0 && RcPosition(1) == 1 && RcPosition(2) == 3 && RcPosition(3) == 7
        && RcPosition(4) == 15 && RcPosition(5) == 31 && RcPosition(6) == 63;
    var info := GetConstant(TYPE_ROUND_INFO, round);
    if z == 0 { assert RcBit(round, z) <==> Rc(0 + 7 * round); }
    else if z == 1 { assert RcBit(round, z) <==> Rc(1 + 7 * round); }
    else if z == 3 { assert RcBit(round, z) <==> Rc(2 + 7 * round); }
    else if z == 7 { assert RcBit(round, z) <==> Rc(3 + 7 * round); }
    else if z == 15 { assert RcBit(round, z) <==> Rc(4 + 7 * round); }
    else if z == 31 { assert RcBit(round, z) <==> Rc(5 + 7 * round); }
    else if z == 63 { assert RcBit(round, z) <==> Rc(6 + 7 * round); }
  }

  /** The register at the start of each round, seven steps apart. */
  function RegisterOfRound(round: nat): Register
    requires round < 24
  {
    match round
    case 0 => Register(true, false, false, false, false, false, false, false)
    case 1 => Register(false, false, false, false, false, false, false, true)
    case 2 => Register(false, false, false, true, true, false, true, true)
    case 3 => Register(false, true, false, true, true, false, false, false)
    case 4 => Register(true, true, true, true, true, false, true, true)
    case 5 => Register(true, false, false, true, false, false, false, false)
    case 6 => Register(true, false, true, false, true, true, false, false)
    case 7 => Register(true, true, true, true, false, false, true, false)
    case 8 => Register(false, true, false, true, false, false, true, true)
    case 9 => Register(false, false, false, false, true, true, true, false)
    case 10 => Register(true, false, false, false, false, false, true, false)
    case 11 => Register(false, false, true, true, false, true, true, true)
    case 12 => Register(true, false, true, false, true, false, true, true)
    case 13 => Register(true, false, true, true, false, false, true, true)
    case 14 => Register(true, true, false, false, false, true, true, false)
    case 15 => Register(true, true, false, true, false, true, false, true)
    case 16 => Register(false, true, false, true, false, true, false, true)
    case 17 => Register(false, true, false, true, false, true, false, false)
    case 18 => Register(false, true, false, false, true, true, true, true)
    case 19 => Register(false, false, false, true, false, true, true, true)
    case 20 => Register(true, true, true, false, true, true, false, false)
    case 21 => Register(false, true, true, true, true, true, false, false)
    case 22 => Register(true, true, false, true, false, false, false, false)
    case 23 => Register(false, false, true, false, false, false, true, false)
  }

  /** The bit r0 of the register, `j` steps on from `r`. */
  predicate OutputBit(r: Register, j: nat)
    requires j <= 6
  {
    match j
    case 0 => r.r0
    case 1 => r.r7
    case 2 => r.r6
    case 3 => r.r5 != r.r7
    case 4 => (r.r4 != r.r6) != r.r7
    case 5 => (r.r3 != r.r5) != r.r6
    case 6 => (r.r2 != r.r4) != r.r5
  }

  /** The register seven steps on from `r`. */
  function SevenSteps(r: Register): Register {
    Register((r.r1 != r.r3) != r.r4, (r.r2 != r.r4) != r.r5, (r.r3 != r.r5) != r.r6, (r.r4 != r.r6) != r.r7,
             (((r.r1 != r.r3) != r.r4) != r.r5) != r.r7,
             (((r.r1 != r.r2) != r.r3) != r.r5) != r.r6,
             ((r.r1 != r.r2) != r.r6) != r.r7, ((r.r0 != r.r2) != r.r3) != r.r7)
  }

  lemma {:induction false} RegisterOutputs(r: Register, t: nat)
    requires RegisterAt(t) == r
    ensures forall j :: 0 <= j <= 6 ==> RegisterAt(t + j).r0 == OutputBit(r, j)
    ensures RegisterAt(t + 7) == SevenSteps(r)
  {
    hide RegisterAt, OutputBit, SevenSteps, RegisterStep;
    RegisterNext(t);
    RegisterNext(t + 1);
    RegisterNext(t + 2);
    RegisterNext(t + 3);
    RegisterNext(t + 4);
    RegisterNext(t + 5);
    RegisterNext(t + 6);
    StepOutputs(r, RegisterAt(t + 1), RegisterAt(t + 2), RegisterAt(t + 3),
                RegisterAt(t + 4), RegisterAt(t + 5), RegisterAt(t + 6));
    forall j | 0 <= j <= 6 ensures RegisterAt(t + j).r0 == OutputBit(r, j) {
      assert j == 0 || j == 1 || j == 2 || j == 3 || j == 4 || j == 5 || j == 6;
    }
  }

  lemma {:induction false} RegisterNext(t: nat)
    ensures RegisterAt(t + 1) == RegisterStep(RegisterAt(t))
  {}

  lemma {:induction false} StepOutputs(r: Register, r1: Register, r2: Register, r3: Register,
                                       r4: Register, r5: Register, r6: Register)
    requires r1 == RegisterStep(r) && r2 == RegisterStep(r1) && r3 == RegisterStep(r2) && r4 == RegisterStep(r3)
    requires r5 == RegisterStep(r4) && r6 == RegisterStep(r5)
    ensures OutputBit(r, 0) == r.r0 && OutputBit(r, 1) == r1.r0 && OutputBit(r, 2) == r2.r0
    ensures OutputBit(r, 3) == r3.r0 && OutputBit(r, 4) == r4.r0 && OutputBit(r, 5) == r5.r0
    ensures OutputBit(r, 6) == r6.r0
    ensures SevenSteps(r) == RegisterStep(r6)
  {}

  lemma {:induction false} NextRound(round: nat)
    requires round < 23
    ensures RegisterOfRound(round + 1) == SevenSteps(RegisterOfRound(round))
  {
    Below24(round);
  }

  lemma {:induction false} RegistersOfRounds(round: nat)
    requires round < 24
    ensures RegisterAt(7 * round) == RegisterOfRound(round)
  {
    hide RegisterOfRound, SevenSteps;
    if round == 0 {
      FirstRound();
    } else {
      RegistersOfRounds(round - 1);
      RegisterOutputs(RegisterOfRound(round - 1), 7 * (round - 1));
      NextRound(round - 1);
    }
  }

  lemma {:induction false} FirstRound()
    ensures RegisterAt(0) == RegisterOfRound(0)
  {}

  /** Every entry of the table packs the seven bits its round's register puts out. */
  lemma {:induction false} TableBit(round: nat, j: nat)
    requires round < 24 && j <= 6
    ensures HasBit(GetConstant(TYPE_ROUND_INFO, round), j) == OutputBit(RegisterOfRound(round), j)
  {
    Below24(round);
    match j
    case 0 =>
    case 1 =>
    case 2 =>
    case 3 =>
    case 4 =>
    case 5 =>
    case 6 =>
  }

  /** `rc(j + 7 round)` of Algorithm 5 is bit j of the table's entry. */
  lemma {:induction false} RcIsTable(round: nat, j: nat)
    requires round < 24 && j <= 6
    ensures Rc(j + 7 * round) <==> HasBit(GetConstant(TYPE_ROUND_INFO, round), j)
  {
    hide Rc, RegisterAt, HasBit, OutputBit, RegisterOfRound, GetConstant, SevenSteps;
    RegistersOfRounds(round);
    RegisterOutputs(RegisterOfRound(round), 7 * round);
    TableBit(round, j);
    RcBelow(7 * round + j);
    assert j + 7 * round == 7 * round + j;
  }

  lemma {:induction false} RcBelow(t: nat)
    requires t < 255
    ensures Rc(t) == RegisterAt(t).r0
  {}

  // ---------- the permutation ----------

  method Sha3Permutation(state: array<Lane>)
    requires state.Length == 25
    modifies state
    ensures state[..] == KeccakF(old(state[..]))
  {
    hide Theta, Rho, Pi, Chi, RoundConstant, Iota, Rnd, Rounds, XorLane;
    ghost var before: State := state[..];
    RoundsSteps(before, 0);
    for round := 0 to 24
      invariant state[..] == Rounds(before, round)
    {
      KeccakTheta(state);
      KeccakRho(state);
      KeccakPi(state);
      KeccakChi(state);
      ghost var mixed: State := state[..];
      var constant := GetRoundConstant(round);
      state[0] := XorLane(state[0], constant);
      IotaIs(mixed, round);
      assert state[..] == Iota(mixed, round);
      RoundsSteps(before, round);
    }
  }

  lemma {:induction false} IotaIs(a: State, round: nat)
    ensures Iota(a, round) == a[0 := XorLane(a[0], RoundConstant(round))]
  {}

  lemma {:induction false} RoundsSteps(a: State, n: nat)
    ensures Rounds(a, 0) == a
    ensures Rounds(a, n + 1) == Iota(Chi(Pi(Rho(Theta(Rounds(a, n))))), n)
  {
    hide Theta, Rho, Pi, Chi, Iota;
  }
}
