/**
 The parts of FIPS 202 that Keccak-256 is built from, bit by bit: the step mappings of section 3.2,
 Keccak-f[1600] (sections 3.3 and 3.4), the sponge of section 4 and pad10*1 of section 5.1.
 The lane A[x, y] is the element 5y + x of a state; its bit z is A[x, y, z] (section 3.1.2).
 */
module Fips202 {

  type Lane = s: seq<bool> | |s| == 64 witness seq(64, _ => false)

  type State = s: seq<Lane> | |s| == 25 witness seq(25, _ => ZeroLane())

  function ZeroLane(): Lane { seq(64, _ => false) }

  function ZeroState(): State { seq(25, _ => ZeroLane()) }

  function Bit(a: State, x: nat, y: nat, z: nat): bool
    requires x < 5 && y < 5 && z < 64
  {
    a[5 * y + x][z]
  }

  // ---------- section 3.2.1 ----------

  function ColumnParity(a: State, x: nat, z: nat): bool
    requires x < 5 && z < 64
  {
    (((Bit(a, x, 0, z) != Bit(a, x, 1, z)) != Bit(a, x, 2, z)) != Bit(a, x, 3, z)) != Bit(a, x, 4, z)
  }

  function ThetaBit(a: State, x: nat, y: nat, z: nat): bool
    requires x < 5 && y < 5 && z < 64
  {
    Bit(a, x, y, z) != (ColumnParity(a, (x + 4) % 5, z) != ColumnParity(a, (x + 1) % 5, (z + 63) % 64))
  }

  function Theta(a: State): (r: State)
    ensures forall i, z :: 0 <= i < 25 && 0 <= z < 64 ==> r[i][z] == ThetaBit(a, i % 5, i / 5, z)
  {
    seq(25, i requires 0 <= i < 25 => seq(64, z requires 0 <= z < 64 => ThetaBit(a, i % 5, i / 5, z)))
  }

  // ---------- section 3.2.2 ----------

  /** The t-th lane visited: (1, 0), then (x, y) becomes (y, (2x + 3y) mod 5). */
  function RhoWalk(t: nat): (p: (nat, nat))
    ensures p.0 < 5 && p.1 < 5
  {
    if t == 0 then (1, 0) else
      var (x, y) := RhoWalk(t - 1);
      (y, (2 * x + 3 * y) % 5)
  }

  function RhoIndex(t: nat): (i: nat)
    ensures i < 25
  {
    5 * RhoWalk(t).1 + RhoWalk(t).0
  }

  function RhoOffset(t: nat): nat {
    (t + 1) * (t + 2) / 2
  }

  /** The lane with its bit z taken from bit (z - n) mod 64. */
  function Shifted(l: Lane, n: nat): (r: Lane)
    ensures forall z :: 0 <= z < 64 ==> r[z] == l[(z - n) % 64]
  {
    seq(64, z requires 0 <= z < 64 => l[(z - n) % 64])
  }

  /** Steps t to 23 of the algorithm, with `r` the lanes already set. */
  function RhoFrom(a: State, r: State, t: nat): State
    requires t <= 24
    decreases 24 - t
  {
    if t == 24 then r else RhoFrom(a, r[RhoIndex(t) := Shifted(a[RhoIndex(t)], RhoOffset(t))], t + 1)
  }

  function Rho(a: State): State {
    RhoFrom(a, a, 0)
  }

  // ---------- section 3.2.3 ----------

  /** Where A'[x, y] comes from: A[(x + 3y) mod 5, x]. */
  function PiSource(i: nat): (j: nat)
    requires i < 25
    ensures j < 25
  {
    5 * (i % 5) + (i % 5 + 3 * (i / 5)) % 5
  }

  function Pi(a: State): (r: State)
    ensures forall i :: 0 <= i < 25 ==> r[i] == a[PiSource(i)]
  {
    seq(25, i requires 0 <= i < 25 => a[PiSource(i)])
  }

  /** Seen from the lane that moves: A[x, y] goes to A'[y, (2x + 3y) mod 5]. */
  lemma {:induction false} PiMoves(a: State, x: nat, y: nat)
    requires x < 5 && y < 5
    ensures Pi(a)[5 * ((2 * x + 3 * y) % 5) + y] == a[5 * y + x]
  {
    hide Pi, PiSource;
    PiSourceOf(x, y);
  }

  lemma {:induction false} PiSourceOf(x: nat, y: nat)
    requires x < 5 && y < 5
    ensures PiSource(5 * ((2 * x + 3 * y) % 5) + y) == 5 * y + x
  {
    var t, k := (2 * x + 3 * y) % 5, (2 * x + 3 * y) / 5;
    DivMod5(5 * t + y, t, y);
    DivMod5(y + 3 * t, x + 2 * y - 3 * k, x);
  }

  lemma {:induction false} DivMod5(n: int, q: int, r: int)
    requires n == 5 * q + r && 0 <= r < 5
    ensures n / 5 == q && n % 5 == r
  {}

  // ---------- section 3.2.4 ----------

  function ChiBit(a: State, x: nat, y: nat, z: nat): bool
    requires x < 5 && y < 5 && z < 64
  {
    Bit(a, x, y, z) != (!Bit(a, (x + 1) % 5, y, z) && Bit(a, (x + 2) % 5, y, z))
  }

  function Chi(a: State): (r: State)
    ensures forall i, z :: 0 <= i < 25 && 0 <= z < 64 ==> r[i][z] == ChiBit(a, i % 5, i / 5, z)
  {
    seq(25, i requires 0 <= i < 25 => seq(64, z requires 0 <= z < 64 => ChiBit(a, i % 5, i / 5, z)))
  }

  /** Chi changes exactly the bits whose next in the row is clear and whose next but one is set. */
  lemma {:induction false} ChiChanges(a: State, x: nat, y: nat, z: nat)
    requires x < 5 && y < 5 && z < 64
    ensures Chi(a)[5 * y + x][z] != a[5 * y + x][z] <==> !a[5 * y + (x + 1) % 5][z] && a[5 * y + (x + 2) % 5][z]
  {
    assert (5 * y + x) % 5 == x && (5 * y + x) / 5 == y;
  }

  // ---------- section 3.2.5 ----------

  /** The eight-bit shift register of rc(t); one step is one pass of its loop. */
  datatype Register = Register(r0: bool, r1: bool, r2: bool, r3: bool, r4: bool, r5: bool, r6: bool, r7: bool)

  function RegisterStep(r: Register): Register {
    Register(r.r7, r.r0, r.r1, r.r2, r.r3 != r.r7, r.r4 != r.r7, r.r5 != r.r7, r.r6)
  }

  function RegisterAt(t: nat): Register {
    if t == 0 then Register(true, false, false, false, false, false, false, false) else RegisterStep(RegisterAt(t - 1))
  }

  function Rc(t: nat): bool {
    RegisterAt(t % 255).r0
  }

  /** 2^j - 1 for j = 0 to 6. */
  function RcPosition(j: nat): nat
    requires j <= 6
  {
    match j
    case 0 => 0
    case 1 => 1
    case 2 => 3
    case 3 => 7
    case 4 => 15
    case 5 => 31
    case 6 => 63
  }

  function RcBit(round: nat, z: nat): bool {
    exists j :: 0 <= j <= 6 && z == RcPosition(j) && Rc(j + 7 * round)
  }

  function RoundConstant(round: nat): (r: Lane)
    ensures forall z :: 0 <= z < 64 ==> r[z] == RcBit(round, z)
  {
    seq(64, z requires 0 <= z < 64 => RcBit(round, z))
  }

  function XorLane(l: Lane, m: Lane): (r: Lane)
    ensures forall z :: 0 <= z < 64 ==> r[z] == (l[z] != m[z])
  {
    seq(64, z requires 0 <= z < 64 => l[z] != m[z])
  }

  function Iota(a: State, round: nat): State {
    a[0 := XorLane(a[0], RoundConstant(round))]
  }

  // ---------- sections 3.3 and 3.4 ----------

  function Rnd(a: State, round: nat): State {
    Iota(Chi(Pi(Rho(Theta(a)))), round)
  }

  function Rounds(a: State, n: nat): State {
    if n == 0 then a else Rnd(Rounds(a, n - 1), n - 1)
  }

  function KeccakF(a: State): State {
    Rounds(a, 24)
  }

  // ---------- sections 4, 5.1 and 5.2 ----------

  /** 1600 - 512 */
  const RATE_BITS: nat := 1088

  function Zeros(n: nat): (s: seq<bool>)
    ensures |s| == n && forall i :: 0 <= i < n ==> !s[i]
  {
    seq(n, _ => false)
  }

  /** pad10*1 for a message of `m` bits. */
  function Pad(m: nat): (p: seq<bool>)
    ensures (m + |p|) % RATE_BITS == 0
    ensures 2 <= |p| < RATE_BITS + 2 && p[0] && p[|p| - 1] && forall k :: 0 < k < |p| - 1 ==> !p[k]
  {
    var j := (0 - m - 2) % RATE_BITS;
    PadLength(m, j);
    [true] + Zeros(j) + [true]
  }

  lemma PadLength(m: nat, j: nat)
    requires j == (0 - m - 2) % RATE_BITS
    ensures (m + j + 2) % RATE_BITS == 0
  {}

  lemma Multiple(n: nat)
    requires n > 0 && n % RATE_BITS == 0
    ensures n >= RATE_BITS && (n - RATE_BITS) % RATE_BITS == 0
  {}

  /** The state xor (block || zeros of the capacity). */
  function XorBlock(a: State, block: seq<bool>): (r: State)
    requires |block| == RATE_BITS
    ensures forall i, z :: 0 <= i < 25 && 0 <= z < 64 ==>
              r[i][z] == (a[i][z] != (64 * i + z < RATE_BITS && block[64 * i + z]))
  {
    seq(25, i requires 0 <= i < 25 =>
      seq(64, z requires 0 <= z < 64 => a[i][z] != (64 * i + z < RATE_BITS && block[64 * i + z])))
  }

  function Absorb(a: State, p: seq<bool>): State
    requires |p| % RATE_BITS == 0
    decreases |p|
  {
    if p == [] then a else
      Multiple(|p|);
      Absorb(KeccakF(XorBlock(a, p[..RATE_BITS])), p[RATE_BITS..])
  }

  /** The first `d` bits of the state string; no second squeeze is needed up to the rate. */
  function Trunc(a: State, d: nat): (r: seq<bool>)
    requires d <= RATE_BITS
    ensures |r| == d && forall k :: 0 <= k < d ==> r[k] == a[k / 64][k % 64]
  {
    seq(d, k requires 0 <= k < d => a[k / 64][k % 64])
  }

  /** KECCAK[512](N, d) */
  function Keccak512(n: seq<bool>, d: nat): seq<bool>
    requires d <= RATE_BITS
  {
    Trunc(Absorb(ZeroState(), n + Pad(|n|)), d)
  }
}
