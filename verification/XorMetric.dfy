/** `KademliaPeerPool::calcDifference` (src/core/host.cpp) and the metric it is the logarithm of. */
module XorMetric {
  import opened Types
  import opened Blocks
  import opened Positional

  const ADDRESS_BITS: nat := 160

  // ---------- the bits of an address, most significant first ----------

  /** `x <<= 1`, `n` times, in a byte. */
  function Shifted(x: Byte, n: nat): Byte {
    if n == 0 then x else Shifted(x, n - 1) * 2 % 256
  }

  /** `x & 0b10000000` */
  function TopBit(x: Byte): nat {
    if x >= 128 then 1 else 0
  }

  function ByteBits(x: Byte): (s: seq<nat>)
    ensures |s| == 8 && forall k :: 0 <= k < 8 ==> s[k] == TopBit(Shifted(x, k))
  {
    seq(8, k requires 0 <= k < 8 => TopBit(Shifted(x, k)))
  }

  function Bits(m: seq<Byte>): (s: seq<nat>)
    ensures |s| == 8 * |m| && AreDigits(2, s)
    ensures forall k :: 0 <= k < 8 * |m| ==> s[k] == TopBit(Shifted(m[k / 8], k % 8))
  {
    seq(8 * |m|, k requires 0 <= k < 8 * |m| => TopBit(Shifted(m[k / 8], k % 8)))
  }

  /** One shift moves the top bit out; `p * c` is what was left of the byte, and `h` the weight of its top bit. */
  lemma {:induction false} ShiftStep(p: nat, c: nat, h: nat) returns (t: nat, rest: nat)
    requires p * h == 128 && c < 2 * h
    ensures t == (if p * c >= 128 then 1 else 0) && rest < h && c == t * h + rest
    ensures p * c < 256 && p * c * 2 % 256 == 2 * p * rest
  {
    if c < h {
      t, rest := 0, c;
      MulMonotone(p, p, c + 1, h);
      assert p * (c + 1) == p * c + p && p > 0;
    } else {
      t, rest := 1, c - h;
      assert p * c == p * h + p * rest;
      MulMonotone(p, p, rest + 1, h);
      assert p * (rest + 1) == p * rest + p && p > 0;
    }
    assert 2 * p * rest == 2 * (p * rest);
  }

  lemma {:induction false} PowersOfTwo(n: nat)
    requires n <= 8
    ensures Pow(2, n) * Pow(2, 8 - n) == 256
  {
    PowAdd(2, n, 8 - n);
    assert Pow(2, 4) == 16;
    assert Pow(2, 8) == 256;
  }

  /** The first `n` bits and what the byte still holds make up the byte. */
  lemma {:induction false} FirstBits(x: Byte, n: nat) returns (c: nat)
    requires n <= 8
    ensures c < Pow(2, 8 - n) && Shifted(x, n) == Pow(2, n) * c
    ensures x == Value(2, ByteBits(x)[..n]) * Pow(2, 8 - n) + c
  {
    hide Shifted, Value, Pow, TopBit;
    if n == 0 {
      c := x;
      NoBits(x);
    } else {
      var before := FirstBits(x, n - 1);
      var (p, h) := (Pow(2, n - 1), Pow(2, 8 - n));
      HalvedWeights(n);
      var t, rest := ShiftStep(p, before, h);
      c := rest;
      var bits := ByteBits(x)[..n];
      assert bits[..n - 1] == ByteBits(x)[..n - 1];
      assert bits[n - 1] == t by { TopBitIs(Shifted(x, n - 1)); }
      OneMore(x, n, bits);
      NextBit(x, Value(2, bits[..n - 1]), t, h, before, rest);
    }
  }

  lemma {:induction false} TopBitIs(x: Byte)
    ensures TopBit(x) == if x >= 128 then 1 else 0
  {}

  lemma {:induction false} NoBits(x: Byte)
    ensures Shifted(x, 0) == x == Pow(2, 0) * x && Value(2, ByteBits(x)[..0]) == 0 && Pow(2, 8) == 256
  {
    PowersOfTwo(0);
  }

  lemma {:induction false} HalvedWeights(n: nat)
    requires 0 < n <= 8
    ensures Pow(2, n) == 2 * Pow(2, n - 1) && Pow(2, 8 - (n - 1)) == 2 * Pow(2, 8 - n)
    ensures Pow(2, n - 1) * Pow(2, 8 - n) == 128
  {
    PowersOfTwo(n);
    assert 2 * Pow(2, n - 1) * Pow(2, 8 - n) == 2 * (Pow(2, n - 1) * Pow(2, 8 - n));
  }

  lemma {:induction false} OneMore(x: Byte, n: nat, bits: seq<nat>)
    requires n > 0 && |bits| == n
    ensures Shifted(x, n) == Shifted(x, n - 1) * 2 % 256
    ensures Value(2, bits) == Value(2, bits[..n - 1]) * 2 + bits[n - 1]
  {}

  lemma {:induction false} NextBit(x: nat, v: nat, t: nat, h: nat, before: nat, rest: nat)
    requires x == v * (2 * h) + before && before == t * h + rest
    ensures x == (v * 2 + t) * h + rest
  {
    assert v * (2 * h) == v * 2 * h;
  }

  lemma {:induction false} ByteBitsSpell(x: Byte)
    ensures Value(2, ByteBits(x)) == x
  {
    var c := FirstBits(x, 8);
    assert ByteBits(x)[..8] == ByteBits(x);
  }

  lemma {:induction false} EqualBits(x: Byte, y: Byte)
    requires forall k :: 0 <= k < 8 ==> TopBit(Shifted(x, k)) == TopBit(Shifted(y, k))
    ensures x == y
  {
    ByteBitsSpell(x);
    ByteBitsSpell(y);
    assert ByteBits(x) == ByteBits(y);
  }

  /** The bits are the binary digits of the big-endian number the bytes are the base-256 digits of. */
  lemma {:induction false} BitsSpell(m: seq<Byte>)
    ensures Value(2, Bits(m)) == Value(256, m)
  {
    hide Shifted;
    if m == [] {
    } else {
      var front, x := m[..|m| - 1], m[|m| - 1];
      BitsSpell(front);
      ByteBitsSpell(x);
      PowersOfTwo(8);
      ValueConcat(2, Bits(front), ByteBits(x));
      assert Bits(m) == Bits(front) + ByteBits(x);
    }
  }

  // ---------- the metric ----------

  function XorBits(xs: seq<nat>, ys: seq<nat>): (s: seq<nat>)
    requires |xs| == |ys|
    ensures |s| == |xs| && AreDigits(2, s) && forall k :: 0 <= k < |s| ==> s[k] == if xs[k] == ys[k] then 0 else 1
  {
    seq(|xs|, k requires 0 <= k < |xs| => if xs[k] == ys[k] then 0 else 1)
  }

  /** `a xor b` as a 160-bit number. */
  function Distance(a: Address, b: Address): nat {
    Value(2, XorBits(Bits(a), Bits(b)))
  }

  /** The length of the common prefix. */
  function Common(xs: seq<nat>, ys: seq<nat>): (d: nat)
    requires |xs| == |ys|
    ensures d <= |xs| && (forall k :: 0 <= k < d ==> xs[k] == ys[k]) && (d < |xs| ==> xs[d] != ys[d])
  {
    if xs == [] || xs[0] != ys[0] then 0 else 1 + Common(xs[1..], ys[1..])
  }

  function Difference(a: Address, b: Address): (d: nat)
    ensures d <= ADDRESS_BITS
  {
    Common(Bits(a), Bits(b))
  }

  lemma {:induction false} SameBits(a: Address, b: Address)
    requires Bits(a) == Bits(b)
    ensures a == b
  {
    BitsSpell(a);
    BitsSpell(b);
    ValueInjective(256, a, b);
  }

  lemma {:induction false} LeadingBit(s: seq<nat>, d: nat)
    requires d < |s| && AreDigits(2, s) && s[d] == 1 && forall k :: 0 <= k < d ==> s[k] == 0
    ensures Pow(2, |s| - 1 - d) <= Value(2, s) < Pow(2, |s| - d)
  {
    var zeros, rest := s[..d], s[d + 1..];
    assert s == zeros + ([1] + rest);
    ValueConcat(2, zeros, [1] + rest);
    ValueZeros(2, zeros);
    assert 0 * Pow(2, |[1] + rest|) == 0;
    ValueCons(2, 1, rest);
    ValueBound(2, rest);
    assert Pow(2, |s| - d) == 2 * Pow(2, |rest|);
  }

  /** `calcDifference` is 159 less the binary logarithm of the distance; only equal addresses have 160. */
  lemma {:induction false} DifferenceIsLogarithm(a: Address, b: Address)
    ensures a == b <==> Difference(a, b) == ADDRESS_BITS
    ensures a != b ==> var d := Difference(a, b);
                       d < ADDRESS_BITS && Pow(2, 159 - d) <= Distance(a, b) < Pow(2, 160 - d)
  {
    hide Value, Pow, Shifted;
    var d := Common(Bits(a), Bits(b));
    if d == ADDRESS_BITS {
      assert Bits(a) == Bits(b);
      SameBits(a, b);
    } else {
      LeadingBit(XorBits(Bits(a), Bits(b)), d);
    }
  }

  lemma {:induction false} DifferenceSymmetric(a: Address, b: Address)
    ensures Difference(a, b) == Difference(b, a) && Distance(a, b) == Distance(b, a)
  {
    hide Value, Shifted;
    CommonUnique(Bits(b), Bits(a), Difference(a, b));
    assert XorBits(Bits(a), Bits(b)) == XorBits(Bits(b), Bits(a));
  }

  lemma {:induction false} CommonUnique(xs: seq<nat>, ys: seq<nat>, d: nat)
    requires |xs| == |ys| && d <= |xs| && (forall k :: 0 <= k < d ==> xs[k] == ys[k]) && (d < |xs| ==> xs[d] != ys[d])
    ensures d == Common(xs, ys)
  {}

  /** Of the three differences between three addresses the two least are equal. */
  lemma {:induction false} DifferenceUltrametric(a: Address, b: Address, c: Address)
    ensures var ab, bc, ac := Difference(a, b), Difference(b, c), Difference(a, c);
            ac >= (if ab < bc then ab else bc) && (ab != bc ==> ac == if ab < bc then ab else bc)
  {
    hide Shifted, Value;
    var xs, ys, zs := Bits(a), Bits(b), Bits(c);
    var ab, bc, ac := Common(xs, ys), Common(ys, zs), Common(xs, zs);
    var m := if ab < bc then ab else bc;
    forall k | 0 <= k < m ensures xs[k] == zs[k] {
      assert xs[k] == ys[k];
    }
    if ab != bc { assert xs[m] != zs[m]; }
  }

  // ---------- calcDifference ----------

  method CalcDifference(a: Address, b: Address) returns (d: nat)
    ensures d == Difference(a, b)
  {
    var byteIndex := 0;
    while byteIndex < 20 && a[byteIndex] == b[byteIndex]
      invariant byteIndex <= 20 && forall k :: 0 <= k < byteIndex ==> a[k] == b[k]
    {
      byteIndex := byteIndex + 1;
    }
    if byteIndex == 20 {
      assert a == b;
      DifferenceIsLogarithm(a, b);
      return ADDRESS_BITS;
    }
    var byteA: nat, byteB: nat := a[byteIndex], b[byteIndex];
    for bitIndex := 0 to 8
      invariant byteA == Shifted(a[byteIndex], bitIndex) && byteB == Shifted(b[byteIndex], bitIndex)
      invariant forall k :: 0 <= k < bitIndex ==> TopBit(Shifted(a[byteIndex], k)) == TopBit(Shifted(b[byteIndex], k))
    {
      if TopBit(byteA) != TopBit(byteB) {
        FoundAt(a, b, byteIndex, bitIndex);
        return byteIndex * 8 + bitIndex;
      }
      byteA := byteA * 2 % 256;
      byteB := byteB * 2 % 256;
    }
    EqualBits(a[byteIndex], b[byteIndex]);
    assert false;
  }

  lemma {:induction false} FoundAt(a: Address, b: Address, i: nat, j: nat)
    requires i < 20 && j < 8 && forall k :: 0 <= k < i ==> a[k] == b[k]
    requires forall k :: 0 <= k < j ==> TopBit(Shifted(a[i], k)) == TopBit(Shifted(b[i], k))
    requires TopBit(Shifted(a[i], j)) != TopBit(Shifted(b[i], j))
    ensures Difference(a, b) == i * 8 + j
  {
    hide Shifted, TopBit;
    var d := i * 8 + j;
    assert d / 8 == i && d % 8 == j;
    forall k | 0 <= k < d ensures Bits(a)[k] == Bits(b)[k] {
      if k / 8 == i { assert k % 8 < j; }
    }
    CommonUnique(Bits(a), Bits(b), d);
  }
}
