/**
 Positional notation, most significant digit first: the common ground of the big-endian
 thresholds of `Consensus` and of the two base conversions of `Base58`.
 */
module Positional {

  function Pow(b: nat, e: nat): (p: nat)
    ensures b > 0 ==> p > 0
  {
    if e == 0 then 1 else b * Pow(b, e - 1)
  }

  /** The number written by the digits `ds` in base `b`. */
  function Value(b: nat, ds: seq<nat>): nat {
    if ds == [] then 0 else Value(b, ds[..|ds| - 1]) * b + ds[|ds| - 1]
  }

  ghost predicate AreDigits(b: nat, ds: seq<nat>) {
    forall i :: 0 <= i < |ds| ==> ds[i] < b
  }

  /** No superfluous zero in front. */
  ghost predicate Minimal(ds: seq<nat>) {
    ds != [] ==> ds[0] != 0
  }

  /** The minimal digits of `n`; zero has no digit at all. */
  function ToDigits(b: nat, n: nat): (ds: seq<nat>)
    requires b >= 2
    ensures AreDigits(b, ds) && Minimal(ds) && Value(b, ds) == n
  {
    if n == 0 then [] else
      QuotientShrinks(b, n);
      var front := ToDigits(b, n / b);
      assert (front + [n % b])[..|front|] == front;
      assert front == [] ==> n / b == 0 && n % b == n;
      front + [n % b]
  }

  lemma {:induction false} QuotientShrinks(b: nat, n: nat)
    requires b >= 2 && n > 0
    ensures n / b < n && n == n / b * b + n % b
  {
    var q := n / b;
    assert n == q * b + n % b;
    MulMonotone(q, q, 2, b);
  }

  lemma {:induction false} PowAdd(b: nat, m: nat, n: nat)
    ensures Pow(b, m + n) == Pow(b, m) * Pow(b, n)
  {
    if m == 0 {
    } else {
      PowAdd(b, m - 1, n);
      assert Pow(b, m + n) == b * Pow(b, m - 1 + n);
      MulAssoc(b, Pow(b, m - 1), Pow(b, n));
    }
  }

  lemma {:induction false} PowSquared(b: nat, m: nat, x: nat)
    requires Pow(b, m) == x
    ensures Pow(b, 2 * m) == x * x
  {
    PowAdd(b, m, m);
  }

  lemma {:induction false} MulAssoc(a: nat, b: nat, c: nat)
    ensures a * (b * c) == a * b * c
  {}

  lemma {:induction false} MulMonotone(a: nat, b: nat, c: nat, d: nat)
    requires a <= b && c <= d
    ensures a * c <= b * d
  {
    assert a * c <= b * c <= b * d;
  }

  lemma {:induction false} PowMul(b: nat, m: nat, n: nat)
    ensures Pow(Pow(b, m), n) == Pow(b, m * n)
  {
    if n == 0 {
      assert m * n == 0;
    } else {
      PowMul(b, m, n - 1);
      assert m * n == m + m * (n - 1);
      PowAdd(b, m, m * (n - 1));
    }
  }

  lemma {:induction false} PowMonotoneBase(a: nat, b: nat, n: nat)
    requires a <= b
    ensures Pow(a, n) <= Pow(b, n)
  {
    if n == 0 {
    } else {
      PowMonotoneBase(a, b, n - 1);
      MulMonotone(a, b, Pow(a, n - 1), Pow(b, n - 1));
    }
  }

  lemma {:induction false} PowMonotoneExponent(b: nat, m: nat, n: nat)
    requires b > 0 && m <= n
    ensures Pow(b, m) <= Pow(b, n)
  {
    PowAdd(b, m, n - m);
    MulMonotone(Pow(b, m), Pow(b, m), 1, Pow(b, n - m));
  }

  lemma {:induction false} ValueBound(b: nat, ds: seq<nat>)
    requires b > 0 && AreDigits(b, ds)
    ensures Value(b, ds) < Pow(b, |ds|)
  {
    if ds == [] {
    } else {
      var front := ds[..|ds| - 1];
      ValueBound(b, front);
      RoomForOneMore(b, Value(b, front), Pow(b, |front|));
    }
  }

  lemma {:induction false} RoomForOneMore(b: nat, v: nat, p: nat)
    requires v < p
    ensures v * b + b <= b * p
  {
    MulMonotone(v + 1, p, b, b);
  }

  lemma {:induction false} ValueConcat(b: nat, xs: seq<nat>, ys: seq<nat>)
    ensures Value(b, xs + ys) == Value(b, xs) * Pow(b, |ys|) + Value(b, ys)
  {
    if ys == [] {
      assert xs + ys == xs;
    } else {
      var front, last := ys[..|ys| - 1], ys[|ys| - 1];
      assert (xs + ys)[..|xs + ys| - 1] == xs + front;
      ValueConcat(b, xs, front);
      ShiftDigits(b, Value(b, xs), Pow(b, |front|), Value(b, front));
    }
  }

  lemma {:induction false} ShiftDigits(b: nat, x: nat, p: nat, f: nat)
    ensures (x * p + f) * b == x * (b * p) + f * b
  {
    assert x * p * b == x * (b * p);
  }

  lemma {:induction false} ValueSingle(b: nat, d: nat)
    ensures Value(b, [d]) == d
  {
    assert [d][..0] == [];
    assert Value(b, []) * b == 0;
  }

  lemma {:induction false} ValueCons(b: nat, d: nat, ds: seq<nat>)
    ensures Value(b, [d] + ds) == d * Pow(b, |ds|) + Value(b, ds)
  {
    ValueConcat(b, [d], ds);
    ValueSingle(b, d);
  }

  lemma {:induction false} ValueZeros(b: nat, ds: seq<nat>)
    requires forall i :: 0 <= i < |ds| ==> ds[i] == 0
    ensures Value(b, ds) == 0
  {
    if ds == [] {
    } else {
      ValueZeros(b, ds[..|ds| - 1]);
      assert 0 * b == 0;
    }
  }

  lemma {:induction false} LeadingZeros(b: nat, zs: seq<nat>, ds: seq<nat>)
    requires forall i :: 0 <= i < |zs| ==> zs[i] == 0
    ensures Value(b, zs + ds) == Value(b, ds)
  {
    ValueConcat(b, zs, ds);
    ValueZeros(b, zs);
    assert 0 * Pow(b, |ds|) == 0;
  }

  lemma {:induction false} ValuePositive(b: nat, ds: seq<nat>)
    requires b > 0 && ds != [] && ds[0] != 0
    ensures Value(b, ds) > 0
  {
    assert ds == [ds[0]] + ds[1..];
    ValueCons(b, ds[0], ds[1..]);
    MulMonotone(1, ds[0], 1, Pow(b, |ds| - 1));
  }

  lemma {:induction false} DivModUnique(b: nat, q: nat, r: nat)
    requires r < b
    ensures (q * b + r) / b == q && (q * b + r) % b == r
  {
    var n := q * b + r;
    EuclidUnique(b, q, r, n / b, n % b);
  }

  lemma {:induction false} EuclidUnique(b: nat, q: nat, r: nat, q': nat, r': nat)
    requires r < b && r' < b && q * b + r == q' * b + r'
    ensures q == q' && r == r'
  {
    if q < q' {
      MulMonotone(q + 1, q', b, b);
      assert false;
    } else if q' < q {
      MulMonotone(q' + 1, q, b, b);
      assert false;
    }
  }

  /** Minimal digits are determined by the number they write. */
  lemma {:induction false} MinimalDigitsUnique(b: nat, ds: seq<nat>)
    requires b >= 2 && AreDigits(b, ds) && Minimal(ds)
    ensures ds == ToDigits(b, Value(b, ds))
  {
    if ds == [] {
    } else {
      var front, last := ds[..|ds| - 1], ds[|ds| - 1];
      MinimalDigitsUnique(b, front);
      ValuePositive(b, ds);
      DivModUnique(b, Value(b, front), last);
      assert ds == front + [last];
    }
  }

  /** The lexicographic order `std::array` uses. */
  predicate LexLess(xs: seq<nat>, ys: seq<nat>)
    requires |xs| == |ys|
  {
    xs != [] && (xs[0] < ys[0] || (xs[0] == ys[0] && LexLess(xs[1..], ys[1..])))
  }

  /** On equally long digit strings the lexicographic order is the numeric one. */
  lemma {:induction false} LexLessIsNumeric(b: nat, xs: seq<nat>, ys: seq<nat>)
    requires b > 0 && |xs| == |ys| && AreDigits(b, xs) && AreDigits(b, ys)
    ensures LexLess(xs, ys) <==> Value(b, xs) < Value(b, ys)
  {
    if xs == [] {
    } else {
      hide Value, Pow;
      LexLessIsNumeric(b, xs[1..], ys[1..]);
      assert xs == [xs[0]] + xs[1..] && ys == [ys[0]] + ys[1..];
      ValueCons(b, xs[0], xs[1..]);
      ValueCons(b, ys[0], ys[1..]);
      ValueBound(b, xs[1..]);
      ValueBound(b, ys[1..]);
      var p := Pow(b, |xs| - 1);
      if xs[0] < ys[0] {
        RoomForOneMore(p, xs[0], ys[0]);
      } else if ys[0] < xs[0] {
        RoomForOneMore(p, ys[0], xs[0]);
      }
    }
  }

  /** Equally long digit strings with the same value are the same. */
  lemma {:induction false} ValueInjective(b: nat, xs: seq<nat>, ys: seq<nat>)
    requires b > 0 && |xs| == |ys| && AreDigits(b, xs) && AreDigits(b, ys)
    requires Value(b, xs) == Value(b, ys)
    ensures xs == ys
  {
    if xs == [] {
    } else {
      var fx, fy := xs[..|xs| - 1], ys[..|ys| - 1];
      DivModUnique(b, Value(b, fx), xs[|xs| - 1]);
      DivModUnique(b, Value(b, fy), ys[|ys| - 1]);
      ValueInjective(b, fx, fy);
      assert xs == fx + [xs[|xs| - 1]] && ys == fy + [ys[|ys| - 1]];
    }
  }
}
